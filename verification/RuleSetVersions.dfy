/**
 The append-only rule_set_versions table under any number of racing publishers, each reading the
 highest version in one step and inserting in another, and the paging of a key's history.
 */
module RuleSetVersions {
  import opened Wrappers

  /** What a version says, whatever that is; versions are compared only by key and number. */
  datatype VersionRow<B> = VersionRow(key: string, version: nat, body: B)

  datatype Refusal = StaleGuard | LostRace

  datatype Stage = Starting | HasRead(current: nat) | Published(version: nat) | Refused(why: Refusal)

  datatype Writer<B> = Writer(key: string, body: B, expected: Option<nat>, stage: Stage)

  datatype State<B> = State(rows: seq<VersionRow<B>>, writers: map<nat, Writer<B>>)

  datatype Step<B> =
    | Request(writer: nat, key: string, body: B, expected: Option<nat>)
    | ReadMax(writer: nat)
    | Insert(writer: nat)

  /** `coalesce(max(version), 0)` over the key's rows. */
  function CurrentVersion<B>(rows: seq<VersionRow<B>>, key: string): nat {
    if rows == [] then 0
    else
      var rest, last := CurrentVersion(rows[..|rows| - 1], key), rows[|rows| - 1];
      if last.key == key && last.version > rest then last.version else rest
  }

  predicate Taken<B>(rows: seq<VersionRow<B>>, key: string, version: nat) {
    exists i :: 0 <= i < |rows| && rows[i].key == key && rows[i].version == version
  }

  function AfterRead<B>(w: Writer<B>, current: nat): Stage {
    if w.expected.Some? && w.expected.value != current then Refused(StaleGuard) else HasRead(current)
  }

  /** The unique constraint on (key, version) refuses the insert of a number already taken. */
  function AfterInsert<B>(rows: seq<VersionRow<B>>, w: Writer<B>): (seq<VersionRow<B>>, Stage)
    requires w.stage.HasRead?
  {
    var version := w.stage.current + 1;
    if Taken(rows, w.key, version) then (rows, Refused(LostRace))
    else (rows + [VersionRow(w.key, version, w.body)], Published(version))
  }

  function Apply<B>(s: State<B>, step: Step<B>): State<B> {
    match step
    case Request(w, key, body, expected) =>
      if w in s.writers then s else s.(writers := s.writers[w := Writer(key, body, expected, Starting)])
    case ReadMax(w) =>
      if w !in s.writers || !s.writers[w].stage.Starting? then s
      else
        var writer := s.writers[w];
        s.(writers := s.writers[w := writer.(stage := AfterRead(writer, CurrentVersion(s.rows, writer.key)))])
    case Insert(w) =>
      if w !in s.writers || !s.writers[w].stage.HasRead? then s
      else
        var (rows, stage) := AfterInsert(s.rows, s.writers[w]);
        State(rows, s.writers[w := s.writers[w].(stage := stage)])
  }

  function Run<B>(steps: seq<Step<B>>): State<B> {
    if steps == [] then State([], map[]) else Apply(Run(steps[..|steps| - 1]), steps[|steps| - 1])
  }

  // ---------------------------------------------------------------------------
  // The reference: one atomic append
  // ---------------------------------------------------------------------------

  /** The history of a key, in the order it was written. */
  function History<B>(rows: seq<VersionRow<B>>, key: string): seq<VersionRow<B>> {
    if rows == [] then []
    else History(rows[..|rows| - 1], key) + (if rows[|rows| - 1].key == key then [rows[|rows| - 1]] else [])
  }

  /** Check the guard against the history and append the next number, in one step. */
  function AtomicAppend<B>(rows: seq<VersionRow<B>>, key: string, body: B, expected: Option<nat>): Option<seq<VersionRow<B>>> {
    var n := |History(rows, key)|;
    if expected.Some? && expected.value != n then None else Some(rows + [VersionRow(key, n + 1, body)])
  }

  /** A key's versions are exactly 1..n, in order. */
  ghost predicate Consecutive<B>(rows: seq<VersionRow<B>>) {
    forall key, i :: 0 <= i < |History(rows, key)| ==> History(rows, key)[i].version == i + 1
  }

  // ---------------------------------------------------------------------------
  // Racing publishers
  // ---------------------------------------------------------------------------

  lemma HistorySnoc<B>(rows: seq<VersionRow<B>>, row: VersionRow<B>, key: string)
    ensures History(rows + [row], key) == History(rows, key) + (if row.key == key then [row] else [])
  {
    assert (rows + [row])[..|rows|] == rows;
  }

  lemma {:induction false} HistoryMembers<B>(rows: seq<VersionRow<B>>, key: string, row: VersionRow<B>)
    ensures row in History(rows, key) <==> row in rows && row.key == key
  {
    if rows != [] {
      var n := |rows| - 1;
      HistoryMembers(rows[..n], key, row);
      assert rows == rows[..n] + [rows[n]];
    }
  }

  /** With consecutive versions, the maximum is the length of the history and exactly 1..n are taken. */
  lemma {:induction false} MaxIsLength<B>(rows: seq<VersionRow<B>>, key: string)
    requires Consecutive(rows)
    ensures CurrentVersion(rows, key) == |History(rows, key)|
    ensures forall v: nat :: Taken(rows, key, v) <==> 1 <= v <= |History(rows, key)|
  {
    MaxFromHistory(rows, key);
    var h := History(rows, key);
    forall v: nat ensures Taken(rows, key, v) <==> 1 <= v <= |h| {
      if Taken(rows, key, v) {
        var i :| 0 <= i < |rows| && rows[i].key == key && rows[i].version == v;
        HistoryMembers(rows, key, rows[i]);
        assert rows[i] in rows;
        var j :| 0 <= j < |h| && h[j] == rows[i];
        assert h[j].version == j + 1;
      }
      if 1 <= v <= |h| {
        assert h[v - 1].version == v && h[v - 1] in h;
        HistoryMembers(rows, key, h[v - 1]);
        var i :| 0 <= i < |rows| && rows[i] == h[v - 1];
        assert Taken(rows, key, v);
      }
    }
  }

  lemma {:induction false} MaxFromHistory<B>(rows: seq<VersionRow<B>>, key: string)
    requires forall i :: 0 <= i < |History(rows, key)| ==> History(rows, key)[i].version == i + 1
    ensures CurrentVersion(rows, key) == |History(rows, key)|
  {
    if rows != [] {
      var n := |rows| - 1;
      var h, before := History(rows, key), History(rows[..n], key);
      forall i | 0 <= i < |before| ensures before[i].version == i + 1 {
        assert h[i] == before[i];
      }
      MaxFromHistory(rows[..n], key);
      if rows[n].key == key { assert h[|before|] == rows[n]; }
    }
  }

  ghost predicate ReadsArePast<B>(s: State<B>) {
    forall w :: w in s.writers && s.writers[w].stage.HasRead? ==>
      && s.writers[w].stage.current <= |History(s.rows, s.writers[w].key)|
      && (s.writers[w].expected.Some? ==> s.writers[w].expected.value == s.writers[w].stage.current)
  }

  ghost predicate Safe<B>(s: State<B>) {
    Consecutive(s.rows) && ReadsArePast(s)
  }

  /**
   An insert behaves as the atomic append at that very moment, or changes nothing: it succeeds iff the key is
   still at the version the writer read, and then it appends the next number directly on top of it.
   */
  lemma InsertIsAtomic<B>(s: State<B>, w: nat)
    requires Safe(s) && w in s.writers && s.writers[w].stage.HasRead?
    ensures var writer := s.writers[w];
            var s' := Apply(s, Insert(w));
            var n := |History(s.rows, writer.key)|;
            && (s'.writers[w].stage.Published? <==> writer.stage.current == n)
            && (s'.writers[w].stage.Published? ==>
                  s'.writers[w].stage.version == n + 1
                  && Some(s'.rows) == AtomicAppend(s.rows, writer.key, writer.body, writer.expected))
            && (!s'.writers[w].stage.Published? ==> s'.rows == s.rows && s'.writers[w].stage == Refused(LostRace))
            && (s'.writers[w].stage.Published? && writer.expected.Some? ==>
                  s'.writers[w].stage.version == writer.expected.value + 1)
  {
    MaxIsLength(s.rows, s.writers[w].key);
  }

  lemma AppendKeepsConsecutive<B>(rows: seq<VersionRow<B>>, key: string, body: B)
    requires Consecutive(rows)
    ensures var rows' := rows + [VersionRow(key, |History(rows, key)| + 1, body)];
            Consecutive(rows') && forall k :: |History(rows', k)| >= |History(rows, k)|
  {
    var row := VersionRow(key, |History(rows, key)| + 1, body);
    forall k ensures History(rows + [row], k) == History(rows, k) + (if row.key == k then [row] else []) {
      HistorySnoc(rows, row, k);
    }
  }

  lemma StepKeepsSafe<B>(s: State<B>, step: Step<B>)
    requires Safe(s)
    ensures Safe(Apply(s, step)) && s.rows <= Apply(s, step).rows
  {
    match step
    case Request(_, _, _, _) =>
    case ReadMax(w) =>
      if w in s.writers { MaxIsLength(s.rows, s.writers[w].key); }
    case Insert(w) =>
      if w in s.writers && s.writers[w].stage.HasRead? {
        InsertIsAtomic(s, w);
        AppendKeepsConsecutive(s.rows, s.writers[w].key, s.writers[w].body);
      }
  }

  /** However many publishers race, every key's versions are exactly 1..n and are never overwritten. */
  lemma {:induction false} VersionsStayConsecutive<B>(steps: seq<Step<B>>, n: nat)
    requires n <= |steps|
    ensures Safe(Run(steps)) && Run(steps[..n]).rows <= Run(steps).rows
    decreases |steps|
  {
    if steps != [] {
      var m := |steps| - 1;
      if n <= m {
        VersionsStayConsecutive(steps[..m], n);
        assert steps[..m][..n] == steps[..n];
      } else {
        VersionsStayConsecutive(steps[..m], m);
        assert steps[..n] == steps;
      }
      StepKeepsSafe(Run(steps[..m]), steps[m]);
    }
  }

  /** A refused guard was wrong at the moment of the read: the key was not at the expected version. */
  lemma GuardRefusedOnlyWhenStale<B>(s: State<B>, w: nat)
    requires Safe(s) && w in s.writers && s.writers[w].stage.Starting?
    ensures var e, n := s.writers[w].expected, |History(s.rows, s.writers[w].key)|;
            Apply(s, ReadMax(w)).writers[w].stage == if e.Some? && e.value != n then Refused(StaleGuard) else HasRead(n)
  {
    MaxIsLength(s.rows, s.writers[w].key);
  }

  /** A publisher that has asked and read, not knowing of any other. */
  function AskAndRead<B>(s: State<B>, w: nat, key: string, body: B, expected: Option<nat>): State<B> {
    Apply(Apply(s, Request(w, key, body, expected)), ReadMax(w))
  }

  lemma ReadyToInsert<B>(s: State<B>, w: nat, key: string, body: B, expected: Option<nat>)
    requires Safe(s) && w !in s.writers && (expected.Some? ==> expected.value == |History(s.rows, key)|)
    ensures var s' := AskAndRead(s, w, key, body, expected);
            Safe(s') && s' == s.(writers := s.writers[w := Writer(key, body, expected, HasRead(|History(s.rows, key)|))])
  {
    var asked := Apply(s, Request(w, key, body, expected));
    StepKeepsSafe(s, Request(w, key, body, expected));
    StepKeepsSafe(asked, ReadMax(w));
    GuardRefusedOnlyWhenStale(asked, w);
  }

  /**
   Two publishers that read one version, unguarded or guarded on it: the first to insert publishes the next number
   and the other loses the race, whatever it wanted to publish.
   */
  lemma OneOfTwoWins<B>(s: State<B>, v: nat, w: nat, key: string, first: B, second: B, guard: Option<nat>, other: Option<nat>)
    requires Safe(s) && v != w && v !in s.writers && w !in s.writers
    requires guard.None? || guard.value == |History(s.rows, key)|
    requires other.None? || other.value == |History(s.rows, key)|
    ensures var n := |History(s.rows, key)|;
            var both := AskAndRead(AskAndRead(s, v, key, first, guard), w, key, second, other);
            var s' := Apply(Apply(both, Insert(v)), Insert(w));
            && s'.rows == s.rows + [VersionRow(key, n + 1, first)]
            && s'.writers[v].stage == Published(n + 1) && s'.writers[w].stage == Refused(LostRace)
  {
    ReadyToInsert(s, v, key, first, guard);
    var one := AskAndRead(s, v, key, first, guard);
    ReadyToInsert(one, w, key, second, other);
    var both := AskAndRead(one, w, key, second, other);
    InsertIsAtomic(both, v);
    StepKeepsSafe(both, Insert(v));
    HistorySnoc(s.rows, VersionRow(key, |History(s.rows, key)| + 1, first), key);
    InsertIsAtomic(Apply(both, Insert(v)), w);
  }

  // ---------------------------------------------------------------------------
  // The write as it is written
  // ---------------------------------------------------------------------------

  /** Other publishers' commits, one atomic append each. */
  function Commits<B>(rows: seq<VersionRow<B>>, others: seq<(string, B)>): seq<VersionRow<B>> {
    if others == [] then rows
    else
      var before := Commits(rows, others[..|others| - 1]);
      var (key, body) := others[|others| - 1];
      before + [VersionRow(key, |History(before, key)| + 1, body)]
  }

  class VersionStore<B> {
    var rows: seq<VersionRow<B>>

    constructor ()
      ensures rows == []
    {
      rows := [];
    }

    /** INSERT, refused by the unique constraint when the number is taken. */
    method InsertVersion(row: VersionRow<B>) returns (inserted: bool)
      requires Consecutive(rows) && 1 <= row.version <= |History(rows, row.key)| + 1
      modifies this
      ensures Consecutive(rows)
      ensures inserted == (row.version == |History(old(rows), row.key)| + 1)
      ensures rows == if inserted then old(rows) + [row] else old(rows)
    {
      MaxIsLength(rows, row.key);
      inserted := !Taken(rows, row.key, row.version);
      if inserted {
        AppendKeepsConsecutive(rows, row.key, row.body);
        rows := rows + [row];
      }
    }

    /** `meanwhile` is what other publishers commit between this transaction's read and its insert. */
    method CreateRuleSetVersion(key: string, body: B, expected: Option<nat>, meanwhile: seq<(string, B)>)
      returns (r: Result<VersionRow<B>, Refusal>)
      requires Consecutive(rows)
      modifies this
      ensures Consecutive(rows)
      ensures var now := Commits(old(rows), meanwhile);
              var read, current := |History(old(rows), key)|, |History(now, key)|;
              if expected.Some? && expected.value != read then r == Err(StaleGuard) && rows == old(rows)
              else if read != current then r == Err(LostRace) && rows == now
              else r == Ok(VersionRow(key, current + 1, body)) && Some(rows) == AtomicAppend(now, key, body, expected)
    {
      MaxFromHistory(rows, key);
      var current := CurrentVersion(rows, key);
      if expected.Some? && current != expected.value {
        return Err(StaleGuard);
      }
      var row := VersionRow(key, current + 1, body);
      OthersCommit(rows, meanwhile, key);
      rows := Commits(rows, meanwhile);
      var inserted := InsertVersion(row);
      return if inserted then Ok(row) else Err(LostRace);
    }
  }

  lemma {:induction false} OthersCommit<B>(rows: seq<VersionRow<B>>, others: seq<(string, B)>, key: string)
    requires Consecutive(rows)
    ensures Consecutive(Commits(rows, others)) && |History(Commits(rows, others), key)| >= |History(rows, key)|
  {
    if others != [] {
      var n := |others| - 1;
      OthersCommit(rows, others[..n], key);
      AppendKeepsConsecutive(Commits(rows, others[..n]), others[n].0, others[n].1);
    }
  }
}
