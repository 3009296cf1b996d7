/**
 Recovery: from the state any run has led to, fresh owners can settle every message of every log
 without a fault, so the safety and replay theorems are about something that happens.
 */
module Progress {
  import opened Wrappers
  import opened Records
  import opened Store
  import opened PartitionProtocol
  import opened Delivery
  import opened Replay

  function After(c: Config, s: State, steps: seq<Step>): State {
    if steps == [] then s else Apply(c, After(c, s, steps[..|steps| - 1]), steps[|steps| - 1])
  }

  lemma {:induction false} RunThenAfter(c: Config, steps: seq<Step>, more: seq<Step>)
    ensures Run(c, steps + more) == After(c, Run(c, steps), more)
  {
    if more == [] {
      assert steps + more == steps;
    } else {
      RunThenAfter(c, steps, more[..|more| - 1]);
      assert (steps + more)[..|steps| + |more| - 1] == steps + more[..|more| - 1];
    }
  }

  lemma {:induction false} AfterBoth(c: Config, s: State, a: seq<Step>, b: seq<Step>)
    ensures After(c, s, a + b) == After(c, After(c, s, a), b)
  {
    if b == [] {
      assert a + b == a;
    } else {
      AfterBoth(c, s, a, b[..|b| - 1]);
      assert (a + b)[..|a| + |b| - 1] == a + b[..|b| - 1];
    }
  }

  /** Nothing fails: no crash, no stop, no failed attempt, every answer arrives. */
  predicate FaultFree(step: Step) {
    match step
    case Local(_, act) => act == Act.Take || act == StoreOffset(true)
    case WriteDecision(_, acknowledged) => acknowledged
    case PublishLetter(_, acknowledged) => acknowledged
    case Crash(_) => false
    case _ => true
  }

  predicate AllFaultFree(steps: seq<Step>) {
    forall step :: step in steps ==> FaultFree(step)
  }

  /** Whatever the message, one of the two middle steps settles it and the other cannot happen. */
  function Round(w: nat): (steps: seq<Step>)
    ensures AllFaultFree(steps)
  {
    [Poll(w), Local(w, Act.Take), ReadVelocity(w), WriteDecision(w, true), PublishLetter(w, true), Local(w, StoreOffset(true))]
  }

  /** A new owner of the partition and its first n messages. */
  function Rounds(w: nat, p: nat, n: nat): (steps: seq<Step>)
    ensures AllFaultFree(steps)
  {
    if n == 0 then [Assign(w, p)] else Rounds(w, p, n - 1) + Round(w)
  }

  ghost predicate Waiting(s: State, w: nat, p: nat, o: nat) {
    w in s.owners && s.owners[w].(stored := None) == Assigned<Decision>(p, o)
  }

  /** No message is given up on the way from s to s'; what may be added is refused for good. */
  predicate OnlyRefused(s: State, s': State) {
    forall l :: l in s'.letters ==> l in s.letters || l.why.Permanent?
  }

  /** Nothing is unsettled, nothing is given up, nothing is committed, and no new owner appears but w. */
  ghost predicate Onward(c: Config, s: State, s': State, w: nat) {
    && (forall p: nat, o: nat :: Settled(c, s, p, o) ==> Settled(c, s', p, o))
    && OnlyRefused(s, s')
    && s'.owners.Keys == s.owners.Keys + {w}
    && s'.committed == s.committed
  }

  /** Take and score, or refuse, the next message. */
  lemma UpToWrite(c: Config, s: State, w: nat, p: nat, o: nat) returns (s3: State)
    requires c.highWatermark >= 1 && Waiting(s, w, p, o) && InLogs(c, p, o)
    ensures s3 == Apply(c, Apply(c, Apply(c, s, Poll(w)), Local(w, Act.Take)), ReadVelocity(w))
    ensures s3.tables == s.tables && s3.letters == s.letters && s3.committed == s.committed && s3.owners.Keys == s.owners.Keys
    ensures var owner := s3.owners[w];
            && owner.partition == p && owner.next == o + 1 && owner.queue == [] && !owner.stopping
            && (match BodyAt(c, p, o)
                case None => owner.phase == Undeliverable(o, Permanent, 1)
                case Some(e) => owner.phase == Scored(o, 0, 0, Decide(c.rules, s.tables.transactions, e)))
  {
    var s1 := Apply(c, s, Poll(w));
    assert s1.owners[w].queue == [Message(o)] && s1.owners[w].next == o + 1;
    var s2 := Apply(c, s1, Local(w, Act.Take));
    assert s2.owners[w].phase == Ready(o, 0, 0) && s2.owners[w].queue == [];
    s3 := Apply(c, s2, ReadVelocity(w));
  }

  lemma KeepsSettled(c: Config, s: State, s': State)
    requires s.tables.history <= s'.tables.history && s.letters <= s'.letters
    ensures forall p: nat, o: nat :: Settled(c, s, p, o) ==> Settled(c, s', p, o)
  {
    forall p: nat, o: nat | Recorded(c, s, p, o) ensures Recorded(c, s', p, o) {
      var i :| 0 <= i < |s.tables.history| && SameSource(s.tables.history[i].source, SourceAt(c, p, o));
      assert s'.tables.history[i] == s.tables.history[i];
    }
  }

  /** A scored message is written, or refused as a conflict and dead-lettered; an unparseable one is dead-lettered. */
  lemma WriteOrPublish(c: Config, s3: State, w: nat, p: nat, o: nat) returns (s5: State)
    requires w in s3.owners
    requires var owner := s3.owners[w];
             owner.partition == p && (owner.phase.Scored? || owner.phase.Undeliverable?) && owner.phase.offset == o
             && (owner.phase.Undeliverable? ==> owner.phase.why.Permanent?)
    ensures s5 == Apply(c, Apply(c, s3, WriteDecision(w, true)), PublishLetter(w, true))
    ensures s5.owners == s3.owners[w := s3.owners[w].(phase := Handled(o))]
    ensures Settled(c, s5, p, o) && Onward(c, s3, s5, w)
  {
    var s4 := Apply(c, s3, WriteDecision(w, true));
    s5 := Apply(c, s4, PublishLetter(w, true));
    var owner := s3.owners[w];
    if owner.phase.Scored? {
      if Record(s3.tables, owner.phase.decision, SourceAt(c, p, o)).1.Ok? {
        HasSourceAfter(s3.tables, owner.phase.decision, SourceAt(c, p, o), SourceAt(c, p, o));
      } else {
        assert s4.owners[w].phase.Undeliverable? && s4.owners[w].phase.why.Permanent?;
      }
    }
    KeepsSettled(c, s3, s5);
  }

  lemma OneRound(c: Config, s: State, w: nat, p: nat, o: nat)
    requires c.highWatermark >= 1 && Waiting(s, w, p, o) && InLogs(c, p, o)
    ensures var s' := After(c, s, Round(w));
            Waiting(s', w, p, o + 1) && Settled(c, s', p, o) && Onward(c, s, s', w)
  {
    var s3 := UpToWrite(c, s, w, p, o);
    KeepsSettled(c, s, s3);
    var s5 := WriteOrPublish(c, s3, w, p, o);
    var s6 := Apply(c, s5, Local(w, StoreOffset(true)));
    KeepsSettled(c, s5, s6);
    UnfoldRound(c, s, w);
    assert After(c, s, Round(w)) == s6;
  }

  lemma UnfoldRound(c: Config, s: State, w: nat)
    ensures After(c, s, Round(w)) ==
            Apply(c, Apply(c, Apply(c, Apply(c, Apply(c, Apply(c, s, Poll(w)), Local(w, Act.Take)), ReadVelocity(w)),
              WriteDecision(w, true)), PublishLetter(w, true)), Local(w, StoreOffset(true)))
  {
    var r := Round(w);
    assert r[..5] == [r[0], r[1], r[2], r[3], r[4]];
    assert r[..5][..4] == [r[0], r[1], r[2], r[3]];
    assert r[..5][..4][..3] == [r[0], r[1], r[2]];
    assert r[..5][..4][..3][..2] == [r[0], r[1]];
    assert r[..5][..4][..3][..2][..1] == [r[0]];
    assert r[..5][..4][..3][..2][..1][..0] == [];
    assert After(c, s, r[..5][..4][..3][..2][..1]) == Apply(c, s, r[0]);
    assert After(c, s, r[..5][..4][..3]) == Apply(c, Apply(c, After(c, s, r[..5][..4][..3][..2][..1]), r[1]), r[2]);
    assert After(c, s, r[..5]) == Apply(c, Apply(c, After(c, s, r[..5][..4][..3]), r[3]), r[4]);
  }

  // ---------------------------------------------------------------------------
  // One partition
  // ---------------------------------------------------------------------------

  /** From s on, the new owner w of partition p has settled the n messages from the committed offset on. */
  ghost predicate SettledBy(c: Config, s: State, s': State, w: nat, p: nat, n: nat)
    requires p < |s.committed|
  {
    && Waiting(s', w, p, s.committed[p] + n)
    && Onward(c, s, s', w)
    && forall o: nat :: s.committed[p] <= o < s.committed[p] + n ==> Settled(c, s', p, o)
  }

  lemma NoRounds(c: Config, s: State, w: nat, p: nat)
    requires p < |s.committed| && w !in s.owners
    ensures SettledBy(c, s, After(c, s, Rounds(w, p, 0)), w, p, 0)
  {
    var one := [Assign(w, p)];
    assert one[..0] == [] && After(c, s, one[..0]) == s;
    assert After(c, s, one) == Apply(c, s, Assign(w, p));
    KeepsSettled(c, s, After(c, s, one));
  }

  lemma OneMoreRound(c: Config, s: State, before: State, w: nat, p: nat, n: nat)
    requires c.highWatermark >= 1 && p < |s.committed| && SettledBy(c, s, before, w, p, n)
    requires InLogs(c, p, s.committed[p] + n)
    ensures SettledBy(c, s, After(c, before, Round(w)), w, p, n + 1)
  {
    OneRound(c, before, w, p, s.committed[p] + n);
  }

  lemma {:induction false} ManyRounds(c: Config, s: State, w: nat, p: nat, n: nat)
    requires c.highWatermark >= 1 && p < |c.logs| == |s.committed| && s.committed[p] + n <= |c.logs[p]|
    requires w !in s.owners
    ensures SettledBy(c, s, After(c, s, Rounds(w, p, n)), w, p, n)
  {
    if n == 0 {
      NoRounds(c, s, w, p);
    } else {
      ManyRounds(c, s, w, p, n - 1);
      AfterBoth(c, s, Rounds(w, p, n - 1), Round(w));
      OneMoreRound(c, s, After(c, s, Rounds(w, p, n - 1)), w, p, n - 1);
    }
  }

  // ---------------------------------------------------------------------------
  // Every partition
  // ---------------------------------------------------------------------------

  /** An owner number above all those in use. */
  lemma {:induction false} Unused(used: set<nat>) returns (w: nat)
    ensures forall x :: x in used ==> x < w
  {
    if used == {} {
      w := 0;
    } else {
      var x :| x in used;
      var rest := Unused(used - {x});
      w := if x < rest then rest else x + 1;
      forall y | y in used ensures y < w {
        if y != x { assert y in used - {x}; }
      }
    }
  }

  /** What is committed is settled and within the logs. */
  ghost predicate CommittedSettled(c: Config, s: State) {
    && |s.committed| == |c.logs|
    && (forall p :: 0 <= p < |c.logs| ==> s.committed[p] <= |c.logs[p]|)
    && (forall p: nat, o: nat :: p < |c.logs| && o < s.committed[p] ==> Settled(c, s, p, o))
  }

  ghost predicate SettledBefore(c: Config, s: State, partitions: nat) {
    forall p: nat, o: nat :: p < partitions && InLogs(c, p, o) ==> Settled(c, s, p, o)
  }

  lemma OnePartition(c: Config, s: State, p: nat) returns (more: seq<Step>)
    requires c.highWatermark >= 1 && p < |c.logs| && CommittedSettled(c, s) && SettledBefore(c, s, p)
    ensures AllFaultFree(more)
    ensures var s' := After(c, s, more); CommittedSettled(c, s') && SettledBefore(c, s', p + 1) && OnlyRefused(s, s')
  {
    var w := Unused(s.owners.Keys);
    var n := |c.logs[p]| - s.committed[p];
    more := Rounds(w, p, n);
    ManyRounds(c, s, w, p, n);
    var s' := After(c, s, more);
    forall q: nat, o: nat | q < p + 1 && InLogs(c, q, o) ensures Settled(c, s', q, o) {
      if q < p || o < s.committed[p] { assert Settled(c, s, q, o); }
    }
  }

  lemma {:induction false} FinishPartitions(c: Config, s: State, partitions: nat) returns (more: seq<Step>)
    requires c.highWatermark >= 1 && partitions <= |c.logs| && CommittedSettled(c, s)
    ensures AllFaultFree(more)
    ensures var s' := After(c, s, more); CommittedSettled(c, s') && SettledBefore(c, s', partitions) && OnlyRefused(s, s')
  {
    if partitions == 0 {
      more := [];
    } else {
      var first := FinishPartitions(c, s, partitions - 1);
      var last := OnePartition(c, After(c, s, first), partitions - 1);
      more := first + last;
      AfterBoth(c, s, first, last);
    }
  }

  /**
   Recovery: whatever a run has done, crashes and all, some fault-free continuation settles every message of every
   log and gives up on none beyond those given up already. If none was, it ends with the reference table.
   */
  lemma EveryRunCanFinish(c: Config, homes: Homes, steps: seq<Step>) returns (more: seq<Step>)
    requires c.highWatermark >= 1
    ensures AllFaultFree(more)
    ensures AllSettled(c, Run(c, steps + more)) && OnlyRefused(Run(c, steps), Run(c, steps + more))
    ensures Confined(c, homes) && NothingGivenUp(Run(c, steps)) ==> DecisionsTable(Run(c, steps + more)) == Reference(c)
  {
    EveryRunIsSafe(c, steps);
    CommittedPrefix(c, steps);
    more := FinishPartitions(c, Run(c, steps), |c.logs|);
    RunThenAfter(c, steps, more);
    if Confined(c, homes) && NothingGivenUp(Run(c, steps)) {
      ReplayDeterminism(c, homes, steps + more);
    }
  }

  /** From the start: a run with no fault at all settles every message, gives up on none and ends with the reference table. */
  lemma FaultFreeRunSettlesAll(c: Config, homes: Homes) returns (steps: seq<Step>)
    requires c.highWatermark >= 1
    ensures AllFaultFree(steps)
    ensures var s := Run(c, steps);
            NothingGivenUp(s) && AllSettled(c, s) && (Confined(c, homes) ==> DecisionsTable(s) == Reference(c))
  {
    steps := EveryRunCanFinish(c, homes, []);
    assert [] + steps == steps;
  }
}
