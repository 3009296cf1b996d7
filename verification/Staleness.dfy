/**
 How old a cached rule set can be. Time is real; a hop is the in-flight time between reading a
 version somewhere and its copy taking effect somewhere else, and no hop takes longer than a bound.
 Any number of providers, publishers, overlapping calls, failed and out-of-order Redis writes, and
 in-place edits that make a row or the Redis entry fail its integrity check.
 */
module Staleness {
  import opened Wrappers

  /** A copy of a version, with the moment it was taken from PostgreSQL. */
  datatype Copy = Copy(version: nat, asOf: real)

  datatype RedisEntry = RedisEntry(copy: Copy, writtenAt: real)

  datatype LocalCopy = LocalCopy(copy: Copy, cachedAt: real)

  /** A copy on its way: to Redis, from a provider or a publisher, or into the memory of a provider that read it at `since`. */
  datatype Flight = ToRedis(writer: Option<nat>, copy: Copy) | ToLocal(provider: nat, copy: Copy, since: real)

  datatype Config = Config(localTtl: real, redisTtl: real, hop: real)

  datatype State = State(
    now: real,
    commits: seq<real>,              // commits[i] is when version i + 1 was committed
    redis: Option<RedisEntry>,
    locals: map<nat, LocalCopy>,
    flights: seq<Flight>,
    newest: nat,                     // the highest version whose Redis write has landed or been lost
    damaged: map<nat, real>)         // versions whose row does not load, with when it was edited

  datatype Step =
    | Tick(elapsed: real)
    | Publish                        // commit the next version, then overwrite the Redis entry
    | ReadDatabase(provider: nat)    // then write Redis and keep a local copy
    | ReadRedis(provider: nat)
    | Land(flight: nat)
    | Lose(flight: nat)              // a failed Redis write, or a crash
    | Damage(version: nat)           // the row is edited in place and no longer loads
    | Repair(version: nat)           // it is edited back
    | SpoilRedis                     // the Redis entry is edited in place, or evicted

  const START := State(0.0, [], None, map[], [], 0, map[])

  function Without(flights: seq<Flight>, i: nat): seq<Flight>
    requires i < |flights|
  {
    flights[..i] + flights[i + 1..]
  }

  /** A Redis entry is served until its time to live has passed. */
  predicate Live(c: Config, s: State) {
    s.redis.Some? && s.now < s.redis.value.writtenAt + c.redisTtl
  }

  function Deadline(c: Config, f: Flight): real {
    (if f.ToRedis? then f.copy.asOf else f.since) + c.hop
  }

  /** No flight would still be on its way after its deadline. */
  predicate CanWait(c: Config, s: State, elapsed: real) {
    elapsed >= 0.0 && forall i :: 0 <= i < |s.flights| ==> s.now + elapsed <= Deadline(c, s.flights[i])
  }

  function Max(x: nat, y: nat): nat { if x > y then x else y }

  /** Flight i is over, whichever way it ended. */
  function Settle(s: State, i: nat): State
    requires i < |s.flights|
  {
    s.(flights := Without(s.flights, i),
       newest := if s.flights[i].ToRedis? then Max(s.newest, s.flights[i].copy.version) else s.newest)
  }

  function Apply(c: Config, s: State, step: Step): State {
    match step
    case Tick(elapsed) => if CanWait(c, s, elapsed) then s.(now := s.now + elapsed) else s
    case Publish =>
      s.(commits := s.commits + [s.now], flights := s.flights + [ToRedis(None, Copy(|s.commits| + 1, s.now))])
    case ReadDatabase(p) =>
      if s.commits == [] || |s.commits| in s.damaged then s     // no version, or the active one is refused
      else
        var copy := Copy(|s.commits|, s.now);
        s.(flights := s.flights + [ToRedis(Some(p), copy), ToLocal(p, copy, s.now)])
    case ReadRedis(p) =>
      if Live(c, s) then s.(flights := s.flights + [ToLocal(p, s.redis.value.copy, s.now)]) else s
    case Land(i) =>
      if i >= |s.flights| then s
      else
        (match s.flights[i]
         case ToRedis(_, copy) => Settle(s, i).(redis := Some(RedisEntry(copy, s.now)))
         case ToLocal(p, copy, _) => Settle(s, i).(locals := s.locals[p := LocalCopy(copy, s.now)]))
    case Lose(i) => if i < |s.flights| then Settle(s, i) else s
    case Damage(v) => if 1 <= v <= |s.commits| && v !in s.damaged then s.(damaged := s.damaged[v := s.now]) else s
    case Repair(v) => s.(damaged := s.damaged - {v})
    case SpoilRedis => s.(redis := None)
  }

  function Run(c: Config, steps: seq<Step>): State {
    if steps == [] then START else Apply(c, Run(c, steps[..|steps| - 1]), steps[|steps| - 1])
  }

  /** `get_active` answers from memory while the local time to live lasts. */
  predicate Answers(c: Config, s: State, p: nat) {
    p in s.locals && s.now - s.locals[p].cachedAt < c.localTtl
  }

  /** The version was the key's latest at that moment: committed by then, and no later one committed before it. */
  predicate LatestAt(commits: seq<real>, version: nat, at: real) {
    1 <= version <= |commits| && commits[version - 1] <= at && (version < |commits| ==> at <= commits[version])
  }

  ghost predicate Genuine(s: State, copy: Copy) {
    LatestAt(s.commits, copy.version, copy.asOf) && copy.asOf <= s.now
  }

  ghost predicate FlightOk(c: Config, s: State, f: Flight) {
    && Genuine(s, f.copy)
    && s.now <= Deadline(c, f)
    && (f.ToLocal? ==> f.copy.asOf <= f.since <= s.now && f.since - f.copy.asOf < c.redisTtl + c.hop)
  }

  ghost predicate RedisOk(c: Config, s: State) {
    s.redis.Some? ==> Genuine(s, s.redis.value.copy) && s.redis.value.writtenAt <= s.now
                      && s.redis.value.writtenAt - s.redis.value.copy.asOf <= c.hop
  }

  ghost predicate LocalOk(c: Config, s: State, l: LocalCopy) {
    && Genuine(s, l.copy)
    && l.copy.asOf <= l.cachedAt <= s.now
    && l.cachedAt - l.copy.asOf < c.redisTtl + 2.0 * c.hop
  }

  ghost predicate Bounded(c: Config, s: State) {
    && (forall i :: 0 <= i < |s.commits| ==> s.commits[i] <= s.now)
    && (forall i, j :: 0 <= i < j < |s.commits| ==> s.commits[i] <= s.commits[j])
    && RedisOk(c, s)
    && (forall i :: 0 <= i < |s.flights| ==> FlightOk(c, s, s.flights[i]))
    && (forall p :: p in s.locals ==> LocalOk(c, s, s.locals[p]))
  }

  ghost predicate Plausible(c: Config) {
    c.localTtl >= 0.0 && c.redisTtl >= 1.0 && c.hop >= 0.0
  }

  lemma StillGenuine(s: State, s': State, copy: Copy)
    requires Genuine(s, copy) && s.now <= s'.now
    requires s'.commits == s.commits || s'.commits == s.commits + [s.now]
    ensures Genuine(s', copy)
  {
  }

  /** Time passes, or a version is committed: what was genuine stays so. */
  lemma MovingOnKeepsBounded(c: Config, s: State, step: Step)
    requires Plausible(c) && Bounded(c, s) && (step.Tick? || step.Publish?)
    ensures Bounded(c, Apply(c, s, step))
  {
    var s' := Apply(c, s, step);
    if s.redis.Some? { StillGenuine(s, s', s.redis.value.copy); }
    forall p | p in s'.locals ensures LocalOk(c, s', s'.locals[p]) {
      StillGenuine(s, s', s.locals[p].copy);
    }
    forall i | 0 <= i < |s'.flights| ensures FlightOk(c, s', s'.flights[i]) {
      if i < |s.flights| {
        assert FlightOk(c, s, s.flights[i]);
        StillGenuine(s, s', s.flights[i].copy);
      }
    }
  }

  lemma WithoutMember(flights: seq<Flight>, i: nat, j: nat)
    requires i < |flights| && j < |Without(flights, i)|
    ensures Without(flights, i)[j] == flights[if j < i then j else j + 1]
  {
  }

  lemma SettleKeepsBounded(c: Config, s: State, i: nat)
    requires Bounded(c, s) && i < |s.flights|
    ensures Bounded(c, Settle(s, i))
  {
    var s' := Settle(s, i);
    forall j | 0 <= j < |s'.flights| ensures FlightOk(c, s', s'.flights[j]) {
      WithoutMember(s.flights, i, j);
      assert FlightOk(c, s, s.flights[if j < i then j else j + 1]);
    }
  }

  /** A flight that lands leaves an entry, or a local copy, within its share of the bound. */
  lemma LandingKeepsBounded(c: Config, rest: State, f: Flight)
    requires Bounded(c, rest) && FlightOk(c, rest, f)
    ensures f.ToRedis? ==> Bounded(c, rest.(redis := Some(RedisEntry(f.copy, rest.now))))
    ensures f.ToLocal? ==> Bounded(c, rest.(locals := rest.locals[f.provider := LocalCopy(f.copy, rest.now)]))
  {
    var s' := if f.ToRedis? then rest.(redis := Some(RedisEntry(f.copy, rest.now)))
              else rest.(locals := rest.locals[f.provider := LocalCopy(f.copy, rest.now)]);
    forall j | 0 <= j < |s'.flights| ensures FlightOk(c, s', s'.flights[j]) {
      assert FlightOk(c, rest, rest.flights[j]);
    }
    forall p | p in s'.locals ensures LocalOk(c, s', s'.locals[p]) {
      if s'.locals == rest.locals || (f.ToLocal? && p != f.provider) { assert LocalOk(c, rest, rest.locals[p]); }
    }
  }

  lemma ReadKeepsBounded(c: Config, s: State, step: Step)
    requires Plausible(c) && Bounded(c, s) && (step.ReadDatabase? || step.ReadRedis?)
    ensures Bounded(c, Apply(c, s, step))
  {
    var s' := Apply(c, s, step);
    forall j | 0 <= j < |s'.flights| ensures FlightOk(c, s', s'.flights[j]) {
      if j < |s.flights| { assert FlightOk(c, s, s.flights[j]); }
    }
    forall p | p in s'.locals ensures LocalOk(c, s', s'.locals[p]) {
      assert LocalOk(c, s, s.locals[p]);
    }
  }

  lemma EditKeepsBounded(c: Config, s: State, step: Step)
    requires Bounded(c, s) && (step.Damage? || step.Repair? || step.SpoilRedis?)
    ensures Bounded(c, Apply(c, s, step))
  {
    var s' := Apply(c, s, step);
    forall p | p in s'.locals ensures LocalOk(c, s', s'.locals[p]) { assert LocalOk(c, s, s.locals[p]); }
    forall i | 0 <= i < |s'.flights| ensures FlightOk(c, s', s'.flights[i]) { assert FlightOk(c, s, s.flights[i]); }
  }

  lemma StepKeepsBounded(c: Config, s: State, step: Step)
    requires Plausible(c) && Bounded(c, s)
    ensures Bounded(c, Apply(c, s, step))
  {
    match step
    case Tick(_) => MovingOnKeepsBounded(c, s, step);
    case Publish => MovingOnKeepsBounded(c, s, step);
    case ReadDatabase(_) => ReadKeepsBounded(c, s, step);
    case ReadRedis(_) => ReadKeepsBounded(c, s, step);
    case Land(i) =>
      if i < |s.flights| {
        SettleKeepsBounded(c, s, i);
        assert FlightOk(c, s, s.flights[i]);
        LandingKeepsBounded(c, Settle(s, i), s.flights[i]);
      }
    case Lose(i) =>
      if i < |s.flights| { SettleKeepsBounded(c, s, i); }
    case Damage(_) => EditKeepsBounded(c, s, step);
    case Repair(_) => EditKeepsBounded(c, s, step);
    case SpoilRedis => EditKeepsBounded(c, s, step);
  }

  lemma {:induction false} EveryRunIsBounded(c: Config, steps: seq<Step>)
    requires Plausible(c)
    ensures Bounded(c, Run(c, steps))
  {
    if steps != [] {
      EveryRunIsBounded(c, steps[..|steps| - 1]);
      StepKeepsBounded(c, Run(c, steps[..|steps| - 1]), steps[|steps| - 1]);
    }
  }

  /**
   The staleness bound: whatever is published, lost, expired and read, the version a provider answers with was
   the key's latest at some moment later than now minus both times to live and two hops.
   */
  lemma StalenessBound(c: Config, steps: seq<Step>, p: nat)
    requires Plausible(c) && Answers(c, Run(c, steps), p)
    ensures var s := Run(c, steps);
            var copy := s.locals[p].copy;
            && LatestAt(s.commits, copy.version, copy.asOf)
            && s.now - (c.localTtl + c.redisTtl + 2.0 * c.hop) < copy.asOf <= s.now
  {
    EveryRunIsBounded(c, steps);
    assert LocalOk(c, Run(c, steps), Run(c, steps).locals[p]);
  }

  /** The same for a version that a provider has just fetched and is about to answer with. */
  lemma FreshAnswerBound(c: Config, steps: seq<Step>, i: nat)
    requires Plausible(c) && i < |Run(c, steps).flights| && Run(c, steps).flights[i].ToLocal?
    ensures var s := Run(c, steps);
            var copy := s.flights[i].copy;
            && LatestAt(s.commits, copy.version, copy.asOf)
            && s.now - (c.redisTtl + 2.0 * c.hop) < copy.asOf <= s.now
  {
    EveryRunIsBounded(c, steps);
    assert FlightOk(c, Run(c, steps), Run(c, steps).flights[i]);
  }

  /** With instantaneous hops this is the documented bound, so a version superseded that long ago is never used. */
  lemma SupersededVersionIsDropped(c: Config, steps: seq<Step>, p: nat)
    requires Plausible(c) && Answers(c, Run(c, steps), p)
    ensures var s := Run(c, steps);
            var v := s.locals[p].copy.version;
            v < |s.commits| ==> s.now - s.commits[v] < c.localTtl + c.redisTtl + 2.0 * c.hop
  {
    StalenessBound(c, steps, p);
  }

  // ---------------------------------------------------------------------------
  // When the documented bound, the two times to live alone, is met
  // ---------------------------------------------------------------------------

  /** If provider p answers from memory, its version was superseded no longer ago than the two times to live. */
  predicate MeetsDocumented(c: Config, s: State, p: nat) {
    Answers(c, s, p) ==>
      var v := s.locals[p].copy.version; v < |s.commits| ==> s.now - s.commits[v] <= c.localTtl + c.redisTtl
  }

  lemma RunMore(c: Config, steps: seq<Step>, step: Step)
    ensures Run(c, steps + [step]) == Apply(c, Run(c, steps), step)
  {
    assert (steps + [step])[..|steps|] == steps;
  }

  /** Version 1 reaches Redis a whole hop after version 2 was committed and version 2's own write was lost. */
  lemma LateArrival(c: Config) returns (steps: seq<Step>)
    requires Plausible(c)
    ensures Run(c, steps) == State(c.hop, [0.0, 0.0], Some(RedisEntry(Copy(1, 0.0), c.hop)), map[], [], 2, map[])
  {
    var one, two := ToRedis(None, Copy(1, 0.0)), ToRedis(None, Copy(2, 0.0));
    RunMore(c, [], Publish);
    RunMore(c, [Publish], Publish);
    steps := [Publish] + [Publish];
    assert Run(c, steps) == State(0.0, [0.0, 0.0], None, map[], [one, two], 0, map[]);
    RunMore(c, steps, Lose(1));
    assert Without([one, two], 1) == [one];
    steps := steps + [Lose(1)];
    RunMore(c, steps, Tick(c.hop));
    steps := steps + [Tick(c.hop)];
    assert Run(c, steps) == State(c.hop, [0.0, 0.0], None, map[], [one], 2, map[]);
    RunMore(c, steps, Land(0));
    assert Without([one], 0) == [];
    steps := steps + [Land(0)];
  }

  /** Read just before it expires, kept a whole hop later and answered just before that expires too. */
  lemma DocumentedBoundExceeded(c: Config, e: real) returns (steps: seq<Step>)
    requires Plausible(c) && 0.0 < e < c.hop && e <= c.localTtl && e <= c.redisTtl
    ensures !MeetsDocumented(c, Run(c, steps), 0)
  {
    var one := Copy(1, 0.0);
    var redis := Some(RedisEntry(one, c.hop));
    var read := c.hop + c.redisTtl - e;
    steps := LateArrival(c);
    RunMore(c, steps, Tick(c.redisTtl - e));
    steps := steps + [Tick(c.redisTtl - e)];
    assert Run(c, steps) == State(read, [0.0, 0.0], redis, map[], [], 2, map[]);
    RunMore(c, steps, ReadRedis(0));
    steps := steps + [ReadRedis(0)];
    assert Run(c, steps) == State(read, [0.0, 0.0], redis, map[], [ToLocal(0, one, read)], 2, map[]);
    RunMore(c, steps, Tick(c.hop));
    steps := steps + [Tick(c.hop)];
    RunMore(c, steps, Land(0));
    steps := steps + [Land(0)];
    assert Run(c, steps) == State(read + c.hop, [0.0, 0.0], redis, map[0 := LocalCopy(one, read + c.hop)], [], 2, map[]);
    RunMore(c, steps, Tick(c.localTtl - e));
    steps := steps + [Tick(c.localTtl - e)];
  }

  /** Every run meets the documented bound exactly when hops take no time. */
  lemma DocumentedBoundIsInstant(c: Config)
    requires Plausible(c) && c.localTtl > 0.0
    ensures (forall steps, p :: MeetsDocumented(c, Run(c, steps), p)) <==> c.hop == 0.0
  {
    if c.hop == 0.0 {
      forall steps, p ensures MeetsDocumented(c, Run(c, steps), p) {
        if Answers(c, Run(c, steps), p) { SupersededVersionIsDropped(c, steps, p); }
      }
    } else {
      var least := if c.localTtl < c.redisTtl then c.localTtl else c.redisTtl;
      var steps := DocumentedBoundExceeded(c, if least < c.hop / 2.0 then least else c.hop / 2.0);
    }
  }

  // ---------------------------------------------------------------------------
  // A row edited in place
  // ---------------------------------------------------------------------------

  /** Every copy there is of a damaged version was taken before the edit. */
  ghost predicate TakenBefore(s: State, copy: Copy) {
    copy.version in s.damaged ==> copy.asOf <= s.damaged[copy.version]
  }

  ghost predicate DamageOk(s: State) {
    && (forall v :: v in s.damaged ==> 1 <= v <= |s.commits| && s.commits[v - 1] <= s.damaged[v])
    && (s.redis.Some? ==> TakenBefore(s, s.redis.value.copy))
    && (forall f :: f in s.flights ==> TakenBefore(s, f.copy))
    && (forall p :: p in s.locals ==> TakenBefore(s, s.locals[p].copy))
  }

  lemma WithoutIsPart(flights: seq<Flight>, i: nat)
    requires i < |flights|
    ensures forall f :: f in Without(flights, i) ==> f in flights
  {
  }

  lemma StillTakenBefore(c: Config, s: State, v: nat, copy: Copy)
    requires TakenBefore(s, copy) && copy.asOf <= s.now
    ensures TakenBefore(Apply(c, s, Damage(v)), copy)
  {
  }

  lemma DamagingKeepsDamage(c: Config, s: State, v: nat)
    requires Bounded(c, s) && DamageOk(s)
    ensures DamageOk(Apply(c, s, Damage(v)))
  {
    var s' := Apply(c, s, Damage(v));
    forall f | f in s'.flights ensures TakenBefore(s', f.copy) {
      var i :| 0 <= i < |s.flights| && s.flights[i] == f;
      assert FlightOk(c, s, s.flights[i]);
      StillTakenBefore(c, s, v, f.copy);
    }
    forall p | p in s'.locals ensures TakenBefore(s', s'.locals[p].copy) {
      assert LocalOk(c, s, s.locals[p]);
      StillTakenBefore(c, s, v, s.locals[p].copy);
    }
    if s.redis.Some? { StillTakenBefore(c, s, v, s.redis.value.copy); }
  }

  /** A copy taken now, or in Redis already, of a version that loads. */
  lemma CopyingKeepsDamage(c: Config, s: State, step: Step)
    requires DamageOk(s) && (step.Publish? || step.ReadDatabase? || step.ReadRedis?)
    ensures DamageOk(Apply(c, s, step))
  {
    var s' := Apply(c, s, step);
    forall f | f in s'.flights ensures TakenBefore(s', f.copy) {
      if f in s.flights { assert TakenBefore(s, f.copy); }
    }
  }

  lemma SettlingKeepsDamage(c: Config, s: State, i: nat)
    requires DamageOk(s)
    ensures DamageOk(Apply(c, s, Land(i))) && DamageOk(Apply(c, s, Lose(i)))
  {
    if i < |s.flights| {
      WithoutIsPart(s.flights, i);
      assert s.flights[i] in s.flights;
    }
  }

  lemma StepKeepsDamage(c: Config, s: State, step: Step)
    requires Bounded(c, s) && DamageOk(s)
    ensures DamageOk(Apply(c, s, step))
  {
    match step
    case Damage(v) => DamagingKeepsDamage(c, s, v);
    case Land(i) => SettlingKeepsDamage(c, s, i);
    case Lose(i) => SettlingKeepsDamage(c, s, i);
    case Publish => CopyingKeepsDamage(c, s, step);
    case ReadDatabase(_) => CopyingKeepsDamage(c, s, step);
    case ReadRedis(_) => CopyingKeepsDamage(c, s, step);
    case _ =>
  }

  lemma {:induction false} EveryRunDamageOk(c: Config, steps: seq<Step>)
    requires Plausible(c)
    ensures DamageOk(Run(c, steps))
  {
    if steps != [] {
      EveryRunDamageOk(c, steps[..|steps| - 1]);
      EveryRunIsBounded(c, steps[..|steps| - 1]);
      StepKeepsDamage(c, Run(c, steps[..|steps| - 1]), steps[|steps| - 1]);
    }
  }

  /**
   A row edited in place stops being used: from two times to live and two hops after the edit on, no provider
   answers with that version, from memory or freshly fetched, until the row is edited back.
   */
  lemma DamagedVersionIsRefused(c: Config, steps: seq<Step>, v: nat, p: nat)
    requires Plausible(c) && v in Run(c, steps).damaged
    ensures var s := Run(c, steps);
            && (Answers(c, s, p) && s.locals[p].copy.version == v ==>
                  s.now - s.damaged[v] < c.localTtl + c.redisTtl + 2.0 * c.hop)
            && (forall i :: 0 <= i < |s.flights| && s.flights[i].ToLocal? && s.flights[i].copy.version == v ==>
                  s.now - s.damaged[v] < c.redisTtl + 2.0 * c.hop)
  {
    var s := Run(c, steps);
    EveryRunDamageOk(c, steps);
    if Answers(c, s, p) { StalenessBound(c, steps, p); }
    forall i | 0 <= i < |s.flights| && s.flights[i].ToLocal? && s.flights[i].copy.version == v
      ensures s.now - s.damaged[v] < c.redisTtl + 2.0 * c.hop
    {
      FreshAnswerBound(c, steps, i);
      assert TakenBefore(s, s.flights[i].copy);
    }
  }

  /**
   An edit of the active version stops scoring: the database refuses at once, and from two times to live and two
   hops after the edit on no provider answers with any version, there being no falling back to an older one.
   */
  lemma DamagedActiveVersionStopsScoring(c: Config, steps: seq<Step>, p: nat)
    requires Plausible(c) && |Run(c, steps).commits| in Run(c, steps).damaged
    ensures var s := Run(c, steps);
            && Apply(c, s, ReadDatabase(p)) == s
            && (Answers(c, s, p) ==> s.now - s.damaged[|s.commits|] < c.localTtl + c.redisTtl + 2.0 * c.hop)
  {
    var s := Run(c, steps);
    EveryRunDamageOk(c, steps);
    EveryRunIsBounded(c, steps);
    if Answers(c, s, p) {
      StalenessBound(c, steps, p);
      AllTakenBefore(c, s, s.locals[p].copy);
    }
  }

  /** Once the active version is damaged, no copy of any version is newer than the edit. */
  lemma AllTakenBefore(c: Config, s: State, copy: Copy)
    requires Bounded(c, s) && DamageOk(s) && |s.commits| in s.damaged
    requires LatestAt(s.commits, copy.version, copy.asOf) && TakenBefore(s, copy)
    ensures copy.asOf <= s.damaged[|s.commits|]
  {
    if copy.version < |s.commits| {
      CommitsInOrder(c, s, copy.version, |s.commits| - 1);
    }
  }

  lemma CommitsInOrder(c: Config, s: State, i: nat, j: nat)
    requires Bounded(c, s) && i <= j < |s.commits|
    ensures s.commits[i] <= s.commits[j]
  {
  }
}
