/**
 When a provider's answers can go back to an older version, and exactly which disciplines on the
 schedule prevent it, for every setting of the times to live and of the hop.
 */
module CacheOrder {
  import opened Wrappers
  import opened Staleness

  /**
   Four rules a schedule may keep.
   `noLoss`: no write is lost while Redis serves an older version than it carries.
   `inOrder`: no write lands once the write of a newer version has landed or been lost.
   `oneCall`: a provider reads only when its memory cannot answer and no other read of its own is under way.
   `writeFirst`: a provider keeps a copy only after its own writes to Redis have ended, one way or the other.
   */
  datatype Discipline = Discipline(noLoss: bool, inOrder: bool, oneCall: bool, writeFirst: bool)

  predicate Reading(s: State, p: nat) {
    exists i :: 0 <= i < |s.flights| && s.flights[i].ToLocal? && s.flights[i].provider == p
  }

  predicate Writing(s: State, p: nat) {
    exists i :: 0 <= i < |s.flights| && s.flights[i].ToRedis? && s.flights[i].writer == Some(p)
  }

  predicate Obeys(c: Config, d: Discipline, s: State, step: Step) {
    match step
    case Lose(i) =>
      d.noLoss && i < |s.flights| && s.flights[i].ToRedis? && Live(c, s) ==>
        s.flights[i].copy.version <= s.redis.value.copy.version
    case Land(i) =>
      i < |s.flights| ==>
        if s.flights[i].ToRedis? then d.inOrder ==> s.newest <= s.flights[i].copy.version
        else d.writeFirst ==> !Writing(s, s.flights[i].provider)
    case ReadDatabase(p) => MayRead(c, d, s, p)
    case ReadRedis(p) => MayRead(c, d, s, p)
    case _ => true
  }

  predicate MayRead(c: Config, d: Discipline, s: State, p: nat) {
    d.oneCall ==> !Reading(s, p) && !Answers(c, s, p)
  }

  ghost predicate Follows(c: Config, d: Discipline, steps: seq<Step>) {
    forall k :: 0 <= k < |steps| ==> Obeys(c, d, Run(c, steps[..k]), steps[k])
  }

  /** From one state to a later one, no provider's version has gone down. */
  ghost predicate NoOlder(s: State, later: State) {
    forall p :: p in s.locals ==> p in later.locals && s.locals[p].copy.version <= later.locals[p].copy.version
  }

  /** No provider ever answers with an older version than it has answered with before. */
  ghost predicate NeverGoesBack(c: Config, steps: seq<Step>) {
    forall m, n :: 0 <= m <= n <= |steps| ==> NoOlder(Run(c, steps[..m]), Run(c, steps[..n]))
  }

  /**
   What it takes. One call at a time always; and if the local copy can expire before every older copy has left
   Redis, writes in order and two of three guards, of which a long enough local time to live stands for one.
   */
  predicate Enough(c: Config, d: Discipline) {
    && d.oneCall
    && (c.localTtl >= c.redisTtl + c.hop
        || (d.inOrder
            && ((d.noLoss && d.writeFirst)
                || (d.noLoss && c.localTtl > c.hop)
                || (d.writeFirst && c.localTtl >= c.redisTtl))))
  }

  // ---------------------------------------------------------------------------
  // The invariant
  // ---------------------------------------------------------------------------

  /** The copy's own Redis write has ended, or is still on its way. */
  ghost predicate Backed(s: State, p: nat, copy: Copy) {
    copy.version <= s.newest || ToRedis(Some(p), copy) in s.flights
  }

  ghost predicate AllBacked(s: State) {
    && (forall f :: f in s.flights && f.ToLocal? ==> Backed(s, f.provider, f.copy))
    && (forall p :: p in s.locals ==> Backed(s, p, s.locals[p].copy))
    && (s.redis.Some? ==> s.redis.value.copy.version <= s.newest)
  }

  ghost predicate LocalsSettled(s: State) {
    forall p :: p in s.locals ==> s.locals[p].copy.version <= s.newest
  }

  ghost predicate RedisNewest(c: Config, s: State) {
    Live(c, s) ==> s.redis.value.copy.version >= s.newest
  }

  /** What Redis holds is no older than a local copy, or was there when the local copy was made. */
  ghost predicate RedisBefore(s: State) {
    s.redis.Some? ==> forall p :: p in s.locals ==>
      s.redis.value.copy.version >= s.locals[p].copy.version || s.redis.value.writtenAt <= s.locals[p].cachedAt
  }

  ghost predicate OneEach(s: State) {
    forall i, j :: 0 <= i < j < |s.flights| && s.flights[i].ToLocal? && s.flights[j].ToLocal? ==>
      s.flights[i].provider != s.flights[j].provider
  }

  /** What a provider is reading is no older than what it holds. */
  ghost predicate ReadsNewer(s: State) {
    forall f :: f in s.flights && f.ToLocal? && f.provider in s.locals ==>
      s.locals[f.provider].copy.version <= f.copy.version
  }

  ghost predicate Ordered(c: Config, d: Discipline, s: State) {
    && Bounded(c, s)
    && AllBacked(s)
    && (d.writeFirst ==> LocalsSettled(s))
    && (d.inOrder && d.noLoss ==> RedisNewest(c, s))
    && (d.inOrder && d.writeFirst ==> RedisBefore(s))
    && (d.oneCall ==> OneEach(s))
    && (d.oneCall && Enough(c, d) ==> ReadsNewer(s))
  }

  // ---------------------------------------------------------------------------
  // A read finds nothing older
  // ---------------------------------------------------------------------------

  /** The later of two moments has the later version, or the same. */
  lemma LatestOrders(commits: seq<real>, v: nat, at: real, w: nat, later: real)
    requires forall i, j :: 0 <= i < j < |commits| ==> commits[i] <= commits[j]
    requires LatestAt(commits, v, at) && LatestAt(commits, w, later)
    ensures at < later ==> v <= w
  {
    if w < v { assert commits[w] <= commits[v - 1]; }
  }

  lemma LongMemory(c: Config, s: State, p: nat)
    requires Bounded(c, s) && c.localTtl >= c.redisTtl + c.hop
    requires Live(c, s) && p in s.locals && !Answers(c, s, p)
    ensures s.locals[p].copy.version <= s.redis.value.copy.version
  {
    var local, entry := s.locals[p], s.redis.value;
    assert LocalOk(c, s, local) && RedisOk(c, s);
    LatestOrders(s.commits, local.copy.version, local.copy.asOf, entry.copy.version, entry.copy.asOf);
  }

  lemma BackedIsSettled(c: Config, s: State, p: nat)
    requires Bounded(c, s) && AllBacked(s) && c.localTtl > c.hop && p in s.locals && !Answers(c, s, p)
    ensures s.locals[p].copy.version <= s.newest
  {
    assert Backed(s, p, s.locals[p].copy) && LocalOk(c, s, s.locals[p]);
    forall i | 0 <= i < |s.flights| ensures s.flights[i] != ToRedis(Some(p), s.locals[p].copy) {
      assert FlightOk(c, s, s.flights[i]);
    }
  }

  lemma RedisIsNoOlder(c: Config, d: Discipline, s: State, p: nat)
    requires Ordered(c, d, s) && Enough(c, d)
    requires Live(c, s) && p in s.locals && !Answers(c, s, p)
    ensures s.locals[p].copy.version <= s.redis.value.copy.version
  {
    if c.localTtl >= c.redisTtl + c.hop {
      LongMemory(c, s, p);
    } else if d.noLoss && !d.writeFirst {
      BackedIsSettled(c, s, p);
    }
  }

  // ---------------------------------------------------------------------------
  // Every step keeps the invariant
  // ---------------------------------------------------------------------------

  lemma InWithout(flights: seq<Flight>, i: nat, f: Flight)
    requires i < |flights|
    ensures f in Without(flights, i) ==> f in flights
    ensures f in flights && f != flights[i] ==> f in Without(flights, i)
  {
    var rest := Without(flights, i);
    if f in flights && f != flights[i] {
      var j :| 0 <= j < |flights| && flights[j] == f;
      assert rest[if j < i then j else j - 1] == f;
    }
  }

  lemma SettleKeepsBacked(s: State, i: nat)
    requires AllBacked(s) && i < |s.flights|
    ensures AllBacked(Settle(s, i))
  {
    var s' := Settle(s, i);
    forall p, copy | Backed(s, p, copy) ensures Backed(s', p, copy) {
      InWithout(s.flights, i, ToRedis(Some(p), copy));
    }
    forall f | f in s'.flights && f.ToLocal? ensures Backed(s', f.provider, f.copy) {
      InWithout(s.flights, i, f);
    }
  }

  lemma SettleKeepsReads(s: State, i: nat)
    requires i < |s.flights|
    ensures OneEach(s) ==> OneEach(Settle(s, i))
    ensures ReadsNewer(s) ==> ReadsNewer(Settle(s, i))
  {
    var rest := Without(s.flights, i);
    forall j, k | OneEach(s) && 0 <= j < k < |rest| && rest[j].ToLocal? && rest[k].ToLocal?
      ensures rest[j].provider != rest[k].provider
    {
      WithoutMember(s.flights, i, j);
      WithoutMember(s.flights, i, k);
    }
    forall f | f in rest ensures f in s.flights { InWithout(s.flights, i, f); }
  }

  lemma LoseKeepsOrdered(c: Config, d: Discipline, s: State, i: nat)
    requires Plausible(c) && Ordered(c, d, s) && Obeys(c, d, s, Lose(i))
    ensures Ordered(c, d, Apply(c, s, Lose(i)))
  {
    StepKeepsBounded(c, s, Lose(i));
    if i < |s.flights| {
      SettleKeepsBacked(s, i);
      SettleKeepsReads(s, i);
    }
  }

  lemma LandRedisKeepsOrdered(c: Config, d: Discipline, s: State, i: nat)
    requires Plausible(c) && Ordered(c, d, s) && Obeys(c, d, s, Land(i)) && i < |s.flights| && s.flights[i].ToRedis?
    ensures Ordered(c, d, Apply(c, s, Land(i))) && NoOlder(s, Apply(c, s, Land(i)))
  {
    StepKeepsBounded(c, s, Land(i));
    SettleKeepsBacked(s, i);
    SettleKeepsReads(s, i);
  }

  /** With one read of its own under way, a provider has none left once it lands. */
  lemma LandedWasTheOnly(s: State, i: nat, f: Flight)
    requires OneEach(s) && i < |s.flights| && s.flights[i].ToLocal? && f.ToLocal? && f in Without(s.flights, i)
    ensures f.provider != s.flights[i].provider && f in s.flights
  {
    var j :| 0 <= j < |Without(s.flights, i)| && Without(s.flights, i)[j] == f;
    WithoutMember(s.flights, i, j);
  }

  lemma LandLocalKeepsBacked(c: Config, d: Discipline, s: State, i: nat)
    requires AllBacked(s) && Obeys(c, d, s, Land(i)) && i < |s.flights| && s.flights[i].ToLocal?
    ensures AllBacked(Apply(c, s, Land(i)))
    ensures d.writeFirst && LocalsSettled(s) ==> LocalsSettled(Apply(c, s, Land(i)))
  {
    var f := s.flights[i];
    SettleKeepsBacked(s, i);
    assert f in s.flights && Backed(s, f.provider, f.copy);
    InWithout(s.flights, i, ToRedis(Some(f.provider), f.copy));
    if d.writeFirst && ToRedis(Some(f.provider), f.copy) in s.flights {
      assert Writing(s, f.provider);
    }
  }

  lemma LandLocalKeepsOrdered(c: Config, d: Discipline, s: State, i: nat)
    requires Plausible(c) && Ordered(c, d, s) && Obeys(c, d, s, Land(i)) && i < |s.flights| && s.flights[i].ToLocal?
    ensures Ordered(c, d, Apply(c, s, Land(i)))
    ensures Enough(c, d) ==> NoOlder(s, Apply(c, s, Land(i)))
  {
    var s', f := Apply(c, s, Land(i)), s.flights[i];
    StepKeepsBounded(c, s, Land(i));
    LandLocalKeepsBacked(c, d, s, i);
    SettleKeepsReads(s, i);
    assert f in s.flights;
    if d.oneCall && Enough(c, d) {
      forall g | g in s'.flights && g.ToLocal? && g.provider in s'.locals
        ensures s'.locals[g.provider].copy.version <= g.copy.version
      {
        LandedWasTheOnly(s, i, g);
      }
    }
  }

  lemma ReadKeepsReads(c: Config, d: Discipline, s: State, step: Step)
    requires Plausible(c) && Ordered(c, d, s) && Obeys(c, d, s, step) && (step.ReadDatabase? || step.ReadRedis?)
    ensures d.oneCall ==> OneEach(Apply(c, s, step))
    ensures d.oneCall && Enough(c, d) ==> ReadsNewer(Apply(c, s, step))
  {
    var p, s' := step.provider, Apply(c, s, step);
    if d.oneCall && Enough(c, d) && p in s.locals {
      assert LocalOk(c, s, s.locals[p]);
      if step.ReadRedis? && Live(c, s) { RedisIsNoOlder(c, d, s, p); }
    }
  }

  lemma ReadKeepsOrdered(c: Config, d: Discipline, s: State, step: Step)
    requires Plausible(c) && Ordered(c, d, s) && Obeys(c, d, s, step) && (step.ReadDatabase? || step.ReadRedis?)
    ensures Ordered(c, d, Apply(c, s, step)) && NoOlder(s, Apply(c, s, step))
  {
    var s' := Apply(c, s, step);
    StepKeepsBounded(c, s, step);
    ReadKeepsReads(c, d, s, step);
    forall q, copy | Backed(s, q, copy) ensures Backed(s', q, copy) {}
  }

  lemma MovingOnKeepsOrdered(c: Config, d: Discipline, s: State, step: Step)
    requires Plausible(c) && Ordered(c, d, s) && (step.Tick? || step.Publish?)
    ensures Ordered(c, d, Apply(c, s, step)) && NoOlder(s, Apply(c, s, step))
  {
    var s' := Apply(c, s, step);
    StepKeepsBounded(c, s, step);
    forall q, copy | Backed(s, q, copy) ensures Backed(s', q, copy) {}
  }

  lemma EditKeepsOrdered(c: Config, d: Discipline, s: State, step: Step)
    requires Plausible(c) && Ordered(c, d, s) && (step.Damage? || step.Repair? || step.SpoilRedis?)
    ensures Ordered(c, d, Apply(c, s, step)) && NoOlder(s, Apply(c, s, step))
  {
    var s' := Apply(c, s, step);
    StepKeepsBounded(c, s, step);
    forall q, copy | Backed(s, q, copy) ensures Backed(s', q, copy) {}
  }

  lemma StepKeepsOrdered(c: Config, d: Discipline, s: State, step: Step)
    requires Plausible(c) && Ordered(c, d, s) && Obeys(c, d, s, step)
    ensures Ordered(c, d, Apply(c, s, step))
    ensures Enough(c, d) ==> NoOlder(s, Apply(c, s, step))
  {
    match step
    case Tick(_) => MovingOnKeepsOrdered(c, d, s, step);
    case Publish => MovingOnKeepsOrdered(c, d, s, step);
    case ReadDatabase(_) => ReadKeepsOrdered(c, d, s, step);
    case ReadRedis(_) => ReadKeepsOrdered(c, d, s, step);
    case Land(i) =>
      if i < |s.flights| {
        if s.flights[i].ToRedis? { LandRedisKeepsOrdered(c, d, s, i); } else { LandLocalKeepsOrdered(c, d, s, i); }
      }
    case Lose(i) => LoseKeepsOrdered(c, d, s, i);
    case _ => EditKeepsOrdered(c, d, s, step);
  }

  lemma RunTo(c: Config, steps: seq<Step>, k: nat)
    requires k < |steps|
    ensures Run(c, steps[..k + 1]) == Apply(c, Run(c, steps[..k]), steps[k])
  {
    assert steps[..k + 1][..k] == steps[..k];
  }

  lemma {:induction false} FollowingKeepsOrdered(c: Config, d: Discipline, steps: seq<Step>, n: nat)
    requires Plausible(c) && Follows(c, d, steps) && n <= |steps|
    ensures Ordered(c, d, Run(c, steps[..n]))
  {
    if n > 0 {
      FollowingKeepsOrdered(c, d, steps, n - 1);
      RunTo(c, steps, n - 1);
      StepKeepsOrdered(c, d, Run(c, steps[..n - 1]), steps[n - 1]);
    }
  }

  lemma NextIsNoOlder(c: Config, d: Discipline, steps: seq<Step>, n: nat)
    requires Plausible(c) && Follows(c, d, steps) && Enough(c, d) && n < |steps|
    ensures NoOlder(Run(c, steps[..n]), Run(c, steps[..n + 1]))
  {
    FollowingKeepsOrdered(c, d, steps, n);
    RunTo(c, steps, n);
    StepKeepsOrdered(c, d, Run(c, steps[..n]), steps[n]);
  }

  lemma NoOlderTransitive(s: State, middle: State, later: State)
    requires NoOlder(s, middle) && NoOlder(middle, later)
    ensures NoOlder(s, later)
  {
  }

  lemma {:induction false} FollowingNeverGoesBack(c: Config, d: Discipline, steps: seq<Step>, m: nat, n: nat)
    requires Plausible(c) && Follows(c, d, steps) && Enough(c, d) && m <= n <= |steps|
    ensures NoOlder(Run(c, steps[..m]), Run(c, steps[..n]))
    decreases n
  {
    if m < n {
      FollowingNeverGoesBack(c, d, steps, m, n - 1);
      NextIsNoOlder(c, d, steps, n - 1);
      NoOlderTransitive(Run(c, steps[..m]), Run(c, steps[..n - 1]), Run(c, steps[..n]));
    }
  }

  // ---------------------------------------------------------------------------
  // Runs that go back
  // ---------------------------------------------------------------------------

  /** Some run that keeps the rules leads to this state. */
  ghost predicate Reachable(c: Config, d: Discipline, s: State) {
    exists steps :: Follows(c, d, steps) && Run(c, steps) == s
  }

  /** Some run that keeps the rules goes back. */
  ghost predicate CanGoBack(c: Config, d: Discipline) {
    exists steps :: Follows(c, d, steps) && !NeverGoesBack(c, steps)
  }

  lemma FollowMore(c: Config, d: Discipline, steps: seq<Step>, step: Step)
    requires Follows(c, d, steps) && Obeys(c, d, Run(c, steps), step)
    ensures Follows(c, d, steps + [step]) && Run(c, steps + [step]) == Apply(c, Run(c, steps), step)
  {
    var more := steps + [step];
    RunMore(c, steps, step);
    forall k | 0 <= k < |more| ensures Obeys(c, d, Run(c, more[..k]), more[k]) {
      assert more[..k] == if k == |steps| then steps else steps[..k];
    }
  }

  lemma Advance(c: Config, d: Discipline, s: State, step: Step, s': State)
    requires Reachable(c, d, s) && Obeys(c, d, s, step) && Apply(c, s, step) == s'
    ensures Reachable(c, d, s')
  {
    var steps :| Follows(c, d, steps) && Run(c, steps) == s;
    FollowMore(c, d, steps, step);
  }

  /** A step that makes a provider's version older. */
  lemma BackStep(c: Config, d: Discipline, s: State, step: Step)
    requires Reachable(c, d, s) && Obeys(c, d, s, step) && !NoOlder(s, Apply(c, s, step))
    ensures CanGoBack(c, d)
  {
    var steps :| Follows(c, d, steps) && Run(c, steps) == s;
    FollowMore(c, d, steps, step);
    var more := steps + [step];
    assert more[..|steps|] == steps && more[..|more|] == more;
    assert !NoOlder(Run(c, more[..|steps|]), Run(c, more[..|more|]));
  }

  /** The situation most of these runs lead to: provider 0 is about to read, and Redis serves less than it holds. */
  ghost predicate AboutToGoBack(c: Config, d: Discipline, s: State) {
    && 0 in s.locals && Live(c, s) && !Answers(c, s, 0) && !Reading(s, 0)
    && s.redis.value.copy.version < s.locals[0].copy.version
    && (d.writeFirst ==> !Writing(s, 0))
  }

  lemma ReadBack(c: Config, d: Discipline, s: State)
    requires Reachable(c, d, s) && AboutToGoBack(c, d, s)
    ensures CanGoBack(c, d)
  {
    var s' := s.(flights := s.flights + [ToLocal(0, s.redis.value.copy, s.now)]);
    Advance(c, d, s, ReadRedis(0), s');
    assert s'.flights[|s.flights|] == ToLocal(0, s.redis.value.copy, s.now);
    BackStep(c, d, s', Land(|s.flights|));
  }

  const ONE := Copy(1, 0.0)
  const TWO := Copy(2, 0.0)
  const ONE_TO_REDIS := ToRedis(None, ONE)
  const TWO_TO_REDIS := ToRedis(None, TWO)
  const OWN_TWO := ToRedis(Some(0), TWO)
  const ONE_TO_LOCAL := ToLocal(0, ONE, 0.0)
  const TWO_TO_LOCAL := ToLocal(0, TWO, 0.0)

  /** Provider 0 holds version 2 from the start. */
  const HOLDING := map[0 := LocalCopy(TWO, 0.0)]

  /** Versions 1 and 2 were both committed at time zero. */
  function Both(now: real, redis: Option<RedisEntry>, locals: map<nat, LocalCopy>, flights: seq<Flight>, newest: nat): State {
    State(now, [0.0, 0.0], redis, locals, flights, newest, map[])
  }

  function Serving(copy: Copy, at: real): Option<RedisEntry> {
    Some(RedisEntry(copy, at))
  }

  lemma StartReachable(c: Config, d: Discipline)
    ensures Reachable(c, d, START)
  {
    var none: seq<Step> := [];
    assert Follows(c, d, none) && Run(c, none) == START;
  }

  lemma BothOnTheWay(c: Config, d: Discipline)
    ensures Reachable(c, d, Both(0.0, None, map[], [ONE_TO_REDIS, TWO_TO_REDIS], 0))
  {
    var one := State(0.0, [0.0], None, map[], [ONE_TO_REDIS], 0, map[]);
    StartReachable(c, d);
    Advance(c, d, START, Publish, one);
    assert [ONE_TO_REDIS] + [TWO_TO_REDIS] == [ONE_TO_REDIS, TWO_TO_REDIS] && [0.0] + [0.0] == [0.0, 0.0];
    Advance(c, d, one, Publish, Both(0.0, None, map[], [ONE_TO_REDIS, TWO_TO_REDIS], 0));
  }

  lemma OneLands(c: Config, d: Discipline)
    ensures Reachable(c, d, Both(0.0, Serving(ONE, 0.0), map[], [TWO_TO_REDIS], 1))
  {
    BothOnTheWay(c, d);
    assert Without([ONE_TO_REDIS, TWO_TO_REDIS], 0) == [TWO_TO_REDIS];
    Advance(c, d, Both(0.0, None, map[], [ONE_TO_REDIS, TWO_TO_REDIS], 0), Land(0),
            Both(0.0, Serving(ONE, 0.0), map[], [TWO_TO_REDIS], 1));
  }

  /** Two calls of one provider overlap, and the one that read version 1 finishes last. */
  lemma OverlappingCalls(c: Config, d: Discipline)
    requires Plausible(c) && !d.oneCall
    ensures CanGoBack(c, d)
  {
    var s0 := Both(0.0, Serving(ONE, 0.0), map[], [TWO_TO_REDIS], 1);
    var s1 := Both(0.0, Serving(ONE, 0.0), map[], [TWO_TO_REDIS, ONE_TO_LOCAL], 1);
    var s2 := Both(0.0, Serving(TWO, 0.0), map[], [ONE_TO_LOCAL], 2);
    OneLands(c, d);
    assert [TWO_TO_REDIS] + [ONE_TO_LOCAL] == [TWO_TO_REDIS, ONE_TO_LOCAL];
    Advance(c, d, s0, ReadRedis(0), s1);
    assert Without([TWO_TO_REDIS, ONE_TO_LOCAL], 0) == [ONE_TO_LOCAL];
    Advance(c, d, s1, Land(0), s2);
    SecondCall(c, d);
  }

  lemma SecondCall(c: Config, d: Discipline)
    requires Plausible(c) && !d.oneCall
    requires Reachable(c, d, Both(0.0, Serving(TWO, 0.0), map[], [ONE_TO_LOCAL], 2))
    ensures CanGoBack(c, d)
  {
    var s2 := Both(0.0, Serving(TWO, 0.0), map[], [ONE_TO_LOCAL], 2);
    var s3 := Both(0.0, Serving(TWO, 0.0), map[], [ONE_TO_LOCAL, TWO_TO_LOCAL], 2);
    var s4 := Both(0.0, Serving(TWO, 0.0), HOLDING, [ONE_TO_LOCAL], 2);
    assert [ONE_TO_LOCAL] + [TWO_TO_LOCAL] == [ONE_TO_LOCAL, TWO_TO_LOCAL];
    Advance(c, d, s2, ReadRedis(0), s3);
    assert Without([ONE_TO_LOCAL, TWO_TO_LOCAL], 1) == [ONE_TO_LOCAL];
    Advance(c, d, s3, Land(1), s4);
    FirstCallEnds(c, d);
  }

  lemma LandingOlder(c: Config, s: State, i: nat)
    requires i < |s.flights| && s.flights[i].ToLocal? && s.flights[i].provider in s.locals
    requires s.flights[i].copy.version < s.locals[s.flights[i].provider].copy.version
    ensures !NoOlder(s, Apply(c, s, Land(i)))
  {
    assert Apply(c, s, Land(i)).locals[s.flights[i].provider].copy == s.flights[i].copy;
  }

  lemma FirstCallEnds(c: Config, d: Discipline)
    requires Reachable(c, d, Both(0.0, Serving(TWO, 0.0), HOLDING, [ONE_TO_LOCAL], 2))
    ensures CanGoBack(c, d)
  {
    var s := Both(0.0, Serving(TWO, 0.0), HOLDING, [ONE_TO_LOCAL], 2);
    LandingOlder(c, s, 0);
    assert !Writing(s, 0);
    BackStep(c, d, s, Land(0));
  }

  /** Redis is down while version 2 is published and read; version 1's entry is still alive when it is back. */
  lemma LostWrite(c: Config, d: Discipline)
    requires Plausible(c) && !d.noLoss && c.localTtl < c.redisTtl
    ensures CanGoBack(c, d)
  {
    var entry := Serving(ONE, 0.0);
    var s0, s1 := Both(0.0, entry, map[], [TWO_TO_REDIS], 1), Both(0.0, entry, map[], [], 2);
    var s2, s3 := Both(0.0, entry, map[], [OWN_TWO, TWO_TO_LOCAL], 2), Both(0.0, entry, map[], [TWO_TO_LOCAL], 2);
    OneLands(c, d);
    assert Without([TWO_TO_REDIS], 0) == [];
    Advance(c, d, s0, Lose(0), s1);
    assert [] + [OWN_TWO, TWO_TO_LOCAL] == [OWN_TWO, TWO_TO_LOCAL];
    Advance(c, d, s1, ReadDatabase(0), s2);
    assert Without([OWN_TWO, TWO_TO_LOCAL], 0) == [TWO_TO_LOCAL];
    Advance(c, d, s2, Lose(0), s3);
    KeptUnwritten(c, d);
  }

  lemma KeptUnwritten(c: Config, d: Discipline)
    requires Plausible(c) && c.localTtl < c.redisTtl
    requires Reachable(c, d, Both(0.0, Serving(ONE, 0.0), map[], [TWO_TO_LOCAL], 2))
    ensures CanGoBack(c, d)
  {
    var entry := Serving(ONE, 0.0);
    var s3, s4 := Both(0.0, entry, map[], [TWO_TO_LOCAL], 2), Both(0.0, entry, HOLDING, [], 2);
    assert Without([TWO_TO_LOCAL], 0) == [];
    Advance(c, d, s3, Land(0), s4);
    Advance(c, d, s4, Tick(c.localTtl), s4.(now := c.localTtl));
    ReadBack(c, d, s4.(now := c.localTtl));
  }

  /** The moment a slow write of version 1 lands, so that its entry outlives the local copy made at the start. */
  function Slow(c: Config): real {
    if c.hop < c.localTtl then c.hop else c.localTtl
  }

  lemma SlowEntry(c: Config, d: Discipline)
    requires Plausible(c) && c.localTtl < c.redisTtl + c.hop
    requires Reachable(c, d, Both(Slow(c), Serving(ONE, Slow(c)), HOLDING, [], 2))
    ensures CanGoBack(c, d)
  {
    var s := Both(Slow(c), Serving(ONE, Slow(c)), HOLDING, [], 2);
    Advance(c, d, s, Tick(c.localTtl - Slow(c)), s.(now := c.localTtl));
    ReadBack(c, d, s.(now := c.localTtl));
  }

  /** Version 1's write lands after version 2's. */
  lemma LateWrite(c: Config, d: Discipline)
    requires Plausible(c) && !d.inOrder && c.localTtl < c.redisTtl + c.hop
    ensures CanGoBack(c, d)
  {
    var s1 := Both(0.0, Serving(TWO, 0.0), map[], [ONE_TO_REDIS], 2);
    var s2 := Both(0.0, Serving(TWO, 0.0), map[], [ONE_TO_REDIS, TWO_TO_LOCAL], 2);
    var s3 := Both(0.0, Serving(TWO, 0.0), HOLDING, [ONE_TO_REDIS], 2);
    BothOnTheWay(c, d);
    assert Without([ONE_TO_REDIS, TWO_TO_REDIS], 1) == [ONE_TO_REDIS];
    Advance(c, d, Both(0.0, None, map[], [ONE_TO_REDIS, TWO_TO_REDIS], 0), Land(1), s1);
    assert [ONE_TO_REDIS] + [TWO_TO_LOCAL] == [ONE_TO_REDIS, TWO_TO_LOCAL];
    Advance(c, d, s1, ReadRedis(0), s2);
    assert Without([ONE_TO_REDIS, TWO_TO_LOCAL], 1) == [ONE_TO_REDIS];
    Advance(c, d, s2, Land(1), s3);
    OlderLandsLate(c, d);
  }

  lemma OlderLandsLate(c: Config, d: Discipline)
    requires Plausible(c) && !d.inOrder && c.localTtl < c.redisTtl + c.hop
    requires Reachable(c, d, Both(0.0, Serving(TWO, 0.0), HOLDING, [ONE_TO_REDIS], 2))
    ensures CanGoBack(c, d)
  {
    var s3 := Both(0.0, Serving(TWO, 0.0), HOLDING, [ONE_TO_REDIS], 2);
    Advance(c, d, s3, Tick(Slow(c)), s3.(now := Slow(c)));
    assert Without([ONE_TO_REDIS], 0) == [];
    Advance(c, d, s3.(now := Slow(c)), Land(0), Both(Slow(c), Serving(ONE, Slow(c)), HOLDING, [], 2));
    SlowEntry(c, d);
  }

  /** A provider keeps version 2 while its own write of it is on the way. */
  lemma KeptBeforeWritten(c: Config, d: Discipline)
    requires Plausible(c) && !d.writeFirst
    ensures Reachable(c, d, Both(0.0, None, HOLDING, [ONE_TO_REDIS, TWO_TO_REDIS, OWN_TWO], 0))
  {
    var s0 := Both(0.0, None, map[], [ONE_TO_REDIS, TWO_TO_REDIS], 0);
    var s1 := Both(0.0, None, map[], [ONE_TO_REDIS, TWO_TO_REDIS, OWN_TWO, TWO_TO_LOCAL], 0);
    BothOnTheWay(c, d);
    assert s0.flights + [OWN_TWO, TWO_TO_LOCAL] == s1.flights;
    Advance(c, d, s0, ReadDatabase(0), s1);
    assert Without(s1.flights, 3) == [ONE_TO_REDIS, TWO_TO_REDIS, OWN_TWO];
    Advance(c, d, s1, Land(3), Both(0.0, None, HOLDING, [ONE_TO_REDIS, TWO_TO_REDIS, OWN_TWO], 0));
  }

  lemma KeptAWhile(c: Config, d: Discipline, at: real)
    requires Plausible(c) && !d.writeFirst && 0.0 <= at <= c.hop
    ensures Reachable(c, d, Both(at, None, HOLDING, [ONE_TO_REDIS, TWO_TO_REDIS, OWN_TWO], 0))
  {
    var s := Both(0.0, None, HOLDING, [ONE_TO_REDIS, TWO_TO_REDIS, OWN_TWO], 0);
    KeptBeforeWritten(c, d);
    assert CanWait(c, s, at);
    Advance(c, d, s, Tick(at), s.(now := at));
  }

  /** Within a hop, version 1's write lands ahead of the other two. */
  lemma OlderLands(c: Config, d: Discipline, at: real)
    requires Plausible(c) && !d.writeFirst && 0.0 <= at <= c.hop
    ensures Reachable(c, d, Both(at, Serving(ONE, at), HOLDING, [TWO_TO_REDIS, OWN_TWO], 1))
  {
    var s := Both(at, None, HOLDING, [ONE_TO_REDIS, TWO_TO_REDIS, OWN_TWO], 0);
    KeptAWhile(c, d, at);
    assert Without(s.flights, 0) == [TWO_TO_REDIS, OWN_TWO];
    Advance(c, d, s, Land(0), Both(at, Serving(ONE, at), HOLDING, [TWO_TO_REDIS, OWN_TWO], 1));
  }

  /** The local copy expires within that hop. */
  lemma ShortMemory(c: Config, d: Discipline)
    requires Plausible(c) && !d.writeFirst && c.localTtl <= c.hop
    ensures CanGoBack(c, d)
  {
    OlderLands(c, d, c.localTtl);
    ReadBack(c, d, Both(c.localTtl, Serving(ONE, c.localTtl), HOLDING, [TWO_TO_REDIS, OWN_TWO], 1));
  }

  /** Or both newer writes are lost. */
  lemma KeptThenLost(c: Config, d: Discipline)
    requires Plausible(c) && !d.writeFirst && !d.noLoss && c.localTtl < c.redisTtl + c.hop
    ensures CanGoBack(c, d)
  {
    var s0 := Both(Slow(c), Serving(ONE, Slow(c)), HOLDING, [TWO_TO_REDIS, OWN_TWO], 1);
    var s1 := Both(Slow(c), Serving(ONE, Slow(c)), HOLDING, [OWN_TWO], 2);
    OlderLands(c, d, Slow(c));
    assert Without([TWO_TO_REDIS, OWN_TWO], 0) == [OWN_TWO];
    Advance(c, d, s0, Lose(0), s1);
    assert Without([OWN_TWO], 0) == [];
    Advance(c, d, s1, Lose(0), Both(Slow(c), Serving(ONE, Slow(c)), HOLDING, [], 2));
    SlowEntry(c, d);
  }

  /** Every discipline that is not enough has a run that keeps its rules and goes back. */
  lemma NotEnough(c: Config, d: Discipline)
    requires Plausible(c) && !Enough(c, d)
    ensures CanGoBack(c, d)
  {
    if !d.oneCall { OverlappingCalls(c, d); }
    else if !d.inOrder { LateWrite(c, d); }
    else if d.noLoss { ShortMemory(c, d); }
    else if d.writeFirst { LostWrite(c, d); }
    else { KeptThenLost(c, d); }
  }

  // ---------------------------------------------------------------------------
  // The theorem
  // ---------------------------------------------------------------------------

  /**
   For every setting of the cache and every choice of rules: answers never go back in any run that keeps the rules,
   exactly when the rules are enough for that setting.
   */
  lemma NeverGoesBackIffEnough(c: Config, d: Discipline)
    requires Plausible(c)
    ensures (forall steps :: Follows(c, d, steps) ==> NeverGoesBack(c, steps)) <==> Enough(c, d)
  {
    if Enough(c, d) {
      forall steps | Follows(c, d, steps) ensures NeverGoesBack(c, steps) {
        forall m, n | 0 <= m <= n <= |steps| ensures NoOlder(Run(c, steps[..m]), Run(c, steps[..n])) {
          FollowingNeverGoesBack(c, d, steps, m, n);
        }
      }
    } else {
      NotEnough(c, d);
    }
  }

  /** A local copy that can expire within a hop and before a Redis entry needs all four rules: none is redundant. */
  lemma AllFourNeeded(c: Config, d: Discipline)
    requires Plausible(c) && c.localTtl < c.redisTtl && c.localTtl <= c.hop
    ensures (forall steps :: Follows(c, d, steps) ==> NeverGoesBack(c, steps)) <==> d == Discipline(true, true, true, true)
  {
    NeverGoesBackIffEnough(c, d);
  }
}
