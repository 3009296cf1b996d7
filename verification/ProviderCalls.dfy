/**
 A call of `get_active` as steps of the timed cache: a read, the end of the provider's own Redis write, and the copy
 it keeps, with anything else happening in between. It keeps the rules a sequential provider keeps by itself.
 */
module ProviderCalls {
  import opened Wrappers
  import opened Staleness
  import opened CacheOrder
  import RuleCache

  function After(c: Config, s: State, steps: seq<Step>): State
    decreases |steps|
  {
    if steps == [] then s else After(c, Apply(c, s, steps[0]), steps[1..])
  }

  /** The rules of the provider itself: one call at a time, and its write ends before it keeps the copy. */
  const SEQUENTIAL := Discipline(false, false, true, true)

  ghost predicate ObeysAll(c: Config, d: Discipline, s: State, steps: seq<Step>)
    decreases |steps|
  {
    steps == [] || (Obeys(c, d, s, steps[0]) && ObeysAll(c, d, Apply(c, s, steps[0]), steps[1..]))
  }

  lemma {:induction false} AfterJoin(c: Config, s: State, a: seq<Step>, b: seq<Step>)
    ensures After(c, s, a + b) == After(c, After(c, s, a), b)
    ensures ObeysAll(c, SEQUENTIAL, s, a) && ObeysAll(c, SEQUENTIAL, After(c, s, a), b) ==> ObeysAll(c, SEQUENTIAL, s, a + b)
    decreases |a|
  {
    if a == [] {
      assert a + b == b;
    } else {
      AfterJoin(c, Apply(c, s, a[0]), a[1..], b);
      assert (a + b)[1..] == a[1..] + b;
    }
  }

  // ---------------------------------------------------------------------------
  // What belongs to a provider
  // ---------------------------------------------------------------------------

  predicate Mine(f: Flight, p: nat) {
    if f.ToRedis? then f.writer == Some(p) else f.provider == p
  }

  /** The provider's own flights, in the order they set off. */
  function Own(flights: seq<Flight>, p: nat): seq<Flight> {
    if flights == [] then []
    else (if Mine(flights[0], p) then [flights[0]] else []) + Own(flights[1..], p)
  }

  lemma {:induction false} OwnJoin(a: seq<Flight>, b: seq<Flight>, p: nat)
    ensures Own(a + b, p) == Own(a, p) + Own(b, p)
    decreases |a|
  {
    if a == [] {
      assert a + b == b;
    } else {
      OwnJoin(a[1..], b, p);
      assert (a + b)[1..] == a[1..] + b;
    }
  }

  lemma {:induction false} OwnMembers(flights: seq<Flight>, p: nat, f: Flight)
    ensures f in Own(flights, p) <==> f in flights && Mine(f, p)
    decreases |flights|
  {
    if flights != [] {
      OwnMembers(flights[1..], p, f);
      assert flights == [flights[0]] + flights[1..];
    }
  }

  lemma OwnSingle(f: Flight, p: nat)
    ensures Own([f], p) == if Mine(f, p) then [f] else []
  {
    assert [f][1..] == [];
  }

  /** New flights of others change nothing. */
  lemma OthersSetOff(flights: seq<Flight>, f: Flight, p: nat)
    requires !Mine(f, p)
    ensures Own(flights + [f], p) == Own(flights, p)
  {
    OwnSingle(f, p);
    OwnJoin(flights, [f], p);
  }

  /** What is left of the provider's own once flight i is over. */
  lemma OwnWithout(flights: seq<Flight>, i: nat, p: nat)
    requires i < |flights|
    ensures Own(flights, p) == Own(flights[..i], p) + (if Mine(flights[i], p) then [flights[i]] else []) + Own(flights[i + 1..], p)
    ensures Own(Without(flights, i), p) == Own(flights[..i], p) + Own(flights[i + 1..], p)
  {
    OwnJoin(flights[..i], flights[i + 1..], p);
    OwnJoin(flights[..i], flights[i..], p);
    assert flights == flights[..i] + flights[i..] && flights[i..][1..] == flights[i + 1..];
  }

  /** A step of anything but the provider's call. */
  predicate Foreign(s: State, step: Step, p: nat) {
    match step
    case ReadDatabase(q) => q != p
    case ReadRedis(q) => q != p
    case Land(i) => i < |s.flights| ==> !Mine(s.flights[i], p)
    case Lose(i) => i < |s.flights| ==> !Mine(s.flights[i], p)
    case _ => true
  }

  ghost predicate AllForeign(c: Config, s: State, steps: seq<Step>, p: nat)
    decreases |steps|
  {
    steps == [] || (Foreign(s, steps[0], p) && AllForeign(c, Apply(c, s, steps[0]), steps[1..], p))
  }

  ghost predicate SameFor(s: State, s': State, p: nat) {
    && Own(s'.flights, p) == Own(s.flights, p)
    && (p in s'.locals <==> p in s.locals)
    && (p in s.locals ==> s'.locals[p] == s.locals[p])
    && s'.now >= s.now
  }

  lemma ForeignSettle(c: Config, s: State, i: nat, p: nat)
    requires i < |s.flights| && !Mine(s.flights[i], p)
    ensures SameFor(s, Apply(c, s, Land(i)), p) && SameFor(s, Apply(c, s, Lose(i)), p)
  {
    OwnWithout(s.flights, i, p);
  }

  lemma ForeignStep(c: Config, s: State, step: Step, p: nat)
    requires Foreign(s, step, p)
    ensures SameFor(s, Apply(c, s, step), p)
  {
    match step
    case Land(i) => if i < |s.flights| { ForeignSettle(c, s, i, p); }
    case Lose(i) => if i < |s.flights| { ForeignSettle(c, s, i, p); }
    case Publish => OthersSetOff(s.flights, ToRedis(None, Copy(|s.commits| + 1, s.now)), p);
    case ReadDatabase(q) =>
      var copy := Copy(|s.commits|, s.now);
      OthersSetOff(s.flights, ToRedis(Some(q), copy), p);
      OthersSetOff(s.flights + [ToRedis(Some(q), copy)], ToLocal(q, copy, s.now), p);
      assert s.flights + [ToRedis(Some(q), copy)] + [ToLocal(q, copy, s.now)]
             == s.flights + [ToRedis(Some(q), copy), ToLocal(q, copy, s.now)];
    case ReadRedis(q) =>
      if s.redis.Some? { OthersSetOff(s.flights, ToLocal(q, s.redis.value.copy, s.now), p); }
    case _ =>
  }

  lemma {:induction false} ForeignSteps(c: Config, s: State, steps: seq<Step>, p: nat)
    requires AllForeign(c, s, steps, p)
    ensures SameFor(s, After(c, s, steps), p)
    decreases |steps|
  {
    if steps != [] {
      ForeignStep(c, s, steps[0], p);
      ForeignSteps(c, Apply(c, s, steps[0]), steps[1..], p);
    }
  }

  function IndexOf(flights: seq<Flight>, f: Flight): (i: nat)
    ensures f in flights ==> i < |flights| && flights[i] == f
  {
    if flights == [] || flights[0] == f then 0 else 1 + IndexOf(flights[1..], f)
  }

  // ---------------------------------------------------------------------------
  // The end of a call: the copy is kept
  // ---------------------------------------------------------------------------

  /** The copy read, when only it is still on its way. */
  lemma KeepCopy(c: Config, s: State, p: nat, copy: Copy, since: real)
    requires Own(s.flights, p) == [ToLocal(p, copy, since)]
    ensures var i := IndexOf(s.flights, ToLocal(p, copy, since));
            var s' := Apply(c, s, Land(i));
            && Obeys(c, SEQUENTIAL, s, Land(i))
            && s'.now == s.now && p in s'.locals && s'.locals[p] == LocalCopy(copy, s.now) && Own(s'.flights, p) == []
  {
    var f := ToLocal(p, copy, since);
    OwnMembers(s.flights, p, f);
    var i := IndexOf(s.flights, f);
    forall j | 0 <= j < |s.flights| ensures !(s.flights[j].ToRedis? && s.flights[j].writer == Some(p)) {
      OwnMembers(s.flights, p, s.flights[j]);
    }
    OwnWithout(s.flights, i, p);
  }

  /** Others, then the copy is kept. */
  lemma WaitAndKeep(c: Config, s: State, p: nat, copy: Copy, since: real, others: seq<Step>) returns (steps: seq<Step>)
    requires Own(s.flights, p) == [ToLocal(p, copy, since)]
    requires AllForeign(c, s, others, p) && ObeysAll(c, SEQUENTIAL, s, others)
    ensures ObeysAll(c, SEQUENTIAL, s, steps)
    ensures var s' := After(c, s, steps);
            && s'.now == After(c, s, others).now
            && p in s'.locals && s'.locals[p] == LocalCopy(copy, s'.now) && Own(s'.flights, p) == []
  {
    var before := After(c, s, others);
    ForeignSteps(c, s, others, p);
    KeepCopy(c, before, p, copy, since);
    var last := [Land(IndexOf(before.flights, ToLocal(p, copy, since)))];
    steps := others + last;
    AfterJoin(c, s, others, last);
    OneMore(c, before, last[0]);
  }

  lemma OneMore(c: Config, s: State, step: Step)
    ensures After(c, s, [step]) == Apply(c, s, step)
    ensures Obeys(c, SEQUENTIAL, s, step) ==> ObeysAll(c, SEQUENTIAL, s, [step])
  {
    assert [step][1..] == [];
  }

  // ---------------------------------------------------------------------------
  // The two ways a call fetches
  // ---------------------------------------------------------------------------

  /** The provider has nothing under way and its memory does not answer. */
  ghost predicate AtRest(c: Config, s: State, p: nat) {
    Own(s.flights, p) == [] && !Answers(c, s, p)
  }

  lemma RestMayRead(c: Config, s: State, p: nat)
    requires AtRest(c, s, p)
    ensures MayRead(c, SEQUENTIAL, s, p)
  {
    forall j | 0 <= j < |s.flights| ensures !(s.flights[j].ToLocal? && s.flights[j].provider == p) {
      OwnMembers(s.flights, p, s.flights[j]);
    }
  }

  lemma FetchFromRedis(c: Config, s: State, p: nat, others: seq<Step>) returns (steps: seq<Step>)
    requires AtRest(c, s, p) && Live(c, s)
    requires AllForeign(c, Apply(c, s, Step.ReadRedis(p)), others, p)
    requires ObeysAll(c, SEQUENTIAL, Apply(c, s, Step.ReadRedis(p)), others)
    ensures ObeysAll(c, SEQUENTIAL, s, steps)
    ensures var s' := After(c, s, steps);
            && s'.now == After(c, Apply(c, s, Step.ReadRedis(p)), others).now
            && p in s'.locals && s'.locals[p] == LocalCopy(s.redis.value.copy, s'.now) && Own(s'.flights, p) == []
  {
    var read := Step.ReadRedis(p);
    var f := ToLocal(p, s.redis.value.copy, s.now);
    OwnJoin(s.flights, [f], p);
    OwnSingle(f, p);
    RestMayRead(c, s, p);
    OneMore(c, s, read);
    var rest := WaitAndKeep(c, Apply(c, s, read), p, s.redis.value.copy, s.now, others);
    AfterJoin(c, s, [read], rest);
    steps := [read] + rest;
  }

  lemma OwnPair(f: Flight, g: Flight, p: nat)
    requires Mine(f, p) && Mine(g, p)
    ensures Own([f, g], p) == [f, g]
  {
    OwnSingle(f, p);
    OwnSingle(g, p);
    OwnJoin([f], [g], p);
    assert [f] + [g] == [f, g];
  }

  /** The write ends, landing or failing; only the copy is left. */
  lemma EndWrite(c: Config, s: State, p: nat, copy: Copy, since: real, lands: bool)
    requires Own(s.flights, p) == [ToRedis(Some(p), copy), ToLocal(p, copy, since)]
    ensures var i := IndexOf(s.flights, ToRedis(Some(p), copy));
            var step := if lands then Land(i) else Lose(i);
            && Obeys(c, SEQUENTIAL, s, step)
            && Own(Apply(c, s, step).flights, p) == [ToLocal(p, copy, since)]
  {
    var f := ToRedis(Some(p), copy);
    OwnMembers(s.flights, p, f);
    var i := IndexOf(s.flights, f);
    OwnWithout(s.flights, i, p);
    FirstOfTwo(Own(s.flights[..i], p), f, Own(s.flights[i + 1..], p), ToLocal(p, copy, since));
  }

  lemma FirstOfTwo(a: seq<Flight>, f: Flight, b: seq<Flight>, g: Flight)
    requires a + [f] + b == [f, g] && f != g
    ensures a + b == [g]
  {
    var whole := a + [f] + b;
    assert |a| + 1 + |b| == |whole| == 2 && whole[1] == g && whole[|a|] == f;
    assert |a| == 0;
    assert b == whole[1..];
  }

  lemma FetchFromDatabase(c: Config, s: State, p: nat, writing: seq<Step>, lands: bool, others: seq<Step>) returns (steps: seq<Step>)
    requires AtRest(c, s, p) && s.commits != [] && |s.commits| !in s.damaged
    requires var s1 := Apply(c, s, Step.ReadDatabase(p));
             var s2 := After(c, s1, writing);
             var i := IndexOf(s2.flights, ToRedis(Some(p), Copy(|s.commits|, s.now)));
             var s3 := Apply(c, s2, if lands then Land(i) else Lose(i));
             && AllForeign(c, s1, writing, p) && ObeysAll(c, SEQUENTIAL, s1, writing)
             && AllForeign(c, s3, others, p) && ObeysAll(c, SEQUENTIAL, s3, others)
    ensures ObeysAll(c, SEQUENTIAL, s, steps)
    ensures var s' := After(c, s, steps);
            p in s'.locals && s'.locals[p] == LocalCopy(Copy(|s.commits|, s.now), s'.now) && Own(s'.flights, p) == []
  {
    var read, copy := Step.ReadDatabase(p), Copy(|s.commits|, s.now);
    var w, l := ToRedis(Some(p), copy), ToLocal(p, copy, s.now);
    var s1 := Apply(c, s, read);
    OwnJoin(s.flights, [w, l], p);
    OwnPair(w, l, p);
    RestMayRead(c, s, p);
    OneMore(c, s, read);
    ForeignSteps(c, s1, writing, p);
    var s2 := After(c, s1, writing);
    var i := IndexOf(s2.flights, w);
    var end := if lands then Land(i) else Lose(i);
    EndWrite(c, s2, p, copy, s.now, lands);
    OneMore(c, s2, end);
    var rest := WaitAndKeep(c, Apply(c, s2, end), p, copy, s.now, others);
    AfterJoin(c, s2, [end], rest);
    AfterJoin(c, s1, writing, [end] + rest);
    AfterJoin(c, s, [read], writing + ([end] + rest));
    steps := [read] + (writing + ([end] + rest));
  }

  // ---------------------------------------------------------------------------
  // The call
  // ---------------------------------------------------------------------------

  /** What the object remembers is what the timed cache has it hold. */
  ghost predicate Remembers<D>(cached: Option<RuleCache.RuleSet<D>>, cachedAt: real, s: State, p: nat) {
    cached.Some? ==>
      p in s.locals && s.locals[p].copy.version == cached.value.version && s.locals[p].cachedAt == cachedAt
  }

  /** What happened in the world while the call ran: nothing of its own, or one of the two fetches from s on. */
  datatype Course =
    | Nothing
    | ThroughRedis(others: seq<Step>)
    | ThroughDatabase(writing: seq<Step>, lands: bool, others: seq<Step>)

  /** The course fits the layer that answered, and what was answered is what was there to read at s. */
  ghost predicate Fits<R, D>(c: Config, s: State, p: nat, course: Course, layer: RuleCache.Layer, r: Result<RuleCache.RuleSet<D>, RuleCache.LoadError>)
  {
    match course
    case Nothing => r.Err? || layer.Local?
    case ThroughRedis(others) =>
      && layer.Redis? && r.Ok?
      && Live(c, s) && r.value.version == s.redis.value.copy.version
      && AllForeign(c, Apply(c, s, Step.ReadRedis(p)), others, p)
      && ObeysAll(c, SEQUENTIAL, Apply(c, s, Step.ReadRedis(p)), others)
    case ThroughDatabase(writing, lands, others) =>
      && layer.Database? && r.Ok?
      && s.commits != [] && |s.commits| !in s.damaged && r.value.version == |s.commits|
      && var s1 := Apply(c, s, Step.ReadDatabase(p));
      && var s2 := After(c, s1, writing);
      && var i := IndexOf(s2.flights, ToRedis(Some(p), Copy(|s.commits|, s.now)));
      && var s3 := Apply(c, s2, if lands then Land(i) else Lose(i));
      && AllForeign(c, s1, writing, p) && ObeysAll(c, SEQUENTIAL, s1, writing)
      && AllForeign(c, s3, others, p) && ObeysAll(c, SEQUENTIAL, s3, others)
  }

  /**
   Every outcome of `get_active` is a run of the timed cache that keeps the provider's own rules: from a state that
   the object remembers and in which it has nothing under way, the steps lead to one that it remembers again, and
   an answer is the version the cache has it hold.
   */
  lemma CallIsSteps<R, D>(c: Config, s: State, p: nat, codec: RuleCache.Codec<R, D>, cached: Option<RuleCache.RuleSet<D>>, cachedAt: real,
                          now: real, redis: RuleCache.RedisAnswer<R>, database: RuleCache.DatabaseAnswer<R>, later: real,
                          r: Result<RuleCache.RuleSet<D>, RuleCache.LoadError>, layer: RuleCache.Layer,
                          kept: Option<RuleCache.RuleSet<D>>, keptAt: real, course: Course)
    returns (steps: seq<Step>)
    requires RuleCache.Outcome(codec, c.localTtl, cached, cachedAt, now, redis, database, later, r, layer, kept, keptAt)
    requires now <= s.now     // the clock is read first, the layer at s
    requires Remembers(cached, cachedAt, s, p) && Own(s.flights, p) == [] && (cached.None? ==> !Answers(c, s, p))
    requires Fits<R, D>(c, s, p, course, layer, r)
    ensures ObeysAll(c, SEQUENTIAL, s, steps)
    ensures var s' := After(c, s, steps);
            && Own(s'.flights, p) == []
            && (later == s'.now ==> Remembers(kept, keptAt, s', p))
            && (r.Ok? ==> p in s'.locals && s'.locals[p].copy.version == r.value.version)
  {
    match course
    case Nothing =>
      steps := [];
    case ThroughRedis(others) =>
      steps := FetchFromRedis(c, s, p, others);
    case ThroughDatabase(writing, lands, others) =>
      steps := FetchFromDatabase(c, s, p, writing, lands, others);
  }
}
