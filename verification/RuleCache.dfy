/**
 Loading rule sets: the integrity check on every copy, the Redis entry format, the provider, and
 the proof that a decision's recorded hash is the hash of what it was scored with.
 */
module RuleCache {
  import opened Wrappers

  /** The layers below: canonical hashing, model validation, the dry run and the JSON dump of a definition. */
  datatype Codec<!R, !D> = Codec(hash: R -> string, validate: R -> Option<D>, dryRun: D -> bool, dump: D -> R)

  datatype Meta = Meta(description: string, createdBy: string, createdAt: int)

  datatype RuleSet<D> = RuleSet(key: string, version: nat, definition: D, contentHash: string, meta: Meta)

  /** A row of rule_set_versions. */
  datatype StoredRow<R> = StoredRow(key: string, version: nat, definition: R, contentHash: string, meta: Meta)

  const SCHEMA: int := 1

  /** The JSON object kept in Redis. */
  datatype Entry<R> = Entry(schema: int, row: StoredRow<R>)

  datatype LoadError = NotFound | Corrupt | DatabaseDown

  /** `load_stored_definition`: the hash of the stored JSON itself, then validation, then the dry run. */
  function LoadStored<R, D>(codec: Codec<R, D>, raw: R, storedHash: string): Option<D> {
    if codec.hash(raw) != storedHash then None
    else
      match codec.validate(raw)
      case None => None
      case Some(d) => if codec.dryRun(d) then Some(d) else None
  }

  function FromRow<R, D>(codec: Codec<R, D>, row: StoredRow<R>): Result<RuleSet<D>, LoadError> {
    match LoadStored(codec, row.definition, row.contentHash)
    case None => Err(Corrupt)
    case Some(d) => Ok(RuleSet(row.key, row.version, d, row.contentHash, row.meta))
  }

  function Serialise<R, D>(codec: Codec<R, D>, rs: RuleSet<D>): Entry<R> {
    Entry(SCHEMA, StoredRow(rs.key, rs.version, codec.dump(rs.definition), rs.contentHash, rs.meta))
  }

  /** An entry of another schema is ignored, not misread. */
  function Deserialise<R, D>(codec: Codec<R, D>, e: Entry<R>): Result<Option<RuleSet<D>>, LoadError> {
    if e.schema != SCHEMA then Ok(None)
    else
      match FromRow(codec, e.row)
      case Err(error) => Err(error)
      case Ok(rs) => Ok(Some(rs))
  }

  // ---------------------------------------------------------------------------
  // The provider
  // ---------------------------------------------------------------------------

  datatype RedisAnswer<R> = RedisDown | NoEntry | Found(entry: Entry<R>)

  datatype DatabaseAnswer<R> = DatabaseError | NoRow | Latest(row: StoredRow<R>)

  datatype Layer = Local | Redis | Database

  /** `_read_redis`: any failure, a corrupt entry included, is a miss. */
  function ReadRedis<R, D>(codec: Codec<R, D>, answer: RedisAnswer<R>): Option<RuleSet<D>> {
    match answer
    case Found(entry) =>
      (match Deserialise(codec, entry)
       case Ok(Some(rs)) => Some(rs)
       case _ => None)
    case _ => None
  }

  function ReadDatabase<R, D>(codec: Codec<R, D>, answer: DatabaseAnswer<R>): Result<RuleSet<D>, LoadError> {
    match answer
    case DatabaseError => Err(DatabaseDown)
    case NoRow => Err(NotFound)
    case Latest(row) => FromRow(codec, row)
  }

  /** What one call makes of its memory and of what the layers would answer. */
  ghost predicate Outcome<R, D>(codec: Codec<R, D>, localTtl: real, cached: Option<RuleSet<D>>, cachedAt: real, now: real,
                                redis: RedisAnswer<R>, database: DatabaseAnswer<R>, later: real,
                                r: Result<RuleSet<D>, LoadError>, layer: Layer, kept: Option<RuleSet<D>>, keptAt: real)
  {
    var fromRedis := ReadRedis(codec, redis);
    if cached.Some? && now - cachedAt < localTtl then
      layer == Local && r == Ok(cached.value) && kept == cached && keptAt == cachedAt
    else if fromRedis.Some? then
      layer == Redis && r == Ok(fromRedis.value) && kept == fromRedis && keptAt == later
    else
      layer == Database && r == ReadDatabase(codec, database)
      && match r
         case Ok(rs) => kept == Some(rs) && keptAt == later
         case Err(e) => kept == (if e.Corrupt? then None else cached) && keptAt == cachedAt
  }

  class RuleSetProvider<!R, !D> {
    const codec: Codec<R, D>
    const localTtl: real
    var cached: Option<RuleSet<D>>
    var cachedAt: real

    constructor (codec: Codec<R, D>, localTtl: real)
      ensures this.codec == codec && this.localTtl == localTtl && cached == None
    {
      this.codec, this.localTtl, cached, cachedAt := codec, localTtl, None, 0.0;
    }

    predicate Fresh(now: real)
      reads this
    {
      cached.Some? && now - cachedAt < localTtl
    }

    /**
     `redis` and `database` are what the two layers would answer; `now` is the clock at the call and `later` at
     its end. `written` is the entry sent to Redis, if any. There is no fallback: an error leaves nothing newer
     than it found, and a corrupt active version also drops the local copy.
     */
    method GetActive(now: real, redis: RedisAnswer<R>, database: DatabaseAnswer<R>, later: real)
      returns (r: Result<RuleSet<D>, LoadError>, layer: Layer, written: Option<Entry<R>>)
      modifies this
      ensures old(Fresh(now)) ==>
                layer == Local && r == Ok(old(cached).value) && cached == old(cached) && cachedAt == old(cachedAt) && written == None
      ensures !old(Fresh(now)) && ReadRedis(codec, redis).Some? ==>
                layer == Redis && r == Ok(ReadRedis(codec, redis).value) && written == None
      ensures !old(Fresh(now)) && ReadRedis(codec, redis).None? ==>
                layer == Database && r == ReadDatabase(codec, database)
                && written == (if r.Ok? then Some(Serialise(codec, r.value)) else None)
      ensures written.Some? ==>
                r.Ok? && layer == Database
                && written.value == Entry(1, StoredRow(r.value.key, r.value.version, codec.dump(r.value.definition),
                                                       r.value.contentHash, r.value.meta))
      ensures !old(Fresh(now)) && r.Ok? ==> cached == Some(r.value) && cachedAt == later
      ensures r.Err? ==> cached == (if r.error.Corrupt? then None else old(cached)) && cachedAt == old(cachedAt)
      ensures Outcome(codec, localTtl, old(cached), old(cachedAt), now, redis, database, later, r, layer, cached, cachedAt)
    {
      written := None;
      if cached.Some? && now - cachedAt < localTtl {
        return Ok(cached.value), Local, None;
      }
      var fromRedis := ReadRedis(codec, redis);
      var ruleSet: RuleSet<D>;
      if fromRedis.Some? {
        ruleSet, layer := fromRedis.value, Redis;
      } else {
        layer := Database;
        r := ReadDatabase(codec, database);
        if r.Err? {
          if r.error.Corrupt? { cached := None; }
          return;
        }
        ruleSet := r.value;
        written := Some(Serialise(codec, ruleSet));
      }
      cached, cachedAt := Some(ruleSet), later;
      r := Ok(ruleSet);
    }
  }

  // ---------------------------------------------------------------------------
  // Entries round-trip
  // ---------------------------------------------------------------------------

  /** Dumping a valid definition and validating the dump gives it back. */
  ghost predicate DumpsItsOwn<R, D(!new)>(codec: Codec<R, D>) {
    forall d :: codec.validate(codec.dump(d)) == Some(d)
  }

  /**
   A cache entry reads back as the rule set it was written from exactly when the set carries the hash of its own
   dump and passes the dry run; otherwise it is refused, never misread.
   */
  lemma EntryRoundTrip<R, D(!new)>(codec: Codec<R, D>, rs: RuleSet<D>)
    requires DumpsItsOwn(codec)
    ensures var e := Deserialise(codec, Serialise(codec, rs));
            && (e == Ok(Some(rs)) <==> codec.hash(codec.dump(rs.definition)) == rs.contentHash && codec.dryRun(rs.definition))
            && (e != Ok(Some(rs)) ==> e == Err(Corrupt))
  {
    assert codec.validate(codec.dump(rs.definition)) == Some(rs.definition);
  }

  // ---------------------------------------------------------------------------
  // What a call answers, in terms of the JSON it was given
  // ---------------------------------------------------------------------------

  /** The stored JSON has the stored hash, validates and passes the dry run. */
  ghost predicate Intact<R, D>(codec: Codec<R, D>, row: StoredRow<R>) {
    && codec.hash(row.definition) == row.contentHash
    && codec.validate(row.definition).Some?
    && codec.dryRun(codec.validate(row.definition).value)
  }

  /** Everything else about the rule set is what is stored beside it. */
  ghost predicate IsLoaded<R, D>(codec: Codec<R, D>, row: StoredRow<R>, rs: RuleSet<D>) {
    && rs.key == row.key && rs.version == row.version && rs.contentHash == row.contentHash && rs.meta == row.meta
    && codec.validate(row.definition) == Some(rs.definition)
  }

  /** One call of `get_active`: what it found, what it answered and what it kept. */
  datatype Call<R, D> = Call(
    cached: Option<RuleSet<D>>, cachedAt: real, now: real, redis: RedisAnswer<R>, database: DatabaseAnswer<R>,
    later: real, answer: Result<RuleSet<D>, LoadError>, layer: Layer, kept: Option<RuleSet<D>>, keptAt: real)

  ghost predicate IsCall<R, D>(codec: Codec<R, D>, localTtl: real, c: Call<R, D>) {
    Outcome(codec, localTtl, c.cached, c.cachedAt, c.now, c.redis, c.database, c.later, c.answer, c.layer, c.kept, c.keptAt)
  }

  predicate HasFreshCopy<R, D>(localTtl: real, c: Call<R, D>) {
    c.cached.Some? && c.now - c.cachedAt < localTtl
  }

  /**
   A call that has no fresh copy: an intact Redis entry of schema 1 is the answer; any other, and no entry, and
   Redis being down, leave it to the database, whose latest row is the answer if it is intact, and whose every
   other state is an error of its own kind.
   */
  lemma AnswerFromStored<R, D>(codec: Codec<R, D>, localTtl: real, c: Call<R, D>)
    requires IsCall(codec, localTtl, c) && !HasFreshCopy(localTtl, c)
    ensures var usable := c.redis.Found? && c.redis.entry.schema == 1 && Intact(codec, c.redis.entry.row);
            if usable then c.layer == Redis && c.answer.Ok? && IsLoaded(codec, c.redis.entry.row, c.answer.value)
            else
              && c.layer == Database
              && match c.database
                 case DatabaseError => c.answer == Err(DatabaseDown)
                 case NoRow => c.answer == Err(NotFound)
                 case Latest(row) =>
                   if Intact(codec, row) then c.answer.Ok? && IsLoaded(codec, row, c.answer.value)
                   else c.answer == Err(Corrupt)
  {
  }

  /** What a call sends to Redis after the database has answered it. */
  function WrittenBy<R, D>(codec: Codec<R, D>, rs: RuleSet<D>): Entry<R> {
    Entry(1, StoredRow(rs.key, rs.version, codec.dump(rs.definition), rs.contentHash, rs.meta))
  }

  /**
   The entry one call writes is there for the next, of any provider: with the database down that call answers the
   same rule set exactly if the hash stored with it is the hash of its definition's own dump, which is so of every
   row that holds the dump of a definition, as the service stores them. A row hashed from other JSON leaves an entry
   that is refused.
   */
  lemma WrittenEntryServes<R, D(!new)>(codec: Codec<R, D>, rs: RuleSet<D>, firstTtl: real, first: Call<R, D>, nextTtl: real, next: Call<R, D>)
    requires DumpsItsOwn(codec)
    requires IsCall(codec, firstTtl, first) && first.layer == Database && first.answer == Ok(rs)
    requires IsCall(codec, nextTtl, next) && !HasFreshCopy(nextTtl, next)
    requires next.redis == Found(WrittenBy(codec, rs)) && next.database == DatabaseError
    ensures if codec.hash(codec.dump(rs.definition)) == rs.contentHash
            then next.layer == Redis && next.answer == Ok(rs) && next.kept == Some(rs) && next.keptAt == next.later
            else next.layer == Database && next.answer == Err(DatabaseDown) && next.kept == next.cached
    ensures forall d :: first.database == Latest(StoredRow(rs.key, rs.version, codec.dump(d), rs.contentHash, rs.meta)) ==>
              next.layer == Redis && next.answer == Ok(rs)
  {
    AnswerFromStored(codec, firstTtl, first);
    AnswerFromStored(codec, nextTtl, next);
    assert codec.validate(codec.dump(rs.definition)) == Some(rs.definition);
  }

  // ---------------------------------------------------------------------------
  // Traceable decisions
  // ---------------------------------------------------------------------------

  /** What a decision records about the rules that made it, beside the definition it was really scored with. */
  datatype Scored<D> = Scored(rulesVersion: nat, rulesHash: string, definition: D)

  datatype State<R, D> = State(
    rows: seq<StoredRow<R>>,            // rows[i] is version i + 1
    published: seq<D>,                  // what was published as version i + 1
    redis: Option<Entry<R>>,
    caches: map<nat, RuleSet<D>>,       // each provider's local copy
    decisions: seq<Scored<D>>)

  datatype Step<R, D> =
    | Publish(definition: D, meta: Meta, reachesRedis: bool)
    | EditRow(version: nat, row: StoredRow<R>)        // an in-place edit outside the API
    | EditRedis(entry: Option<Entry<R>>)
    | LoadFromDatabase(provider: nat, reachesRedis: bool)
    | LoadFromRedis(provider: nat)
    | Decide(provider: nat)

  function Apply<R, D>(codec: Codec<R, D>, key: string, s: State<R, D>, step: Step<R, D>): State<R, D> {
    match step
    case Publish(d, meta, reachesRedis) =>
      var raw := codec.dump(d);
      var row := StoredRow(key, |s.rows| + 1, raw, codec.hash(raw), meta);
      var s' := s.(rows := s.rows + [row], published := s.published + [d]);
      (match FromRow(codec, row)
       case Ok(rs) => if reachesRedis then s'.(redis := Some(Serialise(codec, rs))) else s'
       case Err(_) => s')
    case EditRow(version, row) =>
      if 1 <= version <= |s.rows| then s.(rows := s.rows[version - 1 := row]) else s
    case EditRedis(entry) => s.(redis := entry)
    case LoadFromDatabase(p, reachesRedis) =>
      if s.rows == [] then s
      else
        (match FromRow(codec, s.rows[|s.rows| - 1])
         case Err(_) => s.(caches := s.caches - {p})
         case Ok(rs) =>
           var s' := s.(caches := s.caches[p := rs]);
           if reachesRedis then s'.(redis := Some(Serialise(codec, rs))) else s')
    case LoadFromRedis(p) =>
      if s.redis.None? then s
      else
        (match ReadRedis(codec, Found(s.redis.value))
         case None => s
         case Some(rs) => s.(caches := s.caches[p := rs]))
    case Decide(p) =>
      if p !in s.caches then s
      else
        var rs := s.caches[p];
        s.(decisions := s.decisions + [Scored(rs.version, rs.contentHash, rs.definition)])
  }

  function Run<R, D>(codec: Codec<R, D>, key: string, steps: seq<Step<R, D>>): State<R, D> {
    if steps == [] then State([], [], None, map[], [])
    else Apply(codec, key, Run(codec, key, steps[..|steps| - 1]), steps[|steps| - 1])
  }

  /** A row of the table, or the Redis entry, holds this JSON under this hash. */
  ghost predicate Stored<R(!new), D>(s: State<R, D>, raw: R, h: string) {
    || (exists i :: 0 <= i < |s.rows| && s.rows[i].definition == raw && s.rows[i].contentHash == h)
    || (s.redis.Some? && s.redis.value.row.definition == raw && s.redis.value.row.contentHash == h)
  }

  /** At some moment of the run it did. */
  ghost predicate WasStored<R(!new), D>(codec: Codec<R, D>, key: string, steps: seq<Step<R, D>>, raw: R, h: string) {
    exists k :: 0 <= k <= |steps| && Stored(Run(codec, key, steps[..k]), raw, h)
  }

  /** The definition was parsed, validated and dry-run from JSON that was stored during the run and has this hash. */
  ghost predicate Traceable<R(!new), D>(codec: Codec<R, D>, key: string, steps: seq<Step<R, D>>, h: string, d: D) {
    exists raw :: WasStored(codec, key, steps, raw, h) && LoadStored(codec, raw, h) == Some(d)
  }

  ghost predicate AllTraceable<R(!new), D(!new)>(codec: Codec<R, D>, key: string, steps: seq<Step<R, D>>, s: State<R, D>) {
    && (forall p :: p in s.caches ==> Traceable(codec, key, steps, s.caches[p].contentHash, s.caches[p].definition))
    && (forall i :: 0 <= i < |s.decisions| ==>
          Traceable(codec, key, steps, s.decisions[i].rulesHash, s.decisions[i].definition))
  }

  /** What is loaded from the table or from Redis is traceable to what is there now. */
  lemma LoadedIsTraceable<R(!new), D>(codec: Codec<R, D>, key: string, steps: seq<Step<R, D>>, row: StoredRow<R>)
    requires Stored(Run(codec, key, steps), row.definition, row.contentHash)
    ensures FromRow(codec, row).Ok? ==>
              var rs := FromRow(codec, row).value; Traceable(codec, key, steps, rs.contentHash, rs.definition)
  {
    assert steps[..|steps|] == steps;
    assert WasStored(codec, key, steps, row.definition, row.contentHash);
  }

  /** What was stored once was stored, however long the run goes on. */
  lemma StillTraceable<R(!new), D>(codec: Codec<R, D>, key: string, steps: seq<Step<R, D>>, step: Step<R, D>, h: string, d: D)
    requires Traceable(codec, key, steps, h, d)
    ensures Traceable(codec, key, steps + [step], h, d)
  {
    var raw :| WasStored(codec, key, steps, raw, h) && LoadStored(codec, raw, h) == Some(d);
    var k :| 0 <= k <= |steps| && Stored(Run(codec, key, steps[..k]), raw, h);
    assert (steps + [step])[..k] == steps[..k];
    assert WasStored(codec, key, steps + [step], raw, h);
  }

  lemma AllStillTraceable<R(!new), D(!new)>(codec: Codec<R, D>, key: string, steps: seq<Step<R, D>>, step: Step<R, D>, s: State<R, D>)
    requires AllTraceable(codec, key, steps, s)
    ensures AllTraceable(codec, key, steps + [step], s)
  {
    forall p | p in s.caches
      ensures Traceable(codec, key, steps + [step], s.caches[p].contentHash, s.caches[p].definition)
    {
      StillTraceable(codec, key, steps, step, s.caches[p].contentHash, s.caches[p].definition);
    }
    forall i | 0 <= i < |s.decisions|
      ensures Traceable(codec, key, steps + [step], s.decisions[i].rulesHash, s.decisions[i].definition)
    {
      StillTraceable(codec, key, steps, step, s.decisions[i].rulesHash, s.decisions[i].definition);
    }
  }

  lemma KeptIsTraceable<R(!new), D(!new)>(codec: Codec<R, D>, key: string, steps: seq<Step<R, D>>, s: State<R, D>, p: nat, rs: RuleSet<D>)
    requires AllTraceable(codec, key, steps, s) && Traceable(codec, key, steps, rs.contentHash, rs.definition)
    ensures AllTraceable(codec, key, steps, s.(caches := s.caches[p := rs]))
  {
  }

  lemma LoadKeepsTraceable<R(!new), D(!new)>(codec: Codec<R, D>, key: string, steps: seq<Step<R, D>>, p: nat, row: StoredRow<R>)
    requires AllTraceable(codec, key, steps, Run(codec, key, steps))
    requires Stored(Run(codec, key, steps), row.definition, row.contentHash) && FromRow(codec, row).Ok?
    ensures var s := Run(codec, key, steps);
            AllTraceable(codec, key, steps, s.(caches := s.caches[p := FromRow(codec, row).value]))
  {
    LoadedIsTraceable(codec, key, steps, row);
    KeptIsTraceable(codec, key, steps, Run(codec, key, steps), p, FromRow(codec, row).value);
  }

  lemma StepKeepsTraceable<R(!new), D(!new)>(codec: Codec<R, D>, key: string, steps: seq<Step<R, D>>, step: Step<R, D>)
    requires AllTraceable(codec, key, steps, Run(codec, key, steps))
    ensures AllTraceable(codec, key, steps, Apply(codec, key, Run(codec, key, steps), step))
  {
    var s := Run(codec, key, steps);
    match step
    case LoadFromDatabase(p, _) =>
      if s.rows != [] && FromRow(codec, s.rows[|s.rows| - 1]).Ok? {
        LoadKeepsTraceable(codec, key, steps, p, s.rows[|s.rows| - 1]);
      }
    case LoadFromRedis(p) =>
      if s.redis.Some? && FromRow(codec, s.redis.value.row).Ok? {
        LoadKeepsTraceable(codec, key, steps, p, s.redis.value.row);
      }
    case _ =>
  }

  /**
   Traceability: whatever is edited in place, in the table or in Redis, every decision's recorded hash is the
   hash of JSON that the table or Redis held at some moment of the run, and the definition that scored the
   decision was parsed, validated and dry-run from that JSON.
   */
  lemma {:induction false} DecisionsAreTraceable<R(!new), D(!new)>(codec: Codec<R, D>, key: string, steps: seq<Step<R, D>>)
    ensures AllTraceable(codec, key, steps, Run(codec, key, steps))
  {
    if steps != [] {
      var before, step := steps[..|steps| - 1], steps[|steps| - 1];
      assert steps == before + [step];
      DecisionsAreTraceable(codec, key, before);
      StepKeepsTraceable(codec, key, before, step);
      AllStillTraceable(codec, key, before, step, Run(codec, key, steps));
    }
  }

  /** An edit may change anything but the hash it finds, and may not invent an entry where there is none. */
  predicate LeavesHashAlone<R, D>(s: State<R, D>, step: Step<R, D>) {
    match step
    case EditRow(version, row) =>
      1 <= version <= |s.rows| ==> row.contentHash == s.rows[version - 1].contentHash
    case EditRedis(entry) =>
      entry.Some? ==> s.redis.Some? && entry.value.row.contentHash == s.redis.value.row.contentHash
    case _ => true
  }

  predicate HashesLeftAlone<R, D>(codec: Codec<R, D>, key: string, steps: seq<Step<R, D>>) {
    forall i :: 0 <= i < |steps| ==> LeavesHashAlone(Run(codec, key, steps[..i]), steps[i])
  }

  ghost predicate InjectiveHash<R(!new), D>(codec: Codec<R, D>) {
    forall a, b :: codec.hash(a) == codec.hash(b) ==> a == b
  }

  /** The hash is the one a published definition was stored with. */
  ghost predicate PublishedHash<R, D>(codec: Codec<R, D>, published: seq<D>, h: string) {
    exists i :: 0 <= i < |published| && codec.hash(codec.dump(published[i])) == h
  }

  /** The definition is one that was published, and this is its hash. */
  ghost predicate PublishedAs<R, D>(codec: Codec<R, D>, published: seq<D>, h: string, d: D) {
    exists i :: 0 <= i < |published| && codec.hash(codec.dump(published[i])) == h && published[i] == d
  }

  ghost predicate AllPublished<R, D>(codec: Codec<R, D>, s: State<R, D>) {
    && |s.rows| == |s.published|
    && (forall i :: 0 <= i < |s.rows| ==> s.rows[i].contentHash == codec.hash(codec.dump(s.published[i])))
    && (s.redis.Some? ==> PublishedHash(codec, s.published, s.redis.value.row.contentHash))
    && (forall p :: p in s.caches ==> PublishedAs(codec, s.published, s.caches[p].contentHash, s.caches[p].definition))
    && (forall i :: 0 <= i < |s.decisions| ==> PublishedAs(codec, s.published, s.decisions[i].rulesHash, s.decisions[i].definition))
  }

  /** Under an injective hash, a row that carries a published hash can only load as what was published. */
  lemma LoadsWhatWasPublished<R(!new), D(!new)>(codec: Codec<R, D>, published: seq<D>, row: StoredRow<R>)
    requires InjectiveHash(codec) && DumpsItsOwn(codec) && PublishedHash(codec, published, row.contentHash)
    ensures FromRow(codec, row).Ok? ==>
              PublishedAs(codec, published, row.contentHash, FromRow(codec, row).value.definition)
  {
    var i :| 0 <= i < |published| && codec.hash(codec.dump(published[i])) == row.contentHash;
    if FromRow(codec, row).Ok? {
      assert row.definition == codec.dump(published[i]);
      assert codec.validate(codec.dump(published[i])) == Some(published[i]);
    }
  }

  /** Publishing more does not unpublish anything. */
  lemma StillPublished<R, D>(codec: Codec<R, D>, published: seq<D>, more: D, h: string, d: D)
    ensures PublishedHash(codec, published, h) ==> PublishedHash(codec, published + [more], h)
    ensures PublishedAs(codec, published, h, d) ==> PublishedAs(codec, published + [more], h, d)
  {
    var all := published + [more];
    if i :| 0 <= i < |published| && codec.hash(codec.dump(published[i])) == h && published[i] == d {
      assert all[i] == d;
    }
    if i :| 0 <= i < |published| && codec.hash(codec.dump(published[i])) == h {
      assert all[i] == published[i];
    }
  }

  lemma PublishKeepsPublished<R(!new), D(!new)>(codec: Codec<R, D>, key: string, s: State<R, D>, step: Step<R, D>)
    requires step.Publish? && AllPublished(codec, s)
    ensures AllPublished(codec, Apply(codec, key, s, step))
  {
    var s', d := Apply(codec, key, s, step), step.definition;
    assert s'.published == s.published + [d] && s'.published[|s.published|] == d;
    assert PublishedHash(codec, s'.published, codec.hash(codec.dump(d)));
    if s.redis.Some? {
      StillPublished(codec, s.published, d, s.redis.value.row.contentHash, d);
    }
    forall p | p in s'.caches ensures PublishedAs(codec, s'.published, s'.caches[p].contentHash, s'.caches[p].definition) {
      StillPublished(codec, s.published, d, s.caches[p].contentHash, s.caches[p].definition);
    }
    forall i | 0 <= i < |s'.decisions|
      ensures PublishedAs(codec, s'.published, s'.decisions[i].rulesHash, s'.decisions[i].definition)
    {
      StillPublished(codec, s.published, d, s.decisions[i].rulesHash, s.decisions[i].definition);
    }
  }

  lemma LoadKeepsPublished<R(!new), D(!new)>(codec: Codec<R, D>, key: string, s: State<R, D>, step: Step<R, D>)
    requires InjectiveHash(codec) && DumpsItsOwn(codec) && AllPublished(codec, s)
    requires step.LoadFromDatabase? || step.LoadFromRedis?
    ensures AllPublished(codec, Apply(codec, key, s, step))
  {
    if step.LoadFromDatabase? && s.rows != [] {
      var n := |s.rows| - 1;
      assert codec.hash(codec.dump(s.published[n])) == s.rows[n].contentHash;
      assert PublishedHash(codec, s.published, s.rows[n].contentHash);
      LoadsWhatWasPublished(codec, s.published, s.rows[n]);
    }
    if step.LoadFromRedis? && s.redis.Some? {
      LoadsWhatWasPublished(codec, s.published, s.redis.value.row);
    }
  }

  lemma OtherKeepsPublished<R(!new), D(!new)>(codec: Codec<R, D>, key: string, s: State<R, D>, step: Step<R, D>)
    requires AllPublished(codec, s) && LeavesHashAlone(s, step)
    requires step.EditRow? || step.EditRedis? || step.Decide?
    ensures AllPublished(codec, Apply(codec, key, s, step))
  {
  }

  /**
   If edits leave the hash alone and the hash is injective, every decision was scored with a published
   definition, and it is the one whose hash the decision records.
   */
  lemma {:induction false} DecisionsUsePublishedRules<R(!new), D(!new)>(codec: Codec<R, D>, key: string, steps: seq<Step<R, D>>)
    requires InjectiveHash(codec) && DumpsItsOwn(codec) && HashesLeftAlone(codec, key, steps)
    ensures AllPublished(codec, Run(codec, key, steps))
  {
    if steps != [] {
      var n := |steps| - 1;
      assert HashesLeftAlone(codec, key, steps[..n]) by {
        forall i | 0 <= i < n ensures LeavesHashAlone(Run(codec, key, steps[..n][..i]), steps[..n][i]) {
          assert steps[..n][..i] == steps[..i];
        }
      }
      DecisionsUsePublishedRules(codec, key, steps[..n]);
      var s := Run(codec, key, steps[..n]);
      assert LeavesHashAlone(s, steps[n]);
      match steps[n]
      case Publish(_, _, _) => PublishKeepsPublished(codec, key, s, steps[n]);
      case LoadFromDatabase(_, _) => LoadKeepsPublished(codec, key, s, steps[n]);
      case LoadFromRedis(_) => LoadKeepsPublished(codec, key, s, steps[n]);
      case _ => OtherKeepsPublished(codec, key, s, steps[n]);
    }
  }

  /** An edit may change anything but the version and the hash it finds. */
  predicate LeavesVersionAlone<R, D>(s: State<R, D>, step: Step<R, D>) {
    match step
    case EditRow(version, row) => 1 <= version <= |s.rows| ==> row.version == s.rows[version - 1].version
    case EditRedis(entry) => entry.Some? ==> s.redis.Some? && entry.value.row.version == s.redis.value.row.version
    case _ => true
  }

  predicate VersionsLeftAlone<R, D>(codec: Codec<R, D>, key: string, steps: seq<Step<R, D>>) {
    forall i :: 0 <= i < |steps| ==>
      LeavesHashAlone(Run(codec, key, steps[..i]), steps[i]) && LeavesVersionAlone(Run(codec, key, steps[..i]), steps[i])
  }

  /** The hash is the one this version was published with. */
  ghost predicate HashOfVersion<R, D>(codec: Codec<R, D>, published: seq<D>, version: nat, h: string) {
    1 <= version <= |published| && codec.hash(codec.dump(published[version - 1])) == h
  }

  /** And the definition is the one published as this version. */
  ghost predicate IsVersion<R, D>(codec: Codec<R, D>, published: seq<D>, version: nat, h: string, d: D) {
    HashOfVersion(codec, published, version, h) && published[version - 1] == d
  }

  ghost predicate AllVersioned<R, D>(codec: Codec<R, D>, s: State<R, D>) {
    && |s.rows| == |s.published|
    && (forall i :: 0 <= i < |s.rows| ==>
          s.rows[i].version == i + 1 && s.rows[i].contentHash == codec.hash(codec.dump(s.published[i])))
    && (s.redis.Some? ==> HashOfVersion(codec, s.published, s.redis.value.row.version, s.redis.value.row.contentHash))
    && (forall p :: p in s.caches ==>
          IsVersion(codec, s.published, s.caches[p].version, s.caches[p].contentHash, s.caches[p].definition))
    && (forall i :: 0 <= i < |s.decisions| ==>
          IsVersion(codec, s.published, s.decisions[i].rulesVersion, s.decisions[i].rulesHash, s.decisions[i].definition))
  }

  /** Under an injective hash, a row that carries a version and its hash can only load as that version. */
  lemma LoadsItsVersion<R(!new), D(!new)>(codec: Codec<R, D>, published: seq<D>, row: StoredRow<R>)
    requires InjectiveHash(codec) && DumpsItsOwn(codec) && HashOfVersion(codec, published, row.version, row.contentHash)
    ensures FromRow(codec, row).Ok? ==>
              IsVersion(codec, published, row.version, row.contentHash, FromRow(codec, row).value.definition)
  {
    var d := published[row.version - 1];
    if FromRow(codec, row).Ok? {
      assert row.definition == codec.dump(d);
      assert codec.validate(codec.dump(d)) == Some(d);
    }
  }

  lemma StillVersion<R, D>(codec: Codec<R, D>, published: seq<D>, more: D, version: nat, h: string, d: D)
    ensures HashOfVersion(codec, published, version, h) ==> HashOfVersion(codec, published + [more], version, h)
    ensures IsVersion(codec, published, version, h, d) ==> IsVersion(codec, published + [more], version, h, d)
  {
  }

  lemma PublishKeepsVersioned<R(!new), D(!new)>(codec: Codec<R, D>, key: string, s: State<R, D>, step: Step<R, D>)
    requires step.Publish? && AllVersioned(codec, s)
    ensures AllVersioned(codec, Apply(codec, key, s, step))
  {
    var s', d := Apply(codec, key, s, step), step.definition;
    assert s'.published == s.published + [d] && s'.published[|s.published|] == d;
    if s.redis.Some? {
      StillVersion(codec, s.published, d, s.redis.value.row.version, s.redis.value.row.contentHash, d);
    }
    forall p | p in s'.caches
      ensures IsVersion(codec, s'.published, s'.caches[p].version, s'.caches[p].contentHash, s'.caches[p].definition)
    {
      StillVersion(codec, s.published, d, s.caches[p].version, s.caches[p].contentHash, s.caches[p].definition);
    }
    forall i | 0 <= i < |s'.decisions|
      ensures IsVersion(codec, s'.published, s'.decisions[i].rulesVersion, s'.decisions[i].rulesHash, s'.decisions[i].definition)
    {
      StillVersion(codec, s.published, d, s.decisions[i].rulesVersion, s.decisions[i].rulesHash, s.decisions[i].definition);
    }
  }

  lemma LoadKeepsVersioned<R(!new), D(!new)>(codec: Codec<R, D>, key: string, s: State<R, D>, step: Step<R, D>)
    requires InjectiveHash(codec) && DumpsItsOwn(codec) && AllVersioned(codec, s)
    requires step.LoadFromDatabase? || step.LoadFromRedis?
    ensures AllVersioned(codec, Apply(codec, key, s, step))
  {
    if step.LoadFromDatabase? && s.rows != [] {
      LoadsItsVersion(codec, s.published, s.rows[|s.rows| - 1]);
    }
    if step.LoadFromRedis? && s.redis.Some? {
      LoadsItsVersion(codec, s.published, s.redis.value.row);
    }
  }

  lemma OtherKeepsVersioned<R(!new), D(!new)>(codec: Codec<R, D>, key: string, s: State<R, D>, step: Step<R, D>)
    requires AllVersioned(codec, s) && LeavesHashAlone(s, step) && LeavesVersionAlone(s, step)
    requires step.EditRow? || step.EditRedis? || step.Decide?
    ensures AllVersioned(codec, Apply(codec, key, s, step))
  {
  }

  lemma VersionsWereLeftAlone<R, D>(codec: Codec<R, D>, key: string, steps: seq<Step<R, D>>)
    requires steps != [] && VersionsLeftAlone(codec, key, steps)
    ensures VersionsLeftAlone(codec, key, steps[..|steps| - 1])
    ensures var s, last := Run(codec, key, steps[..|steps| - 1]), steps[|steps| - 1];
            LeavesHashAlone(s, last) && LeavesVersionAlone(s, last)
  {
    var n := |steps| - 1;
    forall i | 0 <= i < n
      ensures LeavesHashAlone(Run(codec, key, steps[..n][..i]), steps[..n][i])
              && LeavesVersionAlone(Run(codec, key, steps[..n][..i]), steps[..n][i])
    {
      assert steps[..n][..i] == steps[..i];
    }
  }

  lemma {:induction false} RunIsVersioned<R(!new), D(!new)>(codec: Codec<R, D>, key: string, steps: seq<Step<R, D>>)
    requires InjectiveHash(codec) && DumpsItsOwn(codec) && VersionsLeftAlone(codec, key, steps)
    ensures AllVersioned(codec, Run(codec, key, steps))
  {
    if steps != [] {
      var n := |steps| - 1;
      VersionsWereLeftAlone(codec, key, steps);
      RunIsVersioned(codec, key, steps[..n]);
      var s := Run(codec, key, steps[..n]);
      match steps[n]
      case Publish(_, _, _) => PublishKeepsVersioned(codec, key, s, steps[n]);
      case LoadFromDatabase(_, _) => LoadKeepsVersioned(codec, key, s, steps[n]);
      case LoadFromRedis(_) => LoadKeepsVersioned(codec, key, s, steps[n]);
      case _ => OtherKeepsVersioned(codec, key, s, steps[n]);
    }
  }

  /**
   If edits leave the version alone as well, the version a decision records is the one whose published definition
   scored it.
   */
  lemma DecisionsNameTheirVersion<R(!new), D(!new)>(codec: Codec<R, D>, key: string, steps: seq<Step<R, D>>)
    requires InjectiveHash(codec) && DumpsItsOwn(codec) && VersionsLeftAlone(codec, key, steps)
    ensures AllVersioned(codec, Run(codec, key, steps))
    ensures var s := Run(codec, key, steps);
            forall i :: 0 <= i < |s.decisions| ==>
              var d := s.decisions[i];
              1 <= d.rulesVersion <= |s.published| && s.published[d.rulesVersion - 1] == d.definition
              && d.rulesHash == codec.hash(codec.dump(d.definition))
  {
    RunIsVersioned(codec, key, steps);
  }

  lemma OtherStepsLeaveAlone<R, D>(s: State<R, D>, step: Step<R, D>)
    requires !step.EditRow? && !step.EditRedis?
    ensures LeavesHashAlone(s, step) && LeavesVersionAlone(s, step)
  {
  }

  lemma NothingEdited<R, D>(codec: Codec<R, D>, key: string, steps: seq<Step<R, D>>)
    requires forall i :: 0 <= i < |steps| ==> !steps[i].EditRow? && !steps[i].EditRedis?
    ensures VersionsLeftAlone(codec, key, steps)
  {
    forall i | 0 <= i < |steps|
      ensures LeavesHashAlone(Run(codec, key, steps[..i]), steps[i]) && LeavesVersionAlone(Run(codec, key, steps[..i]), steps[i])
    {
      OtherStepsLeaveAlone(Run(codec, key, steps[..i]), steps[i]);
    }
  }

  /**
   In particular with no in-place edits at all: each decision's version is one that was published, its hash is that
   version's, and what it was scored with is that version's definition.
   */
  lemma UneditedDecisions<R(!new), D(!new)>(codec: Codec<R, D>, key: string, steps: seq<Step<R, D>>, i: nat)
    requires InjectiveHash(codec) && DumpsItsOwn(codec)
    requires forall k :: 0 <= k < |steps| ==> !steps[k].EditRow? && !steps[k].EditRedis?
    requires i < |Run(codec, key, steps).decisions|
    ensures var d, published := Run(codec, key, steps).decisions[i], Run(codec, key, steps).published;
            && 1 <= d.rulesVersion <= |published|
            && d.definition == published[d.rulesVersion - 1]
            && d.rulesHash == codec.hash(codec.dump(published[d.rulesVersion - 1]))
  {
    NothingEdited(codec, key, steps);
    DecisionsNameTheirVersion(codec, key, steps);
  }
}
