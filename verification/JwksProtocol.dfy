/**
 * Token verification against the key cache, as interleaved steps of any number of verifiers and one
 * background task that share a try-lock, a health flag and the cache.
 */
module JwksProtocol {
  import opened Prelude
  import opened JwksKeySet

  datatype Config = Config(cacheMax: nat, ttl: nat, refreshTimeout: nat)

  /** The clamps applied to configured values; times in milliseconds. */
  function Effective(cacheMaxKeys: nat, cacheTtlSecs: nat, refreshTimeoutMs: nat): (c: Config)
    ensures 1 <= c.cacheMax <= 256 && (1 <= cacheMaxKeys <= 256 ==> c.cacheMax == cacheMaxKeys)
    ensures 1000 <= c.ttl <= 86_400_000 && (1 <= cacheTtlSecs <= 86_400 ==> c.ttl == 1000 * cacheTtlSecs)
    ensures 100 <= c.refreshTimeout <= 60_000
    ensures 100 <= refreshTimeoutMs <= 60_000 ==> c.refreshTimeout == refreshTimeoutMs
  {
    Config(
      EffectiveCacheMax(cacheMaxKeys),
      1000 * Clamp(cacheTtlSecs, 1, 86_400),
      Clamp(refreshTimeoutMs, 100, 60_000))
  }

  type Pid = nat

  /** Where a task stands. A fetch belongs to a verifier's kid or, without one, to the background task. */
  datatype Pc =
    | Looking(kid: string)
    | Contending(kid: string)
    | Polling(kid: string, deadline: nat)
    | Sleeping
    | Fetching(owner: Option<string>)
    | Filling(owner: Option<string>)
    | Settled(owner: Option<string>, good: bool)
    | Rechecking(kid: string)
    | Gating(kid: string, key: CachedKey, lookedUp: nat)
    | Verifying(kid: string, key: CachedKey, lookedUp: nat, gate: Gate)
    | Refused
    | Accepted(kid: string)

  /** What the health check stood on: the fetches finished by then, and whether one had just stored success. */
  datatype Gate = Gate(finished: nat, justStored: bool)

  datatype Fetched = Fetched(doc: seq<ServedKey>, at: nat)

  datatype Acceptance = Acceptance(kid: string, key: CachedKey, lookedUp: nat, gate: Gate)

  /**
   * Shared state and tasks, with three histories: the outcomes of finished fetches in order of finishing,
   * the documents stored by good fetches, and the accepted tokens.
   */
  datatype State = State(
    cache: Cache,
    writing: bool,
    healthy: bool,
    holder: Option<Pid>,
    now: nat,
    procs: map<Pid, Pc>,
    finished: seq<bool>,
    goods: seq<Fetched>,
    accepted: seq<Acceptance>)

  const START: State := State(map[], false, false, None, 0, map[], [], [], [])

  /** The cache lookup: an expired entry reads as a miss. */
  function Cached(cache: Cache, kid: string, now: nat, c: Config): Option<CachedKey> {
    if kid in cache && now - cache[kid].inserted <= c.ttl then Some(cache[kid]) else None
  }

  datatype Action =
    | Tick(elapsed: nat)
    | Connect(pid: Pid, kid: string)
    | SpawnBackground(pid: Pid)
    | FirstLookup(pid: Pid)
    | TryLock(pid: Pid)
    | Wake(pid: Pid)
    | FetchFails(pid: Pid)
    | FetchStores(pid: Pid, doc: seq<ServedKey>)
    | StoreHealth(pid: Pid)
    | Release(pid: Pid)
    | Poll(pid: Pid)
    | SecondLookup(pid: Pid)
    | CheckHealth(pid: Pid)
    | CheckToken(pid: Pid, valid: bool)
    | Drop(pid: Pid)

  predicate At(s: State, pid: Pid, p: Pc -> bool) {
    pid in s.procs && p(s.procs[pid])
  }

  /** Readers wait while the cache is being refilled; a fetch may be dropped only while its request is in flight. */
  predicate Enabled(s: State, a: Action) {
    match a
    case Tick(_) => true
    case Connect(pid, _) => pid !in s.procs
    case SpawnBackground(pid) => pid !in s.procs
    case FirstLookup(pid) => At(s, pid, (pc: Pc) => pc.Looking?) && !s.writing
    case TryLock(pid) => At(s, pid, (pc: Pc) => pc.Contending?)
    case Wake(pid) => At(s, pid, (pc: Pc) => pc.Sleeping?)
    case FetchFails(pid) => At(s, pid, (pc: Pc) => pc.Fetching?)
    case FetchStores(pid, doc) => At(s, pid, (pc: Pc) => pc.Fetching?) && JwksKeySet.Accepted(doc) != [] && !s.writing
    case StoreHealth(pid) => At(s, pid, (pc: Pc) => pc.Filling?)
    case Release(pid) => At(s, pid, (pc: Pc) => pc.Settled?)
    case Poll(pid) => At(s, pid, (pc: Pc) => pc.Polling?) && !s.writing
    case SecondLookup(pid) => At(s, pid, (pc: Pc) => pc.Rechecking?) && !s.writing
    case CheckHealth(pid) => At(s, pid, (pc: Pc) => pc.Gating?)
    case CheckToken(pid, _) => At(s, pid, (pc: Pc) => pc.Verifying?)
    case Drop(pid) => At(s, pid, (pc: Pc) => !pc.Filling? && !pc.Settled?)
  }

  /** An action of a task that is already there and goes on. */
  predicate Moves(a: Action) {
    !a.Tick? && !a.Connect? && !a.SpawnBackground? && !a.Drop?
  }

  /** Where a task goes. */
  function Target(s: State, a: Action, c: Config): Pc
    requires Enabled(s, a) && Moves(a)
  {
    var pc := s.procs[a.pid];
    match a
    case FirstLookup(_) => if Cached(s.cache, pc.kid, s.now, c).Some? then Rechecking(pc.kid) else Contending(pc.kid)
    case TryLock(_) =>
      if s.holder.None? then Fetching(Some(pc.kid)) else Polling(pc.kid, s.now + c.refreshTimeout)
    case Wake(_) => if s.holder.None? then Fetching(None) else pc
    case FetchFails(_) => Settled(pc.owner, false)
    case FetchStores(_, _) => Filling(pc.owner)
    case StoreHealth(_) => Settled(pc.owner, true)
    case Release(_) => if pc.owner.None? then Sleeping else if pc.good then Rechecking(pc.owner.value) else Refused
    case Poll(_) =>
      if s.now >= pc.deadline then Refused
      else if Cached(s.cache, pc.kid, s.now, c).Some? && s.healthy then Rechecking(pc.kid)
      else pc
    case SecondLookup(_) =>
      (match Cached(s.cache, pc.kid, s.now, c)
       case Some(key) => Gating(pc.kid, key, s.now)
       case None => Refused)
    case CheckHealth(_) =>
      if s.healthy then Verifying(pc.kid, pc.key, pc.lookedUp, Gate(|s.finished|, JustStored(s))) else Refused
    case CheckToken(_, valid) => if valid then Pc.Accepted(pc.kid) else Refused
  }

  /** What it does to the shared state and the histories. */
  function Effect(s: State, a: Action, c: Config): State
    requires Enabled(s, a) && Moves(a)
  {
    var pc := s.procs[a.pid];
    match a
    case TryLock(pid) => if s.holder.None? then s.(holder := Some(pid)) else s
    case Wake(pid) => if s.holder.None? then s.(holder := Some(pid)) else s
    case FetchFails(_) => s.(healthy := false)
    case FetchStores(_, doc) =>
      s.(cache := Stamp(KeySet(JwksKeySet.Accepted(doc), c.cacheMax), s.now),
         writing := true,
         goods := s.goods + [Fetched(doc, s.now)])
    case StoreHealth(_) => s.(healthy := true, writing := false)
    case Release(_) => s.(holder := None, finished := s.finished + [pc.good])
    case CheckToken(_, valid) =>
      if valid then s.(accepted := s.accepted + [Acceptance(pc.kid, pc.key, pc.lookedUp, pc.gate)]) else s
    case _ => s
  }

  function Next(s: State, a: Action, c: Config): State
    requires Enabled(s, a)
  {
    match a
    case Tick(elapsed) => s.(now := s.now + elapsed)
    case Connect(pid, kid) => s.(procs := s.procs[pid := Looking(kid)])
    case SpawnBackground(pid) => s.(procs := s.procs[pid := Sleeping])
    case Drop(pid) => s.(procs := s.procs - {pid}, holder := if s.holder == Some(pid) then None else s.holder)
    case _ => Effect(s, a, c).(procs := s.procs[a.pid := Target(s, a, c)])
  }

  /** The fetch that holds the lock has stored success but not yet finished. */
  predicate JustStored(s: State) {
    s.holder.Some? && At(s, s.holder.value, (pc: Pc) => pc.Settled? && pc.good)
  }

  // ---------------------------------------------------------------------
  // The invariant.
  // ---------------------------------------------------------------------

  predicate InFetch(pc: Pc) {
    pc.Fetching? || pc.Filling? || pc.Settled?
  }

  /** A task is inside a fetch exactly when it holds the lock. */
  ghost predicate SingleFlight(s: State) {
    && (forall pid :: pid in s.procs && InFetch(s.procs[pid]) ==> s.holder == Some(pid))
    && (s.holder.Some? ==> s.holder.value in s.procs && InFetch(s.procs[s.holder.value]))
    && (s.writing <==> s.holder.Some? && s.holder.value in s.procs && s.procs[s.holder.value].Filling?)
  }

  function LastOutcome(finished: seq<bool>): bool {
    finished != [] && finished[|finished| - 1]
  }

  /** The flag is the outcome of the last finished fetch, or of the one that is settled but not released. */
  ghost predicate HealthTracksOutcome(s: State) {
    if s.holder.Some? && s.holder.value in s.procs && s.procs[s.holder.value].Settled?
    then s.healthy == s.procs[s.holder.value].good
    else s.healthy == LastOutcome(s.finished)
  }

  /** The cache of a stored document. */
  function CacheOf(f: Fetched, c: Config): Cache {
    Stamp(KeySet(JwksKeySet.Accepted(f.doc), c.cacheMax), f.at)
  }

  /** The cache is that of the last good document and nothing else ever changes it. */
  ghost predicate CacheIsLastGood(s: State, c: Config) {
    && s.cache == (if s.goods == [] then map[] else CacheOf(s.goods[|s.goods| - 1], c))
    && (forall i :: 0 <= i < |s.goods| ==> s.goods[i].at <= s.now && JwksKeySet.Accepted(s.goods[i].doc) != [])
  }

  /** The key came from document `i` and was within its time to live when it was looked up. */
  ghost predicate FromDocument(s: State, kid: string, key: CachedKey, lookedUp: nat, c: Config, i: nat) {
    && i < |s.goods|
    && kid in CacheOf(s.goods[i], c) && key == CacheOf(s.goods[i], c)[kid]
    && s.goods[i].at <= lookedUp <= s.now
    && lookedUp - s.goods[i].at <= c.ttl
  }

  ghost predicate GoodKey(s: State, kid: string, key: CachedKey, lookedUp: nat, c: Config) {
    exists i: nat :: FromDocument(s, kid, key, lookedUp, c, i)
  }

  /** When health was read, the last finished fetch had succeeded or one had just stored success. */
  ghost predicate GoodGate(s: State, gate: Gate) {
    gate.finished <= |s.finished| && (gate.justStored || LastOutcome(s.finished[..gate.finished]))
  }

  ghost predicate TasksGood(s: State, c: Config) {
    forall pid :: pid in s.procs ==>
      match s.procs[pid] {
        case Gating(kid, key, lookedUp) => GoodKey(s, kid, key, lookedUp, c)
        case Verifying(kid, key, lookedUp, gate) => GoodKey(s, kid, key, lookedUp, c) && GoodGate(s, gate)
        case _ => true
      }
  }

  ghost predicate AcceptancesGood(s: State, c: Config) {
    forall i :: 0 <= i < |s.accepted| ==>
      GoodKey(s, s.accepted[i].kid, s.accepted[i].key, s.accepted[i].lookedUp, c) && GoodGate(s, s.accepted[i].gate)
  }

  ghost predicate Inv(s: State, c: Config) {
    SingleFlight(s) && HealthTracksOutcome(s) && CacheIsLastGood(s, c) && TasksGood(s, c) && AcceptancesGood(s, c)
  }

  // ---------------------------------------------------------------------
  // Every step keeps it.
  // ---------------------------------------------------------------------

  lemma StepSingleFlight(s: State, a: Action, c: Config)
    requires Enabled(s, a) && SingleFlight(s)
    ensures SingleFlight(Next(s, a, c))
  {
    hide Cached, Stamp, KeySet, JustStored, JwksKeySet.Accepted;
  }

  lemma StepHealth(s: State, a: Action, c: Config)
    requires Enabled(s, a) && SingleFlight(s) && HealthTracksOutcome(s)
    ensures HealthTracksOutcome(Next(s, a, c))
  {
    hide Cached, Stamp, KeySet;
  }

  lemma StepCache(s: State, a: Action, c: Config)
    requires Enabled(s, a) && CacheIsLastGood(s, c)
    ensures CacheIsLastGood(Next(s, a, c), c)
    ensures s.goods <= Next(s, a, c).goods && s.now <= Next(s, a, c).now
    ensures s.finished <= Next(s, a, c).finished
  {
    hide Cached, Stamp, KeySet, At, JustStored, JwksKeySet.Accepted;
    var s' := Next(s, a, c);
    if a.FetchStores? {
      assert s'.goods == s.goods + [Fetched(a.doc, s.now)];
    } else {
      assert s'.goods == s.goods && s'.cache == s.cache;
    }
  }

  /** Histories only grow, so what was good stays good. */
  lemma GoodKeyStays(s: State, s': State, kid: string, key: CachedKey, lookedUp: nat, c: Config)
    requires s.goods <= s'.goods && s.now <= s'.now
    requires GoodKey(s, kid, key, lookedUp, c)
    ensures GoodKey(s', kid, key, lookedUp, c)
  {
    var i: nat :| FromDocument(s, kid, key, lookedUp, c, i);
    assert s'.goods[i] == s.goods[i];
    assert FromDocument(s', kid, key, lookedUp, c, i);
  }

  lemma GoodGateStays(s: State, s': State, gate: Gate)
    requires s.finished <= s'.finished && GoodGate(s, gate)
    ensures GoodGate(s', gate)
  {
    assert s'.finished[..gate.finished] == s.finished[..gate.finished];
  }

  lemma LookupIsGood(s: State, kid: string, c: Config)
    requires CacheIsLastGood(s, c) && Cached(s.cache, kid, s.now, c).Some?
    ensures GoodKey(s, kid, Cached(s.cache, kid, s.now, c).value, s.now, c)
  {
    hide KeySet;
    assert FromDocument(s, kid, s.cache[kid], s.now, c, |s.goods| - 1);
  }

  lemma HealthyGateIsGood(s: State)
    requires SingleFlight(s) && HealthTracksOutcome(s) && s.healthy
    ensures GoodGate(s, Gate(|s.finished|, JustStored(s)))
  {
    assert s.finished[..|s.finished|] == s.finished;
  }

  lemma StepTasks(s: State, a: Action, c: Config)
    requires Enabled(s, a) && Inv(s, c)
    ensures TasksGood(Next(s, a, c), c)
  {
    hide Cached, Stamp, KeySet, GoodKey, GoodGate, SingleFlight, HealthTracksOutcome, CacheIsLastGood, CacheOf,
         AcceptancesGood;
    var s' := Next(s, a, c);
    StepCache(s, a, c);
    forall kid, key, lookedUp | GoodKey(s, kid, key, lookedUp, c) ensures GoodKey(s', kid, key, lookedUp, c) {
      GoodKeyStays(s, s', kid, key, lookedUp, c);
    }
    forall gate | GoodGate(s, gate) ensures GoodGate(s', gate) { GoodGateStays(s, s', gate); }
    if a.SecondLookup? && Cached(s.cache, s.procs[a.pid].kid, s.now, c).Some? {
      LookupIsGood(s, s.procs[a.pid].kid, c);
    }
    if a.CheckHealth? && s.healthy {
      HealthyGateIsGood(s);
    }
  }

  lemma StepAcceptances(s: State, a: Action, c: Config)
    requires Enabled(s, a) && Inv(s, c)
    ensures AcceptancesGood(Next(s, a, c), c)
  {
    hide Cached, Stamp, KeySet, GoodKey, GoodGate, SingleFlight, HealthTracksOutcome, CacheIsLastGood, CacheOf;
    var s' := Next(s, a, c);
    StepCache(s, a, c);
    forall kid, key, lookedUp | GoodKey(s, kid, key, lookedUp, c) ensures GoodKey(s', kid, key, lookedUp, c) {
      GoodKeyStays(s, s', kid, key, lookedUp, c);
    }
    forall gate | GoodGate(s, gate) ensures GoodGate(s', gate) { GoodGateStays(s, s', gate); }
  }

  lemma StepInv(s: State, a: Action, c: Config)
    requires Enabled(s, a) && Inv(s, c)
    ensures Inv(Next(s, a, c), c)
  {
    hide SingleFlight, HealthTracksOutcome, CacheIsLastGood, TasksGood, AcceptancesGood, Enabled, Next;
    StepSingleFlight(s, a, c);
    StepHealth(s, a, c);
    StepCache(s, a, c);
    StepTasks(s, a, c);
    StepAcceptances(s, a, c);
  }

  // ---------------------------------------------------------------------
  // Whole runs.
  // ---------------------------------------------------------------------

  /** The state after a schedule of actions, unless one of them is not enabled when its turn comes. */
  function After(actions: seq<Action>, c: Config): Option<State> {
    if actions == [] then Some(START)
    else match After(actions[..|actions| - 1], c)
      case None => None
      case Some(s) => if Enabled(s, actions[|actions| - 1]) then Some(Next(s, actions[|actions| - 1], c)) else None
  }

  /**
   * In every interleaving: at most one task is inside a fetch; with no fetch settling, the health flag is
   * the outcome of the last one that finished; the cache is that of the last good document; and every
   * accepted token used a key of a good document, within its time to live when looked up, and passed the
   * health check on the strength of a successful fetch.
   */
  lemma {:induction false} EveryInterleaving(actions: seq<Action>, c: Config)
    requires After(actions, c).Some?
    ensures var s := After(actions, c).value;
            && Inv(s, c)
            && (forall p, q :: p in s.procs && q in s.procs && InFetch(s.procs[p]) && InFetch(s.procs[q]) ==> p == q)
            && (s.holder.None? ==> s.healthy == LastOutcome(s.finished))
  {
    hide Enabled, Next;
    if actions != [] {
      var init := actions[..|actions| - 1];
      EveryInterleaving(init, c);
      StepInv(After(init, c).value, actions[|actions| - 1], c);
    }
  }

  /** The cache never outgrows its bound and, once filled, is never empty. */
  lemma CacheBounded(s: State, c: Config)
    requires Inv(s, c) && c.cacheMax >= 1
    ensures |s.cache| <= c.cacheMax
    ensures s.goods != [] ==> |s.cache| >= 1
  {
    if s.goods != [] {
      var f := s.goods[|s.goods| - 1];
      var keys := KeySet(JwksKeySet.Accepted(f.doc), c.cacheMax);
      KeySetSize(JwksKeySet.Accepted(f.doc), c.cacheMax);
      assert s.cache.Keys == keys.Keys;
    }
  }

  /** The newest outcome: of the fetch that has settled under the lock, or else of the last that finished. */
  predicate NewestOutcome(s: State) {
    if s.holder.Some? && At(s, s.holder.value, (pc: Pc) => pc.Settled?) then s.procs[s.holder.value].good
    else LastOutcome(s.finished)
  }

  /**
   * Only a good fetch changes the cache. A token passes the gate exactly when the newest outcome is good,
   * so after a failed fetch none does until a later one has stored success, also while that one is in flight.
   */
  lemma FailsClosed(s: State, a: Action, c: Config)
    requires Inv(s, c) && Enabled(s, a)
    ensures a.FetchFails? ==> Next(s, a, c).cache == s.cache && !NewestOutcome(Next(s, a, c))
    ensures a.CheckHealth? ==> (Next(s, a, c).procs[a.pid] == Refused <==> !NewestOutcome(s))
    ensures NewestOutcome(Next(s, a, c)) && !NewestOutcome(s) ==> a.StoreHealth?
    ensures !a.FetchStores? ==> Next(s, a, c).cache == s.cache
  {
    hide Cached, Stamp, KeySet, Next, NewestOutcome, Inv;
    HealthIsNewest(s, c);
    StepInv(s, a, c);
    HealthIsNewest(Next(s, a, c), c);
    HealthChanges(s, a, c);
  }

  // ---------------------------------------------------------------------
  // What a step does to a task.
  // ---------------------------------------------------------------------

  /** The kid a task verifies a token for; the background task has none. */
  function KidOf(pc: Pc): Option<string> {
    match pc
    case Looking(kid) => Some(kid)
    case Contending(kid) => Some(kid)
    case Polling(kid, _) => Some(kid)
    case Sleeping => None
    case Fetching(owner) => owner
    case Filling(owner) => owner
    case Settled(owner, _) => owner
    case Rechecking(kid) => Some(kid)
    case Gating(kid, _, _) => Some(kid)
    case Verifying(kid, _, _, _) => Some(kid)
    case Refused => None
    case Accepted(kid) => Some(kid)
  }

  /** How far a verifier has come. */
  function Stage(pc: Pc): nat {
    match pc
    case Looking(_) => 0
    case Contending(_) => 1
    case Polling(_, _) => 2
    case Sleeping => 2
    case Fetching(_) => 2
    case Filling(_) => 3
    case Settled(_, _) => 4
    case Rechecking(_) => 5
    case Gating(_, _, _) => 6
    case Verifying(_, _, _, _) => 7
    case Refused => 8
    case Accepted(_) => 8
  }

  /** The kid is in the cache, not older than the time to live. */
  predicate Fresh(s: State, kid: string, c: Config) {
    kid in s.cache && s.now <= s.cache[kid].inserted + c.ttl
  }

  /** A verifier is turned away: a failed fetch of its own, a wait too long, no fresh key, bad health, a bad token. */
  predicate TurnsAway(s: State, a: Action, c: Config)
    requires Enabled(s, a)
  {
    || (a.Release? && s.procs[a.pid].owner.Some? && !s.procs[a.pid].good)
    || (a.Poll? && s.procs[a.pid].deadline <= s.now)
    || (a.SecondLookup? && !Fresh(s, s.procs[a.pid].kid, c))
    || (a.CheckHealth? && !s.healthy)
    || (a.CheckToken? && !a.valid)
  }

  /** A task is kept waiting: the background task by a fetch in flight, a poller for a fresh key and good health. */
  predicate Waits(s: State, a: Action, c: Config)
    requires Enabled(s, a)
  {
    || (a.Wake? && s.holder.Some?)
    || (a.Poll? && s.now < s.procs[a.pid].deadline && !(Fresh(s, s.procs[a.pid].kid, c) && s.healthy))
  }

  /** A verifier is refused exactly when it is turned away, and accepted exactly on a valid token. */
  lemma VerdictExactly(s: State, a: Action, c: Config)
    requires Enabled(s, a) && Moves(a)
    ensures var now := Next(s, a, c).procs[a.pid];
            (now == Refused <==> TurnsAway(s, a, c)) && (now.Accepted? <==> a.CheckToken? && a.valid)
  {
    hide Effect, JustStored;
  }

  lemma WaitsExactly(s: State, a: Action, c: Config)
    requires Enabled(s, a) && Moves(a)
    ensures Target(s, a, c) == s.procs[a.pid] <==> Waits(s, a, c)
  {
    hide JustStored;
  }

  lemma StageGrows(s: State, a: Action, c: Config)
    requires Enabled(s, a) && Moves(a)
    ensures var was, now := s.procs[a.pid], Target(s, a, c);
            now != was && KidOf(was).Some? ==> Stage(now) > Stage(was)
  {
    hide JustStored, Cached;
  }

  lemma KidStays(s: State, a: Action, c: Config)
    requires Enabled(s, a) && Moves(a)
    ensures Target(s, a, c) != Refused ==> KidOf(Target(s, a, c)) == KidOf(s.procs[a.pid])
  {
    hide JustStored, Cached;
  }

  /**
   * A step changes its own task only. A task stays where it is exactly when it is kept waiting; otherwise a verifier
   * gets further, for the same kid.
   */
  lemma ProgressExactly(s: State, a: Action, c: Config)
    requires Enabled(s, a) && Moves(a)
    ensures var was, now := s.procs[a.pid], Next(s, a, c).procs[a.pid];
            && Next(s, a, c).procs == s.procs[a.pid := now]
            && (now == was <==> Waits(s, a, c))
            && (now != was && KidOf(was).Some? ==> Stage(now) > Stage(was))
            && (now != Refused ==> KidOf(now) == KidOf(was))
  {
    hide Effect, Target, Waits, Stage, KidOf;
    WaitsExactly(s, a, c);
    StageGrows(s, a, c);
    KidStays(s, a, c);
  }

  /**
   * A verifier skips the fetch exactly when its kid is fresh, fetches itself exactly when nobody else does and
   * otherwise polls for the refresh timeout; the background task sleeps between its fetches; the second lookup
   * takes the cached key.
   */
  lemma TargetsExactly(s: State, a: Action, c: Config)
    requires Enabled(s, a) && Moves(a)
    ensures var was, now := s.procs[a.pid], Next(s, a, c).procs[a.pid];
            && (a.FirstLookup? ==> (now.Rechecking? <==> Fresh(s, was.kid, c)))
            && (a.TryLock? ==> now == if s.holder.None? then Fetching(Some(was.kid))
                                      else Polling(was.kid, s.now + c.refreshTimeout))
            && (a.Wake? && s.holder.None? ==> now == Fetching(None))
            && (a.Release? && KidOf(was).None? ==> now == Sleeping)
            && (a.SecondLookup? && Fresh(s, was.kid, c) ==> now == Gating(was.kid, s.cache[was.kid], s.now))
  {
    hide Stamp, KeySet, JustStored, JwksKeySet.Accepted;
  }

  /** Other steps: time passes, tasks begin, and a task may be dropped, which frees the lock if it was its holder. */
  lemma OtherStepsExactly(s: State, a: Action, c: Config)
    requires Enabled(s, a) && !Moves(a)
    ensures var t := Next(s, a, c);
            && t.cache == s.cache && t.healthy == s.healthy && t.accepted == s.accepted
            && t.now == s.now + (if a.Tick? then a.elapsed else 0)
            && t.procs == (match a
                           case Tick(_) => s.procs
                           case Connect(pid, kid) => s.procs[pid := Looking(kid)]
                           case SpawnBackground(pid) => s.procs[pid := Sleeping]
                           case Drop(pid) => s.procs - {pid})
            && t.holder == (if a.Drop? && s.holder == Some(a.pid) then None else s.holder)
  {
  }

  /** The next step of a task that has not ended. */
  function OwnStep(pid: Pid, pc: Pc): Action
    requires !pc.Refused? && !pc.Accepted?
  {
    match pc
    case Looking(_) => FirstLookup(pid)
    case Contending(_) => TryLock(pid)
    case Polling(_, _) => Poll(pid)
    case Sleeping => Wake(pid)
    case Fetching(_) => FetchFails(pid)
    case Filling(_) => StoreHealth(pid)
    case Settled(_, _) => Release(pid)
    case Rechecking(_) => SecondLookup(pid)
    case Gating(_, _, _) => CheckHealth(pid)
    case Verifying(_, _, _, _) => CheckToken(pid, true)
  }

  /** No task is ever stuck: it can take its next step, or the task that is filling the cache can finish that. */
  lemma NeverStuck(s: State, pid: Pid, elapsed: nat)
    requires SingleFlight(s) && pid in s.procs && !s.procs[pid].Refused? && !s.procs[pid].Accepted?
    ensures || Enabled(s, OwnStep(pid, s.procs[pid]))
            || (s.writing && s.holder.Some? && s.holder != Some(pid) && Enabled(s, StoreHealth(s.holder.value)))
    ensures Enabled(s, Tick(elapsed))
  {
  }

  /** No lookup reads a cache that is being filled. */
  lemma NoTornRead(s: State, a: Action)
    requires Enabled(s, a) && SingleFlight(s) && (a.FirstLookup? || a.Poll? || a.SecondLookup?)
    ensures forall pid :: pid in s.procs ==> !s.procs[pid].Filling?
  {
    forall pid | pid in s.procs ensures !s.procs[pid].Filling? {
      assert s.procs[pid].Filling? ==> InFetch(s.procs[pid]);
    }
  }

  /** A fetch can bring any document with a usable key, and a task can be dropped except while it fills the cache. */
  lemma FetchAndDrop(s: State, pid: Pid, doc: seq<ServedKey>)
    requires SingleFlight(s) && pid in s.procs
    ensures s.procs[pid].Fetching? && JwksKeySet.Accepted(doc) != [] ==> Enabled(s, FetchStores(pid, doc))
    ensures !s.procs[pid].Filling? && !s.procs[pid].Settled? ==> Enabled(s, Drop(pid))
  {
    hide JwksKeySet.Accepted;
  }

  // ---------------------------------------------------------------------
  // Which tokens are accepted.
  // ---------------------------------------------------------------------

  /** Action `j` of a run found a token valid, and this is its acceptance. */
  ghost predicate StemsFrom(actions: seq<Action>, c: Config, j: nat, x: Acceptance) {
    && j < |actions| && actions[j].CheckToken? && actions[j].valid
    && After(actions[..j], c).Some? && actions[j].pid in After(actions[..j], c).value.procs
    && After(actions[..j], c).value.procs[actions[j].pid] == Verifying(x.kid, x.key, x.lookedUp, x.gate)
  }

  ghost predicate Stems(actions: seq<Action>, c: Config, x: Acceptance) {
    exists j: nat :: StemsFrom(actions, c, j, x)
  }

  lemma StemsLater(actions: seq<Action>, c: Config, j: nat, x: Acceptance)
    requires actions != [] && StemsFrom(actions[..|actions| - 1], c, j, x)
    ensures StemsFrom(actions, c, j, x)
  {
    assert actions[..j] == actions[..|actions| - 1][..j];
  }

  lemma StemsNow(actions: seq<Action>, c: Config, x: Acceptance)
    requires actions != [] && After(actions, c).Some?
    requires x in After(actions, c).value.accepted && x !in After(actions[..|actions| - 1], c).value.accepted
    ensures StemsFrom(actions, c, |actions| - 1, x)
  {
    hide Enabled, Next;
    AcceptedGrows(After(actions[..|actions| - 1], c).value, actions[|actions| - 1], c);
  }

  function ValidChecks(actions: seq<Action>): nat {
    if actions == [] then 0
    else
      var last := actions[|actions| - 1];
      ValidChecks(actions[..|actions| - 1]) + if last.CheckToken? && last.valid then 1 else 0
  }

  /** In every run the accepted tokens are exactly those that a check found valid, one for each such check. */
  lemma {:induction false} OnlyValidAccepted(actions: seq<Action>, c: Config)
    requires After(actions, c).Some?
    ensures var s := After(actions, c).value;
            |s.accepted| == ValidChecks(actions) && forall x :: x in s.accepted ==> Stems(actions, c, x)
  {
    hide Enabled, Next, StemsFrom;
    if actions != [] {
      var init, last := actions[..|actions| - 1], actions[|actions| - 1];
      OnlyValidAccepted(init, c);
      var s, t := After(init, c).value, After(actions, c).value;
      AcceptedGrows(s, last, c);
      forall x | x in t.accepted ensures Stems(actions, c, x) {
        if x in s.accepted {
          var j: nat :| StemsFrom(init, c, j, x);
          StemsLater(actions, c, j, x);
        } else {
          assert StemsFrom(actions, c, |init|, x) by { StemsNow(actions, c, x); }
        }
      }
    }
  }

  lemma AcceptedGrows(s: State, a: Action, c: Config)
    requires Enabled(s, a)
    ensures if a.CheckToken? && a.valid then
              exists x :: Next(s, a, c).accepted == s.accepted + [x]
                && s.procs[a.pid] == Verifying(x.kid, x.key, x.lookedUp, x.gate)
            else Next(s, a, c).accepted == s.accepted
    ensures a.CheckToken? ==> a.pid in s.procs
  {
    hide Cached, Stamp, KeySet, JustStored, JwksKeySet.Accepted;
    if a.CheckToken? && a.valid {
      var Verifying(kid, key, lookedUp, gate) := s.procs[a.pid];
      assert Next(s, a, c).accepted == s.accepted + [Acceptance(kid, key, lookedUp, gate)];
    }
  }

  /** The last three steps of a verifier, taken in a row. */
  function Checks(pid: Pid, valid: bool): seq<Action> {
    [SecondLookup(pid), CheckHealth(pid), CheckToken(pid, valid)]
  }

  /** From a second lookup with a fresh key and good health, a valid token is accepted and any other refused. */
  lemma RecheckedAccepts(actions: seq<Action>, pid: Pid, kid: string, valid: bool, c: Config)
    requires After(actions, c).Some?
    requires var s := After(actions, c).value;
             pid in s.procs && s.procs[pid] == Rechecking(kid) && Fresh(s, kid, c) && s.healthy && !s.writing
    ensures var t := After(actions + Checks(pid, valid), c);
            t.Some? && pid in t.value.procs && t.value.procs[pid] == if valid then Pc.Accepted(kid) else Refused
  {
    hide Stamp, KeySet, JustStored, JwksKeySet.Accepted, After;
    var a1 := actions + [SecondLookup(pid)];
    var a2 := a1 + [CheckHealth(pid)];
    AfterSnoc(actions, SecondLookup(pid), c);
    AfterSnoc(a1, CheckHealth(pid), c);
    AfterSnoc(a2, CheckToken(pid, valid), c);
    assert a2 + [CheckToken(pid, valid)] == actions + Checks(pid, valid);
  }

  lemma AfterSnoc(actions: seq<Action>, a: Action, c: Config)
    requires After(actions, c).Some? && Enabled(After(actions, c).value, a)
    ensures After(actions + [a], c) == Some(Next(After(actions, c).value, a, c))
  {
    hide Enabled, Next;
    assert (actions + [a])[..|actions|] == actions;
  }

  /** A verifier whose own fetch succeeded and brought its kid accepts a valid token. */
  lemma FetchedAccepts(actions: seq<Action>, pid: Pid, kid: string, valid: bool, c: Config)
    requires After(actions, c).Some?
    requires var s := After(actions, c).value;
             pid in s.procs && s.procs[pid] == Settled(Some(kid), true) && Fresh(s, kid, c)
    ensures var t := After(actions + [Release(pid)] + Checks(pid, valid), c);
            t.Some? && pid in t.value.procs && t.value.procs[pid] == if valid then Pc.Accepted(kid) else Refused
  {
    hide Stamp, KeySet, JustStored, JwksKeySet.Accepted, After, CacheIsLastGood, TasksGood, AcceptancesGood;
    EveryInterleaving(actions, c);
    AfterSnoc(actions, Release(pid), c);
    RecheckedAccepts(actions + [Release(pid)], pid, kid, valid, c);
  }

  /** A verifier that finds its kid at once, or while it polls in time, accepts a valid token while health is good. */
  lemma CachedAccepts(actions: seq<Action>, a: Action, kid: string, valid: bool, c: Config)
    requires After(actions, c).Some? && (a.FirstLookup? || a.Poll?) && Enabled(After(actions, c).value, a)
    requires var s := After(actions, c).value;
             && Fresh(s, kid, c) && s.healthy && s.procs[a.pid].kid == kid
             && (a.Poll? ==> s.now < s.procs[a.pid].deadline)
    ensures var t := After(actions + [a] + Checks(a.pid, valid), c);
            t.Some? && a.pid in t.value.procs && t.value.procs[a.pid] == if valid then Pc.Accepted(kid) else Refused
  {
    hide Stamp, KeySet, JustStored, JwksKeySet.Accepted, After;
    AfterSnoc(actions, a, c);
    RecheckedAccepts(actions + [a], a.pid, kid, valid, c);
  }

  lemma HealthIsNewest(s: State, c: Config)
    requires Inv(s, c)
    ensures s.healthy == NewestOutcome(s)
  {
    hide CacheIsLastGood, TasksGood, AcceptancesGood;
  }

  lemma HealthChanges(s: State, a: Action, c: Config)
    requires Enabled(s, a)
    ensures a.FetchFails? ==> Next(s, a, c).cache == s.cache && !Next(s, a, c).healthy
    ensures a.CheckHealth? ==> (Next(s, a, c).procs[a.pid] == Refused <==> !s.healthy)
    ensures Next(s, a, c).healthy && !s.healthy ==> a.StoreHealth?
    ensures !a.FetchStores? ==> Next(s, a, c).cache == s.cache
  {
    hide Cached, Stamp, KeySet, JustStored;
  }
}
