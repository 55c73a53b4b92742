/**
 * The abstract state of `channelPool` and one pure step function per
 * operation. Each step runs with its lock held, so it is a single atomic
 * transition here. The class in module GrpcPool is proved to make exactly
 * these transitions; the properties are proved in PoolLemmas.
 */
module PoolSpec {
  import opened PoolTypes

  /**
   * `idle` is the buffered channel `connections` (capacity `maxIdle`);
   * `released` stands for `connections == nil`; the three flags tell
   * whether `factory`, `close` and `ping` are still set; `waiters` is
   * `connReqs`, and `inbox` holds what `Put` sent on a waiter's channel
   * that its `Get` has not received yet. `destroyed` lists, in order,
   * every handle passed to the close callback.
   */
  datatype PoolState = PoolState(
    idle: seq<Conn>,
    maxIdle: int,
    opening: int,
    maxActive: int,
    idleTimeout: int,
    hasFactory: bool,
    hasClose: bool,
    hasPing: bool,
    released: bool,
    waiters: seq<WaiterId>,
    inbox: map<WaiterId, Conn>,
    nextWaiter: nat,
    destroyed: seq<ConnId>)

  /** The handles of a run of wrappers, in order. */
  function Ids(s: seq<Conn>): (r: seq<ConnId>)
    ensures |r| == |s|
    ensures forall i :: 0 <= i < |s| ==> r[i] == s[i].c
  {
    if s == [] then [] else [s[0].c] + Ids(s[1..])
  }

  /** The waiter queue: arrival order, fresh ids, nobody both queued and served. */
  ghost predicate WaitersWellFormed(s: PoolState) {
    && (forall i, j :: 0 <= i < j < |s.waiters| ==> s.waiters[i] < s.waiters[j])
    && (forall i :: 0 <= i < |s.waiters| ==> s.waiters[i] < s.nextWaiter && s.waiters[i] !in s.inbox)
    && (forall w :: w in s.inbox ==> w < s.nextWaiter)
  }

  /** What every reachable state satisfies. */
  ghost predicate Inv(s: PoolState) {
    && 0 <= s.maxIdle <= s.maxActive
    && |s.idle| <= s.maxIdle
    && s.opening <= s.maxActive
    && (s.released ==> s.idle == [] && !s.hasFactory && !s.hasClose && !s.hasPing)
    && (!s.released ==> s.hasFactory && s.hasClose)
    && WaitersWellFormed(s)
  }

  /**
   * The counter is exact: while the pool is open, `opening` is the number
   * of live handles, whether idle, held by callers (`held`, which the pool
   * itself does not track) or waiting in an inbox.
   */
  ghost predicate Accounted(s: PoolState, held: multiset<ConnId>) {
    s.released || s.opening == |s.idle| + |held| + |s.inbox|
  }

  // ---------------------------------------------------------------- New

  /** The checks at the top of `New`, in the source's order. */
  function ValidateConfig(cfg: Config): (r: Option<PoolError>)
    ensures r.None? <==>
      0 <= cfg.initialCap <= cfg.maxIdle <= cfg.maxCap && cfg.hasFactory && cfg.hasClose
    ensures r == Some(InvalidCapacity) <==> !(0 <= cfg.initialCap <= cfg.maxIdle <= cfg.maxCap)
  {
    if !(cfg.initialCap <= cfg.maxIdle && cfg.maxCap >= cfg.maxIdle && cfg.initialCap >= 0) then
      Some(InvalidCapacity)
    else if !cfg.hasFactory then Some(InvalidFactory)
    else if !cfg.hasClose then Some(InvalidClose)
    else None
  }

  /**
   * The pre-fill loop: `produce(i)` is the result of the i-th factory
   * call (`None` for an error); every created handle is stamped `now`.
   */
  function Prefill(n: nat, produce: nat -> Option<ConnId>, now: Time): (r: Option<seq<Conn>>)
    ensures r.Some? <==> forall i :: 0 <= i < n ==> produce(i).Some?
    ensures r.Some? ==> |r.value| == n
    ensures r.Some? ==> forall i :: 0 <= i < n ==> r.value[i] == Conn(produce(i).value, now)
  {
    if n == 0 then Some([])
    else match Prefill(n - 1, produce, now)
      case None => None
      case Some(p) =>
        if produce(n - 1).None? then None else Some(p + [Conn(produce(n - 1).value, now)])
  }

  /** The `channelPool` literal built by `New`, before its buffer is filled. */
  function Init(cfg: Config, idle: seq<Conn>): PoolState {
    PoolState(idle, cfg.maxIdle, cfg.initialCap, cfg.maxCap, cfg.idleTimeout,
              cfg.hasFactory, cfg.hasClose, cfg.hasPing, false, [], map[], 0, [])
  }

  function NewPool(cfg: Config, now: Time, produce: nat -> Option<ConnId>): Result<PoolState> {
    match ValidateConfig(cfg)
    case Some(e) => Failure(e)
    case None =>
      match Prefill(cfg.initialCap, produce, now)
      case None => Failure(FillFailed)
      case Some(p) => Success(Init(cfg, p))
  }

  // ---------------------------------------------------------------- Get

  /** Idle for longer than the timeout: `t.Add(timeout).Before(now)`. */
  predicate Expired(wc: Conn, idleTimeout: int, now: Time) {
    idleTimeout > 0 && wc.t + idleTimeout < now
  }

  /** Must not be handed out from the idle buffer: expired, or failing the ping when one is set. */
  predicate Unusable(wc: Conn, idleTimeout: int, now: Time, checkPing: bool, probe: ConnId -> bool) {
    Expired(wc, idleTimeout, now) || (checkPing && !probe(wc.c))
  }

  /** The index of the first idle wrapper `Get` may hand out, or `|idle|` when there is none. */
  function FirstUsable(idle: seq<Conn>, idleTimeout: int, now: Time, checkPing: bool,
                       probe: ConnId -> bool): (k: nat)
    ensures k <= |idle|
    ensures forall i :: 0 <= i < k ==> Unusable(idle[i], idleTimeout, now, checkPing, probe)
    ensures k < |idle| ==> !Unusable(idle[k], idleTimeout, now, checkPing, probe)
  {
    if idle == [] then 0
    else if Unusable(idle[0], idleTimeout, now, checkPing, probe) then
      1 + FirstUsable(idle[1..], idleTimeout, now, checkPing, probe)
    else 0
  }

  /**
   * The `for { select ... }` loop of `Get`. The pool is released only when
   * `Get` resumes after a hand-off; the receive from the closed channel
   * then yields nil, hence `Closed`. Factory results are `factoryOk`
   * (with the new handle `freshId`).
   */
  function Acquire(s: PoolState, now: Time, probe: ConnId -> bool, factoryOk: bool,
                   freshId: ConnId): (PoolState, GetOutcome)
    decreases |s.idle|
  {
    if s.released then (s, Failed(Closed))
    else if |s.idle| > 0 then
      var wc := s.idle[0];
      var s1 := s.(idle := s.idle[1..]);
      if Unusable(wc, s.idleTimeout, now, s.hasPing, probe) then
        Acquire(Close(s1, Some(wc.c), true).0, now, probe, factoryOk, freshId)
      else (s1, Got(wc.c))
    else if s.opening >= s.maxActive then
      (s.(waiters := s.waiters + [s.nextWaiter], nextWaiter := s.nextWaiter + 1),
       Waiting(s.nextWaiter))
    else if !s.hasFactory then (s, Failed(Closed))
    else if !factoryOk then (s, Failed(FactoryFailed))
    else (s.(opening := s.opening + 1), Got(freshId))
  }

  function Get(s: PoolState, now: Time, probe: ConnId -> bool, factoryOk: bool,
               freshId: ConnId): (PoolState, GetOutcome)
  {
    if s.released then (s, Failed(Closed))
    else Acquire(s, now, probe, factoryOk, freshId)
  }

  /**
   * The blocked `Get` of waiter `w` receives from its channel. Nothing
   * delivered yet: it is still waiting. A delivered wrapper is checked
   * for expiry only; an expired one is closed and the loop starts over.
   */
  function Await(s: PoolState, w: WaiterId, now: Time, probe: ConnId -> bool, factoryOk: bool,
                 freshId: ConnId): (PoolState, GetOutcome)
  {
    if w !in s.inbox then (s, Waiting(w))
    else
      var wc := s.inbox[w];
      var s1 := s.(inbox := s.inbox - {w});
      if Expired(wc, s.idleTimeout, now) then
        Acquire(Close(s1, Some(wc.c), true).0, now, probe, factoryOk, freshId)
      else (s1, Got(wc.c))
  }

  // ------------------------------------------------------ Put, Close, Len

  /** `Put`: `closeOk` is what the close callback returns if it is called. */
  function Put(s: PoolState, conn: Option<ConnId>, now: Time, closeOk: bool)
    : (PoolState, Option<PoolError>)
  {
    if conn.None? then (s, Some(NilConnection))
    else if s.released then Close(s, conn, closeOk)
    else if |s.waiters| > 0 then
      (s.(waiters := s.waiters[1..], inbox := s.inbox[s.waiters[0] := Conn(conn.value, now)]), None)
    else if |s.idle| < s.maxIdle then (s.(idle := s.idle + [Conn(conn.value, now)]), None)
    else Close(s, conn, closeOk)
  }

  /** `Close`: one handle is destroyed and no longer counted, unless the callback is gone. */
  function Close(s: PoolState, conn: Option<ConnId>, closeOk: bool): (r: (PoolState, Option<PoolError>))
    ensures r.0.idle == s.idle && r.0.released == s.released
  {
    if conn.None? then (s, Some(NilConnection))
    else if !s.hasClose then (s, None)
    else (s.(opening := s.opening - 1, destroyed := s.destroyed + [conn.value]),
          if closeOk then None else Some(CloseFailed))
  }

  /** `Len`: `len` of the buffer; `len` of a nil channel is 0. */
  function Len(s: PoolState): int {
    if s.released then 0 else |s.idle|
  }

  // ---------------------------------------------------------------- Release

  /**
   * `Release`, with the drain destroying each buffered handle through the
   * close callback as it was before `Release` cleared it. The source calls
   * the already-cleared callback instead; module ReleaseFinding models
   * that. The drain calls the callback directly, not `Close`, so the
   * counter is left as it was.
   */
  function Release(s: PoolState): PoolState {
    if s.released then s
    else s.(released := true, hasFactory := false, hasPing := false, hasClose := false,
            idle := [], destroyed := s.destroyed + Ids(s.idle))
  }
}
