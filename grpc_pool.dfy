/**
 * `channelPool` of transport/grpc_pool/grpc_pool.go as a class whose
 * fields are the pool's own. Every method is proved to make exactly the
 * transition of its step function in PoolSpec, and to keep `Valid()`.
 * The mutex is gone: each method body is one atomic step.
 */
module GrpcPool {
  import opened PoolTypes
  import PoolSpec

  class ChannelPool {
    /** The buffered channel `connections`, oldest first; capacity `maxIdle`. */
    var idle: seq<Conn>
    const maxIdle: int
    /** `connections == nil`. */
    var released: bool
    /** Whether `factory`, `close` and `ping` are still set. */
    var hasFactory: bool
    var hasClose: bool
    var hasPing: bool
    const idleTimeout: int
    const maxActive: int
    var opening: int
    /** `connReqs`, oldest first. */
    var waiters: seq<WaiterId>
    /** What `Put` sent on a waiter's channel and its `Get` has not received yet. */
    var inbox: map<WaiterId, Conn>
    var nextWaiter: nat
    /** Every handle passed to the close callback, in order. */
    var destroyed: seq<ConnId>

    ghost function State(): PoolSpec.PoolState
      reads this
    {
      PoolSpec.PoolState(idle, maxIdle, opening, maxActive, idleTimeout, hasFactory, hasClose,
                         hasPing, released, waiters, inbox, nextWaiter, destroyed)
    }

    ghost predicate Valid()
      reads this
    {
      PoolSpec.Inv(State())
    }

    /** The `&channelPool{...}` literal of `New`, with an empty buffer. */
    constructor (cfg: Config)
      ensures State() == PoolSpec.Init(cfg, [])
    {
      idle := [];
      maxIdle := cfg.maxIdle;
      released := false;
      hasFactory := cfg.hasFactory;
      hasClose := cfg.hasClose;
      hasPing := cfg.hasPing;
      idleTimeout := cfg.idleTimeout;
      maxActive := cfg.maxCap;
      opening := cfg.initialCap;
      waiters := [];
      inbox := map[];
      nextWaiter := 0;
      destroyed := [];
    }

    /**
     * `New`: validate, then call the factory `initialCap` times
     * (`produce(i)` is the i-th result) and buffer each handle.
     */
    static method New(cfg: Config, now: Time, produce: nat -> Option<ConnId>)
      returns (pool: ChannelPool?, err: Option<PoolError>)
      ensures PoolSpec.NewPool(cfg, now, produce).Failure? ==>
        pool == null && err == Some(PoolSpec.NewPool(cfg, now, produce).error)
      ensures PoolSpec.NewPool(cfg, now, produce).Success? ==>
        err == None && pool != null && fresh(pool) && pool.Valid() &&
        pool.State() == PoolSpec.NewPool(cfg, now, produce).value
    {
      err := PoolSpec.ValidateConfig(cfg);
      if err.Some? {
        pool := null;
        return;
      }
      var c := new ChannelPool(cfg);
      var i := 0;
      while i < cfg.initialCap
        invariant 0 <= i <= cfg.initialCap
        invariant fresh(c)
        invariant PoolSpec.Prefill(i, produce, now) == Some(c.idle)
        invariant c.State() == PoolSpec.Init(cfg, c.idle)
      {
        var connection := produce(i);
        if connection.None? {
          c.Release();
          pool, err := null, Some(FillFailed);
          return;
        }
        c.idle := c.idle + [Conn(connection.value, now)];
        i := i + 1;
      }
      pool := c;
    }

    /** `Get`: fail fast on a released pool, then run the acquisition loop. */
    method Get(now: Time, probe: ConnId -> bool, factoryOk: bool, freshId: ConnId)
      returns (r: GetOutcome)
      requires Valid()
      modifies this
      ensures Valid()
      ensures (State(), r) == PoolSpec.Get(old(State()), now, probe, factoryOk, freshId)
    {
      if released {
        return Failed(Closed);
      }
      r := Acquire(now, probe, factoryOk, freshId);
    }

    /** The `for { select ... }` loop of `Get`. */
    method Acquire(now: Time, probe: ConnId -> bool, factoryOk: bool, freshId: ConnId)
      returns (r: GetOutcome)
      requires Valid()
      modifies this
      ensures Valid()
      ensures (State(), r) == PoolSpec.Acquire(old(State()), now, probe, factoryOk, freshId)
    {
      while true
        invariant Valid()
        invariant PoolSpec.Acquire(State(), now, probe, factoryOk, freshId)
               == PoolSpec.Acquire(old(State()), now, probe, factoryOk, freshId)
        decreases |idle|
      {
        ghost var s := State();
        if released {
          // the receive from the closed channel yields nil
          return Failed(Closed);
        }
        if |idle| > 0 {
          var wrapConn := idle[0];
          idle := idle[1..];
          ghost var s1 := State();
          assert s1 == s.(idle := s.idle[1..]);
          if idleTimeout > 0 && wrapConn.t + idleTimeout < now {
            var _ := Close(Some(wrapConn.c), true);
            assert State() == PoolSpec.Close(s1, Some(wrapConn.c), true).0;
            continue;
          }
          if hasPing {
            var err := Ping(Some(wrapConn.c), probe);
            if err.Some? {
              var _ := Close(Some(wrapConn.c), true);
              assert State() == PoolSpec.Close(s1, Some(wrapConn.c), true).0;
              continue;
            }
          }
          assert PoolSpec.Acquire(s, now, probe, factoryOk, freshId) == (s1, Got(wrapConn.c));
          return Got(wrapConn.c);
        }
        r := CreateOrEnqueue(factoryOk, freshId);
        return;
      }
    }

    /**
     * The `default:` branch of the loop, taken when the buffer is empty:
     * at the ceiling, queue a waiter; otherwise call the factory.
     */
    method CreateOrEnqueue(factoryOk: bool, freshId: ConnId) returns (r: GetOutcome)
      requires Valid() && !released && idle == []
      modifies this
      ensures Valid()
      ensures forall now: Time, probe: ConnId -> bool ::
        (State(), r) == PoolSpec.Acquire(old(State()), now, probe, factoryOk, freshId)
    {
      if opening >= maxActive {
        waiters := waiters + [nextWaiter];
        r := Waiting(nextWaiter);
        nextWaiter := nextWaiter + 1;
        return;
      }
      if !hasFactory {
        return Failed(Closed);
      }
      if !factoryOk {
        return Failed(FactoryFailed);
      }
      opening := opening + 1;
      return Got(freshId);
    }

    /** The blocked `Get` of waiter `w` receives from its channel `<-req`. */
    method Await(w: WaiterId, now: Time, probe: ConnId -> bool, factoryOk: bool, freshId: ConnId)
      returns (r: GetOutcome)
      requires Valid()
      modifies this
      ensures Valid()
      ensures (State(), r) == PoolSpec.Await(old(State()), w, now, probe, factoryOk, freshId)
    {
      if w !in inbox {
        return Waiting(w);
      }
      var ret := inbox[w];
      inbox := inbox - {w};
      if idleTimeout > 0 && ret.t + idleTimeout < now {
        var _ := Close(Some(ret.c), true);
        r := Acquire(now, probe, factoryOk, freshId);
        return;
      }
      r := Got(ret.c);
    }

    /** `Put`: hand off to the oldest waiter, else buffer, else close. */
    method Put(conn: Option<ConnId>, now: Time, closeOk: bool) returns (err: Option<PoolError>)
      requires Valid()
      modifies this
      ensures Valid()
      ensures (State(), err) == PoolSpec.Put(old(State()), conn, now, closeOk)
    {
      if conn.None? {
        return Some(NilConnection);
      }
      if released {
        err := Close(conn, closeOk);
        return;
      }
      if |waiters| > 0 {
        var req := waiters[0];
        waiters := waiters[1..];
        inbox := inbox[req := Conn(conn.value, now)];
        return None;
      }
      if |idle| < maxIdle {
        idle := idle + [Conn(conn.value, now)];
        return None;
      }
      err := Close(conn, closeOk);
    }

    /** `Close`: destroy one handle through the close callback and stop counting it. */
    method Close(conn: Option<ConnId>, closeOk: bool) returns (err: Option<PoolError>)
      requires Valid()
      modifies this
      ensures Valid()
      ensures (State(), err) == PoolSpec.Close(old(State()), conn, closeOk)
    {
      if conn.None? {
        return Some(NilConnection);
      }
      if !hasClose {
        return None;
      }
      opening := opening - 1;
      destroyed := destroyed + [conn.value];
      err := if closeOk then None else Some(CloseFailed);
    }

    /**
     * `Ping`: the source calls the ping callback unconditionally after the
     * nil check, so a non-nil handle needs one to be set.
     */
    method Ping(conn: Option<ConnId>, probe: ConnId -> bool) returns (err: Option<PoolError>)
      requires conn.Some? ==> hasPing
      ensures conn.None? ==> err == Some(NilConnection)
      ensures conn.Some? ==> (err.None? <==> probe(conn.value))
      ensures err.Some? ==> err.value == NilConnection || err.value == PingFailed
    {
      if conn.None? {
        return Some(NilConnection);
      }
      err := if probe(conn.value) then None else Some(PingFailed);
    }

    /**
     * `Release`: clear the buffer reference and the callbacks, then drain
     * what was buffered, destroying each handle with the close callback as
     * it was on entry. (The source's drain calls the callback it has just
     * cleared; see module ReleaseFinding.)
     */
    method Release()
      requires Valid()
      modifies this
      ensures Valid()
      ensures State() == PoolSpec.Release(old(State()))
    {
      var connections := idle;
      var wasReleased := released;
      released := true;
      idle := [];
      hasFactory := false;
      hasPing := false;
      hasClose := false;
      if wasReleased {
        return;
      }
      var i := 0;
      while i < |connections|
        invariant 0 <= i <= |connections|
        invariant released && idle == [] && !hasFactory && !hasPing && !hasClose
        invariant opening == old(opening) && waiters == old(waiters)
        invariant inbox == old(inbox) && nextWaiter == old(nextWaiter)
        invariant destroyed == old(destroyed) + PoolSpec.Ids(connections[..i])
      {
        assert connections[..i + 1] == connections[..i] + [connections[i]];
        destroyed := destroyed + [connections[i].c];
        i := i + 1;
      }
      assert connections[..i] == connections;
    }

    /** `Len`: how many connections are buffered; 0 once released. */
    function Len(): (n: int)
      reads this
      requires Valid()
      ensures 0 <= n <= maxIdle
      ensures released ==> n == 0
      ensures n == PoolSpec.Len(State())
    {
      if released then 0 else |idle|
    }
  }
}
