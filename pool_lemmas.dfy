/**
 * Properties of the pool's step functions: the invariant every operation
 * keeps, what `Get` hands out and what it discards, the FIFO hand-off of
 * `Put`, the exact counter, and how a released pool behaves.
 */
module PoolLemmas {
  import opened PoolTypes
  import opened PoolSpec

  // ---------------------------------------------------------------- New

  /** `New` succeeds exactly on a valid configuration whose pre-fill succeeds, and names the first failed check. */
  lemma NewPoolOutcome(cfg: Config, now: Time, produce: nat -> Option<ConnId>)
    ensures NewPool(cfg, now, produce).Success? <==>
      && 0 <= cfg.initialCap <= cfg.maxIdle <= cfg.maxCap && cfg.hasFactory && cfg.hasClose
      && forall i :: 0 <= i < cfg.initialCap ==> produce(i).Some?
    ensures !(0 <= cfg.initialCap <= cfg.maxIdle <= cfg.maxCap) ==>
      NewPool(cfg, now, produce) == Failure(InvalidCapacity)
    ensures 0 <= cfg.initialCap <= cfg.maxIdle <= cfg.maxCap && !cfg.hasFactory ==>
      NewPool(cfg, now, produce) == Failure(InvalidFactory)
    ensures 0 <= cfg.initialCap <= cfg.maxIdle <= cfg.maxCap && cfg.hasFactory && !cfg.hasClose ==>
      NewPool(cfg, now, produce) == Failure(InvalidClose)
    ensures ValidateConfig(cfg).None? && (exists i :: 0 <= i < cfg.initialCap && produce(i).None?) ==>
      NewPool(cfg, now, produce) == Failure(FillFailed)
  {
  }

  /** A new pool holds `initialCap` fresh connections, counts exactly those, and satisfies the invariant. */
  lemma NewPoolEstablishes(cfg: Config, now: Time, produce: nat -> Option<ConnId>)
    requires NewPool(cfg, now, produce).Success?
    ensures var s := NewPool(cfg, now, produce).value;
      && Inv(s) && Accounted(s, multiset{})
      && Len(s) == cfg.initialCap && s.opening == cfg.initialCap
      && (forall i :: 0 <= i < cfg.initialCap ==> s.idle[i] == Conn(produce(i).value, now))
      && s.waiters == [] && s.destroyed == []
  {
  }

  // ------------------------------------------------- the invariant is kept

  lemma ClosePreservesInv(s: PoolState, conn: Option<ConnId>, closeOk: bool)
    requires Inv(s)
    ensures Inv(Close(s, conn, closeOk).0)
  {
  }

  lemma {:induction false} AcquirePreservesInv(s: PoolState, now: Time, probe: ConnId -> bool,
                                               factoryOk: bool, freshId: ConnId)
    requires Inv(s)
    ensures Inv(Acquire(s, now, probe, factoryOk, freshId).0)
    decreases |s.idle|
  {
    if !s.released && |s.idle| > 0 {
      var s1 := s.(idle := s.idle[1..]);
      if Unusable(s.idle[0], s.idleTimeout, now, s.hasPing, probe) {
        ClosePreservesInv(s1, Some(s.idle[0].c), true);
        AcquirePreservesInv(Close(s1, Some(s.idle[0].c), true).0, now, probe, factoryOk, freshId);
      }
    }
  }

  lemma GetPreservesInv(s: PoolState, now: Time, probe: ConnId -> bool, factoryOk: bool,
                        freshId: ConnId)
    requires Inv(s)
    ensures Inv(Get(s, now, probe, factoryOk, freshId).0)
  {
    AcquirePreservesInv(s, now, probe, factoryOk, freshId);
  }

  lemma AwaitPreservesInv(s: PoolState, w: WaiterId, now: Time, probe: ConnId -> bool,
                          factoryOk: bool, freshId: ConnId)
    requires Inv(s)
    ensures Inv(Await(s, w, now, probe, factoryOk, freshId).0)
  {
    if w in s.inbox && Expired(s.inbox[w], s.idleTimeout, now) {
      var s1 := s.(inbox := s.inbox - {w});
      AcquirePreservesInv(Close(s1, Some(s.inbox[w].c), true).0, now, probe, factoryOk, freshId);
    }
  }

  lemma PutPreservesInv(s: PoolState, conn: Option<ConnId>, now: Time, closeOk: bool)
    requires Inv(s)
    ensures Inv(Put(s, conn, now, closeOk).0)
  {
    if conn.Some? && !s.released && |s.waiters| > 0 {
      var s2 := Put(s, conn, now, closeOk).0;
      assert s2.waiters == s.waiters[1..];
      assert s2.inbox.Keys == s.inbox.Keys + {s.waiters[0]};
      assert forall i :: 0 <= i < |s2.waiters| ==> s2.waiters[i] == s.waiters[i + 1];
    }
  }

  lemma ReleasePreservesInv(s: PoolState)
    requires Inv(s)
    ensures Inv(Release(s))
  {
  }

  // ---------------------------------------------------------------- Get

  /** The state after the first `k` idle connections went through `Close`. */
  function Discarding(s: PoolState, k: nat): PoolState
    requires k <= |s.idle|
  {
    s.(idle := s.idle[k..], opening := s.opening - k, destroyed := s.destroyed + Ids(s.idle[..k]))
  }

  /**
   * What the acquisition loop does, stated without the loop: it discards
   * the leading unusable idle connections (each through the close
   * callback, each uncounted), then hands out the first usable one; with
   * none left it parks the caller at the ceiling, or else asks the factory,
   * counting the new connection only when the factory succeeds.
   */
  function AcquireExpected(s: PoolState, now: Time, probe: ConnId -> bool, factoryOk: bool,
                           freshId: ConnId): (PoolState, GetOutcome)
  {
    var k := FirstUsable(s.idle, s.idleTimeout, now, s.hasPing, probe);
    var d := Discarding(s, k);
    if k < |s.idle| then (d.(idle := d.idle[1..]), Got(s.idle[k].c))
    else if d.opening >= d.maxActive then
      (d.(waiters := d.waiters + [d.nextWaiter], nextWaiter := d.nextWaiter + 1), Waiting(d.nextWaiter))
    else if !factoryOk then (d, Failed(FactoryFailed))
    else (d.(opening := d.opening + 1), Got(freshId))
  }

  /** Discarding one connection and then `k` more is discarding `k + 1`. */
  lemma DiscardingStep(s: PoolState, k: nat)
    requires k + 1 <= |s.idle|
    ensures Discarding(Discarding(s, 1), k) == Discarding(s, k + 1)
  {
    var t := s.idle[1..];
    assert t[k..] == s.idle[k + 1..];
    IdsPrefixStep(s.idle, k);
    var d1 := Discarding(s, 1);
    assert d1.idle == t;
    calc {
      Discarding(d1, k).destroyed;
      (s.destroyed + Ids(s.idle[..1])) + Ids(t[..k]);
      s.destroyed + (Ids(s.idle[..1]) + Ids(t[..k]));
      s.destroyed + Ids(s.idle[..k + 1]);
    }
  }

  lemma IdsPrefixStep(a: seq<Conn>, k: nat)
    requires k + 1 <= |a|
    ensures Ids(a[..k + 1]) == Ids(a[..1]) + Ids(a[1..][..k])
  {
    assert a[..k + 1] == a[..1] + a[1..][..k];
    IdsConcat(a[..1], a[1..][..k]);
  }

  /** The loop agrees with its loop-free statement on every open pool. */
  lemma {:induction false} AcquireCharacterised(s: PoolState, now: Time, probe: ConnId -> bool,
                                                factoryOk: bool, freshId: ConnId)
    requires !s.released && s.hasClose && s.hasFactory
    ensures Acquire(s, now, probe, factoryOk, freshId) == AcquireExpected(s, now, probe, factoryOk, freshId)
    decreases |s.idle|
  {
    if |s.idle| > 0 && Unusable(s.idle[0], s.idleTimeout, now, s.hasPing, probe) {
      AcquireDiscardsHead(s, now, probe, factoryOk, freshId);
      AcquireCharacterised(Discarding(s, 1), now, probe, factoryOk, freshId);
    } else {
      AcquireStops(s, now, probe, factoryOk, freshId);
    }
  }

  /** An unusable head is closed, and the loop goes on from there. */
  lemma AcquireDiscardsHead(s: PoolState, now: Time, probe: ConnId -> bool, factoryOk: bool,
                            freshId: ConnId)
    requires !s.released && s.hasClose && s.hasFactory
    requires |s.idle| > 0 && Unusable(s.idle[0], s.idleTimeout, now, s.hasPing, probe)
    ensures Acquire(s, now, probe, factoryOk, freshId) ==
            Acquire(Discarding(s, 1), now, probe, factoryOk, freshId)
    ensures AcquireExpected(s, now, probe, factoryOk, freshId) ==
            AcquireExpected(Discarding(s, 1), now, probe, factoryOk, freshId)
  {
    assert s.idle[..1] == [s.idle[0]];
    assert Close(s.(idle := s.idle[1..]), Some(s.idle[0].c), true).0 == Discarding(s, 1);
    ExpectedDiscardsHead(s, now, probe, factoryOk, freshId);
  }

  /** The loop-free statement skips an unusable head in the same way. */
  lemma ExpectedDiscardsHead(s: PoolState, now: Time, probe: ConnId -> bool, factoryOk: bool,
                             freshId: ConnId)
    requires |s.idle| > 0 && Unusable(s.idle[0], s.idleTimeout, now, s.hasPing, probe)
    ensures AcquireExpected(s, now, probe, factoryOk, freshId) ==
            AcquireExpected(Discarding(s, 1), now, probe, factoryOk, freshId)
  {
    var s2 := Discarding(s, 1);
    var k' := FirstUsable(s2.idle, s.idleTimeout, now, s.hasPing, probe);
    assert FirstUsable(s.idle, s.idleTimeout, now, s.hasPing, probe) == k' + 1;
    DiscardingStep(s, k');
    assert k' < |s2.idle| ==> s2.idle[k'] == s.idle[k' + 1];
  }

  /** With an empty buffer or a usable head, nothing is discarded. */
  lemma AcquireStops(s: PoolState, now: Time, probe: ConnId -> bool, factoryOk: bool,
                     freshId: ConnId)
    requires !s.released && s.hasClose && s.hasFactory
    requires |s.idle| == 0 || !Unusable(s.idle[0], s.idleTimeout, now, s.hasPing, probe)
    ensures Acquire(s, now, probe, factoryOk, freshId) == AcquireExpected(s, now, probe, factoryOk, freshId)
  {
    assert s.idle[..0] == [] && s.idle[0..] == s.idle;
    assert Ids([]) == [];
    assert Discarding(s, 0) == s;
  }

  lemma {:induction false} IdsConcat(a: seq<Conn>, b: seq<Conn>)
    ensures Ids(a + b) == Ids(a) + Ids(b)
  {
    var l, r := Ids(a + b), Ids(a) + Ids(b);
    assert |l| == |r|;
    forall i | 0 <= i < |l| ensures l[i] == r[i] {
      if i < |a| {
        assert (a + b)[i] == a[i];
      } else {
        assert (a + b)[i] == b[i - |a|];
      }
    }
  }

  /**
   * `Get` never hands out an unusable idle connection: everything it
   * skipped was expired or failed the ping and went to the close callback,
   * and what it returns from the buffer passed both checks.
   */
  lemma GetNeverHandsOutUnusable(s: PoolState, now: Time, probe: ConnId -> bool, factoryOk: bool,
                                 freshId: ConnId)
    requires Inv(s) && !s.released
    ensures var k := FirstUsable(s.idle, s.idleTimeout, now, s.hasPing, probe);
      var s' := Get(s, now, probe, factoryOk, freshId).0;
      var r := Get(s, now, probe, factoryOk, freshId).1;
      && (forall i :: 0 <= i < k ==> Unusable(s.idle[i], s.idleTimeout, now, s.hasPing, probe))
      && |s'.destroyed| == |s.destroyed| + k
      && (forall i :: 0 <= i < k ==> s'.destroyed[|s.destroyed| + i] == s.idle[i].c)
      && (k < |s.idle| ==>
            r == Got(s.idle[k].c) && !Expired(s.idle[k], s.idleTimeout, now) &&
            (s.hasPing ==> probe(s.idle[k].c)))
  {
    var k := FirstUsable(s.idle, s.idleTimeout, now, s.hasPing, probe);
    var e := GetExpected(s, now, probe, factoryOk, freshId);
    var d := Discarding(s, k);
    assert e.0.destroyed == d.destroyed;
    var ids := Ids(s.idle[..k]);
    forall i | 0 <= i < k ensures d.destroyed[|s.destroyed| + i] == s.idle[i].c {
      assert ids[i] == s.idle[..k][i].c;
    }
  }

  /** On an open pool `Get` is the loop-free `AcquireExpected`. */
  lemma GetExpected(s: PoolState, now: Time, probe: ConnId -> bool, factoryOk: bool,
                    freshId: ConnId) returns (e: (PoolState, GetOutcome))
    requires Inv(s) && !s.released
    ensures e == AcquireExpected(s, now, probe, factoryOk, freshId)
    ensures Get(s, now, probe, factoryOk, freshId) == e
  {
    AcquireCharacterised(s, now, probe, factoryOk, freshId);
    e := AcquireExpected(s, now, probe, factoryOk, freshId);
  }

  /**
   * At the ceiling with an empty buffer, `Get` appends exactly one waiter,
   * at the end of the queue, and creates nothing.
   */
  lemma GetWaitsAtCeiling(s: PoolState, now: Time, probe: ConnId -> bool, factoryOk: bool,
                          freshId: ConnId)
    requires Inv(s) && !s.released && s.idle == [] && s.opening >= s.maxActive
    ensures Get(s, now, probe, factoryOk, freshId) ==
      (s.(waiters := s.waiters + [s.nextWaiter], nextWaiter := s.nextWaiter + 1), Waiting(s.nextWaiter))
  {
  }

  /** `Get` calls the factory only below the ceiling, and counts exactly the connection it creates. */
  lemma GetCounter(s: PoolState, now: Time, probe: ConnId -> bool, factoryOk: bool, freshId: ConnId)
    requires Inv(s) && !s.released
    ensures var k := FirstUsable(s.idle, s.idleTimeout, now, s.hasPing, probe);
      var s' := Get(s, now, probe, factoryOk, freshId).0;
      && s'.opening <= s.maxActive
      && (k < |s.idle| || s.opening - k >= s.maxActive || !factoryOk ==> s'.opening == s.opening - k)
      && (k == |s.idle| && s.opening - k < s.maxActive && factoryOk ==> s'.opening == s.opening - k + 1)
  {
    var e := GetExpected(s, now, probe, factoryOk, freshId);
    GetPreservesInv(s, now, probe, factoryOk, freshId);
  }

  /** A hand-off that has not expired is taken as it is: the ping is not consulted. */
  lemma AwaitTakesHandOff(s: PoolState, w: WaiterId, now: Time, probe: ConnId -> bool,
                          factoryOk: bool, freshId: ConnId)
    requires w in s.inbox && !Expired(s.inbox[w], s.idleTimeout, now)
    ensures Await(s, w, now, probe, factoryOk, freshId) ==
      (s.(inbox := s.inbox - {w}), Got(s.inbox[w].c))
  {
  }

  /** An expired hand-off is closed, and the caller goes round the acquisition loop again. */
  lemma AwaitDiscardsExpired(s: PoolState, w: WaiterId, now: Time, probe: ConnId -> bool,
                             factoryOk: bool, freshId: ConnId)
    requires Inv(s) && !s.released && w in s.inbox && Expired(s.inbox[w], s.idleTimeout, now)
    ensures Await(s, w, now, probe, factoryOk, freshId) ==
      Acquire(s.(inbox := s.inbox - {w}, opening := s.opening - 1,
                 destroyed := s.destroyed + [s.inbox[w].c]), now, probe, factoryOk, freshId)
  {
  }

  // ---------------------------------------------------------------- Put

  lemma PutRejectsNil(s: PoolState, now: Time, closeOk: bool)
    ensures Put(s, None, now, closeOk) == (s, Some(NilConnection))
  {
  }

  /**
   * With waiters pending, `Put` serves the oldest one, in a slot nothing
   * else occupies, and leaves the buffer, the counter and the other
   * waiters' order alone.
   */
  lemma PutServesOldestWaiter(s: PoolState, c: ConnId, now: Time, closeOk: bool)
    requires Inv(s) && !s.released && |s.waiters| > 0
    ensures s.waiters[0] !in s.inbox
    ensures Put(s, Some(c), now, closeOk) ==
      (s.(waiters := s.waiters[1..], inbox := s.inbox[s.waiters[0] := Conn(c, now)]), None)
  {
  }

  /** With no waiters, `Put` buffers when there is room and otherwise destroys the handle once. */
  lemma PutBuffersOrDestroys(s: PoolState, c: ConnId, now: Time, closeOk: bool)
    requires Inv(s) && !s.released && s.waiters == []
    ensures |s.idle| < s.maxIdle ==>
      Put(s, Some(c), now, closeOk) == (s.(idle := s.idle + [Conn(c, now)]), None)
    ensures |s.idle| >= s.maxIdle ==>
      Put(s, Some(c), now, closeOk) ==
        (s.(opening := s.opening - 1, destroyed := s.destroyed + [c]),
         if closeOk then None else Some(CloseFailed))
  {
  }

  /** Returning several connections one after another. */
  function PutAll(s: PoolState, conns: seq<ConnId>, now: Time): PoolState
    decreases |conns|
  {
    if conns == [] then s else PutAll(Put(s, Some(conns[0]), now, true).0, conns[1..], now)
  }

  /**
   * The waiter queue is FIFO: `n` puts serve the first `n` waiters, the
   * i-th put the i-th waiter, and earlier deliveries stay where they are.
   */
  lemma {:induction false} PutsServeWaitersInOrder(s: PoolState, conns: seq<ConnId>, now: Time)
    requires Inv(s) && !s.released && |conns| <= |s.waiters|
    ensures var s' := PutAll(s, conns, now);
      && s'.waiters == s.waiters[|conns|..]
      && s'.idle == s.idle && s'.opening == s.opening && s'.destroyed == s.destroyed
      && (forall i :: 0 <= i < |conns| ==>
            s.waiters[i] in s'.inbox && s'.inbox[s.waiters[i]] == Conn(conns[i], now))
      && (forall w :: w in s.inbox ==> w in s'.inbox && s'.inbox[w] == s.inbox[w])
    decreases |conns|
  {
    if conns != [] {
      var s1 := Put(s, Some(conns[0]), now, true).0;
      PutPreservesInv(s, Some(conns[0]), now, true);
      PutsServeWaitersInOrder(s1, conns[1..], now);
      var s' := PutAll(s1, conns[1..], now);
      assert s1.waiters == s.waiters[1..];
      forall i | 0 <= i < |conns|
        ensures s.waiters[i] in s'.inbox && s'.inbox[s.waiters[i]] == Conn(conns[i], now)
      {
        if i > 0 {
          assert s1.waiters[i - 1] == s.waiters[i];
          assert conns[1..][i - 1] == conns[i];
        }
      }
    }
  }

  // ---------------------------------------------------------------- Close

  /** `Close` destroys a non-nil handle exactly once and uncounts it, unless the callback is gone. */
  lemma CloseDestroysOnce(s: PoolState, c: ConnId, closeOk: bool)
    ensures s.hasClose ==>
      Close(s, Some(c), closeOk) ==
        (s.(opening := s.opening - 1, destroyed := s.destroyed + [c]),
         if closeOk then None else Some(CloseFailed))
    ensures !s.hasClose ==> Close(s, Some(c), closeOk) == (s, None)
    ensures Close(s, None, closeOk) == (s, Some(NilConnection))
  {
  }

  // ---------------------------------------------------------------- Release

  /**
   * `Release` destroys every buffered connection exactly once, in buffer
   * order, and leaves the counter; afterwards the pool is empty, `Get`
   * fails with `Closed`, `Put` and `Close` are no-ops returning nil, and a
   * second `Release` changes nothing.
   */
  lemma ReleaseFailsFast(s: PoolState, now: Time, probe: ConnId -> bool, factoryOk: bool,
                         freshId: ConnId, c: ConnId, closeOk: bool)
    requires Inv(s)
    ensures var s' := Release(s);
      && (!s.released ==> s'.destroyed == s.destroyed + Ids(s.idle) && s'.opening == s.opening)
      && Len(s') == 0
      && Get(s', now, probe, factoryOk, freshId) == (s', Failed(Closed))
      && Put(s', Some(c), now, closeOk) == (s', None)
      && Close(s', Some(c), closeOk) == (s', None)
      && Release(s') == s'
  {
  }

  // ---------------------------------------------------------------- the counter

  /** What a `Get` outcome leaves in the caller's hands. */
  function Handed(r: GetOutcome): multiset<ConnId> {
    if r.Got? then multiset{r.conn} else multiset{}
  }

  lemma {:induction false} AcquireAccounted(s: PoolState, held: multiset<ConnId>, now: Time,
                                            probe: ConnId -> bool, factoryOk: bool, freshId: ConnId)
    requires Inv(s) && Accounted(s, held)
    ensures Accounted(Acquire(s, now, probe, factoryOk, freshId).0,
                      held + Handed(Acquire(s, now, probe, factoryOk, freshId).1))
    decreases |s.idle|
  {
    if !s.released && |s.idle| > 0 {
      var s1 := s.(idle := s.idle[1..]);
      if Unusable(s.idle[0], s.idleTimeout, now, s.hasPing, probe) {
        var s2 := Close(s1, Some(s.idle[0].c), true).0;
        ClosePreservesInv(s1, Some(s.idle[0].c), true);
        AcquireAccounted(s2, held, now, probe, factoryOk, freshId);
      }
    }
  }

  /** `Get` keeps the counter exact: what it hands out is now held by the caller. */
  lemma GetAccounted(s: PoolState, held: multiset<ConnId>, now: Time, probe: ConnId -> bool,
                     factoryOk: bool, freshId: ConnId)
    requires Inv(s) && Accounted(s, held)
    ensures Accounted(Get(s, now, probe, factoryOk, freshId).0,
                      held + Handed(Get(s, now, probe, factoryOk, freshId).1))
  {
    AcquireAccounted(s, held, now, probe, factoryOk, freshId);
  }

  lemma AwaitAccounted(s: PoolState, held: multiset<ConnId>, w: WaiterId, now: Time,
                       probe: ConnId -> bool, factoryOk: bool, freshId: ConnId)
    requires Inv(s) && Accounted(s, held)
    ensures Accounted(Await(s, w, now, probe, factoryOk, freshId).0,
                      held + Handed(Await(s, w, now, probe, factoryOk, freshId).1))
  {
    if w in s.inbox && !s.released {
      var s1 := s.(inbox := s.inbox - {w});
      assert s1.inbox.Keys == s.inbox.Keys - {w};
      if Expired(s.inbox[w], s.idleTimeout, now) {
        var s2 := Close(s1, Some(s.inbox[w].c), true).0;
        AcquireAccounted(s2, held, now, probe, factoryOk, freshId);
      }
    } else if w in s.inbox && Expired(s.inbox[w], s.idleTimeout, now) {
      var s2 := Close(s.(inbox := s.inbox - {w}), Some(s.inbox[w].c), true).0;
      assert s2.released;
    }
  }

  /** Returning a held connection keeps the counter exact. */
  lemma PutAccounted(s: PoolState, held: multiset<ConnId>, c: ConnId, now: Time, closeOk: bool)
    requires Inv(s) && Accounted(s, held) && c in held
    ensures Accounted(Put(s, Some(c), now, closeOk).0, held - multiset{c})
  {
    assert |held - multiset{c}| == |held| - 1;
    if !s.released && |s.waiters| > 0 {
      assert s.waiters[0] !in s.inbox;
    }
  }

  /** Closing a held connection keeps the counter exact. */
  lemma CloseAccounted(s: PoolState, held: multiset<ConnId>, c: ConnId, closeOk: bool)
    requires Inv(s) && Accounted(s, held) && c in held
    ensures Accounted(Close(s, Some(c), closeOk).0, held - multiset{c})
  {
    assert |held - multiset{c}| == |held| - 1;
  }

  /**
   * The ceiling holds for live connections: while the pool is open and the
   * counter is exact, idle, held and in-flight connections together never
   * exceed `maxActive`.
   */
  lemma LiveWithinCeiling(s: PoolState, held: multiset<ConnId>)
    requires Inv(s) && Accounted(s, held) && !s.released
    ensures 0 <= s.opening
    ensures |s.idle| + |held| + |s.inbox| <= s.maxActive
  {
  }
}
