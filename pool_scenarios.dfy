/**
 * Two concrete runs of the pool, as the design describes them: a
 * pre-filled pool served from its buffer, then from the factory, then
 * released; and a pool of ceiling one whose second caller waits and is
 * served by a direct hand-off.
 */
module PoolScenarios {
  import opened PoolTypes
  import opened PoolSpec

  /** A factory whose i-th call yields handle `10 + i`. */
  function Numbered(i: nat): Option<ConnId> { Some(10 + i) }

  /** A factory that always fails; `New` with `InitialCap 0` never calls it. */
  function Failing(i: nat): Option<ConnId> { None }

  /**
   * `InitialCap 2, MaxIdle 5, MaxCap 5, IdleTimeout 0`: two `Get`s take the
   * two pre-filled connections, a third creates one (the count reaches 3),
   * a `Put` buffers one again, and after `Release` `Get` fails with `Closed`.
   */
  lemma PrefilledPoolRun(probe: ConnId -> bool)
    ensures var cfg := Config(2, 5, 5, true, true, false, 0);
      var s0 := NewPool(cfg, 0, Numbered).value;
      var (s1, r1) := Get(s0, 1, probe, true, 20);
      var (s2, r2) := Get(s1, 1, probe, true, 20);
      var (s3, r3) := Get(s2, 1, probe, true, 20);
      var s4 := Put(s3, Some(10), 2, true).0;
      var s5 := Release(s4);
      && NewPool(cfg, 0, Numbered).Success? && Len(s0) == 2
      && r1 == Got(10) && r2 == Got(11) && Len(s2) == 0
      && r3 == Got(20) && s3.opening == 3
      && Len(s4) == 1
      && Get(s5, 3, probe, true, 21).1 == Failed(Closed)
  {
    var p := Prefill(2, Numbered, 0);
    assert Numbered(0).Some? && Numbered(1).Some?;
    assert p.value == [Conn(10, 0), Conn(11, 0)];
  }

  /**
   * `MaxCap 1`: the first `Get` creates a connection; the second waits;
   * returning the first connection hands it straight to the waiter, and
   * no second connection is ever opened.
   */
  lemma CeilingOneHandOff(probe: ConnId -> bool)
    ensures var cfg := Config(0, 1, 1, true, true, false, 0);
      var s0 := NewPool(cfg, 0, Failing).value;
      var (s1, r1) := Get(s0, 1, probe, true, 5);
      var (s2, r2) := Get(s1, 2, probe, true, 6);
      var (s3, e3) := Put(s2, Some(5), 3, true);
      var (s4, r4) := Await(s3, 0, 4, probe, true, 7);
      && NewPool(cfg, 0, Failing).Success?
      && r1 == Got(5) && s1.opening == 1
      && r2 == Waiting(0) && s2.waiters == [0] && s2.opening == 1
      && e3 == None && s3.waiters == [] && s3.idle == [] && s3.opening == 1
      && r4 == Got(5) && s4.opening == 1 && s4.destroyed == []
  {
  }
}
