/**
 * `Release` exactly as transport/grpc_pool/grpc_pool.go writes it. Under
 * the lock it sets `connections`, `factory`, `ping` and `close` to nil;
 * then its drain loop calls `c.close(...)`, the field it has just cleared,
 * on each buffered connection. In Go a call through a nil function value
 * panics, so releasing a pool whose buffer is not empty crashes. The rest
 * of the model uses the evidently intended behaviour, PoolSpec.Release:
 * each buffered connection goes to the close callback as configured.
 */
module ReleaseFinding {
  import opened PoolTypes
  import opened PoolSpec

  /** How the source's `Release` ends: it returns, or it panics on the nil callback. */
  datatype ReleaseRun = Returned(state: PoolState) | Panicked

  /** The drain loop as written: `pending` go, one by one, to the current close field. */
  function DrainAsWritten(s: PoolState, pending: seq<Conn>): ReleaseRun
    decreases |pending|
  {
    if pending == [] then Returned(s)
    else if !s.hasClose then Panicked
    else DrainAsWritten(s.(destroyed := s.destroyed + [pending[0].c]), pending[1..])
  }

  function ReleaseAsWritten(s: PoolState): ReleaseRun {
    if s.released then Returned(s)
    else
      var cleared := s.(released := true, hasFactory := false, hasPing := false,
                        hasClose := false, idle := []);
      DrainAsWritten(cleared, s.idle)
  }

  /** As written, releasing an open pool with a buffered connection panics before destroying any. */
  lemma ReleaseAsWrittenPanics(s: PoolState)
    requires !s.released && |s.idle| > 0
    ensures ReleaseAsWritten(s) == Panicked
  {
  }

  /** With an empty buffer the source's `Release` and the corrected one agree. */
  lemma ReleaseAsWrittenAgreesWhenEmpty(s: PoolState)
    requires s.idle == [] && (s.released ==> !s.hasFactory && !s.hasClose && !s.hasPing)
    ensures ReleaseAsWritten(s) == Returned(Release(s))
  {
  }

  /** A factory that always succeeds, with handle 7. */
  function AlwaysSeven(i: nat): Option<ConnId> { Some(7) }

  /** A factory that succeeds once, with handle 7, and then fails. */
  function SevenThenFail(i: nat): Option<ConnId> { if i == 0 then Some(7) else None }

  /**
   * The input that shows it: `New` with `InitialCap: 1` and a working
   * factory gives a pool holding one connection; `Release` on it panics as
   * written, while the corrected `Release` destroys that connection once.
   */
  lemma NewThenReleasePanics(now: Time)
    ensures var cfg := Config(1, 1, 1, true, true, false, 0);
      var s := NewPool(cfg, now, AlwaysSeven).value;
      && NewPool(cfg, now, AlwaysSeven).Success?
      && ReleaseAsWritten(s) == Panicked
      && Release(s).destroyed == [7] && Release(s).idle == []
  {
    var p := Prefill(1, AlwaysSeven, now);
    assert AlwaysSeven(0).Some?;
    assert p.value == [Conn(7, now)];
  }

  /**
   * The same crash on `New`'s own error path: with `InitialCap: 2`, a
   * factory that succeeds once and then fails makes `New` call `Release`
   * on a pool already holding the first connection.
   */
  lemma NewFillFailureReleasePanics(now: Time)
    ensures var cfg := Config(2, 2, 2, true, true, false, 0);
      && NewPool(cfg, now, SevenThenFail) == Failure(FillFailed)
      && ReleaseAsWritten(Init(cfg, [Conn(7, now)])) == Panicked
      && Release(Init(cfg, [Conn(7, now)])).destroyed == [7]
  {
  }
}
