/**
 * The TCP socket that reconnects by itself. After each failure the next
 * connection attempt waits for a delay that doubles from 50 ms and is
 * capped at 10 s. The clock is an integer number of milliseconds, read
 * once per operation; the outcomes of connecting and of the operation on
 * the stream are given as parameters.
 */
module Socket {
  import opened Wrappers
  import opened Machine

  /** The delays in milliseconds, u64 as in the source. */
  const MIN_RECONNECT_DELAY_MS: bv64 := 50
  const MAX_RECONNECT_DELAY_MS: bv64 := 10000

  /** `RetrySocket` without its addresses: the failures so far, the earliest next attempt, and whether a stream is held. */
  datatype SocketState = SocketState(retries: nat, nextTry: int, connected: bool)

  /** The errors callers can tell apart: connecting failed, no stream yet, the operation failed. */
  datatype SocketError = ConnectFailed | NotConnected | OperationFailed

  datatype Outcome<T> = Ok(value: T) | Err(error: SocketError)

  /*
   * The reconnection delay
   */

  /** `min(MAX_RECONNECT_DELAY_MS, MIN_RECONNECT_DELAY_MS << retries)` with the u64 shift of a release build. */
  function Delay(retries: nat): (d: nat)
    ensures d <= (MAX_RECONNECT_DELAY_MS as int)
  {
    var shifted := Shl64(MIN_RECONNECT_DELAY_MS, retries);
    (if shifted < MAX_RECONNECT_DELAY_MS then shifted else MAX_RECONNECT_DELAY_MS) as nat
  }

  /** The delay as evidently intended: doubled from 50 ms and held at 10 s from then on. */
  function SaturatedDelay(retries: nat): (d: nat)
    ensures d <= (MAX_RECONNECT_DELAY_MS as int)
  {
    var doubled := (MIN_RECONNECT_DELAY_MS as int) * Pow2(retries);
    if doubled < (MAX_RECONNECT_DELAY_MS as int) then doubled else (MAX_RECONNECT_DELAY_MS as int)
  }

  /** Below the cap, one more failure doubles the delay. */
  lemma DelayStep(retries: nat)
    requires retries < 7
    ensures Delay(retries + 1) == 2 * Delay(retries)
  {
  }

  /** Until the cap, the delay doubles with each failure: 100 ms after the first, up to 6400 ms after the seventh. */
  lemma {:induction false} DelayDoubles(retries: nat)
    requires retries <= 7
    ensures Delay(retries) == (MIN_RECONNECT_DELAY_MS as int) * Pow2(retries)
  {
    DelayConstants();
    if retries > 0 {
      var before := Delay(retries - 1);
      DelayDoubles(retries - 1);
      DelayStep(retries - 1);
      assert Delay(retries) == 2 * before;
      assert Pow2(retries) == 2 * Pow2(retries - 1);
      assert before == 50 * Pow2(retries - 1);
    }
  }

  /** From the eighth failure to the 62nd, the delay is the cap. */
  lemma DelaySaturates(retries: nat)
    requires 8 <= retries <= 62
    ensures Delay(retries) == (MAX_RECONNECT_DELAY_MS as int)
  {
  }

  /**
   * After the 63rd failure the shift drops the set bits of 50 but one, and that
   * one at bit 64: the delay is 0 and the next attempt is not delayed at all.
   */
  lemma DelayWrapsToZero()
    ensures Delay(63) == 0
  {
  }

  /** A release build takes the shift modulo 64: after the 64th failure the delay starts again from 50 ms. A debug build panics there. */
  lemma DelayRestarts()
    ensures Delay(64) == (MIN_RECONNECT_DELAY_MS as int) && ShlOverflows(64)
  {
  }

  /** The intended delay never decreases, and agrees with the source's until the shift loses bits. */
  lemma SaturatedDelayMonotone(a: nat, b: nat)
    requires a <= b
    ensures SaturatedDelay(a) <= SaturatedDelay(b)
    ensures b <= 62 ==> SaturatedDelay(b) == Delay(b)
  {
    DelayConstants();
    assert SaturatedDelay(a) <= SaturatedDelay(b) by {
      Pow2Monotone(a, b);
      assert 50 * Pow2(a) <= 50 * Pow2(b);
    }
    if b <= 7 {
      DelayDoubles(b);
    } else if b <= 62 {
      DelaySaturates(b);
      SaturatedDelayHolds(b);
    }
  }

  lemma DelayConstants()
    ensures MIN_RECONNECT_DELAY_MS as int == 50 && MAX_RECONNECT_DELAY_MS as int == 10000
  {
  }

  /** The intended delay is the cap from the eighth failure on, however many follow. */
  lemma SaturatedDelayHolds(retries: nat)
    requires retries >= 8
    ensures SaturatedDelay(retries) == (MAX_RECONNECT_DELAY_MS as int)
  {
    DelayConstants();
    assert Pow2(8) == 256;
    Pow2Monotone(8, retries);
  }

  /*
   * The state machine
   */

  /**
   * `try_connect`: with no stream, and only once the clock is strictly past
   * `nextTry`, a connection is attempted; success holds the stream and
   * clears the failure count, failure is an error and changes nothing.
   */
  function TryConnectOf(s: SocketState, now: int, connectOk: bool): (r: (SocketState, bool))
    ensures !r.1 <==> !s.connected && now > s.nextTry && !connectOk
    ensures r.1 && !s.connected && now > s.nextTry ==> r.0 == SocketState(0, s.nextTry, true)
    ensures !(!s.connected && now > s.nextTry && connectOk) ==> r.0 == s
  {
    if !s.connected && now > s.nextTry then
      if connectOk then (s.(retries := 0, connected := true), true) else (s, false)
    else (s, true)
  }

  /** `backoff`: the stream is dropped, the failure counted, and the next attempt delayed. */
  function BackoffOf(s: SocketState, now: int): (r: SocketState)
    ensures r.retries == s.retries + 1 && !r.connected
    ensures now <= r.nextTry <= now + (MAX_RECONNECT_DELAY_MS as int)
  {
    var retries := s.retries + 1;
    SocketState(retries, now + Delay(retries), false)
  }

  /**
   * `with_socket`: connect if need be (a failure backs off), report
   * NotConnected while still waiting, otherwise run the operation, whose
   * failure (None) backs off too. The contract lists the four outcomes and
   * the state each leaves.
   */
  function WithSocketOf<T>(s: SocketState, now: int, connectOk: bool, operation: Option<T>): (res: (SocketState, Outcome<T>))
    ensures var (r, out) := res;
      var attempt := !s.connected && now > s.nextTry;
      (out == Err(ConnectFailed) <==> attempt && !connectOk)
      && (out == Err(ConnectFailed) ==> r == BackoffOf(s, now))
      && (out == Err(NotConnected) <==> !s.connected && now <= s.nextTry)
      && (out == Err(NotConnected) ==> r == s)
      && (out.Ok? <==> (s.connected || (attempt && connectOk)) && operation.Some?)
      && (out.Ok? ==> out.value == operation.value && r.connected && (attempt ==> r.retries == 0))
      && (out == Err(OperationFailed) <==> (s.connected || (attempt && connectOk)) && operation.None?)
      && (out == Err(OperationFailed) ==> !r.connected && r.retries == (if attempt then 0 else s.retries) + 1)
  {
    var (s1, ok) := TryConnectOf(s, now, connectOk);
    if !ok then (BackoffOf(s1, now), Err(ConnectFailed))
    else if !s1.connected then (s1, Err(NotConnected))
    else if operation.Some? then (s1, Ok(operation.value))
    else (BackoffOf(s1, now), Err(OperationFailed))
  }

  /** A connected socket whose operation succeeds returns its result and changes nothing. */
  lemma ConnectedOperationKeepsState<T>(s: SocketState, now: int, connectOk: bool, value: T)
    requires s.connected
    ensures WithSocketOf(s, now, connectOk, Some(value)) == (s, Ok(value))
  {
  }

  /** After a failure, nothing is attempted until the delay has passed: every operation in the meantime is NotConnected. */
  lemma WaitsOutTheDelay<T>(s: SocketState, failedAt: int, now: int, connectOk: bool, operation: Option<T>)
    requires failedAt <= now <= failedAt + Delay(s.retries + 1)
    ensures WithSocketOf(BackoffOf(s, failedAt), now, connectOk, operation) == (BackoffOf(s, failedAt), Err(NotConnected))
  {
  }

  /*
   * The socket
   */

  class RetrySocket {
    var retries: nat
    var nextTry: int
    var connected: bool

    function State(): SocketState
      reads this
    {
      SocketState(retries, nextTry, connected)
    }

    /**
     * `new` at time `createdAt`: no failure yet and a first attempt allowed
     * 50 ms later; then the early flush, at time `flushAt`, with the outcomes
     * of connecting and of flushing the stream.
     */
    constructor(createdAt: int, flushAt: int, connectOk: bool, flushOk: bool)
      ensures State() == WithSocketOf(SocketState(0, createdAt + (MIN_RECONNECT_DELAY_MS as int), false), flushAt, connectOk,
                                      if flushOk then Some(()) else None).0
    {
      retries := 0;
      nextTry := createdAt + (MIN_RECONNECT_DELAY_MS as int);
      connected := false;
      new;
      var _ := WithSocket(flushAt, connectOk, if flushOk then Some(()) else None);
    }

    method TryConnect(now: int, connectOk: bool) returns (ok: bool)
      modifies this
      ensures (State(), ok) == TryConnectOf(old(State()), now, connectOk)
    {
      ok := true;
      if !connected {
        if now > nextTry {
          if !connectOk {
            return false;
          }
          retries := 0;
          connected := true;
        }
      }
    }

    method Backoff(now: int)
      modifies this
      ensures State() == BackoffOf(old(State()), now)
    {
      connected := false;
      retries := retries + 1;
      var expDelay := Shl64(MIN_RECONNECT_DELAY_MS, retries);
      var maxDelay := if MAX_RECONNECT_DELAY_MS < expDelay then MAX_RECONNECT_DELAY_MS else expDelay;
      nextTry := now + maxDelay as int;
    }

    /** `with_socket`, hence `write` and `flush`, with the outcomes of connecting and of the operation. */
    method WithSocket<T>(now: int, connectOk: bool, operation: Option<T>) returns (out: Outcome<T>)
      modifies this
      ensures (State(), out) == WithSocketOf(old(State()), now, connectOk, operation)
    {
      var ok := TryConnect(now, connectOk);
      if !ok {
        Backoff(now);
        return Err(ConnectFailed);
      }
      if !connected {
        return Err(NotConnected);
      }
      if operation.Some? {
        out := Ok(operation.value);
      } else {
        Backoff(now);
        out := Err(OperationFailed);
      }
    }
  }

  /** The early flush of `new` happens within the first 50 ms: no connection is attempted, and the socket starts unconnected with no failure. */
  lemma EarlyFlushWaits(createdAt: int, flushAt: int, connectOk: bool, flushOk: bool)
    requires createdAt <= flushAt <= createdAt + (MIN_RECONNECT_DELAY_MS as int)
    ensures var s := SocketState(0, createdAt + (MIN_RECONNECT_DELAY_MS as int), false);
      WithSocketOf(s, flushAt, connectOk, if flushOk then Some(()) else None) == (s, Err(NotConnected))
  {
  }

  /**
   * A server that is down: a socket created and flushed at 0, then written at
   * 51 (a failed attempt, backing off 100 ms), at 151 (not strictly past the
   * next try, so nothing is attempted) and at 152 (backing off 200 ms).
   */
  method ServerDownScenario() returns (first: Outcome<()>, second: Outcome<()>, third: Outcome<()>, s: SocketState)
    ensures first == Err(ConnectFailed) && second == Err(NotConnected) && third == Err(ConnectFailed)
    ensures s == SocketState(2, 352, false)
  {
    var socket := new RetrySocket(0, 0, false, false);
    first := socket.WithSocket(51, false, Some(()));
    DelayStep(0);
    second := socket.WithSocket(151, false, Some(()));
    third := socket.WithSocket(152, false, Some(()));
    DelayStep(1);
    s := socket.State();
  }
}
