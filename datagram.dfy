/**
 * The send buffer of the UDP outputs, statsd and graphite: entries
 * accumulate in a string that `flush_inner` sends as one datagram. The
 * socket is not modelled: each send is given its outcome, and the
 * datagrams sent successfully are recorded in order.
 */
module Datagram {
  import opened Kinds

  /** `MAX_UDP_PAYLOAD`: the capacity both outputs allocate for their buffer, in bytes. */
  const MAX_UDP_PAYLOAD: nat := 576

  /** The buffered text and the datagrams sent so far. */
  datatype Outbox = Outbox(buffer: string, sent: seq<string>)

  /** The datagrams one after the other. */
  function Concat(datagrams: seq<string>): string
  {
    if |datagrams| == 0 then "" else Concat(datagrams[..|datagrams| - 1]) + datagrams[|datagrams| - 1]
  }

  /** Everything the outbox was given, in order: what was sent, then what is still buffered. */
  function Given(o: Outbox): string
  {
    Concat(o.sent) + o.buffer
  }

  /**
   * `flush_inner`: an empty buffer is not sent and the result is Ok; otherwise
   * the buffer is sent as one datagram and cleared when the send succeeds,
   * and kept as it is, with an error result, when it fails.
   */
  function FlushInnerOf(o: Outbox, sendOk: bool): (r: (Outbox, bool))
    ensures Given(r.0) == Given(o)
    ensures r.1 <==> o.buffer == [] || sendOk
    ensures r.1 ==> r.0.buffer == []
    ensures !r.1 ==> r.0 == o
    ensures o.buffer == [] ==> r.0 == o
    ensures o.buffer != [] && sendOk ==> r.0.sent == o.sent + [o.buffer]
  {
    if o.buffer == [] then (o, true)
    else if sendOk then
      var r := Outbox([], o.sent + [o.buffer]);
      assert (o.sent + [o.buffer])[..|o.sent|] == o.sent;
      assert Given(r) == Given(o) by {
        assert Concat(r.sent) == Concat(o.sent) + o.buffer;
        assert Concat(r.sent) + [] == Concat(r.sent);
      }
      (r, true)
    else (o, false)
  }

  /** A successful flush leaves everything given to the outbox sent, in order. */
  lemma FlushSendsAll(o: Outbox, sendOk: bool)
    requires sendOk
    ensures Concat(FlushInnerOf(o, sendOk).0.sent) == Given(o)
  {
    var r := FlushInnerOf(o, sendOk).0;
    assert Given(r) == Concat(r.sent) + [];
  }

  /** Timers are written in microseconds; both outputs send milliseconds, so timer values are divided by 1000. */
  function Scale(kind: InputKind): (s: int)
    ensures s > 0
    ensures s == 1000 <==> kind == Timer
  {
    if kind == Timer then 1000 else 1
  }
}
