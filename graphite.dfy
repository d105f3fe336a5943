/**
 * The graphite UDP output: each metric is written as one line
 * `<prefixed name> <value> <epoch seconds>` into a buffer allocated with
 * MAX_UDP_PAYLOAD bytes of capacity, sent as a datagram when an entry does
 * not fit, on flush, or after every write when the scope is unbuffered.
 */
module Graphite {
  import opened Wrappers
  import opened Machine
  import opened Kinds
  import opened Decimal
  import opened Name
  import opened Attributes
  import opened Datagram

  /** `GraphiteUdpMetric` and the id its handle is forged with. */
  datatype GraphiteMetric = GraphiteMetric(prefix: string, scale: int, id: string)

  /** The line `print` writes at a given epoch second. */
  function EntryText(m: GraphiteMetric, value: ISize, seconds: nat): (r: string)
    requires m.scale != 0
    ensures m.scale == 1 ==> r == m.prefix + DecimalString(value) + " " + DecimalString(seconds) + "\n"
  {
    TruncDivByOne(value);
    m.prefix + DecimalString(TruncDiv(value, m.scale)) + " " + DecimalString(seconds) + "\n"
  }

  /** An entry starts with the metric's prefix and ends with a space, the epoch second and a newline. */
  lemma EntryFrame(m: GraphiteMetric, value: ISize, seconds: nat)
    requires m.scale != 0
    ensures var r, tail := EntryText(m, value, seconds), " " + DecimalString(seconds) + "\n";
      |m.prefix| + |tail| <= |r| && r[..|m.prefix|] == m.prefix && r[|r| - |tail|..] == tail
  {
  }

  /** The buffer and its allocated capacity. */
  datatype Sender = Sender(out: Outbox, capacity: nat)

  predicate Fits(s: Sender)
  {
    |s.out.buffer| <= s.capacity
  }

  /**
   * The capacity of a `String` once it must hold `needed` bytes: unchanged if
   * it is large enough, otherwise grown to twice the old capacity or to
   * `needed`, whichever is larger (the amortised growth of the standard
   * library's vectors).
   */
  function Reserved(capacity: nat, needed: nat): (c: nat)
    ensures c >= capacity && c >= needed
  {
    if needed <= capacity then capacity else if needed <= 2 * capacity then 2 * capacity else needed
  }

  /** The sender with an entry pushed onto its buffer. */
  function Pushed(out: Outbox, capacity: nat, entry: string): (r: Sender)
    ensures Fits(r) && r.capacity >= capacity
  {
    Sender(Outbox(out.buffer + entry, out.sent), Reserved(capacity, |out.buffer| + |entry|))
  }

  /*
   * `print`, as the source writes it and as it was evidently meant
   */

  /**
   * `print` of an entry, None when the epoch could not be read: an entry
   * longer than the buffer's capacity is dropped with no flush at all. One
   * longer than the space left makes the buffer be sent (outcome `roomOk`)
   * and is then pushed, whatever the send did. An unbuffered scope then sends
   * the buffer (outcome `flushOk`), also when the epoch could not be read.
   */
  function PrintOf(s: Sender, entry: Option<string>, buffered: bool, roomOk: bool, flushOk: bool): (r: Sender)
    requires Fits(s)
    ensures Fits(r) && r.capacity >= s.capacity
  {
    if entry.Some? && |entry.value| > s.capacity then s
    else
      var s1 := if entry.None? then s
                else
                  var o1 := if |entry.value| > s.capacity - |s.out.buffer| then FlushInnerOf(s.out, roomOk).0 else s.out;
                  Pushed(o1, s.capacity, entry.value);
      if buffered then s1 else Sender(FlushInnerOf(s1.out, flushOk).0, s1.capacity)
  }

  /** `print` as evidently intended: an entry that finds no room, because the send making room failed, is dropped. */
  function PrintFixedOf(s: Sender, entry: Option<string>, buffered: bool, roomOk: bool, flushOk: bool): (r: Sender)
    requires Fits(s)
    ensures Fits(r) && r.capacity == s.capacity
  {
    if entry.Some? && |entry.value| > s.capacity then s
    else
      var s1 := if entry.None? then s
                else if |entry.value| <= s.capacity - |s.out.buffer| then Pushed(s.out, s.capacity, entry.value)
                else
                  var f := FlushInnerOf(s.out, roomOk);
                  if f.1 then Pushed(f.0, s.capacity, entry.value) else Sender(f.0, s.capacity);
      if buffered then s1 else Sender(FlushInnerOf(s1.out, flushOk).0, s1.capacity)
  }

  /** An entry longer than the capacity changes nothing, and no datagram is sent even when unbuffered. */
  lemma PrintTooLong(s: Sender, entry: string, buffered: bool, roomOk: bool, flushOk: bool)
    requires Fits(s) && |entry| > s.capacity
    ensures PrintOf(s, Some(entry), buffered, roomOk, flushOk) == s
  {
  }

  /** Unlike statsd's, graphite's `print` never loses an entry that fits the capacity: it is given to the outbox after everything before it. */
  lemma PrintDelivers(s: Sender, entry: string, buffered: bool, roomOk: bool, flushOk: bool)
    requires Fits(s) && |entry| <= s.capacity
    ensures Given(PrintOf(s, Some(entry), buffered, roomOk, flushOk).out) == Given(s.out) + entry
  {
    var o1 := if |entry| > s.capacity - |s.out.buffer| then FlushInnerOf(s.out, roomOk).0 else s.out;
    assert Given(o1) == Given(s.out);
    assert Given(Pushed(o1, s.capacity, entry).out) == Given(o1) + entry;
  }

  /** Without an epoch nothing is added; an unbuffered scope still sends its buffer. */
  lemma PrintWithoutClock(s: Sender, buffered: bool, roomOk: bool, flushOk: bool)
    requires Fits(s)
    ensures var r := PrintOf(s, None, buffered, roomOk, flushOk);
      Given(r.out) == Given(s.out) && r.capacity == s.capacity
      && (buffered ==> r == s)
      && (!buffered && flushOk ==> r.out.buffer == [])
  {
  }

  /** The buffer stays within MAX_UDP_PAYLOAD whenever every send made to find room succeeds. */
  lemma PrintBoundedWhenSent(s: Sender, entry: Option<string>, buffered: bool, flushOk: bool)
    requires Fits(s) && s.capacity == MAX_UDP_PAYLOAD
    ensures var r := PrintOf(s, entry, buffered, true, flushOk);
      r.capacity == MAX_UDP_PAYLOAD && |r.out.buffer| <= MAX_UDP_PAYLOAD
  {
  }

  /**
   * As written: a buffer holding 570 bytes, a 10-byte entry and a failed
   * send. The entry is pushed anyway, the buffer holds 580 bytes and its
   * capacity is doubled for good, so datagrams above MAX_UDP_PAYLOAD follow.
   */
  lemma OverflowAfterFailedSend()
    ensures var s := Sender(Outbox(seq(570, i => 'a'), []), MAX_UDP_PAYLOAD);
      var r := PrintOf(s, Some("cpu 1 100\n"), true, false, true);
      |r.out.buffer| == 580 && r.capacity == 2 * MAX_UDP_PAYLOAD && r.out.sent == []
  {
  }

  /** As intended: the capacity never grows, so no datagram exceeds MAX_UDP_PAYLOAD, whatever the sends do. */
  lemma PrintFixedBounded(s: Sender, entry: Option<string>, buffered: bool, roomOk: bool, flushOk: bool)
    requires Fits(s) && s.capacity == MAX_UDP_PAYLOAD
    ensures var r := PrintFixedOf(s, entry, buffered, roomOk, flushOk);
      r.capacity == MAX_UDP_PAYLOAD && |r.out.buffer| <= MAX_UDP_PAYLOAD
  {
  }

  /** As intended, an entry is still delivered whenever the send making room succeeds, and dropped only when it fails. */
  lemma PrintFixedDelivers(s: Sender, entry: string, buffered: bool, roomOk: bool, flushOk: bool)
    requires Fits(s) && |entry| <= s.capacity
    ensures var r := PrintFixedOf(s, Some(entry), buffered, roomOk, flushOk);
      Given(r.out) == (if roomOk || |entry| <= s.capacity - |s.out.buffer| then Given(s.out) + entry else Given(s.out))
  {
    if |entry| > s.capacity - |s.out.buffer| {
      var f := FlushInnerOf(s.out, roomOk);
      assert Given(f.0) == Given(s.out);
      if f.1 {
        assert Given(Pushed(f.0, s.capacity, entry).out) == Given(f.0) + entry;
      }
    } else {
      assert Given(Pushed(s.out, s.capacity, entry).out) == Given(s.out) + entry;
    }
  }

  /*
   * The scope
   */

  class GraphiteScope {
    const attributes: Attributes
    /** The text not yet sent. */
    var buffer: string
    /** The capacity the buffer has allocated. */
    var capacity: nat
    /** The datagrams the socket sent, in order. */
    var sent: seq<string>

    predicate Valid()
      reads this`buffer, this`capacity
    {
      |buffer| <= capacity
    }

    function State(): Sender
      reads this`buffer, this`capacity, this`sent
    {
      Sender(Outbox(buffer, sent), capacity)
    }

    /** `metrics()`: an empty buffer with MAX_UDP_PAYLOAD bytes of capacity. */
    constructor(attributes: Attributes)
      ensures this.attributes == attributes && buffer == [] && sent == [] && capacity == MAX_UDP_PAYLOAD
    {
      this.attributes := attributes;
      buffer := [];
      capacity := MAX_UDP_PAYLOAD;
      sent := [];
    }

    /** `new_metric`: the prefixed name joined by "." and a space, the scale, and the id forged from the name. */
    method NewMetric(name: NameParts, kind: InputKind) returns (m: GraphiteMetric)
      ensures m.prefix == Join(PrefixPrepend(attributes, name), ".") + " "
      ensures m.scale == Scale(kind) && m.id == Forge("graphite", name)
    {
      var prefixed := Prepend(name, attributes.naming);
      var prefix := Join(prefixed, ".");
      prefix := prefix + [' '];
      m := GraphiteMetric(prefix, Scale(kind), Forge("graphite", name));
    }

    /** `flush_inner`, with the outcome of the send. */
    method FlushInner(sendOk: bool) returns (ok: bool)
      modifies this`buffer, this`sent
      ensures (Outbox(buffer, sent), ok) == FlushInnerOf(old(State().out), sendOk)
    {
      ok := true;
      if buffer != [] {
        if !sendOk {
          return false;
        }
        sent := sent + [buffer];
        buffer := [];
      }
    }

    /** `push_str`: the capacity grows first if the text does not fit. */
    method PushStr(text: string)
      modifies this`buffer, this`capacity
      ensures State() == Pushed(old(State().out), old(capacity), text)
    {
      capacity := Reserved(capacity, |buffer| + |text|);
      buffer := buffer + text;
    }

    /** `print`: the write of a value through a metric at an epoch second, None when the clock could not be read. */
    method Print(m: GraphiteMetric, value: ISize, epoch: Option<nat>, roomOk: bool, flushOk: bool)
      requires Valid() && m.scale != 0
      modifies this`buffer, this`capacity, this`sent
      ensures Valid()
      ensures State() == PrintOf(old(State()),
        if epoch.Some? then Some(EntryText(m, value, epoch.value)) else None,
        IsBuffered(attributes), roomOk, flushOk)
    {
      var valueText := DecimalString(TruncDiv(value, m.scale));
      if epoch.Some? {
        var line := m.prefix + valueText + " " + DecimalString(epoch.value) + "\n";
        var entryLen := |line|;
        var available := capacity - |buffer|;
        if entryLen > capacity {
          return;
        }
        if entryLen > available {
          var _ := FlushInner(roomOk);
        }
        PushStr(line);
      }
      if !IsBuffered(attributes) {
        var _ := FlushInner(flushOk);
      }
    }

    /** `flush`: the buffer is sent. */
    method Flush(sendOk: bool) returns (ok: bool)
      modifies this`buffer, this`sent
      ensures (Outbox(buffer, sent), ok) == FlushInnerOf(old(State().out), sendOk)
    {
      ok := FlushInner(sendOk);
    }
  }

  /** A gauge `app.cpu` in an unbuffered scope named "app": writing 42 at second 1000 sends "app.cpu 42 1000\n" at once. */
  method UnbufferedGaugeScenario() returns (sent: seq<string>)
    ensures sent == ["app.cpu 42 1000\n"]
  {
    var defaults := DefaultAttributes();
    var attrs := AddName(defaults, "app");
    var scope := new GraphiteScope(attrs);
    var m := scope.NewMetric(FromString("cpu"), Gauge);
    assert PrefixPrepend(attrs, FromString("cpu")) == ["app", "cpu"];
    GaugeSent(m);
    scope.Print(m, 42, Some(1000), true, true);
    sent := scope.sent;
  }

  /** In an empty unbuffered scope, the gauge's entry for 42 at second 1000 is sent at once. */
  lemma GaugeSent(m: GraphiteMetric)
    requires m.prefix == Join(["app", "cpu"], ".") + " " && m.scale == Scale(Gauge)
    ensures PrintOf(Sender(Outbox([], []), MAX_UDP_PAYLOAD), Some(EntryText(m, 42, 1000)), false, true, true).out.sent
      == ["app.cpu 42 1000\n"]
  {
    GaugeEntry(m);
    FirstEntrySent(EntryText(m, 42, 1000));
  }

  /** In an empty unbuffered scope, an entry that fits is sent on its own. */
  lemma FirstEntrySent(entry: string)
    requires 0 < |entry| <= MAX_UDP_PAYLOAD
    ensures PrintOf(Sender(Outbox([], []), MAX_UDP_PAYLOAD), Some(entry), false, true, true).out.sent == [entry]
  {
    assert [] + entry == entry;
  }

  /** The entry of the value 42 at second 1000 for the gauge `app.cpu`. */
  lemma GaugeEntry(m: GraphiteMetric)
    requires m.prefix == Join(["app", "cpu"], ".") + " " && m.scale == Scale(Gauge)
    ensures EntryText(m, 42, 1000) == "app.cpu 42 1000\n"
  {
    GaugeName();
    ValueText();
    SecondsText();
    GaugeLine();
  }

  lemma GaugeLine()
    ensures "app.cpu" + " " + "42" + " " + "1000" + "\n" == "app.cpu 42 1000\n"
  {
  }

  lemma GaugeName()
    ensures Join(["app", "cpu"], ".") == "app.cpu"
  {
    JoinTwo("app", "cpu", ".");
  }

  lemma ValueText()
    ensures DecimalString(TruncDiv(42, 1)) == "42"
  {
    assert NatDigits(4) == "4";
  }

  lemma SecondsText()
    ensures DecimalString(1000) == "1000"
  {
    assert NatDigits(1) == "1";
    assert NatDigits(10) == "10";
    assert NatDigits(100) == "100";
  }
}
