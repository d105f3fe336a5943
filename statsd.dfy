/**
 * The statsd output: each metric is written as one line
 * `<prefixed name>:<value>|<type>` into a buffer of MAX_UDP_PAYLOAD bytes,
 * sent as a datagram when it is full, on flush, or after every write when
 * the scope is unbuffered.
 */
module Statsd {
  import opened Machine
  import opened Kinds
  import opened Decimal
  import opened Name
  import opened Attributes
  import opened Datagram

  /** `StatsdMetric`: the text before the value, the text after it, and the divisor of the value. */
  datatype StatsdMetric = StatsdMetric(prefix: string, suffix: string, scale: int)

  /** The statsd type of a kind: counters for markers and counters, gauges for gauges and levels, ms for timers. */
  function KindSuffix(kind: InputKind): (r: string)
    requires kind != Percentile
    ensures r == "c" <==> kind == Marker || kind == Counter
    ensures r == "g" <==> kind == Gauge || kind == Level
    ensures r == "ms" <==> kind == Timer
  {
    match kind
    case Marker => "c"
    case Counter => "c"
    case Gauge => "g"
    case Level => "g"
    case Timer => "ms"
  }

  /** The line `print` writes: the prefix, the scaled value as `to_string` writes it, the suffix. */
  function EntryText(m: StatsdMetric, value: ISize): (r: string)
    requires m.scale != 0
    ensures m.scale == 1 ==> r == m.prefix + DecimalString(value) + m.suffix
  {
    TruncDivByOne(value);
    m.prefix + DecimalString(TruncDiv(value, m.scale)) + m.suffix
  }

  /** An entry starts with the metric's prefix and ends with its suffix. */
  lemma EntryFrame(m: StatsdMetric, value: ISize)
    requires m.scale != 0
    ensures var r := EntryText(m, value);
      |m.prefix| + |m.suffix| <= |r| && r[..|m.prefix|] == m.prefix && r[|r| - |m.suffix|..] == m.suffix
  {
  }

  /** The buffer with an entry added: after a newline when the buffer already holds something. */
  function Separated(buffer: string, entry: string): string
  {
    (if buffer == [] then buffer else buffer + "\n") + entry
  }

  /*
   * `print`, as the source writes it and as it was evidently meant
   */

  /**
   * `print` of an entry: an entry longer than the whole buffer is dropped with
   * no flush at all. An entry that does not fit, with its separator, in the
   * space left makes the buffer be sent (outcome `roomOk`) and is then
   * dropped. Otherwise it is added to the buffer. An unbuffered scope then
   * sends the buffer (outcome `flushOk`).
   */
  function PrintOf(o: Outbox, entry: string, buffered: bool, roomOk: bool, flushOk: bool): (r: Outbox)
    requires |o.buffer| <= MAX_UDP_PAYLOAD
    ensures |r.buffer| <= MAX_UDP_PAYLOAD
  {
    if |entry| > MAX_UDP_PAYLOAD then o
    else
      var o1 := if |entry| + 1 > MAX_UDP_PAYLOAD - |o.buffer| then FlushInnerOf(o, roomOk).0
                else Outbox(Separated(o.buffer, entry), o.sent);
      if buffered then o1 else FlushInnerOf(o1, flushOk).0
  }

  /** `print` as evidently intended: the entry that did not fit is added once the buffer has been sent. */
  function PrintFixedOf(o: Outbox, entry: string, buffered: bool, roomOk: bool, flushOk: bool): (r: Outbox)
    requires |o.buffer| <= MAX_UDP_PAYLOAD
    ensures |r.buffer| <= MAX_UDP_PAYLOAD
  {
    if |entry| > MAX_UDP_PAYLOAD then o
    else
      var o1 := if |entry| + 1 > MAX_UDP_PAYLOAD - |o.buffer| then
                  var f := FlushInnerOf(o, roomOk);
                  if f.1 then Outbox(entry, f.0.sent) else f.0
                else Outbox(Separated(o.buffer, entry), o.sent);
      if buffered then o1 else FlushInnerOf(o1, flushOk).0
  }

  /** An entry longer than the buffer changes nothing, and no datagram is sent even when unbuffered. */
  lemma PrintTooLong(o: Outbox, entry: string, buffered: bool, roomOk: bool, flushOk: bool)
    requires |o.buffer| <= MAX_UDP_PAYLOAD && |entry| > MAX_UDP_PAYLOAD
    ensures PrintOf(o, entry, buffered, roomOk, flushOk) == o
    ensures PrintFixedOf(o, entry, buffered, roomOk, flushOk) == o
  {
  }

  /**
   * A (never empty) entry that fits is given to the outbox after what it held, preceded by
   * a newline when the buffer was not empty; a buffered scope keeps it in the
   * buffer, an unbuffered one whose send succeeds sends it at once.
   */
  lemma PrintFits(o: Outbox, entry: string, buffered: bool, roomOk: bool, flushOk: bool)
    requires |o.buffer| <= MAX_UDP_PAYLOAD && 0 < |entry| && |entry| + 1 <= MAX_UDP_PAYLOAD - |o.buffer|
    ensures var r := PrintOf(o, entry, buffered, roomOk, flushOk);
      Given(r) == Concat(o.sent) + Separated(o.buffer, entry)
      && (buffered ==> r == Outbox(Separated(o.buffer, entry), o.sent))
      && (!buffered && flushOk ==> r == Outbox([], o.sent + [Separated(o.buffer, entry)]))
  {
  }

  /** As written: an entry that fits the buffer but not the space left is lost, whatever the sends do. */
  lemma PrintNoRoomLoses(o: Outbox, entry: string, buffered: bool, roomOk: bool, flushOk: bool)
    requires |o.buffer| <= MAX_UDP_PAYLOAD
    requires |entry| <= MAX_UDP_PAYLOAD < |entry| + 1 + |o.buffer|
    ensures Given(PrintOf(o, entry, buffered, roomOk, flushOk)) == Given(o)
  {
  }

  /** A buffer holding 570 bytes and a 9-byte entry: the entry is never sent. */
  lemma EntryLostWhenNearlyFull()
    ensures var o := Outbox(seq(570, i => 'a'), []);
      var r := PrintOf(o, "hits:1|c\n", true, true, true);
      r == Outbox([], [o.buffer]) && Given(r) == o.buffer
  {
    var o := Outbox(seq(570, i => 'a'), []);
    PrintNoRoomLoses(o, "hits:1|c\n", true, true, true);
    assert [o.buffer][..0] == [];
    assert Concat([o.buffer]) == "" + o.buffer;
    assert "" + o.buffer == o.buffer;
  }

  /** As intended: every entry that fits the buffer is given to the outbox whenever the send making room succeeds. */
  lemma PrintFixedDelivers(o: Outbox, entry: string, buffered: bool, roomOk: bool, flushOk: bool)
    requires |o.buffer| <= MAX_UDP_PAYLOAD && |entry| <= MAX_UDP_PAYLOAD && roomOk
    ensures var r := PrintFixedOf(o, entry, buffered, roomOk, flushOk);
      Given(r) == Given(o) + entry || Given(r) == Given(o) + "\n" + entry
  {
    if |entry| + 1 > MAX_UDP_PAYLOAD - |o.buffer| {
      var f := FlushInnerOf(o, roomOk);
      assert Given(Outbox(entry, f.0.sent)) == Given(o) + entry by {
        assert Concat(f.0.sent) == Given(f.0);
      }
    } else if o.buffer != [] {
      assert Concat(o.sent) + Separated(o.buffer, entry) == Given(o) + "\n" + entry;
    } else {
      assert Concat(o.sent) + Separated(o.buffer, entry) == Given(o) + entry;
    }
  }

  /** As intended, an entry of exactly the buffer's size is sent on its own; as written it never is. */
  lemma FullSizeEntry(sent: seq<string>, entry: string)
    requires |entry| == MAX_UDP_PAYLOAD
    ensures Given(PrintOf(Outbox([], sent), entry, true, true, true)) == Concat(sent)
    ensures PrintFixedOf(Outbox([], sent), entry, true, true, true) == Outbox(entry, sent)
  {
    assert Given(Outbox([], sent)) == Concat(sent);
  }

  /** Two entries in a buffered scope: separated by a newline, so that after an entry's own newline the datagram holds an empty line. */
  lemma TwoEntries(sent: seq<string>, e1: string, e2: string)
    requires e1 != [] && |e1| + |e2| + 2 <= MAX_UDP_PAYLOAD
    ensures PrintOf(PrintOf(Outbox([], sent), e1, true, true, true), e2, true, true, true).buffer == e1 + "\n" + e2
  {
    assert Separated([], e1) == e1;
  }

  /*
   * Entries
   */

  /** A timer's microseconds become milliseconds truncated toward zero: -1500 µs is written -1, not -2. */
  lemma TimerValueTruncates(m: StatsdMetric)
    requires m.scale == Scale(Timer)
    ensures EntryText(m, 1500) == m.prefix + "1" + m.suffix
    ensures EntryText(m, -1500) == m.prefix + "-1" + m.suffix
  {
    assert DecimalString(TruncDiv(-1500, 1000)) == "-" + "1";
  }

  /*
   * The scope
   */

  class StatsdScope {
    const attributes: Attributes
    /** The text not yet sent. */
    var buffer: string
    /** The datagrams the socket sent, in order. */
    var sent: seq<string>

    /** The buffer never holds more than its capacity. */
    predicate Valid()
      reads this`buffer
    {
      |buffer| <= MAX_UDP_PAYLOAD
    }

    function State(): Outbox
      reads this`buffer, this`sent
    {
      Outbox(buffer, sent)
    }

    /** `new_scope`: an empty buffer. */
    constructor(attributes: Attributes)
      ensures this.attributes == attributes && buffer == [] && sent == [] && Valid()
    {
      this.attributes := attributes;
      buffer := [];
      sent := [];
    }

    /**
     * `new_metric` in a scope without sampling: the prefixed name joined by
     * ".", then ":"; "|", the statsd type and a newline; and the scale.
     */
    method NewMetric(name: NameParts, kind: InputKind) returns (m: StatsdMetric)
      requires kind != Percentile && attributes.sampling == Full
      ensures m.prefix == Join(PrefixPrepend(attributes, name), ".") + ":"
      ensures m.suffix == "|" + KindSuffix(kind) + "\n"
      ensures m.scale == Scale(kind)
    {
      var prefixed := Prepend(name, attributes.naming);
      var prefix := Join(prefixed, ".");
      prefix := prefix + [':'];
      var suffix := "|";
      suffix := suffix + KindSuffix(kind);
      suffix := suffix + "\n";
      m := StatsdMetric(prefix, suffix, Scale(kind));
    }

    /** `flush_inner`, with the outcome of the send. */
    method FlushInner(sendOk: bool) returns (ok: bool)
      modifies this`buffer, this`sent
      ensures (State(), ok) == FlushInnerOf(old(State()), sendOk)
    {
      ok := true;
      if buffer != [] {
        if !sendOk {
          return false;
        }
        sent := sent + [buffer];
        buffer := [];
      }
    }

    /** `print`: the write of a value through a metric, with the outcomes of the sends it may make. */
    method Print(m: StatsdMetric, value: ISize, roomOk: bool, flushOk: bool)
      requires Valid() && m.scale != 0
      modifies this`buffer, this`sent
      ensures Valid()
      ensures State() == PrintOf(old(State()), EntryText(m, value), IsBuffered(attributes), roomOk, flushOk)
    {
      var valueText := DecimalString(TruncDiv(value, m.scale));
      ghost var entry := EntryText(m, value);
      var entryLen := |m.prefix| + |valueText| + |m.suffix|;
      if entryLen > MAX_UDP_PAYLOAD {
        return;
      }
      var remaining := MAX_UDP_PAYLOAD - |buffer|;
      if entryLen + 1 > remaining {
        var _ := FlushInner(roomOk);
      } else {
        if buffer != [] {
          buffer := buffer + "\n";
        }
        ghost var separated := buffer;
        buffer := buffer + m.prefix;
        buffer := buffer + valueText;
        buffer := buffer + m.suffix;
        assert buffer == separated + entry;
      }
      if !IsBuffered(attributes) {
        var _ := FlushInner(flushOk);
      }
    }

    /** `flush`: the buffer is sent. */
    method Flush(sendOk: bool) returns (ok: bool)
      modifies this`buffer, this`sent
      ensures (State(), ok) == FlushInnerOf(old(State()), sendOk)
    {
      ok := FlushInner(sendOk);
    }
  }

  /** A counter `app.hits` in an unbuffered scope named "app": writing 3 sends the datagram "app.hits:3|c\n" at once. */
  method UnbufferedCounterScenario() returns (sent: seq<string>)
    ensures sent == ["app.hits:3|c\n"]
  {
    var defaults := DefaultAttributes();
    var attrs := AddName(defaults, "app");
    var scope := new StatsdScope(attrs);
    var m := scope.NewMetric(FromString("hits"), Counter);
    assert PrefixPrepend(attrs, FromString("hits")) == ["app", "hits"];
    CounterEntry(m);
    scope.Print(m, 3, true, true);
    PrintFits(Outbox([], []), EntryText(m, 3), false, true, true);
    assert Separated([], EntryText(m, 3)) == EntryText(m, 3);
    sent := scope.sent;
  }

  /** The entry of the value 3 for the counter `app.hits`. */
  lemma CounterEntry(m: StatsdMetric)
    requires m.prefix == Join(["app", "hits"], ".") + ":"
    requires m.suffix == "|" + KindSuffix(Counter) + "\n" && m.scale == Scale(Counter)
    ensures EntryText(m, 3) == "app.hits:3|c\n"
  {
    assert Join(["app", "hits"], ".") == "app.hits" by {
      assert ["app", "hits"][..1] == ["app"];
    }
    assert DecimalString(TruncDiv(3, 1)) == "3";
  }
}
