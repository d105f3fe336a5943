/**
 * Line templates: the print commands an output runs for each metric value,
 * writing literal text, the value (possibly divided by a scale), newlines,
 * and label text for labels that exist.
 */
module Format {
  import opened Wrappers
  import opened Machine
  import opened Decimal
  import opened Name
  import opened Kinds
  import opened Label

  /** `LabelOp`: what to print of a label that exists. */
  datatype LabelOp = LabelLiteral(text: string) | LabelKey | LabelValue

  /** `LineOp`: one print command. */
  datatype LineOp =
    | Literal(text: string)
    | LabelExists(key: string, labelOps: seq<LabelOp>)
    | ValueAsText
    | ScaledValueAsText(scale: ISize)
    | NewLine

  /** `LineTemplate`: the commands, run in order. */
  datatype LineTemplate = LineTemplate(ops: seq<LineOp>)

  /**
   * Every scale divides the value without a panic: Rust's `/` panics on a
   * zero divisor and on the one overflowing quotient, `isize::MIN / -1`.
   */
  predicate Printable(ops: seq<LineOp>, value: ISize)
  {
    forall i :: 0 <= i < |ops| ==> Divides(ops[i], value)
  }

  /** A scaled command whose scale divides the value without a panic, or another command. */
  predicate Divides(op: LineOp, value: ISize)
  {
    op.ScaledValueAsText? ==> op.scale != 0 && !(value == ISIZE_MIN && op.scale == -1)
  }

  /** The text of one label command for the label `key` whose value is `labelValue`. */
  function LabelOpText(op: LabelOp, key: string, labelValue: string): string
  {
    match op
    case LabelLiteral(text) => text
    case LabelKey => key
    case LabelValue => labelValue
  }

  /** The texts of the label commands, in order. */
  function LabelText(ops: seq<LabelOp>, key: string, labelValue: string): string
  {
    if |ops| == 0 then ""
    else LabelText(ops[..|ops| - 1], key, labelValue) + LabelOpText(ops[|ops| - 1], key, labelValue)
  }

  /** The text one command writes; a label command writes nothing when its label does not exist. */
  function OpText(op: LineOp, value: ISize, lookup: string -> Option<string>): string
    requires Divides(op, value)
  {
    match op
    case Literal(text) => text
    case ValueAsText => DecimalString(value)
    case ScaledValueAsText(scale) => DecimalString(TruncDiv(value, scale))
    case NewLine => "\n"
    case LabelExists(key, labelOps) =>
      match lookup(key)
      case None => ""
      case Some(v) => LabelText(labelOps, key, v)
  }

  /** The texts of the commands, in order. */
  function Rendered(ops: seq<LineOp>, value: ISize, lookup: string -> Option<string>): string
    requires Printable(ops, value)
  {
    if |ops| == 0 then ""
    else
      Rendered(ops[..|ops| - 1], value, lookup) + OpText(ops[|ops| - 1], value, lookup)
  }

  /** The output of a template is the output of its front followed by that of its back. */
  lemma {:induction false} RenderedConcat(a: seq<LineOp>, b: seq<LineOp>, value: ISize, lookup: string -> Option<string>)
    requires Printable(a + b, value)
    ensures Printable(a, value) && Printable(b, value)
    ensures Rendered(a + b, value, lookup) == Rendered(a, value, lookup) + Rendered(b, value, lookup)
    decreases |b|
  {
    PrintableConcat(a, b, value);
    if |b| == 0 {
      assert a + b == a;
    } else {
      var front := b[..|b| - 1];
      assert (a + b)[..|a + b| - 1] == a + front;
      assert (a + b)[|a + b| - 1] == b[|b| - 1];
      PrintableConcat(a, front, value);
      RenderedConcat(a, front, value, lookup);
    }
  }

  /** The parts of a printable template are printable. */
  lemma PrintableConcat(a: seq<LineOp>, b: seq<LineOp>, value: ISize)
    requires Printable(a + b, value)
    ensures Printable(a, value) && Printable(b, value)
  {
    assert forall i :: 0 <= i < |a| ==> (a + b)[i] == a[i];
    assert forall i :: 0 <= i < |b| ==> (a + b)[|a| + i] == b[i];
  }

  /** Commands that name no label. */
  predicate LabelFree(ops: seq<LineOp>)
  {
    forall i :: 0 <= i < |ops| ==> !ops[i].LabelExists?
  }

  /** A template that names no label prints the same whatever the labels. */
  lemma {:induction false} RenderedIgnoresLabels(ops: seq<LineOp>, value: ISize, lookup1: string -> Option<string>, lookup2: string -> Option<string>)
    requires Printable(ops, value) && LabelFree(ops)
    ensures Rendered(ops, value, lookup1) == Rendered(ops, value, lookup2)
  {
    if |ops| > 0 {
      var front := ops[..|ops| - 1];
      assert forall i :: 0 <= i < |front| ==> front[i] == ops[i];
      RenderedIgnoresLabels(front, value, lookup1, lookup2);
    }
  }

  /** A label command writes its label text exactly when its label exists. */
  lemma LabelExistsText(key: string, labelOps: seq<LabelOp>, value: ISize, lookup: string -> Option<string>)
    ensures lookup(key).None? ==> OpText(LabelExists(key, labelOps), value, lookup) == ""
    ensures lookup(key).Some? ==> OpText(LabelExists(key, labelOps), value, lookup) == LabelText(labelOps, key, lookup(key).value)
  {
  }

  /** The front of a printable template is printable, and prints what it printed one command earlier plus that command. */
  lemma RenderedStep(ops: seq<LineOp>, i: nat, value: ISize, lookup: string -> Option<string>)
    requires Printable(ops, value) && i < |ops|
    ensures Printable(ops[..i], value) && Printable(ops[..i + 1], value)
    ensures Rendered(ops[..i + 1], value, lookup) == Rendered(ops[..i], value, lookup) + OpText(ops[i], value, lookup)
  {
    assert ops[..i + 1][..i] == ops[..i];
    assert forall j :: 0 <= j < i + 1 ==> ops[..i + 1][j] == ops[j];
  }

  /** The label commands of a label that exists, run in turn. */
  method PrintLabel(labelOps: seq<LabelOp>, key: string, labelValue: string) returns (out: string)
    ensures out == LabelText(labelOps, key, labelValue)
  {
    out := "";
    for j := 0 to |labelOps|
      invariant out == LabelText(labelOps[..j], key, labelValue)
    {
      assert labelOps[..j + 1][..j] == labelOps[..j];
      out := out + LabelOpText(labelOps[j], key, labelValue);
    }
    assert labelOps[..|labelOps|] == labelOps;
  }

  /** One command of `print`. */
  method PrintOp(op: LineOp, value: ISize, lookup: string -> Option<string>) returns (out: string)
    requires Divides(op, value)
    ensures out == OpText(op, value, lookup)
  {
    match op {
      case Literal(text) =>
        out := text;
      case ValueAsText =>
        out := DecimalString(value);
      case ScaledValueAsText(scale) =>
        var scaled := TruncDiv(value, scale);
        out := DecimalString(scaled);
      case NewLine =>
        out := "\n";
      case LabelExists(key, labelOps) =>
        var found := lookup(key);
        out := "";
        if found.Some? {
          out := PrintLabel(labelOps, key, found.value);
        }
    }
  }

  /**
   * `LineTemplate::print`: runs the commands in turn, writing the text of
   * each, and for a label that exists the text of each of its commands.
   */
  method Print(t: LineTemplate, value: ISize, lookup: string -> Option<string>) returns (out: string)
    requires Printable(t.ops, value)
    ensures out == Rendered(t.ops, value, lookup)
  {
    out := "";
    for i := 0 to |t.ops|
      invariant Printable(t.ops[..i], value)
      invariant out == Rendered(t.ops[..i], value, lookup)
    {
      RenderedStep(t.ops, i, value, lookup);
      var text := PrintOp(t.ops[i], value, lookup);
      out := out + text;
    }
    assert t.ops[..|t.ops|] == t.ops;
  }

  /*
   * Formats
   */

  /** `SimpleFormat::template`: the name joined by ".", a space, the value, a newline. */
  function SimpleTemplate(name: NameParts, kind: InputKind): (t: LineTemplate)
    ensures LabelFree(t.ops) && forall value: ISize :: Printable(t.ops, value)
  {
    LineTemplate([Literal(Join(name, ".") + " "), ValueAsText, NewLine])
  }

  /** Printing one more command prints its text after the others. */
  lemma RenderedSnoc(ops: seq<LineOp>, op: LineOp, value: ISize, lookup: string -> Option<string>)
    requires Printable(ops + [op], value)
    ensures Printable(ops, value) && Divides(op, value)
    ensures Rendered(ops + [op], value, lookup) == Rendered(ops, value, lookup) + OpText(op, value, lookup)
  {
    assert (ops + [op])[..|ops|] == ops;
    assert (ops + [op])[|ops|] == op;
    assert forall i :: 0 <= i < |ops| ==> (ops + [op])[i] == ops[i];
  }

  /** A simple line is the joined name, a space, the value and a newline, whatever the labels and the kind. */
  lemma SimpleLine(name: NameParts, kind: InputKind, value: ISize, lookup: string -> Option<string>)
    ensures Rendered(SimpleTemplate(name, kind).ops, value, lookup) == Join(name, ".") + " " + DecimalString(value) + "\n"
  {
    RenderedThree(SimpleTemplate(name, kind).ops, value, lookup);
  }

  /** A template of three commands prints their texts one after the other. */
  lemma RenderedThree(ops: seq<LineOp>, value: ISize, lookup: string -> Option<string>)
    requires |ops| == 3 && Printable(ops, value)
    ensures Rendered(ops, value, lookup) == OpText(ops[0], value, lookup) + OpText(ops[1], value, lookup) + OpText(ops[2], value, lookup)
  {
    RenderedFirst(ops, value, lookup);
    RenderedStep(ops, 1, value, lookup);
    RenderedStep(ops, 2, value, lookup);
    assert ops[..3] == ops;
  }

  /** The first command alone prints its text. */
  lemma RenderedFirst(ops: seq<LineOp>, value: ISize, lookup: string -> Option<string>)
    requires |ops| >= 1 && Printable(ops, value)
    ensures Printable(ops[..1], value)
    ensures Rendered(ops[..1], value, lookup) == OpText(ops[0], value, lookup)
  {
    RenderedStep(ops, 0, value, lookup);
    assert ops[..0] == [];
    assert "" + OpText(ops[0], value, lookup) == OpText(ops[0], value, lookup);
  }

  /** The test format: the kind, "/", the joined name, the value, the value in thousands, and the `test_key` label as key=value. */
  function TestTemplate(name: NameParts, kind: InputKind): (t: LineTemplate)
    ensures forall value: ISize :: Printable(t.ops, value)
  {
    LineTemplate([
      Literal(KindName(kind) + "/" + Join(name, ".") + " "),
      ValueAsText,
      Literal(" "),
      ScaledValueAsText(1000),
      Literal(" "),
      LabelExists("test_key", [LabelKey, LabelLiteral("="), LabelValue]),
      NewLine])
  }

  /** The key=value text of the test format's label command. */
  function TestLabelText(lookup: string -> Option<string>): string
  {
    match lookup("test_key")
    case None => ""
    case Some(v) => "test_key=" + v
  }

  /** The test template's output: every command but the label is fixed by the value. */
  lemma TestLine(name: NameParts, kind: InputKind, value: ISize, lookup: string -> Option<string>)
    ensures Rendered(TestTemplate(name, kind).ops, value, lookup)
      == KindName(kind) + "/" + Join(name, ".") + " " + DecimalString(value) + " " + DecimalString(TruncDiv(value, 1000)) + " "
         + TestLabelText(lookup) + "\n"
  {
    var ops := TestTemplate(name, kind).ops;
    TestLabelOp(value, lookup);
    RenderedSeven(ops, value, lookup);
  }

  /** The label command of the test format writes key=value when the label exists. */
  lemma TestLabelOp(value: ISize, lookup: string -> Option<string>)
    ensures OpText(LabelExists("test_key", [LabelKey, LabelLiteral("="), LabelValue]), value, lookup) == TestLabelText(lookup)
  {
    var lops := [LabelKey, LabelLiteral("="), LabelValue];
    if lookup("test_key").Some? {
      var v := lookup("test_key").value;
      assert lops[..2][..1] == [lops[0]];
      assert lops[..1][..0] == [];
      assert lops[..2] == lops[..|lops| - 1];
      assert LabelText(lops[..1], "test_key", v) == "test_key";
      assert LabelText(lops[..2], "test_key", v) == "test_key" + "=";
      assert LabelText(lops, "test_key", v) == "test_key" + "=" + v;
      assert "test_key" + "=" == "test_key=";
    }
  }

  /** A template of seven commands prints their texts one after the other. */
  lemma RenderedSeven(ops: seq<LineOp>, value: ISize, lookup: string -> Option<string>)
    requires |ops| == 7 && Printable(ops, value)
    ensures Rendered(ops, value, lookup)
      == OpText(ops[0], value, lookup) + OpText(ops[1], value, lookup) + OpText(ops[2], value, lookup)
         + OpText(ops[3], value, lookup) + OpText(ops[4], value, lookup) + OpText(ops[5], value, lookup)
         + OpText(ops[6], value, lookup)
  {
    RenderedFour(ops, value, lookup);
    RenderedStep(ops, 4, value, lookup);
    RenderedStep(ops, 5, value, lookup);
    RenderedStep(ops, 6, value, lookup);
    assert ops[..7] == ops;
  }

  /** The first four commands of a template print their texts one after the other. */
  lemma RenderedFour(ops: seq<LineOp>, value: ISize, lookup: string -> Option<string>)
    requires |ops| >= 4 && Printable(ops, value)
    ensures Rendered(ops[..4], value, lookup)
      == OpText(ops[0], value, lookup) + OpText(ops[1], value, lookup) + OpText(ops[2], value, lookup)
         + OpText(ops[3], value, lookup)
  {
    RenderedFirst(ops, value, lookup);
    RenderedStep(ops, 1, value, lookup);
    RenderedStep(ops, 2, value, lookup);
    RenderedStep(ops, 3, value, lookup);
  }

  /** `print_label_exists`: with the label `test_key` = 456. */
  method PrintLabelExists() returns (out: string)
    ensures out == "Counter/xyz.abc 123000 123 test_key=456\n"
  {
    var labels := FromMap(map["test_key" := "456"]);
    var context := new Context();
    var thread := context.thread;
    var app := context.app;
    var name := Prepend(FromString("abc"), ["xyz"]);
    var template := TestTemplate(name, Counter);
    var lookup := (key: string) => LookupIn(labels, thread, app, key);
    out := Print(template, 123000, lookup);
    LookupOneScope(labels, thread, app, "test_key");
    TestLine(name, Counter, 123000, lookup);
    TestText(name, TestLabelText(lookup));
    LabelledText();
  }

  /** `print_label_not_exists`: with no label, the label command writes nothing. */
  method PrintLabelNotExists() returns (out: string)
    ensures out == "Counter/xyz.abc 123000 123 \n"
  {
    var name := Prepend(FromString("abc"), ["xyz"]);
    var template := TestTemplate(name, Counter);
    var lookup := (key: string) => None;
    out := Print(template, 123000, lookup);
    TestLine(name, Counter, 123000, lookup);
    TestText(name, TestLabelText(lookup));
    UnlabelledText();
  }

  /** The test line with the label text of `test_key` = 456. */
  lemma LabelledText()
    ensures "Counter/xyz.abc 123000 123 " + ("test_key=" + "456") + "\n" == "Counter/xyz.abc 123000 123 test_key=456\n"
  {
  }

  /** The test line with no label text. */
  lemma UnlabelledText()
    ensures "Counter/xyz.abc 123000 123 " + "" + "\n" == "Counter/xyz.abc 123000 123 \n"
  {
  }

  /** The test line of the value 123000 for the counter `xyz.abc`, around the label text. */
  lemma TestText(name: NameParts, labelText: string)
    requires name == ["xyz"] + FromString("abc")
    ensures KindName(Counter) + "/" + Join(name, ".") + " " + DecimalString(123000) + " " + DecimalString(TruncDiv(123000, 1000)) + " "
      + labelText + "\n" == "Counter/xyz.abc 123000 123 " + labelText + "\n"
  {
    assert name == ["xyz", "abc"];
    TestValues();
    TestHeader();
    TestNumbers();
    LineShape(KindName(Counter) + "/" + Join(name, ".") + " ", DecimalString(123000), DecimalString(TruncDiv(123000, 1000)), labelText);
  }

  /** Regrouping the pieces of a test line. */
  lemma LineShape(header: string, value: string, scaled: string, labelText: string)
    ensures header + value + " " + scaled + " " + labelText + "\n" == (header + value + " " + scaled + " ") + labelText + "\n"
  {
  }

  /** The header of the test line. */
  lemma TestHeader()
    ensures KindName(Counter) + "/" + Join(["xyz", "abc"], ".") + " " == "Counter/xyz.abc "
  {
    TestValues();
  }

  /** The header and the two numbers of the test line. */
  lemma TestNumbers()
    ensures "Counter/xyz.abc " + "123000" + " " + "123" + " " == "Counter/xyz.abc 123000 123 "
  {
  }

  /** The texts of the test value and of its thousands, and the joined test name. */
  lemma TestValues()
    ensures DecimalString(123000) == "123000" && DecimalString(TruncDiv(123000, 1000)) == "123"
    ensures Join(["xyz", "abc"], ".") == "xyz.abc"
  {
    ThousandsText();
    ValueText();
    JoinTwo("xyz", "abc", ".");
  }

  /** The text of 123. */
  lemma ThousandsText()
    ensures NatDigits(123) == "123"
  {
    assert NatDigits(1) == "1";
    assert NatDigits(12) == "12";
  }

  /** The text of 123000. */
  lemma ValueText()
    ensures NatDigits(123000) == "123000"
  {
    ThousandsText();
    assert NatDigits(1230) == "1230";
    assert NatDigits(12300) == "12300";
  }
}
