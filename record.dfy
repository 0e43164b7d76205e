/** The rendering of one decoded bunyan log record into its display text: the
    level label, the extra fields split into an inline group and detail blocks,
    the indentation of detail blocks and the layout of the whole line. */
module Record {
  import opened Text

  type u8 = x: int | 0 <= x < 0x100
  type u32 = x: int | 0 <= x < 0x1_0000_0000

  datatype Option<T> = None | Some(value: T)

  /** A JSON value, as an extra field of a record holds it. */
  datatype Json =
    | JNull
    | JBool(b: bool)
    | JNumber(literal: Bytes)
    | JString(s: Bytes)
    | JArray(items: seq<Json>)
    | JObject(members: seq<(Bytes, Json)>)

  /** The named severities a level code can stand for. */
  datatype NamedLevel = Fatal | Error | Warn | Info | Debug | Trace

  /** The terminal styles the renderer asks for. */
  datatype Style = Reversed | Red | Yellow | Green | Blue | Custom(red: u8, green: u8, blue: u8) | Bold | Cyan

  const GRAY: Style := Custom(128, 128, 128)

  /** Applies a style to a piece of text (ANSI escapes when colour is on). */
  type Paint = (Style, Bytes) -> Bytes

  /** JSON serialisation with a two-space indent, as serde_json's pretty formatter writes it. */
  type Pretty = Json -> Bytes

  /** The conversion of a level code to a named level, where one exists. */
  type LevelTable = u8 -> Option<NamedLevel>

  /** Colour disabled: every style leaves the text as it is. */
  function Plain(style: Style, text: Bytes): Bytes {
    text
  }

  /** A painter that never puts a line feed into text that had none. */
  ghost predicate KeepsLines(paint: Paint) {
    forall style, text :: NL !in text ==> NL !in paint(style, text)
  }

  /** One extra field: its key and its JSON value. */
  type Field = (Bytes, Json)

  /** What the renderer takes from its surroundings. */
  datatype Env = Env(paint: Paint, pretty: Pretty, named: LevelTable)

  /** A decoded record. The timestamp is already rendered as text; hostname,
      name and the format version are carried but not shown. */
  datatype LogRecord = LogRecord(
    v: Option<u8>,
    level: u8,
    name: Option<Bytes>,
    hostname: Option<Bytes>,
    pid: Option<u32>,
    time: Bytes,
    message: Bytes,
    extras: seq<Field>)
  {
    /** The pid shown: 0 when the record has none. */
    function ShownPid(): nat {
      match pid
      case Some(p) => p
      case None => 0
    }

    /** Everything before the extras: `[time] level (pid): message`. */
    function Lead(env: Env): Bytes {
      Lit("[") + time + Lit("] ") + FormatLevel(env.paint, env.named, level)
      + Lit(" (") + Decimal(ShownPid()) + Lit("): ") + env.paint(Cyan, message)
    }

    /** The display text of the record. */
    function Format(env: Env): Bytes {
      Lead(env) + Extras(env.paint, env.pretty, extras)
    }
  }

  // ---------------------------------------------------------------------------
  // Level label

  function LevelStyle(l: NamedLevel): Style {
    match l
    case Fatal => Reversed
    case Error => Red
    case Warn => Yellow
    case Info => Green
    case Debug => Blue
    case Trace => GRAY
  }

  /** The label of a named level, padded to five characters. */
  function LevelLabel(l: NamedLevel): Bytes {
    match l
    case Fatal => Lit("FATAL")
    case Error => Lit("ERROR")
    case Warn => Lit(" WARN")
    case Info => Lit(" INFO")
    case Debug => Lit("DEBUG")
    case Trace => Lit("TRACE")
  }

  /** The label of a level code: the styled name of a named level, else `LVL`
      and the code's digits, unstyled. */
  function FormatLevel(paint: Paint, named: LevelTable, level: u8): Bytes {
    match named(level)
    case Some(l) => paint(LevelStyle(l), LevelLabel(l))
    case None => Lit("LVL") + Decimal(level)
  }

  /** The named level whose label a text is, if any: the reading side of LevelLabel. */
  function LabelLevel(text: Bytes): Option<NamedLevel> {
    if text == Lit("FATAL") then Some(Fatal)
    else if text == Lit("ERROR") then Some(Error)
    else if text == Lit(" WARN") then Some(Warn)
    else if text == Lit(" INFO") then Some(Info)
    else if text == Lit("DEBUG") then Some(Debug)
    else if text == Lit("TRACE") then Some(Trace)
    else None
  }

  /** Every label is five bytes; only Warn and Info are padded with a leading space. */
  lemma LabelShape(l: NamedLevel)
    ensures |LevelLabel(l)| == 5
    ensures LevelLabel(l)[0] == SPACE <==> l == Warn || l == Info
  {
  }

  /** LabelLevel reads back exactly the six labels: a text names l if and only if it is l's label. */
  lemma LabelLevelInverse(text: Bytes, l: NamedLevel)
    ensures LabelLevel(text) == Some(l) <==> text == LevelLabel(l)
  {
    var f, e, w, i, d, t := Lit("FATAL"), Lit("ERROR"), Lit(" WARN"), Lit(" INFO"), Lit("DEBUG"), Lit("TRACE");
    assert f[0] != e[0] && f[0] != w[0] && f[0] != d[0] && f[0] != t[0];
    assert e[0] != w[0] && e[0] != d[0] && e[0] != t[0];
    assert w[1] != i[1] && w[0] != d[0] && w[0] != t[0];
    assert i[0] != d[0] && i[0] != t[0];
    assert d[0] != t[0];
    assert f != i by { assert f[0] != i[0]; }
    assert e != i by { assert e[0] != i[0]; }
  }

  /** A named level is shown as its five-byte label, in that level's style. */
  lemma NamedLevelRendering(paint: Paint, named: LevelTable, level: u8)
    requires named(level).Some?
    ensures var text := FormatLevel(Plain, named, level);
      && |text| == 5
      && LabelLevel(text) == named(level)
      && FormatLevel(paint, named, level) == paint(LevelStyle(named(level).value), text)
  {
    var l := named(level).value;
    LabelShape(l);
    LabelLevelInverse(LevelLabel(l), l);
  }

  /** A code with no named level is shown unstyled as `LVL` and its decimal
      digits, and is never mistaken for a named label. */
  lemma UnknownLevelRendering(paint: Paint, named: LevelTable, level: u8)
    requires named(level) == None
    ensures var text := FormatLevel(paint, named, level);
      && text == FormatLevel(Plain, named, level)
      && 4 <= |text| && text[..3] == Lit("LVL")
      && text[3..] == Decimal(level)
      && (text[3] == ZERO <==> level == 0)
      && (forall i | 3 <= i < |text| :: IsDigit(text[i]))
      && DigitsValue(text[3..]) == level
      && LabelLevel(text) == None
  {
    var text := FormatLevel(paint, named, level);
    assert text[3..] == Decimal(level);
    DecimalRoundTrip(level);
    DecimalNoLeadingZero(level);
    assert text[0] == 76;
    forall l: NamedLevel ensures text != LevelLabel(l) {
      assert LevelLabel(l)[0] != 76;
    }
    if LabelLevel(text).Some? {
      LabelLevelInverse(text, LabelLevel(text).value);
    }
  }

  // ---------------------------------------------------------------------------
  // Extra fields

  const MAX_INLINE := 50

  const FOUR: Bytes := Lit("    ")

  const DETAIL_SEPARATOR: Bytes := Lit("\n    --\n")

  function Quoted(s: Bytes): Bytes {
    [QUOTE] + s + [QUOTE]
  }

  /** The text of a value: a string as it is, or quoted when it is empty or
      holds a space; any other value pretty-printed. */
  function Stringify(pretty: Pretty, value: Json): Bytes {
    match value
    case JString(s) => if SPACE in s || |s| == 0 then Quoted(s) else s
    case _ => pretty(value)
  }

  /** Whether a value's text goes to a detail block rather than the inline group. */
  predicate IsDetail(text: Bytes) {
    NL in text || |text| > MAX_INLINE
  }

  function InlineEntry(paint: Paint, key: Bytes, text: Bytes): Bytes {
    paint(Bold, key) + Lit("=") + text
  }

  /** Every line prefixed with four spaces; an empty text gives four spaces. */
  function Indent(s: Bytes): Bytes {
    FOUR + Join([NL] + FOUR, Lines(s))
  }

  /** A detail block shows a string value raw, never quoted, and any other value by its text. */
  function DetailBlock(paint: Paint, key: Bytes, value: Json, text: Bytes): Bytes {
    Indent(paint(Bold, key) + Lit(": ") + (if value.JString? then value.s else text))
  }

  /** What one field adds to the inline group. */
  function InlineOf(paint: Paint, pretty: Pretty, f: Field): seq<Bytes> {
    var text := Stringify(pretty, f.1);
    if IsDetail(text) then [] else [InlineEntry(paint, f.0, text)]
  }

  /** What one field adds to the detail blocks. */
  function DetailOf(paint: Paint, pretty: Pretty, f: Field): seq<Bytes> {
    var text := Stringify(pretty, f.1);
    if IsDetail(text) then [DetailBlock(paint, f.0, f.1, text)] else []
  }

  /** What the fields contribute, one after the other, in field order. */
  function Collect(part: Field -> seq<Bytes>, fields: seq<Field>): seq<Bytes>
    decreases |fields|
  {
    if |fields| == 0 then [] else part(fields[0]) + Collect(part, fields[1..])
  }

  /** Collecting over a concatenation concatenates what the two parts collect. */
  lemma {:induction false} CollectAppend(part: Field -> seq<Bytes>, a: seq<Field>, b: seq<Field>)
    ensures Collect(part, a + b) == Collect(part, a) + Collect(part, b)
    decreases |a|
  {
    if |a| == 0 {
      assert a + b == b;
    } else {
      assert (a + b)[0] == a[0];
      assert (a + b)[1..] == a[1..] + b;
      CollectAppend(part, a[1..], b);
    }
  }

  /** The inline entries of the fields, in field order. */
  function InlineEntries(paint: Paint, pretty: Pretty, fields: seq<Field>): seq<Bytes> {
    Collect(f => InlineOf(paint, pretty, f), fields)
  }

  /** The detail blocks of the fields, in field order. */
  function DetailBlocks(paint: Paint, pretty: Pretty, fields: seq<Field>): seq<Bytes> {
    Collect(f => DetailOf(paint, pretty, f), fields)
  }

  function InlineGroup(entries: seq<Bytes>): Bytes {
    if |entries| == 0 then [] else Lit(" (") + Join(Lit(","), entries) + Lit(")")
  }

  function DetailGroup(blocks: seq<Bytes>): Bytes {
    if |blocks| == 0 then [] else Join(DETAIL_SEPARATOR, blocks) + [NL]
  }

  /** The text that follows the message: the inline group, a line feed, then the detail blocks. */
  function Extras(paint: Paint, pretty: Pretty, fields: seq<Field>): Bytes {
    InlineGroup(InlineEntries(paint, pretty, fields)) + [NL] + DetailGroup(DetailBlocks(paint, pretty, fields))
  }

  /** Renders the extra fields in one pass, collecting inline entries and detail
      blocks in two accumulators. */
  method FormatExtras(paint: Paint, pretty: Pretty, extraFields: seq<Field>) returns (r: Bytes)
    ensures r == Extras(paint, pretty, extraFields)
  {
    var details: seq<Bytes> := [];
    var extras: seq<Bytes> := [];
    for i := 0 to |extraFields|
      invariant details == DetailBlocks(paint, pretty, extraFields[..i])
      invariant extras == InlineEntries(paint, pretty, extraFields[..i])
    {
      var (key, value) := extraFields[i];
      var stringified := Stringify(pretty, value);
      if NL in stringified || |stringified| > MAX_INLINE {
        if value.JString? {
          details := details + [Indent(paint(Bold, key) + Lit(": ") + value.s)];
        } else {
          details := details + [Indent(paint(Bold, key) + Lit(": ") + stringified)];
        }
      } else {
        extras := extras + [paint(Bold, key) + Lit("=") + stringified];
      }
      RoutingAppend(paint, pretty, extraFields[..i], [extraFields[i]]);
      RoutingSingle(paint, pretty, extraFields[i]);
      assert extraFields[..i + 1] == extraFields[..i] + [extraFields[i]];
    }
    assert extraFields[..|extraFields|] == extraFields;
    var formattedDetails := if |details| > 0 then Join(DETAIL_SEPARATOR, details) + [NL] else [];
    var formattedExtras := if |extras| > 0 then Lit(" (") + Join(Lit(","), extras) + Lit(")") else [];
    r := formattedExtras + [NL] + formattedDetails;
  }

  /** Quotes are added to a string exactly when it is empty or holds a space;
      other values always go through the pretty serialiser. */
  lemma StringifyQuoting(pretty: Pretty, value: Json)
    ensures value.JString? ==>
      && (Stringify(pretty, value) == Quoted(value.s) <==> SPACE in value.s || value.s == [])
      && (Stringify(pretty, value) == value.s <==> !(SPACE in value.s || value.s == []))
    ensures !value.JString? ==> Stringify(pretty, value) == pretty(value)
  {
  }

  /** Every field lands in exactly one of the two groups, and in the detail
      blocks exactly when its text holds a line feed or is over fifty bytes. */
  lemma RouteOne(paint: Paint, pretty: Pretty, f: Field)
    ensures |InlineOf(paint, pretty, f)| + |DetailOf(paint, pretty, f)| == 1
    ensures var text := Stringify(pretty, f.1);
      DetailOf(paint, pretty, f) != [] <==> NL in text || |text| > 50
  {
  }

  /** A one-field map routes as its field does. */
  lemma RoutingSingle(paint: Paint, pretty: Pretty, f: Field)
    ensures InlineEntries(paint, pretty, [f]) == InlineOf(paint, pretty, f)
    ensures DetailBlocks(paint, pretty, [f]) == DetailOf(paint, pretty, f)
  {
    assert [f][1..] == [];
    assert InlineEntries(paint, pretty, [f]) == InlineOf(paint, pretty, f) + InlineEntries(paint, pretty, []);
    assert DetailBlocks(paint, pretty, [f]) == DetailOf(paint, pretty, f) + DetailBlocks(paint, pretty, []);
  }

  /** Routing keeps order: the groups of a concatenation are the concatenations of the groups. */
  lemma RoutingAppend(paint: Paint, pretty: Pretty, a: seq<Field>, b: seq<Field>)
    ensures InlineEntries(paint, pretty, a + b) == InlineEntries(paint, pretty, a) + InlineEntries(paint, pretty, b)
    ensures DetailBlocks(paint, pretty, a + b) == DetailBlocks(paint, pretty, a) + DetailBlocks(paint, pretty, b)
  {
    CollectAppend(f => InlineOf(paint, pretty, f), a, b);
    CollectAppend(f => DetailOf(paint, pretty, f), a, b);
  }

  /** No field is dropped or duplicated: the two groups together have one element per field. */
  lemma {:induction false} RoutingCount(paint: Paint, pretty: Pretty, fields: seq<Field>)
    ensures |InlineEntries(paint, pretty, fields)| + |DetailBlocks(paint, pretty, fields)| == |fields|
    decreases |fields|
  {
    if |fields| > 0 {
      RouteOne(paint, pretty, fields[0]);
      RoutingCount(paint, pretty, fields[1..]);
      assert InlineEntries(paint, pretty, fields) == InlineOf(paint, pretty, fields[0]) + InlineEntries(paint, pretty, fields[1..]);
      assert DetailBlocks(paint, pretty, fields) == DetailOf(paint, pretty, fields[0]) + DetailBlocks(paint, pretty, fields[1..]);
    }
  }

  /** Field i sits in its group right after the entries of the fields before it. */
  lemma RoutingPosition(paint: Paint, pretty: Pretty, fields: seq<Field>, i: nat)
    requires i < |fields|
    ensures var text := Stringify(pretty, fields[i].1);
      if IsDetail(text) then
        var k := |DetailBlocks(paint, pretty, fields[..i])|;
        k < |DetailBlocks(paint, pretty, fields)|
        && DetailBlocks(paint, pretty, fields)[k] == DetailBlock(paint, fields[i].0, fields[i].1, text)
      else
        var k := |InlineEntries(paint, pretty, fields[..i])|;
        k < |InlineEntries(paint, pretty, fields)|
        && InlineEntries(paint, pretty, fields)[k] == InlineEntry(paint, fields[i].0, text)
  {
    var before, here, after := fields[..i], [fields[i]], fields[i + 1..];
    assert fields == before + here + after;
    RoutingAppend(paint, pretty, before + here, after);
    RoutingAppend(paint, pretty, before, here);
    assert here[1..] == [];
  }

  /** A string without line feeds is inline exactly when its shown length,
      quotes included, is at most fifty bytes. */
  lemma StringRouting(paint: Paint, pretty: Pretty, key: Bytes, s: Bytes)
    requires NL !in s
    ensures var shown := |s| + if SPACE in s || s == [] then 2 else 0;
      InlineOf(paint, pretty, (key, JString(s))) != [] <==> shown <= MAX_INLINE
  {
    if SPACE in s || s == [] {
      assert NL !in Quoted(s);
    }
  }

  /** A detail block shows a string raw, without the quotes of its text. */
  lemma DetailUsesRawString(paint: Paint, pretty: Pretty, key: Bytes, s: Bytes)
    requires IsDetail(Stringify(pretty, JString(s)))
    ensures DetailOf(paint, pretty, (key, JString(s))) == [Indent(paint(Bold, key) + Lit(": ") + s)]
    ensures InlineOf(paint, pretty, (key, JString(s))) == []
  {
  }

  /** Boundary: a fifty-byte string without spaces or line feeds is inline, unquoted. */
  lemma FiftyIsInline(paint: Paint, pretty: Pretty, key: Bytes, s: Bytes)
    requires |s| == 50 && SPACE !in s && NL !in s
    ensures InlineOf(paint, pretty, (key, JString(s))) == [paint(Bold, key) + Lit("=") + s]
    ensures DetailOf(paint, pretty, (key, JString(s))) == []
  {
  }

  /** Boundary: a fifty-one-byte string without spaces is a detail. */
  lemma FiftyOneIsDetail(paint: Paint, pretty: Pretty, key: Bytes, s: Bytes)
    requires |s| == 51 && SPACE !in s
    ensures DetailOf(paint, pretty, (key, JString(s))) == [Indent(paint(Bold, key) + Lit(": ") + s)]
    ensures InlineOf(paint, pretty, (key, JString(s))) == []
  {
  }

  /** A forty-nine-byte string with a space is fifty-one bytes once quoted, so it is a detail, shown raw. */
  lemma QuotedFortyNineIsDetail(paint: Paint, pretty: Pretty, key: Bytes, s: Bytes)
    requires |s| == 49 && SPACE in s
    ensures |Stringify(pretty, JString(s))| == 51
    ensures DetailOf(paint, pretty, (key, JString(s))) == [Indent(paint(Bold, key) + Lit(": ") + s)]
  {
  }

  /** No extra fields leave a single line feed. */
  lemma ExtrasEmpty(paint: Paint, pretty: Pretty)
    ensures Extras(paint, pretty, []) == [NL]
  {
  }

  /** A single short field gives ` (key=text)` and the line feed. */
  lemma ExtrasSingleInline(paint: Paint, pretty: Pretty, f: Field)
    requires !IsDetail(Stringify(pretty, f.1))
    ensures Extras(paint, pretty, [f]) == Lit(" (") + paint(Bold, f.0) + Lit("=") + Stringify(pretty, f.1) + Lit(")") + [NL]
  {
    RoutingSingle(paint, pretty, f);
    var entry := InlineEntry(paint, f.0, Stringify(pretty, f.1));
    assert Join(Lit(","), [entry]) == entry;
  }

  /** A single long or multi-line field gives a line feed, its block and a final line feed. */
  lemma ExtrasSingleDetail(paint: Paint, pretty: Pretty, f: Field)
    requires IsDetail(Stringify(pretty, f.1))
    ensures Extras(paint, pretty, [f]) == [NL] + DetailBlock(paint, f.0, f.1, Stringify(pretty, f.1)) + [NL]
  {
    RoutingSingle(paint, pretty, f);
    var block := DetailBlock(paint, f.0, f.1, Stringify(pretty, f.1));
    assert Join(DETAIL_SEPARATOR, [block]) == block;
  }

  /** The extra field `"count": 5` is shown as ` (count=5)` when colour is off. */
  lemma CountExample(pretty: Pretty)
    requires pretty(JNumber(Lit("5"))) == Lit("5")
    ensures Extras(Plain, pretty, [(Lit("count"), JNumber(Lit("5")))])
            == Lit(" (") + Lit("count") + Lit("=") + Lit("5") + Lit(")") + Lit("\n")
  {
    var f := (Lit("count"), JNumber(Lit("5")));
    assert |Lit("5")| == 1 && NL !in Lit("5");
    ExtrasSingleInline(Plain, pretty, f);
    assert [NL] == Lit("\n");
  }

  // ---------------------------------------------------------------------------
  // Line structure

  /** A line that starts with four spaces. */
  predicate Indented(line: Bytes) {
    4 <= |line| && line[..4] == FOUR
  }

  /** Every line between the first and the last starts with four spaces. */
  predicate MiddleIndented(lines: seq<Bytes>) {
    forall j | 1 <= j < |lines| - 1 :: Indented(lines[j])
  }

  /** Every line of text, cut at line feeds, starts with four spaces. */
  predicate AllIndented(text: Bytes) {
    forall j | 0 <= j < |Split(text, NL)| :: Indented(Split(text, NL)[j])
  }

  /** Indent keeps the lines of its input, each with four spaces in front; an
      input with no lines becomes the one line of four spaces. */
  lemma IndentLines(s: Bytes)
    ensures Split(Indent(s), NL) == if Lines(s) == [] then [FOUR] else Prefixed(FOUR, Lines(s))
    ensures |Split(Indent(s), NL)| == if Lines(s) == [] then 1 else |Lines(s)|
    ensures AllIndented(Indent(s))
  {
    var lines := Lines(s);
    assert NL !in FOUR;
    if lines == [] {
      assert Indent(s) == FOUR;
      SplitWithout(FOUR, NL);
    } else {
      JoinPrefixed(FOUR, NL, lines);
      var prefixed := Prefixed(FOUR, lines);
      forall i | 0 <= i < |prefixed| ensures NL !in prefixed[i] && Indented(prefixed[i]) {
        assert prefixed[i] == FOUR + lines[i];
        assert (FOUR + lines[i])[..4] == FOUR;
      }
      SplitJoin(prefixed, NL);
    }
  }

  /** Every block is indented text, so every line between the blocks' separators is too. */
  lemma {:induction false} DetailJoinLines(blocks: seq<Bytes>)
    requires 1 <= |blocks|
    requires forall i | 0 <= i < |blocks| :: AllIndented(blocks[i])
    ensures AllIndented(Join(DETAIL_SEPARATOR, blocks))
    decreases |blocks|
  {
    if |blocks| > 1 {
      var rest := Join(DETAIL_SEPARATOR, blocks[1..]);
      DetailJoinLines(blocks[1..]);
      var mid := Lit("    --");
      assert DETAIL_SEPARATOR == [NL] + mid + [NL];
      assert Join(DETAIL_SEPARATOR, blocks) == blocks[0] + [NL] + (mid + [NL] + rest);
      SplitAt(blocks[0], NL, mid + [NL] + rest);
      SplitAt(mid, NL, rest);
      assert NL !in mid;
      SplitWithout(mid, NL);
      assert Indented(mid);
    }
  }

  /** Every detail block is indented text. */
  lemma {:induction false} DetailBlocksIndented(paint: Paint, pretty: Pretty, fields: seq<Field>)
    ensures forall i | 0 <= i < |DetailBlocks(paint, pretty, fields)| :: AllIndented(DetailBlocks(paint, pretty, fields)[i])
    decreases |fields|
  {
    if |fields| > 0 {
      DetailBlocksIndented(paint, pretty, fields[1..]);
      var f := fields[0];
      assert DetailBlocks(paint, pretty, fields) == DetailOf(paint, pretty, f) + DetailBlocks(paint, pretty, fields[1..]);
      var text := Stringify(pretty, f.1);
      if IsDetail(text) {
        IndentLines(paint(Bold, f.0) + Lit(": ") + (if f.1.JString? then f.1.s else text));
      }
    }
  }

  /** With keys and styling free of line feeds, the inline group stays on one line. */
  lemma {:induction false} InlineEntriesOneLine(paint: Paint, pretty: Pretty, fields: seq<Field>)
    requires KeepsLines(paint)
    requires forall i | 0 <= i < |fields| :: NL !in fields[i].0
    ensures forall i | 0 <= i < |InlineEntries(paint, pretty, fields)| :: NL !in InlineEntries(paint, pretty, fields)[i]
    decreases |fields|
  {
    if |fields| > 0 {
      InlineEntriesOneLine(paint, pretty, fields[1..]);
      var f := fields[0];
      assert InlineEntries(paint, pretty, fields) == InlineOf(paint, pretty, f) + InlineEntries(paint, pretty, fields[1..]);
      var text := Stringify(pretty, f.1);
      if !IsDetail(text) {
        assert NL !in paint(Bold, f.0);
        PiecesOneLine();
      }
    }
  }

  /** The fixed pieces of the rendering hold no line feed. */
  lemma PiecesOneLine()
    ensures NL !in Lit("=") && NL !in Lit(",") && NL !in Lit(" (") && NL !in Lit(")")
    ensures NL !in Lit("[") && NL !in Lit("] ") && NL !in Lit("): ") && NL !in Lit("LVL")
    ensures forall l: NamedLevel :: NL !in LevelLabel(l)
  {
    forall l: NamedLevel ensures NL !in LevelLabel(l) {
      LabelShape(l);
    }
  }

  /** With keys and styling free of line feeds, the inline group is free of them too. */
  lemma InlineGroupOneLine(paint: Paint, pretty: Pretty, fields: seq<Field>)
    requires KeepsLines(paint)
    requires forall i | 0 <= i < |fields| :: NL !in fields[i].0
    ensures NL !in InlineGroup(InlineEntries(paint, pretty, fields))
  {
    var entries := InlineEntries(paint, pretty, fields);
    InlineEntriesOneLine(paint, pretty, fields);
    PiecesOneLine();
    if |entries| > 0 {
      JoinAvoids(Lit(","), entries, NL);
    }
  }

  /** The detail group is indented lines ended by a line feed (or is empty). */
  lemma DetailGroupLines(paint: Paint, pretty: Pretty, fields: seq<Field>)
    ensures var lines := Split(DetailGroup(DetailBlocks(paint, pretty, fields)), NL);
      && lines[|lines| - 1] == []
      && forall j | 0 <= j < |lines| - 1 :: Indented(lines[j])
  {
    var blocks := DetailBlocks(paint, pretty, fields);
    if |blocks| > 0 {
      var joined := Join(DETAIL_SEPARATOR, blocks);
      assert DetailGroup(blocks) == joined + [NL] + [];
      SplitAt(joined, NL, []);
      DetailBlocksIndented(paint, pretty, fields);
      DetailJoinLines(blocks);
    }
  }

  /** The lines of the extras text: the inline group stays on the message's
      line, every line of the detail blocks is indented by four spaces, and
      the text ends with a line feed. */
  lemma ExtrasLines(paint: Paint, pretty: Pretty, fields: seq<Field>)
    requires KeepsLines(paint)
    requires forall i | 0 <= i < |fields| :: NL !in fields[i].0
    ensures var lines := Split(Extras(paint, pretty, fields), NL);
      && 2 <= |lines|
      && lines[0] == InlineGroup(InlineEntries(paint, pretty, fields))
      && lines[|lines| - 1] == []
      && MiddleIndented(lines)
  {
    var inline := InlineGroup(InlineEntries(paint, pretty, fields));
    var detail := DetailGroup(DetailBlocks(paint, pretty, fields));
    InlineGroupOneLine(paint, pretty, fields);
    DetailGroupLines(paint, pretty, fields);
    SplitAt(inline, NL, detail);
    SplitWithout(inline, NL);
    assert Split(Extras(paint, pretty, fields), NL) == [inline] + Split(detail, NL);
  }

  // ---------------------------------------------------------------------------
  // The whole record

  /** A record without a pid is shown with pid 0. */
  lemma PidDefaultsToZero(env: Env, rec: LogRecord)
    requires rec.pid == None
    ensures rec.Format(env) == rec.(pid := Some(0)).Format(env)
    ensures rec.ShownPid() == 0
  {
  }

  /** With colour off, the fields of the record can be read back from fixed
      positions of the text before the extras, whatever the level code: the
      level text is followed by the pid's decimal digits and the message. */
  lemma HeaderReadBack(pretty: Pretty, named: LevelTable, rec: LogRecord)
    ensures var lead := rec.Lead(Env(Plain, pretty, named));
      var t := |rec.time|;
      var n := |FormatLevel(Plain, named, rec.level)|;
      var d := |Decimal(rec.ShownPid())|;
      && |lead| == t + n + d + 8 + |rec.message|
      && lead[..1] == Lit("[") && lead[1..t + 1] == rec.time && lead[t + 1..t + 3] == Lit("] ")
      && lead[t + 3..t + 3 + n] == FormatLevel(Plain, named, rec.level)
      && lead[t + 3 + n..t + 5 + n] == Lit(" (")
      && lead[t + 5 + n..t + 5 + n + d] == Decimal(rec.ShownPid())
      && (forall k | t + 5 + n <= k < t + 5 + n + d :: IsDigit(lead[k]))
      && DigitsValue(lead[t + 5 + n..t + 5 + n + d]) == rec.ShownPid()
      && lead[t + 5 + n + d..t + 8 + n + d] == Lit("): ")
      && lead[t + 8 + n + d..] == rec.message
  {
    var digits := Decimal(rec.ShownPid());
    var lead := rec.Lead(Env(Plain, pretty, named));
    var t, n, d := |rec.time|, |FormatLevel(Plain, named, rec.level)|, |digits|;
    var shownLevel := FormatLevel(Plain, named, rec.level);
    if named(rec.level).Some? {
      assert shownLevel == LevelLabel(named(rec.level).value);
    } else {
      assert shownLevel == Lit("LVL") + Decimal(rec.level);
    }
    HeaderPieces(lead, rec.time, shownLevel, digits, rec.message);
    DecimalRoundTrip(rec.ShownPid());
  }

  /** With colour off, the level text of the header reads back: five bytes
      naming the level when the code has a name, else `LVL` and the code's
      decimal digits. */
  lemma HeaderLevelReadBack(pretty: Pretty, named: LevelTable, rec: LogRecord)
    ensures var lead := rec.Lead(Env(Plain, pretty, named));
      var t := |rec.time|;
      var n := |FormatLevel(Plain, named, rec.level)|;
      && t + 3 + n <= |lead|
      && (named(rec.level).Some? ==> n == 5 && LabelLevel(lead[t + 3..t + 3 + n]) == named(rec.level))
      && (named(rec.level).None? ==>
            && 4 <= n
            && lead[t + 3..t + 6] == Lit("LVL") && lead[t + 6..t + 3 + n] == Decimal(rec.level)
            && DigitsValue(lead[t + 6..t + 3 + n]) == rec.level)
  {
    var lead := rec.Lead(Env(Plain, pretty, named));
    var t, n := |rec.time|, |FormatLevel(Plain, named, rec.level)|;
    HeaderReadBack(pretty, named, rec);
    if named(rec.level).Some? {
      NamedLevelRendering(Plain, named, rec.level);
    } else {
      UnknownLevelRendering(Plain, named, rec.level);
      SliceOfSlice(lead, t + 3, t + 3 + n, 0, 3);
      SliceOfSlice(lead, t + 3, t + 3 + n, 3, n);
    }
  }

  /** Where the pieces of a header sit in it. */
  lemma HeaderPieces(lead: Bytes, time: Bytes, level: Bytes, digits: Bytes, message: Bytes)
    requires lead == Lit("[") + time + Lit("] ") + level + Lit(" (") + digits + Lit("): ") + message
    ensures var t, n, d := |time|, |level|, |digits|;
      (forall k | 0 <= k < d :: IsDigit(digits[k])) ==> forall k | t + 5 + n <= k < t + 5 + n + d :: IsDigit(lead[k])
    ensures var t, n, d := |time|, |level|, |digits|;
      && |lead| == t + n + d + 8 + |message|
      && lead[..1] == Lit("[") && lead[1..t + 1] == time && lead[t + 1..t + 3] == Lit("] ")
      && lead[t + 3..t + 3 + n] == level
      && lead[t + 3 + n..t + 5 + n] == Lit(" (")
      && lead[t + 5 + n..t + 5 + n + d] == digits
      && lead[t + 5 + n + d..t + 8 + n + d] == Lit("): ")
      && lead[t + 8 + n + d..] == message
  {
    var open, close, paren, colon := Lit("["), Lit("] "), Lit(" ("), Lit("): ");
    assert |open| == 1 && |close| == 2 && |paren| == 2 && |colon| == 3;
    Pieces(open, time, close, level, paren, digits, colon, message);
    var t, n, d := |time|, |level|, |digits|;
    forall k | t + 5 + n <= k < t + 5 + n + d
      ensures lead[k] == digits[k - (t + 5 + n)]
    {
      assert lead[t + 5 + n..t + 5 + n + d][k - (t + 5 + n)] == lead[k];
    }
  }

  /** A slice of a slice is a slice of the whole. */
  lemma SliceOfSlice(s: Bytes, i: nat, j: nat, a: nat, b: nat)
    requires i <= j <= |s| && a <= b <= j - i
    ensures s[i..j][a..b] == s[i + a..i + b]
  {
    forall k | 0 <= k < b - a
      ensures s[i..j][a..b][k] == s[i + a..i + b][k]
    {
      assert s[i..j][a..b][k] == s[i..j][a + k] == s[i + a + k];
    }
  }

  /** Where each piece of an eight-piece concatenation sits. */
  lemma Pieces(a: Bytes, b: Bytes, c: Bytes, d: Bytes, e: Bytes, f: Bytes, g: Bytes, h: Bytes)
    ensures var out := a + b + c + d + e + f + g + h;
      var n1 := |a|;
      var n2 := n1 + |b|;
      var n3 := n2 + |c|;
      var n4 := n3 + |d|;
      var n5 := n4 + |e|;
      var n6 := n5 + |f|;
      var n7 := n6 + |g|;
      && |out| == n7 + |h|
      && out[..n1] == a && out[n1..n2] == b && out[n2..n3] == c && out[n3..n4] == d
      && out[n4..n5] == e && out[n5..n6] == f && out[n6..n7] == g && out[n7..] == h
  {
    var p7 := a + b + c + d + e + f + g;
    var p6 := a + b + c + d + e + f;
    var p5 := a + b + c + d + e;
    var p4 := a + b + c + d;
    var p3 := a + b + c;
    var p2 := a + b;
    var out := p7 + h;
    assert out[..|p7|] == p7 && out[|p7|..] == h;
    assert p7[..|p6|] == p6 && p6[..|p5|] == p5;
    assert p5[..|p4|] == p4 && p4[..|p3|] == p3 && p3[..|p2|] == p2;
    assert p2[..|a|] == a && p2[|a|..] == b && p3[|p2|..] == c && p4[|p3|..] == d;
    assert p5[|p4|..] == e && p6[|p5|..] == f && p7[|p6|..] == g;
    assert out[..|p2|] == p2 && out[..|p3|] == p3 && out[..|p4|] == p4;
    assert out[..|p5|] == p5 && out[..|p6|] == p6;
  }

  /** With styling, timestamp and message free of line feeds, so is everything before the extras. */
  lemma LeadOneLine(env: Env, rec: LogRecord)
    requires KeepsLines(env.paint)
    requires NL !in rec.time && NL !in rec.message
    ensures NL !in rec.Lead(env)
  {
    PiecesOneLine();
    var level := FormatLevel(env.paint, env.named, rec.level);
    if env.named(rec.level).Some? {
      var l := env.named(rec.level).value;
      assert NL !in env.paint(LevelStyle(l), LevelLabel(l));
    } else {
      assert NL !in Decimal(rec.level);
    }
    assert NL !in level;
    assert NL !in Decimal(rec.ShownPid());
    assert NL !in env.paint(Cyan, rec.message);
  }

  /** The line shape of a record follows from that of its header and of its
      extras, whatever makes those hold. */
  lemma LinesOfParts(env: Env, rec: LogRecord)
    requires NL !in rec.Lead(env)
    requires NL !in InlineGroup(InlineEntries(env.paint, env.pretty, rec.extras))
    requires var lines := Split(Extras(env.paint, env.pretty, rec.extras), NL);
      && 2 <= |lines|
      && lines[0] == InlineGroup(InlineEntries(env.paint, env.pretty, rec.extras))
      && lines[|lines| - 1] == []
      && MiddleIndented(lines)
    ensures var lines := Split(rec.Format(env), NL);
      && 2 <= |lines|
      && lines[0] == rec.Lead(env) + InlineGroup(InlineEntries(env.paint, env.pretty, rec.extras))
      && NL !in lines[0]
      && lines[|lines| - 1] == []
      && MiddleIndented(lines)
  {
    var lead, tail := rec.Lead(env), Extras(env.paint, env.pretty, rec.extras);
    var group := InlineGroup(InlineEntries(env.paint, env.pretty, rec.extras));
    LeadLines(rec.Format(env), lead, tail, group);
  }

  /** The lines of a rendered record: the first holds the timestamp, level,
      pid, message and inline group; the detail blocks follow, indented; and
      the text ends with a line feed. */
  lemma RecordLines(env: Env, rec: LogRecord)
    requires KeepsLines(env.paint)
    requires NL !in rec.time && NL !in rec.message
    requires forall i | 0 <= i < |rec.extras| :: NL !in rec.extras[i].0
    ensures var lines := Split(rec.Format(env), NL);
      && 2 <= |lines|
      && lines[0] == rec.Lead(env) + InlineGroup(InlineEntries(env.paint, env.pretty, rec.extras))
      && NL !in lines[0]
      && lines[|lines| - 1] == []
      && MiddleIndented(lines)
  {
    var paint, pretty, fields := env.paint, env.pretty, rec.extras;
    LeadOneLine(env, rec);
    InlineGroupOneLine(paint, pretty, fields);
    ExtrasLines(paint, pretty, fields);
    LinesOfParts(env, rec);
  }

  /** A one-line lead in front of text keeps the line structure of that text,
      its first line extended by the lead. */
  lemma LeadLines(text: Bytes, lead: Bytes, tail: Bytes, first: Bytes)
    requires text == lead + tail
    requires NL !in lead && NL !in first
    requires var lines := Split(tail, NL);
      && 2 <= |lines| && lines[0] == first && lines[|lines| - 1] == []
      && MiddleIndented(lines)
    ensures var lines := Split(text, NL);
      && 2 <= |lines|
      && lines[0] == lead + first
      && NL !in lines[0]
      && lines[|lines| - 1] == []
      && MiddleIndented(lines)
  {
    SplitPrefixPieces(lead, NL, tail);
    SameLaterLines(Split(lead + tail, NL), Split(tail, NL));
  }

  /** Two lists of lines that agree after the first have the same later lines. */
  lemma SameLaterLines(lines: seq<Bytes>, after: seq<Bytes>)
    requires 2 <= |after| && after[|after| - 1] == [] && MiddleIndented(after)
    requires |lines| == |after| && forall j | 1 <= j < |after| :: lines[j] == after[j]
    ensures lines[|lines| - 1] == [] && MiddleIndented(lines)
  {
  }

  /** The record {"v":0,"level":30,"name":"myservice","hostname":"example.com",
      "pid":123,"time":"2012-02-08T22:56:52.856Z","msg":"My message"}, shown
      without colour in the UTC zone, where code 30 is Info: the pieces of the
      format string with the record's values in their places. */
  lemma FormattingExample(pretty: Pretty, named: LevelTable)
    requires named(30) == Some(Info)
    ensures LogRecord(Some(0), 30, Some(Lit("myservice")), Some(Lit("example.com")), Some(123),
                      Lit("2012-02-08T22:56:52.856Z"), Lit("My message"), []).Format(Env(Plain, pretty, named))
            == Lit("[") + Lit("2012-02-08T22:56:52.856Z") + Lit("] ") + Lit(" INFO") + Lit(" (") + Lit("123")
               + Lit("): ") + Lit("My message") + Lit("\n")
  {
    assert Decimal(1) == Lit("1");
    assert Decimal(12) == Lit("12");
    assert Decimal(123) == Lit("123");
    ExtrasEmpty(Plain, pretty);
    assert [NL] == Lit("\n");
  }
}
