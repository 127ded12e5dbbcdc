/** The line classifier of `toml_lines.go`, its index searches, and the fact the editor relies on:
    a line the editor renders is read back as exactly what was rendered. */
module TomlLines {
  import opened Text

  /** What a line was recognised as; the fields are those of `parsedLine` that the kind carries. */
  datatype Shape =
    | Blank
    | Comment
    | Header(name: string)
    | KeyValue(key: string, value: string, comment: string)
    | Other

  datatype ParsedLine = ParsedLine(raw: string, shape: Shape)

  // ---------------------------------------------------------------- inline comments

  /** Reading state of `splitInlineComment`. */
  datatype Scan = Scan(inQuote: bool, escaped: bool)

  const START := Scan(false, false)

  function Next(st: Scan, c: char): Scan {
    if st.escaped then Scan(st.inQuote, false)
    else if c == '\\' && st.inQuote then Scan(st.inQuote, true)
    else if c == '"' then Scan(!st.inQuote, false)
    else st
  }

  /** A '#' read in state `st` starts a comment. */
  predicate StartsComment(st: Scan, c: char) {
    !st.escaped && !st.inQuote && c == '#'
  }

  /** Offset of the first '#' outside quotes, or `|s|`. */
  function CommentAt(s: string, st: Scan): (i: nat)
    ensures i <= |s|
    ensures i < |s| ==> s[i] == '#'
  {
    if s == "" || StartsComment(st, s[0]) then 0 else 1 + CommentAt(s[1..], Next(st, s[0]))
  }

  /** State after reading all of `s`. */
  function After(s: string, st: Scan): Scan {
    if s == "" then st else After(s[1..], Next(st, s[0]))
  }

  lemma {:induction false} CommentAtConcat(s: string, t: string, st: Scan)
    requires CommentAt(s, st) == |s|
    ensures CommentAt(s + t, st) == |s| + CommentAt(t, After(s, st))
    ensures After(s + t, st) == After(t, After(s, st))
  {
    if s == "" {
      assert s + t == t;
    } else {
      CommentAtConcat(s[1..], t, Next(st, s[0]));
      assert (s + t)[1..] == s[1..] + t;
    }
  }

  function SplitInlineComment(rest: string): (r: (string, string)) {
    var i := CommentAt(rest, START);
    if i == |rest| then (rest, "") else (TrimSpace(rest[..i]), TrimSpace(rest[i..]))
  }

  method SplitInlineCommentLoop(rest: string) returns (value: string, comment: string)
    ensures (value, comment) == SplitInlineComment(rest)
  {
    var inQuote, escaped := false, false;
    for i := 0 to |rest|
      invariant CommentAt(rest, START) == i + CommentAt(rest[i..], Scan(inQuote, escaped))
    {
      var ch := rest[i];
      ghost var st := Scan(inQuote, escaped);
      assert rest[i..][1..] == rest[i + 1..];
      if escaped {
        escaped := false;
      } else if ch == '\\' && inQuote {
        escaped := true;
      } else if ch == '"' {
        inQuote := !inQuote;
      } else if ch == '#' && !inQuote {
        return TrimSpace(rest[..i]), TrimSpace(rest[i..]);
      }
      assert Scan(inQuote, escaped) == Next(st, ch);
    }
    return rest, "";
  }

  // ---------------------------------------------------------------- one line

  function ParseSectionHeader(trimmed: string): (r: Option<string>) {
    if trimmed == "" || trimmed[0] != '[' || trimmed[|trimmed| - 1] != ']' then None
    else if trimmed[1] == '[' then None
    else
      var inner := TrimSpace(trimmed[1..|trimmed| - 1]);
      if |inner| >= 2 && inner[0] == '"' && inner[|inner| - 1] == '"' then Some(inner[1..|inner| - 1]) else Some(inner)
  }

  function ParseKeyValue(trimmed: string): (r: Option<Shape>)
    ensures r.Some? ==> r.value.KeyValue?
  {
    var eq := IndexOf(trimmed, '=');
    if eq == |trimmed| || eq < 1 then None
    else
      var key := TrimSpace(trimmed[..eq]);
      if ' ' in key || '\t' in key then None
      else
        var (value, comment) := SplitInlineComment(TrimSpace(trimmed[eq + 1..]));
        Some(KeyValue(key, value, comment))
  }

  function ShapeOf(raw: string): (r: Shape) {
    var trimmed := TrimSpace(raw);
    if trimmed == "" then Blank
    else if trimmed[0] == '#' then Comment
    else match ParseSectionHeader(trimmed)
      case Some(name) => Header(name)
      case None =>
        match ParseKeyValue(trimmed)
        case Some(shape) => shape
        case None => Other
  }

  function ParseLine(raw: string): (r: ParsedLine) {
    ParsedLine(raw, ShapeOf(raw))
  }

  // ---------------------------------------------------------------- whole files

  function ParseLines(content: string): (r: seq<ParsedLine>)
    ensures |r| == |Split(content)|
    ensures forall i :: 0 <= i < |r| ==> r[i] == ParseLine(Split(content)[i])
  {
    var raws := Split(content);
    seq(|raws|, i requires 0 <= i < |raws| => ParseLine(raws[i]))
  }

  function Raws(lines: seq<ParsedLine>): (r: seq<string>)
    ensures |r| == |lines|
    ensures forall i :: 0 <= i < |r| ==> r[i] == lines[i].raw
  {
    seq(|lines|, i requires 0 <= i < |lines| => lines[i].raw)
  }

  function RenderLines(lines: seq<ParsedLine>): (r: string) {
    Join(Raws(lines))
  }

  /** Parsing then rendering gives back the file byte for byte, whatever is in it. */
  lemma {:induction false} RenderParse(content: string)
    ensures RenderLines(ParseLines(content)) == content
  {
    assert Raws(ParseLines(content)) == Split(content);
    JoinSplit(content);
  }

  // ---------------------------------------------------------------- searches

  predicate HasName(line: ParsedLine, name: string) {
    line.shape.Header? && line.shape.name == name
  }

  predicate HasKey(line: ParsedLine, key: string) {
    line.shape.KeyValue? && line.shape.key == key
  }

  predicate Padding(shape: Shape) {
    shape.Blank? || shape.Comment?
  }

  method FindSectionByName(lines: seq<ParsedLine>, name: string) returns (headerIdx: nat, found: bool)
    ensures found ==> headerIdx < |lines| && HasName(lines[headerIdx], name)
    ensures found ==> forall i :: 0 <= i < headerIdx ==> !HasName(lines[i], name)
    ensures !found ==> forall i :: 0 <= i < |lines| ==> !HasName(lines[i], name)
  {
    for i := 0 to |lines|
      invariant forall j :: 0 <= j < i ==> !HasName(lines[j], name)
    {
      if lines[i].shape.Header? && lines[i].shape.name == name {
        return i, true;
      }
    }
    return 0, false;
  }

  /** `next` is where the next section starts; the lines from `end` to it are its preamble. */
  method SectionContentRange(lines: seq<ParsedLine>, headerIdx: nat) returns (start: nat, end: nat, ghost next: nat)
    requires headerIdx < |lines|
    ensures start == headerIdx + 1 && start <= end <= next <= |lines|
    ensures forall i :: start <= i < next ==> !lines[i].shape.Header?
    ensures next < |lines| ==> lines[next].shape.Header?
    ensures forall i :: end <= i < next ==> Padding(lines[i].shape)
    ensures end > start ==> !Padding(lines[end - 1].shape)
  {
    start := headerIdx + 1;
    var nextHeader := |lines|;
    for i := start to |lines|
      invariant nextHeader == |lines|
      invariant forall j :: start <= j < i ==> !lines[j].shape.Header?
    {
      if lines[i].shape.Header? {
        nextHeader := i;
        break;
      }
    }
    next := nextHeader;
    end := nextHeader;
    while end > start
      invariant start <= end <= next
      invariant forall i :: end <= i < next ==> Padding(lines[i].shape)
    {
      var k := lines[end - 1].shape;
      if !(k.Blank? || k.Comment?) {
        break;
      }
      end := end - 1;
    }
  }

  method FindKeyInRange(lines: seq<ParsedLine>, start: nat, end: nat, key: string) returns (idx: nat, found: bool)
    requires start <= end <= |lines|
    ensures found ==> start <= idx < end && HasKey(lines[idx], key)
    ensures found ==> forall i :: start <= i < idx ==> !HasKey(lines[i], key)
    ensures !found ==> forall i :: start <= i < end ==> !HasKey(lines[i], key)
  {
    for i := start to end
      invariant forall j :: start <= j < i ==> !HasKey(lines[j], key)
    {
      if lines[i].shape.KeyValue? && lines[i].shape.key == key {
        return i, true;
      }
    }
    return 0, false;
  }

  // ---------------------------------------------------------------- rendering

  function RenderKeyValue(key: string, formatted: string, comment: string): (r: string) {
    var line := key + " = " + formatted;
    if comment != "" then line + " " + comment else line
  }

  function RenderHeader(name: string): (r: string) {
    "[" + Quote(name) + "]"
  }

  /** `formatTOMLValue`: booleans bare, everything else quoted. */
  function FormatValue(value: string): (r: string) {
    if value == "true" || value == "false" then value else Quote(value)
  }

  /** Keys the editor can write: they stay one key when read back. */
  predicate SettableKey(key: string) {
    && key != "" && Trimmed(key)
    && key[0] != '#' && key[0] != '['
    && '=' !in key && ' ' !in key && '\t' !in key && NoNewline(key)
  }

  /** What `splitInlineComment` can return as a comment. */
  predicate CommentText(c: string) {
    c == "" || (c[0] == '#' && Trimmed(c) && NoNewline(c))
  }

  lemma {:induction false} EscapedStaysQuoted(s: string)
    ensures CommentAt(EscapeAll(s), Scan(true, false)) == |EscapeAll(s)|
    ensures After(EscapeAll(s), Scan(true, false)) == Scan(true, false)
  {
    if s != "" {
      EscapedStaysQuoted(s[1..]);
      EscapeOneStaysQuoted(s[0]);
      CommentAtConcat(Escape(s[0]), EscapeAll(s[1..]), Scan(true, false));
    }
  }

  lemma {:induction false} EscapeOneStaysQuoted(c: char)
    ensures CommentAt(Escape(c), Scan(true, false)) == |Escape(c)|
    ensures After(Escape(c), Scan(true, false)) == Scan(true, false)
  {
    var e, q := Escape(c), Scan(true, false);
    if |e| == 1 {
      StepScan(e, q);
    } else {
      StepScan(e, q);
      StepScan(e[1..], Scan(true, true));
      assert e[2..] == e[1..][1..];
      PlainStaysQuoted(e[2..]);
    }
  }

  lemma {:induction false} StepScan(s: string, st: Scan)
    requires s != ""
    ensures After(s, st) == After(s[1..], Next(st, s[0]))
    ensures CommentAt(s, st) == if StartsComment(st, s[0]) then 0 else 1 + CommentAt(s[1..], Next(st, s[0]))
  {
  }

  lemma {:induction false} PlainStaysQuoted(s: string)
    requires forall i :: 0 <= i < |s| ==> s[i] != '"' && s[i] != '\\'
    ensures CommentAt(s, Scan(true, false)) == |s|
    ensures After(s, Scan(true, false)) == Scan(true, false)
  {
    if s != "" {
      PlainStaysQuoted(s[1..]);
    }
  }

  /** Value texts the editor writes: one line, closed quotes, no comment inside. */
  predicate ValueText(f: string) {
    f != "" && Trimmed(f) && NoNewline(f) && CommentAt(f, START) == |f| && After(f, START) == START
  }

  lemma {:induction false} QuotedIsValue(value: string)
    ensures ValueText(Quote(value))
  {
    var f := Quote(value);
    QuoteNoNewline(value);
    EscapedStaysQuoted(value);
    CommentAtConcat(EscapeAll(value), "\"", Scan(true, false));
    var tail := EscapeAll(value) + "\"";
    assert f == "\"" + tail && f[1..] == tail;
    StepScan("\"", Scan(true, false));
  }

  lemma {:induction false} FormattedIsValue(value: string)
    ensures ValueText(FormatValue(value))
  {
    if value == "true" || value == "false" {
      BareStaysOutside(value);
    } else {
      QuotedIsValue(value);
    }
  }

  lemma {:induction false} BareStaysOutside(s: string)
    requires forall i :: 0 <= i < |s| ==> s[i] != '"' && s[i] != '#'
    ensures CommentAt(s, START) == |s| && After(s, START) == START
  {
    if s != "" {
      BareStaysOutside(s[1..]);
    }
  }

  lemma {:induction false} SplitRendered(f: string, comment: string)
    requires ValueText(f) && CommentText(comment)
    ensures SplitInlineComment(if comment == "" then f else f + " " + comment) == (f, comment)
  {
    if comment != "" {
      var rest := f + " " + comment;
      assert CommentAt(rest, START) == |f| + 1 by { CommentAfterSpace(f, comment); }
      assert rest[..|f| + 1] == f + " " && rest[|f| + 1..] == comment;
      TrimOneSpace(f);
      TrimTrimmed(comment);
    }
  }

  lemma {:induction false} CommentAfterSpace(f: string, comment: string)
    requires CommentAt(f, START) == |f| && After(f, START) == START
    requires comment != "" && comment[0] == '#'
    ensures CommentAt(f + " " + comment, START) == |f| + 1
  {
    var tail := [' '] + comment;
    CommentAtConcat(f, tail, START);
    assert tail[1..] == comment;
    StepScan(tail, START);
    assert f + " " + comment == f + tail;
  }

  lemma {:induction false} ParseRenderedPair(key: string, tail: string)
    requires SettableKey(key) && tail != "" && Trimmed(tail)
    ensures var (value, comment) := SplitInlineComment(tail);
      ParseKeyValue(key + " = " + tail) == Some(KeyValue(key, value, comment))
  {
    hide IndexOf, TrimSpace, SplitInlineComment;
    var raw := key + " = " + tail;
    IndexOfUnique(raw, '=', |key| + 1);
    assert raw[..|key| + 1] == key + " " && raw[|key| + 2..] == " " + tail;
    TrimOneSpace(key);
    TrimOneSpace(tail);
  }

  /** A rendered key/value line is read back with that key, that value text and that comment. */
  lemma {:induction false} PairReadsBack(key: string, f: string, comment: string)
    requires SettableKey(key) && ValueText(f) && CommentText(comment)
    ensures ShapeOf(RenderKeyValue(key, f, comment)) == KeyValue(key, f, comment)
    ensures NoNewline(RenderKeyValue(key, f, comment))
  {
    var tail := if comment == "" then f else f + " " + comment;
    var raw := RenderKeyValue(key, f, comment);
    assert raw == key + " = " + tail;
    RenderedEnds(key, f, comment, tail);
    hide RenderKeyValue, SplitInlineComment, TrimSpace, ParseKeyValue, CommentText, ValueText;
    SplitRendered(f, comment);
    ParseRenderedPair(key, tail);
    PairShape(key, tail, raw);
  }

  lemma {:induction false} RenderedEnds(key: string, f: string, comment: string, tail: string)
    requires SettableKey(key) && ValueText(f) && CommentText(comment)
    requires tail == if comment == "" then f else f + " " + comment
    ensures tail != "" && Trimmed(tail) && NoNewline(key + " = " + tail)
  {
  }

  lemma {:induction false} PairShape(key: string, tail: string, raw: string)
    requires SettableKey(key) && tail != "" && Trimmed(tail) && raw == key + " = " + tail && ParseKeyValue(raw).Some?
    ensures ShapeOf(raw) == ParseKeyValue(raw).value
  {
    hide ParseKeyValue, TrimSpace;
    assert raw[0] == key[0] && raw[|raw| - 1] == tail[|tail| - 1];
    TrimTrimmed(raw);
  }

  lemma {:induction false} ShapeOfHeader(name: string)
    ensures ShapeOf(RenderHeader(name)) == Header(EscapeAll(name))
    ensures NoNewline(RenderHeader(name))
  {
    var raw, q := RenderHeader(name), Quote(name);
    QuoteNoNewline(name);
    assert raw[0] == '[' && raw[|raw| - 1] == ']';
    assert TrimSpace(raw) == raw by { TrimTrimmed(raw); }
    ParseQuotedHeader(q);
    assert q[1..|q| - 1] == EscapeAll(name);
  }

  lemma {:induction false} ParseQuotedHeader(q: string)
    requires |q| >= 2 && q[0] == '"' && q[|q| - 1] == '"'
    ensures ParseSectionHeader("[" + q + "]") == Some(q[1..|q| - 1])
  {
    var raw := "[" + q + "]";
    assert raw[0] == '[' && raw[|raw| - 1] == ']' && raw[1] == '"';
    assert raw[1..|raw| - 1] == q;
    assert TrimSpace(q) == q by { TrimTrimmed(q); }
  }

  /** A rendered header is read back under its own name exactly when quoting escapes nothing in it. */
  lemma {:induction false} HeaderReadsBack(name: string)
    ensures ShapeOf(RenderHeader(name)) == Header(name) <==> QuoteSafe(name)
  {
    ShapeOfHeader(name);
    if QuoteSafe(name) {
      EscapeSafe(name);
    } else {
      EscapeGrows(name);
    }
  }

  /** Every comment that parsing extracts from one line can be rendered back. */
  lemma {:induction false} ParsedComment(raw: string)
    requires NoNewline(raw) && ShapeOf(raw).KeyValue?
    ensures CommentText(ShapeOf(raw).comment)
  {
    TrimNoNewline(raw);
    PairComment(TrimSpace(raw));
  }

  lemma {:induction false} PairComment(trimmed: string)
    requires NoNewline(trimmed) && ParseKeyValue(trimmed).Some?
    ensures CommentText(ParseKeyValue(trimmed).value.comment)
  {
    var rest := trimmed[IndexOf(trimmed, '=') + 1..];
    TrimNoNewline(rest);
    SplitComment(TrimSpace(rest));
  }

  lemma {:induction false} SplitComment(rest: string)
    requires NoNewline(rest)
    ensures CommentText(SplitInlineComment(rest).1)
  {
    var i := CommentAt(rest, START);
    if i < |rest| {
      var c := rest[i..];
      TrimNoNewline(c);
      assert c[0] == '#' && TrimLeft(c) == c;
      TrimRightKeepsHead(c);
    }
  }

  lemma {:induction false} TrimRightKeepsHead(s: string)
    requires s != "" && !IsSpace(s[0])
    ensures TrimRight(s) != "" && TrimRight(s)[0] == s[0]
  {
    if IsSpace(s[|s| - 1]) {
      TrimRightKeepsHead(s[..|s| - 1]);
    }
  }

  // ---------------------------------------------------------------- hand-written lines

  /** A bare value without quotation marks and comment signs is a value text; so is every quoted one, see
      QuotedIsValue. */
  lemma {:induction false} BareIsValue(value: string)
    requires value != "" && Trimmed(value) && NoNewline(value)
    requires forall i :: 0 <= i < |value| ==> value[i] != '"' && value[i] != '#'
    ensures ValueText(value)
  {
    BareStaysOutside(value);
  }

  lemma {:induction false} CommentBehind(f: string, pad: string, comment: string)
    requires CommentAt(f, START) == |f| && After(f, START) == START && Blanks(pad) && comment != "" && comment[0] == '#'
    ensures CommentAt(f + pad + comment, START) == |f| + |pad|
  {
    BareStaysOutside(pad);
    StepScan(comment, START);
    CommentAtConcat(pad, comment, START);
    CommentAtConcat(f, pad + comment, START);
    assert f + (pad + comment) == f + pad + comment;
  }

  /** A comment behind a value, with blanks between. */
  lemma {:induction false} SplitPadded(f: string, pad: string, comment: string)
    requires ValueText(f) && Blanks(pad) && CommentText(comment) && (comment == "" ==> pad == "")
    ensures SplitInlineComment(f + pad + comment) == (f, comment)
  {
    hide CommentAt, After, TrimSpace;
    var rest := f + pad + comment;
    if comment == "" {
      assert rest == f;
    } else {
      CommentBehind(f, pad, comment);
      assert rest[..|f| + |pad|] == "" + f + pad && rest[|f| + |pad|..] == comment;
      TrimPadded("", f, pad);
      TrimTrimmed(comment);
    }
  }

  lemma {:induction false} ParsePadded(key: string, m: string, n: string, tail: string)
    requires SettableKey(key) && Blanks(m) && Blanks(n) && tail != "" && Trimmed(tail)
    ensures var (value, comment) := SplitInlineComment(tail);
      ParseKeyValue(key + m + "=" + n + tail) == Some(KeyValue(key, value, comment))
  {
    hide IndexOf, TrimSpace, SplitInlineComment;
    var raw, eq := key + m + "=" + n + tail, |key| + |m|;
    assert forall j :: 0 <= j < eq ==> raw[j] == (key + m)[j];
    IndexOfUnique(raw, '=', eq);
    assert raw[..eq] == "" + key + m && raw[eq + 1..] == n + tail + "";
    TrimPadded("", key, m);
    TrimPadded(n, tail, "");
  }

  /** `key=value`, with or without blanks around every part and with or without a comment, is read as that pair. */
  lemma {:induction false} HandWrittenPair(l: string, key: string, m: string, n: string, f: string, pad: string,
                                           comment: string, r: string)
    requires SettableKey(key) && ValueText(f) && CommentText(comment) && (comment == "" ==> pad == "")
    requires Blanks(l) && Blanks(m) && Blanks(n) && Blanks(pad) && Blanks(r)
    ensures ShapeOf(l + (key + m + "=" + n + (f + pad + comment)) + r) == KeyValue(key, f, comment)
  {
    var tail := f + pad + comment;
    PaddedEnds(f, pad, comment);
    SplitPadded(f, pad, comment);
    ParsePadded(key, m, n, tail);
    hide SplitInlineComment, TrimSpace, ParseKeyValue, CommentText, ValueText;
    var trimmed := key + m + "=" + n + tail;
    assert trimmed[0] == key[0] && trimmed[|trimmed| - 1] == tail[|tail| - 1];
    TrimPadded(l, trimmed, r);
  }

  lemma {:induction false} PaddedEnds(f: string, pad: string, comment: string)
    requires ValueText(f) && CommentText(comment) && (comment == "" ==> pad == "")
    ensures f + pad + comment != "" && Trimmed(f + pad + comment)
  {
  }

  lemma {:induction false} HeaderShape(l: string, m: string, inner: string, n: string, r: string)
    requires Blanks(l) && Blanks(m) && Blanks(n) && Blanks(r) && Trimmed(inner)
    requires m != "" || inner == "" || inner[0] != '['
    ensures ShapeOf(l + ("[" + (m + inner + n) + "]") + r) == Header(
      if |inner| >= 2 && inner[0] == '"' && inner[|inner| - 1] == '"' then inner[1..|inner| - 1] else inner)
  {
    var trimmed := "[" + (m + inner + n) + "]";
    assert trimmed[0] == '[' && trimmed[|trimmed| - 1] == ']' && trimmed[1..|trimmed| - 1] == m + inner + n;
    assert trimmed[1] == (m + inner + n + "]")[0];
    assert trimmed[1] != '[';
    TrimPadded(l, trimmed, r);
    TrimPadded(m, inner, n);
  }

  /** `[name]`, bare or quoted and with blanks inside and around, is read as the header of that name. */
  lemma {:induction false} HandWrittenHeader(l: string, m: string, name: string, n: string, r: string)
    requires Blanks(l) && Blanks(m) && Blanks(n) && Blanks(r)
    ensures ShapeOf(l + ("[" + (m + ("\"" + name + "\"") + n) + "]") + r) == Header(name)
    ensures Trimmed(name) && (name == "" || (name[0] != '[' && name[0] != '"')) ==>
      ShapeOf(l + ("[" + (m + name + n) + "]") + r) == Header(name)
  {
    hide ShapeOf;
    var q := "\"" + name + "\"";
    HeaderShape(l, m, q, n, r);
    assert q[1..|q| - 1] == name;
    if Trimmed(name) && (name == "" || (name[0] != '[' && name[0] != '"')) {
      HeaderShape(l, m, name, n, r);
    }
  }

  /** An array of tables is no section header. */
  lemma {:induction false} NoArrayHeader(name: string)
    ensures ParseSectionHeader("[[" + name + "]]") == None
  {
    var s := "[[" + name + "]]";
    assert s[0] == '[' && s[1] == '[';
  }

  /** A line without an equals sign is neither a pair nor lost: it is kept as another line. */
  lemma {:induction false} NoPairWithout(raw: string)
    requires '=' !in TrimSpace(raw)
    ensures !ShapeOf(raw).KeyValue?
  {
    hide TrimSpace;
    var s := TrimSpace(raw);
    assert IndexOf(s, '=') == |s|;
  }

  /** The key of a pair is neither empty nor does it hold blanks or an equals sign. */
  lemma {:induction false} PairKeys(raw: string)
    requires ShapeOf(raw).KeyValue?
    ensures var key := ShapeOf(raw).key; key != "" && ' ' !in key && '\t' !in key && '=' !in key
  {
    hide TrimSpace, SplitInlineComment;
    var s := TrimSpace(raw);
    TrimSpaceEnds(raw);
    var eq := IndexOf(s, '=');
    TrimSpaceEnds(s[..eq]);
    assert s[..eq][0] == s[0];
    forall i | 0 <= i < eq ensures s[..eq][i] != '=' { }
    assert '=' !in s[..eq];
  }

  lemma {:induction false} TrimSpaceEnds(s: string)
    ensures Trimmed(TrimSpace(s)) && (s != "" && !IsSpace(s[0]) ==> TrimSpace(s) != "")
    ensures forall c :: c in TrimSpace(s) ==> c in s
  {
    LeftPart(s);
    RightPart(TrimLeft(s));
    if TrimLeft(s) != "" { TrimRightKeepsHead(TrimLeft(s)); }
  }

  lemma {:induction false} LeftPart(s: string)
    ensures forall c :: c in TrimLeft(s) ==> c in s
  {
    if s != "" && IsSpace(s[0]) { LeftPart(s[1..]); }
  }

  lemma {:induction false} RightPart(s: string)
    ensures forall c :: c in TrimRight(s) ==> c in s
  {
    if s != "" && IsSpace(s[|s| - 1]) { RightPart(s[..|s| - 1]); }
  }

  // ---------------------------------------------------------------- what a value is written as

  /** Booleans are written bare; every other value is written so that unquoting gives it back. */
  lemma {:induction false} FormatReadsBack(value: string)
    ensures FormatValue("true") == "true" && FormatValue("false") == "false"
    ensures value != "true" && value != "false" ==> Unquote(FormatValue(value)) == Some(value)
  {
    UnquoteQuote(value);
  }
}
