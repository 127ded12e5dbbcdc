/** The edits of `write.go` on file contents, and the laws they obey byte for byte. */
module ConfigText {
  import opened Text
  import opened TomlLines
  import opened ConfigDoc

  function DocOf(t: string): Doc {
    Blocks(ParseLines(t))
  }

  function TextOf(d: Doc): string {
    RenderLines(Flatten(d))
  }

  /** What a file stands for. */
  function Meaning(t: string): Table {
    TableOf(DocOf(t))
  }

  /** No section and no key of a section occurs twice. */
  ghost predicate Sound(t: string) {
    Unambiguous(DocOf(t))
  }

  // ---------------------------------------------------------------- documents that files have

  predicate IsParsed(l: ParsedLine) {
    NoNewline(l.raw) && l.shape == ShapeOf(l.raw)
  }

  predicate AllParsed(ls: Lines) {
    forall i :: 0 <= i < |ls| ==> IsParsed(ls[i])
  }

  predicate ParsedSections(secs: seq<Section>) {
    forall i :: 0 <= i < |secs| ==> IsParsed(secs[i].header) && AllParsed(secs[i].body)
  }

  /** Documents that come back unchanged when written and read again. */
  predicate Stored(d: Doc) {
    WellFormed(d) && AllParsed(d.preamble) && ParsedSections(d.sections) && (d.preamble != [] || d.sections != [])
  }

  lemma {:induction false} FlattenParsed(secs: seq<Section>)
    requires ParsedSections(secs)
    ensures AllParsed(FlattenSections(secs))
  {
    if secs != [] {
      FlattenParsed(secs[1..]);
    }
  }

  lemma {:induction false} BlocksParsed(ls: Lines)
    requires AllParsed(ls)
    ensures AllParsed(Blocks(ls).preamble) && ParsedSections(Blocks(ls).sections)
    ensures ls != [] ==> Blocks(ls).preamble != [] || Blocks(ls).sections != []
  {
    if ls != [] {
      BlocksParsed(ls[1..]);
    }
  }

  lemma {:induction false} ParseRaws(ls: Lines)
    requires AllParsed(ls) && ls != []
    ensures ParseLines(RenderLines(ls)) == ls
  {
    SplitJoin(Raws(ls));
  }

  lemma {:induction false} DocStored(t: string)
    ensures Stored(DocOf(t))
  {
    SplitLinesOk(t);
    BlocksGood(ParseLines(t));
    BlocksParsed(ParseLines(t));
  }

  lemma {:induction false} ReadBack(d: Doc)
    requires Stored(d)
    ensures DocOf(TextOf(d)) == d
  {
    FlattenParsed(d.sections);
    assert Flatten(d) != [] by {
      if d.preamble == [] { assert FlattenSections(d.sections) != []; }
    }
    ParseRaws(Flatten(d));
    BlocksFlatten(d);
  }

  /** Reading and writing a file without an edit changes no byte. */
  lemma {:induction false} RoundTrip(t: string)
    ensures TextOf(DocOf(t)) == t
  {
    FlattenBlocks(ParseLines(t));
    RenderParse(t);
  }

  lemma {:induction false} StoredWithBody(d: Doc, i: nat, body: Lines)
    requires Stored(d) && i < |d.sections| && AllParsed(body) && Plain(body)
    ensures Stored(WithBody(d, i, body))
  {
  }

  lemma {:induction false} SetBodyStored(body: Lines, key: string, f: string)
    requires AllParsed(body) && Plain(body) && SettableKey(key) && ValueText(f)
    ensures AllParsed(SetBody(body, key, f)) && Plain(SetBody(body, key, f))
  {
    hide ShapeOf, RenderKeyValue;
    var j := FindKey(body, key);
    if j < |body| {
      assert IsParsed(body[j]);
      PairParsed(key, f, body[j]);
    } else {
      EmptyParsed();
      PairParsed(key, f, EMPTY_LINE);
    }
  }

  lemma {:induction false} PairParsed(key: string, f: string, prior: ParsedLine)
    requires SettableKey(key) && ValueText(f) && IsParsed(prior)
    ensures IsParsed(Pair(key, f, if prior.shape.KeyValue? then prior.shape.comment else ""))
  {
    if prior.shape.KeyValue? {
      ParsedComment(prior.raw);
      PairReadsBack(key, f, prior.shape.comment);
    } else {
      PairReadsBack(key, f, "");
    }
  }

  lemma {:induction false} EmptyParsed()
    ensures IsParsed(EMPTY_LINE)
  {
  }

  // ---------------------------------------------------------------- setting and deleting keys

  /** `setDriveKeySnapshot` on file contents. */
  function SetKeyText(t: string, name: string, key: string, value: string): Option<string> {
    match SetKey(DocOf(t), name, key, FormatValue(value))
    case Some(d) => Some(TextOf(d))
    case None => None
  }

  /** `deleteDriveKeySnapshot` on file contents. */
  function DeleteKeyText(t: string, name: string, key: string): Option<string> {
    match DeleteKey(DocOf(t), name, key)
    case Some(d) => Some(TextOf(d))
    case None => None
  }

  lemma {:induction false} SetKeyStored(t: string, name: string, key: string, value: string)
    requires SettableKey(key)
    ensures var d := SetKey(DocOf(t), name, key, FormatValue(value));
      d.Some? ==> Stored(d.value) && DocOf(TextOf(d.value)) == d.value
  {
    DocStored(t);
    FormattedIsValue(value);
    var i := FindSection(DocOf(t).sections, name);
    if i < |DocOf(t).sections| {
      var b := DocOf(t).sections[i].body;
      SetBodyStored(b, key, FormatValue(value));
      StoredWithBody(DocOf(t), i, SetBody(b, key, FormatValue(value)));
      ReadBack(SetKey(DocOf(t), name, key, FormatValue(value)).value);
    }
  }

  /** Setting a key fails exactly on an absent section; otherwise it changes exactly that entry. */
  lemma {:induction false} SetKeyMeaning(t: string, name: string, key: string, value: string)
    requires SettableKey(key)
    ensures SetKeyText(t, name, key, value).Some? <==> name in Meaning(t)
    ensures name in Meaning(t) ==>
      Meaning(SetKeyText(t, name, key, value).value) == Meaning(t)[name := Meaning(t)[name][key := FormatValue(value)]]
    ensures name in Meaning(t) && Sound(t) ==> Sound(SetKeyText(t, name, key, value).value)
  {
    var d := DocOf(t);
    NameFound(d.sections, name);
    if name in Meaning(t) {
      SetKeyStored(t, name, key, value);
      var i := FindSection(d.sections, name);
      SetBodyTable(d.sections[i].body, key, FormatValue(value));
      WithBodyTable(d, name, SetBody(d.sections[i].body, key, FormatValue(value)));
      if Sound(t) {
        SetBodyUnique(d.sections[i].body, key, FormatValue(value));
        WithBodyUnambiguous(d, i, SetBody(d.sections[i].body, key, FormatValue(value)));
      }
    }
  }

  /** What is stored: booleans bare, and every other value as a quoted text that reads back as the value. */
  lemma {:induction false} SetStores(t: string, name: string, key: string, value: string)
    requires SettableKey(key) && name in Meaning(t)
    ensures SetKeyText(t, name, key, value).Some?
    ensures var m := Meaning(SetKeyText(t, name, key, value).value);
      && name in m && key in m[name]
      && (value == "true" ==> m[name][key] == "true") && (value == "false" ==> m[name][key] == "false")
      && (value != "true" && value != "false" ==> Unquote(m[name][key]) == Some(value))
  {
    hide Meaning, FormatValue, SetKeyText, Unquote;
    SetKeyMeaning(t, name, key, value);
    FormatReadsBack(value);
  }

  /** Inline comment of the line that gives a key its value; "" without such a line. */
  function CommentOf(d: Doc, name: string, key: string): string {
    var i := FindSection(d.sections, name);
    if i == |d.sections| then "" else BodyComment(d.sections[i].body, key)
  }

  function BodyComment(body: Lines, key: string): string {
    var j := FindKey(body, key);
    if j == |body| then "" else body[j].shape.comment
  }

  lemma {:induction false} SetBodyComment(body: Lines, key: string, f: string, k: string)
    ensures BodyComment(SetBody(body, key, f), k) == BodyComment(body, k)
  {
    SetBodyFinds(body, key, f, k);
  }

  lemma {:induction false} SetKeyComment(d: Doc, name: string, key: string, f: string, n: string, k: string)
    requires FindSection(d.sections, name) < |d.sections|
    ensures CommentOf(SetKey(d, name, key, f).value, n, k) == CommentOf(d, n, k)
  {
    hide SetBody, BodyComment;
    var i, d' := FindSection(d.sections, name), SetKey(d, name, key, f).value;
    FindSectionIs(d'.sections, n, FindSection(d.sections, n));
    SetBodyComment(d.sections[i].body, key, f, k);
  }

  /** Setting a key keeps every inline comment, the replaced line's included. */
  lemma {:induction false} SetKeyKeepsComments(t: string, name: string, key: string, value: string, n: string,
                                               k: string)
    requires SettableKey(key) && name in Meaning(t)
    ensures SetKeyText(t, name, key, value).Some?
    ensures CommentOf(DocOf(SetKeyText(t, name, key, value).value), n, k) == CommentOf(DocOf(t), n, k)
  {
    hide CommentOf, DocOf, TextOf, FormatValue;
    NameFound(DocOf(t).sections, name);
    SetKeyStored(t, name, key, value);
    SetKeyComment(DocOf(t), name, key, FormatValue(value), n, k);
  }

  /** Two sets of one key leave the bytes the second alone would leave. */
  lemma {:induction false} SetTwice(t: string, name: string, key: string, v: string, w: string)
    requires SettableKey(key) && name in Meaning(t)
    ensures SetKeyText(t, name, key, v).Some?
    ensures SetKeyText(SetKeyText(t, name, key, v).value, name, key, w) == SetKeyText(t, name, key, w)
  {
    NameFound(DocOf(t).sections, name);
    SetKeyStored(t, name, key, v);
    SetKeyTwice(DocOf(t), name, key, FormatValue(v), FormatValue(w));
  }

  /** Sets in different sections commute byte for byte. */
  lemma {:induction false} SetsCommute(t: string, a: string, ka: string, va: string, b: string, kb: string, vb: string)
    requires SettableKey(ka) && SettableKey(kb) && a != b && a in Meaning(t) && b in Meaning(t)
    ensures SetKeyText(t, a, ka, va).Some? && SetKeyText(t, b, kb, vb).Some?
    ensures SetKeyText(SetKeyText(t, a, ka, va).value, b, kb, vb)
      == SetKeyText(SetKeyText(t, b, kb, vb).value, a, ka, va)
  {
    hide FormatValue, ParseLines;
    NameFound(DocOf(t).sections, a);
    NameFound(DocOf(t).sections, b);
    SetKeyStored(t, a, ka, va);
    SetKeyStored(t, b, kb, vb);
    SetKeysCommute(DocOf(t), a, ka, FormatValue(va), b, kb, FormatValue(vb));
  }

  lemma {:induction false} DeleteKeyStored(t: string, name: string, key: string)
    ensures var d := DeleteKey(DocOf(t), name, key);
      d.Some? ==> Stored(d.value) && DocOf(TextOf(d.value)) == d.value
  {
    hide ShapeOf;
    DocStored(t);
    var i := FindSection(DocOf(t).sections, name);
    if i < |DocOf(t).sections| {
      StoredWithBody(DocOf(t), i, DropKey(DocOf(t).sections[i].body, key));
      ReadBack(DeleteKey(DocOf(t), name, key).value);
    }
  }

  /** Deleting a key removes exactly that entry; an absent key is no error. */
  lemma {:induction false} DeleteKeyMeaning(t: string, name: string, key: string)
    requires Sound(t)
    ensures DeleteKeyText(t, name, key).Some? <==> name in Meaning(t)
    ensures name in Meaning(t) ==>
      Meaning(DeleteKeyText(t, name, key).value) == Meaning(t)[name := Meaning(t)[name] - {key}]
    ensures name in Meaning(t) ==> Sound(DeleteKeyText(t, name, key).value)
  {
    var d := DocOf(t);
    NameFound(d.sections, name);
    if name in Meaning(t) {
      DeleteKeyStored(t, name, key);
      var i := FindSection(d.sections, name);
      DropKeyTable(d.sections[i].body, key);
      DropKeyUnique(d.sections[i].body, key);
      WithBodyTable(d, name, DropKey(d.sections[i].body, key));
      WithBodyUnambiguous(d, i, DropKey(d.sections[i].body, key));
    }
  }

  /** Inserting a missing key and deleting it again restores every byte. */
  lemma {:induction false} InsertThenDelete(t: string, name: string, key: string, value: string)
    requires SettableKey(key) && name in Meaning(t) && key !in Meaning(t)[name]
    ensures SetKeyText(t, name, key, value).Some?
    ensures DeleteKeyText(SetKeyText(t, name, key, value).value, name, key) == Some(t)
  {
    NameFound(DocOf(t).sections, name);
    SetKeyStored(t, name, key, value);
    DeleteInsertedKey(DocOf(t), name, key, FormatValue(value));
    RoundTrip(t);
  }

  // ---------------------------------------------------------------- appending and deleting sections

  /** A text made to end in a newline, as `appendDriveSectionSnapshot` does first. */
  function CloseText(t: string): string {
    if t != "" && t[|t| - 1] != '\n' then t + "\n" else t
  }

  /** `driveSection`. */
  function DriveSectionText(name: string, dir: string): string {
    "\n" + RenderHeader(name) + "\n" + ("sync_dir = " + Quote(dir)) + "\n"
  }

  /** `appendDriveSectionSnapshot` on an existing file. */
  function AppendText(t: string, name: string, dir: string): string {
    CloseText(t) + DriveSectionText(name, dir)
  }

  /** `deleteDriveSectionSnapshot` on file contents. */
  function DeleteSectionText(t: string, name: string): Option<string> {
    match DeleteSection(DocOf(t), name)
    case Some(d) => Some(TextOf(d))
    case None => None
  }

  lemma {:induction false} FlattenCons(s: Section, rest: seq<Section>)
    ensures FlattenSections([s] + rest) == [s.header] + s.body + FlattenSections(rest)
  {
    assert ([s] + rest)[1..] == rest;
  }

  lemma {:induction false} Associate(x: Lines, y: Lines, z: Lines)
    ensures x + (y + z) == (x + y) + z
  {
  }

  lemma {:induction false} FlattenConcat(a: seq<Section>, b: seq<Section>)
    ensures FlattenSections(a + b) == FlattenSections(a) + FlattenSections(b)
  {
    if a == [] {
      assert a + b == b;
    } else {
      var s, rest := a[0], a[1..];
      FlattenConcat(rest, b);
      assert a + b == [s] + (rest + b);
      FlattenCons(s, rest + b);
      Associate([s.header] + s.body, FlattenSections(rest), FlattenSections(b));
    }
  }

  /** The lines before the last body: nothing, or lines that end in a header. */
  function Opening(d: Doc): Lines {
    if d.sections == [] then []
    else
      var n := |d.sections| - 1;
      d.preamble + FlattenSections(d.sections[..n]) + [d.sections[n].header]
  }

  lemma {:induction false} FlattenOpening(d: Doc, body: Lines)
    ensures Flatten(WithLastBody(d, body)) == Opening(d) + body
    ensures Flatten(d) == Opening(d) + LastBody(d)
  {
    if d.sections != [] {
      var n := |d.sections| - 1;
      var s, front := d.sections[n], d.sections[..n];
      assert d.sections == front + [s];
      assert WithLastBody(d, body).sections == front + [s.(body := body)];
      FlattenBehind(d.preamble, front, s);
      FlattenBehind(d.preamble, front, s.(body := body));
      hide FlattenSections;
    }
  }

  lemma {:induction false} FlattenBehind(preamble: Lines, front: seq<Section>, s: Section)
    ensures preamble + FlattenSections(front + [s]) == preamble + FlattenSections(front) + [s.header] + s.body
  {
    FlattenConcat(front, [s]);
    FlattenOne(s);
    hide FlattenSections;
    assert preamble + (FlattenSections(front) + ([s.header] + s.body)) ==
      preamble + FlattenSections(front) + [s.header] + s.body;
  }

  lemma {:induction false} FlattenOne(s: Section)
    ensures FlattenSections([s]) == [s.header] + s.body
  {
    assert [s][1..] == [] && FlattenSections([]) == [];
  }

  lemma {:induction false} LastLine(t: string)
    ensures var ls := Split(t); (ls[|ls| - 1] == "" <==> t == "" || t[|t| - 1] == '\n')
    decreases |t|
  {
    hide IndexOf;
    var i := IndexOf(t, '\n');
    if i < |t| {
      LastLine(t[i + 1..]);
    }
  }

  /** A document of a text ends in an empty line exactly when the text is empty or ends in a newline. */
  lemma {:induction false} EndsLineText(t: string)
    ensures EndsLine(DocOf(t)) <==> CloseText(t) == t
  {
    hide Split, ShapeOf, Blocks, FlattenSections, Flatten;
    var d, ls := DocOf(t), ParseLines(t);
    FlattenBlocks(ls);
    FlattenOpening(d, []);
    DocStored(t);
    LastLine(t);
    assert ls == Opening(d) + LastBody(d);
    EmptyParsed();
    if LastBody(d) == [] && d.sections != [] {
      assert ls[|ls| - 1] == d.sections[|d.sections| - 1].header;
    }
  }

  lemma {:induction false} SyncDirSettable()
    ensures SettableKey("sync_dir") && SettableKey("display_name")
  {
  }

  lemma {:induction false} NewSectionStored(name: string, dir: string)
    requires QuoteSafe(name)
    ensures GoodSection(NewSection(name, dir)) && ParsedSections([NewSection(name, dir)])
  {
    hide ShapeOf, Quote;
    assert IsParsed(HeaderLine(name)) by { HeaderReadsBack(name); ShapeOfHeader(name); }
    EmptyParsed();
    assert IsParsed(Pair("sync_dir", Quote(dir), "")) by {
      QuotedIsValue(dir);
      SyncDirSettable();
      PairParsed("sync_dir", Quote(dir), EMPTY_LINE);
    }
  }

  lemma {:induction false} AppendStored(d: Doc, name: string, dir: string)
    requires Stored(d) && QuoteSafe(name)
    ensures Stored(AppendSection(d, name, dir))
  {
    hide ShapeOf, Quote, RenderKeyValue;
    NewSectionStored(name, dir);
    CloseLineStored(d);
  }

  lemma {:induction false} SplitTwo(h: string, p: string)
    requires NoNewline(h) && NoNewline(p)
    ensures Split(h + "\n" + (p + "\n" + "")) == [h, p, ""]
  {
    SplitConcat(h, p + "\n" + "");
    SplitConcat(p, "");
    SplitNoNewline(h);
    SplitNoNewline(p);
    SplitNoNewline("");
  }

  lemma {:induction false} Reassociate(c: string, h: string, p: string)
    ensures c + ("\n" + h + "\n" + p + "\n") == c + "\n" + (h + "\n" + (p + "\n" + ""))
  {
  }

  lemma {:induction false} SplitAppended(c: string, h: string, p: string)
    requires NoNewline(h) && NoNewline(p)
    ensures Split(c + ("\n" + h + "\n" + p + "\n")) == Split(c) + [h, p, ""]
  {
    Reassociate(c, h, p);
    SplitTwo(h, p);
    SplitConcat(c, h + "\n" + (p + "\n" + ""));
  }

  lemma {:induction false} SplitClosed(t: string)
    ensures Split(CloseText(t)) == if CloseText(t) == t then Split(t) else Split(t) + [""]
  {
    if CloseText(t) != t {
      assert CloseText(t) == t + "\n" + "";
      SplitConcat(t, "");
      SplitNoNewline("");
    }
  }

  lemma {:induction false} FlattenAddSection(d: Doc, s: Section)
    ensures Flatten(AddSections(d, [s])) == Flatten(d) + ([s.header] + s.body)
  {
    hide FlattenSections;
    FlattenConcat(d.sections, [s]);
    FlattenOne(s);
    Associate(d.preamble, FlattenSections(d.sections), [s.header] + s.body);
  }

  lemma {:induction false} FlattenClosed(d: Doc)
    ensures Flatten(CloseLine(d)) == if EndsLine(d) then Flatten(d) else Flatten(d) + [EMPTY_LINE]
  {
    FlattenOpening(d, LastBody(d) + [EMPTY_LINE]);
  }

  lemma {:induction false} RawsConcat(a: Lines, b: Lines)
    ensures Raws(a + b) == Raws(a) + Raws(b)
  {
  }

  lemma {:induction false} NewSectionRaws(name: string, dir: string)
    ensures var s := NewSection(name, dir);
      Raws([s.header] + s.body) == [RenderHeader(name), "sync_dir = " + Quote(dir), ""]
  {
    assert RenderKeyValue("sync_dir", Quote(dir), "") == "sync_dir = " + Quote(dir);
  }

  lemma {:induction false} ClosedRaws(t: string)
    ensures Raws(Flatten(CloseLine(DocOf(t)))) == Split(CloseText(t))
  {
    hide ShapeOf, IndexOf, Blocks, Split, CloseText, CloseLine, EndsLine, Flatten;
    FlattenBlocks(ParseLines(t));
    FlattenClosed(DocOf(t));
    EndsLineText(t);
    SplitClosed(t);
  }

  lemma {:induction false} AppendedSplit(t: string, name: string, dir: string)
    ensures Split(AppendText(t, name, dir)) ==
      Split(CloseText(t)) + [RenderHeader(name), "sync_dir = " + Quote(dir), ""]
  {
    ShapeOfHeader(name);
    QuoteNoNewline(dir);
    SplitAppended(CloseText(t), RenderHeader(name), "sync_dir = " + Quote(dir));
  }

  lemma {:induction false} AppendedRaws(t: string, name: string, dir: string)
    ensures Raws(Flatten(AppendSection(DocOf(t), name, dir))) == Split(AppendText(t, name, dir))
  {
    var c, s := CloseLine(DocOf(t)), NewSection(name, dir);
    AppendedSplit(t, name, dir);
    ClosedRaws(t);
    FlattenAddSection(c, s);
    RawsConcat(Flatten(c), [s.header] + s.body);
    NewSectionRaws(name, dir);
  }

  /** The bytes appended are the document operation, once the name needs no escaping. */
  lemma {:induction false} AppendIsDoc(t: string, name: string, dir: string)
    requires QuoteSafe(name)
    ensures AppendText(t, name, dir) == TextOf(AppendSection(DocOf(t), name, dir))
    ensures DocOf(AppendText(t, name, dir)) == AppendSection(DocOf(t), name, dir)
  {
    AppendedRaws(t, name, dir);
    JoinSplit(AppendText(t, name, dir));
    DocStored(t);
    AppendStored(DocOf(t), name, dir);
    ReadBack(AppendSection(DocOf(t), name, dir));
  }

  lemma {:induction false} StoredParts(d: Doc, i: nat)
    requires Stored(d) && i < |d.sections|
    ensures AllParsed(LastBody(Before(d, i))) && Plain(LastBody(Before(d, i)))
    ensures AllParsed(Tail(d.sections[i].body)) && Plain(Tail(d.sections[i].body))
  {
    assert GoodSection(d.sections[i]) && AllParsed(d.sections[i].body);
    if i > 0 {
      assert GoodSection(d.sections[i - 1]) && AllParsed(d.sections[i - 1].body);
    }
  }

  lemma {:induction false} StoredJoin(d: Doc, i: nat, last: Lines)
    requires Stored(d) && i < |d.sections| && AllParsed(last) && Plain(last)
    ensures var r := AddSections(WithLastBody(Before(d, i), last), d.sections[i + 1..]);
      r != Doc([], []) ==> Stored(r)
  {
    var w := WithLastBody(Before(d, i), last);
    assert ParsedSections(w.sections) && AllParsed(w.preamble) && WellFormed(w);
  }

  /** Deleting leaves a document that reads back, unless no line at all is left. */
  lemma {:induction false} DeleteStored(d: Doc, name: string)
    requires Stored(d) && FindSection(d.sections, name) < |d.sections|
    ensures DeleteSection(d, name).value != Doc([], []) ==> Stored(DeleteSection(d, name).value)
  {
    hide ShapeOf;
    var i := FindSection(d.sections, name);
    StoredParts(d, i);
    StoredJoin(d, i, StripBlanks(LastBody(Before(d, i))) + Tail(d.sections[i].body));
  }

  /** Appending an absent section adds exactly one entry, holding the quoted sync directory. Appending a
      section that is there leaves a file with two such headers, which no decoder accepts. */
  lemma {:induction false} AppendMeaning(t: string, name: string, dir: string)
    requires QuoteSafe(name) && Sound(t)
    ensures Meaning(AppendText(t, name, dir)) == if name in Meaning(t) then Meaning(t)
      else Meaning(t)[name := map["sync_dir" := Quote(dir)]]
    ensures Sound(AppendText(t, name, dir)) <==> name !in Meaning(t)
  {
    AppendIsDoc(t, name, dir);
    BlocksGood(ParseLines(t));
    if name in Meaning(t) {
      AppendDuplicate(DocOf(t), name, dir);
    } else {
      AppendTable(DocOf(t), name, dir);
    }
  }

  lemma {:induction false} EmptyTextMeaning()
    ensures DocOf("").sections == []
  {
    assert ParseLines("") == [ParseLine("")];
    BlocksPlain(ParseLines(""));
  }

  /** Deleting a section fails exactly when it is absent; otherwise it removes exactly that entry. */
  lemma {:induction false} DeleteMeaning(t: string, name: string)
    requires Sound(t)
    ensures DeleteSectionText(t, name).Some? <==> name in Meaning(t)
    ensures name in Meaning(t) ==> Meaning(DeleteSectionText(t, name).value) == Meaning(t) - {name}
    ensures name in Meaning(t) ==> Sound(DeleteSectionText(t, name).value)
  {
    var d := DocOf(t);
    NameFound(d.sections, name);
    if name in Meaning(t) {
      BlocksGood(ParseLines(t));
      DocStored(t);
      DeleteTable(d, name);
      DeleteStored(d, name);
      var r := DeleteSection(d, name).value;
      if r == Doc([], []) {
        EmptyTextMeaning();
      } else {
        ReadBack(r);
      }
    }
  }

  /** The text with its trailing blank lines replaced by one final newline. */
  function TidyText(t: string): string {
    TextOf(TidyDoc(DocOf(t)))
  }

  /** A text that is empty, or ends in one newline after a line that is not blank. */
  predicate OneFinalNewline(t: string) {
    var ls := ParseLines(t);
    ls[|ls| - 1] == EMPTY_LINE && (|ls| > 1 ==> !ls[|ls| - 2].shape.Blank?)
  }

  lemma {:induction false} TidyStored(t: string)
    ensures DocOf(TidyText(t)) == TidyDoc(DocOf(t))
  {
    hide ShapeOf, ParseLines;
    var d := DocOf(t);
    DocStored(t);
    EmptyParsed();
    assert AllParsed(LastBody(d)) && Plain(LastBody(d));
    assert Stored(TidyDoc(d));
    ReadBack(TidyDoc(d));
  }

  lemma {:induction false} StripBehind(o: Lines, b: Lines)
    requires o == [] || !o[|o| - 1].shape.Blank?
    ensures StripBlanks(o + b) == o + StripBlanks(b)
  {
    var n := |StripBlanks(b)|;
    StripBlanksIs(o + b, |o| + n);
    assert (o + b)[..|o| + n] == o + b[..n];
  }

  lemma {:induction false} OpeningEnds(d: Doc)
    requires WellFormed(d)
    ensures Opening(d) == [] || !Opening(d)[|Opening(d)| - 1].shape.Blank?
  {
    if d.sections != [] {
      assert GoodSection(d.sections[|d.sections| - 1]);
    }
  }

  /** Replacing the trailing blank lines of the last body replaces those of the file. */
  lemma {:induction false} StripFlat(d: Doc, tail: Lines)
    requires WellFormed(d)
    ensures Flatten(WithLastBody(d, StripBlanks(LastBody(d)) + tail)) == StripBlanks(Flatten(d)) + tail
  {
    hide Flatten, Opening, WithLastBody, LastBody, StripBlanks;
    FlattenOpening(d, StripBlanks(LastBody(d)) + tail);
    OpeningEnds(d);
    StripBehind(Opening(d), LastBody(d));
    Associate(Opening(d), StripBlanks(LastBody(d)), tail);
  }

  /** Lines of a tidied text: the trailing blank lines are gone and one empty line closes it. */
  lemma {:induction false} TidyLines(t: string)
    ensures ParseLines(TidyText(t)) == StripBlanks(ParseLines(t)) + [EMPTY_LINE]
  {
    FlattenBlocks(ParseLines(t));
    TidyStored(t);
    FlattenBlocks(ParseLines(TidyText(t)));
    BlocksGood(ParseLines(t));
    StripFlat(DocOf(t), [EMPTY_LINE]);
  }

  lemma {:induction false} TidyLinesFixed(ls: Lines)
    requires ls != []
    ensures StripBlanks(ls) + [EMPTY_LINE] == ls
      <==> ls[|ls| - 1] == EMPTY_LINE && (|ls| > 1 ==> !ls[|ls| - 2].shape.Blank?)
  {
    var r, n := StripBlanks(ls), |ls| - 1;
    if r + [EMPTY_LINE] == ls {
      assert ls[n] == EMPTY_LINE;
    }
    if ls[n] == EMPTY_LINE && (n > 0 ==> !ls[n - 1].shape.Blank?) {
      StripBlanksIs(ls, n);
      assert ls == ls[..n] + [EMPTY_LINE];
    }
  }

  /** Tidying changes nothing exactly when the text already ends in one newline. */
  lemma {:induction false} TidyFixed(t: string)
    ensures TidyText(t) == t <==> OneFinalNewline(t)
  {
    TidyLines(t);
    RenderParse(t);
    RenderParse(TidyText(t));
    TidyLinesFixed(ParseLines(t));
  }

  /** Append then delete restores the file up to its trailing blank lines. */
  lemma {:induction false} AppendThenDelete(t: string, name: string, dir: string)
    requires QuoteSafe(name) && name !in Meaning(t)
    ensures DeleteSectionText(AppendText(t, name, dir), name) == Some(TidyText(t))
    ensures DeleteSectionText(AppendText(t, name, dir), name) == Some(t) <==> OneFinalNewline(t)
  {
    NameFound(DocOf(t).sections, name);
    AppendIsDoc(t, name, dir);
    AppendDelete(DocOf(t), name, dir);
    TidyFixed(t);
  }

  /** Appending two sections and deleting the first is appending the second to the tidied text;
      this is appending the second alone exactly when the closed text ends in one newline. */
  lemma {:induction false} AppendTwiceThenDelete(t: string, a: string, x: string, b: string, y: string)
    requires QuoteSafe(a) && QuoteSafe(b) && a !in Meaning(t)
    ensures DeleteSectionText(AppendText(AppendText(t, a, x), b, y), a) == Some(AppendText(TidyText(t), b, y))
    ensures DeleteSectionText(AppendText(AppendText(t, a, x), b, y), a) == Some(AppendText(t, b, y))
      <==> OneFinalNewline(CloseText(t))
  {
    NameFound(DocOf(t).sections, a);
    AppendIsDoc(t, a, x);
    AppendIsDoc(AppendText(t, a, x), b, y);
    AppendAppendDelete(DocOf(t), a, x, b, y);
    TidyStored(t);
    AppendIsDoc(TidyText(t), b, y);
    SameAppend(t, b, y);
  }

  lemma {:induction false} SameAppend(t: string, b: string, y: string)
    ensures AppendText(TidyText(t), b, y) == AppendText(t, b, y) <==> OneFinalNewline(CloseText(t))
  {
    TidyStored(t);
    TidyClosed(DocOf(t));
    EndsLineText(TidyText(t));
    TidyCloseText(t);
    TidyFixed(CloseText(t));
    var s := DriveSectionText(b, y);
    if TidyText(t) + s == CloseText(t) + s {
      assert |TidyText(t)| == |CloseText(t)|;
      assert TidyText(t) == (TidyText(t) + s)[..|TidyText(t)|];
      assert CloseText(t) == (CloseText(t) + s)[..|TidyText(t)|];
    }
  }

  lemma {:induction false} CloseLineStored(d: Doc)
    requires Stored(d)
    ensures Stored(CloseLine(d))
  {
    hide ShapeOf;
    EmptyParsed();
    if d.sections != [] {
      var s := d.sections[|d.sections| - 1];
      assert GoodSection(s) && AllParsed(s.body);
    }
  }

  lemma {:induction false} TidyCloseText(t: string)
    ensures TidyText(CloseText(t)) == TidyText(t)
  {
    hide ShapeOf, ParseLines, Stored, TidyDoc, CloseLine, Flatten, Raws;
    var d := DocOf(t);
    ClosedRaws(t);
    JoinSplit(CloseText(t));
    DocStored(t);
    CloseLineStored(d);
    ReadBack(CloseLine(d));
    TidyClosed(d);
  }
}
