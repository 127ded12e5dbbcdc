/** A config file as a preamble and a list of sections, and the two-level map section -> key -> value
    text that the file stands for. Every edit of `write.go` is defined here on documents; ConfigText
    connects documents with bytes and ConfigFile with the index loops of the source. */
module ConfigDoc {
  import opened Text
  import opened TomlLines

  type Lines = seq<ParsedLine>
  type Table = map<string, map<string, string>>

  /** A header line and the lines up to the next header. */
  datatype Section = Section(header: ParsedLine, body: Lines)

  datatype Doc = Doc(preamble: Lines, sections: seq<Section>)

  predicate Plain(ls: Lines) {
    forall i :: 0 <= i < |ls| ==> !ls[i].shape.Header?
  }

  predicate GoodSection(s: Section) {
    s.header.shape.Header? && Plain(s.body)
  }

  predicate WellFormed(d: Doc) {
    Plain(d.preamble) && forall i :: 0 <= i < |d.sections| ==> GoodSection(d.sections[i])
  }

  // ---------------------------------------------------------------- lines <-> document

  function Blocks(ls: Lines): Doc {
    if ls == [] then Doc([], [])
    else
      var d := Blocks(ls[1..]);
      if ls[0].shape.Header? then Doc([], [Section(ls[0], d.preamble)] + d.sections)
      else Doc([ls[0]] + d.preamble, d.sections)
  }

  function FlattenSections(secs: seq<Section>): Lines {
    if secs == [] then [] else [secs[0].header] + secs[0].body + FlattenSections(secs[1..])
  }

  function Flatten(d: Doc): Lines {
    d.preamble + FlattenSections(d.sections)
  }

  lemma {:induction false} BlocksGood(ls: Lines)
    ensures WellFormed(Blocks(ls))
  {
    if ls != [] {
      BlocksGood(ls[1..]);
    }
  }

  lemma {:induction false} FlattenBlocks(ls: Lines)
    ensures Flatten(Blocks(ls)) == ls
  {
    if ls != [] {
      FlattenBlocks(ls[1..]);
      var d := Blocks(ls[1..]);
      if ls[0].shape.Header? {
        var secs := [Section(ls[0], d.preamble)] + d.sections;
        assert secs[1..] == d.sections;
      }
    }
  }

  /** Blocks of a line sequence cut in front of a header (or at the end). */
  lemma {:induction false} BlocksConcat(x: Lines, y: Lines)
    requires y == [] || y[0].shape.Header?
    ensures Blocks(x + y) == Doc(Blocks(x).preamble, Blocks(x).sections + Blocks(y).sections)
  {
    if x == [] {
      assert x + y == y;
    } else {
      BlocksConcat(x[1..], y);
      assert (x + y)[1..] == x[1..] + y;
    }
  }

  lemma {:induction false} BlocksPlain(ls: Lines)
    requires Plain(ls)
    ensures Blocks(ls) == Doc(ls, [])
  {
    if ls != [] {
      BlocksPlain(ls[1..]);
    }
  }

  lemma {:induction false} BlocksOfSection(s: Section, rest: Lines, secs: seq<Section>)
    requires GoodSection(s) && Blocks(rest) == Doc([], secs)
    ensures Blocks([s.header] + s.body + rest) == Doc([], [s] + secs)
  {
    BlocksPlain(s.body);
    BlocksConcat(s.body, rest);
    var all := [s.header] + s.body + rest;
    assert all[1..] == s.body + rest && all[0] == s.header;
  }

  lemma {:induction false} BlocksFlattenSections(secs: seq<Section>)
    requires forall i :: 0 <= i < |secs| ==> GoodSection(secs[i])
    ensures Blocks(FlattenSections(secs)) == Doc([], secs)
  {
    if secs != [] {
      var s, rest := secs[0], FlattenSections(secs[1..]);
      BlocksFlattenSections(secs[1..]);
      BlocksOfSection(s, rest, secs[1..]);
      assert [s] + secs[1..] == secs;
      hide Blocks;
    }
  }

  lemma {:induction false} BlocksFlatten(d: Doc)
    requires WellFormed(d)
    ensures Blocks(Flatten(d)) == d
  {
    BlocksPlain(d.preamble);
    BlocksFlattenSections(d.sections);
    BlocksConcat(d.preamble, FlattenSections(d.sections));
  }

  // ---------------------------------------------------------------- reading

  /** Index of the first section with that name, or the number of sections. */
  function FindSection(secs: seq<Section>, name: string): (i: nat)
    ensures i <= |secs|
    ensures i < |secs| ==> HasName(secs[i].header, name)
    ensures forall j :: 0 <= j < i ==> !HasName(secs[j].header, name)
  {
    if secs == [] || HasName(secs[0].header, name) then 0 else 1 + FindSection(secs[1..], name)
  }

  /** Index of the first line that sets the key, or the length of the body. */
  function FindKey(body: Lines, key: string): (i: nat)
    ensures i <= |body|
    ensures i < |body| ==> HasKey(body[i], key)
    ensures forall j :: 0 <= j < i ==> !HasKey(body[j], key)
  {
    if body == [] || HasKey(body[0], key) then 0 else 1 + FindKey(body[1..], key)
  }

  lemma {:induction false} FindSectionIs(secs: seq<Section>, name: string, i: nat)
    requires i <= |secs| && (i < |secs| ==> HasName(secs[i].header, name))
    requires forall j :: 0 <= j < i ==> !HasName(secs[j].header, name)
    ensures FindSection(secs, name) == i
  {
    var k := FindSection(secs, name);
    assert !(k < i) && !(i < k);
  }

  lemma {:induction false} FindKeyIs(body: Lines, key: string, i: nat)
    requires i <= |body| && (i < |body| ==> HasKey(body[i], key))
    requires forall j :: 0 <= j < i ==> !HasKey(body[j], key)
    ensures FindKey(body, key) == i
  {
    var k := FindKey(body, key);
    assert !(k < i) && !(i < k);
  }

  function Keys(body: Lines): set<string> {
    set i | 0 <= i < |body| && body[i].shape.KeyValue? :: body[i].shape.key
  }

  function Names(secs: seq<Section>): set<string> {
    set i | 0 <= i < |secs| && secs[i].header.shape.Header? :: secs[i].header.shape.name
  }

  lemma {:induction false} KeyFound(body: Lines, key: string)
    ensures key in Keys(body) <==> FindKey(body, key) < |body|
  {
    if key in Keys(body) {
      var i :| 0 <= i < |body| && body[i].shape.KeyValue? && body[i].shape.key == key;
      assert HasKey(body[i], key);
    }
  }

  lemma {:induction false} NameFound(secs: seq<Section>, name: string)
    ensures name in Names(secs) <==> FindSection(secs, name) < |secs|
  {
    if name in Names(secs) {
      var i :| 0 <= i < |secs| && secs[i].header.shape.Header? && secs[i].header.shape.name == name;
      assert HasName(secs[i].header, name);
    }
  }

  function ValueAt(body: Lines, key: string): string
    requires key in Keys(body)
  {
    KeyFound(body, key);
    body[FindKey(body, key)].shape.value
  }

  /** What a section body means: the first line for a key gives its value. */
  function BodyTable(body: Lines): map<string, string> {
    map key | key in Keys(body) :: ValueAt(body, key)
  }

  function BodyAt(secs: seq<Section>, name: string): Lines
    requires name in Names(secs)
  {
    NameFound(secs, name);
    secs[FindSection(secs, name)].body
  }

  function SectionsTable(secs: seq<Section>): Table {
    map name | name in Names(secs) :: BodyTable(BodyAt(secs, name))
  }

  /** What a document means: the first section of a name gives its entries. */
  function TableOf(d: Doc): Table {
    SectionsTable(d.sections)
  }

  /** No key twice in a section and no section twice: what a TOML decoder accepts. */
  ghost predicate UniqueKeys(body: Lines) {
    forall i, j :: 0 <= i < j < |body| && body[i].shape.KeyValue? && body[j].shape.KeyValue?
      ==> body[i].shape.key != body[j].shape.key
  }

  ghost predicate UniqueNames(secs: seq<Section>) {
    forall i, j :: 0 <= i < j < |secs| && secs[i].header.shape.Header? && secs[j].header.shape.Header?
      ==> secs[i].header.shape.name != secs[j].header.shape.name
  }

  ghost predicate Unambiguous(d: Doc) {
    UniqueNames(d.sections) && forall i :: 0 <= i < |d.sections| ==> UniqueKeys(d.sections[i].body)
  }

  // ---------------------------------------------------------------- editing a body

  /** The line `key = f # comment`, with the shape it is read back with (see PairReadsBack). */
  function Pair(key: string, f: string, comment: string): ParsedLine {
    ParsedLine(RenderKeyValue(key, f, comment), KeyValue(key, f, comment))
  }

  /** Replace the value of an existing key, keeping its inline comment, or insert a new first line. */
  function SetBody(body: Lines, key: string, f: string): Lines {
    var j := FindKey(body, key);
    if j < |body| then body[j := Pair(key, f, body[j].shape.comment)] else [Pair(key, f, "")] + body
  }

  function DropKey(body: Lines, key: string): Lines {
    var j := FindKey(body, key);
    if j < |body| then body[..j] + body[j + 1..] else body
  }

  lemma {:induction false} SetBodyFinds(body: Lines, key: string, f: string, other: string)
    ensures var b, j := SetBody(body, key, f), FindKey(body, key);
      FindKey(b, other) ==
        if other == key then (if j < |body| then j else 0)
        else if j < |body| then FindKey(body, other) else FindKey(body, other) + 1
  {
    var b, j, o := SetBody(body, key, f), FindKey(body, key), FindKey(body, other);
    if other == key {
      FindKeyIs(b, other, if j < |body| then j else 0);
    } else if j < |body| {
      FindKeyIs(b, other, o);
    } else {
      assert forall i :: 0 < i < |b| ==> b[i] == body[i - 1];
      FindKeyIs(b, other, o + 1);
    }
  }

  /** Setting a key updates exactly that entry of the body's map. */
  lemma {:induction false} SetBodyTable(body: Lines, key: string, f: string)
    ensures BodyTable(SetBody(body, key, f)) == BodyTable(body)[key := f]
  {
    hide Keys, ValueAt, SetBody;
    var b := SetBody(body, key, f);
    forall k ensures k in Keys(b) <==> k == key || k in Keys(body) {
      SetBodyEntry(body, key, f, k);
    }
    forall k | k in Keys(b) ensures ValueAt(b, k) == BodyTable(body)[key := f][k] {
      SetBodyEntry(body, key, f, k);
    }
  }

  lemma {:induction false} SetBodyEntry(body: Lines, key: string, f: string, k: string)
    ensures var b := SetBody(body, key, f);
      && (k in Keys(b) <==> k == key || k in Keys(body))
      && (k in Keys(b) ==> ValueAt(b, k) == if k == key then f else ValueAt(body, k))
  {
    hide FindKey, Keys, RenderKeyValue;
    SetBodyFinds(body, key, f, k);
    KeyFound(body, k);
    KeyFound(SetBody(body, key, f), k);
  }

  /** The last of two sets of one key wins, line for line. */
  lemma {:induction false} SetBodyTwice(body: Lines, key: string, f: string, g: string)
    ensures SetBody(SetBody(body, key, f), key, g) == SetBody(body, key, g)
  {
    SetBodyFinds(body, key, f, key);
    var b := SetBody(body, key, f);
    if FindKey(body, key) == |body| {
      assert b[0 := Pair(key, g, "")] == [Pair(key, g, "")] + body;
    }
  }

  /** Inserting a missing key and deleting it again changes no line. */
  lemma {:induction false} DropInserted(body: Lines, key: string, f: string)
    requires FindKey(body, key) == |body|
    ensures DropKey(SetBody(body, key, f), key) == body
  {
    SetBodyFinds(body, key, f, key);
    var b := SetBody(body, key, f);
    assert b[..0] + b[1..] == body;
  }

  lemma {:induction false} SetBodyUnique(body: Lines, key: string, f: string)
    requires UniqueKeys(body)
    ensures UniqueKeys(SetBody(body, key, f))
  {
    var b := SetBody(body, key, f);
    if FindKey(body, key) == |body| {
      assert forall i :: 0 < i < |b| ==> b[i] == body[i - 1];
      assert forall i :: 0 <= i < |body| ==> !HasKey(body[i], key);
    }
  }

  lemma {:induction false} DropKeyFinds(body: Lines, key: string, k: string)
    requires UniqueKeys(body) && FindKey(body, key) < |body|
    ensures var b, j, o := DropKey(body, key), FindKey(body, key), FindKey(body, k);
      FindKey(b, k) == if k == key then |b| else if o < j then o else o - 1
  {
    var b, j, o := DropKey(body, key), FindKey(body, key), FindKey(body, k);
    assert forall i :: 0 <= i < |b| ==> b[i] == body[if i < j then i else i + 1];
    FindKeyIs(b, k, if k == key then |b| else if o < j then o else o - 1);
  }

  lemma {:induction false} DropKeyUnique(body: Lines, key: string)
    requires UniqueKeys(body)
    ensures UniqueKeys(DropKey(body, key))
  {
    var b, j := DropKey(body, key), FindKey(body, key);
    if j < |body| {
      assert forall i :: 0 <= i < |b| ==> b[i] == body[if i < j then i else i + 1];
    }
  }

  lemma {:induction false} DropKeyEntry(body: Lines, key: string, k: string)
    requires UniqueKeys(body)
    ensures k in Keys(DropKey(body, key)) <==> k != key && k in Keys(body)
    ensures k != key && k in Keys(body) ==> ValueAt(DropKey(body, key), k) == ValueAt(body, k)
  {
    KeyFound(body, k);
    KeyFound(DropKey(body, key), k);
    if FindKey(body, key) < |body| {
      DropKeyFinds(body, key, k);
    }
  }

  lemma {:induction false} BodyTableWithout(b: Lines, body: Lines, key: string)
    requires forall k :: k in Keys(b) <==> k != key && k in Keys(body)
    requires forall k :: k in Keys(b) && k in Keys(body) ==> ValueAt(b, k) == ValueAt(body, k)
    ensures BodyTable(b) == BodyTable(body) - {key}
  {
  }

  /** With unique keys, deleting a key removes exactly that entry. */
  lemma {:induction false} DropKeyTable(body: Lines, key: string)
    requires UniqueKeys(body)
    ensures BodyTable(DropKey(body, key)) == BodyTable(body) - {key}
  {
    forall k { DropKeyEntry(body, key, k); }
    BodyTableWithout(DropKey(body, key), body, key);
  }

  // ---------------------------------------------------------------- editing a document

  function WithBody(d: Doc, i: nat, body: Lines): Doc
    requires i < |d.sections|
  {
    d.(sections := d.sections[i := d.sections[i].(body := body)])
  }

  lemma {:induction false} WithBodyEntry(d: Doc, name: string, body: Lines, n: string)
    requires FindSection(d.sections, name) < |d.sections|
    ensures var secs := WithBody(d, FindSection(d.sections, name), body).sections;
      && (n in Names(secs) <==> n in Names(d.sections))
      && (n in Names(secs) ==> BodyAt(secs, n) == if n == name then body else BodyAt(d.sections, n))
  {
    var i := FindSection(d.sections, name);
    var secs := WithBody(d, i, body).sections;
    FindSectionIs(secs, n, FindSection(d.sections, n));
    NameFound(secs, n);
    NameFound(d.sections, n);
  }

  /** Replacing the body found under a name updates exactly that entry of the table. */
  lemma {:induction false} WithBodyTable(d: Doc, name: string, body: Lines)
    requires FindSection(d.sections, name) < |d.sections|
    ensures TableOf(WithBody(d, FindSection(d.sections, name), body)) == TableOf(d)[name := BodyTable(body)]
  {
    NameFound(d.sections, name);
    hide Names, BodyAt, BodyTable, FindSection, WithBody;
    var secs := WithBody(d, FindSection(d.sections, name), body).sections;
    forall n
      ensures n in Names(secs) <==> n in Names(d.sections)
      ensures n in Names(secs) ==> BodyAt(secs, n) == if n == name then body else BodyAt(d.sections, n)
    {
      WithBodyEntry(d, name, body, n);
    }
  }

  lemma {:induction false} WithBodyUnambiguous(d: Doc, i: nat, body: Lines)
    requires Unambiguous(d) && i < |d.sections| && UniqueKeys(body)
    ensures Unambiguous(WithBody(d, i, body))
  {
  }

  /** `setDriveKeySnapshot`; `None` is its "section not found" error. */
  function SetKey(d: Doc, name: string, key: string, f: string): Option<Doc> {
    var i := FindSection(d.sections, name);
    if i < |d.sections| then Some(WithBody(d, i, SetBody(d.sections[i].body, key, f))) else None
  }

  /** `deleteDriveKeyFromSnapshot`. */
  function DeleteKey(d: Doc, name: string, key: string): Option<Doc> {
    var i := FindSection(d.sections, name);
    if i < |d.sections| then Some(WithBody(d, i, DropKey(d.sections[i].body, key))) else None
  }

  lemma {:induction false} SetKeyTwice(d: Doc, name: string, key: string, f: string, g: string)
    requires FindSection(d.sections, name) < |d.sections|
    ensures SetKey(SetKey(d, name, key, f).value, name, key, g) == SetKey(d, name, key, g)
  {
    var i := FindSection(d.sections, name);
    var d' := SetKey(d, name, key, f).value;
    FindSectionIs(d'.sections, name, i);
    SetBodyTwice(d.sections[i].body, key, f, g);
    assert d'.sections[i := SetKey(d, name, key, g).value.sections[i]] == SetKey(d, name, key, g).value.sections;
  }

  lemma {:induction false} WithBodiesCommute(d: Doc, i: nat, x: Lines, j: nat, y: Lines)
    requires i < |d.sections| && j < |d.sections| && i != j
    ensures WithBody(WithBody(d, i, x), j, y) == WithBody(WithBody(d, j, y), i, x)
  {
    assert WithBody(WithBody(d, i, x), j, y).sections == WithBody(WithBody(d, j, y), i, x).sections;
  }

  lemma {:induction false} SetKeysCommute(d: Doc, a: string, ka: string, fa: string, b: string, kb: string, fb: string)
    requires a != b && FindSection(d.sections, a) < |d.sections| && FindSection(d.sections, b) < |d.sections|
    ensures SetKey(SetKey(d, a, ka, fa).value, b, kb, fb) == SetKey(SetKey(d, b, kb, fb).value, a, ka, fa)
  {
    var i, j := FindSection(d.sections, a), FindSection(d.sections, b);
    FindSectionIs(SetKey(d, a, ka, fa).value.sections, b, j);
    FindSectionIs(SetKey(d, b, kb, fb).value.sections, a, i);
    WithBodiesCommute(d, i, SetBody(d.sections[i].body, ka, fa), j, SetBody(d.sections[j].body, kb, fb));
  }

  lemma {:induction false} DeleteInsertedKey(d: Doc, name: string, key: string, f: string)
    requires FindSection(d.sections, name) < |d.sections|
    requires key !in Keys(d.sections[FindSection(d.sections, name)].body)
    ensures DeleteKey(SetKey(d, name, key, f).value, name, key) == Some(d)
  {
    var i := FindSection(d.sections, name);
    var d' := SetKey(d, name, key, f).value;
    FindSectionIs(d'.sections, name, i);
    KeyFound(d.sections[i].body, key);
    DropInserted(d.sections[i].body, key, f);
    assert d'.sections[i := d.sections[i]] == d.sections;
  }

  // ---------------------------------------------------------------- whole sections

  const EMPTY_LINE := ParsedLine("", Blank)

  /** The body without its trailing blank lines and comments: where `sectionContentRange` ends. */
  function ContentLength(body: Lines): (n: nat)
    ensures n <= |body|
    ensures forall i :: n <= i < |body| ==> Padding(body[i].shape)
    ensures n > 0 ==> !Padding(body[n - 1].shape)
  {
    if body != [] && Padding(body[|body| - 1].shape) then ContentLength(body[..|body| - 1]) else |body|
  }

  lemma {:induction false} ContentLengthIs(body: Lines, n: nat)
    requires n <= |body| && (n > 0 ==> !Padding(body[n - 1].shape))
    requires forall i :: n <= i < |body| ==> Padding(body[i].shape)
    ensures ContentLength(body) == n
  {
    var k := ContentLength(body);
    assert !(k < n) && !(n < k);
  }

  /** The trailing blank lines and comments, which belong to the section that follows. */
  function Tail(body: Lines): Lines {
    body[ContentLength(body)..]
  }

  function StripBlanks(ls: Lines): (r: Lines)
    ensures |r| <= |ls| && r == ls[..|r|]
    ensures forall i :: |r| <= i < |ls| ==> ls[i].shape.Blank?
    ensures r == [] || !r[|r| - 1].shape.Blank?
  {
    if ls != [] && ls[|ls| - 1].shape.Blank? then StripBlanks(ls[..|ls| - 1]) else ls
  }

  lemma {:induction false} StripBlanksIs(ls: Lines, n: nat)
    requires n <= |ls| && (n > 0 ==> !ls[n - 1].shape.Blank?)
    requires forall i :: n <= i < |ls| ==> ls[i].shape.Blank?
    ensures StripBlanks(ls) == ls[..n]
  {
    var r := StripBlanks(ls);
    assert !(|r| < n) && !(n < |r|);
  }

  function LastBody(d: Doc): Lines {
    if d.sections == [] then d.preamble else d.sections[|d.sections| - 1].body
  }

  function WithLastBody(d: Doc, body: Lines): Doc {
    if d.sections == [] then d.(preamble := body) else WithBody(d, |d.sections| - 1, body)
  }

  /** Document made of the sections before index `i`. */
  function Before(d: Doc, i: nat): Doc
    requires i <= |d.sections|
  {
    Doc(d.preamble, d.sections[..i])
  }

  function AddSections(d: Doc, secs: seq<Section>): Doc {
    d.(sections := d.sections + secs)
  }

  /** `deleteDriveSectionFromSnapshot`: the header, its content and the blank lines above go;
      the trailing comments and blank lines stay. */
  function DeleteSection(d: Doc, name: string): Option<Doc> {
    var i := FindSection(d.sections, name);
    if i == |d.sections| then None
    else
      var before := Before(d, i);
      var last := StripBlanks(LastBody(before)) + Tail(d.sections[i].body);
      Some(AddSections(WithLastBody(before, last), d.sections[i + 1..]))
  }

  /** The text ends in a newline or is empty. */
  predicate EndsLine(d: Doc) {
    var b := LastBody(d);
    b != [] && b[|b| - 1] == EMPTY_LINE
  }

  function CloseLine(d: Doc): Doc {
    if EndsLine(d) then d else WithLastBody(d, LastBody(d) + [EMPTY_LINE])
  }

  /** The header line of a name that quoting leaves alone (see HeaderReadsBack). */
  function HeaderLine(name: string): ParsedLine {
    ParsedLine(RenderHeader(name), Header(name))
  }

  function NewSection(name: string, dir: string): Section {
    Section(HeaderLine(name), [Pair("sync_dir", Quote(dir), ""), EMPTY_LINE])
  }

  /** `appendDriveSectionSnapshot` on an existing file. */
  function AppendSection(d: Doc, name: string, dir: string): Doc {
    AddSections(CloseLine(d), [NewSection(name, dir)])
  }

  // ---------------------------------------------------------------- effect on the table

  predicate NoPairs(ls: Lines) {
    forall i :: 0 <= i < |ls| ==> !ls[i].shape.KeyValue?
  }

  lemma {:induction false} SuffixTable(b: Lines, t: Lines)
    requires NoPairs(t)
    ensures BodyTable(b + t) == BodyTable(b)
    ensures UniqueKeys(b + t) <==> UniqueKeys(b)
  {
    forall k ensures k in Keys(b + t) <==> k in Keys(b) {
      if k in Keys(b) {
        KeyFound(b, k);
        assert (b + t)[FindKey(b, k)] == b[FindKey(b, k)];
      }
    }
    forall k | k in Keys(b) ensures ValueAt(b + t, k) == ValueAt(b, k) {
      KeyFound(b, k);
      FindKeyIs(b + t, k, FindKey(b, k));
    }
    if UniqueKeys(b + t) {
      assert forall i :: 0 <= i < |b| ==> b[i] == (b + t)[i];
    }
  }

  lemma {:induction false} RetailTable(b: Lines, t: Lines)
    requires NoPairs(t)
    ensures BodyTable(StripBlanks(b) + t) == BodyTable(b)
    ensures UniqueKeys(StripBlanks(b) + t) <==> UniqueKeys(b)
  {
    var r := StripBlanks(b);
    assert b == r + b[|r|..];
    SuffixTable(r, b[|r|..]);
    SuffixTable(r, t);
  }

  lemma {:induction false} LastBodyTable(d: Doc, body: Lines)
    requires UniqueNames(d.sections) && BodyTable(body) == BodyTable(LastBody(d))
    requires forall i :: 0 <= i < |d.sections| ==> d.sections[i].header.shape.Header?
    ensures TableOf(WithLastBody(d, body)) == TableOf(d)
    ensures UniqueNames(WithLastBody(d, body).sections)
  {
    if d.sections != [] {
      var i := |d.sections| - 1;
      var name := d.sections[i].header.shape.name;
      FindSectionIs(d.sections, name, i);
      NameFound(d.sections, name);
      WithBodyTable(d, name, body);
      assert TableOf(d)[name] == BodyTable(LastBody(d));
    }
  }

  lemma {:induction false} ConcatEntry(a: seq<Section>, b: seq<Section>, n: string)
    ensures n in Names(a + b) <==> n in Names(a) || n in Names(b)
    ensures n in Names(a) ==> BodyAt(a + b, n) == BodyAt(a, n)
    ensures n !in Names(a) && n in Names(b) ==> BodyAt(a + b, n) == BodyAt(b, n)
  {
    NameFound(a, n);
    NameFound(b, n);
    NameFound(a + b, n);
    var i, j := FindSection(a, n), FindSection(b, n);
    FindSectionIs(a + b, n, if i < |a| then i else |a| + j);
  }

  /** Earlier sections win over later ones of the same name. */
  lemma {:induction false} ConcatTable(a: seq<Section>, b: seq<Section>)
    ensures SectionsTable(a + b) == SectionsTable(b) + SectionsTable(a)
  {
    forall n { ConcatEntry(a, b, n); }
  }

  lemma {:induction false} SingleTable(s: Section)
    requires s.header.shape.Header?
    ensures SectionsTable([s]) == map[s.header.shape.name := BodyTable(s.body)]
  {
    var name := s.header.shape.name;
    FindSectionIs([s], name, 0);
    NameFound([s], name);
    assert Names([s]) == {name};
  }

  lemma {:induction false} NewSectionTable(name: string, dir: string)
    ensures BodyTable(NewSection(name, dir).body) == map["sync_dir" := Quote(dir)]
    ensures UniqueKeys(NewSection(name, dir).body)
  {
    var s := NewSection(name, dir);
    SetBodyTable([], "sync_dir", Quote(dir));
    assert s.body == SetBody([], "sync_dir", Quote(dir)) + [EMPTY_LINE];
    SuffixTable(SetBody([], "sync_dir", Quote(dir)), [EMPTY_LINE]);
  }

  lemma {:induction false} CloseLineTable(d: Doc)
    requires WellFormed(d) && Unambiguous(d)
    ensures TableOf(CloseLine(d)) == TableOf(d) && Unambiguous(CloseLine(d))
  {
    if !EndsLine(d) {
      SuffixTable(LastBody(d), [EMPTY_LINE]);
      LastBodyTable(d, LastBody(d) + [EMPTY_LINE]);
    }
  }

  lemma {:induction false} NamesAreKeys(d: Doc, i: nat)
    requires i < |d.sections| && d.sections[i].header.shape.Header?
    ensures d.sections[i].header.shape.name in TableOf(d)
  {
    assert d.sections[i].header.shape.name in Names(d.sections);
  }

  lemma {:induction false} AddSectionUnambiguous(d: Doc, s: Section)
    requires Unambiguous(d) && s.header.shape.Header? && s.header.shape.name !in TableOf(d) && UniqueKeys(s.body)
    ensures Unambiguous(AddSections(d, [s]))
  {
    forall i | 0 <= i < |d.sections| && d.sections[i].header.shape.Header?
      ensures d.sections[i].header.shape.name != s.header.shape.name
    {
      NamesAreKeys(d, i);
    }
  }

  lemma {:induction false} MergeAdd<V>(t: map<string, V>, n: string, v: V)
    requires n !in t
    ensures map[n := v] + t == t[n := v]
  {
  }

  lemma {:induction false} AddSectionTable(d: Doc, s: Section)
    requires s.header.shape.Header? && s.header.shape.name !in TableOf(d)
    ensures TableOf(AddSections(d, [s])) == TableOf(d)[s.header.shape.name := BodyTable(s.body)]
  {
    ConcatTable(d.sections, [s]);
    SingleTable(s);
    MergeAdd(TableOf(d), s.header.shape.name, BodyTable(s.body));
  }

  /** Appending an absent name adds one entry holding the sync directory. */
  lemma {:induction false} AppendTable(d: Doc, name: string, dir: string)
    requires WellFormed(d) && Unambiguous(d) && name !in TableOf(d)
    ensures TableOf(AppendSection(d, name, dir)) == TableOf(d)[name := map["sync_dir" := Quote(dir)]]
    ensures Unambiguous(AppendSection(d, name, dir))
  {
    CloseLineTable(d);
    NewSectionTable(name, dir);
    AddSectionTable(CloseLine(d), NewSection(name, dir));
    AddSectionUnambiguous(CloseLine(d), NewSection(name, dir));
  }

  /** Appending a name that is there leaves every first match alone, but the file has two such headers. */
  lemma {:induction false} AppendDuplicate(d: Doc, name: string, dir: string)
    requires WellFormed(d) && Unambiguous(d) && name in TableOf(d)
    ensures TableOf(AppendSection(d, name, dir)) == TableOf(d)
    ensures !Unambiguous(AppendSection(d, name, dir))
  {
    CloseLineTable(d);
    AddDuplicate(CloseLine(d), NewSection(name, dir));
    hide CloseLine, TableOf, Unambiguous, AddSections, WellFormed;
  }

  lemma {:induction false} AddDuplicate(c: Doc, s: Section)
    requires s.header.shape.Header? && s.header.shape.name in TableOf(c)
    ensures TableOf(AddSections(c, [s])) == TableOf(c) && !Unambiguous(AddSections(c, [s]))
  {
    hide BodyTable, BodyAt, UniqueKeys;
    var name, t := s.header.shape.name, SectionsTable(c.sections);
    ConcatTable(c.sections, [s]);
    SingleTable(s);
    MergeOld(t, name, BodyTable(s.body));
    NameFound(c.sections, name);
    var i, n := FindSection(c.sections, name), |c.sections|;
    var all := AddSections(c, [s]).sections;
    hide SectionsTable;
    assert all[i] == c.sections[i] && all[n] == s;
  }

  lemma {:induction false} MergeOld<V>(t: map<string, V>, n: string, v: V)
    requires n in t
    ensures map[n := v] + t == t
  {
  }

  lemma {:induction false} MergeRemove<V>(ta: map<string, V>, tc: map<string, V>, n: string, v: V)
    requires n !in ta && n !in tc
    ensures tc + ta == (tc + (map[n := v] + ta)) - {n}
  {
  }

  lemma {:induction false} RemoveMiddle(a: seq<Section>, s: Section, c: seq<Section>, all: seq<Section>)
    requires s.header.shape.Header? && all == a + [s] + c
    requires s.header.shape.name !in SectionsTable(a) && s.header.shape.name !in SectionsTable(c)
    ensures SectionsTable(c) + SectionsTable(a) == SectionsTable(all) - {s.header.shape.name}
  {
    ConcatTable(a + [s], c);
    ConcatTable(a, [s]);
    SingleTable(s);
    MergeRemove(SectionsTable(a), SectionsTable(c), s.header.shape.name, BodyTable(s.body));
  }

  lemma {:induction false} NameElsewhere(d: Doc, i: nat)
    requires WellFormed(d) && UniqueNames(d.sections) && i < |d.sections|
    ensures d.sections[i].header.shape.name !in SectionsTable(d.sections[..i])
    ensures d.sections[i].header.shape.name !in SectionsTable(d.sections[i + 1..])
  {
  }

  /** Deleting a section removes exactly that entry; the sections around it read as before. */
  lemma {:induction false} DeleteTable(d: Doc, name: string)
    requires WellFormed(d) && Unambiguous(d) && name in TableOf(d)
    ensures DeleteSection(d, name).Some?
    ensures TableOf(DeleteSection(d, name).value) == TableOf(d) - {name}
    ensures Unambiguous(DeleteSection(d, name).value)
  {
    TableNames(d, name);
    hide BodyTable, StripBlanks, ContentLength, SectionsTable, Tail, UniqueKeys;
    NameFound(d.sections, name);
    var i := FindSection(d.sections, name);
    var before, s, rest := Before(d, i), d.sections[i], d.sections[i + 1..];
    var last := StripBlanks(LastBody(before)) + Tail(s.body);
    RetailedBefore(d, i, last);
    ConcatTable(WithLastBody(before, last).sections, rest);
    SplitAt(d.sections, i);
    NameElsewhere(d, i);
    RemoveMiddle(before.sections, s, rest, d.sections);
    DeleteUnambiguous(d, i, last);
  }

  lemma {:induction false} SplitAt<T>(s: seq<T>, i: nat)
    requires i < |s|
    ensures s == s[..i] + [s[i]] + s[i + 1..]
  {
  }

  lemma {:induction false} SplitTwice<T>(s: seq<T>, i: nat, j: nat)
    requires i <= j <= |s|
    ensures s == s[..i] + s[i..j] + s[j..]
  {
  }

  lemma {:induction false} TableNames(d: Doc, name: string)
    ensures name in TableOf(d) <==> name in Names(d.sections)
  {
  }

  /** Giving the section before other trailing lines changes no entry and repeats no key. */
  lemma {:induction false} RetailedBefore(d: Doc, i: nat, last: Lines)
    requires WellFormed(d) && Unambiguous(d) && i < |d.sections|
    requires last == StripBlanks(LastBody(Before(d, i))) + Tail(d.sections[i].body)
    ensures TableOf(WithLastBody(Before(d, i), last)) == TableOf(Before(d, i))
    ensures i > 0 ==> UniqueKeys(LastBody(Before(d, i))) && (UniqueKeys(LastBody(Before(d, i))) ==> UniqueKeys(last))
  {
    hide BodyTable, StripBlanks, ContentLength, SectionsTable;
    RetailTable(LastBody(Before(d, i)), Tail(d.sections[i].body));
    LastBodyTable(Before(d, i), last);
  }

  lemma {:induction false} DeleteUnambiguous(d: Doc, i: nat, last: Lines)
    requires Unambiguous(d) && i < |d.sections| && (i > 0 ==> UniqueKeys(last))
    ensures Unambiguous(AddSections(WithLastBody(Before(d, i), last), d.sections[i + 1..]))
  {
    var secs := AddSections(WithLastBody(Before(d, i), last), d.sections[i + 1..]).sections;
    assert forall j :: 0 <= j < |secs| ==> secs[j].header == d.sections[if j < i then j else j + 1].header;
    assert forall j :: 0 <= j < |secs| && j + 1 != i ==> secs[j] == d.sections[if j < i then j else j + 1];
  }

  // ---------------------------------------------------------------- undoing an append

  /** The document with its trailing blank lines replaced by one empty line. */
  function TidyDoc(d: Doc): Doc {
    WithLastBody(d, StripBlanks(LastBody(d)) + [EMPTY_LINE])
  }

  lemma {:induction false} StripAddedBlank(b: Lines, t: Lines)
    requires forall i :: 0 <= i < |t| ==> t[i].shape.Blank?
    ensures StripBlanks(b + t) == StripBlanks(b)
  {
    var n := |StripBlanks(b)|;
    StripBlanksIs(b + t, n);
    assert (b + t)[..n] == b[..n];
  }

  lemma {:induction false} WithLastBodyTwice(d: Doc, x: Lines, y: Lines)
    ensures LastBody(WithLastBody(d, x)) == x
    ensures WithLastBody(WithLastBody(d, x), y) == WithLastBody(d, y)
    ensures WithLastBody(d, LastBody(d)) == d
  {
    if d.sections != [] {
      var i := |d.sections| - 1;
      assert WithBody(WithBody(d, i, x), i, y).sections == WithBody(d, i, y).sections;
      assert WithBody(d, i, d.sections[i].body).sections == d.sections;
    }
  }

  lemma {:induction false} TidyClosed(d: Doc)
    ensures TidyDoc(CloseLine(d)) == TidyDoc(d)
    ensures EndsLine(TidyDoc(d))
  {
    WithLastBodyTwice(d, LastBody(d) + [EMPTY_LINE], StripBlanks(LastBody(d)) + [EMPTY_LINE]);
    WithLastBodyTwice(d, StripBlanks(LastBody(d)) + [EMPTY_LINE], []);
    StripAddedBlank(LastBody(d), [EMPTY_LINE]);
  }

  /** Deleting a section that was added behind `d`, with anything else added behind it. */
  lemma {:induction false} DeleteAdded(d: Doc, name: string, dir: string, more: seq<Section>)
    requires FindSection(d.sections, name) == |d.sections|
    ensures DeleteSection(AddSections(AddSections(d, [NewSection(name, dir)]), more), name)
      == Some(AddSections(TidyDoc(d), more))
  {
    var s, n := NewSection(name, dir), |d.sections|;
    var all := AddSections(AddSections(d, [s]), more);
    FindSectionIs(all.sections, name, n);
    assert Before(all, n) == d && all.sections[n + 1..] == more;
    ContentLengthIs(s.body, 1);
  }

  lemma {:induction false} CloseLineNames(d: Doc, name: string)
    ensures FindSection(CloseLine(d).sections, name) == |CloseLine(d).sections|
      <==> FindSection(d.sections, name) == |d.sections|
  {
    FindSectionIs(CloseLine(d).sections, name, FindSection(d.sections, name));
  }

  /** Append then delete leaves the document with tidied trailing blank lines. */
  lemma {:induction false} AppendDelete(d: Doc, name: string, dir: string)
    requires FindSection(d.sections, name) == |d.sections|
    ensures DeleteSection(AppendSection(d, name, dir), name) == Some(TidyDoc(d))
  {
    CloseLineNames(d, name);
    DeleteAdded(CloseLine(d), name, dir, []);
    assert AddSections(AppendSection(d, name, dir), []) == AppendSection(d, name, dir);
    TidyClosed(d);
    assert AddSections(TidyDoc(d), []) == TidyDoc(d);
  }

  /** Append `a`, append `b`, delete `a` is appending `b` to the tidied document. */
  lemma {:induction false} AppendAppendDelete(d: Doc, a: string, x: string, b: string, y: string)
    requires FindSection(d.sections, a) == |d.sections|
    ensures DeleteSection(AppendSection(AppendSection(d, a, x), b, y), a) == Some(AppendSection(TidyDoc(d), b, y))
  {
    CloseLineNames(d, a);
    DeleteAdded(CloseLine(d), a, x, [NewSection(b, y)]);
    TidyClosed(d);
    assert EndsLine(AppendSection(d, a, x));
  }
}
