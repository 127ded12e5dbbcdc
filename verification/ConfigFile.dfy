/** The configured drive record and how a section's entries decode to it. */
module DriveConfig {
  import opened Text

  /** `config.Drive` with its filter fields. */
  datatype Drive = Drive(
    syncDir: string,
    paused: Option<bool>,
    pausedUntil: Option<string>,
    displayName: string,
    owner: string,
    ignoredDirs: seq<string>,
    includedDirs: seq<string>,
    ignoredPaths: seq<string>,
    ignoreDotfiles: bool,
    ignoreJunkFiles: bool,
    followSymlinks: bool)

  /** The drive record with only a sync directory. */
  function OnlySyncDir(dir: string): Drive {
    Drive(dir, None, None, "", "", [], [], [], false, false, false)
  }

  /** How the TOML library reads one value text; the results hold for every such library. */
  datatype Values = Values(str: string -> string, flag: string -> bool, list: string -> seq<string>)

  function Str(v: Values, m: map<string, string>, key: string): string {
    if key in m then v.str(m[key]) else ""
  }

  function Flag(v: Values, m: map<string, string>, key: string): bool {
    key in m && v.flag(m[key])
  }

  function List(v: Values, m: map<string, string>, key: string): seq<string> {
    if key in m then v.list(m[key]) else []
  }

  /** The drive a section decodes to. */
  function Decode(v: Values, m: map<string, string>): Drive {
    Drive(
      Str(v, m, "sync_dir"),
      if "paused" in m then Some(v.flag(m["paused"])) else None,
      if "paused_until" in m then Some(v.str(m["paused_until"])) else None,
      Str(v, m, "display_name"),
      Str(v, m, "owner"),
      List(v, m, "ignored_dirs"),
      List(v, m, "included_dirs"),
      List(v, m, "ignored_paths"),
      Flag(v, m, "ignore_dotfiles"),
      Flag(v, m, "ignore_junk_files"),
      Flag(v, m, "follow_symlinks"))
  }

  /** A library function reads the same under a key of both sections, absent keys reading as `absent`. */
  predicate Alike<T(==)>(m: map<string, string>, n: map<string, string>, k: string, read: string -> T, absent: T) {
    (if k in m then read(m[k]) else absent) == (if k in n then read(n[k]) else absent)
  }

  /** Two sections decode to the same drive exactly if the library reads the same under each of the eleven keys. */
  lemma {:induction false} DecodeTells(v: Values, m: map<string, string>, n: map<string, string>)
    ensures Decode(v, m) == Decode(v, n) <==>
      && Alike(m, n, "sync_dir", v.str, "") && Alike(m, n, "display_name", v.str, "") && Alike(m, n, "owner", v.str, "")
      && Alike(m, n, "ignored_dirs", v.list, []) && Alike(m, n, "included_dirs", v.list, [])
      && Alike(m, n, "ignored_paths", v.list, []) && Alike(m, n, "ignore_dotfiles", v.flag, false)
      && Alike(m, n, "ignore_junk_files", v.flag, false) && Alike(m, n, "follow_symlinks", v.flag, false)
      && ("paused" in m <==> "paused" in n) && Alike(m, n, "paused", v.flag, false)
      && ("paused_until" in m <==> "paused_until" in n) && Alike(m, n, "paused_until", v.str, "")
  {
  }

  /** The text under this key reads as something else than the record has there. */
  predicate Contradicts(v: Values, k: string, text: string, d: Drive) {
    || (k == "sync_dir" && v.str(text) != d.syncDir)
    || (k == "paused" && d.paused != Some(v.flag(text)))
    || (k == "paused_until" && d.pausedUntil != Some(v.str(text)))
    || (k == "display_name" && v.str(text) != d.displayName)
    || (k == "owner" && v.str(text) != d.owner)
    || (k == "ignored_dirs" && v.list(text) != d.ignoredDirs)
    || (k == "included_dirs" && v.list(text) != d.includedDirs)
    || (k == "ignored_paths" && v.list(text) != d.ignoredPaths)
    || (k == "ignore_dotfiles" && v.flag(text) != d.ignoreDotfiles)
    || (k == "ignore_junk_files" && v.flag(text) != d.ignoreJunkFiles)
    || (k == "follow_symlinks" && v.flag(text) != d.followSymlinks)
  }

  lemma {:induction false} ContradictedDiffers(v: Values, m: map<string, string>, k: string, d: Drive)
    requires k in m && Contradicts(v, k, m[k], d)
    ensures Decode(v, m) != d
  {
  }
}

/** `config.toml` on disk: the read-modify-write operations of `write.go`, in the source's own loops. */
module ConfigFile {
  import opened Text
  import opened TomlLines
  import opened ConfigDoc
  import opened ConfigText
  import opened DriveConfig
  import opened DriveLookup
  import opened CanonicalId

  // ---------------------------------------------------------------- indices and documents

  /** `h` is a header and `next` is where its section ends. */
  predicate SectionAt(ls: Lines, h: nat, next: nat) {
    && h < next <= |ls| && ls[h].shape.Header?
    && (forall i :: h < i < next ==> !ls[i].shape.Header?)
    && (next < |ls| ==> ls[next].shape.Header?)
  }

  lemma {:induction false} BlocksCons(hd: ParsedLine, body: Lines, rest: Lines)
    requires hd.shape.Header? && Plain(body) && (rest == [] || rest[0].shape.Header?)
    ensures Blocks([hd] + (body + rest)) == Doc([], [Section(hd, body)] + Blocks(rest).sections)
  {
    BlocksPlain(body);
    BlocksConcat(body, rest);
    assert ([hd] + (body + rest))[1..] == body + rest;
  }

  lemma {:induction false} BlocksParts(front: Lines, hd: ParsedLine, body: Lines, rest: Lines)
    requires hd.shape.Header? && Plain(body) && (rest == [] || rest[0].shape.Header?)
    ensures Blocks(front + ([hd] + (body + rest)))
      == Doc(Blocks(front).preamble, Blocks(front).sections + ([Section(hd, body)] + Blocks(rest).sections))
  {
    BlocksCons(hd, body, rest);
    BlocksConcat(front, [hd] + (body + rest));
  }

  lemma {:induction false} BlocksAt(ls: Lines, h: nat, next: nat)
    requires SectionAt(ls, h, next)
    ensures Blocks(ls) == Doc(Blocks(ls[..h]).preamble,
      Blocks(ls[..h]).sections + ([Section(ls[h], ls[h + 1..next])] + Blocks(ls[next..]).sections))
  {
    assert ls == ls[..h] + ([ls[h]] + (ls[h + 1..next] + ls[next..]));
    BlocksParts(ls[..h], ls[h], ls[h + 1..next], ls[next..]);
  }

  lemma {:induction false} NamesBefore(ls: Lines, name: string)
    requires forall i :: 0 <= i < |ls| ==> !HasName(ls[i], name)
    ensures forall i :: 0 <= i < |Blocks(ls).sections| ==> !HasName(Blocks(ls).sections[i].header, name)
  {
    if ls != [] {
      NamesBefore(ls[1..], name);
    }
  }

  /** The section at a header index is the one the document operations find. */
  lemma {:induction false} FoundAt(ls: Lines, h: nat, next: nat, name: string)
    requires SectionAt(ls, h, next) && HasName(ls[h], name)
    requires forall i :: 0 <= i < h ==> !HasName(ls[i], name)
    ensures var secs, i := Blocks(ls).sections, |Blocks(ls[..h]).sections|;
      FindSection(secs, name) == i && i < |secs| && secs[i] == Section(ls[h], ls[h + 1..next])
  {
    BlocksAt(ls, h, next);
    NamesBefore(ls[..h], name);
    FindSectionIs(Blocks(ls).sections, name, |Blocks(ls[..h]).sections|);
  }

  lemma {:induction false} NotFound(ls: Lines, name: string)
    requires forall i :: 0 <= i < |ls| ==> !HasName(ls[i], name)
    ensures FindSection(Blocks(ls).sections, name) == |Blocks(ls).sections|
    ensures DeleteSection(Blocks(ls), name).None?
  {
    NamesBefore(ls, name);
    FindSectionIs(Blocks(ls).sections, name, |Blocks(ls).sections|);
  }

  lemma {:induction false} FlattenTail(ls: Lines)
    requires ls == [] || ls[0].shape.Header?
    ensures FlattenSections(Blocks(ls).sections) == ls
  {
    FlattenBlocks(ls);
  }

  lemma {:induction false} FlattenParts(front: Lines, s: Section, rest: Lines)
    requires rest == [] || rest[0].shape.Header?
    ensures Flatten(Doc(Blocks(front).preamble, Blocks(front).sections + ([s] + Blocks(rest).sections)))
      == front + (([s.header] + s.body) + rest)
  {
    hide Blocks, FlattenSections;
    var a, c := Blocks(front), Blocks(rest);
    FlattenConcat(a.sections, [s] + c.sections);
    FlattenCons(s, c.sections);
    FlattenBlocks(front);
    FlattenTail(rest);
    Associate(a.preamble, FlattenSections(a.sections), [s.header] + s.body + rest);
  }

  /** Replacing the lines of a section replaces its body. */
  lemma {:induction false} FlattenReplaced(ls: Lines, h: nat, next: nat, body: Lines)
    requires SectionAt(ls, h, next)
    ensures |Blocks(ls[..h]).sections| < |Blocks(ls).sections|
    ensures Flatten(WithBody(Blocks(ls), |Blocks(ls[..h]).sections|, body)) == ls[..h + 1] + body + ls[next..]
  {
    BlocksAt(ls, h, next);
    var a, c := Blocks(ls[..h]).sections, Blocks(ls[next..]).sections;
    assert WithBody(Blocks(ls), |a|, body).sections == a + ([Section(ls[h], body)] + c);
    FlattenParts(ls[..h], Section(ls[h], body), ls[next..]);
    assert ls[..h] + (([ls[h]] + body) + ls[next..]) == ls[..h + 1] + body + ls[next..];
  }

  lemma {:induction false} DeletedFront(front: Lines, tail: Lines)
    ensures var before := Blocks(front);
      Flatten(WithLastBody(before, StripBlanks(LastBody(before)) + tail)) == StripBlanks(front) + tail
  {
    FlattenBlocks(front);
    BlocksGood(front);
    StripFlat(Blocks(front), tail);
  }

  lemma {:induction false} DeletedParts(front: Lines, tail: Lines, rest: Lines)
    requires rest == [] || rest[0].shape.Header?
    ensures var before := Blocks(front);
      Flatten(AddSections(WithLastBody(before, StripBlanks(LastBody(before)) + tail), Blocks(rest).sections))
        == StripBlanks(front) + tail + rest
  {
    hide FlattenSections, StripBlanks, Blocks;
    DeletedFront(front, tail);
    var before := Blocks(front);
    FlattenConcat(WithLastBody(before, StripBlanks(LastBody(before)) + tail).sections, Blocks(rest).sections);
    FlattenTail(rest);
  }

  lemma {:induction false} TailAt(ls: Lines, h: nat, next: nat, end: nat)
    requires SectionAt(ls, h, next)
    requires h < end <= next && (forall i :: end <= i < next ==> Padding(ls[i].shape))
    requires end > h + 1 ==> !Padding(ls[end - 1].shape)
    ensures Tail(ls[h + 1..next]) == ls[end..next]
  {
    ContentLengthIs(ls[h + 1..next], end - (h + 1));
  }

  lemma {:induction false} DeleteFound(d: Doc, i: nat, name: string, front: Lines, rest: Lines)
    requires rest == [] || rest[0].shape.Header?
    requires i < |d.sections| && FindSection(d.sections, name) == i
    requires Before(d, i) == Blocks(front) && d.sections[i + 1..] == Blocks(rest).sections
    ensures DeleteSection(d, name).Some?
    ensures Flatten(DeleteSection(d, name).value) == StripBlanks(front) + Tail(d.sections[i].body) + rest
  {
    DeletedParts(front, Tail(d.sections[i].body), rest);
  }

  lemma {:induction false} PartsAt(ls: Lines, h: nat, next: nat, name: string)
    requires SectionAt(ls, h, next) && HasName(ls[h], name)
    requires forall i :: 0 <= i < h ==> !HasName(ls[i], name)
    ensures var d, i := Blocks(ls), |Blocks(ls[..h]).sections|;
      && i < |d.sections| && FindSection(d.sections, name) == i && d.sections[i].body == ls[h + 1..next]
      && Before(d, i) == Blocks(ls[..h]) && d.sections[i + 1..] == Blocks(ls[next..]).sections
  {
    FoundAt(ls, h, next, name);
    BlocksAt(ls, h, next);
  }

  /** The lines the source keeps when it deletes a section are those of the document operation. */
  lemma {:induction false} FlattenDeleted(ls: Lines, h: nat, next: nat, end: nat, name: string)
    requires SectionAt(ls, h, next) && HasName(ls[h], name)
    requires forall i :: 0 <= i < h ==> !HasName(ls[i], name)
    requires h < end <= next && (forall i :: end <= i < next ==> Padding(ls[i].shape))
    requires end > h + 1 ==> !Padding(ls[end - 1].shape)
    ensures DeleteSection(Blocks(ls), name).Some?
    ensures Flatten(DeleteSection(Blocks(ls), name).value) == StripBlanks(ls[..h]) + ls[end..next] + ls[next..]
  {
    hide Blocks, Flatten, StripBlanks, DeleteSection, Tail, FindSection, Before, HasName;
    RestHeader(ls, h, next);
    PartsAt(ls, h, next, name);
    TailAt(ls, h, next, end);
    DeleteFoundAt(Blocks(ls), name, ls[..h], ls[h + 1..next], ls[end..next], ls[next..]);
  }

  lemma {:induction false} DeleteFoundAt(d: Doc, name: string, front: Lines, body: Lines, tail: Lines, rest: Lines)
    requires rest == [] || rest[0].shape.Header?
    requires var i := |Blocks(front).sections|;
      && i < |d.sections| && FindSection(d.sections, name) == i && d.sections[i].body == body
      && Before(d, i) == Blocks(front) && d.sections[i + 1..] == Blocks(rest).sections
    requires Tail(body) == tail
    ensures DeleteSection(d, name).Some?
    ensures Flatten(DeleteSection(d, name).value) == StripBlanks(front) + tail + rest
  {
    hide Blocks, Flatten, StripBlanks, DeleteSection, Tail, FindSection, Before;
    DeleteFound(d, |Blocks(front).sections|, name, front, rest);
  }

  lemma {:induction false} RestHeader(ls: Lines, h: nat, next: nat)
    requires SectionAt(ls, h, next)
    ensures ls[next..] == [] || ls[next..][0].shape.Header?
  {
  }

  lemma {:induction false} BodyKeyAt(ls: Lines, h: nat, next: nat, end: nat, key: string, idx: nat, found: bool)
    requires h < end <= next <= |ls| && (forall i :: end <= i < next ==> Padding(ls[i].shape))
    requires found ==> h < idx < end && HasKey(ls[idx], key) && forall i :: h < i < idx ==> !HasKey(ls[i], key)
    requires !found ==> forall i :: h < i < end ==> !HasKey(ls[i], key)
    ensures FindKey(ls[h + 1..next], key) == if found then idx - (h + 1) else next - (h + 1)
  {
    FindKeyIs(ls[h + 1..next], key, if found then idx - (h + 1) else next - (h + 1));
  }

  lemma {:induction false} UpdateInside(ls: Lines, h: nat, next: nat, j: nat, x: ParsedLine)
    requires h < next <= |ls| && j < next - (h + 1)
    ensures ls[..h + 1] + ls[h + 1..next][j := x] + ls[next..] == ls[h + 1 + j := x]
  {
  }

  lemma {:induction false} InsertInside(ls: Lines, h: nat, next: nat, x: ParsedLine)
    requires h < next <= |ls|
    ensures ls[..h + 1] + ([x] + ls[h + 1..next]) + ls[next..] == ls[..h + 1] + [x] + ls[h + 1..]
  {
    assert ls[h + 1..next] + ls[next..] == ls[h + 1..];
  }

  lemma {:induction false} RemoveInside(ls: Lines, h: nat, next: nat, j: nat)
    requires h < next <= |ls| && j < next - (h + 1)
    ensures var b := ls[h + 1..next];
      ls[..h + 1] + (b[..j] + b[j + 1..]) + ls[next..] == ls[..h + 1 + j] + ls[h + 1 + j + 1..]
  {
  }

  lemma {:induction false} UpdateRaws(ls: Lines, i: nat, x: ParsedLine, y: ParsedLine)
    requires i < |ls| && x.raw == y.raw
    ensures RenderLines(ls[i := x]) == RenderLines(ls[i := y])
  {
    assert Raws(ls[i := x]) == Raws(ls[i := y]);
  }

  lemma {:induction false} InsertRaws(a: Lines, x: ParsedLine, y: ParsedLine, b: Lines)
    requires x.raw == y.raw
    ensures RenderLines(a + [x] + b) == RenderLines(a + [y] + b)
  {
    assert Raws(a + [x] + b) == Raws(a + [y] + b);
  }

  /** Replacing the raw text of one line, or inserting one, is what SetBody does to the section. */
  lemma {:induction false} SetRendered(ls: Lines, h: nat, next: nat, key: string, f: string, idx: nat, found: bool,
                                       now: Lines)
    requires h < next <= |ls| && (found ==> h < idx < next && ls[idx].shape.KeyValue?)
    requires FindKey(ls[h + 1..next], key) == if found then idx - (h + 1) else next - (h + 1)
    requires found ==> now == ls[idx := ls[idx].(raw := RenderKeyValue(key, f, ls[idx].shape.comment))]
    requires !found ==> now == ls[..h + 1] + [ParseLine(RenderKeyValue(key, f, ""))] + ls[h + 1..]
    ensures RenderLines(now) == RenderLines(ls[..h + 1] + SetBody(ls[h + 1..next], key, f) + ls[next..])
  {
    hide FindKey, RenderKeyValue, ShapeOf;
    if found {
      var p := Pair(key, f, ls[idx].shape.comment);
      UpdateInside(ls, h, next, idx - (h + 1), p);
      UpdateRaws(ls, idx, p, ls[idx].(raw := p.raw));
    } else {
      var p := Pair(key, f, "");
      InsertInside(ls, h, next, p);
      InsertRaws(ls[..h + 1], p, ParseLine(p.raw), ls[h + 1..]);
    }
  }

  lemma {:induction false} DropKeyIs(body: Lines, key: string)
    ensures var j := FindKey(body, key); DropKey(body, key) == if j < |body| then body[..j] + body[j + 1..] else body
  {
  }

  lemma {:induction false} DropRendered(ls: Lines, h: nat, next: nat, key: string, idx: nat, found: bool, now: Lines)
    requires h < next <= |ls| && (found ==> h < idx < next)
    requires FindKey(ls[h + 1..next], key) == if found then idx - (h + 1) else next - (h + 1)
    requires now == if found then ls[..idx] + ls[idx + 1..] else ls
    ensures now == ls[..h + 1] + DropKey(ls[h + 1..next], key) + ls[next..]
  {
    DropKeyIs(ls[h + 1..next], key);
    hide FindKey, DropKey;
    if found {
      RemoveInside(ls, h, next, idx - (h + 1));
    } else {
      SplitTwice(ls, h + 1, next);
    }
  }

  /** The replaced or inserted line gives the text of the document operation. */
  lemma {:induction false} SetAtIndex(t: string, h: nat, next: nat, name: string, key: string, f: string, body: Lines)
    requires SectionAt(ParseLines(t), h, next) && HasName(ParseLines(t)[h], name)
    requires forall i :: 0 <= i < h ==> !HasName(ParseLines(t)[i], name)
    requires body == SetBody(ParseLines(t)[h + 1..next], key, f)
    ensures SetKey(DocOf(t), name, key, f).Some?
    ensures Flatten(SetKey(DocOf(t), name, key, f).value) == ParseLines(t)[..h + 1] + body + ParseLines(t)[next..]
  {
    FoundAt(ParseLines(t), h, next, name);
    FlattenReplaced(ParseLines(t), h, next, body);
  }

  lemma {:induction false} DropAtIndex(t: string, h: nat, next: nat, name: string, key: string, body: Lines)
    requires SectionAt(ParseLines(t), h, next) && HasName(ParseLines(t)[h], name)
    requires forall i :: 0 <= i < h ==> !HasName(ParseLines(t)[i], name)
    requires body == DropKey(ParseLines(t)[h + 1..next], key)
    ensures DeleteKey(DocOf(t), name, key).Some?
    ensures Flatten(DeleteKey(DocOf(t), name, key).value) == ParseLines(t)[..h + 1] + body + ParseLines(t)[next..]
  {
    FoundAt(ParseLines(t), h, next, name);
    FlattenReplaced(ParseLines(t), h, next, body);
  }

  lemma {:induction false} CutRendered(ls: Lines, h: nat, next: nat, end: nat, blankStart: nat)
    requires blankStart <= h < end <= next <= |ls|
    requires forall i :: blankStart <= i < h ==> ls[i].shape.Blank?
    requires blankStart > 0 ==> !ls[blankStart - 1].shape.Blank?
    ensures StripBlanks(ls[..h]) + ls[end..next] + ls[next..] == ls[..blankStart] + ls[end..]
  {
    StripBlanksIs(ls[..h], blankStart);
    assert ls[..h][..blankStart] == ls[..blankStart];
    assert ls[end..next] + ls[next..] == ls[end..];
  }

  lemma {:induction false} DeleteRendered(ls: Lines, h: nat, next: nat, end: nat, name: string, blankStart: nat)
    requires SectionAt(ls, h, next) && HasName(ls[h], name)
    requires forall i :: 0 <= i < h ==> !HasName(ls[i], name)
    requires h < end <= next && (forall i :: end <= i < next ==> Padding(ls[i].shape))
    requires end > h + 1 ==> !Padding(ls[end - 1].shape)
    requires blankStart <= h && (forall i :: blankStart <= i < h ==> ls[i].shape.Blank?)
    requires blankStart > 0 ==> !ls[blankStart - 1].shape.Blank?
    ensures DeleteSection(Blocks(ls), name).Some?
    ensures Flatten(DeleteSection(Blocks(ls), name).value) == ls[..blankStart] + ls[end..]
  {
    hide Blocks, DeleteSection, FindSection, Flatten, StripBlanks;
    FlattenDeleted(ls, h, next, end, name);
    CutRendered(ls, h, next, end, blankStart);
  }

  // ---------------------------------------------------------------- which lines an edit touches

  function HeaderIndex(ls: Lines, name: string): (h: nat)
    ensures h <= |ls| && (h < |ls| ==> HasName(ls[h], name))
    ensures forall i :: 0 <= i < h ==> !HasName(ls[i], name)
  {
    if ls == [] || HasName(ls[0], name) then 0 else 1 + HeaderIndex(ls[1..], name)
  }

  function NextHeader(ls: Lines, from: nat): (next: nat)
    requires from <= |ls|
    ensures from <= next <= |ls| && (next < |ls| ==> ls[next].shape.Header?)
    ensures forall i :: from <= i < next ==> !ls[i].shape.Header?
    decreases |ls| - from
  {
    if from == |ls| || ls[from].shape.Header? then from else NextHeader(ls, from + 1)
  }

  /** Where the section of a name stands. */
  lemma {:induction false} SectionLines(t: string, name: string) returns (h: nat, next: nat)
    requires name in Meaning(t)
    ensures SectionAt(ParseLines(t), h, next) && HasName(ParseLines(t)[h], name)
    ensures forall i :: 0 <= i < h ==> !HasName(ParseLines(t)[i], name)
    ensures Meaning(t)[name] == BodyTable(ParseLines(t)[h + 1..next])
  {
    hide ShapeOf, BodyTable;
    var ls := ParseLines(t);
    h := HeaderIndex(ls, name);
    NameFound(DocOf(t).sections, name);
    if h == |ls| { NotFound(ls, name); }
    next := NextHeader(ls, h + 1);
    FoundAt(ls, h, next, name);
  }

  /** Where the line of a key stands, if there is one. */
  lemma {:induction false} KeyLine(ls: Lines, h: nat, next: nat, key: string)
    requires h < next <= |ls|
    ensures var body := ls[h + 1..next];
      && (key in BodyTable(body) <==> FindKey(body, key) < |body|)
      && (key in BodyTable(body) ==> h + 1 + FindKey(body, key) < next && HasKey(ls[h + 1 + FindKey(body, key)], key))
  {
    hide ShapeOf, ValueAt;
    KeyFound(ls[h + 1..next], key);
  }

  lemma {:induction false} SetText(t: string, h: nat, next: nat, name: string, key: string, value: string)
    requires SectionAt(ParseLines(t), h, next) && HasName(ParseLines(t)[h], name)
    requires forall i :: 0 <= i < h ==> !HasName(ParseLines(t)[i], name)
    ensures var ls, f := ParseLines(t), FormatValue(value);
      SetKeyText(t, name, key, value) ==
        Some(RenderLines(ls[..h + 1] + SetBody(ls[h + 1..next], key, f) + ls[next..]))
  {
    hide ParseLines, FormatValue, SetBody, Flatten, HasName, RenderLines, ConfigDoc.SetKey;
    SetAtIndex(t, h, next, name, key, FormatValue(value),
      SetBody(ParseLines(t)[h + 1..next], key, FormatValue(value)));
  }

  lemma {:induction false} DropText(t: string, h: nat, next: nat, name: string, key: string)
    requires SectionAt(ParseLines(t), h, next) && HasName(ParseLines(t)[h], name)
    requires forall i :: 0 <= i < h ==> !HasName(ParseLines(t)[i], name)
    ensures var ls := ParseLines(t);
      DeleteKeyText(t, name, key) == Some(RenderLines(ls[..h + 1] + DropKey(ls[h + 1..next], key) + ls[next..]))
  {
    hide ParseLines, DropKey, Flatten, HasName, RenderLines, ConfigDoc.DeleteKey;
    DropAtIndex(t, h, next, name, key, DropKey(ParseLines(t)[h + 1..next], key));
  }

  lemma {:induction false} ReplacedText(t: string, j: nat, line: ParsedLine)
    requires j < |ParseLines(t)|
    ensures RenderLines(ParseLines(t)[j := line]) == Join(Split(t)[j := line.raw])
  {
    hide ShapeOf, Join;
    assert Raws(ParseLines(t)[j := line]) == Split(t)[j := line.raw];
  }

  lemma {:induction false} InsertedText(t: string, j: nat, line: ParsedLine)
    requires j <= |ParseLines(t)|
    ensures RenderLines(ParseLines(t)[..j] + [line] + ParseLines(t)[j..]) ==
      Join(Split(t)[..j] + [line.raw] + Split(t)[j..])
  {
    hide ShapeOf, Join;
    var ls := ParseLines(t);
    assert Raws(ls[..j] + [line] + ls[j..]) == Split(t)[..j] + [line.raw] + Split(t)[j..];
  }

  lemma {:induction false} RemovedText(t: string, j: nat)
    requires j < |ParseLines(t)|
    ensures RenderLines(ParseLines(t)[..j] + ParseLines(t)[j + 1..]) == Join(Split(t)[..j] + Split(t)[j + 1..])
  {
    hide ShapeOf, Join;
    var ls := ParseLines(t);
    assert Raws(ls[..j] + ls[j + 1..]) == Split(t)[..j] + Split(t)[j + 1..];
  }

  /** The lines before `j` back to the header `h` are no headers: line `j` belongs to the section of that name. */
  predicate InSection(lines: seq<string>, h: nat, j: nat, name: string) {
    && h < j <= |lines| && ShapeOf(lines[h]) == Header(name)
    && forall i :: h < i < j ==> !ShapeOf(lines[i]).Header?
  }

  /** The line `key = value`, with the comment behind it if there is one. */
  function KeyLineText(key: string, value: string, comment: string): string {
    key + " = " + value + if comment != "" then " " + comment else ""
  }

  /** Setting a key touches one line: the key's own is rewritten in place with its comment kept, or a new line is
      inserted right behind the header. All other lines stay byte for byte. */
  lemma {:induction false} SetTouchesOneLine(t: string, name: string, key: string, value: string)
    returns (h: nat, j: nat)
    requires name in Meaning(t)
    ensures InSection(Split(t), h, j, name)
    ensures key in Meaning(t)[name] ==>
      && j < |Split(t)| && HasKey(ParseLine(Split(t)[j]), key)
      && SetKeyText(t, name, key, value) ==
        Some(Join(Split(t)[j := KeyLineText(key, FormatValue(value), ShapeOf(Split(t)[j]).comment)]))
    ensures key !in Meaning(t)[name] ==>
      && j == h + 1
      && SetKeyText(t, name, key, value) ==
        Some(Join(Split(t)[..j] + [KeyLineText(key, FormatValue(value), "")] + Split(t)[j..]))
  {
    hide ShapeOf, FormatValue, Meaning, Join, Split, RenderLines, SetKeyText, BodyTable, FindKey;
    var ls, f, next := ParseLines(t), FormatValue(value), 0;
    h, next := SectionLines(t, name);
    KeyLine(ls, h, next, key);
    SetText(t, h, next, name, key, value);
    var body := ls[h + 1..next];
    var k := FindKey(body, key);
    if k < |body| {
      j := h + 1 + k;
      var line := Pair(key, f, ls[j].shape.comment);
      UpdateInside(ls, h, next, k, line);
      ReplacedText(t, j, line);
      LineIs(key, f, ls[j].shape.comment);
    } else {
      j := h + 1;
      InsertInside(ls, h, next, Pair(key, f, ""));
      InsertedText(t, j, Pair(key, f, ""));
      LineIs(key, f, "");
    }
  }

  lemma {:induction false} LineIs(key: string, f: string, comment: string)
    ensures Pair(key, f, comment).raw == KeyLineText(key, f, comment)
  {
    assert key + " = " + f + "" == key + " = " + f;
    assert key + " = " + f + (" " + comment) == key + " = " + f + " " + comment;
  }

  /** Deleting a key removes its line and touches no other. */
  lemma {:induction false} DeleteTouchesOneLine(t: string, name: string, key: string) returns (h: nat, j: nat)
    requires name in Meaning(t) && key in Meaning(t)[name]
    ensures InSection(Split(t), h, j, name) && j < |Split(t)| && HasKey(ParseLine(Split(t)[j]), key)
    ensures DeleteKeyText(t, name, key) == Some(Join(Split(t)[..j] + Split(t)[j + 1..]))
  {
    hide ShapeOf, Meaning, Join, Split, RenderLines, DeleteKeyText, BodyTable, FindKey;
    var ls, next := ParseLines(t), 0;
    h, next := SectionLines(t, name);
    KeyLine(ls, h, next, key);
    DropText(t, h, next, name, key);
    var k := FindKey(ls[h + 1..next], key);
    j := h + 1 + k;
    RemoveInside(ls, h, next, k);
    RemovedText(t, j);
  }

  /** Deleting a section cuts one run of lines: the blank lines above the header, the header and its content. The blank
      lines and comments below the content, which belong to the next section, stay, and so does everything else. */
  lemma {:induction false} DeleteCutsOneRun(t: string, name: string) returns (b: nat, h: nat, e: nat, next: nat)
    requires name in Meaning(t)
    ensures b <= h < e <= next <= |Split(t)| && InSection(Split(t), h, next, name)
    ensures next < |Split(t)| ==> ShapeOf(Split(t)[next]).Header?
    ensures forall i :: b <= i < h ==> ShapeOf(Split(t)[i]) == Blank
    ensures b > 0 ==> ShapeOf(Split(t)[b - 1]) != Blank
    ensures forall i :: e <= i < next ==> ShapeOf(Split(t)[i]) == Blank || ShapeOf(Split(t)[i]) == Comment
    ensures e > h + 1 ==> ShapeOf(Split(t)[e - 1]) != Blank && ShapeOf(Split(t)[e - 1]) != Comment
    ensures DeleteSectionText(t, name) == Some(Join(Split(t)[..b] + Split(t)[e..]))
  {
    hide ShapeOf, Meaning, Join, Split, BodyTable, ContentLength, StripBlanks, DeleteSectionText, RenderLines;
    var ls := ParseLines(t);
    h, next := SectionLines(t, name);
    e := h + 1 + ContentLength(ls[h + 1..next]);
    b := |StripBlanks(ls[..h])|;
    ContentEnds(ls, h, next);
    CutText(t, h, next, e, name, b);
  }

  lemma {:induction false} CutText(t: string, h: nat, next: nat, e: nat, name: string, b: nat)
    requires SectionAt(ParseLines(t), h, next) && HasName(ParseLines(t)[h], name)
    requires forall i :: 0 <= i < h ==> !HasName(ParseLines(t)[i], name)
    requires h < e <= next && (forall i :: e <= i < next ==> Padding(ParseLines(t)[i].shape))
    requires e > h + 1 ==> !Padding(ParseLines(t)[e - 1].shape)
    requires b <= h && (forall i :: b <= i < h ==> ParseLines(t)[i].shape.Blank?)
    requires b > 0 ==> !ParseLines(t)[b - 1].shape.Blank?
    ensures DeleteSectionText(t, name) == Some(Join(Split(t)[..b] + Split(t)[e..]))
  {
    hide ShapeOf, Join, Split, Blocks, Flatten, ConfigDoc.DeleteSection, HasName, Padding;
    var ls := ParseLines(t);
    DeleteRendered(ls, h, next, e, name, b);
    assert Raws(ls[..b] + ls[e..]) == Split(t)[..b] + Split(t)[e..];
  }

  lemma {:induction false} ContentEnds(ls: Lines, h: nat, next: nat)
    requires h < next <= |ls|
    ensures var e := h + 1 + ContentLength(ls[h + 1..next]);
      && h < e <= next && (forall i :: e <= i < next ==> Padding(ls[i].shape))
      && (e > h + 1 ==> !Padding(ls[e - 1].shape))
    ensures var b := |StripBlanks(ls[..h])|;
      && b <= h && (forall i :: b <= i < h ==> ls[i].shape.Blank?) && (b > 0 ==> !ls[b - 1].shape.Blank?)
  {
    hide ContentLength, StripBlanks;
    var body, e := ls[h + 1..next], h + 1 + ContentLength(ls[h + 1..next]);
    forall i | e <= i < next ensures Padding(ls[i].shape) { assert ls[i] == body[i - (h + 1)]; }
    if e > h + 1 { assert ls[e - 1] == body[e - 1 - (h + 1)]; }
    var front, b := ls[..h], |StripBlanks(ls[..h])|;
    forall i | b <= i < h ensures ls[i].shape.Blank? { assert ls[i] == front[i]; }
    if b > 0 { assert StripBlanks(front)[b - 1] == front[..b][b - 1] == ls[b - 1]; }
  }

  // ---------------------------------------------------------------- the snapshot edits on lines

  /** `setDriveKeySnapshot` between reading and writing the file. */
  method SetKeySnapshot(t: string, name: string, key: string, value: string) returns (r: Option<string>)
    ensures r == SetKeyText(t, name, key, value)
  {
    var lines := ParseLines(t);
    var headerIdx, found := FindSectionByName(lines, name);
    if !found {
      NotFound(lines, name);
      return None;
    }
    var start, end;
    ghost var next;
    start, end, next := SectionContentRange(lines, headerIdx);
    var formatted := FormatValue(value);
    var idx, keyFound := FindKeyInRange(lines, start, end, key);
    ghost var was := lines;
    if keyFound {
      lines := lines[idx := lines[idx].(raw := RenderKeyValue(key, formatted, lines[idx].shape.comment))];
    } else {
      var newLine := ParseLine(RenderKeyValue(key, formatted, ""));
      lines := lines[..headerIdx + 1] + [newLine] + lines[headerIdx + 1..];
    }
    assert RenderLines(lines) ==
      RenderLines(was[..start] + SetBody(was[start..next], key, formatted) + was[next..]) by {
      BodyKeyAt(was, headerIdx, next, end, key, idx, keyFound);
      SetRendered(was, headerIdx, next, key, formatted, idx, keyFound, lines);
    }
    SetAtIndex(t, headerIdx, next, name, key, formatted, SetBody(was[start..next], key, formatted));
    return Some(RenderLines(lines));
  }

  /** `deleteDriveKeyFromSnapshot`; `deleted` reports whether the key was there. */
  method DeleteKeySnapshot(t: string, name: string, key: string) returns (r: Option<string>, deleted: bool)
    ensures r == DeleteKeyText(t, name, key)
    ensures deleted <==> name in Meaning(t) && key in Meaning(t)[name]
  {
    hide ShapeOf, RenderLines, Flatten;
    var lines := ParseLines(t);
    var headerIdx, found := FindSectionByName(lines, name);
    NameFound(DocOf(t).sections, name);
    if !found {
      NotFound(lines, name);
      return None, false;
    }
    var start, end;
    ghost var next;
    start, end, next := SectionContentRange(lines, headerIdx);
    var idx, keyFound := FindKeyInRange(lines, start, end, key);
    ghost var was := lines;
    assert keyFound <==> key in Meaning(t)[name] by {
      BodyKeyAt(was, headerIdx, next, end, key, idx, keyFound);
      FoundAt(was, headerIdx, next, name);
      KeyFound(was[start..next], key);
    }
    if keyFound {
      lines := lines[..idx] + lines[idx + 1..];
    }
    assert lines == was[..start] + DropKey(was[start..next], key) + was[next..] by {
      BodyKeyAt(was, headerIdx, next, end, key, idx, keyFound);
      DropRendered(was, headerIdx, next, key, idx, keyFound, lines);
    }
    DropAtIndex(t, headerIdx, next, name, key, DropKey(was[start..next], key));
    return Some(RenderLines(lines)), keyFound;
  }

  /** `deleteDriveSectionFromSnapshot`. */
  method DeleteSectionSnapshot(t: string, name: string) returns (r: Option<string>)
    ensures r == DeleteSectionText(t, name)
  {
    hide Blocks, Flatten, DeleteSection, ShapeOf, RenderLines;
    var lines := ParseLines(t);
    var headerIdx, found := FindSectionByName(lines, name);
    if !found {
      NotFound(lines, name);
      return None;
    }
    var start, end;
    ghost var next;
    start, end, next := SectionContentRange(lines, headerIdx);
    var blankStart: nat := headerIdx;
    while blankStart > 0 && lines[blankStart - 1].shape.Blank?
      invariant blankStart <= headerIdx < |lines|
      invariant forall i :: blankStart <= i < headerIdx ==> lines[i].shape.Blank?
    {
      blankStart := blankStart - 1;
    }
    DeleteRendered(lines, headerIdx, next, end, name, blankStart);
    return Some(RenderLines(lines[..blankStart] + lines[end..]));
  }

  // ---------------------------------------------------------------- the file

  /** `driveFromConfigSnapshot`: the decoded drive filed under an identifier, when the file has a section
      that parses to it. */
  function DriveAt(v: Values, t: string, cid: CanonicalId, pick: string): Option<Drive> {
    match Loaded(Meaning(t), cid, pick)
    case Some(n) => if n in Meaning(t) then Some(Decode(v, Meaning(t)[n])) else None
    case None => None
  }

  /** A drive whose section stands under its printed name is found, except exactly a siteless one, if nothing
      else is spelt like it. */
  lemma {:induction false} DriveAtPrinted(v: Values, t: string, cid: CanonicalId, pick: string)
    requires Parsed(cid) && Unaliased(Meaning(t), cid) && Print(cid) in Meaning(t)
    ensures DriveAt(v, t, cid, pick) == if SitelessLibrary(cid) then None else Some(Decode(v, Meaning(t)[Print(cid)]))
  {
    hide Meaning, Parse, Print, Loaded, Unaliased, Decode;
    PrintedLoads(Meaning(t), cid, pick);
  }

  /** `config.toml`. `writes` in the methods says whether the final atomic write succeeds, and `loads`
      whether the whole file decodes and validates; a failed step leaves the file as it was. */
  class File {
    var content: Option<string>

    constructor (content: Option<string>)
      ensures this.content == content
    {
      this.content := content;
    }

    /** A missing file starts from the commented-out default template. */
    method AppendDriveSection(name: string, dir: string, template: string, writes: bool) returns (ok: bool)
      modifies this
      ensures ok == writes
      ensures content == if !writes then old(content)
        else if old(content).None? then Some(template + DriveSectionText(name, dir))
        else Some(AppendText(old(content).value, name, dir))
    {
      if !writes {
        return false;
      }
      if content.None? {
        content := Some(template + DriveSectionText(name, dir));
      } else {
        var text := content.value;
        if text != "" && text[|text| - 1] != '\n' {
          text := text + "\n";
        }
        content := Some(text + DriveSectionText(name, dir));
      }
      return true;
    }

    method SetDriveKey(name: string, key: string, value: string, writes: bool) returns (ok: bool)
      modifies this
      ensures ok <==> writes && old(content).Some? && name in Meaning(old(content).value)
      ensures content == if ok then SetKeyText(old(content).value, name, key, value) else old(content)
    {
      if content.None? {
        return false;
      }
      var r := SetKeySnapshot(content.value, name, key, value);
      NameFound(DocOf(content.value).sections, name);
      ok := r.Some? && writes;
      if ok {
        content := r;
      }
    }

    /** `inserted` reports whether this call wrote the key; otherwise `now` is the value found, which
        must unquote. The section is found by name, the drive by identifier, and both must be there. */
    method SetStringKeyIfMissing(cid: CanonicalId, key: string, value: string, v: Values, pick: string, loads: bool,
                                 unquotes: bool, writes: bool)
      returns (ok: bool, inserted: bool, now: string, prior: Option<Drive>)
      modifies this
      ensures ok <==> (old(content).Some? && loads && Print(cid) in Meaning(old(content).value)
                       && DriveAt(v, old(content).value, cid, pick).Some?
                       && if key in Meaning(old(content).value)[Print(cid)] then unquotes else writes)
      ensures inserted <==> ok && key !in Meaning(old(content).value)[Print(cid)]
      ensures content == if inserted then SetKeyText(old(content).value, Print(cid), key, value) else old(content)
      ensures ok && !inserted ==> now == v.str(Meaning(old(content).value)[Print(cid)][key])
      ensures inserted ==> now == value && prior == DriveAt(v, old(content).value, cid, pick)
    {
      hide Meaning, Print, Parse, SetKeyText, Loaded;
      var name := Print(cid);
      inserted, now, prior := false, "", None;
      if content.None? || !loads || name !in Meaning(content.value) || DriveAt(v, content.value, cid, pick).None? {
        return false, false, "", None;
      }
      var entries := Meaning(content.value)[name];
      if key in entries {
        return unquotes, false, v.str(entries[key]), None;
      }
      if !writes {
        return false, false, "", None;
      }
      prior := DriveAt(v, content.value, cid, pick);
      content := SetKeySnapshot(content.value, name, key, value);
      return true, true, value, prior;
    }

    method DeleteDriveKey(name: string, key: string, writes: bool) returns (ok: bool)
      modifies this
      ensures ok <==> writes && old(content).Some? && name in Meaning(old(content).value)
      ensures content == if ok then DeleteKeyText(old(content).value, name, key) else old(content)
    {
      if content.None? {
        return false;
      }
      var r, _ := DeleteKeySnapshot(content.value, name, key);
      NameFound(DocOf(content.value).sections, name);
      ok := r.Some? && writes;
      if ok {
        content := r;
      }
    }

    method DeleteDriveSection(name: string, writes: bool) returns (ok: bool)
      modifies this
      ensures ok <==> writes && old(content).Some? && name in Meaning(old(content).value)
      ensures content == if ok then DeleteSectionText(old(content).value, name) else old(content)
    {
      if content.None? {
        return false;
      }
      var r := DeleteSectionSnapshot(content.value, name);
      NameFound(DocOf(content.value).sections, name);
      ok := r.Some? && writes;
      if ok {
        content := r;
      }
    }

    /** Compare and delete: the key goes only while the drive still is what the caller expects. */
    method DeleteKeyIfDriveEquals(cid: CanonicalId, key: string, expected: Drive, v: Values, pick: string,
                                  loads: bool, writes: bool)
      returns (deleted: bool)
      modifies this
      ensures deleted <==> (old(content).Some? && loads && writes
                            && DriveAt(v, old(content).value, cid, pick) == Some(expected)
                            && Print(cid) in Meaning(old(content).value)
                               && key in Meaning(old(content).value)[Print(cid)])
      ensures content == if deleted then DeleteKeyText(old(content).value, Print(cid), key) else old(content)
    {
      hide Print, Parse, Loaded;
      if content.None? || !loads || DriveAt(v, content.value, cid, pick) != Some(expected) {
        return false;
      }
      var r, found := DeleteKeySnapshot(content.value, Print(cid), key);
      deleted := found && writes;
      if deleted {
        content := r;
      }
    }

    method DeleteSectionIfDriveEquals(cid: CanonicalId, expected: Drive, v: Values, pick: string, loads: bool,
                                      writes: bool)
      returns (deleted: bool)
      modifies this
      ensures deleted <==> (old(content).Some? && loads && writes
                            && DriveAt(v, old(content).value, cid, pick) == Some(expected)
                            && Print(cid) in Meaning(old(content).value))
      ensures content == if deleted then DeleteSectionText(old(content).value, Print(cid)) else old(content)
    {
      hide Print, Parse, Loaded;
      if content.None? || !loads || DriveAt(v, content.value, cid, pick) != Some(expected) {
        return false;
      }
      var r := DeleteSectionSnapshot(content.value, Print(cid));
      NameFound(DocOf(content.value).sections, Print(cid));
      deleted := r.Some? && writes;
      if deleted {
        content := r;
      }
    }
  }
}
