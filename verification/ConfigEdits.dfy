/** Edits of the shared config file as atomic steps: each locked read-modify-write on bytes refines one
    update of the two-level map; and runs of such edits beside one command. */
module ConfigEdits {
  import opened Text
  import opened TomlLines
  import opened ConfigDoc
  import opened ConfigText

  /** `None` is a missing file. */
  type Content = Option<string>

  function MeaningOf(c: Content): Table {
    if c.Some? then Meaning(c.value) else map[]
  }

  ghost predicate SoundOf(c: Content) {
    c.Some? ==> Sound(c.value)
  }

  /** The first-login template: it ends in a newline and holds no section. */
  ghost predicate Inert(template: string) {
    CloseText(template) == template && Sound(template) && Meaning(template) == map[]
  }

  /** Every text of comments and blank lines that ends in a newline can be the template. */
  lemma {:induction false} CommentsAreInert(template: string)
    requires template != "" && template[|template| - 1] == '\n'
    requires forall i :: 0 <= i < |ParseLines(template)| ==> Padding(ParseLines(template)[i].shape)
    ensures Inert(template)
  {
    hide ShapeOf;
    BlocksPlain(ParseLines(template));
    assert DocOf(template).sections == [];
  }

  /** What any process may do to the file under the config lock. */
  datatype Edit =
    | SetKey(name: string, key: string, value: string)
    | DeleteKey(name: string, key: string)
    | Append(name: string, dir: string)
    | DeleteSection(name: string)

  /** The edit as a map update. An edit of an absent section changes nothing; a second header of a name
      is not seen by a search for the first one. */
  function OnTable(t: Table, e: Edit): Table {
    match e
    case SetKey(name, key, value) => if name in t then t[name := t[name][key := FormatValue(value)]] else t
    case DeleteKey(name, key) => if name in t then t[name := t[name] - {key}] else t
    case Append(name, dir) => if name in t then t else t[name := map["sync_dir" := Quote(dir)]]
    case DeleteSection(name) => if name in t then t - {name} else t
  }

  /** The edit on bytes. */
  function OnContent(c: Content, e: Edit, template: string): Content {
    match e
    case Append(name, dir) => Some(if c.None? then template + DriveSectionText(name, dir)
      else AppendText(c.value, name, dir))
    case SetKey(name, key, value) => if name in MeaningOf(c) then SetKeyText(c.value, name, key, value) else c
    case DeleteKey(name, key) => if name in MeaningOf(c) then DeleteKeyText(c.value, name, key) else c
    case DeleteSection(name) => if name in MeaningOf(c) then DeleteSectionText(c.value, name) else c
  }

  /** Keys and names the editor can write so that they read back. */
  predicate Writable(e: Edit) {
    match e
    case SetKey(_, key, _) => SettableKey(key)
    case Append(name, _) => QuoteSafe(name)
    case _ => true
  }

  /** The edit appends a section that is already there. */
  predicate Duplicates(t: Table, e: Edit) {
    e.Append? && e.name in t
  }

  /** Every edit on bytes is the edit on the map, and the file stays unambiguous unless a section is appended
      a second time. */
  lemma {:induction false} EditRefines(c: Content, e: Edit, template: string)
    requires SoundOf(c) && Inert(template) && Writable(e)
    ensures SoundOf(OnContent(c, e, template)) <==> !Duplicates(MeaningOf(c), e)
    ensures MeaningOf(OnContent(c, e, template)) == OnTable(MeaningOf(c), e)
    ensures c.Some? ==> OnContent(c, e, template).Some?
  {
    hide SetKeyText, DeleteKeyText, DeleteSectionText, AppendText, Meaning, Sound, DriveSectionText;
    match e
    case SetKey(name, key, value) =>
      if name in MeaningOf(c) { SetKeyMeaning(c.value, name, key, value); }
    case DeleteKey(name, key) =>
      if name in MeaningOf(c) { DeleteKeyMeaning(c.value, name, key); }
    case DeleteSection(name) =>
      if name in MeaningOf(c) { DeleteMeaning(c.value, name); }
    case Append(name, dir) =>
      if c.Some? {
        AppendMeaning(c.value, name, dir);
      } else {
        AppendMeaning(template, name, dir);
        AppendClosed(template, name, dir);
      }
  }

  lemma {:induction false} AppendClosed(t: string, name: string, dir: string)
    requires CloseText(t) == t
    ensures AppendText(t, name, dir) == t + DriveSectionText(name, dir)
  {
  }

  // ---------------------------------------------------------------- one section and the others

  /** The part of the map outside one section. */
  function Others(t: Table, name: string): Table {
    t - {name}
  }

  lemma {:induction false} OthersOf(t: Table, e: Edit, name: string)
    ensures Others(OnTable(t, e), name) == if e.name == name then Others(t, name) else OnTable(Others(t, name), e)
  {
    hide Quote, FormatValue;
    var x, y := Others(OnTable(t, e), name), if e.name == name then Others(t, name) else OnTable(Others(t, name), e);
    assert x.Keys == y.Keys;
    assert forall n :: n in x ==> x[n] == y[n];
  }

  /** An edit acts on the other sections as if the one section were not there. */
  lemma {:induction false} OthersFollow(t: Table, u: Table, e: Edit, name: string)
    requires Others(t, name) == Others(u, name)
    ensures Others(OnTable(t, e), name) == Others(OnTable(u, e), name)
    ensures e.name == name ==> Others(OnTable(t, e), name) == Others(t, name)
  {
    hide Others, OnTable;
    OthersOf(t, e, name);
    OthersOf(u, e, name);
  }

  lemma {:induction false} OtherNames(t: Table, u: Table, name: string, n: string)
    requires Others(t, name) == Others(u, name) && n != name
    ensures n in t <==> n in u
  {
    assert n in t <==> n in Others(t, name);
    assert n in u <==> n in Others(u, name);
  }

  lemma {:induction false} SameSections(t: Table, u: Table, key: string)
    requires Others(t, key) == Others(u, key)
    ensures (key in t <==> key in u) && (key in t && key in u ==> t[key] == u[key]) ==> t == u
  {
    if (key in t <==> key in u) && (key in t && key in u ==> t[key] == u[key]) {
      forall n ensures n in t <==> n in u {
        assert n != key ==> (n in t <==> n in Others(t, key)) && (n in u <==> n in Others(u, key));
      }
      forall n | n in t ensures t[n] == u[n] {
        if n != key { assert t[n] == Others(t, key)[n] && u[n] == Others(u, key)[n]; }
      }
    }
  }

  lemma {:induction false} EditElsewhere(t: Table, e: Edit, key: string)
    requires e.name != key
    ensures key in OnTable(t, e) <==> key in t
    ensures key in t ==> OnTable(t, e)[key] == t[key]
  {
    hide Quote, FormatValue;
  }

  // ---------------------------------------------------------------- a command among other processes

  /** A step of an interleaving: an edit by another process, or the command's own step with the world's answer. */
  datatype Event<C> = Other(edit: Edit) | Mine(choice: C)

  /** The same run without the command: only the other processes' edits. */
  function OthersRun<C>(c: Content, evs: seq<Event<C>>, template: string): Content
    decreases evs
  {
    if evs == [] then c
    else OthersRun(if evs[0].Other? then OnContent(c, evs[0].edit, template) else c, evs[1..], template)
  }

  /** Other processes write readable keys and names, append only sections that are not there, and none
      appends a section for this drive. */
  predicate Permitted<C>(key: string, c: Content, ev: Event<C>) {
    ev.Other? ==> Writable(ev.edit) && !Duplicates(MeaningOf(c), ev.edit) && !(ev.edit.Append? && ev.edit.name == key)
  }

  predicate PermittedRun<C>(key: string, c: Content, evs: seq<Event<C>>, template: string)
    decreases evs
  {
    evs == [] || (
      && Permitted(key, c, evs[0])
      && PermittedRun(key, if evs[0].Other? then OnContent(c, evs[0].edit, template) else c, evs[1..], template))
  }

  /** No other process edits this drive's section. */
  predicate Untouched<C>(key: string, evs: seq<Event<C>>) {
    forall i :: 0 <= i < |evs| ==> (evs[i].Other? ==> evs[i].edit.name != key)
  }

  /** What is and what would be without the command: both sound, and equal outside the one section. */
  ghost predicate Beside(key: string, file: Content, c: Content) {
    SoundOf(file) && SoundOf(c) && Others(MeaningOf(file), key) == Others(MeaningOf(c), key)
  }

  lemma {:induction false} OtherBeside(key: string, file: Content, c: Content, e: Edit, template: string)
    requires Beside(key, file, c) && Inert(template) && Writable(e) && !Duplicates(MeaningOf(c), e)
    requires !(e.Append? && e.name == key)
    ensures Beside(key, OnContent(file, e, template), OnContent(c, e, template))
    ensures MeaningOf(OnContent(file, e, template)) == OnTable(MeaningOf(file), e)
    ensures MeaningOf(OnContent(c, e, template)) == OnTable(MeaningOf(c), e)
  {
    hide MeaningOf, SoundOf, OnContent, OnTable, Others, Inert, Writable;
    var t, u := MeaningOf(file), MeaningOf(c);
    if e.Append? { OtherNames(t, u, key, e.name); }
    EditRefines(file, e, template);
    EditRefines(c, e, template);
    OthersFollow(t, u, e, key);
  }

  // ---------------------------------------------------------------- the bytes of an append

  /** The lines of a new section: the name between quotation marks and brackets, and the quoted directory. */
  function FreshSection(name: string, dir: string): string {
    "\n" + ("[" + ("\"" + name + "\"") + "]") + "\n" + ("sync_dir = " + Quote(dir)) + "\n"
  }

  /** Appending keeps every byte of the file, or of the template when there is none, ends its last line, and adds an
      empty line, the header and the directory. */
  lemma {:induction false} AppendBytes(c: Content, name: string, dir: string, template: string)
    requires QuoteSafe(name)
    ensures var base := if c.None? then template else c.value;
      var close := if c.Some? && base != "" && base[|base| - 1] != '\n' then "\n" else "";
      OnContent(c, Append(name, dir), template) == Some(base + close + FreshSection(name, dir))
  {
    EscapeSafe(name);
    assert DriveSectionText(name, dir) == FreshSection(name, dir);
    hide DriveSectionText, FreshSection, Quote, QuoteSafe;
    var base := if c.None? then template else c.value;
    assert base + "" == base;
  }
}
