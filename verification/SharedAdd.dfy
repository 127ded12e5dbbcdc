/** `drive add` of a shared folder: the catalog is written first, then the config in two edits. The order
    keeps "configured implies cataloged" true between any two steps. */
module SharedAdd {
  import opened Text
  import opened TomlLines
  import opened ConfigDoc
  import opened ConfigText
  import opened ConfigEdits
  import opened DriveConfig
  import opened DriveLookup
  import opened CanonicalId
  import Cat = CatalogState
  import D = DriveAdd

  /** One invocation: the folder, the account it is reached through, and what was resolved before. */
  datatype Setup = Setup(cid: CanonicalId, owner: CanonicalId, name: string, dir: string, v: Values, template: string)

  function Key(x: Setup): string {
    Print(x.cid)
  }

  /** The next step of `addSharedDriveWithOps`. */
  datatype Pc = LoadConfig | LoadCatalog | Register | AppendSection | SetName | Materialize | RollbackConfig
    | RollbackCatalog | Done

  datatype State =
    State(config: Content, catalog: Cat.State, pc: Pc, prior: Option<Cat.CatalogDrive>, expected: Drive, named: bool)

  function Init(config: Content, catalog: Cat.State): State {
    State(config, catalog, LoadConfig, None, OnlySyncDir(""), false)
  }

  datatype Choice = Choice(ok: bool, loads: bool)

  function Registered(x: Setup, c: Cat.State): Cat.State {
    Cat.RegisterSharedDrive(c, x.cid, x.owner, x.name)
  }

  predicate Unchanged(x: Setup, s: State) {
    var t := MeaningOf(s.config);
    Key(x) in t && Decode(x.v, t[Key(x)]) == s.expected
  }

  /** The config edit of a step, if it performs one. */
  function OwnEdit(x: Setup, s: State, ch: Choice): Option<Edit> {
    match s.pc
    case AppendSection => if ch.ok then Some(Append(Key(x), x.dir)) else None
    case SetName => if ch.ok && Key(x) in MeaningOf(s.config) then Some(SetKey(Key(x), "display_name", x.name))
      else None
    case RollbackConfig => if ch.ok && ch.loads && Unchanged(x, s) then Some(DeleteSection(Key(x))) else None
    case _ => None
  }

  /** The file after a step. */
  function Edited(x: Setup, s: State, ch: Choice): Content {
    var e := OwnEdit(x, s, ch);
    if e.Some? then OnContent(s.config, e.value, x.template) else s.config
  }

  /** A step's catalog write, and where it goes next. */
  function Next(x: Setup, s: State, ch: Choice): State {
    match s.pc
    case LoadConfig => s.(pc := if ch.ok && Key(x) !in MeaningOf(s.config) then LoadCatalog else Done)
    case LoadCatalog => if !ch.ok then s.(pc := Done) else s.(prior := D.PriorOf(s.catalog, Key(x)), pc := Register)
    case Register => if ch.ok then s.(catalog := Registered(x, s.catalog), pc := AppendSection) else s.(pc := Done)
    case AppendSection => if ch.ok then s.(expected := OnlySyncDir(x.dir), pc := SetName) else s.(pc := RollbackCatalog)
    case SetName =>
      if OwnEdit(x, s, ch).Some?
        then s.(expected := s.expected.(displayName := x.name), named := true, pc := Materialize)
      else s.(pc := RollbackConfig)
    case Materialize => s.(pc := if ch.ok then Done else RollbackConfig)
    case RollbackConfig => s.(pc := if OwnEdit(x, s, ch).Some? then RollbackCatalog else Done)
    case RollbackCatalog => s.(catalog := if ch.ok then D.Restored(x.cid, s.catalog, s.prior)
      else s.catalog, pc := Done)
    case Done => s
  }

  /** One step of the command. */
  function Own(x: Setup, s: State, ch: Choice): State {
    Next(x, s, ch).(config := Edited(x, s, ch))
  }

  function Step(x: Setup, s: State, ev: Event<Choice>): State {
    match ev
    case Other(e) => s.(config := OnContent(s.config, e, x.template))
    case Mine(ch) => Own(x, s, ch)
  }

  function Run(x: Setup, s: State, evs: seq<Event<Choice>>): State
    decreases evs
  {
    if evs == [] then s else Run(x, Step(x, s, evs[0]), evs[1..])
  }

  ghost predicate GoodSetup(x: Setup) {
    Parsed(x.cid) && x.cid.Shared? && QuoteSafe(Key(x)) && Inert(x.template)
  }

  /** Shared identifiers have one spelling, so the loaded config has the drive exactly when the file has a
      section of the printed name. */
  lemma {:induction false} FoundByName(x: Setup, t: Table, pick: string)
    requires GoodSetup(x)
    ensures Loaded(t, x.cid, pick) == if Key(x) in t then Some(Key(x)) else None
  {
    hide Print, Parse, Loaded, Unaliased, Inert, QuoteSafe;
    OneSpellingUnaliased(t, x.cid);
    UnaliasedLoads(t, x.cid, pick);
  }

  // ---------------------------------------------------------------- steps as map updates

  lemma {:induction false} OwnRefines(x: Setup, s: State, ch: Choice)
    requires GoodSetup(x) && SoundOf(s.config)
    ensures SoundOf(Own(x, s, ch).config) <==> !(s.pc.AppendSection? && ch.ok && Key(x) in MeaningOf(s.config))
    ensures MeaningOf(Own(x, s, ch).config) ==
      var e := OwnEdit(x, s, ch); if e.Some? then OnTable(MeaningOf(s.config), e.value) else MeaningOf(s.config)
    ensures OwnEdit(x, s, ch).Some? ==> OwnEdit(x, s, ch).value.name == Key(x)
  {
    hide OnContent, Next, SoundOf, Inert, QuoteSafe, OnTable, MeaningOf, Key, Unchanged, SettableKey, Parsed;
    SyncDirSettable();
    if OwnEdit(x, s, ch).Some? {
      EditRefines(s.config, OwnEdit(x, s, ch).value, x.template);
    }
  }

  // ---------------------------------------------------------------- other sections

  /** Between finding no section and appending one, there is none. */
  ghost predicate Clear(x: Setup, s: State) {
    s.pc.LoadCatalog? || s.pc.Register? || s.pc.AppendSection? || s.pc.RollbackCatalog? ==>
      Key(x) !in MeaningOf(s.config)
  }

  lemma {:induction false} OwnClear(x: Setup, s: State, c: Content, ch: Choice)
    requires GoodSetup(x) && Clear(x, s) && Beside(Key(x), s.config, c)
    ensures Clear(x, Own(x, s, ch)) && Beside(Key(x), Own(x, s, ch).config, c)
  {
    hide OnContent, SoundOf, MeaningOf, Key, Registered, D.Restored, D.PriorOf, Inert, QuoteSafe, Unchanged, Others,
      Parsed, Quote, FormatValue;
    OwnRefines(x, s, ch);
    var e := OwnEdit(x, s, ch);
    if e.Some? { OthersFollow(MeaningOf(s.config), MeaningOf(s.config), e.value, Key(x)); }
  }

  lemma {:induction false} OtherClear(x: Setup, s: State, e: Edit)
    requires Clear(x, s) && !(e.Append? && e.name == Key(x))
    requires MeaningOf(OnContent(s.config, e, x.template)) == OnTable(MeaningOf(s.config), e)
    ensures Clear(x, Step(x, s, Event.Other(e)))
  {
    hide OnContent, MeaningOf, Key, Quote, FormatValue;
  }

  /** Whatever the interleaving and whatever fails, every other section ends as if the command had not run. */
  lemma {:induction false} OtherSectionsUntouched(x: Setup, s: State, c: Content, evs: seq<Event<Choice>>)
    requires GoodSetup(x) && Clear(x, s) && Beside(Key(x), s.config, c) && PermittedRun(Key(x), c, evs, x.template)
    ensures Clear(x, Run(x, s, evs)) && Beside(Key(x), Run(x, s, evs).config, OthersRun(c, evs, x.template))
    decreases evs
  {
    hide Clear, Own, OnContent, Others, Inert, QuoteSafe, MeaningOf, SoundOf, OnTable, Writable, Duplicates, Key;
    if evs != [] {
      match evs[0]
      case Other(e) =>
        OtherBeside(Key(x), s.config, c, e, x.template);
        OtherClear(x, s, e);
        OtherSectionsUntouched(x, Step(x, s, evs[0]), OnContent(c, e, x.template), evs[1..]);
      case Mine(ch) =>
        OwnClear(x, s, c, ch);
        OtherSectionsUntouched(x, Step(x, s, evs[0]), c, evs[1..]);
    }
  }

  // ---------------------------------------------------------------- catalog and configuration

  lemma {:induction false} RegisterEffect(x: Setup, c: Cat.State)
    requires D.KeyedAt(c, Key(x))
    ensures Key(x) in Registered(x, c).drives
    ensures D.Restored(x.cid, Registered(x, c), D.PriorOf(c, Key(x))) == c
  {
    hide Print, D.Restored;
    D.RestoredBack(Key(x), x.cid, c, Registered(x, c).drives[Key(x)]);
  }

  /** What holds between any two steps of any interleaving. */
  ghost predicate Inv(x: Setup, c0: Cat.State, s: State) {
    var configured := Key(x) in MeaningOf(s.config);
    && Clear(x, s)
    && (s.pc.LoadConfig? ==> s.catalog == c0 && (configured ==> Key(x) in c0.drives))
    && (s.pc.LoadCatalog? || s.pc.Register? ==> s.catalog == c0)
    && (s.pc.AppendSection? || s.pc.SetName? || s.pc.Materialize? || s.pc.RollbackConfig? || s.pc.RollbackCatalog?
        ==> s.catalog == Registered(x, c0))
    && (s.pc.Done? ==> s.catalog == Registered(x, c0) || (s.catalog == c0 && (configured ==> Key(x) in c0.drives)))
    && (!s.pc.LoadConfig? && !s.pc.LoadCatalog? && !s.pc.Done? ==> s.prior == D.PriorOf(c0, Key(x)))
  }

  lemma {:induction false} OtherKeeps(x: Setup, c0: Cat.State, s: State, e: Edit)
    requires Inv(x, c0, s) && !(e.Append? && e.name == Key(x))
    requires MeaningOf(OnContent(s.config, e, x.template)) == OnTable(MeaningOf(s.config), e)
    ensures Inv(x, c0, Step(x, s, Event.Other(e)))
  {
    hide OnContent, MeaningOf, Key, Registered, Quote, FormatValue, D.PriorOf;
  }

  lemma {:induction false} StepKeeps(x: Setup, c0: Cat.State, s: State, c: Content, ch: Choice)
    requires GoodSetup(x) && D.KeyedAt(c0, Key(x)) && Inv(x, c0, s) && Beside(Key(x), s.config, c)
    ensures Inv(x, c0, Own(x, s, ch)) && Beside(Key(x), Own(x, s, ch).config, c)
  {
    hide Edited, SoundOf, MeaningOf, Key, Registered, D.Restored, D.KeyedAt, D.PriorOf, Inert, QuoteSafe, Unchanged,
      Parsed, Quote, FormatValue, Others, OnTable;
    OwnClear(x, s, c, ch);
    RegisterEffect(x, c0);
    OwnRefines(x, s, ch);
    match s.pc {
      case LoadConfig =>
      case LoadCatalog =>
      case Register =>
      case AppendSection =>
      case _ =>
    }
  }

  /** A configured drive has a catalog entry after every prefix of every interleaving, with no exception. */
  lemma {:induction false} ConfiguredIsCataloged(x: Setup, c0: Cat.State, s: State, c: Content, evs: seq<Event<Choice>>)
    requires GoodSetup(x) && D.KeyedAt(c0, Key(x)) && Inv(x, c0, s) && Beside(Key(x), s.config, c)
    requires PermittedRun(Key(x), c, evs, x.template)
    ensures var s' := Run(x, s, evs);
      && Inv(x, c0, s') && Beside(Key(x), s'.config, OthersRun(c, evs, x.template))
      && (Key(x) in MeaningOf(s'.config) ==> Key(x) in s'.catalog.drives)
    decreases evs
  {
    if evs == [] {
      hide MeaningOf, Key, Registered, SoundOf, Others, D.PriorOf;
      RegisterEffect(x, c0);
    } else {
      hide Inv, Own, OnContent, D.KeyedAt, Beside, Inert, QuoteSafe, MeaningOf, OnTable, Writable, Duplicates, Key;
      match evs[0]
      case Other(e) =>
        OtherBeside(Key(x), s.config, c, e, x.template);
        OtherKeeps(x, c0, s, e);
        ConfiguredIsCataloged(x, c0, Step(x, s, evs[0]), OnContent(c, e, x.template), evs[1..]);
      case Mine(ch) =>
        StepKeeps(x, c0, s, c, ch);
        ConfiguredIsCataloged(x, c0, Step(x, s, evs[0]), c, evs[1..]);
    }
  }

  // ---------------------------------------------------------------- a failed add leaves no trace

  /** The section as this attempt wrote it. */
  function Written(x: Setup, named: bool): map<string, string> {
    var m := map["sync_dir" := Quote(x.dir)];
    if named then m["display_name" := FormatValue(x.name)] else m
  }

  predicate Wrote(s: State) {
    s.pc.SetName? || s.pc.Materialize? || s.pc.RollbackConfig?
  }

  /** The real map `t` and the map `u` without the command differ by exactly what it wrote. */
  ghost predicate Differs(x: Setup, s: State, t: Table, u: Table) {
    var key := Key(x);
    && Others(t, key) == Others(u, key)
    && (!Wrote(s) && !s.pc.Done? ==> t == u)
    && (!s.pc.LoadConfig? && !s.pc.Done? ==> key !in u)
    && (s.pc.SetName? ==> !s.named) && (s.pc.Materialize? ==> s.named)
    && (Wrote(s) ==> key in t && t[key] == Written(x, s.named))
    && (Wrote(s) ==> s.expected == if s.named then OnlySyncDir(x.dir).(displayName := x.name) else OnlySyncDir(x.dir))
    && (!Wrote(s) && !s.pc.Done? ==> !s.named || s.pc.RollbackCatalog?)
  }

  lemma {:induction false} OtherDiffers(x: Setup, s: State, t: Table, u: Table, e: Edit)
    requires e.name != Key(x) && Differs(x, s, t, u)
    ensures Differs(x, Step(x, s, Event.Other(e)), OnTable(t, e), OnTable(u, e))
  {
    hide OnContent, Key, OnTable, Others, Written;
    OthersFollow(t, u, e, Key(x));
    EditElsewhere(t, e, Key(x));
    EditElsewhere(u, e, Key(x));
  }

  lemma {:induction false} OwnDiffers(x: Setup, s: State, c: Content, ch: Choice)
    requires GoodSetup(x) && SoundOf(s.config) && Differs(x, s, MeaningOf(s.config), MeaningOf(c))
    ensures Differs(x, Own(x, s, ch), MeaningOf(Own(x, s, ch).config), MeaningOf(c))
  {
    hide OnContent, SoundOf, MeaningOf, Key, Inert, QuoteSafe, FormatValue, Quote, Registered, D.Restored, D.PriorOf,
      Unchanged, Others, Parsed;
    OwnRefines(x, s, ch);
    var t, u := MeaningOf(s.config), MeaningOf(c);
    if OwnEdit(x, s, ch).Some? {
      OthersFollow(t, t, OwnEdit(x, s, ch).value, Key(x));
      SameSections(MeaningOf(Own(x, s, ch).config), u, Key(x));
    }
  }

  lemma {:induction false} RunDiffers(x: Setup, s: State, c: Content, evs: seq<Event<Choice>>)
    requires GoodSetup(x) && Clear(x, s) && Beside(Key(x), s.config, c)
    requires PermittedRun(Key(x), c, evs, x.template) && Untouched(Key(x), evs)
    requires Differs(x, s, MeaningOf(s.config), MeaningOf(c))
    ensures var s', c' := Run(x, s, evs), OthersRun(c, evs, x.template);
      Differs(x, s', MeaningOf(s'.config), MeaningOf(c'))
    decreases evs
  {
    hide Differs, Clear, OnContent, MeaningOf, Own, Inert, QuoteSafe, Others, SoundOf, Duplicates, Writable, OnTable,
      Key;
    if evs != [] {
      match evs[0]
      case Other(e) =>
        OtherBeside(Key(x), s.config, c, e, x.template);
        OtherClear(x, s, e);
        OtherDiffers(x, s, MeaningOf(s.config), MeaningOf(c), e);
        RunDiffers(x, Step(x, s, evs[0]), OnContent(c, e, x.template), evs[1..]);
      case Mine(ch) =>
        OwnClear(x, s, c, ch);
        OwnDiffers(x, s, c, ch);
        RunDiffers(x, Step(x, s, evs[0]), c, evs[1..]);
    }
  }

  lemma {:induction false} DecodeWritten(x: Setup, named: bool)
    requires x.v.str(Quote(x.dir)) == x.dir && x.v.str(FormatValue(x.name)) == x.name
    ensures Decode(x.v, Written(x, named)) == if named then OnlySyncDir(x.dir).(displayName := x.name)
      else OnlySyncDir(x.dir)
  {
    hide Quote, FormatValue;
  }

  /** While others leave the section alone, a shared add that fails after its section was written, and whose
      rollback can write, ends with the map the others alone would have left and with the old catalog. */
  lemma {:induction false} FailedAddLeavesNoTrace(x: Setup, config: Content, catalog: Cat.State,
                                                  evs: seq<Event<Choice>>, a: Choice, b: Choice)
    requires GoodSetup(x) && D.KeyedAt(catalog, Key(x)) && SoundOf(config)
    requires PermittedRun(Key(x), config, evs, x.template)
    requires Untouched(Key(x), evs) && (Key(x) in MeaningOf(config) ==> Key(x) in catalog.drives)
    requires x.v.str(Quote(x.dir)) == x.dir && x.v.str(FormatValue(x.name)) == x.name
    requires Run(x, Init(config, catalog), evs).pc.RollbackConfig? && a.ok && a.loads && b.ok
    ensures var s := Own(x, Own(x, Run(x, Init(config, catalog), evs), a), b);
      s.pc.Done? && s.catalog == catalog && MeaningOf(s.config) == MeaningOf(OthersRun(config, evs, x.template))
  {
    hide MeaningOf, SoundOf, Key, Registered, D.KeyedAt, Run, OthersRun, Own, GoodSetup, Quote, FormatValue, Decode,
      Others, PermittedRun;
    var s0 := Init(config, catalog);
    RunDiffers(x, s0, config, evs);
    ConfiguredIsCataloged(x, catalog, s0, config, evs);
    RollbackFinishes(x, catalog, Run(x, s0, evs), OthersRun(config, evs, x.template), a, b);
  }

  lemma {:induction false} RollbackFinishes(x: Setup, c0: Cat.State, s: State, c: Content, a: Choice, b: Choice)
    requires GoodSetup(x) && D.KeyedAt(c0, Key(x)) && Inv(x, c0, s) && Beside(Key(x), s.config, c)
    requires Differs(x, s, MeaningOf(s.config), MeaningOf(c))
    requires x.v.str(Quote(x.dir)) == x.dir && x.v.str(FormatValue(x.name)) == x.name
    requires s.pc.RollbackConfig? && a.ok && a.loads && b.ok
    ensures var s' := Own(x, Own(x, s, a), b); s'.pc.Done? && s'.catalog == c0 && MeaningOf(s'.config) == MeaningOf(c)
  {
    hide MeaningOf, SoundOf, Key, Registered, D.KeyedAt, D.PriorOf, Inert, QuoteSafe, Parsed, Quote, FormatValue,
      Decode, OnContent, D.Restored, Others, Written, Clear;
    DecodeWritten(x, s.named);
    OwnDiffers(x, s, c, a);
    RegisterEffect(x, c0);
  }

  // ---------------------------------------------------------------- edits by others

  /** If another process has meanwhile set any of the eleven keys of the section to something else than the attempt
      left there, the rollback leaves the file, and then the catalog, as they are. */
  lemma {:induction false} RollbackSparesEdit(x: Setup, s: State, ch: Choice, k: string, value: string)
    requires GoodSetup(x) && SoundOf(s.config) && s.pc.RollbackConfig? && SettableKey(k)
    requires Key(x) in MeaningOf(s.config) && Contradicts(x.v, k, FormatValue(value), s.expected)
    ensures var s1 := Step(x, s, Event.Other(SetKey(Key(x), k, value)));
      && Own(x, s1, ch) == s1.(pc := Done) && Key(x) in MeaningOf(s1.config)
      && MeaningOf(s1.config)[Key(x)] == MeaningOf(s.config)[Key(x)][k := FormatValue(value)]
  {
    hide OnContent, SoundOf, MeaningOf, Print, Inert, QuoteSafe, Decode, Contradicts, FormatValue, SettableKey;
    var s1 := Step(x, s, Event.Other(SetKey(Key(x), k, value)));
    EditRefines(s.config, SetKey(Key(x), k, value), x.template);
    ContradictedDiffers(x.v, MeaningOf(s1.config)[Key(x)], k, s.expected);
  }

  /** Every failure behind the registration leads to a rollback, with nothing changed on the way; and an earlier one
      ends the command without a change. */
  lemma {:induction false} FailureRollsBack(x: Setup, s: State, ch: Choice)
    requires !ch.ok && !s.pc.RollbackConfig? && !s.pc.RollbackCatalog?
    ensures Own(x, s, ch) == s.(pc := if s.pc.AppendSection? then RollbackCatalog
                                      else if s.pc.SetName? || s.pc.Materialize? then RollbackConfig else Done)
  {
    hide MeaningOf, Key;
  }

  /** If the section could not be written, restoring the catalog undoes the whole command. */
  lemma {:induction false} FailedAppendLeavesNoTrace(x: Setup, config: Content, catalog: Cat.State,
                                                     evs: seq<Event<Choice>>, b: Choice)
    requires GoodSetup(x) && D.KeyedAt(catalog, Key(x)) && SoundOf(config)
    requires PermittedRun(Key(x), config, evs, x.template)
    requires Untouched(Key(x), evs) && (Key(x) in MeaningOf(config) ==> Key(x) in catalog.drives)
    requires Run(x, Init(config, catalog), evs).pc.RollbackCatalog? && b.ok
    ensures var s := Own(x, Run(x, Init(config, catalog), evs), b);
      s.pc.Done? && s.catalog == catalog && MeaningOf(s.config) == MeaningOf(OthersRun(config, evs, x.template))
  {
    hide MeaningOf, SoundOf, Key, Registered, D.KeyedAt, Run, OthersRun, GoodSetup, Quote, FormatValue, Decode,
      Others, PermittedRun, D.PriorOf, D.Restored, Written;
    var s0 := Init(config, catalog);
    RunDiffers(x, s0, config, evs);
    ConfiguredIsCataloged(x, catalog, s0, config, evs);
    RegisterEffect(x, catalog);
  }
}
