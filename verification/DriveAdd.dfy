/** `drive add` as a saga: its steps on config file and catalog, failing anywhere, interleaved in every
    way with edits of the config file by other processes. */
module DriveAdd {
  import opened Text
  import opened TomlLines
  import opened ConfigDoc
  import opened ConfigText
  import opened ConfigEdits
  import opened DriveConfig
  import opened DriveLookup
  import opened CanonicalId
  import Cat = CatalogState

  /** What is fixed for one invocation: the drive, its display name, the TOML library and the template. */
  datatype Setup = Setup(cid: CanonicalId, name: string, v: Values, template: string)

  /** The section name the editor works with. */
  function Key(x: Setup): string {
    Print(x.cid)
  }

  /** The next step of `addNewDriveWithOps`. */
  datatype Pc =
    | LoadCatalog
    | LoadConfig
    | Write(present: bool)
    | Register
    | Materialize
    | RollbackConfig
    | RollbackCatalog
    | Done

  datatype State = State(
    config: Content,
    catalog: Cat.State,
    pc: Pc,
    added: bool,
    backfilled: bool,
    dir: string,
    before: Drive,
    prior: Option<Cat.CatalogDrive>,
    registerFailed: bool,
    rolledBack: bool)

  function Init(config: Content, catalog: Cat.State): State {
    State(config, catalog, LoadCatalog, false, false, "", OnlySyncDir(""), None, false, false)
  }

  /** How the outside world answers a step: whether the operation itself succeeds, whether the config file
      loads and validates, whether an existing value unquotes, the computed default directory, and which of
      several sections of the drive the loader ends on. */
  datatype Choice = Choice(ok: bool, loads: bool, unquotes: bool, dir: string, pick: string)

  /** The drive the loaded config has for this identifier. */
  function Found(x: Setup, c: Content, pick: string): Option<Drive> {
    match Loaded(MeaningOf(c), x.cid, pick)
    case Some(n) => if n in MeaningOf(c) then Some(Decode(x.v, MeaningOf(c)[n])) else None
    case None => None
  }

  /** The drive this attempt wrote, as it must still read for a rollback to touch it. */
  function Expected(s: State): Drive {
    if s.added then OnlySyncDir(s.dir) else s.before.(syncDir := s.dir)
  }

  /** The compare part of compare-and-delete; the delete part works on the section of the printed name. */
  predicate Unchanged(x: Setup, s: State, pick: string) {
    var t := MeaningOf(s.config);
    && Found(x, s.config, pick) == Some(Expected(s))
    && Key(x) in t && (s.added || (s.backfilled && "sync_dir" in t[Key(x)]))
  }

  /** The config edit that undoes this attempt's own edit. */
  function Undo(x: Setup, s: State): Edit {
    if s.added then DeleteSection(Key(x)) else DeleteKey(Key(x), "sync_dir")
  }

  function Restored(cid: CanonicalId, catalog: Cat.State, prior: Option<Cat.CatalogDrive>): Cat.State {
    if prior.Some? then Cat.UpsertDrive(catalog, prior.value) else Cat.DeleteDrive(catalog, cid)
  }

  function PriorOf(catalog: Cat.State, key: string): Option<Cat.CatalogDrive> {
    if key in catalog.drives then Some(catalog.drives[key]) else None
  }

  /** The locked config mutation of a step, if it performs one. */
  function OwnEdit(x: Setup, s: State, ch: Choice): Option<Edit> {
    var key, t := Key(x), MeaningOf(s.config);
    match s.pc
    case Write(false) => if ch.ok then Some(Append(key, s.dir)) else None
    case Write(true) =>
      if ch.loads && key in t && Found(x, s.config, ch.pick).Some? && "sync_dir" !in t[key] && ch.ok
      then Some(SetKey(key, "sync_dir", s.dir)) else None
    case RollbackConfig => if ch.ok && ch.loads && Unchanged(x, s, ch.pick) then Some(Undo(x, s)) else None
    case _ => None
  }

  /** The file after a step. */
  function Edited(x: Setup, s: State, ch: Choice): Content {
    var e := OwnEdit(x, s, ch);
    if e.Some? then OnContent(s.config, e.value, x.template) else s.config
  }

  /** A step's catalog write, and where it goes next. */
  function Next(x: Setup, s: State, ch: Choice): State {
    var key, t, edits, found := Key(x), MeaningOf(s.config), OwnEdit(x, s, ch).Some?, Found(x, s.config, ch.pick);
    match s.pc
    case LoadCatalog => if !ch.ok then s.(pc := Done) else s.(prior := PriorOf(s.catalog, key), pc := LoadConfig)
    case LoadConfig =>
      if !ch.ok then s.(pc := Done)
      else if found.Some? && found.value.syncDir != "" then s.(dir := found.value.syncDir, pc := Materialize)
      else s.(dir := ch.dir, pc := Write(found.Some?))
    case Write(present) =>
      if edits && present && found.Some? then s.(backfilled := true, before := found.value, pc := Materialize)
      else if edits then s.(added := true, pc := Register)
      else if present && ch.loads && key in t && found.Some? && "sync_dir" in t[key] && ch.unquotes then
        s.(dir := x.v.str(t[key]["sync_dir"]), pc := Materialize)
      else s.(pc := Done)
    case Register =>
      var r := Cat.RegisterDrive(s.catalog, x.cid, x.name);
      if ch.ok && r.Some? then s.(catalog := r.value, pc := Materialize)
      else s.(registerFailed := true, pc := RollbackConfig)
    case Materialize => s.(pc := if ch.ok then Done else RollbackConfig)
    case RollbackConfig =>
      if !edits then s.(pc := Done)
      else s.(rolledBack := true, pc := if s.added && !s.registerFailed then RollbackCatalog else Done)
    case RollbackCatalog => s.(catalog := if ch.ok then Restored(x.cid, s.catalog, s.prior) else s.catalog, pc := Done)
    case Done => s
  }

  /** One step of the command. */
  function Own(x: Setup, s: State, ch: Choice): State {
    Next(x, s, ch).(config := Edited(x, s, ch))
  }

  function Step(x: Setup, s: State, ev: Event<Choice>): State {
    match ev
    case Other(e) => s.(config := OnContent(s.config, e, x.template))
    case Mine(ch) => Own(x, s, ch)
  }

  function Run(x: Setup, s: State, evs: seq<Event<Choice>>): State
    decreases evs
  {
    if evs == [] then s else Run(x, Step(x, s, evs[0]), evs[1..])
  }

  ghost predicate GoodSetup(x: Setup) {
    Parsed(x.cid) && QuoteSafe(Key(x)) && Inert(x.template)
  }

  /** The command cannot mistake another drive's section for its own: it either finds its own section again,
      or starts without one of that name. */
  predicate Addable(x: Setup, t: Table) {
    !SitelessLibrary(x.cid) || Key(x) !in t
  }

  // ---------------------------------------------------------------- steps as map updates

  lemma {:induction false} FoundFacts(x: Setup, c: Content, pick: string)
    requires GoodSetup(x)
    ensures Key(x) in MeaningOf(c) && !SitelessLibrary(x.cid) ==> Found(x, c, pick).Some?
    ensures Unaliased(MeaningOf(c), x.cid) ==>
      Found(x, c, pick) == if Key(x) in MeaningOf(c) && !SitelessLibrary(x.cid)
        then Some(Decode(x.v, MeaningOf(c)[Key(x)])) else None
  {
    hide MeaningOf, Parse, Print, Loaded, Decode, Parsed, Inert, QuoteSafe, Unaliased;
    LoadedIs(MeaningOf(c), x.cid, pick);
    if Key(x) in MeaningOf(c) { PrintedLoads(MeaningOf(c), x.cid, pick); }
    if Unaliased(MeaningOf(c), x.cid) { UnaliasedLoads(MeaningOf(c), x.cid, pick); }
  }

  lemma {:induction false} OwnEditWritable(x: Setup, s: State, ch: Choice)
    requires QuoteSafe(Key(x)) && OwnEdit(x, s, ch).Some?
    ensures OwnEdit(x, s, ch).value.name == Key(x) && Writable(OwnEdit(x, s, ch).value)
    ensures OwnEdit(x, s, ch).value.Append? <==> s.pc == Write(false)
  {
    hide Unchanged, MeaningOf, Print, QuoteSafe, SettableKey, Found;
    SyncDirSettable();
  }

  /** Each step edits only this drive's section, as the map says. The file stays sound unless the section is
      appended although there is one of that name. */
  lemma {:induction false} OwnRefines(x: Setup, s: State, ch: Choice)
    requires GoodSetup(x) && SoundOf(s.config)
    ensures SoundOf(Own(x, s, ch).config) <==> !(s.pc == Write(false) && ch.ok && Key(x) in MeaningOf(s.config))
    ensures MeaningOf(Own(x, s, ch).config) ==
      var e := OwnEdit(x, s, ch); if e.Some? then OnTable(MeaningOf(s.config), e.value) else MeaningOf(s.config)
    ensures OwnEdit(x, s, ch).Some? ==> OwnEdit(x, s, ch).value.name == Key(x)
  {
    hide OnContent, Next, SoundOf, Inert, QuoteSafe, OnTable, MeaningOf, Key, Unchanged, Found, Parsed, Writable;
    if OwnEdit(x, s, ch).Some? {
      OwnEditWritable(x, s, ch);
      EditRefines(s.config, OwnEdit(x, s, ch).value, x.template);
    }
  }

  // ---------------------------------------------------------------- catalog and configuration

  /** The catalog record of this drive, if any, is stored under its own key. */
  predicate KeyedAt(c: Cat.State, key: string) {
    key in c.drives ==> c.drives[key].canonicalId == key
  }

  lemma {:induction false} RestoredBack(key: string, cid: CanonicalId, c: Cat.State, d: Cat.CatalogDrive)
    requires KeyedAt(c, key) && key == Print(cid) && d.canonicalId == key
    ensures Restored(cid, Cat.UpsertDrive(c, d), PriorOf(c, key)) == c
  {
    hide Print;
    var r := Cat.UpsertDrive(c, d);
    if key in c.drives {
      assert r.drives[key := c.drives[key]] == c.drives;
    } else {
      assert r.drives - {key} == c.drives;
    }
  }

  lemma {:induction false} RegisterEffect(c: Cat.State, x: Setup)
    requires KeyedAt(c, Key(x)) && Cat.RegisterDrive(c, x.cid, x.name).Some?
    ensures var r := Cat.RegisterDrive(c, x.cid, x.name).value;
      Key(x) in r.drives && Restored(x.cid, r, PriorOf(c, Key(x))) == c
  {
    hide Print, Parse, Restored;
    var r := Cat.RegisterDrive(c, x.cid, x.name).value;
    RestoredBack(Key(x), x.cid, c, r.drives[Key(x)]);
  }

  /** The command never appends a section of a name that is there. */
  ghost predicate Clear(x: Setup, s: State) {
    && (s.pc == Write(false) || (SitelessLibrary(x.cid) && !s.added) ==> Key(x) !in MeaningOf(s.config))
    && (s.pc.LoadCatalog? || s.pc.LoadConfig? || s.pc.Write? ==> !s.added && !s.backfilled && !s.rolledBack)
  }

  lemma {:induction false} OtherClear(x: Setup, s: State, e: Edit)
    requires Clear(x, s) && !(e.Append? && e.name == Key(x))
    requires MeaningOf(OnContent(s.config, e, x.template)) == OnTable(MeaningOf(s.config), e)
    ensures Clear(x, Step(x, s, Event.Other(e)))
  {
    hide OnContent, MeaningOf, Key, Quote, FormatValue, SitelessLibrary;
  }

  lemma {:induction false} LoadingClear(x: Setup, s: State, ch: Choice)
    requires GoodSetup(x) && Clear(x, s) && (s.pc.LoadCatalog? || s.pc.LoadConfig?)
    ensures Clear(x, Own(x, s, ch))
  {
    hide OnContent, MeaningOf, Key, Inert, QuoteSafe, Found, PriorOf, Parsed, SitelessLibrary;
    FoundFacts(x, s.config, ch.pick);
  }

  lemma {:induction false} WritingClear(x: Setup, s: State, ch: Choice)
    requires GoodSetup(x) && SoundOf(s.config) && Clear(x, s) && s.pc.Write?
    ensures Clear(x, Own(x, s, ch))
  {
    hide Edited, SoundOf, MeaningOf, Key, Inert, QuoteSafe, Found, Quote, FormatValue, Parsed, SitelessLibrary;
    OwnRefines(x, s, ch);
    if s.pc.present {
      assert OwnEdit(x, s, ch).Some? ==> Key(x) in MeaningOf(s.config) && Found(x, s.config, ch.pick).Some?;
    }
  }

  lemma {:induction false} LateClear(x: Setup, s: State, ch: Choice)
    requires GoodSetup(x) && SoundOf(s.config) && Clear(x, s) && !s.pc.LoadCatalog? && !s.pc.LoadConfig? && !s.pc.Write?
    ensures Clear(x, Own(x, s, ch))
  {
    hide Edited, SoundOf, MeaningOf, Key, Cat.RegisterDrive, Inert, QuoteSafe, Unchanged, Found, Parsed,
      SitelessLibrary, Restored;
    OwnRefines(x, s, ch);
  }

  lemma {:induction false} MineClear(x: Setup, s: State, ch: Choice)
    requires GoodSetup(x) && SoundOf(s.config) && Clear(x, s)
    ensures Clear(x, Own(x, s, ch))
  {
    hide Own, SoundOf, Clear, GoodSetup;
    if s.pc.LoadCatalog? || s.pc.LoadConfig? {
      LoadingClear(x, s, ch);
    } else if s.pc.Write? {
      WritingClear(x, s, ch);
    } else {
      LateClear(x, s, ch);
    }
  }

  lemma {:induction false} MineBeside(x: Setup, s: State, c: Content, ch: Choice)
    requires GoodSetup(x) && Clear(x, s) && Beside(Key(x), s.config, c)
    ensures Beside(Key(x), Own(x, s, ch).config, c)
  {
    hide Own, GoodSetup, MeaningOf, SoundOf, Others, OwnEdit, OnTable, Key, SitelessLibrary;
    OwnRefines(x, s, ch);
    var e := OwnEdit(x, s, ch);
    if e.Some? { OthersFollow(MeaningOf(s.config), MeaningOf(s.config), e.value, Key(x)); }
  }

  lemma {:induction false} RunBeside(x: Setup, s: State, c: Content, evs: seq<Event<Choice>>)
    requires GoodSetup(x) && Clear(x, s) && Beside(Key(x), s.config, c) && PermittedRun(Key(x), c, evs, x.template)
    ensures Clear(x, Run(x, s, evs)) && Beside(Key(x), Run(x, s, evs).config, OthersRun(c, evs, x.template))
    decreases evs
  {
    hide Clear, Own, OnContent, Others, Inert, QuoteSafe, MeaningOf, SoundOf, OnTable, Writable, Duplicates, Key;
    if evs != [] {
      match evs[0]
      case Other(e) =>
        OtherBeside(Key(x), s.config, c, e, x.template);
        OtherClear(x, s, e);
        RunBeside(x, Step(x, s, evs[0]), OnContent(c, e, x.template), evs[1..]);
      case Mine(ch) =>
        MineBeside(x, s, c, ch);
        MineClear(x, s, ch);
        RunBeside(x, Step(x, s, evs[0]), c, evs[1..]);
    }
  }

  /** Whatever the interleaving and whatever fails, every other section ends as if the command had not run. */
  lemma {:induction false} OtherSectionsUntouched(x: Setup, config: Content, catalog: Cat.State,
                                                  evs: seq<Event<Choice>>)
    requires GoodSetup(x) && SoundOf(config) && Addable(x, MeaningOf(config))
    requires PermittedRun(Key(x), config, evs, x.template)
    ensures var s := Run(x, Init(config, catalog), evs);
      SoundOf(s.config)
        && Others(MeaningOf(s.config), Key(x)) == Others(MeaningOf(OthersRun(config, evs, x.template)), Key(x))
  {
    hide Own, MeaningOf, SoundOf, Others, Key, GoodSetup, PermittedRun, Run, OthersRun, SitelessLibrary;
    RunBeside(x, Init(config, catalog), config, evs);
  }

  /** What holds between any two steps of any interleaving; `c0` is the catalog at the start. */
  ghost predicate Inv(x: Setup, c0: Cat.State, s: State) {
    var configured := Key(x) in MeaningOf(s.config);
    var r := Cat.RegisterDrive(c0, x.cid, x.name);
    && (s.pc != LoadCatalog && s.pc != Done ==> s.prior == PriorOf(c0, Key(x)))
    && Clear(x, s)
    && (s.pc.Register? || s.pc.RollbackCatalog? ==> s.added)
    && (s.pc.RollbackCatalog? ==> s.rolledBack)
    && (!s.added ==> s.catalog == c0 && !s.registerFailed && (configured ==> Key(x) in c0.drives))
    && (s.added ==>
          && (s.pc.Register? || s.registerFailed ==> s.catalog == c0)
          && (!s.pc.Register? && !s.pc.Done? && !s.registerFailed ==> r.Some? && s.catalog == r.value)
          && (s.pc.RollbackCatalog? ==> !s.registerFailed)
          && (s.pc.Register? ==> !s.registerFailed)
          && (s.pc.Done? && !s.registerFailed ==>
             (r.Some? && s.catalog == r.value) || (s.rolledBack && s.catalog == c0))
          && (s.rolledBack ==> !configured))
  }

  lemma {:induction false} OtherKeeps(x: Setup, c0: Cat.State, s: State, e: Edit)
    requires Inv(x, c0, s) && !(e.Append? && e.name == Key(x))
    requires MeaningOf(OnContent(s.config, e, x.template)) == OnTable(MeaningOf(s.config), e)
    ensures Inv(x, c0, Step(x, s, Event.Other(e)))
  {
    hide OnContent, MeaningOf, Key, Cat.RegisterDrive, Quote, FormatValue, PriorOf;
  }

  lemma {:induction false} LoadingKeeps(x: Setup, c0: Cat.State, s: State, ch: Choice)
    requires GoodSetup(x) && Inv(x, c0, s) && (s.pc.LoadCatalog? || s.pc.LoadConfig?)
    ensures Inv(x, c0, Own(x, s, ch))
  {
    hide OnContent, MeaningOf, Key, Cat.RegisterDrive, Inert, QuoteSafe, Unchanged, Found, PriorOf, Parsed,
      SitelessLibrary;
    FoundFacts(x, s.config, ch.pick);
  }

  lemma {:induction false} WritingKeeps(x: Setup, c0: Cat.State, s: State, ch: Choice)
    requires GoodSetup(x) && SoundOf(s.config) && Inv(x, c0, s) && s.pc.Write?
    ensures Inv(x, c0, Own(x, s, ch))
  {
    hide Edited, SoundOf, MeaningOf, Key, Cat.RegisterDrive, Inert, QuoteSafe, Unchanged, Found, PriorOf, Quote,
      FormatValue, Parsed, SitelessLibrary;
    OwnRefines(x, s, ch);
    if s.pc.present {
      assert OwnEdit(x, s, ch).Some? ==> Key(x) in MeaningOf(s.config) && Found(x, s.config, ch.pick).Some?;
    }
  }

  lemma {:induction false} RegisteringKeeps(x: Setup, c0: Cat.State, s: State, ch: Choice)
    requires KeyedAt(c0, Key(x)) && Inv(x, c0, s) && (s.pc.Register? || s.pc.Materialize? || s.pc.Done?)
    ensures Inv(x, c0, Own(x, s, ch))
  {
    hide OnContent, MeaningOf, Key, Cat.RegisterDrive, Decode, Restored, Unchanged, Found, PriorOf, SitelessLibrary;
  }

  lemma {:induction false} RollbackConfigKeeps(x: Setup, c0: Cat.State, s: State, ch: Choice)
    requires GoodSetup(x) && SoundOf(s.config) && Inv(x, c0, s) && s.pc.RollbackConfig?
    ensures Inv(x, c0, Own(x, s, ch))
  {
    hide OnContent, SoundOf, MeaningOf, Key, Cat.RegisterDrive, Decode, Restored, Inert, QuoteSafe, Unchanged, Found,
      PriorOf, Parsed, SitelessLibrary;
    OwnRefines(x, s, ch);
  }

  lemma {:induction false} RollbackCatalogKeeps(x: Setup, c0: Cat.State, s: State, ch: Choice)
    requires KeyedAt(c0, Key(x)) && Inv(x, c0, s) && s.pc.RollbackCatalog?
    ensures Inv(x, c0, Own(x, s, ch))
  {
    hide OnContent, MeaningOf, Key, Cat.RegisterDrive, Decode, Restored, Unchanged, KeyedAt, Found, PriorOf,
      SitelessLibrary;
    RegisterEffect(c0, x);
  }

  /** The command's own step keeps the invariant, and no section outside its own changes. */
  lemma {:induction false} MineKeeps(x: Setup, c0: Cat.State, s: State, c: Content, ch: Choice)
    requires GoodSetup(x) && KeyedAt(c0, Key(x)) && Inv(x, c0, s) && Beside(Key(x), s.config, c)
    ensures Inv(x, c0, Own(x, s, ch)) && Beside(Key(x), Own(x, s, ch).config, c)
  {
    hide Own, GoodSetup, KeyedAt, MeaningOf, SoundOf, Others, Key, Clear;
    MineBeside(x, s, c, ch);
    if s.pc.LoadCatalog? || s.pc.LoadConfig? {
      LoadingKeeps(x, c0, s, ch);
    } else if s.pc.Write? {
      WritingKeeps(x, c0, s, ch);
    } else if s.pc.RollbackConfig? {
      RollbackConfigKeeps(x, c0, s, ch);
    } else if s.pc.RollbackCatalog? {
      RollbackCatalogKeeps(x, c0, s, ch);
    } else {
      RegisteringKeeps(x, c0, s, ch);
    }
  }

  /** In every interleaving the invariant holds, and every other section is as if the command had not run. */
  lemma {:induction false} RunKeeps(x: Setup, c0: Cat.State, s: State, c: Content, evs: seq<Event<Choice>>)
    requires GoodSetup(x) && KeyedAt(c0, Key(x)) && Inv(x, c0, s) && Beside(Key(x), s.config, c)
    requires PermittedRun(Key(x), c, evs, x.template)
    ensures Inv(x, c0, Run(x, s, evs)) && Beside(Key(x), Run(x, s, evs).config, OthersRun(c, evs, x.template))
    decreases evs
  {
    hide Inv, Own, OnContent, KeyedAt, Beside, Inert, QuoteSafe, MeaningOf, OnTable, Writable, Duplicates, Key;
    if evs != [] {
      match evs[0]
      case Other(e) =>
        OtherBeside(Key(x), s.config, c, e, x.template);
        OtherKeeps(x, c0, s, e);
        RunKeeps(x, c0, Step(x, s, evs[0]), OnContent(c, e, x.template), evs[1..]);
      case Mine(ch) =>
        MineKeeps(x, c0, s, c, ch);
        RunKeeps(x, c0, Step(x, s, evs[0]), c, evs[1..]);
    }
  }

  lemma {:induction false} Starts(x: Setup, config: Content, catalog: Cat.State)
    requires SoundOf(config) && Addable(x, MeaningOf(config))
    requires (Key(x) in MeaningOf(config) ==> Key(x) in catalog.drives)
    ensures Inv(x, catalog, Init(config, catalog)) && Beside(Key(x), config, config)
  {
    hide MeaningOf, SoundOf, Key, Cat.RegisterDrive;
  }

  /** At the end of every interleaving, a configured drive has a catalog entry if and only if it had one before
      or the catalog write did not fail; and the catalog is the old one or the one with the drive. */
  lemma {:induction false} ConfiguredIsCataloged(x: Setup, config: Content, catalog: Cat.State, evs: seq<Event<Choice>>)
    requires GoodSetup(x) && KeyedAt(catalog, Key(x)) && SoundOf(config)
    requires PermittedRun(Key(x), config, evs, x.template)
    requires Addable(x, MeaningOf(config)) && (Key(x) in MeaningOf(config) ==> Key(x) in catalog.drives)
    ensures var s := Run(x, Init(config, catalog), evs);
      s.pc.Done? ==>
        && (Key(x) in MeaningOf(s.config) ==>
           (Key(x) in s.catalog.drives <==> Key(x) in catalog.drives || !s.registerFailed))
        && (s.rolledBack && s.added ==> Key(x) !in MeaningOf(s.config))
        && (s.catalog == catalog || Cat.RegisterDrive(catalog, x.cid, x.name) == Some(s.catalog))
  {
    Starts(x, config, catalog);
    RunKeeps(x, catalog, Init(config, catalog), config, evs);
    if Cat.RegisterDrive(catalog, x.cid, x.name).Some? {
      RegisterEffect(catalog, x);
    }
    hide Cat.RegisterDrive, SoundOf, MeaningOf, Key, Run, OthersRun, PermittedRun, GoodSetup, KeyedAt, Beside;
  }

  // ---------------------------------------------------------------- the exceptions happen

  /** When the catalog write fails after another process paused the new drive, the drive stays configured
      without a catalog entry. */
  lemma {:induction false} FailedRegisterCanStrand(x: Setup, config: Content, catalog: Cat.State, dir: string)
    returns (evs: seq<Event<Choice>>)
    requires GoodSetup(x) && SoundOf(config) && NamesOf(MeaningOf(config), x.cid) == {} && Key(x) !in MeaningOf(config)
    requires Key(x) !in catalog.drives
    ensures PermittedRun(Key(x), config, evs, x.template)
    ensures var s := Run(x, Init(config, catalog), evs);
      s.pc.Done? && Key(x) in MeaningOf(s.config) && Key(x) !in s.catalog.drives
  {
    hide OnContent, SoundOf, MeaningOf, Key, Inert, QuoteSafe, Quote, FormatValue, Run, Cat.RegisterDrive,
      SettableKey, Found, Parsed, OthersRun, Others;
    var ok, no, pause :=
      Choice(true, true, true, dir, ""), Choice(false, true, true, dir, ""), SetKey(Key(x), "paused", "true");
    PausedSettable();
    evs := [Mine(ok), Mine(ok), Mine(ok), Event.Other(pause), Mine(no), Mine(ok)];
    var s0 := Init(config, catalog);
    FreshNotFound(x, config, "");
    var s2 := Own(x, Own(x, s0, ok), ok);
    var s3 := Own(x, s2, ok);
    OwnRefines(x, s2, ok);
    var s4 := Step(x, s3, Event.Other(pause));
    EditRefines(s3.config, pause, x.template);
    var s5 := Own(x, s4, no);
    PausedNotFound(x, config, s5, dir);
    var s6 := Own(x, s5, ok);
    assert s6.config == s5.config && s6.catalog == catalog && s6.pc.Done?;
    RunSix(x, s0, evs);
    PermittedSix(Key(x), config, evs, x.template);
  }

  lemma {:induction false} FreshNotFound(x: Setup, c: Content, pick: string)
    requires NamesOf(MeaningOf(c), x.cid) == {}
    ensures Found(x, c, pick).None?
  {
    hide MeaningOf, Parse, Print, NamesOf;
  }

  lemma {:induction false} PausedNotFound(x: Setup, config: Content, s: State, dir: string)
    requires NamesOf(MeaningOf(config), x.cid) == {} && Key(x) !in MeaningOf(config) && s.added
    requires MeaningOf(s.config) ==
      OnTable(OnTable(MeaningOf(config), Append(Key(x), dir)), SetKey(Key(x), "paused", "true"))
    ensures !Unchanged(x, s, "") && Key(x) in MeaningOf(s.config)
  {
    hide MeaningOf, Parse, Print, Quote, FormatValue, Loaded;
    var t := MeaningOf(s.config);
    LoadedIs(t, x.cid, "");
    forall n | n in t && n != Key(x) ensures Parse(n) != Some(x.cid) {
      assert n in MeaningOf(config) && n !in NamesOf(MeaningOf(config), x.cid);
    }
    assert "paused" in t[Key(x)];
  }

  lemma {:induction false} PausedSettable()
    ensures SettableKey("paused")
  {
  }

  lemma {:induction false} PermittedSix(key: string, c: Content, evs: seq<Event<Choice>>, template: string)
    requires |evs| == 6 && evs[0].Mine? && evs[1].Mine? && evs[2].Mine? && evs[4].Mine? && evs[5].Mine?
    requires evs[3].Other? && evs[3].edit.SetKey? && SettableKey(evs[3].edit.key)
    ensures PermittedRun(key, c, evs, template)
  {
    hide OnContent, MeaningOf, SettableKey;
    var e1, e2, e3, e4, e5 := evs[1..], evs[2..], evs[3..], evs[4..], evs[5..];
    assert e1[1..] == e2 && e2[1..] == e3 && e3[1..] == e4 && e4[1..] == e5 && e5[1..] == [];
    var d := OnContent(c, evs[3].edit, template);
    assert PermittedRun(key, d, e5, template);
    assert PermittedRun(key, d, e4, template);
    assert PermittedRun(key, c, e3, template);
    assert PermittedRun(key, c, e2, template);
    assert PermittedRun(key, c, e1, template);
  }

  lemma {:induction false} RunSix(x: Setup, s: State, evs: seq<Event<Choice>>)
    requires |evs| == 6
    ensures Run(x, s, evs) ==
      Step(x, Step(x, Step(x, Step(x, Step(x, Step(x, s, evs[0]), evs[1]), evs[2]), evs[3]), evs[4]), evs[5])
  {
    hide Step;
    var e1, e2, e3, e4, e5 := evs[1..], evs[2..], evs[3..], evs[4..], evs[5..];
    assert e1[1..] == e2 && e2[1..] == e3 && e3[1..] == e4 && e4[1..] == e5 && e5[1..] == [];
    var s1 := Step(x, s, evs[0]);
    var s2 := Step(x, s1, evs[1]);
    var s3 := Step(x, s2, evs[2]);
    var s4 := Step(x, s3, evs[3]);
    var s5 := Step(x, s4, evs[4]);
    assert Run(x, s5, e5) == Step(x, s5, evs[5]);
    assert Run(x, s4, e4) == Run(x, s5, e5);
    assert Run(x, s3, e3) == Run(x, s4, e4);
    assert Run(x, s2, e2) == Run(x, s3, e3);
    assert Run(x, s1, e1) == Run(x, s2, e2);
  }

  // ---------------------------------------------------------------- adding twice

  /** The whole command, alone and with every step succeeding; further steps would change nothing. */
  function Complete(x: Setup, config: Content, catalog: Cat.State, ch: Choice): State {
    Own(x, Own(x, Own(x, Own(x, Own(x, Init(config, catalog), ch), ch), ch), ch), ch)
  }

  predicate Succeeds(ch: Choice) {
    ch.ok && ch.loads && ch.unquotes
  }

  /** A first add appends the section, and one for a drive that is found again writes no section. */
  lemma {:induction false} CompleteAppends(x: Setup, config: Content, catalog: Cat.State, ch: Choice)
    requires GoodSetup(x) && SoundOf(config) && Succeeds(ch) && Cat.RegisterDrive(catalog, x.cid, x.name).Some?
    ensures Found(x, config, ch.pick).None? ==>
      var s := Complete(x, config, catalog, ch);
      && s.pc.Done? && MeaningOf(s.config) == OnTable(MeaningOf(config), Append(Key(x), ch.dir))
      && (SoundOf(s.config) <==> Key(x) !in MeaningOf(config))
      && Some(s.catalog) == Cat.RegisterDrive(catalog, x.cid, x.name)
  {
    hide OnContent, SoundOf, MeaningOf, Key, Inert, QuoteSafe, Cat.RegisterDrive, Found, Parsed, OnTable, PriorOf,
      Unchanged;
    if Found(x, config, ch.pick).None? {
      var s1 := Own(x, Init(config, catalog), ch);
      var s2 := Own(x, s1, ch);
      assert s2.pc == Write(false) && s2.config == config && s2.catalog == catalog && s2.dir == ch.dir;
      OwnRefines(x, s2, ch);
      var s3 := Own(x, s2, ch);
      assert s3.pc == Register && s3.catalog == catalog;
      var s4 := Own(x, s3, ch);
      assert s4.pc == Materialize && s4.config == s3.config;
    }
  }

  lemma {:induction false} CompleteFinds(x: Setup, config: Content, catalog: Cat.State, ch: Choice)
    requires GoodSetup(x) && Succeeds(ch) && Found(x, config, ch.pick).Some?
    requires Key(x) in MeaningOf(config) && "sync_dir" in MeaningOf(config)[Key(x)]
    ensures Complete(x, config, catalog, ch).pc.Done? && Complete(x, config, catalog, ch).config == config
  {
    hide OnContent, MeaningOf, Key, Inert, QuoteSafe, Cat.RegisterDrive, Found, Parsed, PriorOf, Unchanged, Restored;
    var s1 := Own(x, Init(config, catalog), ch);
    var s2 := Own(x, s1, ch);
    assert s2.config == config && (s2.pc.Materialize? || s2.pc == Write(true));
    var s3 := Own(x, s2, ch);
    assert s3.config == config && (s3.pc.Materialize? || s3.pc.Done?);
    var s4 := Own(x, s3, ch);
    assert s4.config == config && s4.pc.Done?;
  }

  /** Adding a new drive twice leaves a file that can be loaded if and only if the identifier is not siteless:
      a siteless drive is not found again, and its header is written a second time. */
  lemma {:induction false} AddTwice(x: Setup, config: Content, catalog: Cat.State, a: Choice, b: Choice)
    requires GoodSetup(x) && SoundOf(config) && Succeeds(a) && Succeeds(b) && Cat.OwnerOf(x.cid).Some?
    requires NamesOf(MeaningOf(config), x.cid) == {} && Key(x) !in MeaningOf(config)
    ensures var s := Complete(x, config, catalog, a);
      && SoundOf(s.config) && Key(x) in MeaningOf(s.config)
      && (SoundOf(Complete(x, s.config, s.catalog, b).config) <==> !SitelessLibrary(x.cid))
  {
    hide SoundOf, MeaningOf, Print, Parse, Inert, QuoteSafe, Found, Parsed, Complete, Cat.OwnerOf, Quote, Loaded;
    FreshNotFound(x, config, a.pick);
    Registers(x, catalog);
    CompleteAppends(x, config, catalog, a);
    var s := Complete(x, config, catalog, a);
    var t := MeaningOf(s.config);
    Registers(x, s.catalog);
    assert "sync_dir" in t[Key(x)];
    OnlyNew(x, MeaningOf(config), t);
    FoundFacts(x, s.config, b.pick);
    if SitelessLibrary(x.cid) {
      CompleteAppends(x, s.config, s.catalog, b);
    } else {
      CompleteFinds(x, s.config, s.catalog, b);
    }
  }

  lemma {:induction false} Registers(x: Setup, c: Cat.State)
    requires Cat.OwnerOf(x.cid).Some?
    ensures Cat.RegisterDrive(c, x.cid, x.name).Some?
  {
    hide Print, Parse;
  }

  lemma {:induction false} OnlyNew(x: Setup, t: Table, u: Table)
    requires NamesOf(t, x.cid) == {} && u.Keys == t.Keys + {Key(x)}
    ensures Unaliased(u, x.cid)
  {
    hide Parse, Print;
    forall n | n in u && Parse(n) == Some(x.cid) ensures n == Print(x.cid) {
      assert n !in NamesOf(t, x.cid);
    }
  }

  // ---------------------------------------------------------------- rollback

  /** A rollback changes the file if and only if it finds exactly what this attempt wrote, and then removes
      only that. */
  lemma {:induction false} RollbackIsOwn(x: Setup, s: State, ch: Choice)
    requires GoodSetup(x) && SoundOf(s.config) && s.pc.RollbackConfig?
    ensures var s', t := Own(x, s, ch), MeaningOf(s.config);
      if ch.ok && ch.loads && Unchanged(x, s, ch.pick)
      then s'.rolledBack
        && MeaningOf(s'.config) == (if s.added then t - {Key(x)} else t[Key(x) := t[Key(x)] - {"sync_dir"}])
      else s'.config == s.config && s'.rolledBack == s.rolledBack && s'.pc.Done?
  {
    OwnRefines(x, s, ch);
    hide OnContent, SoundOf, MeaningOf, Key, Found, Inert, QuoteSafe, Parsed, Restored, Expected;
  }

  /** What this attempt left in the section: only the directory, or the drive as it was with the directory. */
  function Left(s: State): Drive {
    if s.added then Drive(s.dir, None, None, "", "", [], [], [], false, false, false) else s.before.(syncDir := s.dir)
  }

  /** If another process has meanwhile set any of the eleven keys of the section to something else than the attempt
      left there, the rollback leaves the file as it is. */
  lemma {:induction false} RollbackSparesEdit(x: Setup, s: State, ch: Choice, k: string, value: string)
    requires GoodSetup(x) && SoundOf(s.config) && s.pc.RollbackConfig? && SettableKey(k)
    requires Key(x) in MeaningOf(s.config) && Unaliased(MeaningOf(s.config), x.cid)
    requires Contradicts(x.v, k, FormatValue(value), Left(s))
    ensures var s1 := Step(x, s, Event.Other(SetKey(Key(x), k, value)));
      && Own(x, s1, ch) == s1.(pc := Done) && Key(x) in MeaningOf(s1.config)
      && MeaningOf(s1.config)[Key(x)] == MeaningOf(s.config)[Key(x)][k := FormatValue(value)]
  {
    hide OnContent, SoundOf, MeaningOf, Print, Parse, Inert, QuoteSafe, Decode, Contradicts, FormatValue, SettableKey,
      Unaliased, Loaded, SitelessLibrary;
    var e := SetKey(Key(x), k, value);
    var s1 := Step(x, s, Event.Other(e));
    EditRefines(s.config, e, x.template);
    var t, t1 := MeaningOf(s.config), MeaningOf(s1.config);
    SameNames(t, t1, x.cid);
    FoundFacts(x, s1.config, ch.pick);
    ContradictedDiffers(x.v, t1[Key(x)], k, Left(s));
  }

  lemma {:induction false} SameNames(t: Table, u: Table, cid: CanonicalId)
    requires t.Keys == u.Keys && Unaliased(t, cid)
    ensures Unaliased(u, cid)
  {
    hide Parse, Print;
  }

  /** For a siteless identifier without another spelling the rollback finds nothing, ever. */
  lemma {:induction false} SitelessNeverRollsBack(x: Setup, s: State, ch: Choice)
    requires GoodSetup(x) && SoundOf(s.config) && s.pc.RollbackConfig? && SitelessLibrary(x.cid)
    requires Unaliased(MeaningOf(s.config), x.cid)
    ensures Own(x, s, ch) == s.(pc := Done)
  {
    FoundFacts(x, s.config, ch.pick);
    hide OnContent, SoundOf, MeaningOf, Key, Found, Inert, QuoteSafe, Parsed, Restored, Expected;
  }

  // ---------------------------------------------------------------- a failed add leaves no trace

  /** `t` is the real map, `u` the one without the command: they differ by exactly what it wrote. */
  ghost predicate Differs(x: Setup, s: State, t: Table, u: Table) {
    var key := Key(x);
    && Others(t, key) == Others(u, key)
    && !(s.added && s.backfilled)
    && ((!s.added && !s.backfilled) || s.rolledBack ==> t == u)
    && (s.added && !s.rolledBack ==> key !in u && key in t && t[key] == map["sync_dir" := Quote(s.dir)])
    && (s.backfilled && !s.rolledBack ==>
          && key in u && "sync_dir" !in u[key] && s.before == Decode(x.v, u[key])
          && key in t && t[key] == u[key]["sync_dir" := FormatValue(s.dir)])
    && (s.pc.LoadCatalog? || s.pc.LoadConfig? || s.pc.Write? ==> !s.added && !s.backfilled)
    && (s.pc == Write(false) || (SitelessLibrary(x.cid) && !s.added) ==> key !in t)
    && (s.rolledBack ==> s.pc.RollbackCatalog? || s.pc.Done?)
  }

  lemma {:induction false} OtherDiffers(x: Setup, s: State, t: Table, u: Table, e: Edit)
    requires e.name != Key(x) && Differs(x, s, t, u)
    ensures Differs(x, s, OnTable(t, e), OnTable(u, e))
  {
    hide Key, OnTable, Others, FormatValue, Quote;
    OthersFollow(t, u, e, Key(x));
    EditElsewhere(t, e, Key(x));
    EditElsewhere(u, e, Key(x));
  }

  lemma {:induction false} WriteDiffers(x: Setup, s: State, c: Content, ch: Choice)
    requires GoodSetup(x) && SoundOf(s.config) && !s.pc.RollbackConfig?
    requires Differs(x, s, MeaningOf(s.config), MeaningOf(c))
    requires Unaliased(MeaningOf(s.config), x.cid)
    ensures Differs(x, Own(x, s, ch), MeaningOf(Own(x, s, ch).config), MeaningOf(c))
  {
    hide Edited, SoundOf, MeaningOf, Key, Inert, QuoteSafe, FormatValue, Quote, Cat.RegisterDrive, Restored,
      Unchanged, Others, Found, Parsed, PriorOf, SitelessLibrary, Unaliased, Decode;
    OwnRefines(x, s, ch);
    FoundFacts(x, s.config, ch.pick);
    var t := MeaningOf(s.config);
    if OwnEdit(x, s, ch).Some? {
      OthersFollow(t, t, OwnEdit(x, s, ch).value, Key(x));
    }
  }

  lemma {:induction false} UndoDiffers(x: Setup, s: State, t: Table, u: Table)
    requires Differs(x, s, t, u) && s.pc.RollbackConfig? && (s.added || s.backfilled)
    ensures OnTable(t, Undo(x, s)) == u
  {
    hide FormatValue, Quote, Key, Others, SitelessLibrary;
    var t' := OnTable(t, Undo(x, s));
    OthersFollow(t, t, Undo(x, s), Key(x));
    SameSections(t', u, Key(x));
  }

  lemma {:induction false} RollbackDiffers(x: Setup, s: State, c: Content, ch: Choice)
    requires GoodSetup(x) && SoundOf(s.config) && s.pc.RollbackConfig?
    requires Differs(x, s, MeaningOf(s.config), MeaningOf(c))
    ensures Differs(x, Own(x, s, ch), MeaningOf(Own(x, s, ch).config), MeaningOf(c))
  {
    hide OnContent, SoundOf, MeaningOf, Key, Inert, QuoteSafe, Found, FormatValue, Quote, OnTable, Parsed,
      SitelessLibrary, Expected;
    OwnRefines(x, s, ch);
    if ch.ok && ch.loads && Unchanged(x, s, ch.pick) {
      UndoDiffers(x, s, MeaningOf(s.config), MeaningOf(c));
    }
  }

  /** Throughout the run no section is another spelling of this drive. */
  ghost predicate UnaliasedRun(cid: CanonicalId, c: Content, evs: seq<Event<Choice>>, template: string)
    decreases evs
  {
    && Unaliased(MeaningOf(c), cid)
    && (evs == []
       || UnaliasedRun(cid, if evs[0].Other? then OnContent(c, evs[0].edit, template) else c, evs[1..], template))
  }

  lemma {:induction false} UnaliasedBeside(x: Setup, file: Content, c: Content)
    requires Beside(Key(x), file, c) && Unaliased(MeaningOf(c), x.cid)
    ensures Unaliased(MeaningOf(file), x.cid)
  {
    hide MeaningOf, SoundOf, Others, Parse, Print;
    forall n | n in MeaningOf(file) && Parse(n) == Some(x.cid) ensures n == Print(x.cid) {
      if n != Key(x) { OtherNames(MeaningOf(file), MeaningOf(c), Key(x), n); }
    }
  }

  lemma {:induction false} RunDiffers(x: Setup, c0: Cat.State, s: State, c: Content, evs: seq<Event<Choice>>)
    requires GoodSetup(x) && KeyedAt(c0, Key(x)) && Inv(x, c0, s) && Beside(Key(x), s.config, c)
    requires PermittedRun(Key(x), c, evs, x.template) && Untouched(Key(x), evs)
    requires UnaliasedRun(x.cid, c, evs, x.template)
    requires Differs(x, s, MeaningOf(s.config), MeaningOf(c))
    ensures var s', c' := Run(x, s, evs), OthersRun(c, evs, x.template);
      && Inv(x, c0, s') && Beside(Key(x), s'.config, c') && Differs(x, s', MeaningOf(s'.config), MeaningOf(c'))
      && Unaliased(MeaningOf(s'.config), x.cid)
    decreases evs
  {
    hide Unaliased, Differs, OnContent, MeaningOf, Own, GoodSetup, Inv, KeyedAt, Others, SoundOf, Duplicates,
      Writable, OnTable, Key;
    UnaliasedBeside(x, s.config, c);
    if evs != [] {
      match evs[0]
      case Other(e) =>
        RunKeepsOther(x, c0, s, c, e);
        OtherDiffers(x, s, MeaningOf(s.config), MeaningOf(c), e);
        SameFlags(x, s, e);
        RunDiffers(x, c0, Step(x, s, evs[0]), OnContent(c, e, x.template), evs[1..]);
      case Mine(ch) =>
        MineKeeps(x, c0, s, c, ch);
        if s.pc.RollbackConfig? { RollbackDiffers(x, s, c, ch); } else { WriteDiffers(x, s, c, ch); }
        RunDiffers(x, c0, Step(x, s, evs[0]), c, evs[1..]);
    }
  }

  lemma {:induction false} RunKeepsOther(x: Setup, c0: Cat.State, s: State, c: Content, e: Edit)
    requires GoodSetup(x) && Inv(x, c0, s) && Beside(Key(x), s.config, c)
    requires Permitted(Key(x), c, Event<Choice>.Other(e))
    ensures var s', c' := Step(x, s, Event.Other(e)), OnContent(c, e, x.template);
      && Inv(x, c0, s') && Beside(Key(x), s'.config, c')
      && MeaningOf(s'.config) == OnTable(MeaningOf(s.config), e) && MeaningOf(c') == OnTable(MeaningOf(c), e)
  {
    hide Inv, OnContent, Beside, Inert, QuoteSafe, MeaningOf, OnTable, Writable, Duplicates, Key;
    OtherBeside(Key(x), s.config, c, e, x.template);
    OtherKeeps(x, c0, s, e);
  }

  /** The comparison looks at the command's own fields only. */
  lemma {:induction false} SameFlags(x: Setup, s: State, e: Edit)
    ensures forall t, u :: Differs(x, s, t, u) <==> Differs(x, Step(x, s, Event.Other(e)), t, u)
  {
    hide OnContent, Key, Others, Quote, FormatValue, SitelessLibrary;
  }

  /** The TOML library reads the directory this attempt wrote as that directory. */
  predicate Reads(v: Values, dir: string) {
    v.str(Quote(dir)) == dir && v.str(FormatValue(dir)) == dir
  }

  lemma {:induction false} DecodeOwn(v: Values, m: map<string, string>, dir: string, f: string)
    requires "sync_dir" !in m && v.str(f) == dir
    ensures Decode(v, m["sync_dir" := f]) == Decode(v, m).(syncDir := dir)
    ensures Decode(v, map["sync_dir" := f]) == OnlySyncDir(dir)
  {
  }

  lemma {:induction false} StillUnchanged(x: Setup, s: State, u: Table, pick: string)
    requires GoodSetup(x) && Differs(x, s, MeaningOf(s.config), u) && (s.added || s.backfilled) && !s.rolledBack
    requires Reads(x.v, s.dir) && Unaliased(MeaningOf(s.config), x.cid) && !SitelessLibrary(x.cid)
    ensures Unchanged(x, s, pick)
  {
    hide Key, Decode, FormatValue, Quote, Others, OnlySyncDir, MeaningOf, Found, Unaliased, Parsed, Inert, QuoteSafe,
      SitelessLibrary;
    FoundFacts(x, s.config, pick);
    DecodeOwn(x.v, map[], s.dir, Quote(s.dir));
    if s.backfilled {
      DecodeOwn(x.v, u[Key(x)], s.dir, FormatValue(s.dir));
    }
  }

  /** The directory that is created is the one the drive's section now has. */
  lemma {:induction false} DirIsConfigured(x: Setup, s: State, ch: Choice)
    requires GoodSetup(x) && SoundOf(s.config) && (s.pc.LoadConfig? || s.pc.Write?)
    requires Unaliased(MeaningOf(s.config), x.cid) && (s.pc == Write(false) ==> Key(x) !in MeaningOf(s.config))
    requires Own(x, s, ch).pc.Materialize? || Own(x, s, ch).pc.Register?
    requires Reads(x.v, Own(x, s, ch).dir)
    ensures var s' := Own(x, s, ch); var t := MeaningOf(s'.config);
      Key(x) in t && "sync_dir" in t[Key(x)] && x.v.str(t[Key(x)]["sync_dir"]) == s'.dir
  {
    hide Own, SoundOf, MeaningOf, Key, GoodSetup, Reads, Unaliased;
    if s.pc.LoadConfig? { DirLoaded(x, s, ch); } else { DirWritten(x, s, ch); }
  }

  lemma {:induction false} DirLoaded(x: Setup, s: State, ch: Choice)
    requires GoodSetup(x) && s.pc.LoadConfig? && Unaliased(MeaningOf(s.config), x.cid)
    requires Own(x, s, ch).pc.Materialize? || Own(x, s, ch).pc.Register?
    ensures var s' := Own(x, s, ch); var t := MeaningOf(s'.config);
      Key(x) in t && "sync_dir" in t[Key(x)] && x.v.str(t[Key(x)]["sync_dir"]) == s'.dir
  {
    hide MeaningOf, Key, Parse, Inert, QuoteSafe, Parsed, SitelessLibrary, Unaliased, Found, Decode;
    FoundFacts(x, s.config, ch.pick);
    DecodedDir(x.v, MeaningOf(s.config)[Key(x)]);
  }

  lemma {:induction false} DirWritten(x: Setup, s: State, ch: Choice)
    requires GoodSetup(x) && SoundOf(s.config) && s.pc.Write?
    requires s.pc == Write(false) ==> Key(x) !in MeaningOf(s.config)
    requires Own(x, s, ch).pc.Materialize? || Own(x, s, ch).pc.Register?
    requires Reads(x.v, Own(x, s, ch).dir)
    ensures var s' := Own(x, s, ch); var t := MeaningOf(s'.config);
      Key(x) in t && "sync_dir" in t[Key(x)] && x.v.str(t[Key(x)]["sync_dir"]) == s'.dir
  {
    hide Edited, SoundOf, MeaningOf, Key, Parse, Inert, QuoteSafe, Parsed, Quote, FormatValue, Found;
    OwnRefines(x, s, ch);
  }

  lemma {:induction false} DecodedDir(v: Values, m: map<string, string>)
    ensures Decode(v, m).syncDir != "" ==> "sync_dir" in m && v.str(m["sync_dir"]) == Decode(v, m).syncDir
  {
  }

  /** A failing registration and a failing sync directory lead to the rollback, with nothing changed on the way. */
  lemma {:induction false} FailureRollsBack(x: Setup, s: State, ch: Choice)
    requires (s.pc.Register? || s.pc.Materialize?) && !ch.ok
    ensures Own(x, s, ch) == s.(pc := RollbackConfig, registerFailed := s.registerFailed || s.pc.Register?)
  {
    hide MeaningOf, Key, Found, Cat.RegisterDrive;
  }

  /** A step that fails before anything was written ends the command without a change. */
  lemma {:induction false} EarlyFailureStops(x: Setup, s: State, ch: Choice)
    requires (s.pc.LoadCatalog? || s.pc.LoadConfig? || s.pc == Write(false)) && !ch.ok
    ensures Own(x, s, ch) == s.(pc := Done)
  {
    hide MeaningOf, Key, Found;
  }

  /** While others leave the section alone and nobody spells it differently, an add that fails at the catalog or the
      sync directory and whose rollback can write ends with the map the other processes alone would have left and
      with the old catalog, if and only if it is not the add of a siteless identifier. */
  lemma {:induction false} FailedAddLeavesNoTrace(x: Setup, config: Content, catalog: Cat.State,
                                                  evs: seq<Event<Choice>>, a: Choice, b: Choice)
    requires GoodSetup(x) && KeyedAt(catalog, Key(x)) && SoundOf(config)
    requires PermittedRun(Key(x), config, evs, x.template)
    requires Untouched(Key(x), evs) && UnaliasedRun(x.cid, config, evs, x.template)
    requires Addable(x, MeaningOf(config)) && (Key(x) in MeaningOf(config) ==> Key(x) in catalog.drives)
    requires var s := Run(x, Init(config, catalog), evs);
      s.pc.RollbackConfig? && Reads(x.v, s.dir) && a.ok && a.loads && b.ok
    ensures var s := Run(x, Init(config, catalog), evs);
      var s' := Own(x, Own(x, s, a), b);
      && s'.pc.Done?
      && ((s'.catalog == catalog && MeaningOf(s'.config) == MeaningOf(OthersRun(config, evs, x.template)))
          <==> !(SitelessLibrary(x.cid) && s.added))
  {
    hide MeaningOf, SoundOf, Key, Cat.RegisterDrive, KeyedAt, Run, OthersRun, Own, GoodSetup, Quote, FormatValue,
      Decode, Addable, PermittedRun, UnaliasedRun, Untouched, SitelessLibrary, Reads, Inv, Beside, Unaliased;
    var s0 := Init(config, catalog);
    Starts(x, config, catalog);
    StartDiffers(x, config, catalog);
    RunDiffers(x, catalog, s0, config, evs);
    RollbackFinishes(x, catalog, Run(x, s0, evs), OthersRun(config, evs, x.template), a, b);
  }

  lemma {:induction false} StartDiffers(x: Setup, config: Content, catalog: Cat.State)
    requires Addable(x, MeaningOf(config))
    ensures Differs(x, Init(config, catalog), MeaningOf(config), MeaningOf(config))
  {
    hide MeaningOf, Key, Others, Quote, FormatValue, Decode;
  }

  lemma {:induction false} RollbackFinishes(x: Setup, c0: Cat.State, s: State, c: Content, a: Choice, b: Choice)
    requires GoodSetup(x) && KeyedAt(c0, Key(x)) && Inv(x, c0, s) && Beside(Key(x), s.config, c)
    requires Differs(x, s, MeaningOf(s.config), MeaningOf(c)) && Unaliased(MeaningOf(s.config), x.cid)
    requires s.pc.RollbackConfig? && Reads(x.v, s.dir) && a.ok && a.loads && b.ok
    ensures var s' := Own(x, Own(x, s, a), b);
      s'.pc.Done?
        && (s'.catalog == c0 && MeaningOf(s'.config) == MeaningOf(c) <==> !(SitelessLibrary(x.cid) && s.added))
  {
    hide Own, MeaningOf, SoundOf, Key, GoodSetup, KeyedAt, Reads, Unaliased, Others, Quote, FormatValue, Decode,
      Cat.RegisterDrive, PriorOf, SitelessLibrary;
    var s1 := Own(x, s, a);
    if SitelessLibrary(x.cid) {
      SitelessNeverRollsBack(x, s, a);
      DoneStays(x, s1, b);
    } else {
      RollbackDiffers(x, s, c, a);
      if s.added || s.backfilled { StillUnchanged(x, s, MeaningOf(c), a.pick); }
      RollbackGoesOn(x, s, a);
      if s.added && !s.registerFailed {
        RegisterEffect(c0, x);
        CatalogGoesBack(x, s1, b);
      } else {
        DoneStays(x, s1, b);
      }
    }
  }

  lemma {:induction false} DoneStays(x: Setup, s: State, ch: Choice)
    requires s.pc.Done?
    ensures Own(x, s, ch) == s
  {
    hide MeaningOf, Key, Found;
  }

  lemma {:induction false} RollbackGoesOn(x: Setup, s: State, ch: Choice)
    requires s.pc.RollbackConfig? && ch.ok && ch.loads
    ensures var s' := Own(x, s, ch);
      && s'.catalog == s.catalog && s'.prior == s.prior && s'.added == s.added && s'.backfilled == s.backfilled
      && s'.rolledBack == (s.rolledBack || Unchanged(x, s, ch.pick))
      && s'.pc == if Unchanged(x, s, ch.pick) && s.added && !s.registerFailed then RollbackCatalog else Done
  {
    hide MeaningOf, Key, Found, Unchanged, OnContent;
  }

  lemma {:induction false} CatalogGoesBack(x: Setup, s: State, ch: Choice)
    requires s.pc.RollbackCatalog? && ch.ok
    ensures Own(x, s, ch) == s.(catalog := Restored(x.cid, s.catalog, s.prior), pc := Done)
  {
    hide MeaningOf, Key, Found, Restored;
  }
}
