/** `drive add` of an own drive and of a shared folder as whole commands, with nobody else writing. */
module Adds {
  import opened Text
  import opened TomlLines
  import opened ConfigDoc
  import opened ConfigText
  import opened ConfigEdits
  import opened DriveConfig
  import opened DriveLookup
  import opened CanonicalId
  import opened StringOrder
  import opened Worlds
  import Cat = CatalogState
  import DriveAdd
  import SharedAdd

  function Rank(pc: DriveAdd.Pc): nat {
    match pc
    case LoadCatalog => 7
    case LoadConfig => 6
    case Write(_) => 5
    case Register => 4
    case Materialize => 3
    case RollbackConfig => 2
    case RollbackCatalog => 1
    case Done => 0
  }

  /** What `drive add` relies on: a drive that is not shared, with a name the editor can write. */
  ghost predicate GoodAdd(x: DriveAdd.Setup) {
    DriveAdd.GoodSetup(x) && Cat.OwnerOf(x.cid).Some?
  }

  /** The add writes a section: it reads catalog and config, does not find the drive, and the write succeeds. */
  predicate Writes(w: World, x: DriveAdd.Setup, answer: DriveAdd.Pc -> DriveAdd.Choice) {
    && answer(DriveAdd.LoadCatalog).ok && answer(DriveAdd.LoadConfig).ok
    && !InConfig(MeaningOf(w.config), x.cid) && answer(DriveAdd.Write(false)).ok
  }

  /** The add takes its section back: a later step fails, the rollback can read and write, and the section is
      found and reads as it was written. */
  predicate TakesBack(x: DriveAdd.Setup, answer: DriveAdd.Pc -> DriveAdd.Choice) {
    && (!answer(DriveAdd.Register).ok || !answer(DriveAdd.Materialize).ok)
    && answer(DriveAdd.RollbackConfig).ok && answer(DriveAdd.RollbackConfig).loads
    && !SitelessLibrary(x.cid) && x.v.str(Quote(answer(DriveAdd.LoadConfig).dir)) == answer(DriveAdd.LoadConfig).dir
  }

  /** Which adds leave every configured drive in the catalog: those that write no section, or take it back; and
      the others if the section is the only one of its name, and either has a record already although the
      catalog write fails, or is stable. */
  predicate AddSafe(w: World, x: DriveAdd.Setup, answer: DriveAdd.Pc -> DriveAdd.Choice) {
    || !Writes(w, x, answer) || TakesBack(x, answer)
    || (DriveAdd.Addable(x, MeaningOf(w.config))
        && if answer(DriveAdd.Register).ok then !Unstable(x.cid) else Print(x.cid) in w.catalog.drives)
  }

  /** The same over the flags of the final state. */
  predicate EndsSafe(w: World, x: DriveAdd.Setup, s: DriveAdd.State) {
    || !s.added || s.rolledBack
    || (DriveAdd.Addable(x, MeaningOf(w.config)) && if s.registerFailed then Print(x.cid) in w.catalog.drives
       else !Unstable(x.cid))
  }

  /** The run of the command to its end. */
  function AddRun(x: DriveAdd.Setup, s: DriveAdd.State, answer: DriveAdd.Pc -> DriveAdd.Choice): DriveAdd.State
    decreases Rank(s.pc)
  {
    if s.pc.Done? then s
    else
      AddRank(x, s, answer(s.pc));
      AddRun(x, DriveAdd.Own(x, s, answer(s.pc)), answer)
  }

  function AddEnd(w: World, x: DriveAdd.Setup, answer: DriveAdd.Pc -> DriveAdd.Choice): DriveAdd.State {
    AddRun(x, DriveAdd.Init(w.config, w.catalog), answer)
  }

  function AddResult(w: World, x: DriveAdd.Setup, answer: DriveAdd.Pc -> DriveAdd.Choice): World {
    var s := AddEnd(w, x, answer);
    World(s.config, s.catalog, w.tokens)
  }

  /** The invariant of an add that runs alone and does not take another drive's section for its own. */
  ghost predicate AloneInv(w: World, x: DriveAdd.Setup, s: DriveAdd.State) {
    && DriveAdd.Inv(x, w.catalog, s) && Beside(Print(x.cid), s.config, w.config)
    && (s.added && !s.rolledBack ==> Print(x.cid) in MeaningOf(s.config))
    && (SitelessLibrary(x.cid) ==> !s.rolledBack)
  }

  lemma {:induction false} AloneStarts(w: World, x: DriveAdd.Setup)
    requires Consistent(w) && GoodAdd(x) && DriveAdd.Addable(x, MeaningOf(w.config))
    ensures AloneInv(w, x, DriveAdd.Init(w.config, w.catalog)) && DriveAdd.KeyedAt(w.catalog, DriveAdd.Key(x))
  {
    hide MeaningOf, SoundOf, Cat.RegisterDrive, Print, Parse, DriveAdd.Inv, Inert, QuoteSafe, DriveAdd.Addable;
    AddKeyed(w.catalog, x);
    AddParses(x);
    assert Print(x.cid) in MeaningOf(w.config) ==> DriveSectionOk(w.catalog, Print(x.cid));
    DriveAdd.Starts(x, w.config, w.catalog);
  }

  lemma {:induction false} AddParses(x: DriveAdd.Setup)
    requires GoodAdd(x)
    ensures Parse(Print(x.cid)).Some? && (Canonical(Print(x.cid)) <==> !Unstable(x.cid))
  {
    PrintCanonical(x.cid);
    if SitelessLibrary(x.cid) { SitelessParse(x.cid); } else { PrintParse(x.cid); }
  }

  lemma {:induction false} AloneStep(w: World, x: DriveAdd.Setup, s: DriveAdd.State, ch: DriveAdd.Choice)
    requires Covered(MeaningOf(w.config), w.catalog) && DriveAdd.GoodSetup(x)
    requires DriveAdd.KeyedAt(w.catalog, DriveAdd.Key(x))
    requires AloneInv(w, x, s) && !s.pc.Done?
    ensures AloneInv(w, x, DriveAdd.Own(x, s, ch))
  {
    hide MeaningOf, SoundOf, Print, Others, Covered, Unaliased, DriveAdd.KeyedAt, DriveAdd.Own, DriveAdd.Inv,
      SitelessLibrary, DriveAdd.GoodSetup;
    DriveAdd.MineKeeps(x, w.catalog, s, w.config, ch);
    CoveredUnaliased(MeaningOf(w.config), w.catalog, x.cid);
    DriveAdd.UnaliasedBeside(x, s.config, w.config);
    AloneSection(x, w.catalog, s, ch);
  }

  lemma {:induction false} AloneSection(x: DriveAdd.Setup, c0: Cat.State, s: DriveAdd.State, ch: DriveAdd.Choice)
    requires DriveAdd.GoodSetup(x) && SoundOf(s.config) && Unaliased(MeaningOf(s.config), x.cid)
    requires DriveAdd.Inv(x, c0, s) && !s.pc.Done?
    requires (s.added && !s.rolledBack ==> Print(x.cid) in MeaningOf(s.config))
    requires (SitelessLibrary(x.cid) ==> !s.rolledBack)
    ensures var s' := DriveAdd.Own(x, s, ch);
      (s'.added && !s'.rolledBack ==> Print(x.cid) in MeaningOf(s'.config))
        && (SitelessLibrary(x.cid) ==> !s'.rolledBack)
  {
    hide DriveAdd.Edited, MeaningOf, SoundOf, Print, Unaliased, SitelessLibrary, DriveAdd.Found, Inert, QuoteSafe,
      Parsed, Cat.RegisterDrive, DriveAdd.PriorOf, DriveAdd.Restored, DriveAdd.Unchanged, Quote, FormatValue;
    DriveAdd.OwnRefines(x, s, ch);
    if s.pc.RollbackConfig? {
      if SitelessLibrary(x.cid) { DriveAdd.SitelessNeverRollsBack(x, s, ch); }
    } else if s.pc.Write? {
      assert s.pc.present && DriveAdd.OwnEdit(x, s, ch).Some? ==> DriveAdd.Found(x, s.config, ch.pick).Some?;
    }
  }

  lemma {:induction false} AddRank(x: DriveAdd.Setup, s: DriveAdd.State, ch: DriveAdd.Choice)
    requires !s.pc.Done?
    ensures Rank(DriveAdd.Own(x, s, ch).pc) < Rank(s.pc)
  {
    hide DriveAdd.Edited, DriveAdd.Next;
    if s.pc.LoadCatalog? || s.pc.LoadConfig? || s.pc.Write? { EarlyRank(x, s, ch); } else { LateRank(x, s, ch); }
  }

  lemma {:induction false} EarlyRank(x: DriveAdd.Setup, s: DriveAdd.State, ch: DriveAdd.Choice)
    requires s.pc.LoadCatalog? || s.pc.LoadConfig? || s.pc.Write?
    ensures Rank(DriveAdd.Next(x, s, ch).pc) < Rank(s.pc)
  {
    hide MeaningOf, DriveAdd.Key, DriveAdd.OwnEdit, DriveAdd.Found, DriveAdd.PriorOf;
  }

  lemma {:induction false} LateRank(x: DriveAdd.Setup, s: DriveAdd.State, ch: DriveAdd.Choice)
    requires !s.pc.LoadCatalog? && !s.pc.LoadConfig? && !s.pc.Write? && !s.pc.Done?
    ensures Rank(DriveAdd.Next(x, s, ch).pc) < Rank(s.pc)
  {
    hide MeaningOf, DriveAdd.Key, Cat.RegisterDrive, DriveAdd.Restored, DriveAdd.OwnEdit, DriveAdd.Found;
  }

  /** The end of an add that ran alone, exactly. */
  lemma {:induction false} AloneExact(w: World, x: DriveAdd.Setup, s: DriveAdd.State)
    requires Consistent(w) && GoodAdd(x) && DriveAdd.Addable(x, MeaningOf(w.config)) && AloneInv(w, x, s) && s.pc.Done?
    ensures Consistent(World(s.config, s.catalog, w.tokens)) <==> EndsSafe(w, x, s)
  {
    hide MeaningOf, SoundOf, Parse, Print, Others, Cat.Tidy, DriveAdd.GoodSetup, Cat.RegisterDrive, Cat.OwnerOf,
      Unstable, SitelessLibrary, DriveAdd.Clear, DriveAdd.Addable;
    var key, r := Print(x.cid), World(s.config, s.catalog, w.tokens);
    AddParses(x);
    AddKeyed(w.catalog, x);
    DriveAdd.Registers(x, w.catalog);
    DriveAdd.RegisterEffect(w.catalog, x);
    RegisterKeepsKeys(w.catalog, x);
    RecordedCanonical(w.catalog, key);
    if s.added && !s.rolledBack && (s.registerFailed || Unstable(x.cid)) {
      if s.registerFailed && key in w.catalog.drives {
        AddCovers(w, x, s);
      } else {
        Stranded(r, key);
      }
    } else {
      RollbackIsStable(x);
      AddCovers(w, x, s);
    }
  }

  lemma {:induction false} RollbackIsStable(x: DriveAdd.Setup)
    ensures Unstable(x.cid) ==> SitelessLibrary(x.cid)
  {
  }

  lemma {:induction false} AddCovers(w: World, x: DriveAdd.Setup, s: DriveAdd.State)
    requires Consistent(w) && GoodAdd(x) && SoundOf(s.config)
    requires Others(MeaningOf(s.config), Print(x.cid)) == Others(MeaningOf(w.config), Print(x.cid))
    requires s.catalog == w.catalog
      || (!Unstable(x.cid) && Cat.RegisterDrive(w.catalog, x.cid, x.name) == Some(s.catalog))
    requires Print(x.cid) in MeaningOf(s.config) ==> Canonical(Print(x.cid)) && Print(x.cid) in s.catalog.drives
    ensures Consistent(World(s.config, s.catalog, w.tokens))
  {
    hide MeaningOf, SoundOf, Parse, Print, Others, Cat.Tidy, Covered, Cat.RegisterDrive, Cat.OwnerOf, Unstable, Inert,
      QuoteSafe;
    if !Unstable(x.cid) { Cat.StepTidy(w.catalog, Cat.Register(x.cid, x.name)); }
    DriveAdd.Registers(x, w.catalog);
    RegisterKeepsKeys(w.catalog, x);
    CoveredAfter(MeaningOf(w.config), MeaningOf(s.config), w.catalog, s.catalog, Print(x.cid));
  }

  /** An add that takes another drive's section for none: what it leaves is the file with a second header. */
  ghost predicate DoubledInv(w: World, x: DriveAdd.Setup, s: DriveAdd.State) {
    && !s.backfilled && !s.rolledBack && s.pc != DriveAdd.Write(true)
    && (s.pc.LoadCatalog? || s.pc.LoadConfig? || s.pc.Write? ==> !s.added)
    && (s.pc.Register? || s.pc.Materialize? || s.pc.RollbackConfig? ==> s.added)
    && MeaningOf(s.config) == MeaningOf(w.config)
    && (if s.added then !SoundOf(s.config) else s.config == w.config && s.catalog == w.catalog)
    && (s.catalog == w.catalog || Cat.RegisterDrive(w.catalog, x.cid, x.name) == Some(s.catalog))
    && (s.pc.LoadCatalog? || s.pc.LoadConfig? || s.pc.Write? || s.pc.Register? ==> s.catalog == w.catalog)
    && !s.pc.RollbackCatalog?
  }

  lemma {:induction false} DoubledStep(w: World, x: DriveAdd.Setup, s: DriveAdd.State, ch: DriveAdd.Choice)
    requires Consistent(w) && DriveAdd.GoodSetup(x) && !DriveAdd.Addable(x, MeaningOf(w.config))
    requires DoubledInv(w, x, s) && !s.pc.Done?
    ensures DoubledInv(w, x, DriveAdd.Own(x, s, ch))
  {
    hide OnContent, MeaningOf, SoundOf, Print, Unaliased, DriveAdd.Found, Inert, QuoteSafe, Parsed, Cat.RegisterDrive,
      Cat.Tidy, Covered, DriveAdd.PriorOf, DriveAdd.Restored, OnTable, SitelessLibrary;
    CoveredUnaliased(MeaningOf(w.config), w.catalog, x.cid);
    DriveAdd.FoundFacts(x, s.config, ch.pick);
    if s.pc.Write? && ch.ok {
      EditRefines(s.config, Append(Print(x.cid), s.dir), x.template);
      DoubledTable(MeaningOf(s.config), Print(x.cid), s.dir);
    }
  }

  lemma {:induction false} DoubledTable(t: Table, key: string, dir: string)
    requires key in t
    ensures OnTable(t, Append(key, dir)) == t
  {
  }

  /** For a recorded account the stronger invariant is kept too, whatever fails. */
  lemma {:induction false} AddKeepsCatalog(w: World, x: DriveAdd.Setup, c: Cat.State)
    requires Cat.Inv(w.catalog) && GoodAdd(x) && !Unstable(x.cid)
    requires Print(Cat.OwnerOf(x.cid).value) in w.catalog.accounts
    requires c == w.catalog || Cat.RegisterDrive(w.catalog, x.cid, x.name) == Some(c)
    ensures Cat.Inv(c)
  {
    hide Print, Parse, Cat.Inv, Inert, QuoteSafe, Cat.RegisterDrive, Cat.OwnerOf, Unstable;
    DriveAdd.Registers(x, w.catalog);
    Cat.RegisterKeeps(w.catalog, x.cid, x.name);
  }

  lemma {:induction false} AddKeyed(c: Cat.State, x: DriveAdd.Setup)
    requires Cat.Tidy(c)
    ensures DriveAdd.KeyedAt(c, Print(x.cid))
  {
    hide Parse, Print;
    assert Print(x.cid) in c.drives ==> Cat.TidyDrive(Print(x.cid), c.drives[Print(x.cid)]);
  }

  lemma {:induction false} RegisterKeepsKeys(c: Cat.State, x: DriveAdd.Setup)
    requires Cat.RegisterDrive(c, x.cid, x.name).Some?
    ensures forall n :: n in c.drives ==> n in Cat.RegisterDrive(c, x.cid, x.name).value.drives
  {
    hide Parse, Print;
  }

  // ---------------------------------------------------------------- flags and answers

  /** How far the answers led, between any two steps. */
  ghost predicate FlagInv(w: World, x: DriveAdd.Setup, answer: DriveAdd.Pc -> DriveAdd.Choice, s: DriveAdd.State) {
    var early := s.pc.LoadCatalog? || s.pc.LoadConfig? || s.pc.Write?;
    && (early ==> !s.added && !s.backfilled && !s.registerFailed && !s.rolledBack && s.config == w.config)
    && (s.pc.LoadConfig? || s.pc.Write? ==> answer(DriveAdd.LoadCatalog).ok)
    && (s.pc.Write? ==> answer(DriveAdd.LoadConfig).ok && s.dir == answer(DriveAdd.LoadConfig).dir
                        && s.pc.present == InConfig(MeaningOf(w.config), x.cid))
    && (!early ==> s.added == Writes(w, x, answer))
    && (s.added && !s.rolledBack ==>
          && s.dir == answer(DriveAdd.LoadConfig).dir
          && MeaningOf(s.config) == OnTable(MeaningOf(w.config), Append(Print(x.cid), s.dir)))
    && (s.pc.Register? ==> s.added && !s.registerFailed && !s.rolledBack)
    && (s.pc.Materialize? ==> !s.registerFailed && !s.rolledBack && (s.added ==> answer(DriveAdd.Register).ok))
    && (s.pc.RollbackConfig? ==>
          && !s.rolledBack && (!s.added ==> !s.registerFailed)
          && (s.added ==>
                && (s.registerFailed <==> !answer(DriveAdd.Register).ok)
                && (s.registerFailed || !answer(DriveAdd.Materialize).ok)))
    && (s.pc.RollbackCatalog? || s.pc.Done? ==>
          && (s.registerFailed <==> s.added && !answer(DriveAdd.Register).ok)
          && (s.added ==> (s.rolledBack <==> TakesBack(x, answer))))
  }

  lemma {:induction false} EarlyFlags(w: World, x: DriveAdd.Setup,
                                      answer: DriveAdd.Pc -> DriveAdd.Choice, s: DriveAdd.State)
    requires Consistent(w) && GoodAdd(x) && FlagInv(w, x, answer, s)
    requires s.pc.LoadCatalog? || s.pc.LoadConfig?
    ensures FlagInv(w, x, answer, DriveAdd.Own(x, s, answer(s.pc)))
  {
    hide OnContent, MeaningOf, SoundOf, Print, Parse, Unaliased, DriveAdd.Found, Inert, QuoteSafe, Parsed, Covered,
      DriveAdd.PriorOf, SitelessLibrary, Cat.OwnerOf, Cat.Tidy, InConfig, Quote;
    CoveredUnaliased(MeaningOf(w.config), w.catalog, x.cid);
    DriveAdd.FoundFacts(x, s.config, answer(s.pc).pick);
    InConfigLoads(MeaningOf(w.config), w.catalog, x.cid, answer(s.pc).pick);
  }

  lemma {:induction false} WriteFlags(w: World, x: DriveAdd.Setup,
                                      answer: DriveAdd.Pc -> DriveAdd.Choice, s: DriveAdd.State)
    requires Consistent(w) && GoodAdd(x) && FlagInv(w, x, answer, s) && s.pc.Write?
    ensures FlagInv(w, x, answer, DriveAdd.Own(x, s, answer(s.pc)))
  {
    hide DriveAdd.Edited, MeaningOf, SoundOf, Print, Parse, Unaliased, DriveAdd.Found, Inert, QuoteSafe, Parsed,
      Covered, SitelessLibrary, Cat.OwnerOf, Cat.Tidy, InConfig, Quote, FormatValue, TakesBack;
    DriveAdd.OwnRefines(x, s, answer(s.pc));
    CoveredUnaliased(MeaningOf(w.config), w.catalog, x.cid);
    DriveAdd.FoundFacts(x, s.config, answer(s.pc).pick);
    InConfigLoads(MeaningOf(w.config), w.catalog, x.cid, answer(s.pc).pick);
  }

  lemma {:induction false} MiddleFlags(w: World, x: DriveAdd.Setup,
                                       answer: DriveAdd.Pc -> DriveAdd.Choice, s: DriveAdd.State)
    requires GoodAdd(x) && FlagInv(w, x, answer, s) && (s.pc.Register? || s.pc.Materialize? || s.pc.RollbackCatalog?)
    ensures FlagInv(w, x, answer, DriveAdd.Own(x, s, answer(s.pc)))
  {
    hide OnContent, MeaningOf, Print, Parse, DriveAdd.Found, Inert, QuoteSafe, Parsed, SitelessLibrary, Cat.OwnerOf,
      Quote, Writes, OnTable, Cat.RegisterDrive, DriveAdd.Restored;
    DriveAdd.Registers(x, s.catalog);
  }

  /** The rollback finds what was written exactly if the section is found by identifier and reads back. */
  lemma {:induction false} FoundAgain(w: World, x: DriveAdd.Setup, s: DriveAdd.State, pick: string)
    requires Consistent(w) && GoodAdd(x) && s.added && !InConfig(MeaningOf(w.config), x.cid)
    requires MeaningOf(s.config) == OnTable(MeaningOf(w.config), Append(Print(x.cid), s.dir))
    ensures DriveAdd.Unchanged(x, s, pick) <==> !SitelessLibrary(x.cid) && x.v.str(Quote(s.dir)) == s.dir
  {
    hide MeaningOf, SoundOf, Print, Parse, DriveAdd.Found, Inert, QuoteSafe, Parsed, SitelessLibrary, Cat.OwnerOf,
      Cat.Tidy, Quote, InConfig, Covered, Decode, OnlySyncDir;
    var key, t, t' := Print(x.cid), MeaningOf(w.config), MeaningOf(s.config);
    InConfigLoads(t, w.catalog, x.cid, pick);
    OneMore(t, w.catalog, t', x);
    DriveAdd.FoundFacts(x, s.config, pick);
    DecodeNew(x.v, Quote(s.dir), s.dir);
  }

  lemma {:induction false} OneMore(t: Table, c: Cat.State, t': Table, x: DriveAdd.Setup)
    requires Covered(t, c) && t'.Keys == t.Keys + {Print(x.cid)}
    ensures Unaliased(t', x.cid)
  {
    hide Print, Parse;
    CoveredUnaliased(t, c, x.cid);
  }

  lemma {:induction false} DecodeNew(v: Values, f: string, dir: string)
    ensures Decode(v, map["sync_dir" := f]) == OnlySyncDir(dir) <==> v.str(f) == dir
  {
  }

  lemma {:induction false} RollbackFlags(w: World, x: DriveAdd.Setup,
                                         answer: DriveAdd.Pc -> DriveAdd.Choice, s: DriveAdd.State)
    requires Consistent(w) && GoodAdd(x) && FlagInv(w, x, answer, s) && s.pc.RollbackConfig?
    ensures FlagInv(w, x, answer, DriveAdd.Own(x, s, answer(s.pc)))
  {
    hide DriveAdd.Edited, MeaningOf, SoundOf, Print, Parse, DriveAdd.Found, DriveAdd.Unchanged, Inert, QuoteSafe,
      Parsed, SitelessLibrary, Cat.OwnerOf, Cat.Tidy, InConfig, Quote, Covered, OnTable;
    if s.added { FoundAgain(w, x, s, answer(s.pc).pick); }
    RollbackKeepsConfig(x, s, answer(s.pc));
  }

  lemma {:induction false} RollbackKeepsConfig(x: DriveAdd.Setup, s: DriveAdd.State, ch: DriveAdd.Choice)
    requires s.pc.RollbackConfig?
    ensures !(ch.ok && ch.loads && DriveAdd.Unchanged(x, s, ch.pick)) ==> DriveAdd.Edited(x, s, ch) == s.config
  {
    hide OnContent, DriveAdd.Unchanged;
  }

  lemma {:induction false} FlagStep(w: World, x: DriveAdd.Setup,
                                    answer: DriveAdd.Pc -> DriveAdd.Choice, s: DriveAdd.State)
    requires Consistent(w) && GoodAdd(x) && FlagInv(w, x, answer, s) && !s.pc.Done?
    ensures FlagInv(w, x, answer, DriveAdd.Own(x, s, answer(s.pc)))
  {
    hide FlagInv, DriveAdd.Own, Consistent, GoodAdd;
    if s.pc.LoadCatalog? || s.pc.LoadConfig? {
      EarlyFlags(w, x, answer, s);
    } else if s.pc.Write? {
      WriteFlags(w, x, answer, s);
    } else if s.pc.RollbackConfig? {
      RollbackFlags(w, x, answer, s);
    } else {
      MiddleFlags(w, x, answer, s);
    }
  }

  // ---------------------------------------------------------------- the whole run

  /** The invariant of the run, whether or not another drive's section is in the way. */
  ghost predicate AddInv(w: World, x: DriveAdd.Setup, answer: DriveAdd.Pc -> DriveAdd.Choice, s: DriveAdd.State) {
    && FlagInv(w, x, answer, s)
    && if DriveAdd.Addable(x, MeaningOf(w.config)) then AloneInv(w, x, s) else DoubledInv(w, x, s)
  }

  lemma {:induction false} AddStarts(w: World, x: DriveAdd.Setup, answer: DriveAdd.Pc -> DriveAdd.Choice)
    requires Consistent(w) && GoodAdd(x)
    ensures AddInv(w, x, answer, DriveAdd.Init(w.config, w.catalog))
  {
    hide MeaningOf, SoundOf, Cat.RegisterDrive, Print, Parse, Cat.Tidy, Covered, AloneInv, GoodAdd, DriveAdd.Addable;
    if DriveAdd.Addable(x, MeaningOf(w.config)) { AloneStarts(w, x); }
  }

  lemma {:induction false} AddStep(w: World, x: DriveAdd.Setup,
                                   answer: DriveAdd.Pc -> DriveAdd.Choice, s: DriveAdd.State)
    requires Consistent(w) && GoodAdd(x) && AddInv(w, x, answer, s) && !s.pc.Done?
    ensures AddInv(w, x, answer, DriveAdd.Own(x, s, answer(s.pc)))
  {
    hide MeaningOf, SoundOf, AloneInv, DoubledInv, FlagInv, DriveAdd.Own, DriveAdd.KeyedAt, DriveAdd.GoodSetup,
      Cat.OwnerOf, Print, Cat.Tidy, DriveAdd.Addable, Covered;
    AddKeyed(w.catalog, x);
    FlagStep(w, x, answer, s);
    if DriveAdd.Addable(x, MeaningOf(w.config)) {
      AloneStep(w, x, s, answer(s.pc));
    } else {
      DoubledStep(w, x, s, answer(s.pc));
    }
  }

  lemma {:induction false} AddRunKeeps(w: World, x: DriveAdd.Setup,
                                       answer: DriveAdd.Pc -> DriveAdd.Choice, s: DriveAdd.State)
    requires Consistent(w) && GoodAdd(x) && AddInv(w, x, answer, s)
    ensures AddInv(w, x, answer, AddRun(x, s, answer)) && AddRun(x, s, answer).pc.Done?
    decreases Rank(s.pc)
  {
    hide AddInv, DriveAdd.Own, Consistent, GoodAdd;
    if !s.pc.Done? {
      AddRank(x, s, answer(s.pc));
      AddStep(w, x, answer, s);
      AddRunKeeps(w, x, answer, DriveAdd.Own(x, s, answer(s.pc)));
    }
  }

  lemma {:induction false} AddEnds(w: World, x: DriveAdd.Setup,
                                   answer: DriveAdd.Pc -> DriveAdd.Choice, s: DriveAdd.State)
    requires Consistent(w) && GoodAdd(x) && AddInv(w, x, answer, s) && s.pc.Done?
    ensures Consistent(World(s.config, s.catalog, w.tokens)) <==> EndsSafe(w, x, s)
    ensures EndsSafe(w, x, s) <==> AddSafe(w, x, answer)
    ensures s.catalog == w.catalog || Cat.RegisterDrive(w.catalog, x.cid, x.name) == Some(s.catalog)
    ensures Writes(w, x, answer) && !TakesBack(x, answer) ==> Print(x.cid) in MeaningOf(s.config)
  {
    hide MeaningOf, SoundOf, Cat.Inv, Cat.OwnerOf, Print, Parse, Cat.Tidy, DriveAdd.Addable, Covered,
      Cat.RegisterDrive, Unstable, SitelessLibrary, DriveAdd.Clear, Others, DriveAdd.GoodSetup, Quote, Writes,
      TakesBack;
    if DriveAdd.Addable(x, MeaningOf(w.config)) { AloneExact(w, x, s); }
  }

  /** Exactly when an add that runs alone leaves every configured drive in the catalog, over all answers. */
  lemma {:induction false} AddExact(w: World, x: DriveAdd.Setup, answer: DriveAdd.Pc -> DriveAdd.Choice)
    requires Consistent(w) && GoodAdd(x)
    ensures Consistent(AddResult(w, x, answer)) <==> AddSafe(w, x, answer)
    ensures Writes(w, x, answer) && !TakesBack(x, answer) ==> Print(x.cid) in MeaningOf(AddResult(w, x, answer).config)
    ensures Cat.Inv(w.catalog) && !Unstable(x.cid) && Print(Cat.OwnerOf(x.cid).value) in w.catalog.accounts ==>
      Cat.Inv(AddResult(w, x, answer).catalog)
  {
    hide AddInv, Consistent, GoodAdd, AddSafe, EndsSafe, Cat.Inv, Cat.OwnerOf, Unstable, Print, AddRun, Writes,
      TakesBack, MeaningOf, Cat.RegisterDrive;
    AddOwned(x);
    AddStarts(w, x, answer);
    AddRunKeeps(w, x, answer, DriveAdd.Init(w.config, w.catalog));
    var s := AddEnd(w, x, answer);
    AddEnds(w, x, answer, s);
    if Cat.Inv(w.catalog) && !Unstable(x.cid) && Print(Cat.OwnerOf(x.cid).value) in w.catalog.accounts {
      AddKeepsCatalog(w, x, s.catalog);
    }
  }

  /** When nothing fails, only a siteless identifier can do harm, and exactly when its name is taken or unstable. */
  lemma {:induction false} SmoothAdd(w: World, x: DriveAdd.Setup, answer: DriveAdd.Pc -> DriveAdd.Choice)
    requires Consistent(w) && GoodAdd(x) && forall pc :: DriveAdd.Succeeds(answer(pc))
    ensures AddSafe(w, x, answer) <==>
      !(SitelessLibrary(x.cid) && (Print(x.cid) in MeaningOf(w.config) || Unstable(x.cid)))
  {
    hide MeaningOf, SoundOf, Cat.OwnerOf, Print, Parse, Cat.Tidy, Covered, Unstable, SitelessLibrary, Inert,
      QuoteSafe, Parsed, InConfig, Quote;
    assert DriveAdd.Succeeds(answer(DriveAdd.LoadCatalog)) && DriveAdd.Succeeds(answer(DriveAdd.LoadConfig));
    assert DriveAdd.Succeeds(answer(DriveAdd.Write(false))) && DriveAdd.Succeeds(answer(DriveAdd.Register));
    assert DriveAdd.Succeeds(answer(DriveAdd.Materialize));
    InConfigLoads(MeaningOf(w.config), w.catalog, x.cid, "");
    RollbackIsStable(x);
  }

  lemma {:induction false} AddOwned(x: DriveAdd.Setup)
    requires GoodAdd(x)
    ensures Cat.OwnerOf(x.cid).Some?
  {
    hide Print, Parse;
  }

  /** `addNewDrive` with nobody else writing; `answer` is how the world answers each step. */
  method AddNewDrive(w: World, x: DriveAdd.Setup, answer: DriveAdd.Pc -> DriveAdd.Choice) returns (r: World)
    ensures r == AddResult(w, x, answer)
  {
    hide DriveAdd.Own;
    var s := DriveAdd.Init(w.config, w.catalog);
    while !s.pc.Done?
      invariant AddRun(x, s, answer) == AddEnd(w, x, answer)
      decreases Rank(s.pc)
    {
      AddRank(x, s, answer(s.pc));
      s := DriveAdd.Own(x, s, answer(s.pc));
    }
    r := World(s.config, s.catalog, w.tokens);
  }

  // ---------------------------------------------------------------- shared drive add, alone

  function SharedRank(pc: SharedAdd.Pc): nat {
    match pc
    case LoadConfig => 8
    case LoadCatalog => 7
    case Register => 6
    case AppendSection => 5
    case SetName => 4
    case Materialize => 3
    case RollbackConfig => 2
    case RollbackCatalog => 1
    case Done => 0
  }

  ghost predicate GoodShared(x: SharedAdd.Setup) {
    SharedAdd.GoodSetup(x)
  }

  /** The account a shared folder is reached through, as the catalog names it. */
  function ParentOf(c: Cat.State, email: string): Option<CanonicalId> {
    if email == "" || Cat.AccountByEmail(c, email).None? then None
      else Parse(Cat.AccountByEmail(c, email).value.canonicalId)
  }

  lemma {:induction false} ParentFound(c: Cat.State, email: string)
    requires Cat.Tidy(c) && ParentOf(c, email).Some?
    ensures var o := ParentOf(c, email).value;
      && Print(o) in c.accounts && c.accounts[Print(o)].email == email
      && Parsed(o) && Cat.IsAccountId(o) && o.email == email
  {
    hide Parse, Print, Parsed;
    Cat.AccountFound(c, email);
    ParseParsed(Cat.AccountByEmail(c, email).value.canonicalId);
  }

  lemma {:induction false} SharedStarts(w: World, x: SharedAdd.Setup)
    requires Consistent(w) && GoodShared(x)
    ensures SharedAdd.Inv(x, w.catalog, SharedAdd.Init(w.config, w.catalog))
    ensures DriveAdd.KeyedAt(w.catalog, SharedAdd.Key(x))
    ensures Beside(Print(x.cid), w.config, w.config)
  {
    hide MeaningOf, SoundOf, SharedAdd.Registered, Print, Parse, Inert, QuoteSafe;
    SharedParses(x);
    assert Print(x.cid) in w.catalog.drives ==> Cat.TidyDrive(Print(x.cid), w.catalog.drives[Print(x.cid)]);
    assert Print(x.cid) in MeaningOf(w.config) ==> DriveSectionOk(w.catalog, Print(x.cid));
  }

  lemma {:induction false} SharedParses(x: SharedAdd.Setup)
    requires GoodShared(x)
    ensures Canonical(Print(x.cid))
  {
    PrintCanonical(x.cid);
  }

  lemma {:induction false} SharedStepRank(x: SharedAdd.Setup, s: SharedAdd.State, ch: SharedAdd.Choice)
    requires !s.pc.Done?
    ensures SharedRank(SharedAdd.Own(x, s, ch).pc) < SharedRank(s.pc)
  {
    hide MeaningOf, SharedAdd.Edited, SharedAdd.Key, SharedAdd.Registered, DriveAdd.Restored, SharedAdd.OwnEdit,
      DriveAdd.PriorOf;
  }

  lemma {:induction false} SharedCovered(w: World, x: SharedAdd.Setup, s: SharedAdd.State)
    requires Consistent(w) && GoodShared(x) && SharedAdd.Inv(x, w.catalog, s) && s.pc.Done?
    requires ParentOf(w.catalog, x.cid.email) == Some(x.owner) && Beside(Print(x.cid), s.config, w.config)
    ensures Consistent(World(s.config, s.catalog, w.tokens)) && (Cat.Inv(w.catalog) ==> Cat.Inv(s.catalog))
  {
    hide MeaningOf, SoundOf, Parse, Print, Others, Cat.Inv, Cat.Tidy, Covered, Inert, QuoteSafe,
      Cat.RegisterSharedDrive, ParentOf, SharedAdd.Clear, DriveAdd.PriorOf;
    SharedParses(x);
    ParentFound(w.catalog, x.cid.email);
    Cat.StepTidy(w.catalog, Cat.RegisterShared(x.cid, x.owner, x.name));
    if Cat.Inv(w.catalog) { Cat.RegisterSharedKeeps(w.catalog, x.cid, x.owner, x.name); }
    SharedStarts(w, x);
    SharedAdd.RegisterEffect(x, w.catalog);
    SharedKeepsKeys(w.catalog, x);
    CoveredAfter(MeaningOf(w.config), MeaningOf(s.config), w.catalog, s.catalog, Print(x.cid));
  }

  lemma {:induction false} SharedKeepsKeys(c: Cat.State, x: SharedAdd.Setup)
    ensures forall n :: n in c.drives ==> n in SharedAdd.Registered(x, c).drives
  {
    hide Print;
  }

  function SharedRun(x: SharedAdd.Setup, s: SharedAdd.State, answer: SharedAdd.Pc -> SharedAdd.Choice): SharedAdd.State
    decreases SharedRank(s.pc)
  {
    if s.pc.Done? then s
    else
      SharedStepRank(x, s, answer(s.pc));
      SharedRun(x, SharedAdd.Own(x, s, answer(s.pc)), answer)
  }

  /** The whole command: the owner is the account the catalog names for the folder's email, if there is one. */
  function SharedResult(w: World, x: SharedAdd.Setup, answer: SharedAdd.Pc -> SharedAdd.Choice): World {
    match ParentOf(w.catalog, x.cid.email)
    case None => w
    case Some(o) =>
      var s := SharedRun(x.(owner := o), SharedAdd.Init(w.config, w.catalog), answer);
      World(s.config, s.catalog, w.tokens)
  }

  lemma {:induction false} SharedRunKeeps(w: World, x: SharedAdd.Setup, s: SharedAdd.State,
                                          answer: SharedAdd.Pc -> SharedAdd.Choice)
    requires Consistent(w) && GoodShared(x) && SharedAdd.Inv(x, w.catalog, s)
    requires Beside(Print(x.cid), s.config, w.config)
    requires SharedOk(x, s, answer)
    ensures var s' := SharedRun(x, s, answer);
      s'.pc.Done? && SharedAdd.Inv(x, w.catalog, s') && Beside(Print(x.cid), s'.config, w.config)
        && SharedOk(x, s', answer)
    decreases SharedRank(s.pc)
  {
    hide Consistent, SharedAdd.Inv, Beside, SharedAdd.Own, SharedAdd.GoodSetup, DriveAdd.KeyedAt, SharedOk, Print;
    if !s.pc.Done? {
      SharedStarts(w, x);
      SharedStepRank(x, s, answer(s.pc));
      SharedSmooth(x, w.catalog, w.config, s, answer);
      SharedAdd.StepKeeps(x, w.catalog, s, w.config, answer(s.pc));
      SharedRunKeeps(w, x, SharedAdd.Own(x, s, answer(s.pc)), answer);
    }
  }

  predicate SharedGood(answer: SharedAdd.Pc -> SharedAdd.Choice) {
    && answer(SharedAdd.LoadConfig).ok && answer(SharedAdd.LoadCatalog).ok && answer(SharedAdd.Register).ok
    && answer(SharedAdd.AppendSection).ok && answer(SharedAdd.SetName).ok && answer(SharedAdd.Materialize).ok
  }

  /** When nothing fails the command goes forward and ends with the drive configured. */
  predicate SharedOk(x: SharedAdd.Setup, s: SharedAdd.State, answer: SharedAdd.Pc -> SharedAdd.Choice) {
    SharedGood(answer) ==>
      && !s.pc.RollbackConfig? && !s.pc.RollbackCatalog?
      && (s.pc.SetName? || s.pc.Materialize? || s.pc.Done? ==> SharedAdd.Key(x) in MeaningOf(s.config))
  }

  lemma {:induction false} SharedSmooth(x: SharedAdd.Setup, c0: Cat.State, c: Content, s: SharedAdd.State,
                                        answer: SharedAdd.Pc -> SharedAdd.Choice)
    requires GoodShared(x) && Beside(SharedAdd.Key(x), s.config, c) && SharedOk(x, s, answer) && !s.pc.Done?
    ensures SharedOk(x, SharedAdd.Own(x, s, answer(s.pc)), answer)
  {
    hide SharedAdd.Edited, MeaningOf, SoundOf, SharedAdd.Key, SharedAdd.Registered, DriveAdd.Restored,
      DriveAdd.PriorOf, Others, SharedAdd.GoodSetup, Quote, FormatValue, SharedAdd.Unchanged;
    SharedAdd.OwnRefines(x, s, answer(s.pc));
    match s.pc {
      case LoadConfig =>
      case LoadCatalog =>
      case Register =>
      case AppendSection =>
      case _ =>
    }
  }

  /** No failure of a shared add takes a configured drive's entry away; and if nothing fails, the folder ends up
      configured. */
  lemma {:induction false} SharedExact(w: World, x: SharedAdd.Setup, answer: SharedAdd.Pc -> SharedAdd.Choice)
    requires Consistent(w) && GoodShared(x)
    ensures Consistent(SharedResult(w, x, answer))
    ensures (Cat.Inv(w.catalog) ==> Cat.Inv(SharedResult(w, x, answer).catalog))
    ensures SharedGood(answer) && ParentOf(w.catalog, x.cid.email).Some? ==>
      Print(x.cid) in MeaningOf(SharedResult(w, x, answer).config)
  {
    hide Consistent, SharedAdd.Inv, Beside, Print, ParentOf, SharedRun, Cat.Inv, MeaningOf, GoodShared;
    var o := ParentOf(w.catalog, x.cid.email);
    if o.Some? {
      var y, s0 := x.(owner := o.value), SharedAdd.Init(w.config, w.catalog);
      SharedParent(x, o.value);
      SharedStarts(w, y);
      SharedRunKeeps(w, y, s0, answer);
      SharedCovered(w, y, SharedRun(y, s0, answer));
    }
  }

  lemma {:induction false} SharedParent(x: SharedAdd.Setup, owner: CanonicalId)
    requires GoodShared(x)
    ensures GoodShared(x.(owner := owner))
  {
    hide Print, Inert;
  }

  /** `addSharedDrive` with nobody else writing. */
  method AddSharedDrive(w: World, x: SharedAdd.Setup, answer: SharedAdd.Pc -> SharedAdd.Choice) returns (r: World)
    ensures r == SharedResult(w, x, answer)
  {
    hide SharedAdd.Own, ParentOf;
    var o := ParentOf(w.catalog, x.cid.email);
    if o.None? { return w; }
    var y := x.(owner := o.value);
    var s := SharedAdd.Init(w.config, w.catalog);
    while !s.pc.Done?
      invariant SharedRun(y, s, answer) == SharedRun(y, SharedAdd.Init(w.config, w.catalog), answer)
      decreases SharedRank(s.pc)
    {
      SharedStepRank(y, s, answer(s.pc));
      s := SharedAdd.Own(y, s, answer(s.pc));
    }
    r := World(s.config, s.catalog, w.tokens);
  }

  // ---------------------------------------------------------------- what an add that meets no failure leaves

  lemma {:induction false} AddStepRun(x: DriveAdd.Setup, s: DriveAdd.State, answer: DriveAdd.Pc -> DriveAdd.Choice)
    requires !s.pc.Done?
    ensures AddRun(x, s, answer) == AddRun(x, DriveAdd.Own(x, s, answer(s.pc)), answer)
  {
    AddRank(x, s, answer(s.pc));
  }

  /** When nothing fails, a drive without a section gets one with exactly the quoted directory, and its catalog record;
      a section without a directory gains it; and a section with one is left alone. */
  lemma {:induction false} AddEffect(w: World, x: DriveAdd.Setup, answer: DriveAdd.Pc -> DriveAdd.Choice)
    requires Consistent(w) && GoodAdd(x) && DriveAdd.Addable(x, MeaningOf(w.config))
    requires forall pc :: DriveAdd.Succeeds(answer(pc))
    ensures var r, t, key := AddResult(w, x, answer), MeaningOf(w.config), Print(x.cid);
      var dir := answer(DriveAdd.LoadConfig).dir;
      && r.tokens == w.tokens
      && (key !in t ==> MeaningOf(r.config) == t[key := map["sync_dir" := Quote(dir)]]
                        && Some(r.catalog) == Cat.RegisterDrive(w.catalog, x.cid, x.name))
      && (key in t && "sync_dir" !in t[key] ==>
            MeaningOf(r.config) == t[key := t[key]["sync_dir" := FormatValue(dir)]] && r.catalog == w.catalog)
      && (key in t && "sync_dir" in t[key] ==> r.config == w.config && r.catalog == w.catalog)
  {
    hide OnContent, MeaningOf, SoundOf, Print, Parse, Cat.OwnerOf, Cat.RegisterDrive, Inert, QuoteSafe, Cat.Tidy,
      Covered, DriveAdd.Own, AddRun, DriveAdd.Addable, Quote, FormatValue, DriveAdd.GoodSetup, DriveAdd.Succeeds;
    var s0 := DriveAdd.Init(w.config, w.catalog);
    AddStepRun(x, s0, answer);
    var s1 := SmoothLoad(w, x, answer);
    if s1.pc.Write? {
      AddStepRun(x, s1, answer);
      var s2 := SmoothWrite(w, x, answer, s1);
      if s2.pc.Register? {
        AddStepRun(x, s2, answer);
        SmoothRegister(w, x, answer, s2);
        SmoothEnd(x, answer, DriveAdd.Own(x, s2, answer(s2.pc)));
      } else {
        SmoothEnd(x, answer, s2);
      }
    } else {
      SmoothEnd(x, answer, s1);
    }
  }

  /** Catalog and config are loaded, and the section is looked for. */
  lemma {:induction false} SmoothLoad(w: World, x: DriveAdd.Setup, answer: DriveAdd.Pc -> DriveAdd.Choice)
    returns (s: DriveAdd.State)
    requires Consistent(w) && GoodAdd(x) && DriveAdd.Addable(x, MeaningOf(w.config))
    requires forall pc :: DriveAdd.Succeeds(answer(pc))
    ensures AddEnd(w, x, answer) == AddRun(x, s, answer) && s.config == w.config && s.catalog == w.catalog
    ensures var t, key := MeaningOf(w.config), Print(x.cid);
      && (s.pc == DriveAdd.Write(false) || s.pc == DriveAdd.Write(true) || s.pc.Materialize?)
      && (s.pc == DriveAdd.Write(false) <==> key !in t)
      && (s.pc.Materialize? ==> "sync_dir" in t[key])
      && (s.pc.Write? ==> s.dir == answer(DriveAdd.LoadConfig).dir)
  {
    hide MeaningOf, SoundOf, Print, Parse, Cat.OwnerOf, Inert, QuoteSafe, Cat.Tidy, Covered, AddRun, Parsed,
      DriveAdd.PriorOf, SitelessLibrary;
    assert DriveAdd.Succeeds(answer(DriveAdd.LoadCatalog)) && DriveAdd.Succeeds(answer(DriveAdd.LoadConfig));
    var s0 := DriveAdd.Init(w.config, w.catalog);
    AddStepRun(x, s0, answer);
    var s1 := DriveAdd.Own(x, s0, answer(s0.pc));
    AddStepRun(x, s1, answer);
    s := DriveAdd.Own(x, s1, answer(s1.pc));
    CoveredUnaliased(MeaningOf(w.config), w.catalog, x.cid);
    DriveAdd.FoundFacts(x, w.config, answer(s1.pc).pick);
  }

  lemma {:induction false} SmoothWrite(w: World, x: DriveAdd.Setup, answer: DriveAdd.Pc -> DriveAdd.Choice,
                                       s: DriveAdd.State)
    returns (s': DriveAdd.State)
    requires Consistent(w) && GoodAdd(x) && DriveAdd.Addable(x, MeaningOf(w.config))
    requires forall pc :: DriveAdd.Succeeds(answer(pc))
    requires s.pc.Write? && s.config == w.config && s.catalog == w.catalog
    requires s.pc == DriveAdd.Write(false) <==> Print(x.cid) !in MeaningOf(w.config)
    ensures s' == DriveAdd.Own(x, s, answer(s.pc)) && s'.catalog == w.catalog
    ensures var t, key := MeaningOf(w.config), Print(x.cid);
      && (s'.pc.Register? || s'.pc.Materialize?) && (s'.pc.Register? <==> key !in t)
      && (key !in t ==> MeaningOf(s'.config) == t[key := map["sync_dir" := Quote(s.dir)]])
      && (key in t && "sync_dir" !in t[key] ==>
            MeaningOf(s'.config) == t[key := t[key]["sync_dir" := FormatValue(s.dir)]])
      && (key in t && "sync_dir" in t[key] ==> s'.config == w.config)
  {
    hide DriveAdd.Unchanged, MeaningOf, SoundOf, Print, Parse, Cat.OwnerOf, Inert, QuoteSafe, Cat.Tidy, Covered, Parsed,
      SitelessLibrary, Quote, FormatValue, OnContent;
    assert DriveAdd.Succeeds(answer(s.pc));
    s' := DriveAdd.Own(x, s, answer(s.pc));
    CoveredUnaliased(MeaningOf(w.config), w.catalog, x.cid);
    DriveAdd.FoundFacts(x, w.config, answer(s.pc).pick);
    DriveAdd.OwnRefines(x, s, answer(s.pc));
  }

  lemma {:induction false} SmoothRegister(w: World, x: DriveAdd.Setup, answer: DriveAdd.Pc -> DriveAdd.Choice,
                                          s: DriveAdd.State)
    requires GoodAdd(x) && s.pc.Register? && DriveAdd.Succeeds(answer(s.pc))
    ensures var s' := DriveAdd.Own(x, s, answer(s.pc));
      && s'.pc.Materialize? && s'.config == s.config
      && Some(s'.catalog) == Cat.RegisterDrive(s.catalog, x.cid, x.name)
  {
    hide MeaningOf, Print, Parse, Cat.RegisterDrive, Inert, QuoteSafe, DriveAdd.Found;
    AddOwned(x);
    DriveAdd.Registers(x, s.catalog);
  }

  lemma {:induction false} SmoothEnd(x: DriveAdd.Setup, answer: DriveAdd.Pc -> DriveAdd.Choice, s: DriveAdd.State)
    requires s.pc.Materialize? && DriveAdd.Succeeds(answer(s.pc))
    ensures AddRun(x, s, answer) == s.(pc := DriveAdd.Done)
  {
    hide MeaningOf, Print, DriveAdd.Found;
    AddStepRun(x, s, answer);
  }

  lemma {:induction false} SharedStepRun(x: SharedAdd.Setup, s: SharedAdd.State,
                                         answer: SharedAdd.Pc -> SharedAdd.Choice)
    requires !s.pc.Done?
    ensures SharedRun(x, s, answer) == SharedRun(x, SharedAdd.Own(x, s, answer(s.pc)), answer)
  {
    SharedStepRank(x, s, answer(s.pc));
  }

  /** The config edits of a shared add whose steps succeed. */
  lemma {:induction false} SharedWrites(x: SharedAdd.Setup, s: SharedAdd.State, a: SharedAdd.Choice,
                                        b: SharedAdd.Choice)
    requires SharedAdd.GoodSetup(x) && SoundOf(s.config) && s.pc.AppendSection? && a.ok && b.ok
    requires Print(x.cid) !in MeaningOf(s.config)
    ensures var s1 := SharedAdd.Own(x, s, a);
      var s2 := SharedAdd.Own(x, s1, b);
      && s1.pc.SetName? && s2.pc.Materialize? && s2.catalog == s.catalog
      && MeaningOf(s2.config) == MeaningOf(s.config)[
           Print(x.cid) := map["sync_dir" := Quote(x.dir), "display_name" := FormatValue(x.name)]]
  {
    hide OnContent, SoundOf, MeaningOf, Print, Inert, QuoteSafe, Parsed, Quote, FormatValue;
    SharedAdd.OwnRefines(x, s, a);
    SharedAdd.OwnRefines(x, SharedAdd.Own(x, s, a), b);
  }

  /** When nothing fails, a shared folder without a section gets one with exactly its directory and name, and its record
      under the account of that email; one with a section is left alone. */
  lemma {:induction false} SharedEffect(w: World, x: SharedAdd.Setup, answer: SharedAdd.Pc -> SharedAdd.Choice)
    requires Consistent(w) && GoodShared(x) && SharedGood(answer) && ParentOf(w.catalog, x.cid.email).Some?
    ensures var r, t, key := SharedResult(w, x, answer), MeaningOf(w.config), Print(x.cid);
      && r.tokens == w.tokens && (key in t ==> r == w)
      && (key !in t ==>
            && MeaningOf(r.config) == t[key := map["sync_dir" := Quote(x.dir), "display_name" := FormatValue(x.name)]]
            && r.catalog ==
                 Cat.RegisterSharedDrive(w.catalog, x.cid, ParentOf(w.catalog, x.cid.email).value, x.name))
  {
    hide Consistent, MeaningOf, SoundOf, Print, ParentOf, SharedRun, Quote, FormatValue, Cat.RegisterSharedDrive,
      OnContent, DriveAdd.PriorOf, SharedAdd.Unchanged, SharedAdd.GoodSetup;
    var y := x.(owner := ParentOf(w.catalog, x.cid.email).value);
    SharedParent(x, y.owner);
    ConsistentSound(w);
    var s0 := SharedAdd.Init(w.config, w.catalog);
    SharedStepRun(y, s0, answer);
    var s1 := SharedAdd.Own(y, s0, answer(s0.pc));
    if Print(x.cid) in MeaningOf(w.config) {
      assert SharedRun(y, s1, answer) == s1 by { SharedDone(y, s1, answer); }
    } else {
      SharedStepRun(y, s1, answer);
      var s2 := SharedAdd.Own(y, s1, answer(s1.pc));
      SharedStepRun(y, s2, answer);
      var s3 := SharedAdd.Own(y, s2, answer(s2.pc));
      SharedStepRun(y, s3, answer);
      SharedWrites(y, s3, answer(s3.pc), answer(SharedAdd.SetName));
      var s4 := SharedAdd.Own(y, s3, answer(s3.pc));
      SharedStepRun(y, s4, answer);
      var s5 := SharedAdd.Own(y, s4, answer(s4.pc));
      SharedStepRun(y, s5, answer);
      SharedDone(y, SharedAdd.Own(y, s5, answer(s5.pc)), answer);
    }
  }

  lemma {:induction false} SharedDone(x: SharedAdd.Setup, s: SharedAdd.State, answer: SharedAdd.Pc -> SharedAdd.Choice)
    requires s.pc.Done?
    ensures SharedRun(x, s, answer) == s
  {
  }

  lemma {:induction false} ConsistentSound(w: World)
    requires Consistent(w)
    ensures SoundOf(w.config)
  {
    hide SoundOf, Covered, Cat.Tidy, MeaningOf;
  }
}
