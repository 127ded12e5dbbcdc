/** Whole commands over config file, catalog and tokens, run one after the other, each failing at any of its
    steps, and what every run of them keeps. */
module Commands {
  import opened Text
  import opened ConfigDoc
  import opened ConfigEdits
  import opened CanonicalId
  import opened Worlds
  import opened ReconcileConfig
  import opened Logins
  import opened Adds
  import opened Removals
  import opened Users
  import Cat = CatalogState
  import DriveAdd
  import SharedAdd

  // ---------------------------------------------------------------- login with its reconciliation

  /** `login`: a changed email is reconciled first, and if that fails the login ends there. */
  ghost function LoginWhole(w: World, i: LoginInfo, rec: ReconcileFaults, f: LoginFaults): World {
    var r, reach := ReconcileResult(w, i.cid, i.userId, rec), ReachOf(w, i.cid, i.userId, rec);
    if reach.Stopped? || reach.ConfigOnly? then r else LoginResult(r, i, f)
  }

  /** When a login leaves every configured drive in the catalog: the reconciliation does, but for the owner of the
      account's own record; and then the login itself does, and mends that owner if need be. */
  ghost predicate LoginWholeSafe(w: World, i: LoginInfo, rec: ReconcileFaults, f: LoginFaults) {
    var r, reach := ReconcileResult(w, i.cid, i.userId, rec), ReachOf(w, i.cid, i.userId, rec);
    && ReconcileSafeBut(w, i.cid, i.userId, rec)
    && (reach.Stopped? || reach.ConfigOnly?
        || (LoginSafe(r, i, f) && (Repairs(r, i, f) || ReconcileTidyAt(w, i.cid, i.userId, rec))))
  }

  lemma {:induction false} LoginWholeExact(w: World, i: LoginInfo, rec: ReconcileFaults, f: LoginFaults)
    requires Consistent(w) && GoodLogin(i) && Modelled(w, i.cid, i.userId)
    ensures Consistent(LoginWhole(w, i, rec, f)) <==> LoginWholeSafe(w, i, rec, f)
  {
    hide Consistent, ConsistentBut, GoodLogin, Modelled, ReconcileResult, ReachOf, ReconcileSafeBut, LoginResult,
      LoginSafe, Repairs, OwnerTidy, Print, MeaningOf, SoundOf, Cat.TidyAccounts;
    var r, reach := ReconcileResult(w, i.cid, i.userId, rec), ReachOf(w, i.cid, i.userId, rec);
    ReconcileExact(w, i.cid, i.userId, rec);
    ConsistentIsBut(r, Print(i.cid));
    if !reach.Stopped? && !reach.ConfigOnly? {
      if ReconcileSafeBut(w, i.cid, i.userId, rec) {
        LoginExact(r, i, f);
      } else if Consistent(LoginResult(r, i, f)) {
        OwnSectionCovered(w, i.cid, i.userId, rec);
        AccountKeyed(r.catalog, Print(i.cid));
        LoginMendsNothingElse(r, i, f);
      }
    }
  }

  lemma {:induction false} AccountKeyed(c: Cat.State, key: string)
    requires Cat.TidyAccounts(c) && (key in c.drives ==> c.drives[key].canonicalId == key)
    ensures Keyed(c, key)
  {
    hide Parse, Print;
    assert key in c.accounts ==> Cat.TidyAccount(key, c.accounts[key]);
  }

  /** The failing input: every write succeeds, but the renamed user's machine has a second account with a configured
      drive. */
  lemma {:induction false} SecondAccountBreaksLogin(w: World, i: LoginInfo, rec: ReconcileFaults, f: LoginFaults,
                                                    b: CanonicalId)
    requires Consistent(w) && GoodLogin(i) && Modelled(w, i.cid, i.userId) && ReachOf(w, i.cid, i.userId, rec).Both?
    requires Parsed(b) && Cat.IsAccountId(b) && b.email != i.cid.email && Print(b) in MeaningOf(w.config)
    requires b != OldAccountOr(w, i.cid, i.userId)
    ensures !Consistent(LoginWhole(w, i, rec, f))
  {
    hide Consistent, ConsistentBut, GoodLogin, Modelled, ReconcileResult, ReachOf, ReconcileSafeBut, LoginWhole,
      Print, MeaningOf;
    SecondAccountStrands(w, i.cid, i.userId, rec, b);
    ReconcileExact(w, i.cid, i.userId, rec);
    LoginWholeExact(w, i, rec, f);
  }

  // ---------------------------------------------------------------- commands and runs

  datatype Command =
    | RunLogin(info: LoginInfo, reconcile: ReconcileFaults, login: LoginFaults)
    | RunAdd(add: DriveAdd.Setup, answer: DriveAdd.Pc -> DriveAdd.Choice)
    | RunShared(shared: SharedAdd.Setup, reply: SharedAdd.Pc -> SharedAdd.Choice)
    | RunRemove(cid: CanonicalId, purge: bool, remove: RemoveFaults)
    | RunLogout(email: string, all: bool, tokenKey: Option<string>, order: seq<string>, logout: LogoutFaults)

  /** The world after a command. */
  ghost function Outcome(w: World, cmd: Command, template: string): World {
    match cmd
    case RunLogin(i, rec, f) => LoginWhole(w, i, rec, f)
    case RunAdd(x, answer) => AddResult(w, x, answer)
    case RunShared(x, reply) => SharedResult(w, x, reply)
    case RunRemove(cid, purge, f) => RemoveResult(w, cid, purge, template, f)
    case RunLogout(email, all, tokenKey, order, f) => LogoutResult(w, email, all, tokenKey, order, template, f)
  }

  /** The world after a run. */
  ghost function RunAll(w: World, cmds: seq<Command>, template: string): World
    decreases cmds
  {
    if cmds == [] then w else RunAll(Outcome(w, cmds[0], template), cmds[1..], template)
  }

  /** Readable identifiers, and section names that can be written. */
  ghost predicate WellFormed(w: World, cmd: Command) {
    match cmd
    case RunLogin(i, _, _) => GoodLogin(i) && Nameable(w, i.cid)
    case RunAdd(x, _) => GoodAdd(x)
    case RunShared(x, _) => GoodShared(x)
    case RunRemove(cid, _, _) => Parsed(cid)
    case RunLogout(_, _, _, _, _) => true
  }

  /** What a command needs, of its input and the world before, so as to keep every configured drive cataloged. */
  ghost predicate Harmless(w: World, cmd: Command) {
    match cmd
    case RunLogin(i, rec, f) => LoginWholeSafe(w, i, rec, f)
    case RunAdd(x, answer) => AddSafe(w, x, answer)
    case RunShared(_, _) => true
    case RunRemove(cid, purge, f) => RemoveSafe(w, cid, purge, f)
    case RunLogout(_, _, _, _, _) => true
  }

  /** A login adds an account only after the user's other account of that type is gone. */
  lemma {:induction false} LoginWholeKeepsUsers(w: World, i: LoginInfo, rec: ReconcileFaults, f: LoginFaults)
    requires Consistent(w) && OnePerUser(w.catalog) && GoodLogin(i) && Modelled(w, i.cid, i.userId)
    ensures OnePerUser(LoginWhole(w, i, rec, f).catalog)
  {
    hide Consistent, ConsistentBut, OnePerUser, OldAccounts, GoodLogin, Modelled, ReconcileResult, ReachOf,
      LoginResult, Print, MeaningOf, SoundOf, OwnerTidy, Cat.TidyAccounts, ReconcileSafeBut, ReconcileTidyAt, Parsed;
    ModelledFacts(w, i.cid, i.userId);
    ReconcileKeepsUsers(w, i.cid, i.userId, rec);
    ReconcileExact(w, i.cid, i.userId, rec);
    var r, reach := ReconcileResult(w, i.cid, i.userId, rec), ReachOf(w, i.cid, i.userId, rec);
    if reach.Nothing? || reach.Both? { LoginKeepsUsers(r, i, f); }
  }

  /** One command, exactly; and no user gets a second account of one type. */
  lemma {:induction false} StepExact(w: World, cmd: Command, template: string)
    requires Consistent(w) && OnePerUser(w.catalog) && Inert(template) && WellFormed(w, cmd)
    ensures Consistent(Outcome(w, cmd, template)) <==> Harmless(w, cmd)
    ensures OnePerUser(Outcome(w, cmd, template).catalog)
  {
    hide Consistent, OnePerUser, OldAccounts, GoodLogin, Nameable, GoodAdd, GoodShared, Parsed, LoginWhole,
      LoginWholeSafe, AddResult, AddSafe, SharedResult, RemoveResult, RemoveSafe, LogoutResult, Inert, Cat.Inv, Print,
      MeaningOf;
    match cmd
    case RunLogin(i, rec, f) =>
      OneOldAccount(w.catalog, i.cid, i.userId);
      LoginWholeExact(w, i, rec, f);
      LoginWholeKeepsUsers(w, i, rec, f);
    case RunAdd(x, answer) =>
      AddExact(w, x, answer);
      AddKeepsUsers(w, x, answer);
    case RunShared(x, reply) =>
      SharedExact(w, x, reply);
      SharedKeepsUsers(w, x, reply);
    case RunRemove(cid, purge, f) =>
      RemoveExact(w, cid, purge, template, f);
      RemoveKeepsUsers(w, cid, purge, template, f);
    case RunLogout(email, all, tokenKey, order, f) =>
      LogoutExact(w, email, all, tokenKey, order, template, f);
      LogoutKeepsUsers(w, email, all, tokenKey, order, template, f);
  }

  ghost predicate WellFormedRun(w: World, cmds: seq<Command>, template: string)
    decreases cmds
  {
    cmds == [] || (WellFormed(w, cmds[0]) && WellFormedRun(Outcome(w, cmds[0], template), cmds[1..], template))
  }

  ghost predicate HarmlessRun(w: World, cmds: seq<Command>, template: string)
    decreases cmds
  {
    cmds == [] || (Harmless(w, cmds[0]) && HarmlessRun(Outcome(w, cmds[0], template), cmds[1..], template))
  }

  /** Before the run and after each of its commands, every configured drive is in the catalog. */
  ghost predicate ConsistentThroughout(w: World, cmds: seq<Command>, template: string)
    decreases cmds
  {
    Consistent(w) && (cmds == [] || ConsistentThroughout(Outcome(w, cmds[0], template), cmds[1..], template))
  }

  /** Every configured drive is in the catalog after each command of a run, failing ones included, if and only if each
      command is harmless in the world it meets. */
  lemma {:induction false} RunExact(w: World, cmds: seq<Command>, template: string)
    requires Consistent(w) && OnePerUser(w.catalog) && Inert(template) && WellFormedRun(w, cmds, template)
    ensures ConsistentThroughout(w, cmds, template) <==> HarmlessRun(w, cmds, template)
    ensures HarmlessRun(w, cmds, template) ==> Consistent(RunAll(w, cmds, template))
    decreases cmds
  {
    hide Consistent, OnePerUser, Harmless, WellFormed, Outcome, Inert;
    if cmds != [] {
      StepExact(w, cmds[0], template);
      var w' := Outcome(w, cmds[0], template);
      if Consistent(w') {
        RunExact(w', cmds[1..], template);
      } else {
        NotThroughout(w', cmds[1..], template);
      }
    }
  }

  lemma {:induction false} NotThroughout(w: World, cmds: seq<Command>, template: string)
    requires !Consistent(w)
    ensures !ConsistentThroughout(w, cmds, template)
  {
    hide Consistent;
  }

  /** Commands that are harmless in every world: logins of an unchanged email that record the login and roll back
      completely, adds of identifiers that are not siteless whose catalog write succeeds, removes other than the
      purge of a siteless identifier, and every shared add and logout. */
  predicate PlainCommand(w: World, cmd: Command) {
    match cmd
    case RunLogin(i, _, f) =>
      OldAccount(w.catalog, i.cid, i.userId).None? && f.record && (f.materialize || f.undoConfig || !f.undoCatalog)
    case RunAdd(x, answer) => !SitelessLibrary(x.cid) && answer(DriveAdd.Register).ok
    case RunShared(_, _) => true
    case RunRemove(cid, purge, _) => !(purge && SitelessLibrary(cid))
    case RunLogout(_, _, _, _, _) => true
  }

  lemma {:induction false} PlainIsHarmless(w: World, cmd: Command)
    requires Consistent(w) && WellFormed(w, cmd) && PlainCommand(w, cmd)
    ensures Harmless(w, cmd)
  {
    hide OldAccount, Print, Parse, Ensure, MeaningOf, Nameable, GoodLogin, GoodShared, Parsed, Cat.Tidy, SoundOf,
      Covered, R.RenamedState, SectionRenames, RenamedContent, Spared, InConfig, TakesBack;
    match cmd
    case RunLogin(i, rec, f) => ReachNothing(w, i.cid, i.userId, rec);
    case RunAdd(x, _) => RollbackIsStable(x);
    case RunShared(_, _) =>
    case RunRemove(_, _, _) =>
    case RunLogout(_, _, _, _, _) =>
  }

  ghost predicate PlainRun(w: World, cmds: seq<Command>, template: string)
    decreases cmds
  {
    cmds == [] || (PlainCommand(w, cmds[0]) && PlainRun(Outcome(w, cmds[0], template), cmds[1..], template))
  }

  const FRESH := World(None, Cat.EMPTY, map[])

  /** Every run of plain commands from a fresh installation keeps the law, whatever else fails. */
  lemma {:induction false} PlainRunConsistent(cmds: seq<Command>, template: string)
    requires Inert(template)
    requires WellFormedRun(FRESH, cmds, template) && PlainRun(FRESH, cmds, template)
    ensures ConsistentThroughout(FRESH, cmds, template)
  {
    hide HarmlessRun, ConsistentThroughout, WellFormedRun, PlainRun, Inert;
    PlainRunHarmless(FRESH, cmds, template);
    RunExact(FRESH, cmds, template);
  }

  lemma {:induction false} PlainRunHarmless(w: World, cmds: seq<Command>, template: string)
    requires Consistent(w) && OnePerUser(w.catalog) && Inert(template)
    requires WellFormedRun(w, cmds, template) && PlainRun(w, cmds, template)
    ensures HarmlessRun(w, cmds, template)
    decreases cmds
  {
    hide Consistent, OnePerUser, Harmless, WellFormed, PlainCommand, Outcome, Inert;
    if cmds != [] {
      PlainIsHarmless(w, cmds[0]);
      StepExact(w, cmds[0], template);
      PlainRunHarmless(Outcome(w, cmds[0], template), cmds[1..], template);
    }
  }

  // ---------------------------------------------------------------- the catalog validators

  /** What keeps the catalog valid beyond that: adds are for recorded accounts and stable identifiers, and a
      reconciliation leaves primaries and owners in place. */
  ghost predicate Recorded(w: World, cmd: Command) {
    match cmd
    case RunLogin(i, rec, _) => ReconcileValid(w, i.cid, i.userId, rec)
    case RunAdd(x, _) => !Unstable(x.cid)
      && (Cat.OwnerOf(x.cid).Some? ==> Print(Cat.OwnerOf(x.cid).value) in w.catalog.accounts)
    case _ => true
  }

  lemma {:induction false} StepKeepsInv(w: World, cmd: Command, template: string)
    requires Consistent(w) && OnePerUser(w.catalog) && Inert(template) && WellFormed(w, cmd)
    requires Harmless(w, cmd) && Recorded(w, cmd) && Cat.Inv(w.catalog)
    ensures Cat.Inv(Outcome(w, cmd, template).catalog)
  {
    hide Consistent, OnePerUser, OldAccounts, GoodLogin, Nameable, GoodAdd, GoodShared, Parsed, LoginWhole,
      AddResult, AddSafe, SharedResult, RemoveResult, RemoveSafe, LogoutResult, Inert, Cat.Inv, Print, MeaningOf,
      Unstable, Cat.OwnerOf, ReconcileValid, LoginWholeSafe;
    match cmd
    case RunLogin(i, rec, f) =>
      OneOldAccount(w.catalog, i.cid, i.userId);
      LoginKeepsInv(w, i, rec, f);
    case RunAdd(x, answer) =>
      AddOwned(x);
      AddExact(w, x, answer);
    case RunShared(x, reply) => SharedExact(w, x, reply);
    case RunRemove(cid, purge, f) => RemoveExact(w, cid, purge, template, f);
    case RunLogout(email, all, tokenKey, order, f) => LogoutExact(w, email, all, tokenKey, order, template, f);
  }

  lemma {:induction false} LoginKeepsInv(w: World, i: LoginInfo, rec: ReconcileFaults, f: LoginFaults)
    requires Consistent(w) && GoodLogin(i) && Modelled(w, i.cid, i.userId) && LoginWholeSafe(w, i, rec, f)
    requires Cat.Inv(w.catalog) && ReconcileValid(w, i.cid, i.userId, rec)
    ensures Cat.Inv(LoginWhole(w, i, rec, f).catalog)
  {
    hide Consistent, ConsistentBut, GoodLogin, Modelled, ReconcileResult, ReachOf, ReconcileSafeBut, ReconcileValid,
      LoginResult, LoginSafe, Repairs, OwnerTidy, Print, Cat.Inv, MeaningOf, SoundOf, Cat.TidyAccounts;
    ReconcileKeepsInv(w, i.cid, i.userId, rec);
    ReconcileExact(w, i.cid, i.userId, rec);
    var r := ReconcileResult(w, i.cid, i.userId, rec);
    if ConsistentBut(r, Print(i.cid)) { LoginExact(r, i, f); }
  }

  ghost predicate RecordedRun(w: World, cmds: seq<Command>, template: string)
    decreases cmds
  {
    cmds == [] || (Recorded(w, cmds[0]) && RecordedRun(Outcome(w, cmds[0], template), cmds[1..], template))
  }

  /** Both catalog validators accept after every harmless run whose adds were for recorded accounts and whose
      reconciliations left the primaries in place. */
  lemma {:induction false} RunValidates(w: World, cmds: seq<Command>, template: string)
    requires Consistent(w) && OnePerUser(w.catalog) && Cat.Inv(w.catalog) && Inert(template)
    requires WellFormedRun(w, cmds, template) && HarmlessRun(w, cmds, template) && RecordedRun(w, cmds, template)
    ensures Cat.Inv(RunAll(w, cmds, template).catalog)
    ensures Cat.OwnersValid(RunAll(w, cmds, template).catalog) && Cat.PrimariesValid(RunAll(w, cmds, template).catalog)
    decreases cmds
  {
    hide Consistent, OnePerUser, Harmless, WellFormed, Recorded, Outcome, Inert, Cat.Inv, Cat.OwnersValid,
      Cat.PrimariesValid;
    if cmds == [] {
      Cat.InvValid(w.catalog);
    } else {
      StepExact(w, cmds[0], template);
      StepKeepsInv(w, cmds[0], template);
      RunValidates(Outcome(w, cmds[0], template), cmds[1..], template);
    }
  }

  // ---------------------------------------------------------------- runs by their prefixes

  /** A run is its commands one after the other. */
  lemma {:induction false} RunStep(w: World, cmds: seq<Command>, cmd: Command, template: string)
    ensures RunAll(w, [], template) == w
    ensures RunAll(w, cmds + [cmd], template) == Outcome(RunAll(w, cmds, template), cmd, template)
    decreases cmds
  {
    hide Outcome;
    var more := cmds + [cmd];
    if cmds == [] {
      assert more[1..] == [] && more[0] == cmd;
    } else {
      assert more[0] == cmds[0] && more[1..] == cmds[1..] + [cmd];
      RunStep(Outcome(w, cmds[0], template), cmds[1..], cmd, template);
    }
  }

  lemma {:induction false} PrefixTail(w: World, cmds: seq<Command>, k: nat, template: string)
    requires 0 < k <= |cmds|
    ensures RunAll(w, cmds[..k], template) == RunAll(Outcome(w, cmds[0], template), cmds[1..][..k - 1], template)
  {
    hide Outcome;
    var front := cmds[..k];
    assert front[0] == cmds[0] && front[1..] == cmds[1..][..k - 1];
  }

  lemma {:induction false} ThroughoutIs(w: World, cmds: seq<Command>, template: string)
    ensures ConsistentThroughout(w, cmds, template) <==>
      forall k :: 0 <= k <= |cmds| ==> Consistent(RunAll(w, cmds[..k], template))
    decreases cmds
  {
    hide Consistent, Outcome;
    assert cmds[..0] == [] && RunAll(w, [], template) == w;
    if cmds != [] {
      var w', rest := Outcome(w, cmds[0], template), cmds[1..];
      ThroughoutIs(w', rest, template);
      forall k | 0 < k <= |cmds|
        ensures RunAll(w, cmds[..k], template) == RunAll(w', rest[..k - 1], template)
      {
        PrefixTail(w, cmds, k, template);
      }
      if forall k :: 0 <= k <= |cmds| ==> Consistent(RunAll(w, cmds[..k], template)) {
        forall k | 0 <= k <= |rest| ensures Consistent(RunAll(w', rest[..k], template)) {
          assert Consistent(RunAll(w, cmds[..k + 1], template));
        }
      }
    } else {
      assert cmds[..|cmds|] == [];
    }
  }

  lemma {:induction false} HarmlessIs(w: World, cmds: seq<Command>, template: string)
    ensures HarmlessRun(w, cmds, template) <==>
      forall k :: 0 <= k < |cmds| ==> Harmless(RunAll(w, cmds[..k], template), cmds[k])
    decreases cmds
  {
    hide Harmless, Outcome;
    if cmds != [] {
      var w', rest := Outcome(w, cmds[0], template), cmds[1..];
      assert cmds[..0] == [] && RunAll(w, [], template) == w;
      HarmlessIs(w', rest, template);
      forall k | 0 < k <= |cmds|
        ensures RunAll(w, cmds[..k], template) == RunAll(w', rest[..k - 1], template)
      {
        PrefixTail(w, cmds, k, template);
      }
      if forall k :: 0 <= k < |cmds| ==> Harmless(RunAll(w, cmds[..k], template), cmds[k]) {
        forall k | 0 <= k < |rest| ensures Harmless(RunAll(w', rest[..k], template), rest[k]) {
          assert Harmless(RunAll(w, cmds[..k + 1], template), cmds[k + 1]);
        }
      }
    }
  }

  /** The law over runs: after every number of commands each configured drive is in the catalog, if and only if every
      command is harmless in the world that the commands before it left. */
  lemma {:induction false} RunLaw(w: World, cmds: seq<Command>, template: string)
    requires Consistent(w) && OnePerUser(w.catalog) && Inert(template) && WellFormedRun(w, cmds, template)
    ensures (forall k :: 0 <= k <= |cmds| ==> Consistent(RunAll(w, cmds[..k], template))) <==>
      (forall k :: 0 <= k < |cmds| ==> Harmless(RunAll(w, cmds[..k], template), cmds[k]))
  {
    hide Consistent, OnePerUser, Inert, WellFormedRun, HarmlessRun, ConsistentThroughout, RunAll, Harmless;
    RunExact(w, cmds, template);
    ThroughoutIs(w, cmds, template);
    HarmlessIs(w, cmds, template);
  }

  // ---------------------------------------------------------------- what a command that meets no failure does

  ghost predicate Smooth(w: World, cmd: Command) {
    match cmd
    case RunLogin(i, rec, f) =>
      && (ReachOf(w, i.cid, i.userId, rec).Nothing? || ReachOf(w, i.cid, i.userId, rec).Both?)
      && f.snapshot && f.move && f.record && f.load && f.loads && f.unquotes && f.write && f.materialize
    case RunAdd(x, answer) =>
      DriveAdd.Addable(x, MeaningOf(w.config)) && forall pc :: DriveAdd.Succeeds(answer(pc))
    case RunShared(x, reply) => SharedGood(reply) && ParentOf(w.catalog, x.cid.email).Some?
    case RunRemove(cid, _, f) => f.load && f.files && f.write && f.catalog
    case RunLogout(email, _, tokenKey, _, f) => tokenKey.Some? && f.token && f.stuck == {} && f.files && f.catalog
  }

  /** A login configures its drive, records account and drive and saves the token; an add configures and catalogs the
      drive, a shared add likewise; a remove takes the section away, and a purge the record unless it is a
      primary; a logout takes the account's sections and the token, and a purge the account. */
  lemma {:induction false} StepEffect(w: World, cmd: Command, template: string)
    requires Consistent(w) && OnePerUser(w.catalog) && Inert(template) && WellFormed(w, cmd) && Smooth(w, cmd)
    ensures var r := Outcome(w, cmd, template); var t := MeaningOf(r.config);
      match cmd
      case RunLogin(i, _, _) =>
        var key := Print(i.cid);
        && key in t && "sync_dir" in t[key] && key in r.catalog.accounts && key in r.catalog.drives
        && r.catalog.accounts[key].userId == i.userId && r.catalog.drives[key].owner == key
        && key in r.tokens && r.tokens[key] == i.token
      case RunAdd(x, _) => Print(x.cid) in t && "sync_dir" in t[Print(x.cid)] && Print(x.cid) in r.catalog.drives
      case RunShared(x, _) => Print(x.cid) in t && Print(x.cid) in r.catalog.drives
      case RunRemove(cid, purge, _) =>
        && (!SitelessLibrary(cid) ==> Print(cid) !in t)
        && (if purge then Print(cid) in r.catalog.drives ==> Anchor(w.catalog, Print(cid)) else r.catalog == w.catalog)
      case RunLogout(email, all, tokenKey, _, _) =>
        && (forall n :: n in t && Parse(n).Some? ==> Parse(n).value.email != email)
        && tokenKey.value !in r.tokens
        && forall k :: Cat.StandsFor(w.catalog, email, k) ==>
             if all then k !in r.catalog.accounts
             else r.catalog.drives == w.catalog.drives && r.catalog.accounts.Keys == w.catalog.accounts.Keys
  {
    hide Consistent, OnePerUser, OldAccounts, GoodLogin, Nameable, GoodAdd, GoodShared, Parsed, LoginWhole, AddResult,
      SharedResult, RemoveResult, LogoutResult, Inert, Cat.Tidy, Print, Parse, MeaningOf, DriveAdd.Addable,
      DriveAdd.Succeeds, SharedGood, ParentOf, ReachOf, SitelessLibrary, Cat.StandsFor;
    match cmd
    case RunLogin(i, rec, f) =>
      OneOldAccount(w.catalog, i.cid, i.userId);
      LoginWholeEffect(w, i, rec, f);
    case RunAdd(x, answer) => AddDone(w, x, answer);
    case RunShared(x, reply) => SharedFinished(w, x, reply);
    case RunRemove(cid, purge, f) => RemoveEffect(w, cid, purge, template, f);
    case RunLogout(email, all, tokenKey, order, f) => LogoutDone(w, email, all, tokenKey, order, template, f);
  }

  lemma {:induction false} LoginWholeEffect(w: World, i: LoginInfo, rec: ReconcileFaults, f: LoginFaults)
    requires Consistent(w) && GoodLogin(i) && Modelled(w, i.cid, i.userId)
    requires ReachOf(w, i.cid, i.userId, rec).Nothing? || ReachOf(w, i.cid, i.userId, rec).Both?
    requires f.snapshot && f.move && f.record && f.load && f.loads && f.unquotes && f.write && f.materialize
    ensures var r, key := LoginWhole(w, i, rec, f), Print(i.cid);
      && key in MeaningOf(r.config) && "sync_dir" in MeaningOf(r.config)[key]
      && key in r.catalog.accounts && key in r.catalog.drives
      && r.catalog.accounts[key].userId == i.userId && r.catalog.drives[key].owner == key
      && key in r.tokens && r.tokens[key] == i.token
  {
    hide Consistent, ConsistentBut, GoodLogin, Modelled, ReconcileResult, ReachOf, ReconcileSafeBut, LoginResult, Print,
      MeaningOf, SoundOf, OwnerTidy, Cat.TidyAccounts, ReconcileTidyAt, Quote;
    var r := ReconcileResult(w, i.cid, i.userId, rec);
    ReconcileExact(w, i.cid, i.userId, rec);
    AccountKeyed(r.catalog, Print(i.cid));
    LoginWrites(r, i, f);
    LoginRecords(r, i, f);
  }

  lemma {:induction false} LoginRecords(w: World, i: LoginInfo, f: LoginFaults)
    requires Cat.TidyAccounts(w.catalog) && Keyed(w.catalog, Print(i.cid)) && GoodLogin(i)
    requires f.snapshot && f.move && f.record && f.materialize && Configures(i, MeaningOf(w.config), f)
    ensures var c, key := LoginResult(w, i, f).catalog, Print(i.cid);
      && key in c.accounts && key in c.drives && c.accounts[key].userId == i.userId && c.drives[key].owner == key
  {
    hide MeaningOf, Print, Parse, Ensure, Written, Undone, Inert, QuoteSafe, Cat.SetAuthReason, Configures,
      Cat.TidyAccounts;
    ConfiguresIs(i, w.config, f);
    RecordedAccounts(i, w.catalog);
    ClearKeeps(Logins.Recorded(i, w.catalog, true), i.cid.email, Print(i.cid));
  }

  /** Clearing an auth requirement leaves users and drives alone. */
  lemma {:induction false} ClearKeeps(c: Cat.State, email: string, key: string)
    requires Cat.TidyAccounts(c)
    ensures var c' := Cat.SetAuthReason(c, email, "");
      && c'.drives == c.drives
      && (key in c.accounts ==> key in c'.accounts && c'.accounts[key].userId == c.accounts[key].userId)
  {
    hide Parse, Print, Cat.TidyAccounts;
    if email != "" && Cat.AccountByEmail(c, email).Some? { Cat.AccountFound(c, email); }
  }

  lemma {:induction false} AddDone(w: World, x: DriveAdd.Setup, answer: DriveAdd.Pc -> DriveAdd.Choice)
    requires Consistent(w) && GoodAdd(x) && DriveAdd.Addable(x, MeaningOf(w.config))
    requires forall pc :: DriveAdd.Succeeds(answer(pc))
    ensures var r, key := AddResult(w, x, answer), Print(x.cid);
      key in MeaningOf(r.config) && "sync_dir" in MeaningOf(r.config)[key] && key in r.catalog.drives
  {
    hide AddResult, MeaningOf, SoundOf, Print, Parse, DriveAdd.Addable, DriveAdd.Succeeds, Quote, Inert, QuoteSafe;
    AddEffect(w, x, answer);
    AddKeyed(w.catalog, x);
    DriveAdd.RegisterEffect(w.catalog, x);
    AddParses(x);
    assert Print(x.cid) in MeaningOf(w.config) ==> DriveSectionOk(w.catalog, Print(x.cid));
  }

  lemma {:induction false} SharedFinished(w: World, x: SharedAdd.Setup, reply: SharedAdd.Pc -> SharedAdd.Choice)
    requires Consistent(w) && GoodShared(x) && SharedGood(reply) && ParentOf(w.catalog, x.cid.email).Some?
    ensures var r, key := SharedResult(w, x, reply), Print(x.cid);
      key in MeaningOf(r.config) && key in r.catalog.drives
  {
    hide SharedResult, MeaningOf, SoundOf, Print, Parse, SharedGood, ParentOf, Quote, GoodShared, Covered, Cat.Tidy;
    SharedEffect(w, x, reply);
    SharedExact(w, x, reply);
    SharedParses(x);
    SectionCovered(SharedResult(w, x, reply), Print(x.cid));
  }

  lemma {:induction false} SectionCovered(w: World, key: string)
    requires Consistent(w) && key in MeaningOf(w.config) && Parse(key).Some?
    ensures key in w.catalog.drives
  {
    hide MeaningOf, SoundOf, Parse, Print, Cat.Tidy;
    assert DriveSectionOk(w.catalog, key);
  }

  lemma {:induction false} Known(c: Cat.State, email: string, k: string)
    requires Cat.StandsFor(c, email, k)
    ensures k in c.accounts
  {
  }

  lemma {:induction false} LogoutDone(w: World, email: string, all: bool, tokenKey: Option<string>, order: seq<string>,
                                      template: string, f: LogoutFaults)
    requires Consistent(w) && Inert(template) && tokenKey.Some? && f.token && f.stuck == {} && f.files && f.catalog
    ensures var r := LogoutResult(w, email, all, tokenKey, order, template, f);
      && (forall n :: n in MeaningOf(r.config) && Parse(n).Some? ==> Parse(n).value.email != email)
      && tokenKey.value !in r.tokens
      && forall k :: Cat.StandsFor(w.catalog, email, k) ==>
           if all then k !in r.catalog.accounts
           else r.catalog.drives == w.catalog.drives && r.catalog.accounts.Keys == w.catalog.accounts.Keys
  {
    hide Consistent, Inert, LogoutResult, MeaningOf, Parse, Cat.StandsFor;
    var r := LogoutResult(w, email, all, tokenKey, order, template, f);
    forall n | n in MeaningOf(r.config) && Parse(n).Some? ensures Parse(n).value.email != email {
      LogoutEffect(w, email, all, tokenKey, order, template, f, n);
    }
    LogoutEffect(w, email, all, tokenKey, order, template, f, tokenKey.value);
    forall k | Cat.StandsFor(w.catalog, email, k)
      ensures if all then k !in r.catalog.accounts
        else r.catalog.drives == w.catalog.drives && r.catalog.accounts.Keys == w.catalog.accounts.Keys
    {
      Known(w.catalog, email, k);
      LogoutCatalog(w, email, all, tokenKey, order, template, f, k);
    }
  }
}
