/** `ReconcileAccountEmail` across config and catalog: only the sections owned by the renamed account are renamed,
    but every catalog record is rewritten. */
module ReconcileConfig {
  import opened Text
  import opened TomlLines
  import opened ConfigDoc
  import opened ConfigText
  import opened CanonicalId
  import opened RenameSections
  import R = Reconcile
  import Cat = CatalogState
  import opened ConfigEdits
  import opened StringOrder
  import opened Worlds

  /** `TokenAccountCanonicalID`: the account whose token a drive uses. */
  function TokenOwner(c: Cat.State, cid: CanonicalId): Option<string> {
    if cid.Shared? then
      if Print(cid) !in c.drives || Parse(c.drives[Print(cid)].owner).None? then None
      else Some(Print(Parse(c.drives[Print(cid)].owner).value))
    else match Cat.OwnerOf(cid)
      case None => None
      case Some(o) => Some(Print(o))
  }

  /** The section belongs to a drive of this account. */
  predicate OwnedBy(c: Cat.State, n: string, from: string) {
    Parse(n).Some? && TokenOwner(c, Parse(n).value) == Some(from)
  }

  /** `collectConfiguredDriveRenames`, for canonical section names. */
  function SectionRenames(t: Table, c: Cat.State, from: string, email: string): map<string, string> {
    map n | n in t && OwnedBy(c, n, from) :: R.Rekey(n, email)
  }

  /** The file after its sections were renamed. */
  function RenamedText(t: string, m: map<string, string>): string {
    RenderLines(RenameLines(ParseLines(t), m, m.Keys))
  }

  /** Configured still implies cataloged, if and only if the drives of other accounts keep their identifier: each
      carries the new email already, or has no site or library to rewrite. */
  lemma {:induction false} CoveredExact(t: string, s: Cat.State, s': Cat.State, from: CanonicalId, to: CanonicalId,
                                        email: string)
    requires Sound(t) && Covered(Meaning(t), s) && email != "" && NoColon(email)
    requires R.WellKeyed(s.drives) && R.Renamed(s, s', from, to, email)
    requires var m := SectionRenames(Meaning(t), s, Print(from), email);
      !Clash(ParseLines(t), m, m.Keys) && forall n :: n in m ==> QuoteSafe(m[n])
    ensures var m := SectionRenames(Meaning(t), s, Print(from), email);
      Covered(Meaning(RenamedText(t, m)), s') <==>
        forall n :: n in Meaning(t) && Parse(n).Some? && !OwnedBy(s, n, Print(from)) ==> R.Rekey(n, email) == n
  {
    hide Meaning, Sound, Parse, Print, R.Rekey, R.Renamed, R.WellKeyed, RenamedText, Clash, QuoteSafe, OwnedBy, NoColon;
    var m := SectionRenames(Meaning(t), s, Print(from), email);
    var u := RenamedText(t, m);
    if forall n :: n in Meaning(t) && Parse(n).Some? && !OwnedBy(s, n, Print(from)) ==> R.Rekey(n, email) == n {
      forall n' | n' in Meaning(u) ensures DriveSectionOk(s', n') {
        var n := Origin(t, m, n');
        StaysCovered(t, s, s', from, to, email, n, n');
      }
    }
    if Covered(Meaning(u), s') {
      forall n | n in Meaning(t) && Parse(n).Some? && !OwnedBy(s, n, Print(from)) ensures R.Rekey(n, email) == n {
        Arrives(t, m, n);
        assert DriveSectionOk(s', n);
        InImage(s, s', from, to, email, n);
      }
    }
  }

  /** The targets carry the new email, so none is renamed again: the order of the renames is immaterial. */
  lemma {:induction false} RenamesStay(t: string, s: Cat.State, from: string, email: string)
    requires Covered(Meaning(t), s) && email != "" && NoColon(email)
    ensures TargetsStay(SectionRenames(Meaning(t), s, from, email))
  {
    hide Meaning, Parse, Print, R.Rekey, NoColon;
    var m := SectionRenames(Meaning(t), s, from, email);
    forall n | Moving(m, n) ensures !Moving(m, m[n]) {
      assert DriveSectionOk(s, n);
      R.RekeyCanonical(n, email);
    }
  }

  lemma {:induction false} Origin(t: string, m: map<string, string>, n': string) returns (n: string)
    requires (forall x :: x in m ==> QuoteSafe(m[x])) && n' in Meaning(RenamedText(t, m))
    ensures n in Meaning(t) && Rename(m, n) == n'
  {
    RenameOnly(t, m, n');
    hide Meaning;
    n :| n in Meaning(t) && Rename(m, n) == n';
  }

  lemma {:induction false} Arrives(t: string, m: map<string, string>, n: string)
    requires Sound(t) && !Clash(ParseLines(t), m, m.Keys) && n in Meaning(t) && forall x :: x in m ==> QuoteSafe(m[x])
    ensures Rename(m, n) in Meaning(RenamedText(t, m))
  {
    RenameMeaning(t, m, n);
  }

  lemma {:induction false} StaysCovered(t: string, s: Cat.State, s': Cat.State, from: CanonicalId, to: CanonicalId,
                                        email: string, n: string, n': string)
    requires Covered(Meaning(t), s) && email != "" && NoColon(email) && R.Renamed(s, s', from, to, email)
    requires n in Meaning(t)
    requires Parse(n).Some? && !OwnedBy(s, n, Print(from)) ==> R.Rekey(n, email) == n
    requires n' == Rename(SectionRenames(Meaning(t), s, Print(from), email), n)
    ensures DriveSectionOk(s', n')
  {
    hide Meaning, Print, R.Renamed, NoColon, R.Rekey, Parse;
    assert DriveSectionOk(s, n);
    if Parse(n).Some? {
      R.RekeyCanonical(n, email);
      R.MovedTo(s, s', from, to, email, n);
    } else {
      assert !OwnedBy(s, n, Print(from));
    }
  }

  lemma {:induction false} InImage(s: Cat.State, s': Cat.State, from: CanonicalId, to: CanonicalId, email: string,
                                   n: string)
    requires R.WellKeyed(s.drives) && R.Renamed(s, s', from, to, email) && n in s'.drives && email != ""
    requires NoColon(email)
    ensures R.Rekey(n, email) == n
  {
    hide R.Renamed, R.Rekey, Parse, Print, R.Wins, NoColon;
    var w := R.CameFrom(s, s', from, to, email, n);
    R.Winner(s.drives, email, n, w);
    R.KeyOf(s.drives, w);
    R.RekeyCanonical(w, email);
  }

  // ---------------------------------------------------------------- the whole step

  /** Which parts of a reconciliation succeed: reading and checking, renaming files (and whether the token was moved
      before a failure), the config write, the catalog write. */
  datatype ReconcileFaults = ReconcileFaults(plan: bool, paths: bool, moved: bool, config: bool, catalog: bool)

  /** `matchingAccountRenames`: the accounts of this user that are recorded under another email. */
  function OldAccounts(c: Cat.State, cid: CanonicalId, userId: string): set<string> {
    if userId == "" then {}
    else set k | k in c.accounts && Parse(c.accounts[k].canonicalId).Some? && c.accounts[k].userId == userId
                 && TypeName(Parse(c.accounts[k].canonicalId).value) == TypeName(cid)
                 && Parse(c.accounts[k].canonicalId).value.email != cid.email
  }

  /** The account that is renamed, when there is one. */
  function OldAccount(c: Cat.State, cid: CanonicalId, userId: string): Option<CanonicalId> {
    var olds := OldAccounts(c, cid, userId);
    if olds == {} then None else Parse(Least(olds))
  }

  /** The plan is rejected: an owned section cannot take the new email, or its target is there already. */
  predicate PlanFails(t: Table, c: Cat.State, from: string, email: string) {
    exists n :: n in t && OwnedBy(c, n, from)
      && (WithEmail(Parse(n).value, email).None? || (R.Rekey(n, email) != n && R.Rekey(n, email) in t))
  }

  function MoveToken(tokens: map<string, string>, from: string, to: string): map<string, string> {
    if from in tokens then (tokens - {from})[to := tokens[from]] else tokens
  }

  /** How far a reconciliation gets. */
  datatype Reach = Nothing | Stopped(moved: bool) | ConfigOnly | Both

  function ReachOf(w: World, cid: CanonicalId, userId: string, f: ReconcileFaults): Reach {
    match OldAccount(w.catalog, cid, userId)
    case None => Nothing
    case Some(from) =>
      var key, t := Print(from), MeaningOf(w.config);
      var m := SectionRenames(t, w.catalog, key, cid.email);
      if !f.plan || PlanFails(t, w.catalog, key, cid.email) || (key in w.tokens && Print(cid) in w.tokens)
        then Stopped(false)
      else if !f.paths then Stopped(f.moved)
      else if (exists n :: n in m && Moving(m, n)) && (!f.config || Colliding(w.config, m)) then Stopped(true)
      else if !f.catalog then ConfigOnly
      else Both
  }

  predicate Colliding(c: Content, m: map<string, string>) {
    c.Some? && (
      || (exists x :: x in m && Moving(m, x) && Present(ParseLines(c.value), x) && Present(ParseLines(c.value), m[x]))
      || (exists x, y :: x in m && y in m && x != y && Moving(m, x) && Moving(m, y)
                         && Present(ParseLines(c.value), x) && Present(ParseLines(c.value), y) && m[x] == m[y]))
  }

  /** The config file with the owned sections renamed. */
  function RenamedContent(c: Content, m: map<string, string>): Content {
    if c.None? then None else Some(RenamedText(c.value, m))
  }

  /** Where `ReconcileAccountEmail` leaves the world. */
  ghost function ReconcileResult(w: World, cid: CanonicalId, userId: string, f: ReconcileFaults): World {
    match OldAccount(w.catalog, cid, userId)
    case None => w
    case Some(from) =>
      var m, tokens := SectionRenames(MeaningOf(w.config), w.catalog, Print(from), cid.email),
        MoveToken(w.tokens, Print(from), Print(cid));
      match ReachOf(w, cid, userId, f)
      case Nothing => w
      case Stopped(moved) => w.(tokens := if moved then tokens else w.tokens)
      case ConfigOnly => World(RenamedContent(w.config, m), w.catalog, tokens)
      case Both => World(RenamedContent(w.config, m), R.RenamedState(w.catalog, from, cid, cid.email), tokens)
  }

  /** The new section names can be written. */
  ghost predicate Nameable(w: World, cid: CanonicalId) {
    && Parsed(cid) && Cat.IsAccountId(cid)
    && forall n :: n in MeaningOf(w.config) && Parse(n).Some? ==> QuoteSafe(R.Rekey(n, cid.email))
  }

  /** And the user has at most one account under another email (see Users.OneOldAccount). */
  ghost predicate Modelled(w: World, cid: CanonicalId, userId: string) {
    Nameable(w, cid) && |OldAccounts(w.catalog, cid, userId)| <= 1
  }

  lemma {:induction false} OldIsRename(c: Cat.State, cid: CanonicalId, userId: string)
    requires Cat.TidyAccounts(c) && Parsed(cid) && Cat.IsAccountId(cid) && OldAccount(c, cid, userId).Some?
    ensures R.IsRename(OldAccount(c, cid, userId).value, cid, cid.email)
    ensures Print(OldAccount(c, cid, userId).value) in c.accounts
  {
    hide Parse, Print;
    var olds := OldAccounts(c, cid, userId);
    var k := Least(olds);
    assert k in olds && Cat.TidyAccount(k, c.accounts[k]);
    ParseParsed(k);
    SameType(Parse(k).value, cid);
  }

  lemma {:induction false} SameType(c: CanonicalId, d: CanonicalId)
    requires Cat.IsAccountId(c) && TypeName(c) == TypeName(d)
    ensures Readdressed(c, d.email) == d
  {
  }

  /** When every owned section finds a record under its new name. */
  predicate RecordsWait(t: Table, c: Cat.State, from: string, email: string) {
    forall n :: n in t && OwnedBy(c, n, from) ==> R.Rekey(n, email) in c.drives
  }

  /** The sections of other accounts keep their names in the catalog. */
  predicate OthersKeep(t: Table, c: Cat.State, from: string, email: string) {
    forall n :: n in t && Parse(n).Some? && !OwnedBy(c, n, from) ==> R.Rekey(n, email) == n
  }

  lemma {:induction false} CoveredHalf(t: string, s: Cat.State, from: string, email: string)
    requires Sound(t) && Covered(Meaning(t), s) && email != "" && NoColon(email)
    requires var m := SectionRenames(Meaning(t), s, from, email);
      !Clash(ParseLines(t), m, m.Keys) && forall n :: n in m ==> QuoteSafe(m[n])
    ensures Covered(Meaning(RenamedText(t, SectionRenames(Meaning(t), s, from, email))), s) <==>
      RecordsWait(Meaning(t), s, from, email)
  {
    hide Meaning, Sound, Parse, Print, R.Rekey, RenamedText, Clash, QuoteSafe, OwnedBy, NoColon;
    var m := SectionRenames(Meaning(t), s, from, email);
    var u := RenamedText(t, m);
    if RecordsWait(Meaning(t), s, from, email) {
      forall n' | n' in Meaning(u) ensures DriveSectionOk(s, n') {
        var n := Origin(t, m, n');
        assert DriveSectionOk(s, n);
        if n in m { OwnedParses(s, n, from); R.RekeyCanonical(n, email); }
      }
    }
    if Covered(Meaning(u), s) {
      forall n | n in Meaning(t) && OwnedBy(s, n, from) ensures R.Rekey(n, email) in s.drives {
        Arrives(t, m, n);
        assert DriveSectionOk(s, n) && DriveSectionOk(s, R.Rekey(n, email));
        OwnedParses(s, n, from);
        R.RekeyCanonical(n, email);
      }
    }
  }

  lemma {:induction false} OwnedParses(c: Cat.State, n: string, from: string)
    requires OwnedBy(c, n, from)
    ensures Parse(n).Some?
  {
  }

  lemma {:induction false} CollidesIs(t: string, m: map<string, string>)
    ensures Colliding(Some(t), m) <==> Clash(ParseLines(t), m, m.Keys)
    ensures (forall n :: n in m ==> !Moving(m, n)) ==> !Clash(ParseLines(t), m, m.Keys)
  {
    hide ParseLines, Present;
  }

  /** After the config was renamed it is sound, and covered exactly as the two conditions say. */
  lemma {:induction false} RenamedWorld(w: World, cid: CanonicalId, userId: string, f: ReconcileFaults)
    requires Consistent(w) && Modelled(w, cid, userId) && OldAccount(w.catalog, cid, userId).Some?
    requires !ReachOf(w, cid, userId, f).Nothing? && !ReachOf(w, cid, userId, f).Stopped?
    ensures var from, t := OldAccount(w.catalog, cid, userId).value, MeaningOf(w.config);
      var m := SectionRenames(t, w.catalog, Print(from), cid.email);
      var c, s' := RenamedContent(w.config, m), R.RenamedState(w.catalog, from, cid, cid.email);
      && SoundOf(c)
      && (Covered(MeaningOf(c), w.catalog) <==> RecordsWait(t, w.catalog, Print(from), cid.email))
      && (Covered(MeaningOf(c), s') <==> OthersKeep(t, w.catalog, Print(from), cid.email))
  {
    hide Meaning, Sound, Parse, Print, R.Rekey, R.Renamed, R.RenamedState, RenamedText, Clash, QuoteSafe, OwnedBy,
      NoColon, Parsed, Cat.Tidy, PlanFails, OldAccount, OldAccounts, R.IsRename, Colliding, R.WellKeyed;
    var from, t := OldAccount(w.catalog, cid, userId).value, MeaningOf(w.config);
    var m := SectionRenames(t, w.catalog, Print(from), cid.email);
    EmailGood(cid);
    if w.config.Some? {
      var text := w.config.value;
      CollidesIs(text, m);
      MovingNames(m);
      TargetsWritable(w, cid, userId, Print(from));
      RenameSound(text, m);
      RenamedTextIs(text, m);
      TidyWellKeyed(w.catalog);
      R.RenamedStateIs(w.catalog, from, cid, cid.email);
      CoveredHalf(text, w.catalog, Print(from), cid.email);
      CoveredExact(text, w.catalog, R.RenamedState(w.catalog, from, cid, cid.email), from, cid, cid.email);
    }
  }

  lemma {:induction false} RenamedTextIs(t: string, m: map<string, string>)
    ensures RenamedText(t, m) == RenderLines(RenameLines(ParseLines(t), m, m.Keys))
  {
  }

  lemma {:induction false} MovingNames(m: map<string, string>)
    ensures (exists n :: n in m && Moving(m, n)) <==> !(forall n :: n in m ==> !Moving(m, n))
  {
  }

  lemma {:induction false} EmailGood(cid: CanonicalId)
    requires Parsed(cid)
    ensures cid.email != "" && NoColon(cid.email)
  {
  }

  lemma {:induction false} TargetsWritable(w: World, cid: CanonicalId, userId: string, from: string)
    requires Modelled(w, cid, userId)
    ensures var m := SectionRenames(MeaningOf(w.config), w.catalog, from, cid.email); forall n :: n in m ==>
      QuoteSafe(m[n])
  {
    hide MeaningOf, QuoteSafe, R.Rekey, Parse, OldAccounts, TokenOwner;
  }

  lemma {:induction false} TidyWellKeyed(c: Cat.State)
    requires Cat.Tidy(c)
    ensures R.WellKeyed(c.drives)
  {
    hide Parse, Print;
    forall k | k in c.drives ensures c.drives[k].canonicalId == k && Canonical(k) {
      assert Cat.TidyDrive(k, c.drives[k]);
    }
  }

  /** When a reconciliation leaves every configured drive in the catalog, and keys, identifiers and emails in
      agreement but for the record of the account's own drive. */
  ghost predicate ReconcileSafeBut(w: World, cid: CanonicalId, userId: string, f: ReconcileFaults) {
    match ReachOf(w, cid, userId, f)
    case Nothing => true
    case Stopped(_) => true
    case ConfigOnly =>
      RecordsWait(MeaningOf(w.config), w.catalog, Print(OldAccountOr(w, cid, userId)), cid.email)
    case Both =>
      var from := Print(OldAccountOr(w, cid, userId));
      && OthersKeep(MeaningOf(w.config), w.catalog, from, cid.email)
      && R.AgreesBut(w.catalog, from, cid.email, Print(cid))
  }

  /** The record of the account's own drive agrees with its owner too. */
  ghost predicate ReconcileTidyAt(w: World, cid: CanonicalId, userId: string, f: ReconcileFaults) {
    ReachOf(w, cid, userId, f).Both? ==>
      R.AgreesFor(w.catalog, Print(OldAccountOr(w, cid, userId)), cid.email, Print(cid))
  }

  function OldAccountOr(w: World, cid: CanonicalId, userId: string): CanonicalId {
    match OldAccount(w.catalog, cid, userId)
    case Some(from) => from
    case None => cid
  }

  /** Exactly when the reconciliation keeps the law. */
  lemma {:induction false} ReconcileExact(w: World, cid: CanonicalId, userId: string, f: ReconcileFaults)
    requires Consistent(w) && Modelled(w, cid, userId)
    ensures var r := ReconcileResult(w, cid, userId, f);
      && (ConsistentBut(r, Print(cid)) <==> ReconcileSafeBut(w, cid, userId, f))
      && (OwnerTidy(r.catalog, Print(cid)) <==> ReconcileTidyAt(w, cid, userId, f))
      && SoundOf(r.config) && Cat.TidyAccounts(r.catalog)
      && (Print(cid) in r.catalog.drives ==> r.catalog.drives[Print(cid)].canonicalId == Print(cid))
  {
    hide Print, Parse, MeaningOf, SoundOf, Covered, OldAccount, SectionRenames, RenamedContent, R.RenamedState,
      Cat.TidyDrive, OthersKeep, RecordsWait, R.AgreesBut, R.AgreesFor, Cat.TidyBut, Cat.TidyAccounts, Modelled,
      ReachOf, R.IsRename, R.Renamed;
    var r, key := ReconcileResult(w, cid, userId, f), Print(cid);
    ConsistentIsBut(w, key);
    ModelledFacts(w, cid, userId);
    Cat.TidyIsBut(w.catalog, key);
    ButHasAccounts(w.catalog, key);
    ReachNothing(w, cid, userId, f);
    if OldAccount(w.catalog, cid, userId).Some? {
      var from := OldAccount(w.catalog, cid, userId).value;
      OldIsRename(w.catalog, cid, userId);
      var s' := R.RenamedState(w.catalog, from, cid, cid.email);
      R.RenamedStateIs(w.catalog, from, cid, cid.email);
      R.TidyExact(w.catalog, s', from, cid, cid.email, key);
      R.AccountsTidy(w.catalog, s', from, cid, cid.email);
      if !ReachOf(w, cid, userId, f).Nothing? && !ReachOf(w, cid, userId, f).Stopped? {
        RenamedWorld(w, cid, userId, f);
      }
    }
  }

  lemma {:induction false} ReachNothing(w: World, cid: CanonicalId, userId: string, f: ReconcileFaults)
    ensures ReachOf(w, cid, userId, f).Nothing? <==> OldAccount(w.catalog, cid, userId).None?
  {
    hide OldAccount, PlanFails, Colliding, Print, MeaningOf, SectionRenames;
  }

  lemma {:induction false} ButHasAccounts(c: Cat.State, key: string)
    requires Cat.TidyBut(c, key)
    ensures Cat.TidyAccounts(c) && (key in c.drives ==> c.drives[key].canonicalId == key)
  {
    hide Cat.TidyAccounts, Cat.TidyDrive;
  }

  lemma {:induction false} ModelledFacts(w: World, cid: CanonicalId, userId: string)
    requires Modelled(w, cid, userId)
    ensures Parsed(cid) && Cat.IsAccountId(cid)
  {
    hide MeaningOf, QuoteSafe, OldAccounts;
  }

  /** The failing input: a second account of the same type has a configured drive, and everything succeeds. Its
      section keeps its name while its record gets the new email. */
  lemma {:induction false} SecondAccountStrands(w: World, cid: CanonicalId, userId: string, f: ReconcileFaults,
                                                b: CanonicalId)
    requires Consistent(w) && Modelled(w, cid, userId) && ReachOf(w, cid, userId, f).Both?
    requires Parsed(b) && Cat.IsAccountId(b) && b.email != cid.email && Print(b) in MeaningOf(w.config)
    requires b != OldAccountOr(w, cid, userId)
    ensures !ConsistentBut(ReconcileResult(w, cid, userId, f), Print(cid))
  {
    hide Print, Parse, MeaningOf, Consistent, ConsistentBut, ReconcileResult, Modelled, ReachOf, R.Rekey, OldAccount,
      R.AgreesBut;
    ReconcileExact(w, cid, userId, f);
    var from := OldAccountOr(w, cid, userId);
    ReachNothing(w, cid, userId, f);
    ModelledFacts(w, cid, userId);
    EmailGood(cid);
    Cat.PrintedEmail(b);
    R.RekeyAccount(Print(b), cid.email);
    ConsistentTidy(w);
    OldIsRename(w.catalog, cid, userId);
    Cat.PrintedEmail(from);
    SelfOwned(w.catalog, b);
  }

  lemma {:induction false} ConsistentTidy(w: World)
    requires Consistent(w)
    ensures Cat.Tidy(w.catalog) && Cat.TidyAccounts(w.catalog)
  {
    hide SoundOf, MeaningOf, Covered, Cat.TidyDrive;
  }

  lemma {:induction false} SelfOwned(c: Cat.State, b: CanonicalId)
    requires Cat.IsAccountId(b)
    ensures TokenOwner(c, b) == Some(Print(b))
  {
    hide Print, Parse;
  }

  /** What the stronger invariant of the catalog needs. */
  ghost predicate ReconcileValid(w: World, cid: CanonicalId, userId: string, f: ReconcileFaults) {
    ReachOf(w, cid, userId, f).Both? ==>
      var from := Print(OldAccountOr(w, cid, userId));
      && R.AgreesBut(w.catalog, from, cid.email, Print(cid)) && R.AgreesFor(w.catalog, from, cid.email, Print(cid))
      && from in w.catalog.accounts && R.PrimariesKept(w.catalog, from, Print(cid), cid.email)
  }

  lemma {:induction false} ReconcileKeepsInv(w: World, cid: CanonicalId, userId: string, f: ReconcileFaults)
    requires Consistent(w) && Cat.Inv(w.catalog) && Modelled(w, cid, userId)
    ensures Cat.Inv(ReconcileResult(w, cid, userId, f).catalog) <==> ReconcileValid(w, cid, userId, f)
  {
    hide Print, Parse, MeaningOf, SoundOf, Covered, OldAccount, SectionRenames, RenamedContent, R.RenamedState,
      Cat.Inv, R.PrimariesKept, R.AgreesBut, R.AgreesFor, Cat.TidyBut, Cat.TidyDrive, Cat.TidyAccounts, Modelled,
      ReachOf, R.IsRename, R.Renamed, Cat.PrimariesValid;
    ModelledFacts(w, cid, userId);
    ConsistentTidy(w);
    ReachNothing(w, cid, userId, f);
    if ReachOf(w, cid, userId, f).Both? {
      var from := OldAccount(w.catalog, cid, userId).value;
      OldIsRename(w.catalog, cid, userId);
      var s' := R.RenamedState(w.catalog, from, cid, cid.email);
      R.RenamedStateIs(w.catalog, from, cid, cid.email);
      R.TidyExact(w.catalog, s', from, cid, cid.email, Print(cid));
      Cat.TidyIsBut(s', Print(cid));
      R.InvExact(w.catalog, s', from, cid, cid.email);
      R.PrimariesExact(w.catalog, s', from, cid, cid.email);
    }
  }

  /** A section of the new account's own drive has its record, whatever happens to the others. */
  lemma {:induction false} OwnSectionCovered(w: World, cid: CanonicalId, userId: string, f: ReconcileFaults)
    requires Consistent(w) && Modelled(w, cid, userId) && !ReachOf(w, cid, userId, f).ConfigOnly?
    ensures var r := ReconcileResult(w, cid, userId, f); Print(cid) in MeaningOf(r.config) ==>
      Print(cid) in r.catalog.drives
  {
    hide Print, Parse, MeaningOf, SoundOf, OldAccount, R.RenamedState, Modelled, ReachOf, R.IsRename, R.Renamed,
      R.Rekey, SectionRenames, RenamedText, NoColon;
    var r, key := ReconcileResult(w, cid, userId, f), Print(cid);
    ModelledFacts(w, cid, userId);
    EmailGood(cid);
    Cat.PrintedEmail(cid);
    if key in MeaningOf(r.config) {
      if ReachOf(w, cid, userId, f).Both? && OldAccount(w.catalog, cid, userId).Some? {
        var from := OldAccount(w.catalog, cid, userId).value;
        var m, t := SectionRenames(MeaningOf(w.config), w.catalog, Print(from), cid.email), MeaningOf(w.config);
        TargetsWritable(w, cid, userId, Print(from));
        R.RenamedStateIs(w.catalog, from, cid, cid.email);
        ContentMeaning(w.config);
        ContentMeaning(r.config);
        var n := Origin(w.config.value, m, key);
        assert DriveSectionOk(w.catalog, n);
        RenameIs(t, w.catalog, Print(from), cid.email, n);
        if n == key { R.RekeyKeepsNew(key, cid.email); }
        R.MovedTo(w.catalog, r.catalog, from, cid, cid.email, n);
      } else {
        assert DriveSectionOk(w.catalog, key);
      }
    }
  }

  lemma {:induction false} ContentMeaning(c: Content)
    ensures MeaningOf(c) == if c.Some? then Meaning(c.value) else map[]
  {
  }

  lemma {:induction false} RenameIs(t: Table, c: Cat.State, from: string, email: string, n: string)
    ensures var m := SectionRenames(t, c, from, email);
      Rename(m, n) == n || (Rename(m, n) == R.Rekey(n, email) && n in t && Parse(n).Some?)
  {
    hide R.Rekey, Parse, TokenOwner;
  }

  // ---------------------------------------------------------------- what a reconciliation leaves

  /** The token arrives under the new key with its content, and no other token changes. */
  lemma {:induction false} TokenMoves(tokens: map<string, string>, from: string, to: string)
    requires from != to && !(from in tokens && to in tokens)
    ensures var moved := MoveToken(tokens, from, to);
      && from !in moved && (from in tokens ==> to in moved && moved[to] == tokens[from])
      && (from !in tokens ==> moved == tokens)
      && moved - {from, to} == tokens - {from, to}
  {
  }

  /** Which account a section belongs to: accounts to themselves, libraries to the business account of their email,
      and shared folders to the owner on record. */
  lemma {:induction false} OwnedIs(c: Cat.State, n: string, from: CanonicalId)
    requires Parse(n).Some? && Parsed(from)
    ensures OwnedBy(c, n, Print(from)) <==>
      match Parse(n).value
      case Personal(email) => Print(from) == "personal:" + email
      case Business(email) => Print(from) == "business:" + email
      case SharePoint(email, _, _) => Print(from) == "business:" + email
      case Shared(_, _, _) =>
        var key := Print(Parse(n).value);
        key in c.drives && Parse(c.drives[key].owner).Some? && Print(Parse(c.drives[key].owner).value) == Print(from)
  {
    hide Parse, Print, Cat.OwnerOf;
    ParseParsed(n);
    Cat.OwnerIs(Parse(n).value);
    PrintedForms(Parse(n).value.email, "", "");
  }

  /** A reconciliation that fails while planning changes nothing: the reading fails, a section cannot take the new
      email, a target section is there, or both accounts have a token. */
  lemma {:induction false} PlanStops(w: World, cid: CanonicalId, userId: string, f: ReconcileFaults)
    requires OldAccount(w.catalog, cid, userId).Some?
    requires var key, t := Print(OldAccountOr(w, cid, userId)), MeaningOf(w.config);
      || !f.plan || (key in w.tokens && Print(cid) in w.tokens)
      || (exists n :: n in t && OwnedBy(w.catalog, n, key) && WithEmail(Parse(n).value, cid.email).None?)
      || (exists n :: n in t && OwnedBy(w.catalog, n, key) && R.Rekey(n, cid.email) != n && R.Rekey(n, cid.email) in t)
    ensures ReconcileResult(w, cid, userId, f) == w
  {
    hide Print, Parse, MeaningOf, OldAccount, OwnedBy, R.Rekey, WithEmail, SectionRenames, RenamedContent, MoveToken,
      R.RenamedState, Colliding;
    var key, t := Print(OldAccountOr(w, cid, userId)), MeaningOf(w.config);
    assert !f.plan || PlanFails(t, w.catalog, key, cid.email) || (key in w.tokens && Print(cid) in w.tokens);
  }

  /** One that gets to its end carries every owned section with its entries to the new name, leaves every other
      section alone, renames the account in the catalog, and moves the token. */
  lemma {:induction false} ReconcileEffect(w: World, cid: CanonicalId, userId: string, f: ReconcileFaults, n: string)
    requires Consistent(w) && Modelled(w, cid, userId) && ReachOf(w, cid, userId, f).Both?
    ensures var r, from, t := ReconcileResult(w, cid, userId, f), OldAccountOr(w, cid, userId), MeaningOf(w.config);
      var n' := if n in t && OwnedBy(w.catalog, n, Print(from)) then R.Rekey(n, cid.email) else n;
      && (n in t ==> n' in MeaningOf(r.config) && MeaningOf(r.config)[n'] == t[n])
      && R.Renamed(w.catalog, r.catalog, from, cid, cid.email)
      && r.tokens == MoveToken(w.tokens, Print(from), Print(cid))
  {
    hide Print, Parse, MeaningOf, Meaning, Sound, Covered, OldAccount, R.RenamedState, R.Renamed, RenamedText,
      QuoteSafe, R.Rekey, OwnedBy, Modelled, MoveToken, Cat.Tidy, PlanFails, Colliding;
    ReachNothing(w, cid, userId, f);
    var from, t := OldAccountOr(w, cid, userId), MeaningOf(w.config);
    var m := SectionRenames(t, w.catalog, Print(from), cid.email);
    R.RenamedStateIs(w.catalog, from, cid, cid.email);
    if n in t {
      ContentMeaning(w.config);
      var text := w.config.value;
      NoClash(w, cid, userId, f);
      TargetsWritable(w, cid, userId, Print(from));
      RenamedTextIs(text, m);
      RenameMeaning(text, m, n);
      ContentMeaning(RenamedContent(w.config, m));
      RenamedName(t, w.catalog, Print(from), cid.email, n);
    }
  }

  lemma {:induction false} NoClash(w: World, cid: CanonicalId, userId: string, f: ReconcileFaults)
    requires w.config.Some? && ReachOf(w, cid, userId, f).Both?
    ensures var m := SectionRenames(MeaningOf(w.config), w.catalog, Print(OldAccountOr(w, cid, userId)), cid.email);
      !Clash(ParseLines(w.config.value), m, m.Keys)
  {
    hide Print, MeaningOf, OldAccount, SectionRenames, PlanFails, Colliding, Clash, ParseLines;
    var m := SectionRenames(MeaningOf(w.config), w.catalog, Print(OldAccountOr(w, cid, userId)), cid.email);
    CollidesIs(w.config.value, m);
    MovingNames(m);
  }

  lemma {:induction false} RenamedName(t: Table, c: Cat.State, from: string, email: string, n: string)
    requires n in t
    ensures Rename(SectionRenames(t, c, from, email), n) == if OwnedBy(c, n, from) then R.Rekey(n, email) else n
  {
    hide R.Rekey, OwnedBy;
  }

  /** Some owned section gets a new name. */
  predicate SectionsMove(w: World, cid: CanonicalId, userId: string) {
    exists n :: n in MeaningOf(w.config) && OwnedBy(w.catalog, n, Print(OldAccountOr(w, cid, userId)))
      && R.Rekey(n, cid.email) != n
  }

  /** Planning succeeds: everything can be read, every owned section can take the new email and finds its name free, and
      not both accounts have a token. */
  predicate Planned(w: World, cid: CanonicalId, userId: string, f: ReconcileFaults) {
    var key, t := Print(OldAccountOr(w, cid, userId)), MeaningOf(w.config);
    && f.plan && !(key in w.tokens && Print(cid) in w.tokens)
    && (forall n :: n in t && OwnedBy(w.catalog, n, key) ==>
          WithEmail(Parse(n).value, cid.email).Some? && (R.Rekey(n, cid.email) == n || R.Rekey(n, cid.email) !in t))
  }

  /** What each later failure leaves: if files cannot be renamed, at most the token has moved; if the config write fails
      although sections move, the token has moved; if the catalog write fails, the config is renamed and the token has
      moved; and if nothing fails, the catalog is renamed too. */
  lemma {:induction false} ReconcileFailures(w: World, cid: CanonicalId, userId: string, f: ReconcileFaults)
    requires OldAccount(w.catalog, cid, userId).Some? && Planned(w, cid, userId, f)
    requires !Colliding(w.config,
      SectionRenames(MeaningOf(w.config), w.catalog, Print(OldAccountOr(w, cid, userId)), cid.email))
    ensures var r, from := ReconcileResult(w, cid, userId, f), OldAccountOr(w, cid, userId);
      var m := SectionRenames(MeaningOf(w.config), w.catalog, Print(from), cid.email);
      var moved := MoveToken(w.tokens, Print(from), Print(cid));
      if !f.paths then r == w.(tokens := if f.moved then moved else w.tokens)
      else if !f.config && SectionsMove(w, cid, userId) then r == w.(tokens := moved)
      else
        && r.config == RenamedContent(w.config, m) && r.tokens == moved
        && r.catalog == if f.catalog then R.RenamedState(w.catalog, from, cid, cid.email) else w.catalog
  {
    hide Print, Parse, MeaningOf, OldAccount, OwnedBy, R.Rekey, WithEmail, RenamedContent, MoveToken, R.RenamedState,
      Colliding;
    var key, t := Print(OldAccountOr(w, cid, userId)), MeaningOf(w.config);
    var m := SectionRenames(t, w.catalog, key, cid.email);
    assert !PlanFails(t, w.catalog, key, cid.email);
    SectionsMoveIs(w, cid, userId);
    hide SectionsMove, Planned, PlanFails;
  }

  lemma {:induction false} SectionsMoveIs(w: World, cid: CanonicalId, userId: string)
    ensures var m := SectionRenames(MeaningOf(w.config), w.catalog, Print(OldAccountOr(w, cid, userId)), cid.email);
      (exists n :: n in m && Moving(m, n)) <==> SectionsMove(w, cid, userId)
  {
    hide Print, Parse, MeaningOf, OldAccountOr, OwnedBy, R.Rekey;
    var key, t := Print(OldAccountOr(w, cid, userId)), MeaningOf(w.config);
    var m := SectionRenames(t, w.catalog, key, cid.email);
    if n :| n in m && Moving(m, n) { assert n in t && OwnedBy(w.catalog, n, key) && R.Rekey(n, cid.email) != n; }
    if n :| n in t && OwnedBy(w.catalog, n, key) && R.Rekey(n, cid.email) != n { assert n in m && Moving(m, n); }
  }
}
