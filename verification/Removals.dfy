/** `drive remove` and `logout` as whole commands. */
module Removals {
  import opened Text
  import opened TomlLines
  import opened ConfigDoc
  import opened ConfigText
  import opened ConfigEdits
  import opened DriveConfig
  import opened DriveLookup
  import opened CanonicalId
  import opened StringOrder
  import opened Worlds
  import Cat = CatalogState

  /** Which steps of a `drive remove` succeed: loading, cleaning up files, config write, catalog write. */
  datatype RemoveFaults = RemoveFaults(load: bool, files: bool, write: bool, catalog: bool)

  lemma {:induction false} Dropped(w: World, key: string, template: string)
    requires Consistent(w) && Canonical(key) && Inert(template)
    ensures var config := OnContent(w.config, DeleteSection(key), template);
      SoundOf(config) && MeaningOf(config) == MeaningOf(w.config) - {key} && Covered(MeaningOf(config), w.catalog)
  {
    hide OnContent, MeaningOf, SoundOf, Parse, Print, Inert, Cat.Tidy;
    EditRefines(w.config, DeleteSection(key), template);
    var t := MeaningOf(w.config);
    assert t - {key} == OnTable(t, DeleteSection(key));
    CoveredLess(t, t - {key}, w.catalog);
  }

  lemma {:induction false} PruneOnly(c: Cat.State, cid: CanonicalId)
    requires Cat.Tidy(c)
    ensures forall n :: n in c.drives && n != Print(cid) ==>
      n in Cat.Prune(c, cid).drives && Cat.Prune(c, cid).drives[n] == c.drives[n]
  {
    hide Parse, Print;
    if Print(cid) in c.drives { assert Cat.TidyDrive(Print(cid), c.drives[Print(cid)]); }
  }

  /** Pruning only clears a flag of this record: it is a primary drive, by its own or by its owner's account. */
  predicate Spared(c: Cat.State, cid: CanonicalId) {
    Print(cid) in c.drives && (
      var d := c.drives[Print(cid)];
      d.primaryForAccount || (Parse(d.owner).Some? && Cat.OwnsPrimary(c, Parse(d.owner).value, cid)))
  }

  lemma {:induction false} SparedStays(c: Cat.State, cid: CanonicalId)
    requires Cat.Tidy(c)
    ensures Print(cid) in Cat.Prune(c, cid).drives <==> Spared(c, cid)
  {
    hide Parse, Print;
    assert Print(cid) in c.drives ==> Cat.TidyDrive(Print(cid), c.drives[Print(cid)]);
  }

  /** In a good catalog the record's own flag decides, for a siteless identifier. */
  lemma {:induction false} SitelessSpared(c: Cat.State, cid: CanonicalId)
    requires Cat.Inv(c) && Parsed(cid) && SitelessLibrary(cid) && Print(cid) in c.drives
    ensures Spared(c, cid) <==> c.drives[Print(cid)].primaryForAccount
  {
    hide Parse, Print;
    assert Cat.GoodDrive(c, Print(cid)) && Cat.GoodAccount(c, c.drives[Print(cid)].owner);
    SitelessNotAccount(cid);
  }

  lemma {:induction false} PruneExact(t: Table, c: Cat.State, cid: CanonicalId)
    requires Covered(t, c) && Cat.Tidy(c) && Parsed(cid)
    ensures Cat.Tidy(Cat.Prune(c, cid)) && (Cat.Inv(c) ==> Cat.Inv(Cat.Prune(c, cid)))
    ensures Covered(t, Cat.Prune(c, cid)) <==> !(Print(cid) in t && !Spared(c, cid))
  {
    hide Parse, Print, Cat.Inv, Cat.Tidy, Cat.Prune, Parsed, Spared;
    Cat.PruneTidy(c, cid);
    if Cat.Inv(c) { Cat.PruneKeeps(c, cid); }
    PruneOnly(c, cid);
    PrintedParses(cid);
    SparedStays(c, cid);
    if Print(cid) in t && !Spared(c, cid) {
      assert !DriveSectionOk(Cat.Prune(c, cid), Print(cid));
    } else {
      forall n | n in t ensures DriveSectionOk(Cat.Prune(c, cid), n) {
        assert DriveSectionOk(c, n);
      }
    }
  }

  lemma {:induction false} PrintedParses(cid: CanonicalId)
    requires Parsed(cid)
    ensures Parse(Print(cid)).Some?
  {
    if SitelessLibrary(cid) { SitelessParse(cid); } else { PrintParse(cid); }
  }

  /** The command succeeds. */
  predicate Removes(w: World, cid: CanonicalId, purge: bool, f: RemoveFaults) {
    f.load && if InConfig(MeaningOf(w.config), cid) then f.write && (purge ==> f.catalog)
      else purge && f.files && f.catalog
  }

  /** Where a remove leaves the world. */
  function RemoveResult(w: World, cid: CanonicalId, purge: bool, template: string, f: RemoveFaults): World {
    World(if f.load && InConfig(MeaningOf(w.config), cid) && f.write
          then OnContent(w.config, DeleteSection(Print(cid)), template) else w.config,
          if purge && Removes(w, cid, purge, f) then Cat.Prune(w.catalog, cid) else w.catalog,
          w.tokens)
  }

  /** Every remove but one: the purge of a siteless identifier that prints to another drive's section, when that
      drive's record is no primary. */
  predicate RemoveSafe(w: World, cid: CanonicalId, purge: bool, f: RemoveFaults) {
    !(purge && f.load && f.files && f.catalog && SitelessLibrary(cid) && Print(cid) in MeaningOf(w.config)
      && !Spared(w.catalog, cid))
  }

  /** Exactly when a remove leaves every configured drive in the catalog, and what it leaves alone. */
  lemma {:induction false} RemoveExact(w: World, cid: CanonicalId, purge: bool, template: string, f: RemoveFaults)
    requires Consistent(w) && Parsed(cid) && Inert(template)
    ensures var r := RemoveResult(w, cid, purge, template, f);
      && (Consistent(r) <==> RemoveSafe(w, cid, purge, f)) && (Cat.Inv(w.catalog) ==> Cat.Inv(r.catalog))
      && (Removes(w, cid, purge, f) && !SitelessLibrary(cid) ==> Print(cid) !in MeaningOf(r.config))
      && (forall n :: n in MeaningOf(w.config) && n != Print(cid) ==>
            n in MeaningOf(r.config) && MeaningOf(r.config)[n] == MeaningOf(w.config)[n])
  {
    hide OnContent, MeaningOf, SoundOf, Cat.Inv, Cat.Tidy, Parse, Print, Covered, Inert, Cat.Prune, Parsed,
      SitelessLibrary, Spared;
    var r := RemoveResult(w, cid, purge, template, f);
    PrintParse(cid);
    PruneExact(MeaningOf(w.config), w.catalog, cid);
    if f.load && InConfig(MeaningOf(w.config), cid) && f.write {
      Dropped(w, Print(cid), template);
      PruneExact(MeaningOf(r.config), w.catalog, cid);
    }
  }

  /** `runDriveRemove`: the section goes before the catalog entry. */
  method RemoveDrive(w: World, cid: CanonicalId, purge: bool, template: string, f: RemoveFaults)
    returns (r: World, ok: bool)
    ensures r == RemoveResult(w, cid, purge, template, f) && (ok <==> Removes(w, cid, purge, f))
  {
    hide OnContent, MeaningOf, Parse, Print, Cat.Prune;
    if !f.load { return w, false; }
    var inConfig := InConfig(MeaningOf(w.config), cid);
    if !inConfig {
      if !purge || !f.files || !f.catalog { return w, false; }
      return w.(catalog := Cat.Prune(w.catalog, cid)), true;
    }
    if !f.write { return w, false; }
    r := w.(config := OnContent(w.config, DeleteSection(Print(cid)), template));
    if !purge { return r, true; }
    if !f.catalog { return r, false; }
    return r.(catalog := Cat.Prune(w.catalog, cid)), true;
  }

  /** The exception happens to every drive that is not a primary: purging the siteless identifier is taken for
      an orphan cleanup, yet prunes the catalog entry of the configured drive whose name it prints to. */
  lemma {:induction false} SitelessPruneStrands(w: World, cid: CanonicalId, template: string, f: RemoveFaults)
    requires Consistent(w) && Cat.Inv(w.catalog) && Parsed(cid) && Inert(template)
    requires SitelessLibrary(cid) && Print(cid) in MeaningOf(w.config) && f.load && f.files && f.catalog
    requires Print(cid) in w.catalog.drives && !w.catalog.drives[Print(cid)].primaryForAccount
    ensures !Consistent(RemoveResult(w, cid, true, template, f))
  {
    hide MeaningOf, SoundOf, Parse, Print, Consistent, RemoveResult, Cat.Inv, Spared, SitelessLibrary, Parsed, Inert;
    SitelessSpared(w.catalog, cid);
    RemoveExact(w, cid, true, template, f);
  }

  lemma {:induction false} SitelessNotAccount(cid: CanonicalId)
    requires Parsed(cid) && SitelessLibrary(cid)
    ensures Print(cid) != "" && Parse(Print(cid)).Some? && !Cat.IsAccountId(Parse(Print(cid)).value)
  {
    SitelessParse(cid);
  }

  // ---------------------------------------------------------------- logout

  /** Which steps of a logout succeed; `stuck` are the sections that cannot be deleted. */
  datatype LogoutFaults = LogoutFaults(token: bool, stuck: set<string>, files: bool, catalog: bool)

  /** The section is a drive of this account email. */
  predicate DriveOf(name: string, email: string) {
    Parse(name).Some? && Parse(name).value.email == email
  }

  function Affected(t: Table, email: string): set<string> {
    set n | n in t && DriveOf(n, email)
  }

  lemma {:induction false} PurgeCovered(t: Table, c: Cat.State, email: string)
    requires Covered(t, c) && Cat.Tidy(c) && forall n :: n in t ==> !DriveOf(n, email)
    ensures Cat.Tidy(Cat.PurgeLogout(c, email)) && Covered(t, Cat.PurgeLogout(c, email))
    ensures Cat.Inv(c) ==> Cat.Inv(Cat.PurgeLogout(c, email))
  {
    hide Parse, Print, Cat.PurgeLogout, Cat.AccountByEmail, Cat.Inv, Cat.Tidy;
    Cat.PurgeTidy(c, email);
    if Cat.Inv(c) { Cat.PurgeKeeps(c, email); }
    forall n | n in t ensures DriveSectionOk(Cat.PurgeLogout(c, email), n) {
      assert DriveSectionOk(c, n) && !DriveOf(n, email);
      if Parse(n).Some? { PurgeSpares(c, email, n); }
    }
  }

  /** Purging an email removes no drive of another email. */
  lemma {:induction false} PurgeSpares(c: Cat.State, email: string, n: string)
    requires Cat.Tidy(c) && n in c.drives && !DriveOf(n, email)
    ensures n in Cat.PurgeLogout(c, email).drives
  {
    hide Parse, Print;
    if email != "" && Cat.AccountByEmail(c, email).Some? {
      Cat.PurgeEffect(c, email);
      Cat.AccountFound(c, email);
      assert Cat.TidyDrive(n, c.drives[n]);
    }
  }

  /** The next section to delete: the map of drives is read in some order, of which `order` is the
      beginning, so every order is that of some logout. */
  function NextOf(todo: set<string>, order: seq<string>): (n: string)
    requires todo != {}
    ensures n in todo
    decreases order
  {
    if order == [] then Least(todo) else if order[0] in todo then order[0] else NextOf(todo, order[1..])
  }

  /** The file after the sections were deleted one by one, those that cannot be deleted skipped. */
  function Deleted(c: Content, todo: set<string>, order: seq<string>, stuck: set<string>, template: string): Content
    decreases |todo|
  {
    if todo == {} then c
    else
      var n := NextOf(todo, order);
      Deleted(if n in stuck then c else OnContent(c, DeleteSection(n), template), todo - {n}, order, stuck, template)
  }

  predicate Starts(purge: bool, tokenKey: Option<string>, f: LogoutFaults) {
    if tokenKey.Some? then f.token else purge
  }

  /** The logout gets as far as the catalog write, and that succeeds. */
  predicate LogsOut(w: World, email: string, purge: bool, tokenKey: Option<string>, f: LogoutFaults) {
    && Starts(purge, tokenKey, f) && Affected(MeaningOf(w.config), email) !! f.stuck
    && (purge ==> f.files) && f.catalog
  }

  /** Where a logout leaves the world. */
  function LogoutResult(w: World, email: string, purge: bool, tokenKey: Option<string>, order: seq<string>,
                        template: string, f: LogoutFaults): World
  {
    if !Starts(purge, tokenKey, f) then w
    else World(
      Deleted(w.config, Affected(MeaningOf(w.config), email), order, f.stuck, template),
      if !LogsOut(w, email, purge, tokenKey, f) then w.catalog
      else if purge then Cat.PurgeLogout(w.catalog, email) else Cat.SetAuthReason(w.catalog, email, ""),
      if tokenKey.Some? then w.tokens - {tokenKey.value} else w.tokens)
  }

  lemma {:induction false} DeletedMeaning(w: World, c: Content, todo: set<string>, order: seq<string>,
                                          stuck: set<string>, template: string)
    requires Consistent(w.(config := c)) && Inert(template) && forall n :: n in todo ==> Canonical(n)
    ensures var c' := Deleted(c, todo, order, stuck, template);
      Consistent(w.(config := c')) && MeaningOf(c') == MeaningOf(c) - (todo - stuck)
    decreases |todo|
  {
    hide OnContent, MeaningOf, SoundOf, Cat.Tidy, Canonical, Covered, Inert;
    if todo != {} {
      var n := NextOf(todo, order);
      var next := if n in stuck then c else OnContent(c, DeleteSection(n), template);
      Dropped(w.(config := c), n, template);
      DeletedMeaning(w, next, todo - {n}, order, stuck, template);
      DropSets(MeaningOf(c), todo, stuck, n);
    }
  }

  lemma {:induction false} DropSets(t: Table, todo: set<string>, stuck: set<string>, n: string)
    requires n in todo
    ensures n in stuck ==> todo - {n} - stuck == todo - stuck
    ensures n !in stuck ==> (t - {n}) - (todo - {n} - stuck) == t - (todo - stuck)
  {
  }

  /** A logout deletes exactly the sections it can, in any order, and touches the catalog only when all are gone;
      every configured drive stays in the catalog, whatever fails. */
  lemma {:induction false} LogoutExact(w: World, email: string, purge: bool, tokenKey: Option<string>,
                                       order: seq<string>, template: string, f: LogoutFaults)
    requires Consistent(w) && Inert(template)
    ensures var r := LogoutResult(w, email, purge, tokenKey, order, template, f);
      && Consistent(r) && (Cat.Inv(w.catalog) ==> Cat.Inv(r.catalog))
      && (Starts(purge, tokenKey, f) ==>
         MeaningOf(r.config) == MeaningOf(w.config) - (Affected(MeaningOf(w.config), email) - f.stuck))
      && (LogsOut(w, email, purge, tokenKey, f) ==> Affected(MeaningOf(r.config), email) == {})
  {
    hide MeaningOf, SoundOf, Cat.Inv, Cat.Tidy, Parse, Print, Covered, Inert, Deleted, Cat.PurgeLogout,
      Cat.SetAuthReason, Cat.AccountByEmail, Canonical;
    var t := MeaningOf(w.config);
    forall n | n in Affected(t, email) ensures Canonical(n) { AffectedCanonical(w, email, n); }
    assert w.(config := w.config) == w;
    DeletedMeaning(w, w.config, Affected(t, email), order, f.stuck, template);
    var r := LogoutResult(w, email, purge, tokenKey, order, template, f);
    if LogsOut(w, email, purge, tokenKey, f) {
      var t' := MeaningOf(r.config);
      assert forall n :: n in t' ==> !DriveOf(n, email);
      PurgeCovered(t', w.catalog, email);
      TidyHasAccounts(w.catalog);
      ClearAuth(w.catalog, email);
      CoveredSame(t', t', w.catalog, Cat.SetAuthReason(w.catalog, email, ""));
    }
  }

  lemma {:induction false} TidyHasAccounts(c: Cat.State)
    requires Cat.Tidy(c)
    ensures Cat.TidyAccounts(c)
  {
  }

  /** `executeLogout`; `tokenKey` is the account whose token file was found. */
  method Logout(w: World, email: string, purge: bool, tokenKey: Option<string>, order: seq<string>, template: string,
                f: LogoutFaults)
    returns (r: World, ok: bool)
    ensures r == LogoutResult(w, email, purge, tokenKey, order, template, f)
    ensures ok <==> LogsOut(w, email, purge, tokenKey, f)
  {
    hide OnContent, MeaningOf, Parse, Cat.PurgeLogout, Cat.SetAuthReason, DriveOf;
    var tokens := w.tokens;
    if tokenKey.Some? {
      if !f.token { return w, false; }
      tokens := tokens - {tokenKey.value};
    } else if !purge {
      return w, false;
    }
    r := w.(tokens := tokens);
    var all := Affected(MeaningOf(w.config), email);
    var todo, failed := all, false;
    while todo != {}
      invariant todo <= all && r.tokens == tokens && r.catalog == w.catalog
      invariant Deleted(r.config, todo, order, f.stuck, template) == Deleted(w.config, all, order, f.stuck, template)
      invariant failed <==> !((all - todo) !! f.stuck)
      decreases |todo|
    {
      var n := NextOf(todo, order);
      if n in f.stuck {
        failed := true;
      } else {
        r := r.(config := OnContent(r.config, DeleteSection(n), template));
      }
      todo := todo - {n};
    }
    assert all - todo == all;
    if failed || (purge && !f.files) || !f.catalog {
      return r, false;
    }
    r := r.(catalog := if purge then Cat.PurgeLogout(r.catalog, email) else Cat.SetAuthReason(r.catalog, email, ""));
    return r, true;
  }

  lemma {:induction false} AffectedCanonical(w: World, email: string, n: string)
    requires Consistent(w) && n in Affected(MeaningOf(w.config), email)
    ensures Canonical(n)
  {
    hide MeaningOf, SoundOf, Cat.Tidy, Parse, Print;
    assert DriveSectionOk(w.catalog, n);
  }

  // ---------------------------------------------------------------- what remove and logout leave

  /** A remove deletes the drive's own section and nothing else of the file; a purge that gets to its end prunes the
      drive's record and no other. */
  lemma {:induction false} RemoveEffect(w: World, cid: CanonicalId, purge: bool, template: string, f: RemoveFaults)
    requires Consistent(w) && Parsed(cid) && Inert(template)
    ensures var r, t, key := RemoveResult(w, cid, purge, template, f), MeaningOf(w.config), Print(cid);
      var configured := key in t && !SitelessLibrary(cid);
      var pruned := purge && f.load && f.catalog && if configured then f.write else f.files;
      && (Removes(w, cid, purge, f) <==>
            f.load && if configured then f.write && (purge ==> f.catalog) else purge && f.files && f.catalog)
      && r.tokens == w.tokens && r.catalog.accounts == w.catalog.accounts
      && (configured && f.load && f.write ==> MeaningOf(r.config) == t - {key})
      && (!(configured && f.load && f.write) ==> r.config == w.config)
      && r.catalog.drives - {key} == w.catalog.drives - {key}
      && (!pruned ==> r.catalog == w.catalog)
      && (pruned ==> (key in r.catalog.drives <==> Anchor(w.catalog, key)))
      && (pruned && key in r.catalog.drives && key in w.catalog.drives ==>
            r.catalog.drives[key] == w.catalog.drives[key].(retainedStatePresent := false))
  {
    hide OnContent, MeaningOf, SoundOf, Cat.Tidy, Parse, Print, Covered, Inert, Cat.Prune, Parsed, SitelessLibrary;
    InConfigLoads(MeaningOf(w.config), w.catalog, cid, "");
    Cat.PruneStores(w.catalog, cid);
    PrintParse(cid);
    if f.load && InConfig(MeaningOf(w.config), cid) && f.write { Dropped(w, Print(cid), template); }
  }

  /** The record is a primary drive, by its own flag or its owner's account. */
  predicate Anchor(c: Cat.State, key: string) {
    key in c.drives && (c.drives[key].primaryForAccount
      || (c.drives[key].owner in c.accounts && c.accounts[c.drives[key].owner].primaryDriveCanonical == key))
  }

  /** The account's sections were all deleted and every later step succeeded. */
  ghost predicate Completes(w: World, email: string, purge: bool, tokenKey: Option<string>, f: LogoutFaults) {
    && (if tokenKey.Some? then f.token else purge) && (purge ==> f.files) && f.catalog
    && forall n :: n in MeaningOf(w.config) && n in f.stuck && Parse(n).Some? ==> Parse(n).value.email != email
  }

  /** What a logout leaves in the catalog: a completed purge takes the account that the email stands for and exactly
      the drives it owns; a completed plain logout clears that account's reason and nothing else; any other logout
      changes nothing there. */
  lemma {:induction false} LogoutCatalog(w: World, email: string, purge: bool, tokenKey: Option<string>,
                                         order: seq<string>, template: string, f: LogoutFaults, k: string)
    requires Consistent(w) && Cat.StandsFor(w.catalog, email, k)
    ensures var c, c' := w.catalog, LogoutResult(w, email, purge, tokenKey, order, template, f).catalog;
      if !Completes(w, email, purge, tokenKey, f) then c' == c
      else if purge then
        && c'.accounts == c.accounts - {k}
        && c'.drives == map n | n in c.drives && c.drives[n].owner != k :: c.drives[n]
      else
        && c'.drives == c.drives
        && c'.accounts == c.accounts[k := c.accounts[k].(authReason := "")]
  {
    hide MeaningOf, SoundOf, Cat.Tidy, Parse, Print, Covered, Deleted, Cat.PurgeLogout, Cat.SetAuthReason;
    TidyHasAccounts(w.catalog);
    Cat.PurgeStandsFor(w.catalog, email, k);
    Cat.SetAuthEffect(w.catalog, email, "");
    CompletesIs(w, email, purge, tokenKey, f);
  }

  lemma {:induction false} CompletesIs(w: World, email: string, purge: bool, tokenKey: Option<string>, f: LogoutFaults)
    ensures Completes(w, email, purge, tokenKey, f) <==> LogsOut(w, email, purge, tokenKey, f)
  {
    hide MeaningOf, Parse;
    var all := Affected(MeaningOf(w.config), email);
    assert forall n :: n in all <==> n in MeaningOf(w.config) && Parse(n).Some? && Parse(n).value.email == email;
  }

  /** What it leaves elsewhere: a logout that cannot start leaves the world alone. One that starts takes exactly the
      token it found, and every section of that email that can be deleted; the other sections keep their entries. */
  lemma {:induction false} LogoutEffect(w: World, email: string, purge: bool, tokenKey: Option<string>,
                                        order: seq<string>, template: string, f: LogoutFaults, n: string)
    requires Consistent(w) && Inert(template)
    ensures var r := LogoutResult(w, email, purge, tokenKey, order, template, f);
      var t, t' := MeaningOf(w.config), MeaningOf(r.config);
      if !(if tokenKey.Some? then f.token else purge) then r == w
      else
        && (n in r.tokens <==> n in w.tokens && tokenKey != Some(n))
        && (n in r.tokens && n in w.tokens ==> r.tokens[n] == w.tokens[n])
        && (n in t' <==> n in t && (n in f.stuck || Parse(n).None? || Parse(n).value.email != email))
        && (n in t' && n in t ==> t'[n] == t[n])
  {
    hide MeaningOf, SoundOf, Cat.Inv, Cat.Tidy, Parse, Print, Covered, Inert, Deleted, Cat.PurgeLogout,
      Cat.SetAuthReason;
    LogoutExact(w, email, purge, tokenKey, order, template, f);
  }
}
