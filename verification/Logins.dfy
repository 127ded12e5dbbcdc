/** `login` from the rollback snapshot on: token, catalog, config, sync directory, and the rollback. */
module Logins {
  import opened Text
  import opened TomlLines
  import opened ConfigDoc
  import opened ConfigText
  import opened ConfigEdits
  import opened DriveConfig
  import opened DriveLookup
  import opened CanonicalId
  import opened StringOrder
  import opened Worlds
  import Cat = CatalogState

  /** Which steps of a login succeed; `write` is the config write, `undo...` the rollback writes. */
  datatype LoginFaults = LoginFaults(
    snapshot: bool, move: bool, record: bool, load: bool, loads: bool, unquotes: bool, write: bool, materialize: bool,
    undoConfig: bool, undoCatalog: bool, undoToken: bool, clear: bool)

  datatype LoginInfo = LoginInfo(
    cid: CanonicalId, userId: string, name: string, org: string, driveId: string, now: string, token: string,
    dir: string, v: Values, template: string)

  ghost predicate GoodLogin(i: LoginInfo) {
    Parsed(i.cid) && Cat.IsAccountId(i.cid) && QuoteSafe(Print(i.cid)) && Inert(i.template)
  }

  /** The two configs decode to the same drives. */
  ghost predicate SameDrives(v: Values, t: Table, u: Table) {
    t.Keys == u.Keys && forall n :: n in t && n in u ==> Decode(v, t[n]) == Decode(v, u[n])
  }

  /** `EnsureDriveInConfig`: the edit it makes, or that it fails. Account drives have one spelling, so they are
      found by printed name (see LoginLookup). */
  datatype Ensured = Failed | NoEdit | Made(edit: Edit)

  function Ensure(i: LoginInfo, config: Content, f: LoginFaults): Ensured {
    var key, t := Print(i.cid), MeaningOf(config);
    if !f.load then Failed
    else if key !in t then (if f.write then Made(Append(key, i.dir)) else Failed)
    else if Str(i.v, t[key], "sync_dir") != "" then NoEdit
    else if !f.loads then Failed
    else if "sync_dir" in t[key] then (if f.unquotes then NoEdit else Failed)
    else if f.write then Made(SetKey(key, "sync_dir", i.dir)) else Failed
  }

  function RestoreCatalog(c: Cat.State, cid: CanonicalId, account: Option<Cat.Account>,
                          drive: Option<Cat.CatalogDrive>): Cat.State {
    var c1 := if account.Some? then Cat.UpsertAccount(c, account.value) else Cat.DeleteAccount(c, cid);
    if drive.Some? then Cat.UpsertDrive(c1, drive.value) else Cat.DeleteDrive(c1, cid)
  }

  /** The config after `EnsureDriveInConfig`, and after the rollback's config edit. */
  function Written(i: LoginInfo, config: Content, f: LoginFaults): Content {
    var e := Ensure(i, config, f);
    if e.Made? then OnContent(config, e.edit, i.template) else config
  }

  function Undone(i: LoginInfo, config: Content, f: LoginFaults): Content {
    var key, t := Print(i.cid), MeaningOf(config);
    if key !in t then OnContent(Written(i, config, f), DeleteSection(key), i.template)
    else if Str(i.v, t[key], "sync_dir") == ""
      then OnContent(Written(i, config, f), DeleteKey(key, "sync_dir"), i.template)
    else Written(i, config, f)
  }

  function Recorded(i: LoginInfo, c: Cat.State, record: bool): Cat.State {
    if record then Cat.RecordLogin(c, i.cid, i.userId, i.name, i.org, i.driveId, i.now) else c
  }

  lemma {:induction false} WrittenMeaning(i: LoginInfo, config: Content, f: LoginFaults)
    requires SoundOf(config) && GoodLogin(i)
    ensures SoundOf(Written(i, config, f))
    ensures var e := Ensure(i, config, f);
      MeaningOf(Written(i, config, f)) == if e.Made? then OnTable(MeaningOf(config), e.edit) else MeaningOf(config)
    ensures Others(MeaningOf(Written(i, config, f)), Print(i.cid)) == Others(MeaningOf(config), Print(i.cid))
    ensures !Ensure(i, config, f).Failed? ==> Print(i.cid) in MeaningOf(Written(i, config, f))
  {
    hide OnContent, MeaningOf, SoundOf, Print, Inert, QuoteSafe, Str, SettableKey, Others, Quote, FormatValue;
    SyncDirSettable();
    var e := Ensure(i, config, f);
    if e.Made? {
      EditRefines(config, e.edit, i.template);
      OthersFollow(MeaningOf(config), MeaningOf(config), e.edit, Print(i.cid));
    }
  }

  /** The records at this key are stored under their own identifier. */
  predicate Keyed(c: Cat.State, key: string) {
    (key in c.drives ==> c.drives[key].canonicalId == key) && (key in c.accounts ==> c.accounts[key].canonicalId == key)
  }

  lemma {:induction false} TidyKeyed(c: Cat.State, key: string)
    requires Cat.TidyBut(c, key)
    ensures Keyed(c, key)
  {
    hide Parse, Print;
    assert key in c.accounts ==> Cat.TidyAccount(key, c.accounts[key]);
  }

  lemma {:induction false} RecordedKeeps(i: LoginInfo, c: Cat.State, record: bool)
    requires Cat.TidyBut(c, Print(i.cid)) && GoodLogin(i)
    ensures Cat.TidyBut(Recorded(i, c, record), Print(i.cid)) && Canonical(Print(i.cid))
    ensures record ==> Cat.Tidy(Recorded(i, c, record))
    ensures Cat.Inv(c) ==> Cat.Inv(Recorded(i, c, record))
    ensures forall n :: n in c.drives ==> n in Recorded(i, c, record).drives
    ensures record ==> Print(i.cid) in Recorded(i, c, record).drives
  {
    hide Parse, Print, Inert, QuoteSafe, Cat.RecordLogin, Cat.Inv, Cat.Tidy, Cat.TidyBut, Canonical;
    Cat.PrintedEmail(i.cid);
    TidyKeyed(c, Print(i.cid));
    if record {
      Cat.LoginTidy(c, i.cid, i.userId, i.name, i.org, i.driveId, i.now);
      Cat.TidyIsBut(Recorded(i, c, true), Print(i.cid));
      if Cat.Inv(c) { Cat.LoginKeeps(c, i.cid, i.userId, i.name, i.org, i.driveId, i.now); }
      RecordedMaps(i, c);
    }
  }

  lemma {:induction false} RecordedMaps(i: LoginInfo, c: Cat.State)
    requires Keyed(c, Print(i.cid))
    ensures var key, r := Print(i.cid), Recorded(i, c, true);
      && key in r.drives && r.drives - {key} == c.drives - {key} && r.accounts - {key} == c.accounts - {key}
      && r.drives.Keys == c.drives.Keys + {key}
  {
    hide Parse, Print;
  }

  /** Restoring the snapshot undoes the recording, whether account and drive were there before or not. */
  lemma {:induction false} RecordedRestores(i: LoginInfo, c: Cat.State, record: bool)
    requires Keyed(c, Print(i.cid))
    ensures RestoreCatalog(Recorded(i, c, record), i.cid, Get(c.accounts, Print(i.cid)),
      Get(c.drives, Print(i.cid))) == c
  {
    hide Parse, Print, Cat.RecordLogin;
    RecordedMaps(i, c);
    var key, r := Print(i.cid), Recorded(i, c, record);
    RestoreMaps(r.accounts, c.accounts, key);
    RestoreMaps(r.drives, c.drives, key);
  }

  lemma {:induction false} RestoreMaps<V>(m: map<string, V>, m0: map<string, V>, k: string)
    requires m - {k} == m0 - {k}
    ensures k in m0 ==> m[k := m0[k]] == m0
    ensures k !in m0 ==> m - {k} == m0
  {
    assert forall n :: n != k ==> (n in m <==> n in m - {k}) && (n in m0 <==> n in m0 - {k});
    assert forall n :: n != k && n in m && n in m0 ==> m[n] == (m - {k})[n] && m0[n] == (m0 - {k})[n];
  }

  lemma {:induction false} DecodeDropped(v: Values, m: map<string, string>, f: string)
    ensures Str(v, m, "sync_dir") == "" ==> Decode(v, m - {"sync_dir"}) == Decode(v, m)
    ensures "sync_dir" !in m ==> m["sync_dir" := f] - {"sync_dir"} == m
  {
  }

  /** Undoing gives back the drives the file decoded to, in every combination of what was there before. */
  lemma {:induction false} UndoneMeaning(i: LoginInfo, config: Content, f: LoginFaults)
    requires SoundOf(config) && GoodLogin(i) && !Ensure(i, config, f).Failed?
    ensures SoundOf(Undone(i, config, f))
    ensures SameDrives(i.v, MeaningOf(Undone(i, config, f)), MeaningOf(config))
  {
    hide OnContent, MeaningOf, SoundOf, Print, Inert, QuoteSafe, Str, Decode, Written, Others, Quote, FormatValue;
    var key, t, written := Print(i.cid), MeaningOf(config), Written(i, config, f);
    WrittenMeaning(i, config, f);
    var e := if key !in t then DeleteSection(key) else DeleteKey(key, "sync_dir");
    EditRefines(written, e, i.template);
    if key !in t {
      UndoAppend(t, key, i.dir);
    } else if Str(i.v, t[key], "sync_dir") == "" {
      DecodeDropped(i.v, t[key], FormatValue(i.dir));
    }
  }

  lemma {:induction false} UndoAppend(t: Table, key: string, dir: string)
    requires key !in t
    ensures OnTable(OnTable(t, Append(key, dir)), DeleteSection(key)) == t
  {
    hide Quote;
  }

  lemma {:induction false} SameDrivesReflexive(v: Values, t: Table)
    ensures SameDrives(v, t, t)
  {
  }

  lemma {:induction false} LoginLookup(i: LoginInfo, t: Table, pick: string)
    requires GoodLogin(i)
    ensures Loaded(t, i.cid, pick) == if Print(i.cid) in t then Some(Print(i.cid)) else None
  {
    hide Print, Parse, Loaded, Unaliased, Inert, QuoteSafe;
    OneSpellingUnaliased(t, i.cid);
    UnaliasedLoads(t, i.cid, pick);
  }

  /** Where a login leaves the world. */
  function LoginResult(w: World, i: LoginInfo, f: LoginFaults): World {
    var key, c := Print(i.cid), Recorded(i, w.catalog, f.record);
    var tokens := w.tokens[key := i.token];
    if !f.snapshot || !f.move then w
    else if Ensure(i, w.config, f).Failed? then World(w.config, c, tokens)
    else if f.materialize
      then World(Written(i, w.config, f), if f.clear then Cat.SetAuthReason(c, i.cid.email, "") else c, tokens)
    else World(if f.undoConfig then Undone(i, w.config, f) else Written(i, w.config, f),
               if f.undoCatalog then w.catalog else c,
               if f.undoToken then w.tokens else tokens)
  }

  /** The login ends with a section for its drive that it may have written. */
  predicate LeavesSection(w: World, i: LoginInfo, f: LoginFaults) {
    f.snapshot && f.move && !Ensure(i, w.config, f).Failed? && (f.materialize || !f.undoConfig)
  }

  /** When a login does not leave its drive configured without a catalog entry: the drive had an entry before,
      or no section is left, or the entry was written and is not rolled back. */
  predicate LoginSafe(w: World, i: LoginInfo, f: LoginFaults) {
    Print(i.cid) in w.catalog.drives || !LeavesSection(w, i, f) || (f.record && (f.materialize || !f.undoCatalog))
  }

  /** The record the login wrote is there at the end. */
  predicate Repairs(w: World, i: LoginInfo, f: LoginFaults) {
    f.snapshot && f.move && f.record && (Ensure(i, w.config, f).Failed? || f.materialize || !f.undoCatalog)
  }

  lemma {:induction false} LoginCatalog(w: World, i: LoginInfo, f: LoginFaults)
    requires Cat.TidyBut(w.catalog, Print(i.cid)) && GoodLogin(i)
    ensures var c := LoginResult(w, i, f).catalog;
      && (Cat.Tidy(c) <==> Repairs(w, i, f) || OwnerTidy(w.catalog, Print(i.cid)))
      && (Cat.Inv(w.catalog) ==> Cat.Inv(c)) && Canonical(Print(i.cid))
      && (forall n :: n in w.catalog.drives ==> n in c.drives)
      && (LeavesSection(w, i, f) ==> (Print(i.cid) in c.drives <==> LoginSafe(w, i, f)))
  {
    hide MeaningOf, SoundOf, Cat.Inv, Cat.Tidy, Parse, Print, GoodLogin, Ensure, Written, Undone, Covered, Canonical,
      Cat.SetAuthReason, Cat.RecordLogin, Cat.TidyAccounts, Cat.TidyDrive;
    RecordedKeeps(i, w.catalog, f.record);
    ClearAuth(Recorded(i, w.catalog, f.record), i.cid.email);
    Cat.TidyIsBut(w.catalog, Print(i.cid));
  }

  lemma {:induction false} LoginConfig(w: World, i: LoginInfo, f: LoginFaults)
    requires SoundOf(w.config) && GoodLogin(i)
    ensures var c := LoginResult(w, i, f).config;
      SoundOf(c) && MeaningOf(c).Keys == MeaningOf(w.config).Keys + if LeavesSection(w, i, f) then {Print(i.cid)}
        else {}
  {
    hide MeaningOf, SoundOf, Print, GoodLogin, Ensure, Written, Undone, Recorded, Cat.SetAuthReason, Decode;
    WrittenMeaning(i, w.config, f);
    if !Ensure(i, w.config, f).Failed? {
      UndoneMeaning(i, w.config, f);
      NamesGrow(MeaningOf(w.config), MeaningOf(Written(i, w.config, f)), Print(i.cid));
    }
  }

  lemma {:induction false} NamesGrow(t: Table, t': Table, key: string)
    requires Others(t', key) == Others(t, key) && key in t'
    ensures t'.Keys == t.Keys + {key}
  {
    forall n ensures n in t' <==> n in t || n == key {
      if n != key { OtherNames(t', t, key, n); }
    }
  }

  /** A login keeps every configured drive in the catalog if and only if it is safe. The record of its own drive
      may have been at odds with its owner before; then the login must also rewrite it. */
  lemma {:induction false} LoginExact(w: World, i: LoginInfo, f: LoginFaults)
    requires ConsistentBut(w, Print(i.cid)) && GoodLogin(i)
    ensures Consistent(LoginResult(w, i, f)) <==>
      LoginSafe(w, i, f) && (Repairs(w, i, f) || OwnerTidy(w.catalog, Print(i.cid)))
    ensures Cat.Inv(w.catalog) ==> Cat.Inv(LoginResult(w, i, f).catalog)
  {
    hide MeaningOf, SoundOf, Cat.Tidy, Cat.TidyBut, Cat.Inv, Print, Parse, GoodLogin, LoginResult, LeavesSection,
      LoginSafe, Repairs, OwnerTidy;
    LoginCatalog(w, i, f);
    LoginConfig(w, i, f);
    var r, key := LoginResult(w, i, f), Print(i.cid);
    if LeavesSection(w, i, f) && !LoginSafe(w, i, f) {
      Stranded(r, key);
    } else {
      forall n | n in MeaningOf(r.config) ensures DriveSectionOk(r.catalog, n) {
        if n in MeaningOf(w.config) { assert DriveSectionOk(w.catalog, n); }
      }
      UnsafeLeaves(w, i, f);
    }
  }

  /** From a consistent world the second condition holds by itself. */
  lemma {:induction false} LoginExactFrom(w: World, i: LoginInfo, f: LoginFaults)
    requires Consistent(w) && GoodLogin(i)
    ensures Consistent(LoginResult(w, i, f)) <==> LoginSafe(w, i, f)
    ensures Cat.Inv(w.catalog) ==> Cat.Inv(LoginResult(w, i, f).catalog)
  {
    hide Consistent, ConsistentBut, OwnerTidy, LoginResult, LoginSafe, Repairs, GoodLogin, Cat.Inv;
    ConsistentIsBut(w, Print(i.cid));
    LoginExact(w, i, f);
  }

  /** What is wrong elsewhere, a login does not mend: a section without entry, or a record at odds with its owner. */
  lemma {:induction false} LoginMendsNothingElse(w: World, i: LoginInfo, f: LoginFaults)
    requires SoundOf(w.config) && Cat.TidyAccounts(w.catalog) && Keyed(w.catalog, Print(i.cid)) && GoodLogin(i)
    requires Consistent(LoginResult(w, i, f))
    requires Print(i.cid) in MeaningOf(w.config) ==> Print(i.cid) in w.catalog.drives
    ensures ConsistentBut(w, Print(i.cid))
  {
    hide MeaningOf, SoundOf, Print, Parse, LoginResult, Cat.TidyDrive, Inert, QuoteSafe, Cat.TidyAccount;
    var r, key := LoginResult(w, i, f), Print(i.cid);
    LoginConfig(w, i, f);
    LoginElsewhere(w, i, f);
    Cat.PrintedEmail(i.cid);
    forall n | n in MeaningOf(w.config) ensures DriveSectionOk(w.catalog, n) {
      assert n in MeaningOf(r.config) && DriveSectionOk(r.catalog, n);
    }
    forall k | k in w.catalog.drives && k != key ensures Cat.TidyDrive(k, w.catalog.drives[k]) {
      assert Cat.TidyDrive(k, r.catalog.drives[k]);
    }
  }

  lemma {:induction false} LoginElsewhere(w: World, i: LoginInfo, f: LoginFaults)
    requires Cat.TidyAccounts(w.catalog) && Keyed(w.catalog, Print(i.cid)) && GoodLogin(i)
    ensures LoginResult(w, i, f).catalog.drives - {Print(i.cid)} == w.catalog.drives - {Print(i.cid)}
    ensures forall k :: k != Print(i.cid) ==>
      (k in w.catalog.drives <==> k in LoginResult(w, i, f).catalog.drives)
      && (k in w.catalog.drives ==> LoginResult(w, i, f).catalog.drives[k] == w.catalog.drives[k])
  {
    hide MeaningOf, Print, Parse, Ensure, Written, Undone, Cat.RecordLogin, Cat.SetAuthReason, Inert, QuoteSafe,
      Canonical;
    RecordedMaps(i, w.catalog);
    RecordedAccounts(i, w.catalog);
    ClearAuth(w.catalog, i.cid.email);
    ClearAuth(Recorded(i, w.catalog, true), i.cid.email);
    var a, b, key := LoginResult(w, i, f).catalog.drives, w.catalog.drives, Print(i.cid);
    forall k | k != key ensures (k in b <==> k in a) && (k in b ==> a[k] == b[k]) {
      assert k in a <==> k in a - {key};
      assert k in b <==> k in b - {key};
      if k in b { assert (a - {key})[k] == a[k] && (b - {key})[k] == b[k]; }
    }
  }

  lemma {:induction false} RecordedAccounts(i: LoginInfo, c: Cat.State)
    requires Cat.TidyAccounts(c) && GoodLogin(i)
    ensures Cat.TidyAccounts(Recorded(i, c, true))
  {
    hide Print, Parse, Inert, QuoteSafe;
    Cat.PrintedEmail(i.cid);
  }

  lemma {:induction false} UnsafeLeaves(w: World, i: LoginInfo, f: LoginFaults)
    ensures !LoginSafe(w, i, f) ==> LeavesSection(w, i, f)
  {
    hide Print, Ensure;
  }

  /** The first failure: the catalog write is lost, everything else succeeds, and the new drive is configured
      without an entry. */
  lemma {:induction false} LostRecordStrands(w: World, i: LoginInfo, f: LoginFaults)
    requires Consistent(w) && GoodLogin(i) && Print(i.cid) !in w.catalog.drives
    requires f.snapshot && f.move && f.load && f.write && f.materialize && !f.record
    ensures !Consistent(LoginResult(w, i, f))
  {
    NewDriveWrites(w, i, f);
    LoginExactFrom(w, i, f);
    hide Consistent, LoginResult, Ensure, Print;
  }

  /** The second: the sync directory fails, the rollback takes the entry back but not the section. */
  lemma {:induction false} HalfRollbackStrands(w: World, i: LoginInfo, f: LoginFaults)
    requires Consistent(w) && GoodLogin(i) && Print(i.cid) !in w.catalog.drives
    requires f.snapshot && f.move && f.load && f.write && f.record && !f.materialize && !f.undoConfig && f.undoCatalog
    ensures !Consistent(LoginResult(w, i, f))
  {
    NewDriveWrites(w, i, f);
    LoginExactFrom(w, i, f);
    hide Consistent, LoginResult, Ensure, Print;
  }

  lemma {:induction false} NewDriveWrites(w: World, i: LoginInfo, f: LoginFaults)
    requires Consistent(w) && GoodLogin(i) && Print(i.cid) !in w.catalog.drives && f.load && f.write
    ensures !Ensure(i, w.config, f).Failed?
  {
    hide MeaningOf, SoundOf, Cat.Tidy, Print, Parse, Str, Inert, QuoteSafe;
    Cat.PrintedEmail(i.cid);
    assert Print(i.cid) in MeaningOf(w.config) ==> DriveSectionOk(w.catalog, Print(i.cid));
  }

  /** The rollback law: a failed sync directory leaves token, catalog and decoded drives as they were. */
  lemma {:induction false} LoginRollsBack(w: World, i: LoginInfo, f: LoginFaults)
    requires SoundOf(w.config) && GoodLogin(i) && !Ensure(i, w.config, f).Failed?
    requires !f.materialize && f.undoConfig && f.undoCatalog && f.undoToken
    ensures var r := LoginResult(w, i, f);
      r.tokens == w.tokens && r.catalog == w.catalog && SameDrives(i.v, MeaningOf(r.config), MeaningOf(w.config))
  {
    hide MeaningOf, SoundOf, GoodLogin, Ensure, Written, Undone, Recorded, SameDrives, Print;
    SameDrivesReflexive(i.v, MeaningOf(w.config));
    UndoneMeaning(i, w.config, f);
  }

  /** A login that succeeds has configured the drive and saved the token, and recorded the login if it could. */
  lemma {:induction false} LoginSucceeds(w: World, i: LoginInfo, f: LoginFaults)
    requires SoundOf(w.config) && GoodLogin(i) && f.snapshot && f.move && !Ensure(i, w.config, f).Failed?
    requires f.materialize
    ensures var r, c := LoginResult(w, i, f), Recorded(i, w.catalog, f.record);
      && Print(i.cid) in MeaningOf(r.config) && r.tokens == w.tokens[Print(i.cid) := i.token]
      && r.catalog == if f.clear then Cat.SetAuthReason(c, i.cid.email, "") else c
  {
    hide MeaningOf, SoundOf, GoodLogin, Ensure, Written, Recorded, Print, Cat.SetAuthReason;
    WrittenMeaning(i, w.config, f);
  }

  /** `runLoginWithContext` from the rollback snapshot on. The drive is looked up by name, which LoginLookup allows. */
  method Login(w: World, i: LoginInfo, f: LoginFaults) returns (r: World, ok: bool)
    requires Keyed(w.catalog, Print(i.cid)) && GoodLogin(i)
    ensures r == LoginResult(w, i, f)
    ensures ok <==> f.snapshot && f.move && !Ensure(i, w.config, f).Failed? && f.materialize
  {
    hide OnContent, MeaningOf, Parse, Print, GoodLogin, Str, Ensure, Cat.RecordLogin, Cat.SetAuthReason, RestoreCatalog;
    if !f.snapshot || !f.move {
      return w, false;
    }
    var key, config, catalog, tokens := Print(i.cid), w.config, w.catalog, w.tokens;
    var hadToken, hadAccount, hadDrive := Get(tokens, key), Get(catalog.accounts, key), Get(catalog.drives, key);
    LoginLookup(i, MeaningOf(config), "");
    var hadSection := Loaded(MeaningOf(config), i.cid, "").Some?;
    var hadSyncDir := hadSection && Str(i.v, MeaningOf(config)[key], "sync_dir") != "";

    tokens := tokens[key := i.token];
    if f.record {
      catalog := Cat.RecordLogin(catalog, i.cid, i.userId, i.name, i.org, i.driveId, i.now);
    }

    var ensured := Ensure(i, config, f);
    if ensured.Failed? {
      return World(config, catalog, tokens), false;
    }
    if ensured.Made? {
      config := OnContent(config, ensured.edit, i.template);
    }
    if f.materialize {
      if f.clear {
        catalog := Cat.SetAuthReason(catalog, i.cid.email, "");
      }
      return World(config, catalog, tokens), true;
    }

    if f.undoConfig {
      if !hadSection {
        config := OnContent(config, DeleteSection(key), i.template);
      } else if !hadSyncDir {
        config := OnContent(config, DeleteKey(key, "sync_dir"), i.template);
      }
    }
    if f.undoCatalog {
      RecordedRestores(i, w.catalog, f.record);
      catalog := RestoreCatalog(catalog, i.cid, hadAccount, hadDrive);
    }
    if f.undoToken {
      tokens := if hadToken.Some? then tokens[key := hadToken.value] else tokens - {key};
      RestoreMaps(w.tokens[key := i.token], w.tokens, key);
    }
    return World(config, catalog, tokens), false;
  }

  // ---------------------------------------------------------------- edits by others during a login

  /** What another process set in this drive's section while the login ran is still there after the rollback
      exactly if the login did not add the section, and did not take the key for its own. */
  lemma {:induction false} RollbackKeepsEdit(i: LoginInfo, t: Table, t1: Table, key: string, k: string, value: string)
    requires key == Print(i.cid)
    requires t1 == if key !in t then OnTable(t, Append(key, i.dir))
                   else if Str(i.v, t[key], "sync_dir") == "" && "sync_dir" !in t[key]
                   then OnTable(t, SetKey(key, "sync_dir", i.dir)) else t
    ensures var t2 := OnTable(t1, SetKey(key, k, value));
      var undone := if key !in t then OnTable(t2, DeleteSection(key))
                    else if Str(i.v, t[key], "sync_dir") == "" then OnTable(t2, DeleteKey(key, "sync_dir"))
                    else t2;
      (key in undone && k in undone[key] && undone[key][k] == FormatValue(value))
      <==> key in t && (k != "sync_dir" || Str(i.v, t[key], "sync_dir") != "")
  {
    hide Print, Quote, FormatValue;
  }

  // ---------------------------------------------------------------- what a login writes

  /** The config step succeeds: it can load; and it can write what is missing, or the directory that is there reads. */
  predicate Configures(i: LoginInfo, t: Table, f: LoginFaults) {
    var key := Print(i.cid);
    && f.load
    && if key !in t then f.write
       else if "sync_dir" !in t[key] then f.loads && f.write
       else i.v.str(t[key]["sync_dir"]) != "" || (f.loads && f.unquotes)
  }

  lemma {:induction false} ConfiguresIs(i: LoginInfo, config: Content, f: LoginFaults)
    ensures Configures(i, MeaningOf(config), f) <==> !Ensure(i, config, f).Failed?
  {
    hide MeaningOf, Print;
  }

  /** After a login that succeeds, a new drive's section holds exactly the quoted sync directory, an old section
      without a directory has gained it, one with a directory is as it was, and so is every other section. */
  lemma {:induction false} LoginWrites(w: World, i: LoginInfo, f: LoginFaults)
    requires SoundOf(w.config) && GoodLogin(i)
    requires f.snapshot && f.move && Configures(i, MeaningOf(w.config), f) && f.materialize
    ensures var r, t, key := LoginResult(w, i, f), MeaningOf(w.config), Print(i.cid);
      && r.tokens == w.tokens[key := i.token]
      && (key !in t ==> MeaningOf(r.config) == t[key := map["sync_dir" := Quote(i.dir)]])
      && (key in t && "sync_dir" !in t[key] ==>
            MeaningOf(r.config) == t[key := t[key]["sync_dir" := FormatValue(i.dir)]])
      && (key in t && "sync_dir" in t[key] ==> r.config == w.config)
  {
    hide OnContent, MeaningOf, SoundOf, Print, GoodLogin, Quote, FormatValue, Cat.SetAuthReason, Recorded;
    ConfiguresIs(i, w.config, f);
    WrittenMeaning(i, w.config, f);
  }

  /** When the sync directory fails, each of the three stores is restored exactly if its own undo succeeds. */
  lemma {:induction false} LoginRestores(w: World, i: LoginInfo, f: LoginFaults)
    requires SoundOf(w.config) && GoodLogin(i)
    requires f.snapshot && f.move && Configures(i, MeaningOf(w.config), f) && !f.materialize
    ensures var r, key := LoginResult(w, i, f), Print(i.cid);
      && r.tokens == (if f.undoToken then w.tokens else w.tokens[key := i.token])
      && r.catalog == (if f.undoCatalog || !f.record then w.catalog
                       else Cat.RecordLogin(w.catalog, i.cid, i.userId, i.name, i.org, i.driveId, i.now))
      && (f.undoConfig ==> SameDrives(i.v, MeaningOf(r.config), MeaningOf(w.config)))
      && (!f.undoConfig ==> key in MeaningOf(r.config) && "sync_dir" in MeaningOf(r.config)[key])
  {
    hide OnContent, MeaningOf, SoundOf, Print, GoodLogin, Quote, FormatValue, Cat.RecordLogin, SameDrives, Undone;
    ConfiguresIs(i, w.config, f);
    WrittenMeaning(i, w.config, f);
    UndoneMeaning(i, w.config, f);
  }

  /** A login that clears the auth requirement leaves the account that the email stands for without one. */
  lemma {:induction false} LoginClears(w: World, i: LoginInfo, f: LoginFaults, k: string)
    requires Cat.TidyAccounts(w.catalog) && GoodLogin(i) && f.snapshot && f.move && f.materialize && f.clear
    requires Configures(i, MeaningOf(w.config), f) && Cat.StandsFor(Recorded(i, w.catalog, f.record), i.cid.email, k)
    ensures var c := LoginResult(w, i, f).catalog; k in c.accounts && c.accounts[k].authReason == ""
  {
    hide MeaningOf, Print, Parse, GoodLogin, Configures, Ensure, Written, Undone, Cat.SetAuthReason, Cat.RecordLogin,
      Cat.TidyAccounts;
    ConfiguresIs(i, w.config, f);
    RecordedAccounts(i, w.catalog);
    Cat.SetAuthEffect(Recorded(i, w.catalog, f.record), i.cid.email, "");
  }

  /** A login that fails before the sync directory: nothing is changed if the snapshot or the token fails, and the
      config is unchanged if the config step fails. */
  lemma {:induction false} LoginStops(w: World, i: LoginInfo, f: LoginFaults)
    ensures !f.snapshot || !f.move ==> LoginResult(w, i, f) == w
    ensures f.snapshot && f.move && !Configures(i, MeaningOf(w.config), f) ==>
      var r := LoginResult(w, i, f);
      && r.config == w.config && r.tokens == w.tokens[Print(i.cid) := i.token]
      && r.catalog == if f.record then Cat.RecordLogin(w.catalog, i.cid, i.userId, i.name, i.org, i.driveId, i.now)
           else w.catalog
  {
    hide MeaningOf, Print, Configures, Ensure, Cat.RecordLogin;
    ConfiguresIs(i, w.config, f);
  }
}
