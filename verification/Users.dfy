/** A user has at most one account of each type in the catalog: logins bring this about by reconciling first, and
    every command keeps it. */
module Users {
  import opened Text
  import opened CanonicalId
  import opened ConfigEdits
  import opened StringOrder
  import opened Worlds
  import opened ReconcileConfig
  import opened Logins
  import opened Adds
  import opened Removals
  import R = Reconcile
  import Cat = CatalogState
  import DriveAdd
  import SharedAdd

  /** Accounts of the same type with the same user identifier. */
  predicate SameUser(a: Cat.Account, b: Cat.Account) {
    && a.userId != "" && a.userId == b.userId && Parse(a.canonicalId).Some? && Parse(b.canonicalId).Some?
    && TypeName(Parse(a.canonicalId).value) == TypeName(Parse(b.canonicalId).value)
  }

  ghost predicate OnePerUser(c: Cat.State) {
    forall j, k :: j in c.accounts && k in c.accounts && SameUser(c.accounts[j], c.accounts[k]) ==> j == k
  }

  /** So a login finds at most one account to rename. */
  lemma {:induction false} OneOldAccount(c: Cat.State, cid: CanonicalId, userId: string)
    requires OnePerUser(c)
    ensures |OldAccounts(c, cid, userId)| <= 1
  {
    hide Parse, Print;
    var olds := OldAccounts(c, cid, userId);
    if olds != {} {
      var j :| j in olds;
      forall k | k in olds ensures k == j {
        assert SameUser(c.accounts[j], c.accounts[k]);
      }
      assert olds == {j};
    }
  }

  /** Accounts may go, and their other fields may change. */
  lemma {:induction false} FewerAccounts(c: Cat.State, c': Cat.State)
    requires OnePerUser(c)
    requires c'.accounts.Keys <= c.accounts.Keys
    requires forall k :: k in c'.accounts ==>
      c'.accounts[k].canonicalId == c.accounts[k].canonicalId && c'.accounts[k].userId == c.accounts[k].userId
    ensures OnePerUser(c')
  {
    hide Parse;
    forall j, k | j in c'.accounts && k in c'.accounts && SameUser(c'.accounts[j], c'.accounts[k]) ensures j == k {
      assert SameUser(c.accounts[j], c.accounts[k]);
    }
  }

  lemma {:induction false} AuthKeepsUsers(c: Cat.State, email: string, reason: string)
    requires Cat.TidyAccounts(c) && OnePerUser(c)
    ensures OnePerUser(Cat.SetAuthReason(c, email, reason))
  {
    hide Parse, Print, OnePerUser;
    if email != "" && Cat.AccountByEmail(c, email).Some? { Cat.AccountFound(c, email); }
    FewerAccounts(c, Cat.SetAuthReason(c, email, reason));
  }

  /** A login may record its account once no other of that user is left. */
  lemma {:induction false} RecordKeepsUsers(c: Cat.State, i: LoginInfo)
    requires Cat.TidyAccounts(c) && OnePerUser(c) && GoodLogin(i) && OldAccounts(c, i.cid, i.userId) == {}
    ensures OnePerUser(Logins.Recorded(i, c, true))
  {
    hide Parse, Print, Inert, QuoteSafe;
    var c', key := Logins.Recorded(i, c, true), Print(i.cid);
    Cat.PrintedEmail(i.cid);
    forall k | k in c'.accounts && k != key ensures !SameUser(c'.accounts[k], c'.accounts[key]) {
      assert k !in OldAccounts(c, i.cid, i.userId);
      OtherKey(c, k, i.cid);
    }
    forall j, k | j in c'.accounts && k in c'.accounts && SameUser(c'.accounts[j], c'.accounts[k]) ensures j == k {
      if j != key && k != key {
        assert SameUser(c.accounts[j], c.accounts[k]);
      } else if j == key {
        assert SameUser(c'.accounts[k], c'.accounts[key]);
      }
    }
  }

  lemma {:induction false} OtherKey(c: Cat.State, k: string, cid: CanonicalId)
    requires Cat.TidyAccounts(c) && k in c.accounts && Cat.IsAccountId(cid)
    ensures Parse(c.accounts[k].canonicalId).Some? && c.accounts[k].canonicalId == k
    ensures TypeName(Parse(k).value) == TypeName(cid) && Parse(k).value.email == cid.email ==> k == Print(cid)
  {
    hide Parse, Print;
    assert Cat.TidyAccount(k, c.accounts[k]);
  }

  /** A reconciliation that gets to its end leaves no other account of that user. */
  lemma {:induction false} RenameKeepsUsers(w: World, cid: CanonicalId, userId: string)
    requires Cat.TidyAccounts(w.catalog) && OnePerUser(w.catalog) && Parsed(cid) && Cat.IsAccountId(cid)
    requires OldAccount(w.catalog, cid, userId).Some?
    ensures var c' := R.RenamedState(w.catalog, OldAccount(w.catalog, cid, userId).value, cid, cid.email);
      OnePerUser(c') && OldAccounts(c', cid, userId) == {}
  {
    hide Parse, Print, Parsed, R.IsRename;
    var c, olds := w.catalog, OldAccounts(w.catalog, cid, userId);
    var from, key := Least(olds), Print(cid);
    assert from in olds;
    OtherKey(c, from, cid);
    OldIsRename(c, cid, userId);
    assert Cat.TidyAccount(from, c.accounts[from]);
    assert Print(OldAccount(c, cid, userId).value) == from;
    Cat.PrintedEmail(cid);
    var c' := R.RenamedState(c, OldAccount(c, cid, userId).value, cid, cid.email);
    var a' := c'.accounts[key];
    assert a'.userId == userId && a'.canonicalId == key;
    forall k | k in c'.accounts && k != key ensures k in c.accounts && k != from && c'.accounts[k] == c.accounts[k]
      && !SameUser(c.accounts[k], a')
    {
      assert SameUser(c.accounts[k], a') == SameUser(c.accounts[k], c.accounts[from]);
    }
    forall j, k | j in c'.accounts && k in c'.accounts && SameUser(c'.accounts[j], c'.accounts[k]) ensures j == k {
      assert SameUser(c'.accounts[k], c'.accounts[j]);
    }
    forall k | k in c'.accounts ensures k !in OldAccounts(c', cid, userId) {
      assert k != key ==> !SameUser(c'.accounts[k], a');
    }
  }

  /** The reconciliation, however far it gets. */
  lemma {:induction false} ReconcileKeepsUsers(w: World, cid: CanonicalId, userId: string, f: ReconcileFaults)
    requires Consistent(w) && OnePerUser(w.catalog) && Parsed(cid) && Cat.IsAccountId(cid)
    ensures var r, reach := ReconcileResult(w, cid, userId, f), ReachOf(w, cid, userId, f);
      && OnePerUser(r.catalog) && (reach.Nothing? || reach.Both? ==> OldAccounts(r.catalog, cid, userId) == {})
  {
    hide Consistent, OnePerUser, OldAccounts, Parse, Print, R.RenamedState, RenamedContent, SectionRenames, ReachOf,
      MeaningOf, MoveToken, Cat.TidyAccounts;
    ConsistentTidy(w);
    ReachNothing(w, cid, userId, f);
    if OldAccount(w.catalog, cid, userId).Some? {
      RenameKeepsUsers(w, cid, userId);
    } else {
      NoOldAccount(w.catalog, cid, userId);
    }
  }

  lemma {:induction false} NoOldAccount(c: Cat.State, cid: CanonicalId, userId: string)
    requires Cat.TidyAccounts(c) && OldAccount(c, cid, userId).None?
    ensures OldAccounts(c, cid, userId) == {}
  {
    hide Parse;
    var olds := OldAccounts(c, cid, userId);
    assert olds != {} ==> Least(olds) in olds && Cat.TidyAccount(Least(olds), c.accounts[Least(olds)]);
  }

  // ---------------------------------------------------------------- the commands

  lemma {:induction false} LoginKeepsUsers(w: World, i: LoginInfo, f: LoginFaults)
    requires Cat.TidyAccounts(w.catalog) && GoodLogin(i) && OnePerUser(w.catalog)
    requires OldAccounts(w.catalog, i.cid, i.userId) == {}
    ensures OnePerUser(LoginResult(w, i, f).catalog)
  {
    hide OnePerUser, OldAccounts, GoodLogin, Cat.TidyAccounts, Print, Ensure, Written, Undone, Cat.SetAuthReason,
      Cat.RecordLogin, MeaningOf;
    RecordKeepsUsers(w.catalog, i);
    RecordedAccounts(i, w.catalog);
    AuthKeepsUsers(w.catalog, i.cid.email, "");
    AuthKeepsUsers(Logins.Recorded(i, w.catalog, true), i.cid.email, "");
  }

  lemma {:induction false} AddKeepsUsers(w: World, x: DriveAdd.Setup, answer: DriveAdd.Pc -> DriveAdd.Choice)
    requires Consistent(w) && GoodAdd(x) && OnePerUser(w.catalog)
    ensures OnePerUser(AddResult(w, x, answer).catalog)
  {
    hide OnePerUser, AddInv, Consistent, GoodAdd, AddRun, Print, MeaningOf, Cat.OwnerOf;
    AddStarts(w, x, answer);
    AddRunKeeps(w, x, answer, DriveAdd.Init(w.config, w.catalog));
    AddEnds(w, x, answer, AddEnd(w, x, answer));
    FewerAccounts(w.catalog, AddResult(w, x, answer).catalog);
  }

  lemma {:induction false} SharedKeepsUsers(w: World, x: SharedAdd.Setup, answer: SharedAdd.Pc -> SharedAdd.Choice)
    requires Consistent(w) && GoodShared(x) && OnePerUser(w.catalog)
    ensures OnePerUser(SharedResult(w, x, answer).catalog)
  {
    hide OnePerUser, Consistent, GoodShared, SharedRun, Print, MeaningOf, ParentOf, Beside, SharedAdd.Clear,
      DriveAdd.PriorOf;
    var o := ParentOf(w.catalog, x.cid.email);
    if o.Some? {
      var y := x.(owner := o.value);
      SharedParent(x, o.value);
      SharedStarts(w, y);
      SharedRunKeeps(w, y, SharedAdd.Init(w.config, w.catalog), answer);
    }
    FewerAccounts(w.catalog, SharedResult(w, x, answer).catalog);
  }

  lemma {:induction false} RemoveKeepsUsers(w: World, cid: CanonicalId, purge: bool, template: string, f: RemoveFaults)
    requires OnePerUser(w.catalog)
    ensures OnePerUser(RemoveResult(w, cid, purge, template, f).catalog)
  {
    hide OnePerUser, Print, MeaningOf, OnContent, Removes;
    FewerAccounts(w.catalog, RemoveResult(w, cid, purge, template, f).catalog);
  }

  lemma {:induction false} LogoutKeepsUsers(w: World, email: string, purge: bool, tokenKey: Option<string>,
                                            order: seq<string>, template: string, f: LogoutFaults)
    requires Consistent(w) && OnePerUser(w.catalog)
    ensures OnePerUser(LogoutResult(w, email, purge, tokenKey, order, template, f).catalog)
  {
    hide OnePerUser, Consistent, Print, Parse, MeaningOf, Deleted, LogsOut, Cat.SetAuthReason, Cat.AccountByEmail,
      Cat.TidyAccounts, Cat.OwnedKeys;
    ConsistentTidy(w);
    AuthKeepsUsers(w.catalog, email, "");
    FewerAccounts(w.catalog, Cat.PurgeLogout(w.catalog, email));
  }
}
