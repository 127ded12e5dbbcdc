/** `reconcileCatalogEmail` for one renamed account: which catalogs come out valid. */
module Reconcile {
  import opened Text
  import opened CanonicalId
  import opened StringOrder
  import opened CatalogState
  import C = Catalog

  /** The key a drive record ends up under; the loop rewrites every drive, whoever owns it. */
  function Rekey(k: string, email: string): string {
    match Parse(k)
    case None => k
    case Some(c) =>
      match WithEmail(c, email)
      case None => k
      case Some(d) => if d == c then k else Print(d)
  }

  /** The record after the loop body: identifier and owner change, and the type follows the identifier. */
  function Rewritten(d: CatalogDrive, from: string, to: string, email: string): CatalogDrive {
    var k := Rekey(d.canonicalId, email);
    var o := d.(owner := if d.owner == from then to else d.owner);
    if k == d.canonicalId then o
    else o.(canonicalId := k, driveType := if Parse(d.canonicalId).Some? then TypeName(Parse(d.canonicalId).value)
      else "")
  }

  function RenamedAccount(a: Account, from: string, to: CanonicalId, email: string): Account {
    a.(canonicalId := Print(to), email := email, driveType := TypeName(to),
       primaryDriveCanonical := if a.primaryDriveCanonical == from then Print(to) else a.primaryDriveCanonical)
  }

  /** No two drives are rewritten to one key. */
  ghost predicate Injective(drives: map<string, CatalogDrive>, email: string) {
    forall j, k :: j in drives && k in drives && j != k ==> Rekey(j, email) != Rekey(k, email)
  }

  ghost predicate WellKeyed(drives: map<string, CatalogDrive>) {
    forall k :: k in drives ==> drives[k].canonicalId == k && Canonical(k)
  }

  // ---------------------------------------------------------------- rewriting keys

  lemma {:induction false} RekeyCanonical(k: string, email: string)
    requires Canonical(k) && email != "" && NoColon(email)
    ensures Canonical(Rekey(k, email))
    ensures Rekey(k, email) != k ==> (
        && Parse(Rekey(k, email)).value == Readdressed(Parse(k).value, email)
        && TypeName(Parse(Rekey(k, email)).value) == TypeName(Parse(k).value))
    ensures Rekey(Rekey(k, email), email) == Rekey(k, email)
  {
    var c := Parse(k).value;
    ParseParsed(k);
    WithEmailMeaning(c, email);
    if Rekey(k, email) != k {
      var d := Readdressed(c, email);
      PrintParse(d);
      WithEmailMeaning(d, email);
    }
  }

  /** An account key stays exactly when it already carries the email. */
  lemma {:induction false} RekeyAccount(k: string, email: string)
    requires Canonical(k) && IsAccountId(Parse(k).value) && email != "" && NoColon(email)
    ensures Rekey(k, email) == Print(Readdressed(Parse(k).value, email))
    ensures Rekey(k, email) == k <==> Parse(k).value.email == email
  {
    var c := Parse(k).value;
    ParseParsed(k);
    WithEmailMeaning(c, email);
    PrintParse(Readdressed(c, email));
  }

  // ---------------------------------------------------------------- the loop

  /** The record of `w` is the one that ends up under `q`, among the keys `done`: a drive that is moved onto a key
      replaces the one that was there, and of several the last in key order stays. */
  ghost predicate Wins(drives: map<string, CatalogDrive>, done: set<string>, email: string, q: string, w: string) {
    && w in done && w in drives && Rekey(w, email) == q
    && forall k :: k in done && k in drives && Rekey(k, email) == q && k != w ==> w != q && (k == q || Less(k, w))
  }

  ghost predicate Hit(drives: map<string, CatalogDrive>, todo: set<string>, email: string, q: string) {
    exists k :: k in drives && k !in todo && Rekey(k, email) == q
  }

  ghost predicate KeysMoved(before: map<string, CatalogDrive>, now: map<string, CatalogDrive>, todo: set<string>,
                            email: string) {
    forall q :: q in now <==> q in todo || Hit(before, todo, email, q)
  }

  ghost predicate TodoKept(before: map<string, CatalogDrive>, now: map<string, CatalogDrive>, todo: set<string>,
                           email: string) {
    forall q :: q in todo && !Hit(before, todo, email, q) ==> q in before && q in now && now[q] == before[q]
  }

  ghost predicate WinnersStored(before: map<string, CatalogDrive>, now: map<string, CatalogDrive>, todo: set<string>,
                                from: string, to: string, email: string)
  {
    forall q, w :: w in before && Wins(before, before.Keys - todo, email, q, w) ==>
      q in now && now[q] == Rewritten(before[w], from, to, email)
  }

  /** Drives after the keys outside `todo`, which come first, were processed. */
  ghost predicate Progress(before: map<string, CatalogDrive>, now: map<string, CatalogDrive>, todo: set<string>,
                           from: string, to: string, email: string)
  {
    && todo <= before.Keys && (forall j, k :: j in before && j !in todo && k in todo ==> Less(j, k))
    && KeysMoved(before, now, todo, email) && TodoKept(before, now, todo, email)
    && WinnersStored(before, now, todo, from, to, email)
  }

  lemma {:induction false} WinsUnique(drives: map<string, CatalogDrive>, done: set<string>, email: string, q: string,
                                      v: string, w: string)
    requires Wins(drives, done, email, q, v) && Wins(drives, done, email, q, w)
    ensures v == w
  {
    hide Rekey;
    if v != w && Less(v, w) { Asymmetric(v, w); }
  }

  lemma {:induction false} WinnerExists(drives: map<string, CatalogDrive>, todo: set<string>, email: string, q: string)
    returns (w: string)
    requires Hit(drives, todo, email, q)
    ensures Wins(drives, drives.Keys - todo, email, q, w)
  {
    hide Rekey;
    var s := set k | k in drives && k !in todo && Rekey(k, email) == q;
    var j :| j in drives && j !in todo && Rekey(j, email) == q;
    assert j in s;
    if s - {q} == {} {
      w := j;
    } else {
      w := GreatestExists(s - {q});
    }
    forall k | k in drives.Keys - todo && k in drives && Rekey(k, email) == q && k != w
      ensures w != q && (k == q || Less(k, w)) {
      assert k in s;
      assert k != q ==> k in s - {q};
      assert w != q || j in {q};
    }
  }

  lemma {:induction false} HitMore(before: map<string, CatalogDrive>, todo: set<string>, k: string, email: string,
                                   q: string)
    requires k in before && k in todo
    ensures Hit(before, todo - {k}, email, q) <==> Hit(before, todo, email, q) || q == Rekey(k, email)
  {
    hide Rekey;
    if Hit(before, todo, email, q) {
      var j :| j in before && j !in todo && Rekey(j, email) == q;
      assert j !in todo - {k};
    }
    if q == Rekey(k, email) { assert k !in todo - {k}; }
  }

  lemma {:induction false} WinnerHits(before: map<string, CatalogDrive>, todo: set<string>, email: string, q: string,
                                      w: string)
    requires Wins(before, before.Keys - todo, email, q, w)
    ensures Hit(before, todo, email, q) && w in before && w !in todo && Rekey(w, email) == q
  {
    hide Rekey;
  }

  /** With the next key processed, a winner other than it has won before. */
  lemma {:induction false} WonBefore(before: map<string, CatalogDrive>, todo: set<string>, k: string, email: string,
                                     q: string, w: string)
    requires k in todo && w != k && Wins(before, before.Keys - (todo - {k}), email, q, w)
    ensures Wins(before, before.Keys - todo, email, q, w)
    ensures k in before && Rekey(k, email) == q ==> w != q && (k == q || Less(k, w))
  {
    hide Rekey, Less;
    assert before.Keys - todo <= before.Keys - (todo - {k});
    assert k in before ==> k in before.Keys - (todo - {k});
  }

  /** Nothing was moved onto the next key: its own record is rewritten and moved. */
  lemma {:induction false} MoveOne(before: map<string, CatalogDrive>, now: map<string, CatalogDrive>, todo: set<string>,
                                   k: string, r: CatalogDrive, from: string, to: string, email: string)
    requires Progress(before, now, todo, from, to, email) && IsLeast(k, todo) && !Hit(before, todo, email, k)
    requires k in before && r == Rewritten(before[k], from, to, email) && r.canonicalId == Rekey(k, email)
    ensures k in now && now[k] == before[k]
    ensures Progress(before, (now - {k})[r.canonicalId := r], todo - {k}, from, to, email)
  {
    hide Rekey, Rewritten, Hit, Wins, Less;
    var q', rest := Rekey(k, email), todo - {k};
    var next := (now - {k})[q' := r];
    forall q ensures Hit(before, rest, email, q) <==> Hit(before, todo, email, q) || q == q' {
      HitMore(before, todo, k, email, q);
    }
    assert KeysMoved(before, next, rest, email);
    assert TodoKept(before, next, rest, email);
    forall q, w | w in before && Wins(before, before.Keys - rest, email, q, w)
      ensures q in next && next[q] == Rewritten(before[w], from, to, email) {
      if w != k {
        WonBefore(before, todo, k, email, q, w);
        WinnerHits(before, todo, email, q, w);
        if q == q' { Asymmetric(w, k); }
      } else {
        WinnerHits(before, rest, email, q, w);
      }
    }
  }

  /** An earlier drive was moved onto the next key: it stays there, and the key's own record is gone. */
  lemma {:induction false} KeepOne(before: map<string, CatalogDrive>, now: map<string, CatalogDrive>, todo: set<string>,
                                   k: string, from: string, to: string, email: string)
    requires Progress(before, now, todo, from, to, email) && IsLeast(k, todo) && Hit(before, todo, email, k)
    requires Rekey(k, email) == k
    ensures Progress(before, now, todo - {k}, from, to, email)
  {
    hide Rekey, Rewritten, Hit, Wins, Less;
    var rest := todo - {k};
    forall q ensures Hit(before, rest, email, q) <==> Hit(before, todo, email, q) {
      HitMore(before, todo, k, email, q);
    }
    forall q, v | v in before && Wins(before, before.Keys - rest, email, q, v)
      ensures q in now && now[q] == Rewritten(before[v], from, to, email) {
      if v == k { OwnNeverWins(before, todo, k, email, q); }
      WonBefore(before, todo, k, email, q, v);
    }
  }

  lemma {:induction false} OwnNeverWins(before: map<string, CatalogDrive>, todo: set<string>, k: string,
                                        email: string, q: string)
    requires k in todo && Hit(before, todo, email, k) && Rekey(k, email) == k
    ensures !Wins(before, before.Keys - (todo - {k}), email, q, k)
  {
    hide Rekey;
    var j :| j in before && j !in todo && Rekey(j, email) == k;
    assert j in before.Keys - (todo - {k}) && j != k;
  }

  lemma {:induction false} KeptRecord(before: map<string, CatalogDrive>, now: map<string, CatalogDrive>,
    todo: set<string>,
                                      k: string, from: string, to: string, email: string)
    requires WellKeyed(before) && Progress(before, now, todo, from, to, email) && Hit(before, todo, email, k)
    requires email != "" && NoColon(email)
    ensures Rekey(k, email) == k && k in now && now[k].canonicalId == k && Rewritten(now[k], from, to, email) == now[k]
  {
    hide Rekey, Rewritten, Canonical, Less;
    var w := WinnerExists(before, todo, email, k);
    RewrittenTwice(before[w], from, to, email);
  }

  lemma {:induction false} RewrittenTwice(d: CatalogDrive, from: string, to: string, email: string)
    requires Canonical(d.canonicalId) && email != "" && NoColon(email)
    ensures var r := Rewritten(d, from, to, email);
      r.canonicalId == Rekey(d.canonicalId, email) && Rekey(r.canonicalId, email) == r.canonicalId
        && Rewritten(r, from, to, email) == r
  {
    hide Rekey, Parse, Canonical, TypeName, Print, NoColon;
    RekeyCanonical(d.canonicalId, email);
  }

  function AccountsAfter(accounts: map<string, Account>, from: string, to: CanonicalId, email: string)
    : map<string, Account>
  {
    if from in accounts then (accounts - {from})[Print(to) := RenamedAccount(accounts[from], from, to, email)]
      else accounts
  }

  /** What one account rename leaves. */
  ghost predicate Renamed(s: State, s': State, from: CanonicalId, to: CanonicalId, email: string) {
    && s'.accounts == AccountsAfter(s.accounts, Print(from), to, email)
    && Progress(s.drives, s'.drives, {}, Print(from), Print(to), email)
  }

  /** The loop over the sorted drive keys, each read when its turn comes. */
  method ReconcileCatalogEmail(catalog: C.Catalog, from: CanonicalId, to: CanonicalId, email: string)
    requires WellKeyed(catalog.drives) && email != "" && NoColon(email)
    modifies catalog
    ensures Renamed(old(catalog.State()), catalog.State(), from, to, email)
  {
    hide Rekey, Rewritten, Progress, WellKeyed, Canonical, Parse, Print, IsLeast, Hit;
    var fromKey, toKey := Print(from), Print(to);
    RenameAccount(catalog, fromKey, to, email);
    ghost var accounts, before := catalog.accounts, catalog.drives;
    var todo := catalog.drives.Keys;
    NothingProcessed(before, fromKey, toKey, email);
    while todo != {}
      invariant catalog.accounts == accounts
      invariant todo <= before.Keys && Progress(before, catalog.drives, todo, fromKey, toKey, email)
      decreases todo
    {
      SomeLeast(todo);
      var key :| IsLeast(key, todo);
      LeastIn(todo, key);
      KeyOf(before, key);
      ghost var now := catalog.drives;
      if Hit(before, todo, email, key) {
        KeptRecord(before, now, todo, key, fromKey, toKey, email);
        KeepOne(before, now, todo, key, fromKey, toKey, email);
        RewriteInPlace(now, key, now[key]);
      } else {
        RewrittenTwice(before[key], fromKey, toKey, email);
        MoveOne(before, now, todo, key, Rewritten(before[key], fromKey, toKey, email), fromKey, toKey, email);
      }
      todo := todo - {key};
      RewriteDrive(catalog, key, fromKey, toKey, email);
    }
  }

  lemma {:induction false} LeastIn(s: set<string>, k: string)
    requires IsLeast(k, s)
    ensures k in s
  {
  }

  lemma {:induction false} KeyOf(drives: map<string, CatalogDrive>, k: string)
    requires WellKeyed(drives) && k in drives
    ensures drives[k].canonicalId == k && Canonical(k)
  {
  }

  lemma {:induction false} NothingProcessed(drives: map<string, CatalogDrive>, from: string, to: string, email: string)
    ensures Progress(drives, drives, drives.Keys, from, to, email)
  {
    hide Rekey, Rewritten;
  }

  method RenameAccount(catalog: C.Catalog, fromKey: string, to: CanonicalId, email: string)
    modifies catalog
    ensures catalog.drives == old(catalog.drives)
    ensures catalog.accounts == AccountsAfter(old(catalog.accounts), fromKey, to, email)
  {
    if fromKey in catalog.accounts {
      var account := catalog.accounts[fromKey];
      catalog.accounts := catalog.accounts - {fromKey};
      account := account.(canonicalId := Print(to), email := email, driveType := TypeName(to));
      if account.primaryDriveCanonical == fromKey {
        account := account.(primaryDriveCanonical := Print(to));
      }
      catalog.UpsertAccount(account);
    }
  }

  /** The loop body. */
  method RewriteDrive(catalog: C.Catalog, key: string, fromKey: string, toKey: string, email: string)
    requires key in catalog.drives && catalog.drives[key].canonicalId == key && Canonical(key)
    requires email != "" && NoColon(email)
    modifies catalog
    ensures catalog.accounts == old(catalog.accounts)
    ensures var r := Rewritten(old(catalog.drives)[key], fromKey, toKey, email);
      catalog.drives == (old(catalog.drives) - {key})[r.canonicalId := r]
  {
    var drive := catalog.drives[key];
    var cid := Parse(drive.canonicalId).value;
    if drive.owner == fromKey {
      drive := drive.(owner := toKey);
    }
    var updated := WithEmail(cid, email);
    SameKind(key, email);
    hide Parse, Print, WithEmail;
    if updated.None? || updated.value == cid {
      RewriteInPlace(catalog.drives, key, drive);
      catalog.UpsertDrive(drive);
    } else {
      catalog.DeleteDrive(cid);
      drive := drive.(canonicalId := Print(updated.value), driveType := TypeName(updated.value));
      catalog.UpsertDrive(drive);
    }
  }

  lemma {:induction false} RewriteInPlace(m: map<string, CatalogDrive>, k: string, d: CatalogDrive)
    requires k in m && d.canonicalId == k
    ensures (m - {k})[k := d] == m[k := d]
    ensures d == m[k] ==> m[k := d] == m
  {
  }

  /** A changed email changes the printed key and keeps the type. */
  lemma {:induction false} SameKind(k: string, email: string)
    requires Canonical(k) && email != "" && NoColon(email)
    ensures var c, d := Parse(k).value, WithEmail(Parse(k).value, email);
      d.Some? && d.value != c ==> TypeName(d.value) == TypeName(c) && Print(d.value) != k
  {
    var c := Parse(k).value;
    ParseParsed(k);
    WithEmailMeaning(c, email);
    var d := WithEmail(c, email);
    if d.Some? && d.value != c {
      PrintParse(d.value);
    }
  }

  // ---------------------------------------------------------------- validity afterwards

  /** An account identifier and the same with another email. */
  predicate IsRename(from: CanonicalId, to: CanonicalId, email: string) {
    && Parsed(from) && IsAccountId(from) && email != "" && NoColon(email) && email != from.email
    && to == Readdressed(from, email)
  }

  /** The rename of one recorded account of a good catalog. The new identifier may be recorded already. */
  ghost predicate OneRename(s: State, s': State, from: CanonicalId, to: CanonicalId, email: string) {
    Inv(s) && Print(from) in s.accounts && IsRename(from, to, email) && Renamed(s, s', from, to, email)
  }

  lemma {:induction false} RenameApart(from: CanonicalId, to: CanonicalId, email: string)
    requires IsRename(from, to, email)
    ensures Print(from) != Print(to) && Parsed(to) && IsAccountId(to) && to.email == email
    ensures Canonical(Print(to)) && Parse(Print(to)) == Some(to) && Canonical(Print(from))
    ensures Parse(Print(from)) == Some(from)
    ensures Rekey(Print(from), email) == Print(to)
  {
    hide Print, Parse, Rekey;
    ReaddressedParsed(from, email);
    PrintedEmail(from);
    PrintedEmail(to);
    RekeyAccount(Print(from), email);
  }

  lemma {:induction false} RenameKeys(s: State, s': State, from: CanonicalId, to: CanonicalId, email: string)
    requires OneRename(s, s', from, to, email)
    ensures Print(from) != Print(to) && Parsed(to) && Canonical(Print(to)) && Rekey(Print(from), email) == Print(to)
    ensures s'.accounts.Keys == s.accounts.Keys - {Print(from)} + {Print(to)}
    ensures forall b :: b in s.accounts && b != Print(from) && b != Print(to) ==> s'.accounts[b] == s.accounts[b]
  {
    hide Print, Parse, Rekey, Progress, Inv, RenamedAccount;
    RenameApart(from, to, email);
  }

  lemma {:induction false} ReaddressedParsed(c: CanonicalId, email: string)
    requires Parsed(c) && IsAccountId(c) && email != "" && NoColon(email)
    ensures Parsed(Readdressed(c, email)) && IsAccountId(Readdressed(c, email)) && !Unstable(c)
    ensures !Unstable(Readdressed(c, email))
    ensures Readdressed(c, email).email == email
  {
  }

  lemma {:induction false} MovedTo(s: State, s': State, from: CanonicalId, to: CanonicalId, email: string, k: string)
    requires Renamed(s, s', from, to, email) && k in s.drives
    ensures Rekey(k, email) in s'.drives
    ensures Wins(s.drives, s.drives.Keys, email, Rekey(k, email), k) ==>
      s'.drives[Rekey(k, email)] == Rewritten(s.drives[k], Print(from), Print(to), email)
  {
    hide Rekey, Rewritten, Print;
    assert s.drives.Keys - {} == s.drives.Keys;
    assert Hit(s.drives, {}, email, Rekey(k, email));
  }

  /** Every drive afterwards is one drive from before. */
  lemma {:induction false} CameFrom(s: State, s': State, from: CanonicalId, to: CanonicalId, email: string, q: string)
    returns (w: string)
    requires Renamed(s, s', from, to, email) && q in s'.drives
    ensures Wins(s.drives, s.drives.Keys, email, q, w)
    ensures s'.drives[q] == Rewritten(s.drives[w], Print(from), Print(to), email)
  {
    hide Rekey, Rewritten, Print;
    assert s.drives.Keys - {} == s.drives.Keys;
    w := WinnerExists(s.drives, {}, email, q);
  }

  /** Owners are carried over with every drive, whatever else the loop rewrites. */
  lemma {:induction false} OwnersStayValid(s: State, s': State, from: CanonicalId, to: CanonicalId, email: string)
    requires OneRename(s, s', from, to, email)
    ensures OwnersValid(s')
  {
    RenameKeys(s, s', from, to, email);
    hide Parse, Print, Rekey, Renamed, Canonical, Readdressed, Wins;
    forall j | j in s'.drives ensures OwnerOk(s', j) {
      var k := CameFrom(s, s', from, to, email, j);
      Winner(s.drives, email, j, k);
      assert GoodDrive(s, k) && GoodAccount(s, s.drives[k].owner);
      CanonicalOwner(s', j);
    }
  }

  lemma {:induction false} Winner(drives: map<string, CatalogDrive>, email: string, q: string, w: string)
    requires Wins(drives, drives.Keys, email, q, w)
    ensures w in drives && Rekey(w, email) == q
  {
    hide Rekey;
  }

  lemma {:induction false} CanonicalOwner(s: State, k: string)
    requires k in s.drives && s.drives[k].owner in s.accounts && Canonical(s.drives[k].owner)
    ensures OwnerOk(s, k)
  {
    NotEmpty(s.drives[k].owner);
  }

  lemma {:induction false} NotEmpty(k: string)
    requires Canonical(k)
    ensures k != ""
  {
  }

  /** No other drive is moved onto the renamed account's key after its own. */
  ghost predicate Last(s: State, from: string, email: string) {
    forall k :: k in s.drives && Rekey(k, email) == Rekey(from, email) && k != from && k != Rekey(from, email) ==>
      Less(k, from)
  }

  /** No other drive is moved onto this key. */
  ghost predicate Alone(s: State, b: string, email: string) {
    forall k :: k in s.drives && Rekey(k, email) == b ==> k == b
  }

  /** A drive that goes to the renamed account's key and belongs to that account is the account's own drive. */
  lemma {:induction false} OwnKey(s: State, s': State, from: CanonicalId, to: CanonicalId, email: string, w: string)
    requires OneRename(s, s', from, to, email) && w in s.drives && Rekey(w, email) == Print(to)
    requires s.drives[w].owner == Print(from)
    ensures w == Print(from)
  {
    hide Print, Parse, Rekey, Renamed;
    RenameApart(from, to, email);
    assert GoodDrive(s, w);
    RekeyCanonical(w, email);
    assert w != Print(to);
    SameExceptEmail(Parse(w).value, from, email);
  }

  /** A drive of the new account at the new key was there before, and is replaced by the moved one. */
  lemma {:induction false} NewOwnKey(s: State, from: CanonicalId, to: CanonicalId, email: string, w: string)
    requires Inv(s) && IsRename(from, to, email) && Print(from) in s.drives && w in s.drives
    requires s.drives[w].owner == Print(to)
    ensures !Wins(s.drives, s.drives.Keys, email, Print(to), w)
  {
    hide Print, Parse, Rekey, Less;
    RenameApart(from, to, email);
    assert GoodDrive(s, w);
    RekeyKeepsNew(w, email);
  }

  /** The renamed account keeps its primary drive exactly if no drive is moved onto it later. */
  lemma {:induction false} RenamedPrimary(s: State, s': State, from: CanonicalId, to: CanonicalId, email: string)
    requires OneRename(s, s', from, to, email)
    ensures Print(to) in s'.accounts
    ensures PrimaryOk(s', Print(to)) <==>
      s.accounts[Print(from)].primaryDriveCanonical == "" || Last(s, Print(from), email)
  {
    RenameKeys(s, s', from, to, email);
    hide Parse, Print, Rekey, Less;
    assert GoodAccount(s, Print(from));
    if s.accounts[Print(from)].primaryDriveCanonical != "" {
      assert Print(Parse(Print(to)).value) == Print(to);
      MovedTo(s, s', from, to, email, Print(from));
      var w := CameFrom(s, s', from, to, email, Print(to));
      assert GoodDrive(s, w) && GoodDrive(s, Print(from));
      if s.drives[w].owner == Print(from) { OwnKey(s, s', from, to, email, w); }
      if s.drives[w].owner == Print(to) { NewOwnKey(s, from, to, email, w); }
      if Last(s, Print(from), email) {
        assert Wins(s.drives, s.drives.Keys, email, Print(to), Print(from));
        WinsUnique(s.drives, s.drives.Keys, email, Print(to), w, Print(from));
      }
    }
  }

  /** Any other account with a primary drive keeps it exactly when it already carries the new email and no
      drive is moved onto it. */
  lemma {:induction false} OtherPrimary(s: State, s': State, from: CanonicalId, to: CanonicalId, email: string,
                                        b: string)
    requires OneRename(s, s', from, to, email) && b in s.accounts && b != Print(from) && b != Print(to)
    ensures b in s'.accounts
    ensures PrimaryOk(s', b) <==>
      s.accounts[b].primaryDriveCanonical == "" || (s.accounts[b].email == email && Alone(s, b, email))
  {
    RenameKeys(s, s', from, to, email);
    assert GoodAccount(s, b);
    RekeyAccount(b, email);
    if s.accounts[b].primaryDriveCanonical != "" {
      OtherDrive(s, s', from, to, email, b);
      hide Parse, Print, Rekey;
      assert Print(Parse(b).value) == b;
    }
  }

  lemma {:induction false} OtherDrive(s: State, s': State, from: CanonicalId, to: CanonicalId, email: string, b: string)
    requires OneRename(s, s', from, to, email) && b in s.accounts && b != Print(from) && b != Print(to)
    requires b in s.drives && s.drives[b].owner == b
    ensures b in s'.drives && s'.drives[b].owner == b <==> s.accounts[b].email == email && Alone(s, b, email)
  {
    assert GoodAccount(s, b) && GoodDrive(s, b);
    RekeyAccount(b, email);
    hide Print, Rekey, Less;
    if b in s'.drives {
      var w := CameFrom(s, s', from, to, email, b);
      assert GoodDrive(s, w);
      RekeyCanonical(w, email);
      if s.drives[w].owner == b && Parse(w).value.email == email { RekeyKeepsNew(w, email); }
      assert s'.drives[b].owner == if s.drives[w].owner == Print(from) then Print(to) else s.drives[w].owner;
    } else {
      assert s.accounts[b].email == email ==> Hit(s.drives, {}, email, b);
    }
  }

  /** What the primary drives need of the catalog before the rename. */
  ghost predicate PrimariesKept(s: State, from: string, to: string, email: string)
    requires from in s.accounts
  {
    && (s.accounts[from].primaryDriveCanonical == "" || Last(s, from, email))
    && (forall b :: b in s.accounts && b != from && b != to && s.accounts[b].primaryDriveCanonical != "" ==>
          s.accounts[b].email == email && Alone(s, b, email))
  }

  /** Exactly when the primary validator still accepts, for every good catalog: no drive overtakes the renamed
      account's own, and every other account that has a primary drive already carries the new email and no
      drive is moved onto it. The loop rewrites the drives of all accounts, so any other one breaks. */
  lemma {:induction false} PrimariesExact(s: State, s': State, from: CanonicalId, to: CanonicalId, email: string)
    requires OneRename(s, s', from, to, email)
    ensures PrimariesValid(s') <==> PrimariesKept(s, Print(from), Print(to), email)
  {
    hide PrimaryOk, Inv, Renamed, Print, Parse, Last, Alone, Rekey, Readdressed, Parsed, NoColon;
    RenameKeys(s, s', from, to, email);
    RenamedPrimary(s, s', from, to, email);
    forall b | b in s.accounts && b != Print(from) && b != Print(to)
      ensures b in s'.accounts
      ensures PrimaryOk(s', b) <==>
        s.accounts[b].primaryDriveCanonical == "" || (s.accounts[b].email == email && Alone(s, b, email))
    {
      OtherPrimary(s, s', from, to, email, b);
    }
  }

  // ---------------------------------------------------------------- keys, owners and emails afterwards

  /** The drive is moved exactly if its owner is renamed. */
  predicate AgreesAt(s: State, from: string, email: string, w: string)
    requires w in s.drives
  {
    s.drives[w].owner == from <==> Rekey(w, email) != w
  }

  /** Every drive that stays, except the one at this key, is moved exactly if its owner is renamed. */
  ghost predicate AgreesBut(s: State, from: string, email: string, key: string) {
    forall q, w :: q != key && w in s.drives && Wins(s.drives, s.drives.Keys, email, q, w) ==>
      AgreesAt(s, from, email, w)
  }

  ghost predicate AgreesFor(s: State, from: string, email: string, key: string) {
    forall w :: w in s.drives && Wins(s.drives, s.drives.Keys, email, key, w) ==> AgreesAt(s, from, email, w)
  }

  lemma {:induction false} DriveTidyExact(s: State, s': State, from: CanonicalId, to: CanonicalId, email: string,
                                          q: string, w: string)
    requires Tidy(s) && IsRename(from, to, email) && Renamed(s, s', from, to, email)
    requires w in s.drives && Wins(s.drives, s.drives.Keys, email, q, w)
    ensures q in s'.drives && s'.drives[q].canonicalId == q
    ensures TidyDrive(q, s'.drives[q]) <==> AgreesAt(s, Print(from), email, w)
  {
    hide Print, Parse, Rekey, Renamed, Less;
    RenameApart(from, to, email);
    MovedTo(s, s', from, to, email, w);
    assert TidyDrive(w, s.drives[w]);
    RekeyCanonical(w, email);
    if Parse(w).value.email == email { RekeyKeepsNew(w, email); }
    ReaddressedEmail(Parse(w).value, email);
  }

  lemma {:induction false} ReaddressedEmail(c: CanonicalId, email: string)
    ensures Readdressed(c, email).email == email
  {
  }

  lemma {:induction false} AccountsTidy(s: State, s': State, from: CanonicalId, to: CanonicalId, email: string)
    requires TidyAccounts(s) && IsRename(from, to, email) && Renamed(s, s', from, to, email)
    ensures TidyAccounts(s')
  {
    hide Print, Parse, Progress, Rekey;
    RenameApart(from, to, email);
  }

  /** Exactly when the catalog is tidy afterwards but for one drive, and when it is tidy at that drive too. */
  lemma {:induction false} TidyExact(s: State, s': State, from: CanonicalId, to: CanonicalId, email: string,
                                     key: string)
    requires Tidy(s) && IsRename(from, to, email) && Renamed(s, s', from, to, email)
    ensures TidyBut(s', key) <==> AgreesBut(s, Print(from), email, key)
    ensures (key in s'.drives ==> TidyDrive(key, s'.drives[key])) <==> AgreesFor(s, Print(from), email, key)
    ensures key in s'.drives ==> s'.drives[key].canonicalId == key
  {
    hide Print, Parse, Rekey, Renamed, Wins, Canonical, IsRename, AgreesAt, TidyDrive;
    AccountsTidy(s, s', from, to, email);
    forall q, w | w in s.drives && Wins(s.drives, s.drives.Keys, email, q, w)
      ensures q in s'.drives && s'.drives[q].canonicalId == q
      ensures TidyDrive(q, s'.drives[q]) <==> AgreesAt(s, Print(from), email, w)
    {
      DriveTidyExact(s, s', from, to, email, q, w);
    }
    forall q | q in s'.drives ensures exists w :: w in s.drives && Wins(s.drives, s.drives.Keys, email, q, w) {
      var w := CameFrom(s, s', from, to, email, q);
      Winner(s.drives, email, q, w);
    }
  }

  /** The invariant holds afterwards if and only if the catalog is tidy and the primary validator accepts. */
  lemma {:induction false} InvExact(s: State, s': State, from: CanonicalId, to: CanonicalId, email: string)
    requires OneRename(s, s', from, to, email)
    ensures Inv(s') <==> Tidy(s') && PrimariesValid(s')
  {
    hide Parse, Print, Renamed, Rekey, IsRename, OwnersValid;
    if Inv(s') {
      InvTidy(s');
      InvValid(s');
    }
    if Tidy(s') && PrimariesValid(s') {
      OwnersStayValid(s, s', from, to, email);
      forall k | k in s'.accounts ensures GoodAccount(s', k) {
        assert TidyAccount(k, s'.accounts[k]) && PrimaryOk(s', k);
        OwnPrimary(s, s', from, to, email, k);
      }
      forall k | k in s'.drives ensures GoodDrive(s', k) {
        assert TidyDrive(k, s'.drives[k]);
        ValidOwner(s', k);
      }
    }
  }

  lemma {:induction false} ValidOwner(s: State, k: string)
    requires OwnersValid(s) && k in s.drives
    ensures OwnerOk(s, k)
  {
    hide OwnerOk;
  }

  lemma {:induction false} OwnPrimary(s: State, s': State, from: CanonicalId, to: CanonicalId, email: string, k: string)
    requires OneRename(s, s', from, to, email) && k in s'.accounts
    ensures s'.accounts[k].primaryDriveCanonical == "" || s'.accounts[k].primaryDriveCanonical == k
  {
    hide Parse, Print, Rekey, Progress;
    RenameApart(from, to, email);
    assert GoodAccount(s, Print(from));
    if k != Print(to) { assert GoodAccount(s, k); }
  }

  // ---------------------------------------------------------------- the rename as a function

  ghost function WinnerOf(drives: map<string, CatalogDrive>, email: string, q: string): (w: string)
    requires Hit(drives, {}, email, q)
    ensures w in drives && Wins(drives, drives.Keys, email, q, w)
  {
    SomeWinner(drives, email, q);
    var w :| w in drives && Wins(drives, drives.Keys, email, q, w);
    w
  }

  lemma {:induction false} SomeWinner(drives: map<string, CatalogDrive>, email: string, q: string)
    requires Hit(drives, {}, email, q)
    ensures exists w :: w in drives && Wins(drives, drives.Keys, email, q, w)
  {
    hide Rekey, Less;
    var w := WinnerExists(drives, {}, email, q);
    assert drives.Keys - {} == drives.Keys;
  }

  /** The catalog after one account rename. */
  ghost function RenamedState(s: State, from: CanonicalId, to: CanonicalId, email: string): State {
    State(AccountsAfter(s.accounts, Print(from), to, email),
          map q | q in Image(s.drives.Keys, email) ::
            Rewritten(s.drives[WinnerFor(s.drives, email, q)], Print(from), Print(to), email))
  }

  ghost function WinnerFor(drives: map<string, CatalogDrive>, email: string, q: string): (w: string)
    requires q in Image(drives.Keys, email)
    ensures w in drives && Wins(drives, drives.Keys, email, q, w)
  {
    ImageHit(drives, email, q);
    WinnerOf(drives, email, q)
  }

  lemma {:induction false} ImageHit(drives: map<string, CatalogDrive>, email: string, q: string)
    ensures q in Image(drives.Keys, email) <==> Hit(drives, {}, email, q)
  {
    hide Rekey;
    if q in Image(drives.Keys, email) {
      var k :| k in drives.Keys && Rekey(k, email) == q;
      assert k !in {};
    }
  }

  lemma {:induction false} RenamedStateIs(s: State, from: CanonicalId, to: CanonicalId, email: string)
    ensures Renamed(s, RenamedState(s, from, to, email), from, to, email)
  {
    hide Rekey, Rewritten, Print, Less, Image, AccountsAfter, Hit, Wins;
    var r := RenamedState(s, from, to, email);
    assert s.drives.Keys - {} == s.drives.Keys;
    forall q ensures q in Image(s.drives.Keys, email) <==> Hit(s.drives, {}, email, q) { ImageHit(s.drives, email, q); }
    forall q, w | w in s.drives && Wins(s.drives, s.drives.Keys, email, q, w)
      ensures q in r.drives && r.drives[q] == Rewritten(s.drives[w], Print(from), Print(to), email)
    {
      WinnerInImage(s.drives, email, q, w);
      WinsUnique(s.drives, s.drives.Keys, email, q, w, WinnerFor(s.drives, email, q));
    }
  }

  /** It is the only catalog the loop can leave. */
  lemma {:induction false} RenamedIs(s: State, s': State, from: CanonicalId, to: CanonicalId, email: string)
    requires Renamed(s, s', from, to, email)
    ensures s' == RenamedState(s, from, to, email)
  {
    hide Rekey, Rewritten, Print, Less, Image, AccountsAfter, Hit, Wins, Renamed;
    var r := RenamedState(s, from, to, email);
    RenamedFacts(s, s', from, to, email);
    forall q ensures q in s'.drives <==> q in r.drives { ImageHit(s.drives, email, q); }
    forall q | q in s'.drives ensures s'.drives[q] == r.drives[q] {
      var w := CameFrom(s, s', from, to, email, q);
      WinsUnique(s.drives, s.drives.Keys, email, q, w, WinnerFor(s.drives, email, q));
    }
    assert s'.drives == r.drives;
  }

  lemma {:induction false} RenamedFacts(s: State, s': State, from: CanonicalId, to: CanonicalId, email: string)
    requires Renamed(s, s', from, to, email)
    ensures s'.accounts == AccountsAfter(s.accounts, Print(from), to, email)
    ensures forall q :: q in s'.drives <==> Hit(s.drives, {}, email, q)
  {
    hide Rekey, Rewritten, Print, AccountsAfter, Hit, Wins;
  }

  lemma {:induction false} WinnerInImage(drives: map<string, CatalogDrive>, email: string, q: string, w: string)
    requires Wins(drives, drives.Keys, email, q, w)
    ensures q in Image(drives.Keys, email)
  {
    hide Rekey;
  }

  // ---------------------------------------------------------------- how many drives are left

  function Image(ks: set<string>, email: string): set<string> {
    set k | k in ks :: Rekey(k, email)
  }

  lemma {:induction false} ImageStep(ks: set<string>, x: string, email: string)
    requires x in ks
    ensures Image(ks, email) == Image(ks - {x}, email) + {Rekey(x, email)}
  {
    hide Rekey;
    forall q | q in Image(ks, email) ensures q in Image(ks - {x}, email) + {Rekey(x, email)} {
      var k :| k in ks && Rekey(k, email) == q;
      assert k != x ==> k in ks - {x};
    }
  }

  lemma {:induction false} ImageAtMost(ks: set<string>, email: string)
    ensures |Image(ks, email)| <= |ks|
    decreases ks
  {
    hide Rekey;
    if ks == {} {
      assert Image(ks, email) == {};
    } else {
      var x :| x in ks;
      ImageAtMost(ks - {x}, email);
      ImageStep(ks, x, email);
      hide Image;
    }
  }

  lemma {:induction false} ImageSize(ks: set<string>, email: string)
    ensures |Image(ks, email)| == |ks| <==>
      forall j, k :: j in ks && k in ks && j != k ==> Rekey(j, email) != Rekey(k, email)
    decreases ks
  {
    hide Rekey;
    if ks == {} {
      assert Image(ks, email) == {};
    } else {
      var x :| x in ks;
      ImageSize(ks - {x}, email);
      ImageAtMost(ks - {x}, email);
      ImageStep(ks, x, email);
      var rest := Image(ks - {x}, email);
      assert Rekey(x, email) in rest <==> exists k :: k in ks - {x} && Rekey(k, email) == Rekey(x, email);
      if Rekey(x, email) in rest { assert rest + {Rekey(x, email)} == rest; }
    }
  }

  /** No drive is lost if and only if no two drives are rewritten to one key. */
  lemma {:induction false} DriveCountKept(s: State, s': State, from: CanonicalId, to: CanonicalId, email: string)
    requires Renamed(s, s', from, to, email)
    ensures |s'.drives| == |s.drives| <==> Injective(s.drives, email)
    ensures |s'.drives| <= |s.drives|
  {
    ImageSize(s.drives.Keys, email);
    ImageAtMost(s.drives.Keys, email);
    forall q ensures q in s'.drives <==> q in Image(s.drives.Keys, email) {
      if q in s'.drives {
        var k := CameFrom(s, s', from, to, email, q);
        Winner(s.drives, email, q, k);
      }
      if q in Image(s.drives.Keys, email) {
        var k :| k in s.drives.Keys && Rekey(k, email) == q;
        MovedTo(s, s', from, to, email, k);
      }
    }
    hide Rekey, Rewritten, Renamed, Print;
    assert s'.drives.Keys == Image(s.drives.Keys, email);
    assert |s'.drives| == |s'.drives.Keys| && |s.drives| == |s.drives.Keys|;
  }

  /** Each drive that is not replaced keeps every field but identifier, owner and the type that follows the
      identifier. */
  lemma {:induction false} DriveKept(s: State, s': State, from: CanonicalId, to: CanonicalId, email: string, k: string)
    requires Renamed(s, s', from, to, email) && k in s.drives && s.drives[k].canonicalId == k
    ensures Rekey(k, email) in s'.drives
    ensures Wins(s.drives, s.drives.Keys, email, Rekey(k, email), k) ==>
      var d := s'.drives[Rekey(k, email)];
      && d.canonicalId == Rekey(k, email)
      && d.owner == (if s.drives[k].owner == Print(from) then Print(to) else s.drives[k].owner)
      && d.(canonicalId := k, owner := s.drives[k].owner, driveType := s.drives[k].driveType) == s.drives[k]
      && d.driveType == (if Rekey(k, email) != k && Parse(k).Some? then TypeName(Parse(k).value)
                         else s.drives[k].driveType)
  {
    if Parse(k).None? { assert Rekey(k, email) == k; }
    MovedTo(s, s', from, to, email, k);
    hide Rekey, Renamed, Print, Parse, Wins;
  }

  // ---------------------------------------------------------------- a sufficient condition, and a failing input

  /** Every drive is owned by the renamed account or already carries the new email, and the targets are free. */
  ghost predicate OwnDrivesOnly(s: State, from: string, email: string) {
    && (forall k :: k in s.drives ==> s.drives[k].owner == from || (Parse(k).Some? && Parse(k).value.email == email))
    && (forall k :: k in s.drives && Rekey(k, email) != k ==> Rekey(k, email) !in s.drives)
  }

  lemma {:induction false} FreeTargetsInjective(s: State, from: string, email: string)
    requires Inv(s) && email != "" && NoColon(email) && OwnDrivesOnly(s, from, email)
    ensures Injective(s.drives, email)
  {
    hide Rekey, Parse, Print;
    forall j, k | j in s.drives && k in s.drives && j != k ensures Rekey(j, email) != Rekey(k, email) {
      assert GoodDrive(s, j) && GoodDrive(s, k);
      RekeyCanonical(j, email);
      RekeyCanonical(k, email);
      if Parse(j).value.email == email { RekeyKeepsNew(j, email); }
      if Parse(k).value.email == email { RekeyKeepsNew(k, email); }
      if Rekey(j, email) != j && Rekey(k, email) != k && Rekey(j, email) == Rekey(k, email) {
        SameExceptEmail(Parse(j).value, Parse(k).value, email);
      }
    }
  }

  lemma {:induction false} EveryDriveWins(s: State, s': State, from: CanonicalId, to: CanonicalId, email: string,
                                          k: string)
    requires Renamed(s, s', from, to, email) && Injective(s.drives, email) && k in s.drives
    ensures Rekey(k, email) in s'.drives
    ensures s'.drives[Rekey(k, email)] == Rewritten(s.drives[k], Print(from), Print(to), email)
  {
    hide Rekey, Rewritten, Print, Renamed, Less;
    assert Wins(s.drives, s.drives.Keys, email, Rekey(k, email), k);
    MovedTo(s, s', from, to, email, k);
  }

  lemma {:induction false} OthersAreNew(s: State, from: string, email: string, b: string)
    requires Inv(s) && email != "" && NoColon(email) && OwnDrivesOnly(s, from, email)
    requires b in s.accounts && b != from && s.accounts[b].primaryDriveCanonical != ""
    ensures s.accounts[b].email == email && Alone(s, b, email)
  {
    hide Rekey, Parse, Print;
    assert GoodAccount(s, b) && GoodDrive(s, b);
    RekeyKeepsNew(b, email);
  }

  /** Under that condition the rename is safe: both validators accept, no drive is lost and every drive keeps
      its record. */
  lemma {:induction false} SafeRename(s: State, s': State, from: CanonicalId, to: CanonicalId, email: string)
    requires OneRename(s, s', from, to, email) && OwnDrivesOnly(s, Print(from), email)
    ensures OwnersValid(s') && PrimariesValid(s') && |s'.drives| == |s.drives|
    ensures forall k :: k in s.drives ==>
      Rekey(k, email) in s'.drives
        && s'.drives[Rekey(k, email)] == Rewritten(s.drives[k], Print(from), Print(to), email)
  {
    hide OwnersValid, PrimariesValid, Rewritten, Print, Parse, Rekey, Renamed, OwnDrivesOnly, Inv, Injective, Last,
      Alone, Readdressed, Parsed, NoColon;
    OwnersStayValid(s, s', from, to, email);
    FreeTargetsInjective(s, Print(from), email);
    DriveCountKept(s, s', from, to, email);
    PrimariesExact(s, s', from, to, email);
    forall k | k in s.drives
      ensures Rekey(k, email) in s'.drives
      ensures s'.drives[Rekey(k, email)] == Rewritten(s.drives[k], Print(from), Print(to), email)
    {
      EveryDriveWins(s, s', from, to, email, k);
    }
    forall b | b in s.accounts && b != Print(from) && b != Print(to) && s.accounts[b].primaryDriveCanonical != ""
      ensures s.accounts[b].email == email && Alone(s, b, email)
    {
      OthersAreNew(s, Print(from), email, b);
    }
    LastOfOwn(s, Print(from), email);
  }

  lemma {:induction false} LastOfOwn(s: State, from: string, email: string)
    requires Inv(s) && Injective(s.drives, email) && from in s.accounts
    ensures s.accounts[from].primaryDriveCanonical == "" || Last(s, from, email)
  {
    hide Rekey, Parse, Print;
    assert GoodAccount(s, from);
  }

  /** The failing input: two accounts of one type. Renaming the first moves both drives to one key, so one is
      lost, and the validator rejects the catalog. */
  lemma {:induction false} TwoAccountsCollide(a: CanonicalId, b: CanonicalId, to: CanonicalId, email: string,
                                              s0: State, s1: State, s': State, userId: string, name: string,
                                              org: string, driveId: string, now: string)
    requires Parsed(a) && Parsed(b) && a.Personal? && b.Personal? && a.email != b.email && b.email != email
    requires a.email != email
    requires s0 == RecordLogin(EMPTY, a, userId, name, org, driveId, now)
    requires s1 == RecordLogin(s0, b, userId, name, org, driveId, now)
    requires email != "" && NoColon(email) && to == Personal(email) && Renamed(s1, s', a, to, email)
    ensures Inv(s1) && |s'.drives| < |s1.drives| && !PrimariesValid(s')
  {
    hide Print, Parse, Rekey, Renamed, PrimariesValid, RecordLogin, Inv, Last, Alone, Injective;
    EmptyInv();
    LoginKeeps(EMPTY, a, userId, name, org, driveId, now);
    LoginKeeps(s0, b, userId, name, org, driveId, now);
    RenameApart(a, to, email);
    PrintedEmail(b);
    RekeyAccount(Print(b), email);
    NotEmpty(Print(b));
    TwoRecorded(s0, s1, a, b, to, userId, name, org, driveId, now);
    DriveCountKept(s1, s', a, to, email);
    NotInjective(s1.drives, email, Print(a), Print(b));
    PrimariesExact(s1, s', a, to, email);
  }

  lemma {:induction false} EmptyInv()
    ensures Inv(EMPTY)
  {
  }

  lemma {:induction false} NotInjective(drives: map<string, CatalogDrive>, email: string, j: string, k: string)
    requires j in drives && k in drives && j != k && Rekey(j, email) == Rekey(k, email)
    ensures !Injective(drives, email)
  {
    hide Rekey;
  }

  lemma {:induction false} TwoRecorded(s0: State, s1: State, a: CanonicalId, b: CanonicalId, to: CanonicalId,
                                       userId: string, name: string, org: string, driveId: string, now: string)
    requires s0 == RecordLogin(EMPTY, a, userId, name, org, driveId, now)
    requires s1 == RecordLogin(s0, b, userId, name, org, driveId, now)
    requires Print(a) != Print(b) && Print(b) != ""
    ensures Print(a) in s1.accounts && Print(b) in s1.accounts && Print(a) in s1.drives && Print(b) in s1.drives
    ensures s1.accounts[Print(b)].email == b.email && s1.accounts[Print(b)].primaryDriveCanonical != ""
  {
    hide Print, Parse;
  }

  lemma {:induction false} RekeyKeepsNew(k: string, email: string)
    requires Canonical(k) && email != "" && NoColon(email) && Parse(k).value.email == email
    ensures Rekey(k, email) == k
  {
    ParseParsed(k);
    WithEmailMeaning(Parse(k).value, email);
  }

  lemma {:induction false} SameExceptEmail(c: CanonicalId, d: CanonicalId, email: string)
    requires c.email == d.email && Readdressed(c, email) == Readdressed(d, email)
    ensures c == d
  {
  }

  // ---------------------------------------------------------------- what a rename stores

  /** The new key of a drive: its identifier with the new email, except for SharePoint identifiers without site or
      library, which keep theirs. */
  lemma {:induction false} RekeyIs(c: CanonicalId, email: string)
    requires Parsed(c) && !SitelessLibrary(c) && email != "" && NoColon(email)
    ensures Rekey(Print(c), email) ==
      if c.SharePoint? && (c.site == "" || c.library == "") then Print(c) else Print(Readdressed(c, email))
  {
    hide Print, Parse, WithEmail;
    PrintParse(c);
    WithEmailMeaning(c, email);
  }

  /** The renamed account moves to the new identifier with every field but identifier, email, type and, if it was
      itself, primary drive; no other account changes, except one that the new identifier had. */
  lemma {:induction false} AccountKept(s: State, s': State, from: CanonicalId, to: CanonicalId, email: string)
    requires Renamed(s, s', from, to, email) && IsRename(from, to, email) && Print(from) in s.accounts
    ensures var a, k, q := s.accounts[Print(from)], Print(from), Print(to);
      && s'.accounts.Keys == s.accounts.Keys - {k} + {q}
      && s'.accounts - {q} == s.accounts - {k, q}
      && (var b := s'.accounts[q];
          && b.canonicalId == q && b.email == email
          && b.driveType == (if from.Personal? then "personal" else "business")
          && b.primaryDriveCanonical == (if a.primaryDriveCanonical == k then q else a.primaryDriveCanonical)
          && b.userId == a.userId && b.displayName == a.displayName && b.orgName == a.orgName
          && b.primaryDriveId == a.primaryDriveId && b.authReason == a.authReason)
  {
    hide Print, Parse, Rekey, Progress;
    RenameApart(from, to, email);
    assert to.Personal? <==> from.Personal?;
  }
}
