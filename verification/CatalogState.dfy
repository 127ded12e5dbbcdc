/** The account and drive catalog as a value: what each lifecycle operation does to it, the validators,
    and the invariant that every run of operations keeps. */
module CatalogState {
  import opened Text
  import opened CanonicalId
  import opened StringOrder

  datatype Account = Account(
    canonicalId: string, email: string, driveType: string, userId: string, displayName: string,
    orgName: string, primaryDriveId: string, primaryDriveCanonical: string, authReason: string)

  datatype CatalogDrive = CatalogDrive(
    canonicalId: string, owner: string, driveType: string, displayName: string, siteName: string,
    libraryName: string, sharedOwnerName: string, sharedOwnerEmail: string, cachedAt: string,
    primaryForAccount: bool, retainedStatePresent: bool, remoteDriveId: string, siteId: string)

  datatype State = State(accounts: map<string, Account>, drives: map<string, CatalogDrive>)

  const EMPTY := State(map[], map[])

  function UpsertAccount(s: State, a: Account): State {
    s.(accounts := s.accounts[a.canonicalId := a])
  }

  function UpsertDrive(s: State, d: CatalogDrive): State {
    s.(drives := s.drives[d.canonicalId := d])
  }

  function DeleteAccount(s: State, c: CanonicalId): State {
    s.(accounts := s.accounts - {Print(c)})
  }

  function DeleteDrive(s: State, c: CanonicalId): State {
    s.(drives := s.drives - {Print(c)})
  }

  // ---------------------------------------------------------------- lifecycle

  /** `accountCIDForDrive`. */
  function OwnerOf(c: CanonicalId): Option<CanonicalId> {
    match c
    case Personal(_) => Some(c)
    case Business(_) => Some(c)
    case SharePoint(email, _, _) => Parse("business" + ":" + email)
    case Shared(_, _, _) => None
  }

  /** `DefaultDisplayName`. */
  function DefaultDisplayName(c: CanonicalId): string {
    if c.SharePoint? && c.site != "" && c.library != "" then c.site + " / " + c.library
    else if c.Shared? then "Shared from " + c.email
    else c.email
  }

  function OrDefault(name: string, c: CanonicalId): string {
    if name != "" then name else DefaultDisplayName(c)
  }

  function NewDrive(c: CanonicalId, owner: string, name: string): CatalogDrive {
    CatalogDrive(Print(c), owner, TypeName(c), name, "", "", "", "", "", false, false, "", "")
  }

  /** The account record `RecordLogin` writes. */
  function LoginAccount(s: State, c: CanonicalId, userId: string, name: string, org: string, driveId: string): Account {
    Account(Print(c), c.email, TypeName(c), userId, name, org, driveId, Print(c),
            if Print(c) in s.accounts then s.accounts[Print(c)].authReason else "")
  }

  /** The primary-drive record `RecordLogin` writes. */
  function LoginDrive(s: State, c: CanonicalId, driveId: string, now: string): CatalogDrive {
    if Print(c) in s.drives then
      var d := s.drives[Print(c)];
      d.(owner := Print(c), driveType := TypeName(c), primaryForAccount := true, remoteDriveId := driveId,
         cachedAt := now, displayName := OrDefault(d.displayName, c))
    else
      NewDrive(c, Print(c), DefaultDisplayName(c)).(primaryForAccount := true, remoteDriveId := driveId,
        cachedAt := now)
  }

  function RecordLogin(s: State, c: CanonicalId, userId: string, name: string, org: string, driveId: string,
                       now: string): State {
    UpsertDrive(UpsertAccount(s, LoginAccount(s, c, userId, name, org, driveId)), LoginDrive(s, c, driveId, now))
  }

  /** `None` is the error for a drive without a resolvable owner. */
  function RegisterDrive(s: State, c: CanonicalId, name: string): Option<State> {
    match OwnerOf(c)
    case None => None
    case Some(o) =>
      Some(UpsertDrive(s,
        if Print(c) in s.drives then
          var d := s.drives[Print(c)];
          d.(owner := Print(o), driveType := TypeName(c),
             displayName := if d.displayName == "" then OrDefault(name, c) else d.displayName)
        else NewDrive(c, Print(o), OrDefault(name, c))))
  }

  function RegisterSharedDrive(s: State, c: CanonicalId, owner: CanonicalId, name: string): State {
    UpsertDrive(s,
      if Print(c) in s.drives then
        var d := s.drives[Print(c)];
        d.(owner := Print(owner), driveType := TypeName(c),
           displayName := if name != "" then name else if d.displayName == "" then DefaultDisplayName(c)
             else d.displayName)
      else NewDrive(c, Print(owner), OrDefault(name, c)))
  }

  function WithEmailKeys(s: State, email: string): set<string> {
    set k | k in s.accounts && s.accounts[k].email == email
  }

  /** `AccountByEmail`: the first match in key order. */
  function AccountByEmail(s: State, email: string): Option<Account> {
    if WithEmailKeys(s, email) == {} then None else Some(s.accounts[Least(WithEmailKeys(s, email))])
  }

  /** `MarkAccountAuthRequired`, `ClearAccountAuthRequirement` and `ApplyPlainLogout` (with reason ""). */
  function SetAuthReason(s: State, email: string, reason: string): State {
    if email == "" then s
    else match AccountByEmail(s, email)
      case None => s
      case Some(a) => UpsertAccount(s, a.(authReason := reason))
  }

  /** The keys `ApplyPurgeLogout` deletes for an account: those that owned records parse and print to. */
  function OwnedKeys(s: State, owner: string): set<string> {
    set k | k in s.drives && s.drives[k].owner == owner && Parse(s.drives[k].canonicalId).Some?
      :: Print(Parse(s.drives[k].canonicalId).value)
  }

  function PurgeLogout(s: State, email: string): State {
    if email == "" then s
    else match AccountByEmail(s, email)
      case None => s
      case Some(a) =>
        match Parse(a.canonicalId)
        case None => s
        case Some(c) => State(s.accounts - {Print(c)}, s.drives - OwnedKeys(s, Print(c)))
  }

  function OwnsPrimary(s: State, owner: CanonicalId, c: CanonicalId): bool {
    Print(owner) in s.accounts && s.accounts[Print(owner)].primaryDriveCanonical == Print(c)
  }

  function Prune(s: State, c: CanonicalId): State {
    if Print(c) !in s.drives then s
    else
      var d := s.drives[Print(c)].(retainedStatePresent := false);
      var o := Parse(d.owner);
      if d.primaryForAccount || (o.Some? && OwnsPrimary(s, o.value, c)) then UpsertDrive(s, d) else DeleteDrive(s, c)
  }

  // ---------------------------------------------------------------- validators

  /** `validateCatalogDriveOwners` accepts this drive. */
  predicate OwnerOk(s: State, k: string)
    requires k in s.drives
  {
    var o := s.drives[k].owner;
    o != "" && Parse(o).Some? && Print(Parse(o).value) in s.accounts
  }

  /** `validatePrimaryDriveOwnership` accepts this account. */
  predicate PrimaryOk(s: State, k: string)
    requires k in s.accounts
  {
    var p := s.accounts[k].primaryDriveCanonical;
    p == "" || (Parse(p).Some? && var q := Print(Parse(p).value);
                q in s.drives && s.drives[q].owner == s.accounts[k].canonicalId)
  }

  ghost predicate OwnersValid(s: State) {
    forall k :: k in s.drives ==> OwnerOk(s, k)
  }

  ghost predicate PrimariesValid(s: State) {
    forall k :: k in s.accounts ==> PrimaryOk(s, k)
  }

  // ---------------------------------------------------------------- the invariant

  predicate IsAccountId(c: CanonicalId) {
    c.Personal? || c.Business?
  }

  /** Key, identifier and email of an account agree. */
  predicate TidyAccount(k: string, a: Account) {
    Canonical(k) && IsAccountId(Parse(k).value) && a.canonicalId == k && a.email == Parse(k).value.email
  }

  /** Key and identifier of a drive agree, and its owner is an account identifier of the same email. */
  predicate TidyDrive(k: string, d: CatalogDrive) {
    && Canonical(k) && d.canonicalId == k
    && Canonical(d.owner) && IsAccountId(Parse(d.owner).value) && Parse(d.owner).value.email == Parse(k).value.email
  }

  /** What every run keeps, whether owners are recorded or not. */
  ghost predicate Tidy(s: State) {
    TidyAccounts(s) && (forall k :: k in s.drives ==> TidyDrive(k, s.drives[k]))
  }

  ghost predicate TidyAccounts(s: State) {
    forall k :: k in s.accounts ==> TidyAccount(k, s.accounts[k])
  }

  /** Tidy but for the owner of one drive. */
  ghost predicate TidyBut(s: State, key: string) {
    && TidyAccounts(s) && (key in s.drives ==> s.drives[key].canonicalId == key)
    && (forall k :: k in s.drives && k != key ==> TidyDrive(k, s.drives[k]))
  }

  lemma {:induction false} TidyIsBut(s: State, key: string)
    ensures Tidy(s) <==> TidyBut(s, key) && (key in s.drives ==> TidyDrive(key, s.drives[key]))
  {
    hide Canonical, Parse, TidyAccounts;
    if Tidy(s) && key in s.drives { assert TidyDrive(key, s.drives[key]); }
  }

  /** A tidy account whose primary drive is itself or unset. */
  predicate GoodAccount(s: State, k: string)
    requires k in s.accounts
  {
    var a := s.accounts[k];
    && TidyAccount(k, a)
    && (a.primaryDriveCanonical == "" || (a.primaryDriveCanonical == k && k in s.drives && s.drives[k].owner == k))
  }

  /** A tidy drive whose owner is recorded. */
  predicate GoodDrive(s: State, k: string)
    requires k in s.drives
  {
    TidyDrive(k, s.drives[k]) && s.drives[k].owner in s.accounts
  }

  ghost predicate Inv(s: State) {
    (forall k :: k in s.accounts ==> GoodAccount(s, k)) && (forall k :: k in s.drives ==> GoodDrive(s, k))
  }

  lemma {:induction false} InvTidy(s: State)
    requires Inv(s)
    ensures Tidy(s)
  {
    hide Parse, Print;
    forall k | k in s.accounts ensures TidyAccount(k, s.accounts[k]) {
      assert GoodAccount(s, k);
    }
    forall k | k in s.drives ensures TidyDrive(k, s.drives[k]) {
      assert GoodDrive(s, k);
    }
  }

  /** The invariant is stronger than both validators. */
  lemma {:induction false} InvValid(s: State)
    requires Inv(s)
    ensures OwnersValid(s) && PrimariesValid(s)
  {
    forall k | k in s.drives ensures OwnerOk(s, k) {
      assert GoodDrive(s, k) && GoodAccount(s, s.drives[k].owner);
      assert !Canonical("");
    }
    forall k | k in s.accounts ensures PrimaryOk(s, k) {
      assert GoodAccount(s, k);
    }
  }

  // ---------------------------------------------------------------- operations and runs

  datatype Op =
    | Login(cid: CanonicalId, userId: string, name: string, org: string, driveId: string, now: string)
    | Register(cid: CanonicalId, name: string)
    | RegisterShared(cid: CanonicalId, owner: CanonicalId, name: string)
    | MarkAuth(email: string, reason: string)
    | ClearAuth(email: string)
    | PlainLogout(email: string)
    | Purge(email: string)
    | PruneDrive(cid: CanonicalId)

  /** What callers guarantee: logins are for accounts, registered drives have a recorded owner, and
      identifiers are canonical once printed. */
  predicate Allowed(s: State, op: Op) {
    match op
    case Login(c, _, _, _, _, _) => Parsed(c) && IsAccountId(c)
    case Register(c, _) => Parsed(c) && !Unstable(c) && (OwnerOf(c).Some? ==> Print(OwnerOf(c).value) in s.accounts)
    case RegisterShared(c, o, _) =>
      Parsed(c) && c.Shared? && Print(o) in s.accounts && s.accounts[Print(o)].email == c.email
    case _ => true
  }

  function Apply(s: State, op: Op): State {
    match op
    case Login(c, userId, name, org, driveId, now) => RecordLogin(s, c, userId, name, org, driveId, now)
    case Register(c, name) => (match RegisterDrive(s, c, name) case Some(s') => s' case None => s)
    case RegisterShared(c, o, name) => RegisterSharedDrive(s, c, o, name)
    case MarkAuth(email, reason) => SetAuthReason(s, email, reason)
    case ClearAuth(email) => SetAuthReason(s, email, "")
    case PlainLogout(email) => SetAuthReason(s, email, "")
    case Purge(email) => PurgeLogout(s, email)
    case PruneDrive(c) => Prune(s, c)
  }

  ghost predicate AllowedRun(s: State, ops: seq<Op>)
    decreases ops
  {
    ops == [] || (Allowed(s, ops[0]) && AllowedRun(Apply(s, ops[0]), ops[1..]))
  }

  function Run(s: State, ops: seq<Op>): State
    decreases ops
  {
    if ops == [] then s else Run(Apply(s, ops[0]), ops[1..])
  }

  lemma {:induction false} PrintedEmail(c: CanonicalId)
    requires Parsed(c) && !Unstable(c)
    ensures Canonical(Print(c)) && Parse(Print(c)).value.email == c.email
    ensures IsAccountId(c) ==> Parse(Print(c)).value == c
    ensures !IsAccountId(c) ==> !IsAccountId(Parse(Print(c)).value)
  {
    PrintCanonical(c);
    PrintParse(c);
    if SitelessLibrary(c) { SitelessParse(c); }
  }

  lemma {:induction false} OwnerEmail(c: CanonicalId)
    requires Parsed(c) && OwnerOf(c).Some?
    ensures var o := OwnerOf(c).value;
      Parsed(o) && IsAccountId(o) && o.email == c.email && (IsAccountId(c) ==> o == c)
  {
    if c.SharePoint? { ConstructAccount("business", c.email); }
  }

  lemma {:induction false} LoginKeeps(s: State, c: CanonicalId, userId: string, name: string, org: string,
                                      driveId: string, now: string)
    requires Inv(s) && Parsed(c) && IsAccountId(c)
    ensures Inv(RecordLogin(s, c, userId, name, org, driveId, now))
  {
    hide Parse, Print;
    PrintedEmail(c);
    var s' := RecordLogin(s, c, userId, name, org, driveId, now);
    var key := Print(c);
    assert key in s.drives ==> GoodDrive(s, key);
    forall k | k in s'.accounts ensures GoodAccount(s', k) {
      if k != key { assert GoodAccount(s, k); }
    }
    forall k | k in s'.drives ensures GoodDrive(s', k) {
      if k != key { assert GoodDrive(s, k) && GoodAccount(s, s.drives[k].owner); }
    }
  }

  /** Writing one drive record keeps the invariant when the record is good and no primary changes owner. */
  lemma {:induction false} UpsertDriveKeeps(s: State, d: CatalogDrive)
    requires Inv(s) && TidyDrive(d.canonicalId, d) && d.owner in s.accounts
    requires d.canonicalId in s.accounts ==> d.owner == d.canonicalId
    ensures Inv(UpsertDrive(s, d))
  {
    hide Parse, Print;
    var s' := UpsertDrive(s, d);
    forall k | k in s'.accounts ensures GoodAccount(s', k) {
      assert GoodAccount(s, k);
    }
    forall k | k in s'.drives ensures GoodDrive(s', k) {
      if k != d.canonicalId { assert GoodDrive(s, k); }
    }
  }

  lemma {:induction false} RegisterKeeps(s: State, c: CanonicalId, name: string)
    requires Inv(s) && Parsed(c) && !Unstable(c) && OwnerOf(c).Some? && Print(OwnerOf(c).value) in s.accounts
    ensures Inv(RegisterDrive(s, c, name).value)
  {
    PrintedEmail(c);
    OwnerEmail(c);
    var o := OwnerOf(c).value;
    PrintedEmail(o);
    assert GoodAccount(s, Print(o));
    assert Print(c) in s.drives ==> GoodDrive(s, Print(c));
    assert Print(c) in s.accounts ==> GoodAccount(s, Print(c));
    UpsertDriveKeeps(s, RegisterDrive(s, c, name).value.drives[Print(c)]);
  }

  lemma {:induction false} RegisterSharedKeeps(s: State, c: CanonicalId, o: CanonicalId, name: string)
    requires Inv(s) && Parsed(c) && c.Shared? && Print(o) in s.accounts && s.accounts[Print(o)].email == c.email
    ensures Inv(RegisterSharedDrive(s, c, o, name))
  {
    PrintedEmail(c);
    assert Print(c) in s.drives ==> GoodDrive(s, Print(c));
    assert Print(c) in s.accounts ==> GoodAccount(s, Print(c));
    UpsertDriveKeeps(s, RegisterSharedDrive(s, c, o, name).drives[Print(c)]);
  }

  lemma {:induction false} AccountFound(s: State, email: string)
    requires AccountByEmail(s, email).Some? && TidyAccounts(s)
    ensures var a := AccountByEmail(s, email).value;
      a.canonicalId in s.accounts && s.accounts[a.canonicalId] == a && a.email == email && TidyAccount(a.canonicalId, a)
  {
    hide Parse, Print;
    var k := Least(WithEmailKeys(s, email));
    assert k in WithEmailKeys(s, email) && TidyAccount(k, s.accounts[k]);
  }

  lemma {:induction false} SetAuthKeeps(s: State, email: string, reason: string)
    requires Inv(s)
    ensures Inv(SetAuthReason(s, email, reason))
  {
    hide Parse, Print;
    var s' := SetAuthReason(s, email, reason);
    if s' != s {
      InvTidy(s);
      AccountFound(s, email);
      forall k | k in s'.accounts ensures GoodAccount(s', k) {
        assert GoodAccount(s, k);
      }
      forall k | k in s'.drives ensures GoodDrive(s', k) {
        assert GoodDrive(s, k);
      }
    }
  }

  /** In a tidy catalog purging removes exactly the drives the account owns. */
  lemma {:induction false} OwnedExactly(s: State, owner: string, k: string)
    requires Tidy(s)
    ensures k in OwnedKeys(s, owner) <==> k in s.drives && s.drives[k].owner == owner
  {
    hide Parse, Print;
    if k in OwnedKeys(s, owner) {
      var j :| j in s.drives && s.drives[j].owner == owner && Parse(s.drives[j].canonicalId).Some?
        && Print(Parse(s.drives[j].canonicalId).value) == k;
      assert TidyDrive(j, s.drives[j]);
    }
    if k in s.drives && s.drives[k].owner == owner {
      assert TidyDrive(k, s.drives[k]);
    }
  }

  lemma {:induction false} PurgeEffect(s: State, email: string)
    requires Tidy(s) && email != "" && AccountByEmail(s, email).Some?
    ensures var key, s' := AccountByEmail(s, email).value.canonicalId, PurgeLogout(s, email);
      && s'.accounts == s.accounts - {key}
      && s'.drives == map k | k in s.drives && s.drives[k].owner != key :: s.drives[k]
  {
    hide Parse, Print;
    AccountFound(s, email);
    var key := AccountByEmail(s, email).value.canonicalId;
    assert Print(Parse(key).value) == key;
    forall k ensures k in OwnedKeys(s, key) <==> k in s.drives && s.drives[k].owner == key {
      OwnedExactly(s, key, k);
    }
  }

  lemma {:induction false} PurgeKeeps(s: State, email: string)
    requires Inv(s)
    ensures Inv(PurgeLogout(s, email))
  {
    hide Parse, Print;
    if email != "" && AccountByEmail(s, email).Some? {
      InvTidy(s);
      PurgeEffect(s, email);
      var s' := PurgeLogout(s, email);
      forall k | k in s'.accounts ensures GoodAccount(s', k) {
        assert GoodAccount(s, k);
      }
      forall k | k in s'.drives ensures GoodDrive(s', k) {
        assert GoodDrive(s, k);
      }
    }
  }

  /** Pruning never deletes a drive that is some account's primary. */
  lemma {:induction false} PruneKeepsPrimaries(s: State, c: CanonicalId, k: string)
    requires Inv(s) && k in s.accounts && s.accounts[k].primaryDriveCanonical != ""
    ensures s.accounts[k].primaryDriveCanonical in Prune(s, c).drives
  {
    hide Parse, Print;
    assert GoodAccount(s, k);
    if Print(c) == k {
      assert GoodDrive(s, k) && Print(Parse(k).value) == k;
    } else if Print(c) in s.drives {
      assert GoodDrive(s, Print(c));
    }
  }

  lemma {:induction false} PruneKeeps(s: State, c: CanonicalId)
    requires Inv(s)
    ensures Inv(Prune(s, c))
  {
    hide Parse, Print;
    if Print(c) in s.drives {
      var s' := Prune(s, c);
      assert GoodDrive(s, Print(c));
      forall k | k in s'.accounts ensures GoodAccount(s', k) {
        assert GoodAccount(s, k);
        if s.accounts[k].primaryDriveCanonical != "" { PruneKeepsPrimaries(s, c, k); }
      }
      forall k | k in s'.drives ensures GoodDrive(s', k) {
        assert GoodDrive(s, k);
      }
    }
  }

  lemma {:induction false} StepKeeps(s: State, op: Op)
    requires Inv(s) && Allowed(s, op)
    ensures Inv(Apply(s, op))
  {
    match op
    case Login(c, userId, name, org, driveId, now) => LoginKeeps(s, c, userId, name, org, driveId, now);
    case Register(c, name) => if OwnerOf(c).Some? { RegisterKeeps(s, c, name); }
    case RegisterShared(c, o, name) => RegisterSharedKeeps(s, c, o, name);
    case MarkAuth(email, reason) => SetAuthKeeps(s, email, reason);
    case ClearAuth(email) => SetAuthKeeps(s, email, "");
    case PlainLogout(email) => SetAuthKeeps(s, email, "");
    case Purge(email) => PurgeKeeps(s, email);
    case PruneDrive(c) => PruneKeeps(s, c);
  }

  lemma {:induction false} RunKeeps(s: State, ops: seq<Op>)
    requires Inv(s) && AllowedRun(s, ops)
    ensures Inv(Run(s, ops))
    decreases ops
  {
    if ops != [] {
      StepKeeps(s, ops[0]);
      RunKeeps(Apply(s, ops[0]), ops[1..]);
    }
  }

  /** Every run from the empty catalog ends in a state both validators accept. */
  lemma {:induction false} RunsValidate(ops: seq<Op>)
    requires AllowedRun(EMPTY, ops)
    ensures OwnersValid(Run(EMPTY, ops)) && PrimariesValid(Run(EMPTY, ops))
  {
    RunKeeps(EMPTY, ops);
    InvValid(Run(EMPTY, ops));
  }

  // ---------------------------------------------------------------- tidiness alone

  /** What tidiness needs of the callers; owners need not be recorded. */
  predicate Sensible(op: Op) {
    match op
    case Login(c, _, _, _, _, _) => Parsed(c) && IsAccountId(c)
    case Register(c, _) => Parsed(c) && !Unstable(c)
    case RegisterShared(c, o, _) => Parsed(c) && c.Shared? && Parsed(o) && IsAccountId(o) && o.email == c.email
    case _ => true
  }

  lemma {:induction false} LoginTidy(s: State, c: CanonicalId, userId: string, name: string, org: string,
                                     driveId: string, now: string)
    requires TidyBut(s, Print(c)) && Parsed(c) && IsAccountId(c)
    ensures Tidy(RecordLogin(s, c, userId, name, org, driveId, now))
  {
    hide Parse, Print;
    PrintedEmail(c);
  }

  lemma {:induction false} RegisterTidy(s: State, c: CanonicalId, o: CanonicalId, d: CatalogDrive)
    requires Tidy(s) && Parsed(c) && !Unstable(c) && Parsed(o) && IsAccountId(o) && o.email == c.email
    requires d.canonicalId == Print(c) && d.owner == Print(o)
    ensures Tidy(UpsertDrive(s, d))
  {
    hide Parse, Print;
    PrintedEmail(c);
    PrintedEmail(o);
  }

  /** The new state differs by one drive record, of this drive and owner. */
  predicate Stores(s: State, s': State, c: CanonicalId, o: CanonicalId) {
    && Print(c) in s'.drives && s' == UpsertDrive(s, s'.drives[Print(c)])
    && s'.drives[Print(c)].canonicalId == Print(c) && s'.drives[Print(c)].owner == Print(o)
  }

  lemma {:induction false} RegisteredRecord(s: State, c: CanonicalId, o: CanonicalId, name: string)
    requires Tidy(s)
    ensures Stores(s, RegisterSharedDrive(s, c, o, name), c, o)
    ensures OwnerOf(c) == Some(o) ==>
      RegisterDrive(s, c, name).Some? && Stores(s, RegisterDrive(s, c, name).value, c, o)
  {
    hide Parse, Print;
    assert Print(c) in s.drives ==> TidyDrive(Print(c), s.drives[Print(c)]);
  }

  lemma {:induction false} LessTidy(s: State, s': State)
    requires Tidy(s) && s'.drives.Keys <= s.drives.Keys && s'.accounts.Keys <= s.accounts.Keys
    requires forall k :: k in s'.drives ==>
      s'.drives[k].(retainedStatePresent := s.drives[k].retainedStatePresent) == s.drives[k]
    requires forall k :: k in s'.accounts ==> s'.accounts[k].(authReason := s.accounts[k].authReason) == s.accounts[k]
    ensures Tidy(s')
  {
    hide Parse, Print, Canonical;
    forall k | k in s'.drives ensures TidyDrive(k, s'.drives[k]) {
      assert TidyDrive(k, s.drives[k]);
    }
    forall k | k in s'.accounts ensures TidyAccount(k, s'.accounts[k]) {
      assert TidyAccount(k, s.accounts[k]);
    }
  }

  lemma {:induction false} SetAuthTidy(s: State, email: string, reason: string)
    requires TidyAccounts(s)
    ensures var s' := SetAuthReason(s, email, reason);
      TidyAccounts(s') && s'.drives == s.drives && (Tidy(s') <==> Tidy(s))
  {
    hide Parse, Print, TidyDrive;
    if email != "" && AccountByEmail(s, email).Some? { AccountFound(s, email); }
  }

  lemma {:induction false} AuthTidy(s: State, email: string, reason: string)
    requires Tidy(s)
    ensures Tidy(SetAuthReason(s, email, reason))
  {
    SetAuthTidy(s, email, reason);
  }

  lemma {:induction false} PurgeTidy(s: State, email: string)
    requires Tidy(s)
    ensures Tidy(PurgeLogout(s, email))
  {
    hide Parse, Print, Tidy;
    LessTidy(s, PurgeLogout(s, email));
  }

  lemma {:induction false} PruneTidy(s: State, c: CanonicalId)
    requires Tidy(s)
    ensures Tidy(Prune(s, c))
  {
    hide Parse, Print, Canonical, Prune, Tidy, TidyDrive;
    PruneStores(s, c);
    PrunedTidy(s, Prune(s, c), Print(c));
  }

  lemma {:induction false} PrunedTidy(s: State, s': State, key: string)
    requires Tidy(s) && s'.accounts == s.accounts && s'.drives - {key} == s.drives - {key}
    requires key in s'.drives ==>
      key in s.drives && s'.drives[key] == s.drives[key].(retainedStatePresent := false)
    ensures Tidy(s')
  {
    hide Canonical, Tidy, TidyDrive;
    forall k | k in s'.drives
      ensures k in s.drives && s'.drives[k].(retainedStatePresent := s.drives[k].retainedStatePresent) == s.drives[k]
    {
      if k != key {
        assert k in s'.drives - {key} && k in s.drives - {key};
        assert (s'.drives - {key})[k] == s'.drives[k] && (s.drives - {key})[k] == s.drives[k];
      }
    }
    LessTidy(s, s');
  }

  /** Every operation keeps the catalog tidy. */
  lemma {:induction false} StepTidy(s: State, op: Op)
    requires Tidy(s) && Sensible(op)
    ensures Tidy(Apply(s, op))
  {
    hide Parse, Print, Tidy, RecordLogin, RegisterDrive, RegisterSharedDrive, SetAuthReason, PurgeLogout, Prune,
      OwnerOf, Unstable;
    match op
    case Login(c, userId, name, org, driveId, now) =>
      TidyIsBut(s, Print(c));
      LoginTidy(s, c, userId, name, org, driveId, now);
    case Register(c, name) =>
      if OwnerOf(c).Some? {
        OwnerEmail(c);
        RegisteredRecord(s, c, OwnerOf(c).value, name);
        RegisterTidy(s, c, OwnerOf(c).value, RegisterDrive(s, c, name).value.drives[Print(c)]);
      } else {
        RegisterNone(s, c, name);
      }
    case RegisterShared(c, o, name) =>
      RegisteredRecord(s, c, o, name);
      SharedStable(c);
      RegisterTidy(s, c, o, RegisterSharedDrive(s, c, o, name).drives[Print(c)]);
    case MarkAuth(email, reason) => AuthTidy(s, email, reason);
    case ClearAuth(email) => AuthTidy(s, email, "");
    case PlainLogout(email) => AuthTidy(s, email, "");
    case Purge(email) => PurgeTidy(s, email);
    case PruneDrive(c) => PruneTidy(s, c);
  }

  lemma {:induction false} RegisterNone(s: State, c: CanonicalId, name: string)
    ensures OwnerOf(c).None? <==> RegisterDrive(s, c, name).None?
  {
    hide Parse, Print;
  }

  lemma {:induction false} SharedStable(c: CanonicalId)
    requires c.Shared?
    ensures !Unstable(c)
  {
  }

  // ---------------------------------------------------------------- why the conditions are there

  /** Registering a drive whose owner account is not recorded makes the owner validator reject. */
  lemma {:induction false} UnrecordedOwnerRejected(s: State, c: CanonicalId, name: string)
    requires Parsed(c) && !Unstable(c) && OwnerOf(c).Some? && Print(OwnerOf(c).value) !in s.accounts
    requires Print(c) in s.drives ==> s.drives[Print(c)].canonicalId == Print(c)
    ensures !OwnersValid(RegisterDrive(s, c, name).value)
  {
    OwnerEmail(c);
    PrintedEmail(OwnerOf(c).value);
    assert !OwnerOk(RegisterDrive(s, c, name).value, Print(c));
  }

  /** Registering a drive of a recorded account and purging that account: the owner validator accepts if and
      only if the identifier is stable. */
  lemma {:induction false} PurgeAfterRegister(s: State, c: CanonicalId, name: string)
    requires Inv(s) && Parsed(c) && OwnerOf(c).Some? && Print(OwnerOf(c).value) in s.accounts
    requires AccountByEmail(s, c.email) == Some(s.accounts[Print(OwnerOf(c).value)])
    ensures OwnersValid(PurgeLogout(RegisterDrive(s, c, name).value, c.email)) <==> !Unstable(c)
  {
    hide Parse, Print, OwnersValid, PurgeLogout, AccountByEmail, RegisterDrive, Inv, OwnerOf;
    RegisterNone(s, c, name);
    if Unstable(c) {
      UnstableSurvivesPurge(s, c, name);
    } else {
      RegisterKeeps(s, c, name);
      PurgeKeeps(RegisterDrive(s, c, name).value, c.email);
      InvValid(PurgeLogout(RegisterDrive(s, c, name).value, c.email));
    }
  }

  /** An unstable identifier survives the purge of its owner, and the owner validator rejects. */
  lemma {:induction false} UnstableSurvivesPurge(s: State, c: CanonicalId, name: string)
    requires Inv(s) && Parsed(c) && Unstable(c) && OwnerOf(c).Some? && Print(OwnerOf(c).value) in s.accounts
    requires AccountByEmail(s, c.email) == Some(s.accounts[Print(OwnerOf(c).value)])
    ensures !OwnersValid(PurgeLogout(RegisterDrive(s, c, name).value, c.email))
  {
    hide Parse, Print;
    OwnerEmail(c);
    var o := OwnerOf(c).value;
    PrintedEmail(o);
    PrintCanonical(c);
    var key, s1 := Print(c), RegisterDrive(s, c, name).value;
    assert key in s.drives ==> GoodDrive(s, key);
    assert s1.accounts == s.accounts && GoodAccount(s, Print(o));
    assert WithEmailKeys(s1, c.email) == WithEmailKeys(s, c.email);
    forall j | j in s1.drives && Parse(s1.drives[j].canonicalId).Some?
      ensures Print(Parse(s1.drives[j].canonicalId).value) != key
    {
      if j != key { assert GoodDrive(s, j); }
    }
    assert key !in OwnedKeys(s1, Print(o));
    assert !OwnerOk(PurgeLogout(s1, c.email), key);
  }

  // ---------------------------------------------------------------- what each operation stores

  /** The account that an email stands for: the least key among those with that email. */
  predicate StandsFor(s: State, email: string, k: string) {
    && email != "" && k in s.accounts && s.accounts[k].email == email
    && forall j :: j in s.accounts && s.accounts[j].email == email && j != k ==> Less(k, j)
  }

  lemma {:induction false} StandsForFound(s: State, email: string, k: string)
    requires TidyAccounts(s) && StandsFor(s, email, k)
    ensures AccountByEmail(s, email) == Some(s.accounts[k]) && s.accounts[k].canonicalId == k
  {
    hide Parse, Print;
    assert TidyAccount(k, s.accounts[k]);
    var keys := WithEmailKeys(s, email);
    assert k in keys;
    LeastUnique(keys, k, Least(keys));
  }

  /** Marking or clearing writes the reason of the account that the email stands for, and nothing else. */
  lemma {:induction false} SetAuthEffect(s: State, email: string, reason: string)
    requires TidyAccounts(s)
    ensures forall k :: StandsFor(s, email, k) ==>
      SetAuthReason(s, email, reason) == s.(accounts := s.accounts[k := s.accounts[k].(authReason := reason)])
    ensures email == "" || (forall k :: k in s.accounts ==> s.accounts[k].email != email) ==>
      SetAuthReason(s, email, reason) == s
  {
    hide Parse, Print, TidyAccounts, AccountByEmail;
    forall k | StandsFor(s, email, k)
      ensures SetAuthReason(s, email, reason) == s.(accounts := s.accounts[k := s.accounts[k].(authReason := reason)])
    {
      StandsForFound(s, email, k);
    }
    NobodyFound(s, email);
  }

  lemma {:induction false} NobodyFound(s: State, email: string)
    ensures (forall k :: k in s.accounts ==> s.accounts[k].email != email) ==> AccountByEmail(s, email).None?
  {
    hide Least;
    assert (forall k :: k in s.accounts ==> s.accounts[k].email != email) ==> WithEmailKeys(s, email) == {};
  }

  /** Clearing undoes marking, down to an empty reason. */
  lemma {:induction false} MarkThenClear(s: State, email: string, reason: string, k: string)
    requires TidyAccounts(s) && StandsFor(s, email, k)
    ensures var s' := SetAuthReason(SetAuthReason(s, email, reason), email, "");
      s' == SetAuthReason(s, email, "") && k in s'.accounts && s'.accounts[k].authReason == ""
  {
    hide Parse, Print, SetAuthReason;
    SetAuthEffect(s, email, reason);
    SetAuthEffect(s, email, "");
    var s1 := SetAuthReason(s, email, reason);
    SetAuthTidy(s, email, reason);
    assert StandsFor(s1, email, k);
    SetAuthEffect(s1, email, "");
  }

  /** A purge removes the account that the email stands for and exactly the drives it owns. */
  lemma {:induction false} PurgeStandsFor(s: State, email: string, k: string)
    requires Tidy(s) && StandsFor(s, email, k)
    ensures PurgeLogout(s, email).accounts == s.accounts - {k}
    ensures PurgeLogout(s, email).drives == map n | n in s.drives && s.drives[n].owner != k :: s.drives[n]
  {
    hide Parse, Print, PurgeLogout, AccountByEmail, TidyDrive;
    StandsForFound(s, email, k);
    PurgeEffect(s, email);
  }

  /** The owner of a drive: accounts own themselves, and libraries belong to the business account of their email. */
  lemma {:induction false} OwnerIs(c: CanonicalId)
    requires Parsed(c)
    ensures match c
      case Personal(email) => OwnerOf(c) == Some(Personal(email))
      case Business(email) => OwnerOf(c) == Some(Business(email))
      case SharePoint(email, _, _) => OwnerOf(c) == Some(Business(email))
      case Shared(_, _, _) => OwnerOf(c) == None
  {
    if c.SharePoint? { ConstructAccount("business", c.email); }
  }

  /** The name shown for a drive without one. */
  lemma {:induction false} DefaultNames(email: string, site: string, library: string, drive: string, item: string)
    ensures DefaultDisplayName(Personal(email)) == email && DefaultDisplayName(Business(email)) == email
    ensures site != "" && library != "" ==>
      DefaultDisplayName(SharePoint(email, site, library)) == site + " / " + library
    ensures site == "" || library == "" ==> DefaultDisplayName(SharePoint(email, site, library)) == email
    ensures DefaultDisplayName(Shared(email, drive, item)) == "Shared from " + email
  {
  }

  /** What a login stores: the account with all its fields and its old reason, and its primary drive, whose other
      fields stay; nothing else changes. */
  lemma {:induction false} LoginStores(s: State, c: CanonicalId, userId: string, name: string, org: string,
                                       driveId: string, now: string)
    requires TidyBut(s, Print(c)) && Parsed(c) && IsAccountId(c)
    ensures var s', key := RecordLogin(s, c, userId, name, org, driveId, now), Print(c);
      && s'.accounts - {key} == s.accounts - {key} && s'.drives - {key} == s.drives - {key}
      && key in s'.accounts && key in s'.drives
      && (var a := s'.accounts[key];
          && a.canonicalId == key && a.email == c.email && a.userId == userId && a.displayName == name
          && a.orgName == org && a.primaryDriveId == driveId && a.primaryDriveCanonical == key
          && a.driveType == (if c.Personal? then "personal" else "business")
          && a.authReason == if key in s.accounts then s.accounts[key].authReason else "")
      && (var d := s'.drives[key];
          && d.canonicalId == key && d.owner == key && d.primaryForAccount && d.remoteDriveId == driveId
          && d.cachedAt == now && d.driveType == (if c.Personal? then "personal" else "business")
          && d.displayName ==
            (if key in s.drives && s.drives[key].displayName != "" then s.drives[key].displayName else c.email)
          && (key in s.drives ==> SameBut(d, s.drives[key])) && (key !in s.drives ==> Plain(d)))
  {
    hide Parse, Print;
  }

  /** The fields that neither login nor registration writes. */
  predicate SameBut(d: CatalogDrive, e: CatalogDrive) {
    && d.siteName == e.siteName && d.libraryName == e.libraryName && d.sharedOwnerName == e.sharedOwnerName
    && d.sharedOwnerEmail == e.sharedOwnerEmail && d.retainedStatePresent == e.retainedStatePresent
    && d.siteId == e.siteId
  }

  predicate Plain(d: CatalogDrive) {
    && d.siteName == "" && d.libraryName == "" && d.sharedOwnerName == "" && d.sharedOwnerEmail == ""
    && !d.retainedStatePresent && d.siteId == ""
  }

  /** A registered record: the given owner and type, the fields registration does not write as they were, or empty. */
  predicate Registered(s: State, s': State, key: string, owner: string, kind: string) {
    && s'.accounts == s.accounts && s'.drives - {key} == s.drives - {key} && key in s'.drives
    && (var d := s'.drives[key];
        && d.canonicalId == key && d.owner == owner && d.driveType == kind
        && (key in s.drives ==>
              SameBut(d, s.drives[key]) && d.primaryForAccount == s.drives[key].primaryForAccount
              && d.remoteDriveId == s.drives[key].remoteDriveId && d.cachedAt == s.drives[key].cachedAt)
        && (key !in s.drives ==> Plain(d) && !d.primaryForAccount && d.remoteDriveId == "" && d.cachedAt == ""))
  }

  /** What registering a drive stores: an old name stays. */
  lemma {:induction false} RegisterStores(s: State, c: CanonicalId, name: string)
    requires Tidy(s) && Parsed(c) && !c.Shared?
    ensures RegisterDrive(s, c, name).Some?
    ensures var s', key := RegisterDrive(s, c, name).value, Print(c);
      && Registered(s, s', key, (if c.Personal? then "personal:" else "business:") + c.email,
           if c.Personal? then "personal" else if c.Business? then "business" else "sharepoint")
      && s'.drives[key].displayName ==
           (if key in s.drives && s.drives[key].displayName != "" then s.drives[key].displayName
            else if name != "" then name else DefaultDisplayName(c))
  {
    hide Parse, Print, DefaultDisplayName, OwnerOf, TypeName, Registered, RegisterDrive, Tidy;
    OwnerIs(c);
    PrintedForms(c.email, "", "");
    KindIs(c);
    RegisteredFor(s, c, OwnerOf(c).value, name);
  }

  lemma {:induction false} RegisteredFor(s: State, c: CanonicalId, o: CanonicalId, name: string)
    requires Tidy(s) && OwnerOf(c) == Some(o)
    ensures RegisterDrive(s, c, name).Some?
    ensures var s', key := RegisterDrive(s, c, name).value, Print(c);
      && Registered(s, s', key, Print(o), TypeName(c))
      && s'.drives[key].displayName ==
           (if key in s.drives && s.drives[key].displayName != "" then s.drives[key].displayName
            else if name != "" then name else DefaultDisplayName(c))
  {
    hide Parse, Print, DefaultDisplayName, OwnerOf, TypeName, Registered, Canonical;
    var s', key := RegisterDrive(s, c, name).value, Print(c);
    assert key in s.drives ==> TidyDrive(key, s.drives[key]);
    var d := s'.drives[key];
    assert s' == UpsertDrive(s, d);
    hide RegisterDrive;
    RegisteredRecordIs(s, d, key, Print(o), TypeName(c));
  }

  lemma {:induction false} RegisteredRecordIs(s: State, d: CatalogDrive, key: string, owner: string, kind: string)
    requires d.canonicalId == key && d.owner == owner && d.driveType == kind
    requires key in s.drives ==>
      d.(canonicalId := key, owner := s.drives[key].owner, driveType := s.drives[key].driveType,
         displayName := s.drives[key].displayName) == s.drives[key].(canonicalId := key)
    requires key !in s.drives ==>
      Plain(d) && !d.primaryForAccount && d.remoteDriveId == "" && d.cachedAt == ""
    ensures Registered(s, UpsertDrive(s, d), key, owner, kind)
  {
  }

  lemma {:induction false} KindIs(c: CanonicalId)
    ensures TypeName(c) == if c.Personal? then "personal" else if c.Business? then "business"
      else if c.SharePoint? then "sharepoint" else "shared"
  {
  }

  /** What registering a shared folder stores: a given name replaces the old one. */
  lemma {:induction false} RegisterSharedStores(s: State, c: CanonicalId, o: CanonicalId, name: string)
    requires Tidy(s) && Parsed(c) && c.Shared?
    ensures var s', key := RegisterSharedDrive(s, c, o, name), Print(c);
      && Registered(s, s', key, Print(o), "shared")
      && s'.drives[key].displayName ==
           (if name != "" then name
            else if key in s.drives && s.drives[key].displayName != "" then s.drives[key].displayName
            else "Shared from " + c.email)
  {
    hide Parse, Print;
    assert Print(c) in s.drives ==> TidyDrive(Print(c), s.drives[Print(c)]);
  }

  /** What pruning does: a primary drive, by its own flag or its owner's account, only loses its retained-state flag;
      any other record goes. */
  lemma {:induction false} PruneStores(s: State, c: CanonicalId)
    requires Tidy(s)
    ensures var s', key := Prune(s, c), Print(c);
      && s'.accounts == s.accounts && s'.drives - {key} == s.drives - {key}
      && (key in s'.drives <==>
            key in s.drives && (s.drives[key].primaryForAccount
              || (s.drives[key].owner in s.accounts && s.accounts[s.drives[key].owner].primaryDriveCanonical == key)))
      && (key in s'.drives && key in s.drives ==> s'.drives[key] == s.drives[key].(retainedStatePresent := false))
  {
    hide Parse, Print;
    assert Print(c) in s.drives ==> TidyDrive(Print(c), s.drives[Print(c)]);
  }
}
