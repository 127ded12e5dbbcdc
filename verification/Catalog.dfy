/** The managed catalog as the source keeps it: an object with two maps, changed in place, whose
    lookups walk the keys in sorted order. */
module Catalog {
  import opened Text
  import opened CanonicalId
  import opened StringOrder
  import S = CatalogState

  /** `done` holds the smaller keys of `all`, `todo` the rest: how far a sorted walk has come. */
  ghost predicate Walked(all: set<string>, todo: set<string>) {
    todo <= all && forall x, y :: x in all && x !in todo && y in todo ==> Less(x, y)
  }

  lemma {:induction false} WalkOn(all: set<string>, todo: set<string>, k: string)
    requires Walked(all, todo) && IsLeast(k, todo)
    ensures Walked(all, todo - {k})
  {
  }

  /** The keys that deleting these records by identifier removes. */
  ghost function Targets(drives: map<string, S.CatalogDrive>, keys: set<string>): set<string> {
    set k | k in keys && k in drives && Parse(drives[k].canonicalId).Some? :: Print(Parse(drives[k].canonicalId).value)
  }

  class Catalog {
    var accounts: map<string, S.Account>
    var drives: map<string, S.CatalogDrive>

    ghost function State(): S.State
      reads this
    {
      S.State(accounts, drives)
    }

    constructor ()
      ensures State() == S.EMPTY
    {
      accounts, drives := map[], map[];
    }

    method UpsertAccount(account: S.Account)
      modifies this
      ensures State() == S.UpsertAccount(old(State()), account)
    {
      accounts := accounts[account.canonicalId := account];
    }

    method UpsertDrive(drive: S.CatalogDrive)
      modifies this
      ensures State() == S.UpsertDrive(old(State()), drive)
    {
      drives := drives[drive.canonicalId := drive];
    }

    method DeleteDrive(c: CanonicalId)
      modifies this
      ensures State() == S.DeleteDrive(old(State()), c)
    {
      drives := drives - {Print(c)};
    }

    /** First account in key order that carries the email. */
    method AccountByEmail(email: string) returns (r: Option<S.Account>)
      ensures r == S.AccountByEmail(State(), email)
    {
      var todo := accounts.Keys;
      while todo != {}
        invariant Walked(accounts.Keys, todo)
        invariant forall k :: k in accounts && k !in todo ==> accounts[k].email != email
        decreases todo
      {
        SomeLeast(todo);
        var key :| IsLeast(key, todo);
        var account := accounts[key];
        if account.email == email {
          ghost var hits := S.WithEmailKeys(State(), email);
          assert key in hits && IsLeast(key, hits);
          LeastUnique(hits, key, Least(hits));
          return Some(account);
        }
        WalkOn(accounts.Keys, todo, key);
        todo := todo - {key};
      }
      assert S.WithEmailKeys(State(), email) == {};
      return None;
    }

    /** `validateCatalogDriveOwners`. */
    method ValidateDriveOwners() returns (ok: bool)
      ensures ok <==> S.OwnersValid(State())
    {
      var todo := drives.Keys;
      while todo != {}
        invariant todo <= drives.Keys
        invariant forall k :: k in drives && k !in todo ==> S.OwnerOk(State(), k)
        decreases todo
      {
        SomeLeast(todo);
        var key :| IsLeast(key, todo);
        todo := todo - {key};
        var owner := drives[key].owner;
        if owner == "" {
          assert !S.OwnerOk(State(), key);
          return false;
        }
        var cid := Parse(owner);
        if cid.None? || Print(cid.value) !in accounts {
          assert !S.OwnerOk(State(), key);
          return false;
        }
      }
      return true;
    }

    /** `validatePrimaryDriveOwnership`. */
    method ValidatePrimaryDrives() returns (ok: bool)
      ensures ok <==> S.PrimariesValid(State())
    {
      var todo := accounts.Keys;
      while todo != {}
        invariant todo <= accounts.Keys
        invariant forall k :: k in accounts && k !in todo ==> S.PrimaryOk(State(), k)
        decreases todo
      {
        SomeLeast(todo);
        var key :| IsLeast(key, todo);
        todo := todo - {key};
        var account := accounts[key];
        if account.primaryDriveCanonical != "" {
          var primary := Parse(account.primaryDriveCanonical);
          if primary.None? || Print(primary.value) !in drives {
            assert !S.PrimaryOk(State(), key);
            return false;
          }
          if drives[Print(primary.value)].owner != account.canonicalId {
            assert !S.PrimaryOk(State(), key);
            return false;
          }
        }
      }
      return true;
    }

    method RecordLogin(c: CanonicalId, userId: string, name: string, org: string, driveId: string, now: string)
      modifies this
      ensures State() == S.RecordLogin(old(State()), c, userId, name, org, driveId, now)
    {
      var key := Print(c);
      var account := S.Account(key, c.email, TypeName(c), userId, name, org, driveId, key, "");
      if key in accounts {
        account := account.(authReason := accounts[key].authReason);
      }
      var drive :=
        S.CatalogDrive(key, key, TypeName(c), S.DefaultDisplayName(c), "", "", "", "", now, true, false, driveId, "");
      if key in drives {
        drive := drives[key];
        drive := drive.(owner := key, driveType := TypeName(c), primaryForAccount := true,
          remoteDriveId := driveId, cachedAt := now);
        if drive.displayName == "" {
          drive := drive.(displayName := S.DefaultDisplayName(c));
        }
      }
      UpsertAccount(account);
      UpsertDrive(drive);
    }

    method RegisterDrive(c: CanonicalId, name: string) returns (ok: bool)
      modifies this
      ensures ok <==> S.RegisterDrive(old(State()), c, name).Some?
      ensures State() == if ok then S.RegisterDrive(old(State()), c, name).value else old(State())
    {
      var owner := S.OwnerOf(c);
      if owner.None? {
        return false;
      }
      var key, ownerKey := Print(c), Print(owner.value);
      var drive := S.NewDrive(c, ownerKey, S.OrDefault(name, c));
      if key in drives {
        drive := drives[key].(owner := ownerKey, driveType := TypeName(c));
        if drive.displayName == "" {
          drive := drive.(displayName := S.OrDefault(name, c));
        }
      }
      UpsertDrive(drive);
      return true;
    }

    method RegisterSharedDrive(c: CanonicalId, owner: CanonicalId, name: string)
      modifies this
      ensures State() == S.RegisterSharedDrive(old(State()), c, owner, name)
    {
      var key := Print(c);
      var drive := S.NewDrive(c, Print(owner), S.OrDefault(name, c));
      if key in drives {
        drive := drives[key].(owner := Print(owner), driveType := TypeName(c));
        if name != "" {
          drive := drive.(displayName := name);
        } else if drive.displayName == "" {
          drive := drive.(displayName := S.DefaultDisplayName(c));
        }
      }
      UpsertDrive(drive);
    }

    /** `MarkAccountAuthRequired`; with reason "" also clearing and plain logout. */
    method SetAuthReason(email: string, reason: string)
      modifies this
      ensures State() == S.SetAuthReason(old(State()), email, reason)
    {
      if email == "" {
        return;
      }
      var account := AccountByEmail(email);
      if account.Some? {
        UpsertAccount(account.value.(authReason := reason));
      }
    }

    /** The loop of `ApplyPurgeLogout` over the drives of an account. */
    method DeleteOwnedDrives(owner: string)
      modifies this
      ensures accounts == old(accounts)
      ensures drives == old(drives) - S.OwnedKeys(old(State()), owner)
    {
      hide Parse, Print;
      var before := drives;
      var owned := set k | k in before && before[k].owner == owner;
      var todo := owned;
      while todo != {}
        invariant accounts == old(accounts) && todo <= owned
        invariant drives == before - Targets(before, owned - todo)
        decreases todo
      {
        SomeLeast(todo);
        var key :| IsLeast(key, todo);
        assert owned - (todo - {key}) == (owned - todo) + {key};
        todo := todo - {key};
        var drive := Parse(before[key].canonicalId);
        if drive.Some? {
          DeleteDrive(drive.value);
        }
      }
      assert owned - todo == owned;
      assert Targets(before, owned) == S.OwnedKeys(old(State()), owner);
    }

    /** `ApplyPurgeLogout`. */
    method PurgeLogout(email: string)
      modifies this
      ensures State() == S.PurgeLogout(old(State()), email)
    {
      if email == "" {
        return;
      }
      var account := AccountByEmail(email);
      if account.None? {
        return;
      }
      var cid := Parse(account.value.canonicalId);
      if cid.None? {
        return;
      }
      DeleteOwnedDrives(Print(cid.value));
      accounts := accounts - {Print(cid.value)};
    }

    /** `PruneDriveAfterPurge`. */
    method Prune(c: CanonicalId)
      modifies this
      ensures State() == S.Prune(old(State()), c)
    {
      var key := Print(c);
      if key !in drives {
        return;
      }
      var drive := drives[key].(retainedStatePresent := false);
      var owner := Parse(drive.owner);
      if drive.primaryForAccount
         || (owner.Some? && Print(owner.value) in accounts
            && accounts[Print(owner.value)].primaryDriveCanonical == key) {
        UpsertDrive(drive);
        return;
      }
      DeleteDrive(c);
    }
  }
}
