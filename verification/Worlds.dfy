/** The durable state of the client as one value, and the law that ties the config file to the catalog. */
module Worlds {
  import opened Text
  import opened TomlLines
  import opened ConfigDoc
  import opened ConfigText
  import opened ConfigEdits
  import opened DriveLookup
  import opened CanonicalId
  import opened StringOrder
  import Cat = CatalogState

  /** The durable state; tokens are kept by account key. */
  datatype World = World(config: Content, catalog: Cat.State, tokens: map<string, string>)

  /** Sections that name a drive are canonical and have a catalog entry. */
  predicate DriveSectionOk(catalog: Cat.State, name: string) {
    Parse(name).Some? ==> Canonical(name) && name in catalog.drives
  }

  ghost predicate Covered(t: Table, catalog: Cat.State) {
    forall n :: n in t ==> DriveSectionOk(catalog, n)
  }

  /** The catalog is tidy, and every configured drive has a catalog entry. */
  ghost predicate Consistent(w: World) {
    SoundOf(w.config) && Cat.Tidy(w.catalog) && Covered(MeaningOf(w.config), w.catalog)
  }

  lemma {:induction false} CoveredAfter(t: Table, t': Table, c: Cat.State, c': Cat.State, key: string)
    requires Covered(t, c) && Others(t', key) == Others(t, key)
    requires forall n :: n in c.drives && n != key ==> n in c'.drives
    requires key in t' ==> Canonical(key) && key in c'.drives
    ensures Covered(t', c')
  {
    hide Parse, Print;
    forall n | n in t' ensures DriveSectionOk(c', n) {
      if n != key {
        assert n in Others(t', key) && n in Others(t, key);
        assert DriveSectionOk(c, n);
      }
    }
  }

  lemma {:induction false} Stranded(w: World, key: string)
    requires key in MeaningOf(w.config) && Parse(key).Some? && !(Canonical(key) && key in w.catalog.drives)
    ensures !Consistent(w)
  {
    hide MeaningOf, SoundOf, Parse, Print, Cat.Tidy;
    assert !DriveSectionOk(w.catalog, key);
  }

  /** In a consistent world no drive has a section of another spelling. */
  lemma {:induction false} CoveredUnaliased(t: Table, c: Cat.State, cid: CanonicalId)
    requires Covered(t, c)
    ensures Unaliased(t, cid)
  {
    hide Parse, Print;
    forall n | n in t && Parse(n) == Some(cid) ensures n == Print(cid) {
      assert DriveSectionOk(c, n);
    }
  }

  /** Consistent but for the owner of one catalog record. */
  ghost predicate ConsistentBut(w: World, key: string) {
    SoundOf(w.config) && Cat.TidyBut(w.catalog, key) && Covered(MeaningOf(w.config), w.catalog)
  }

  /** The record at this key, if any, agrees with its owner. */
  predicate OwnerTidy(c: Cat.State, key: string) {
    key in c.drives ==> Cat.TidyDrive(key, c.drives[key])
  }

  lemma {:induction false} ConsistentIsBut(w: World, key: string)
    ensures Consistent(w) <==> ConsistentBut(w, key) && OwnerTidy(w.catalog, key)
  {
    hide SoundOf, MeaningOf, Covered, Cat.TidyDrive, Cat.Tidy, Cat.TidyBut;
    Cat.TidyIsBut(w.catalog, key);
  }

  lemma {:induction false} CoveredSame(t: Table, u: Table, c: Cat.State, c': Cat.State)
    requires t.Keys == u.Keys && Covered(u, c) && forall n :: n in c.drives ==> n in c'.drives
    ensures Covered(t, c')
  {
    hide Parse, Print;
    forall n | n in t ensures DriveSectionOk(c', n) {
      assert n in u && DriveSectionOk(c, n);
    }
  }

  lemma {:induction false} CoveredLess(t: Table, t': Table, c: Cat.State)
    requires Covered(t, c) && t'.Keys <= t.Keys
    ensures Covered(t', c)
  {
    forall n | n in t' ensures DriveSectionOk(c, n) {
      assert n in t;
    }
  }

  lemma {:induction false} RecordedCanonical(c: Cat.State, key: string)
    requires Cat.Tidy(c)
    ensures key in c.drives ==> Canonical(key)
  {
    hide Parse, Print;
    if key in c.drives { assert Cat.TidyDrive(key, c.drives[key]); }
  }

  /** The loaded config has this drive: among canonical sections, the printed name reads back as it. */
  predicate InConfig(t: Table, cid: CanonicalId) {
    Print(cid) in t && Parse(Print(cid)) == Some(cid)
  }

  lemma {:induction false} InConfigLoads(t: Table, c: Cat.State, cid: CanonicalId, pick: string)
    requires Covered(t, c) && Parsed(cid)
    ensures Loaded(t, cid, pick).Some? <==> InConfig(t, cid)
    ensures InConfig(t, cid) <==> Print(cid) in t && !SitelessLibrary(cid)
  {
    hide Parse, Print, Loaded, Unaliased, Covered;
    CoveredUnaliased(t, c, cid);
    UnaliasedLoads(t, cid, pick);
    PrintParse(cid);
  }

  function Get<V>(m: map<string, V>, k: string): Option<V> {
    if k in m then Some(m[k]) else None
  }

  /** Clearing the auth requirement of an email changes neither the drives nor the agreement of keys. */
  lemma {:induction false} ClearAuth(c: Cat.State, email: string)
    requires Cat.TidyAccounts(c)
    ensures var c' := Cat.SetAuthReason(c, email, "");
      && Cat.TidyAccounts(c') && c'.drives == c.drives && (Cat.Tidy(c') <==> Cat.Tidy(c))
      && (Cat.Inv(c) ==> Cat.Inv(c'))
  {
    hide Cat.Tidy, Cat.Inv, Cat.TidyAccounts, Cat.SetAuthReason;
    Cat.SetAuthTidy(c, email, "");
    if Cat.Inv(c) { Cat.SetAuthKeeps(c, email, ""); }
  }
}
