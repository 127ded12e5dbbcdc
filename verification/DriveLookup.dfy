/** `cfg.Drives[cid]`: the loader files each section under the identifier its name parses to, so a drive is
    looked up by identifier although the editor finds its section by the printed name. */
module DriveLookup {
  import opened Text
  import opened CanonicalId
  import opened StringOrder
  import opened ConfigDoc

  /** The sections the loader files under this identifier. */
  function NamesOf(t: Table, cid: CanonicalId): set<string> {
    set n | n in t && Parse(n) == Some(cid)
  }

  /** The section whose drive the loaded config has for this identifier. If several names parse to it, the
      decoder's map order decides: `pick` is the one it met last. */
  function Loaded(t: Table, cid: CanonicalId, pick: string): Option<string> {
    var ns := NamesOf(t, cid);
    if ns == {} then None else Some(if pick in ns then pick else Least(ns))
  }

  /** The drive is loaded from no section but the one of its printed name. */
  ghost predicate Unaliased(t: Table, cid: CanonicalId) {
    forall n :: n in t && Parse(n) == Some(cid) ==> n == Print(cid)
  }

  lemma {:induction false} LoadedIs(t: Table, cid: CanonicalId, pick: string)
    ensures Loaded(t, cid, pick).Some? ==>
      Loaded(t, cid, pick).value in t && Parse(Loaded(t, cid, pick).value) == Some(cid)
    ensures Loaded(t, cid, pick).None? <==> forall n :: n in t ==> Parse(n) != Some(cid)
  {
    hide Parse;
    var ns := NamesOf(t, cid);
    if ns != {} {
      assert Loaded(t, cid, pick).value in ns;
    } else {
      forall n | n in t ensures Parse(n) != Some(cid) {
        assert n !in ns;
      }
    }
  }

  /** A section of the printed name is found, except for exactly the siteless identifiers. */
  lemma {:induction false} PrintedLoads(t: Table, cid: CanonicalId, pick: string)
    requires Parsed(cid) && Print(cid) in t
    ensures !SitelessLibrary(cid) ==> Loaded(t, cid, pick).Some?
    ensures Unaliased(t, cid) ==> Loaded(t, cid, pick) == if SitelessLibrary(cid) then None else Some(Print(cid))
  {
    hide Parse, Print, Loaded;
    PrintParse(cid);
    LoadedIs(t, cid, pick);
  }

  /** Without other spellings the lookup is by printed name, and siteless identifiers are never found. */
  lemma {:induction false} UnaliasedLoads(t: Table, cid: CanonicalId, pick: string)
    requires Parsed(cid) && Unaliased(t, cid)
    ensures Loaded(t, cid, pick) == if Print(cid) in t && !SitelessLibrary(cid) then Some(Print(cid)) else None
  {
    hide Parse, Print, Loaded;
    LoadedIs(t, cid, pick);
    if Print(cid) in t { PrintedLoads(t, cid, pick); }
  }

  // ---------------------------------------------------------------- which identifiers have one spelling

  function Rejoined(parts: seq<string>): string
    requires parts != []
  {
    if |parts| == 1 then parts[0] else parts[0] + ":" + Rejoined(parts[1..])
  }

  lemma {:induction false} RejoinSplit(s: string, n: nat)
    requires n > 0
    ensures Rejoined(SplitN(s, n)) == s
    decreases n
  {
    var i := IndexOf(s, ':');
    if n > 1 && i < |s| {
      RejoinSplit(s[i + 1..], n - 1);
      var rest := SplitN(s[i + 1..], n - 1);
      assert SplitN(s, n) == [s[..i]] + rest && ([s[..i]] + rest)[1..] == rest;
      assert s == s[..i] + ":" + s[i + 1..];
    }
  }

  lemma {:induction false} Rejoined2(p: seq<string>)
    requires |p| == 2
    ensures Rejoined(p) == p[0] + ":" + p[1]
  {
  }

  lemma {:induction false} Rejoined4(p: seq<string>)
    requires |p| == 4
    ensures Rejoined(p) == p[0] + ":" + (p[1] + ":" + (p[2] + ":" + p[3]))
  {
    var q := p[1..];
    assert Rejoined(q) == p[1] + ":" + Rejoined(q[1..]);
    assert Rejoined(q[1..]) == p[2] + ":" + p[3];
  }

  /** Only SharePoint identifiers without site or library can be spelt in two ways. */
  lemma {:induction false} OneSpelling(n: string, cid: CanonicalId)
    requires Parse(n) == Some(cid) && (cid.SharePoint? ==> cid.site != "" && cid.library != "")
    ensures n == Print(cid)
  {
    hide SplitN;
    var parts := SplitN(n, 4);
    RejoinSplit(n, 4);
    if cid.Personal? || cid.Business? {
      Rejoined2(parts);
      assert Print(cid) == TypeName(cid) + ":" + cid.email;
    } else {
      Rejoined4(parts);
      var a, b, c, d := parts[0], parts[1], parts[2], parts[3];
      assert a + ":" + (b + ":" + (c + ":" + d)) == a + ":" + b + (":" + c + ":" + d);
      assert (":" + c) + (":" + d) == ":" + c + ":" + d;
    }
  }

  lemma {:induction false} OneSpellingUnaliased(t: Table, cid: CanonicalId)
    requires cid.SharePoint? ==> cid.site != "" && cid.library != ""
    ensures Unaliased(t, cid)
  {
    hide Parse, Print;
    forall n | n in t && Parse(n) == Some(cid) ensures n == Print(cid) {
      OneSpelling(n, cid);
    }
  }
}
