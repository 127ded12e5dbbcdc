/** Canonical drive identifiers: `NewCanonicalID`, `String` and `WithEmail` of `canonical.go`. */
module CanonicalId {
  import opened Text

  /** The zero identifier of the source is modelled by `None` where it can occur. */
  datatype CanonicalId =
    | Personal(email: string)
    | Business(email: string)
    | SharePoint(email: string, site: string, library: string)
    | Shared(email: string, sourceDriveId: string, sourceItemId: string)

  function TypeName(c: CanonicalId): string {
    match c
    case Personal(_) => "personal"
    case Business(_) => "business"
    case SharePoint(_, _, _) => "sharepoint"
    case Shared(_, _, _) => "shared"
  }

  /** `strings.SplitN(s, ":", n)`. */
  function SplitN(s: string, n: nat): (r: seq<string>)
    requires n > 0
    ensures 1 <= |r| <= n
    decreases n
  {
    var i := IndexOf(s, ':');
    if n == 1 || i == |s| then [s] else [s[..i]] + SplitN(s[i + 1..], n - 1)
  }

  /** `NewCanonicalID`; `None` is any of its errors. */
  function Parse(raw: string): Option<CanonicalId> {
    ParseParts(SplitN(raw, 4))
  }

  function ParseParts(parts: seq<string>): Option<CanonicalId> {
    if |parts| < 2 || parts[1] == "" then None
    else if parts[0] == "personal" then if |parts| > 2 then None else Some(Personal(parts[1]))
    else if parts[0] == "business" then if |parts| > 2 then None else Some(Business(parts[1]))
    else if parts[0] == "sharepoint" then
      Some(SharePoint(parts[1], if |parts| >= 3 then parts[2] else "", if |parts| >= 4 then parts[3] else ""))
    else if parts[0] == "shared" then
      if |parts| != 4 || parts[2] == "" || parts[3] == "" then None else Some(Shared(parts[1], parts[2], parts[3]))
    else None
  }

  /** `String`. */
  function Print(c: CanonicalId): string {
    TypeName(c) + ":" + c.email + Suffix(c)
  }

  /** What `String` writes behind the email. */
  function Suffix(c: CanonicalId): string {
    match c
    case Personal(_) => ""
    case Business(_) => ""
    case SharePoint(_, site, library) =>
      (if site != "" then ":" + site else "") + (if library != "" then ":" + library else "")
    case Shared(_, drive, item) => ":" + drive + ":" + item
  }

  predicate NoColon(s: string) {
    ':' !in s
  }

  /** Identifiers that parsing can return. */
  predicate Parsed(c: CanonicalId) {
    && c.email != "" && NoColon(c.email)
    && match c
       case Personal(_) => true
       case Business(_) => true
       case SharePoint(_, site, _) => NoColon(site)
       case Shared(_, drive, item) => drive != "" && NoColon(drive) && item != ""
  }

  /** A SharePoint identifier with a library but no site: its text cannot say so. */
  predicate SitelessLibrary(c: CanonicalId) {
    c.SharePoint? && c.site == "" && c.library != ""
  }

  // ---------------------------------------------------------------- splitting

  lemma {:induction false} SplitOne(a: string, rest: string, n: nat)
    requires NoColon(a) && n > 1
    ensures SplitN(a + ":" + rest, n) == [a] + SplitN(rest, n - 1)
  {
    var s := a + ":" + rest;
    IndexOfUnique(s, ':', |a|);
    assert s[..|a|] == a && s[|a| + 1..] == rest;
  }

  lemma {:induction false} SplitLast(a: string, n: nat)
    requires n > 0 && (NoColon(a) || n == 1)
    ensures SplitN(a, n) == [a]
  {
  }

  lemma {:induction false} PartsNoColon(s: string, n: nat, k: nat)
    requires n > 0 && k < |SplitN(s, n)| && k < n - 1
    ensures NoColon(SplitN(s, n)[k])
    decreases n
  {
    hide IndexOf;
    var i := IndexOf(s, ':');
    if i < |s| && k > 0 {
      PartsNoColon(s[i + 1..], n - 1, k - 1);
      assert SplitN(s, n)[k] == SplitN(s[i + 1..], n - 1)[k - 1];
    } else {
      assert SplitN(s, n)[k] == s[..i];
    }
  }

  /** Parsing returns only identifiers with a clean shape. */
  lemma {:induction false} ParseParsed(raw: string)
    ensures Parse(raw).Some? ==> Parsed(Parse(raw).value)
  {
    var parts := SplitN(raw, 4);
    if |parts| >= 2 { PartsNoColon(raw, 4, 1); }
    if |parts| >= 3 { PartsNoColon(raw, 4, 2); }
  }

  // ---------------------------------------------------------------- round trip

  lemma {:induction false} SplitHead(kind: string, email: string, rest: string)
    requires NoColon(kind) && NoColon(email)
    ensures SplitN(kind + ":" + email, 4) == [kind, email]
    ensures SplitN(kind + ":" + email + (":" + rest), 4) == [kind, email] + SplitN(rest, 2)
  {
    hide SplitN;
    SplitOne(kind, email, 4);
    SplitLast(email, 3);
    assert kind + ":" + email + (":" + rest) == kind + ":" + (email + ":" + rest);
    SplitOne(kind, email + ":" + rest, 4);
    SplitOne(email, rest, 3);
  }

  lemma {:induction false} TypeNamesClean(c: CanonicalId)
    ensures NoColon(TypeName(c)) && '@' !in TypeName(c) && '_' !in TypeName(c)
  {
  }

  lemma {:induction false} ParsePrinted(c: CanonicalId, rest: string)
    requires Parsed(c) && (Suffix(c) == "" || Suffix(c) == ":" + rest)
    ensures Parse(Print(c)) == ParseParts([TypeName(c), c.email] + if Suffix(c) == "" then [] else SplitN(rest, 2))
  {
    TypeNamesClean(c);
    SplitHead(TypeName(c), c.email, rest);
    if Suffix(c) == "" {
      assert Print(c) == TypeName(c) + ":" + c.email;
      assert [TypeName(c), c.email] + [] == [TypeName(c), c.email];
    }
  }

  lemma {:induction false} SplitPair(a: string, b: string)
    requires NoColon(a)
    ensures SplitN(a + ":" + b, 2) == [a, b]
  {
    SplitOne(a, b, 2);
    SplitLast(b, 1);
  }

  lemma {:induction false} ParsePrintedSharePoint(c: CanonicalId)
    requires Parsed(c) && c.SharePoint? && !SitelessLibrary(c)
    ensures Parse(Print(c)) == Some(c)
  {
    hide SplitN;
    if c.site == "" {
      ParsePrinted(c, "");
    } else if c.library == "" {
      assert Suffix(c) == ":" + c.site;
      ParsePrinted(c, c.site);
      SplitLast(c.site, 2);
      SharePointParts(c.email, [c.site]);
    } else {
      assert Suffix(c) == ":" + (c.site + ":" + c.library);
      ParsePrinted(c, c.site + ":" + c.library);
      SplitPair(c.site, c.library);
      SharePointParts(c.email, [c.site, c.library]);
    }
  }

  lemma {:induction false} ParsePrintedOther(c: CanonicalId)
    requires Parsed(c) && !c.SharePoint?
    ensures Parse(Print(c)) == Some(c)
  {
    hide SplitN;
    if c.Shared? {
      assert Suffix(c) == ":" + (c.sourceDriveId + ":" + c.sourceItemId);
      ParsePrinted(c, c.sourceDriveId + ":" + c.sourceItemId);
      SplitPair(c.sourceDriveId, c.sourceItemId);
    } else {
      ParsePrinted(c, "");
    }
  }

  lemma {:induction false} SharePointParts(email: string, more: seq<string>)
    requires email != "" && 1 <= |more| <= 2
    ensures ParseParts(["sharepoint", email] + more) ==
      Some(SharePoint(email, more[0], if |more| == 2 then more[1] else ""))
  {
  }

  /** Printing then parsing returns the same identifier, except exactly for siteless libraries. */
  lemma {:induction false} PrintParse(c: CanonicalId)
    requires Parsed(c)
    ensures Parse(Print(c)) == Some(c) <==> !SitelessLibrary(c)
  {
    if SitelessLibrary(c) {
      SitelessParse(c);
    } else if c.SharePoint? {
      ParsePrintedSharePoint(c);
    } else {
      ParsePrintedOther(c);
    }
  }

  /** The same for every accepted text. */
  lemma {:induction false} Reparse(raw: string)
    requires Parse(raw).Some?
    ensures Parse(Print(Parse(raw).value)) == Parse(raw) <==> !SitelessLibrary(Parse(raw).value)
  {
    ParseParsed(raw);
    PrintParse(Parse(raw).value);
  }

  lemma {:induction false} PrintInjective(c: CanonicalId, d: CanonicalId)
    requires Parsed(c) && Parsed(d) && !SitelessLibrary(c) && !SitelessLibrary(d) && Print(c) == Print(d)
    ensures c == d
  {
    PrintParse(c);
    PrintParse(d);
  }

  /** A name is canonical when parsing and printing it changes nothing. */
  predicate Canonical(name: string) {
    Parse(name).Some? && Print(Parse(name).value) == name
  }

  /** A siteless library whose first colon is its first or its last character. */
  predicate Unstable(c: CanonicalId) {
    SitelessLibrary(c) && (IndexOf(c.library, ':') == 0 || IndexOf(c.library, ':') == |c.library| - 1)
  }

  /** A printed identifier is canonical except exactly for unstable ones. */
  lemma {:induction false} PrintCanonical(c: CanonicalId)
    requires Parsed(c)
    ensures Canonical(Print(c)) <==> !Unstable(c)
  {
    if SitelessLibrary(c) {
      SitelessReparse(c);
    } else {
      PrintParse(c);
    }
  }

  lemma {:induction false} SitelessParse(c: CanonicalId)
    requires Parsed(c) && SitelessLibrary(c)
    ensures var i := IndexOf(c.library, ':');
      Parse(Print(c)) == Some(
        if i == |c.library| then SharePoint(c.email, c.library, "")
        else SharePoint(c.email, c.library[..i], c.library[i + 1..]))
  {
    hide ParseParts;
    assert Suffix(c) == ":" + c.library;
    ParsePrinted(c, c.library);
    var i := IndexOf(c.library, ':');
    if i < |c.library| {
      SplitLast(c.library[i + 1..], 1);
      assert SplitN(c.library, 2) == [c.library[..i], c.library[i + 1..]];
    }
    SharePointParts(c.email, SplitN(c.library, 2));
  }

  lemma {:induction false} SitelessReparse(c: CanonicalId)
    requires Parsed(c) && SitelessLibrary(c)
    ensures Parse(Print(c)).Some?
    ensures Print(Parse(Print(c)).value) == Print(c) <==> !Unstable(c)
  {
    hide ParseParts, IndexOf;
    SitelessParse(c);
    var i := IndexOf(c.library, ':');
    var d := if i == |c.library| then SharePoint(c.email, c.library, "")
             else SharePoint(c.email, c.library[..i], c.library[i + 1..]);
    SuffixMatters(c, d);
    SitelessSuffix(c, d);
  }

  lemma {:induction false} SitelessSuffix(c: CanonicalId, d: CanonicalId)
    requires SitelessLibrary(c)
    requires var i := IndexOf(c.library, ':');
      d == if i == |c.library| then SharePoint(c.email, c.library, "")
           else SharePoint(c.email, c.library[..i], c.library[i + 1..])
    ensures Suffix(d) == Suffix(c) <==> !Unstable(c)
  {
    hide IndexOf;
    var i := IndexOf(c.library, ':');
    assert Suffix(c) == ":" + c.library;
    if i < |c.library| {
      SplitSuffix(c.library, i);
    }
  }

  /** A library cut at its colon reads the same exactly if both halves are there. */
  lemma {:induction false} SplitSuffix(library: string, i: nat)
    requires i < |library| && library[i] == ':'
    ensures var a, b := library[..i], library[i + 1..];
      (if a != "" then ":" + a else "") + (if b != "" then ":" + b else "") == ":" + library <==> a != "" && b != ""
  {
    var a, b := library[..i], library[i + 1..];
    if a != "" && b != "" {
      assert library == a + (":" + b);
    } else {
      assert |(if a != "" then ":" + a else "") + (if b != "" then ":" + b else "")| < |":" + library|;
    }
  }

  lemma {:induction false} SuffixMatters(c: CanonicalId, d: CanonicalId)
    requires TypeName(c) == TypeName(d) && c.email == d.email
    ensures Print(c) == Print(d) <==> Suffix(c) == Suffix(d)
  {
    var head := TypeName(c) + ":" + c.email;
    if Print(c) == Print(d) {
      assert Suffix(c) == Print(c)[|head|..] && Suffix(d) == Print(d)[|head|..];
    }
  }

  // ---------------------------------------------------------------- replacing the email

  /** `WithEmail`: fails on an email that does not fit, and on SharePoint identifiers without site or library. */
  function WithEmail(c: CanonicalId, email: string): Option<CanonicalId> {
    match c
    case Personal(_) => Parse("personal" + ":" + email)
    case Business(_) => Parse("business" + ":" + email)
    case SharePoint(_, site, library) =>
      if email == "" || site == "" || library == "" then None else Some(SharePoint(email, site, library))
    case Shared(_, drive, item) =>
      if email == "" || drive == "" || item == "" then None else Some(Shared(email, drive, item))
  }

  /** The identifier with another email and everything else kept. */
  function Readdressed(c: CanonicalId, email: string): CanonicalId {
    match c
    case Personal(_) => Personal(email)
    case Business(_) => Business(email)
    case SharePoint(_, site, library) => SharePoint(email, site, library)
    case Shared(_, drive, item) => Shared(email, drive, item)
  }

  /** With a colon-free email the result differs in the email alone. */
  lemma {:induction false} WithEmailMeaning(c: CanonicalId, email: string)
    requires Parsed(c) && email != "" && NoColon(email)
    ensures WithEmail(c, email).None? <==> c.SharePoint? && (c.site == "" || c.library == "")
    ensures WithEmail(c, email).Some? ==>
      WithEmail(c, email).value == Readdressed(c, email) && Parsed(Readdressed(c, email))
  {
    if c.Personal? {
      ConstructAccount("personal", email);
    } else if c.Business? {
      ConstructAccount("business", email);
    }
  }

  lemma {:induction false} ConstructAccount(kind: string, email: string)
    requires email != "" && NoColon(email) && (kind == "personal" || kind == "business")
    ensures Parse(kind + ":" + email) == Some(if kind == "personal" then Personal(email) else Business(email))
  {
    SplitHead(kind, email, "");
  }

  /** The printed forms, type by type. */
  lemma {:induction false} PrintedForms(email: string, a: string, b: string)
    ensures Print(Personal(email)) == "personal:" + email && Print(Business(email)) == "business:" + email
    ensures a != "" && b != "" ==> Print(SharePoint(email, a, b)) == "sharepoint:" + email + ":" + a + ":" + b
    ensures Print(Shared(email, a, b)) == "shared:" + email + ":" + a + ":" + b
  {
    assert "personal" + ":" + email + "" == "personal:" + email;
    assert "business" + ":" + email + "" == "business:" + email;
    assert "sharepoint" + ":" + email + (":" + a + (":" + b)) == "sharepoint:" + email + ":" + a + ":" + b;
    assert "shared" + ":" + email + (":" + a + ":" + b) == "shared:" + email + ":" + a + ":" + b;
  }
}
