/** State-database file names and their textual rewriting when an account changes its email:
    `DriveStatePath` of `drive.go` and `rewriteManagedEmailPath` of `email_reconcile.go`. */
module StateNames {
  import opened Text
  import opened CanonicalId
  import opened Components

  /** `strings.ReplaceAll(s, ":", "_")`. */
  function Underscored(s: string): (r: string)
    ensures |r| == |s|
    ensures forall i :: 0 <= i < |s| ==> r[i] == if s[i] == ':' then '_' else s[i]
  {
    seq(|s|, i requires 0 <= i < |s| => if s[i] == ':' then '_' else s[i])
  }

  /** File name of a drive's state database. */
  function StateName(c: CanonicalId): string {
    "state_" + Underscored(Print(c)) + ".db"
  }

  predicate MatchesAt(s: string, sub: string, i: nat) {
    i + |sub| <= |s| && s[i..i + |sub|] == sub
  }

  /** `strings.Index`. */
  function FindSub(s: string, sub: string, from: nat): (r: Option<nat>)
    requires from <= |s|
    ensures r.Some? ==> from <= r.value && MatchesAt(s, sub, r.value)
    ensures r.Some? ==> forall j :: from <= j < r.value ==> !MatchesAt(s, sub, j)
    ensures r.None? ==> forall j :: from <= j <= |s| ==> !MatchesAt(s, sub, j)
    decreases |s| - from
  {
    if MatchesAt(s, sub, from) then Some(from)
    else if from == |s| then None
    else FindSub(s, sub, from + 1)
  }

  /** `rewriteManagedEmailPath` on the file name. */
  function Rewrite(name: string, oldEmail: string, newEmail: string): string {
    match FindSub(name, "_" + oldEmail, 0)
    case None => name
    case Some(i) =>
      var after := i + |"_" + oldEmail|;
      if after < |name| && name[after] != '.' && name[after] != '_' then name
      else name[..i] + "_" + newEmail + name[after..]
  }

  /** The parts of a state name around the email. */
  function Front(c: CanonicalId): string {
    "state_" + TypeName(c)
  }

  function Back(c: CanonicalId): string {
    Underscored(Suffix(c)) + ".db"
  }

  lemma {:induction false} StateNameParts(c: CanonicalId)
    requires Parsed(c)
    ensures StateName(c) == Front(c) + ("_" + c.email) + Back(c)
    ensures Back(c) != "" && (Back(c)[0] == '.' || Back(c)[0] == '_')
  {
    TypeNamesClean(c);
    UnderscoredParts(TypeName(c), c.email, Suffix(c));
    SuffixHead(c);
    hide TypeName, Suffix, Underscored;
    assert "state_" + (TypeName(c) + "_" + c.email + Underscored(Suffix(c))) + ".db"
        == "state_" + TypeName(c) + ("_" + c.email) + (Underscored(Suffix(c)) + ".db");
  }

  lemma {:induction false} UnderscoredParts(kind: string, email: string, suffix: string)
    requires NoColon(kind) && NoColon(email)
    ensures Underscored(kind + ":" + email + suffix) == kind + "_" + email + Underscored(suffix)
  {
  }

  lemma {:induction false} SuffixHead(c: CanonicalId)
    ensures Suffix(c) == "" || Suffix(c)[0] == ':'
  {
  }

  /** Before the email a state name has one underscore, so the email can be found too early only there. */
  lemma {:induction false} OneUnderscore(c: CanonicalId, back: string, j: nat)
    requires j < |Front(c)| && j != 5
    ensures !MatchesAt(Front(c) + ("_" + c.email) + back, "_" + c.email, j)
  {
    TypeNamesClean(c);
    var front := Front(c);
    assert front[j] != '_';
    Differs(front + ("_" + c.email) + back, "_" + c.email, j, 0);
  }

  /** An email with '@' is not found there, because types contain none. */
  lemma {:induction false} NoEarlierMatch(c: CanonicalId, back: string)
    requires '@' in c.email
    ensures !MatchesAt(Front(c) + ("_" + c.email) + back, "_" + c.email, 5)
  {
    TypeNamesClean(c);
    var kind, email := TypeName(c), c.email;
    var a := IndexOf(email, '@');
    FirstAt(email);
    var name, needle := Front(c) + ("_" + email) + back, "_" + email;
    CharOf(kind, email, back, a);
    assert needle[1 + a] == '@';
    Differs(name, needle, 5, 1 + a);
  }

  /** The character at the place where the first '@' of the email would have to be. */
  lemma {:induction false} CharOf(kind: string, email: string, back: string, a: nat)
    requires '@' !in kind && a < |email| && email[a] == '@' && forall i :: 0 <= i < a ==> email[i] != '@'
    ensures ("state_" + kind + ("_" + email) + back)[6 + a] != '@'
  {
    var name := "state_" + kind + ("_" + email) + back;
    if a < |kind| {
      assert name[6 + a] == kind[a];
    } else if a == |kind| {
      assert name[6 + a] == '_';
    } else {
      assert name[6 + a] == email[a - |kind| - 1];
    }
  }

  lemma {:induction false} FirstAt(s: string)
    requires '@' in s
    ensures IndexOf(s, '@') < |s| && s[IndexOf(s, '@')] == '@' && forall i :: 0 <= i < IndexOf(s, '@') ==> s[i] != '@'
  {
  }

  lemma {:induction false} Differs(s: string, sub: string, i: nat, k: nat)
    requires k < |sub| && i + k < |s| && s[i + k] != sub[k]
    ensures !MatchesAt(s, sub, i)
  {
    if i + |sub| <= |s| {
      assert s[i..i + |sub|][k] == s[i + k];
    }
  }

  /** The first match is the one replaced, if a separator follows. */
  lemma {:induction false} RewriteFirst(name: string, i: nat, email: string, email': string)
    requires MatchesAt(name, "_" + email, i) && forall j: nat :: j < i ==> !MatchesAt(name, "_" + email, j)
    ensures var after := i + 1 + |email|;
      after <= |name| && Rewrite(name, email, email') ==
        if after < |name| && name[after] != '.' && name[after] != '_' then name
          else name[..i] + "_" + email' + name[after..]
  {
    assert FindSub(name, "_" + email, 0) == Some(i);
    hide FindSub;
  }

  lemma {:induction false} RewriteParts(front: string, email: string, back: string, email': string)
    requires back != "" && (back[0] == '.' || back[0] == '_')
    requires forall j: nat :: j < |front| ==> !MatchesAt(front + ("_" + email) + back, "_" + email, j)
    ensures Rewrite(front + ("_" + email) + back, email, email') == front + ("_" + email') + back
  {
    hide Rewrite;
    var name, needle := front + ("_" + email) + back, "_" + email;
    assert name[|front|..|front| + |needle|] == needle;
    RewriteFirst(name, |front|, email, email');
    assert name[..|front|] == front && name[|front| + |needle|..] == back;
    assert front + "_" + email' + back == front + ("_" + email') + back;
  }

  /** The old email is read too early: right behind the first underscore, where the type stands. */
  predicate FoundTooEarly(c: CanonicalId) {
    MatchesAt(StateName(c), "_" + c.email, 5)
  }

  lemma {:induction false} RewriteRight(c: CanonicalId, email: string)
    requires Parsed(c) && !FoundTooEarly(c)
    ensures Rewrite(StateName(c), c.email, email) == Front(c) + ("_" + email) + Back(c)
  {
    hide Rewrite, MatchesAt, Back, Front, StateName;
    StateNameParts(c);
    forall j: nat | j < |Front(c)| ensures !MatchesAt(Front(c) + ("_" + c.email) + Back(c), "_" + c.email, j) {
      if j != 5 { OneUnderscore(c, Back(c), j); }
    }
    RewriteParts(Front(c), c.email, Back(c), email);
  }

  /** The text is the type, or the type repeated with underscores between. */
  predicate OnlyType(s: string, kind: string)
    decreases |s|
  {
    s == kind || (|s| > |kind| && s[..|kind| + 1] == kind + "_" && OnlyType(s[|kind| + 1..], kind))
  }

  /** A match that is too early ends inside the type, or the old email repeats the type. */
  lemma {:induction false} EarlyTail(kind: string, e: string, back: string)
    requires kind != "" && '_' !in kind && '.' !in kind && e != ""
    requires MatchesAt(kind + ("_" + e) + back, e, 0)
    ensures var x := kind + ("_" + e) + back;
      if OnlyType(e, kind) then x[|e|..] == "_" + kind + back
      else |e| < |x| && x[|e|] != '_' && x[|e|] != '.'
    decreases |e|
  {
    var x := kind + ("_" + e) + back;
    assert x[..|e|] == e;
    if |e| < |kind| {
      assert x[|e|] == kind[|e|] && kind[|e|] in kind;
    } else if |e| == |kind| {
      assert e == x[..|kind|] == kind;
    } else {
      var rest := EarlyRest(kind, e, back);
      var y := kind + ("_" + rest) + back;
      if rest == "" {
        assert !OnlyType(rest, kind) && y[0] == kind[0] && kind[0] in kind && x[|e|] == y[0];
      } else {
        EarlyTail(kind, rest, back);
      }
    }
  }

  lemma {:induction false} EarlyRest(kind: string, e: string, back: string) returns (rest: string)
    requires |e| > |kind| && MatchesAt(kind + ("_" + e) + back, e, 0)
    ensures e == kind + "_" + rest && e[..|kind| + 1] == kind + "_" && e[|kind| + 1..] == rest
    ensures var x, y := kind + ("_" + e) + back, kind + ("_" + rest) + back;
      MatchesAt(y, rest, 0) && x[|e|..] == y[|rest|..]
  {
    var x, n := kind + ("_" + e) + back, |kind| + 1;
    assert x[..|e|] == e;
    assert e[..n] == x[..n] == kind + "_";
    rest := e[n..];
    var y := kind + ("_" + rest) + back;
    assert x[n..] == e + back == y;
    assert x[|e|..] == y[|rest|..];
    assert y[..|rest|] == rest by { assert x[n..|e|] == x[..|e|][n..]; }
  }

  /** Only repetitions of the type change places with it. */
  lemma {:induction false} Swaps(kind: string, e: string)
    requires kind != "" && '_' !in kind && e != ""
    ensures e + "_" + kind == kind + "_" + e <==> OnlyType(e, kind)
    decreases |e|
  {
    var l, r, n := e + "_" + kind, kind + "_" + e, |kind| + 1;
    if |e| < |kind| {
      assert l[|e|] == '_' && r[|e|] == kind[|e|] && kind[|e|] in kind;
    } else if |e| == |kind| {
      assert l[..|e|] == e && r[..|e|] == kind;
    } else if e[..n] == kind + "_" {
      var d := e[n..];
      assert e == kind + "_" + d;
      assert l == (kind + "_") + (d + "_" + kind) && r == (kind + "_") + (kind + "_" + d);
      assert l[n..] == d + "_" + kind && r[n..] == kind + "_" + d;
      if d == "" {
        assert l[n] == '_' && r[n] == kind[0] && kind[0] in kind;
      } else {
        Swaps(kind, d);
      }
    } else {
      assert l[..n] == e[..n] && r[..n] == kind + "_";
    }
  }

  /** Found too early, nothing is done at all; or the type is taken for the email, when the email repeats it. */
  lemma {:induction false} RewriteWrong(c: CanonicalId, email: string)
    requires Parsed(c) && FoundTooEarly(c)
    ensures Rewrite(StateName(c), c.email, email) ==
      if OnlyType(c.email, TypeName(c)) then "state" + ("_" + email) + ("_" + TypeName(c) + Back(c)) else StateName(c)
  {
    hide Back, Front, StateName, Rewrite, MatchesAt, TypeName, OnlyType, Parsed;
    var name, needle := StateName(c), "_" + c.email;
    StateNameParts(c);
    FrontHead(c);
    forall j: nat | j < 5 ensures !MatchesAt(name, needle, j) {
      OneUnderscore(c, Back(c), j);
    }
    RewriteFirst(name, 5, c.email, email);
    NameHead(c, name);
    TooEarlyParts(c);
    EarlyTail(TypeName(c), c.email, Back(c));
    assert "state" + "_" + email == "state" + ("_" + email);
  }

  lemma {:induction false} TooEarlyParts(c: CanonicalId)
    requires Parsed(c) && FoundTooEarly(c)
    ensures TypeName(c) != "" && '_' !in TypeName(c) && '.' !in TypeName(c) && c.email != ""
    ensures var x := TypeName(c) + ("_" + c.email) + Back(c);
      MatchesAt(x, c.email, 0) && |StateName(c)| == 6 + |x| && StateName(c)[6 + |c.email|..] == x[|c.email|..]
      && forall k :: 0 <= k < |x| ==> StateName(c)[6 + k] == x[k]
  {
    StateNameParts(c);
    KindClean(c);
    FrontIs(c);
    hide Back, StateName, TypeName, Parsed, Front, MatchesAt;
    BehindState(TypeName(c), c.email, Back(c), StateName(c));
  }

  lemma {:induction false} KindClean(c: CanonicalId)
    requires Parsed(c)
    ensures TypeName(c) != "" && '_' !in TypeName(c) && '.' !in TypeName(c) && c.email != ""
  {
    hide Suffix;
  }

  lemma {:induction false} BehindState(kind: string, e: string, back: string, name: string)
    requires name == "state_" + kind + ("_" + e) + back && MatchesAt(name, "_" + e, 5)
    ensures var x := kind + ("_" + e) + back;
      MatchesAt(x, e, 0) && |name| == 6 + |x| && name[6 + |e|..] == x[|e|..]
      && forall k :: 0 <= k < |x| ==> name[6 + k] == x[k]
  {
    var x := kind + ("_" + e) + back;
    assert name == "state_" + x;
    assert (name[5..6 + |e|])[1..] == name[6..6 + |e|] == x[..|e|];
    assert ("_" + e)[1..] == e;
  }

  lemma {:induction false} NameHead(c: CanonicalId, name: string)
    requires name == Front(c) + ("_" + c.email) + Back(c)
    ensures |name| > 6 && name[..5] == "state"
  {
    hide Back, TypeName;
    assert name == "state" + ("_" + TypeName(c) + ("_" + c.email) + Back(c));
  }

  lemma {:induction false} FrontHead(c: CanonicalId)
    ensures |Front(c)| > 6
  {
  }

  lemma {:induction false} EmailsDiffer(front: string, a: string, b: string, back: string)
    requires front + ("_" + a) + back == front + ("_" + b) + back
    ensures a == b
  {
    var s, t := front + ("_" + a) + back, front + ("_" + b) + back;
    assert |a| == |b|;
    assert s[|front| + 1..|front| + 1 + |a|] == a && t[|front| + 1..|front| + 1 + |b|] == b;
  }

  /** Rewriting the email in the file name gives the file name of the identifier with the new email, exactly if the
      old email is not found too early, or does not change, or both emails only repeat the type. */
  lemma {:induction false} RewriteExact(c: CanonicalId, email: string)
    requires Parsed(c) && email != "" && NoColon(email) && WithEmail(c, email).Some?
    ensures Rewrite(StateName(c), c.email, email) == StateName(WithEmail(c, email).value) <==>
      !FoundTooEarly(c) || email == c.email || (OnlyType(c.email, TypeName(c)) && OnlyType(email, TypeName(c)))
  {
    hide Rewrite, StateName, FoundTooEarly, Back, Front, OnlyType, TypeName, Parsed;
    WithEmailMeaning(c, email);
    var d := Readdressed(c, email);
    SameAround(c, email);
    StateNameParts(c);
    StateNameParts(d);
    if FoundTooEarly(c) {
      RewriteWrong(c, email);
      TooEarlyParts(c);
      if OnlyType(c.email, TypeName(c)) {
        SwappedNames(TypeName(c), email, Back(c));
        Swaps(TypeName(c), email);
        FrontIs(c);
      } else if StateName(c) == StateName(d) {
        EmailsDiffer(Front(c), c.email, email, Back(c));
      }
    } else {
      RewriteRight(c, email);
    }
  }

  lemma {:induction false} FrontIs(c: CanonicalId)
    ensures Front(c) == "state_" + TypeName(c)
  {
  }

  lemma {:induction false} SwappedNames(kind: string, e: string, back: string)
    ensures "state" + ("_" + e) + ("_" + kind + back) == "state_" + kind + ("_" + e) + back <==>
      e + "_" + kind == kind + "_" + e
  {
    var l, r := "state" + ("_" + e) + ("_" + kind + back), "state_" + kind + ("_" + e) + back;
    var n := |e| + |kind| + 1;
    assert l == "state_" + (e + "_" + kind) + back && r == "state_" + (kind + "_" + e) + back;
    assert l[6..6 + n] == e + "_" + kind && r[6..6 + n] == kind + "_" + e;
  }

  lemma {:induction false} SameAround(c: CanonicalId, email: string)
    ensures Front(Readdressed(c, email)) == Front(c) && Back(Readdressed(c, email)) == Back(c)
  {
  }

  lemma {:induction false} AtIsEnough(c: CanonicalId)
    requires Parsed(c) && '@' in c.email
    ensures !FoundTooEarly(c)
  {
    StateNameParts(c);
    NoEarlierMatch(c, Back(c));
    hide Front, Back, StateName, MatchesAt;
  }

  /** An email with '@' is never found too early, so rewriting is right. */
  lemma {:induction false} RewriteIsStructural(c: CanonicalId, email: string)
    requires Parsed(c) && '@' in c.email && email != "" && NoColon(email) && WithEmail(c, email).Some?
    ensures Rewrite(StateName(c), c.email, email) == StateName(WithEmail(c, email).value)
  {
    hide Rewrite, StateName, FoundTooEarly, Back, Front;
    WithEmailMeaning(c, email);
    AtIsEnough(c);
    RewriteRight(c, email);
    SameAround(c, email);
    StateNameParts(Readdressed(c, email));
  }

  /** `rewriteManagedEmailPath` on a whole path, as its pieces: only the last one is looked at. */
  function RewritePath(path: string, oldEmail: string, newEmail: string): seq<string> {
    var p := Pieces(path);
    p[..|p| - 1] + [Rewrite(p[|p| - 1], oldEmail, newEmail)]
  }

  /** On the path of a state database the rewriting acts on the file name, if the identifier holds no slash. */
  lemma {:induction false} PathIsStructural(dir: string, c: CanonicalId, email: string)
    requires Parsed(c) && '@' in c.email && email != "" && NoColon(email) && WithEmail(c, email).Some?
    requires '/' !in Print(c)
    ensures RewritePath(dir + "/" + StateName(c), c.email, email) ==
      Pieces(dir) + [StateName(WithEmail(c, email).value)]
  {
    NameSlashFree(c);
    hide Rewrite, StateName, Pieces;
    PiecesJoined(dir, StateName(c));
    PiecesOne(StateName(c));
    RewriteIsStructural(c, email);
  }

  lemma {:induction false} NameSlashFree(c: CanonicalId)
    requires '/' !in Print(c)
    ensures '/' !in StateName(c)
  {
    hide Print;
    var u := Underscored(Print(c));
    forall i | 0 <= i < |u| ensures u[i] != '/' {
      assert Print(c)[i] in Print(c);
    }
  }

  /** Rewriting there and back restores the name. */
  lemma {:induction false} RewriteBack(c: CanonicalId, email: string)
    requires Parsed(c) && '@' in c.email && '@' in email && NoColon(email) && WithEmail(c, email).Some?
    ensures Rewrite(Rewrite(StateName(c), c.email, email), email, c.email) == StateName(c)
  {
    WithEmailMeaning(c, email);
    var d := Readdressed(c, email);
    WithEmailMeaning(d, c.email);
    RewriteIsStructural(c, email);
    RewriteIsStructural(d, c.email);
    assert Readdressed(d, c.email) == c;
  }

  /** The failing family has members: every drive whose email is its type, such as `personal:personal`. */
  lemma {:induction false} RewriteNeedsAt(c: CanonicalId, email: string)
    requires Parsed(c) && c.email == TypeName(c) && email != "" && NoColon(email) && WithEmail(c, email).Some?
    ensures Rewrite(StateName(c), c.email, email) == StateName(WithEmail(c, email).value) <==>
      OnlyType(email, TypeName(c))
  {
    hide Rewrite, StateName, Back, Front, MatchesAt, Parsed, TypeName, WithEmail;
    StateNameParts(c);
    TypeIsEmail(c, Back(c));
    RewriteExact(c, email);
  }

  lemma {:induction false} TypeIsEmail(c: CanonicalId, back: string)
    requires TypeName(c) == c.email
    ensures MatchesAt(Front(c) + ("_" + c.email) + back, "_" + c.email, 5)
  {
    var name, email := Front(c) + ("_" + c.email) + back, c.email;
    assert name == "state" + ("_" + email) + (("_" + email) + back);
    assert name[5..5 + |"_" + email|] == "_" + email;
  }

  /** The file names, type by type: colons become underscores. */
  lemma {:induction false} StateNameForms(email: string, a: string, b: string)
    requires NoColon(email) && NoColon(a) && NoColon(b)
    ensures StateName(Personal(email)) == "state_" + ("personal" + "_" + email) + ".db"
    ensures StateName(Business(email)) == "state_" + ("business" + "_" + email) + ".db"
    ensures a != "" && b != "" ==>
      StateName(SharePoint(email, a, b)) == "state_" + ("sharepoint" + "_" + email + "_" + a + "_" + b) + ".db"
    ensures StateName(Shared(email, a, b)) == "state_" + ("shared" + "_" + email + "_" + a + "_" + b) + ".db"
  {
    PrintedForms(email, a, b);
    hide Print, Underscored;
    Underscores2("personal", email);
    Underscores2("business", email);
    Underscores4("sharepoint", email, a, b);
    Underscores4("shared", email, a, b);
    assert "personal:" + email == "personal" + ":" + email && "business:" + email == "business" + ":" + email;
    assert "sharepoint:" + email == "sharepoint" + ":" + email && "shared:" + email == "shared" + ":" + email;
  }

  lemma {:induction false} Underscores2(kind: string, email: string)
    requires NoColon(kind) && NoColon(email)
    ensures Underscored(kind + ":" + email) == kind + "_" + email
  {
  }

  lemma {:induction false} Underscores4(kind: string, email: string, a: string, b: string)
    requires NoColon(kind) && NoColon(email) && NoColon(a) && NoColon(b)
    ensures Underscored(kind + ":" + email + ":" + a + ":" + b) == kind + "_" + email + "_" + a + "_" + b
  {
  }
}
