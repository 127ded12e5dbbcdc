/** Paths as component lists: the text determines the components. */
module Components {
  import opened Text

  function Joined(parts: seq<string>): string
    requires parts != []
  {
    if |parts| == 1 then parts[0] else parts[0] + "/" + Joined(parts[1..])
  }

  function Slashed(parts: seq<string>): string {
    if parts == [] then "" else parts[0] + "/" + Slashed(parts[1..])
  }

  predicate SlashFree(parts: seq<string>) {
    forall i :: 0 <= i < |parts| ==> '/' !in parts[i]
  }

  lemma {:induction false} JoinedSlashed(parts: seq<string>)
    requires parts != []
    ensures Joined(parts) + "/" == Slashed(parts)
  {
    if |parts| > 1 {
      JoinedSlashed(parts[1..]);
      assert parts[0] + "/" + Joined(parts[1..]) + "/" == parts[0] + "/" + (Joined(parts[1..]) + "/");
    } else {
      assert parts[1..] == [];
    }
  }

  /** Two slash-terminated texts: the first pieces agree, and so do the rests as far as they go. */
  lemma {:induction false} PieceByPiece(a: string, b: string, x: string, y: string)
    requires '/' !in a && '/' !in b
    ensures a + "/" + x <= b + "/" + y <==> a == b && x <= y
  {
    var s, t := a + "/" + x, b + "/" + y;
    if s <= t {
      assert t[|a|] == s[|a|] == '/';
      assert |b| <= |a|;
      assert s[|b|] == t[|b|] == '/';
      assert |a| == |b|;
      assert a == s[..|a|] && b == t[..|a|];
      assert x == s[|a| + 1..] && y == t[|a| + 1..];
    }
  }

  lemma {:induction false} SlashedPrefix(x: seq<string>, y: seq<string>)
    requires SlashFree(x) && SlashFree(y)
    ensures Slashed(x) <= Slashed(y) <==> x <= y
  {
    if x != [] && y != [] {
      PieceByPiece(x[0], y[0], Slashed(x[1..]), Slashed(y[1..]));
      SlashedPrefix(x[1..], y[1..]);
      assert x == [x[0]] + x[1..] && y == [y[0]] + y[1..];
    }
  }

  lemma {:induction false} JoinedInjective(x: seq<string>, y: seq<string>)
    requires SlashFree(x) && SlashFree(y) && x != [] && y != [] && Joined(x) == Joined(y)
    ensures x == y
  {
    JoinedSlashed(x);
    JoinedSlashed(y);
    SlashedPrefix(x, y);
    SlashedPrefix(y, x);
  }

  // ---------------------------------------------------------------- filepath.Clean

  /** `strings.Split(s, "/")`. */
  function Pieces(s: string): (r: seq<string>)
    ensures |r| > 0
    decreases |s|
  {
    var i := IndexOf(s, '/');
    if i == |s| then [s] else [s[..i]] + Pieces(s[i + 1..])
  }

  lemma {:induction false} PiecesSlashFree(s: string)
    ensures SlashFree(Pieces(s))
    decreases |s|
  {
    var i := IndexOf(s, '/');
    if i < |s| {
      PiecesSlashFree(s[i + 1..]);
    }
  }

  /** The components that cleaning leaves: empty ones and `.` go, and `..` takes the one before it along. */
  function Kept(rooted: bool, done: seq<string>, parts: seq<string>): seq<string>
    decreases parts
  {
    if parts == [] then done
    else
      var p := parts[0];
      Kept(rooted,
           if p == "" || p == "." then done
           else if p != ".." then done + [p]
           else if done != [] && done[|done| - 1] != ".." then done[..|done| - 1]
           else if rooted then done
           else done + [p],
           parts[1..])
  }

  /** `filepath.Clean`, as the pieces of the cleaned text. */
  function Clean(s: string): (r: seq<string>) {
    var rooted := s != "" && s[0] == '/';
    var body := Kept(rooted, [], Pieces(s));
    if rooted then (if body == [] then ["", ""] else [""] + body)
    else if body == [] then ["."] else body
  }

  lemma {:induction false} KeptSlashFree(rooted: bool, done: seq<string>, parts: seq<string>)
    requires SlashFree(done) && SlashFree(parts)
    ensures SlashFree(Kept(rooted, done, parts))
    decreases parts
  {
    if parts != [] {
      var p := parts[0];
      KeptSlashFree(rooted,
        if p == "" || p == "." then done
        else if p != ".." then done + [p]
        else if done != [] && done[|done| - 1] != ".." then done[..|done| - 1]
        else if rooted then done
        else done + [p],
        parts[1..]);
    }
  }

  lemma {:induction false} CleanSlashFree(s: string)
    ensures Clean(s) != [] && SlashFree(Clean(s))
  {
    hide Kept;
    PiecesSlashFree(s);
    KeptSlashFree(s != "" && s[0] == '/', [], Pieces(s));
  }

  /** A component that cleaning leaves alone. */
  predicate PlainPart(p: string) {
    p != "" && p != "." && p != ".." && '/' !in p
  }

  lemma {:induction false} PiecesOne(p: string)
    requires '/' !in p
    ensures Pieces(p) == [p]
  {
  }

  lemma {:induction false} PiecesJoined(a: string, b: string)
    ensures Pieces(a + "/" + b) == Pieces(a) + Pieces(b)
    decreases |a|
  {
    hide IndexOf;
    var s, i := a + "/" + b, IndexOf(a, '/');
    IndexOfUnique(s, '/', i);
    if i == |a| {
      assert s[..i] == a && s[i + 1..] == b;
    } else {
      assert s[..i] == a[..i] && s[i + 1..] == a[i + 1..] + "/" + b;
      PiecesJoined(a[i + 1..], b);
      assert [a[..i]] + (Pieces(a[i + 1..]) + Pieces(b)) == [a[..i]] + Pieces(a[i + 1..]) + Pieces(b);
    }
  }

  lemma {:induction false} KeptLast(rooted: bool, done: seq<string>, parts: seq<string>, p: string)
    requires PlainPart(p)
    ensures Kept(rooted, done, parts + [p]) == Kept(rooted, done, parts) + [p]
    decreases parts
  {
    if parts == [] {
      assert [] + [p] == [p] && [p][1..] == [];
    } else {
      var q := parts[0];
      assert (parts + [p])[1..] == parts[1..] + [p];
      KeptLast(rooted,
        if q == "" || q == "." then done
        else if q != ".." then done + [q]
        else if done != [] && done[|done| - 1] != ".." then done[..|done| - 1]
        else if rooted then done
        else done + [q],
        parts[1..], p);
    }
  }

  /** Cleaning a directory joined with a plain name keeps the name as last component. */
  lemma {:induction false} CleanLast(d: string, p: string)
    requires d != "" && PlainPart(p)
    ensures var r := Clean(d + "/" + p); r != [] && r[|r| - 1] == p
  {
    hide Kept, Pieces;
    PiecesJoined(d, p);
    PiecesOne(p);
    KeptLast((d + "/" + p)[0] == '/', [], Pieces(d), p);
  }

  predicate PlainParts(parts: seq<string>) {
    forall i :: 0 <= i < |parts| ==> PlainPart(parts[i])
  }

  lemma {:induction false} KeptPlain(rooted: bool, done: seq<string>, parts: seq<string>)
    requires PlainParts(parts)
    ensures Kept(rooted, done, parts) == done + parts
    decreases parts
  {
    if parts != [] {
      assert PlainPart(parts[0]);
      KeptPlain(rooted, done + [parts[0]], parts[1..]);
      assert done + [parts[0]] + parts[1..] == done + parts;
    }
  }

  lemma {:induction false} PiecesOfJoined(parts: seq<string>)
    requires parts != [] && SlashFree(parts)
    ensures Pieces(Joined(parts)) == parts
  {
    hide Pieces;
    if |parts| == 1 {
      PiecesOne(parts[0]);
    } else {
      PiecesOfJoined(parts[1..]);
      PiecesJoined(parts[0], Joined(parts[1..]));
      PiecesOne(parts[0]);
      assert parts == [parts[0]] + parts[1..];
    }
  }

  /** A path of plain components is clean. */
  lemma {:induction false} CleanPlain(parts: seq<string>)
    requires parts != [] && PlainParts(parts)
    ensures Clean(Joined(parts)) == parts
  {
    hide Kept, Pieces, Joined;
    PiecesOfJoined(parts);
    KeptPlain(false, [], parts);
    KeptPlain(true, [], parts);
    assert [] + parts == parts;
    JoinedHead(parts);
  }

  lemma {:induction false} JoinedHead(parts: seq<string>)
    requires parts != [] && PlainPart(parts[0])
    ensures Joined(parts) != "" && Joined(parts)[0] != '/'
  {
    assert Joined(parts)[0] == parts[0][0];
  }

  /** What cleaning does with each kind of component: empty ones and `.` go, a plain one followed by `..` goes with it,
      and `..` at the front stays in a relative path and goes in a rooted one. */
  lemma {:induction false} CleanSteps(rooted: bool, done: seq<string>, p: string, rest: seq<string>)
    requires PlainPart(p)
    ensures Kept(rooted, done, [""] + rest) == Kept(rooted, done, rest)
    ensures Kept(rooted, done, ["."] + rest) == Kept(rooted, done, rest)
    ensures Kept(rooted, done, [p, ".."] + rest) == Kept(rooted, done, rest)
    ensures Kept(rooted, [], [".."] + rest) == Kept(rooted, if rooted then [] else [".."], rest)
    ensures Kept(rooted, [".."], [".."] + rest) == Kept(rooted, if rooted then [".."] else ["..", ".."], rest)
  {
    assert ([""] + rest)[1..] == rest && (["."] + rest)[1..] == rest && ([".."] + rest)[1..] == rest;
    var two := [p, ".."] + rest;
    assert two[1..] == [".."] + rest && (done + [p])[..|done|] == done;
    assert [] + [".."] == [".."] && [".."] + [".."] == ["..", ".."];
  }

  /** Every component left is plain, or a `..` at the front of a relative path. */
  predicate Settled(rooted: bool, parts: seq<string>) {
    forall i :: 0 <= i < |parts| ==>
      PlainPart(parts[i]) || (!rooted && parts[i] == ".." && forall j :: 0 <= j < i ==> parts[j] == "..")
  }

  lemma {:induction false} KeptSettled(rooted: bool, done: seq<string>, parts: seq<string>)
    requires Settled(rooted, done) && SlashFree(parts)
    ensures Settled(rooted, Kept(rooted, done, parts))
    decreases parts
  {
    hide Settled;
    if parts != [] {
      var p := parts[0];
      SettledMore(rooted, done, p);
      KeptSettled(rooted,
        if p == "" || p == "." then done
        else if p != ".." then done + [p]
        else if done != [] && done[|done| - 1] != ".." then done[..|done| - 1]
        else if rooted then done
        else done + [p],
        parts[1..]);
    }
  }

  lemma {:induction false} SettledMore(rooted: bool, done: seq<string>, p: string)
    requires Settled(rooted, done) && '/' !in p
    ensures done != [] ==> Settled(rooted, done[..|done| - 1])
    ensures PlainPart(p) ==> Settled(rooted, done + [p])
    ensures p == ".." && !rooted && (done == [] || done[|done| - 1] == "..") ==> Settled(rooted, done + [p])
  {
  }

  lemma {:induction false} CleanSettled(s: string)
    ensures var rooted := s != "" && s[0] == '/';
      || Clean(s) == ["."] || (rooted && Clean(s) == ["", ""])
      || Settled(rooted, if rooted then Clean(s)[1..] else Clean(s))
  {
    hide Kept, Settled;
    PiecesSlashFree(s);
    var rooted := s != "" && s[0] == '/';
    SettledEmpty(rooted);
    KeptSettled(rooted, [], Pieces(s));
    var body := Kept(rooted, [], Pieces(s));
    assert ([""] + body)[1..] == body;
  }

  lemma {:induction false} SettledEmpty(rooted: bool)
    ensures Settled(rooted, [])
  {
  }
}
