/** Validation of the drives' sync directories: no two drives may share one, and none may lie inside
    another. The code compares strings; the laws are about path components. */
module SyncDirs {
  import opened Text
  import opened Components

  /** A cleaned path; no components is the root, or the current directory. */
  datatype Path = Path(absolute: bool, parts: seq<string>)

  predicate GoodPart(c: string) {
    c != "" && c != "." && '/' !in c
  }

  predicate GoodParts(parts: seq<string>) {
    forall i :: 0 <= i < |parts| ==> GoodPart(parts[i])
  }

  /** The path as `filepath.Clean` writes it. */
  function PathText(p: Path): string {
    if p.parts == [] then (if p.absolute then "/" else ".")
    else (if p.absolute then "/" else "") + Joined(p.parts)
  }

  /** Component-wise: `a` is `b` or an ancestor of it. */
  predicate Above(a: Path, b: Path) {
    a.absolute == b.absolute && a.parts <= b.parts
  }

  /** Half of `isAncestorOrDescendant`. */
  predicate PrefixTest(a: string, b: string) {
    a + "/" <= b + "/"
  }

  // ---------------------------------------------------------------- string prefixes and components

  /** The slash-terminated pieces of a path's text. */
  function Pieces(p: Path): seq<string> {
    if p.parts == [] then (if p.absolute then ["", ""] else ["."])
    else if p.absolute then [""] + p.parts else p.parts
  }

  lemma {:induction false} TextPieces(p: Path)
    requires GoodParts(p.parts)
    ensures PathText(p) + "/" == Slashed(Pieces(p)) && SlashFree(Pieces(p))
  {
    assert forall i :: 0 <= i < |p.parts| ==> GoodPart(p.parts[i]);
    if p.parts == [] {
      assert Pieces(p)[1..] == if p.absolute then [""] else [];
      assert [""][1..] == [];
    } else {
      JoinedSlashed(p.parts);
      assert ([""] + p.parts)[1..] == p.parts;
      assert "/" + Joined(p.parts) + "/" == "/" + (Joined(p.parts) + "/");
      assert "" + "/" == "/" && "" + Joined(p.parts) == Joined(p.parts);
    }
  }

  /** The string test is component-wise ancestry, except for the root and the current directory, which it
      finds above nothing but themselves. */
  lemma {:induction false} PrefixTestExact(a: Path, b: Path)
    requires GoodParts(a.parts) && GoodParts(b.parts)
    ensures PrefixTest(PathText(a), PathText(b)) <==> if a.parts == [] then a == b else Above(a, b)
  {
    TextPieces(a);
    TextPieces(b);
    SlashedPrefix(Pieces(a), Pieces(b));
    PiecesPrefix(a, b);
  }

  lemma {:induction false} PiecesPrefix(a: Path, b: Path)
    requires GoodParts(a.parts) && GoodParts(b.parts)
    ensures Pieces(a) <= Pieces(b) <==> if a.parts == [] then a == b else Above(a, b)
  {
    var p, q := Pieces(a), Pieces(b);
    assert a.parts != [] ==> GoodPart(a.parts[0]) && p == (if a.absolute then [""] else []) + a.parts;
    assert b.parts != [] ==> GoodPart(b.parts[0]) && q == (if b.absolute then [""] else []) + b.parts;
    assert p <= q ==> p[0] == q[0] && (|p| > 1 ==> p[1] == q[1]);
    if a.parts != [] && b.parts != [] && a.absolute && b.absolute {
      assert p[1..] == a.parts && q[1..] == b.parts;
      assert p <= q <==> p[1..] <= q[1..];
    }
  }

  lemma {:induction false} TextInjective(a: Path, b: Path)
    requires GoodParts(a.parts) && GoodParts(b.parts) && PathText(a) == PathText(b)
    ensures a == b
  {
    hide PathText, GoodParts;
    PrefixTestExact(a, b);
    PrefixTestExact(b, a);
  }

  // ---------------------------------------------------------------- resolving symbolic links

  /** The file system: where an existing path really is. */
  type Resolver = Path -> Option<Path>

  ghost predicate GoodResolver(resolve: Resolver) {
    forall p: Path :: GoodParts(p.parts) && resolve(p).Some? ==> GoodParts(resolve(p).value.parts)
  }

  /** The longest existing ancestor is resolved, and the rest of the path is kept. */
  function Resolved(resolve: Resolver, p: Path): (r: Path)
    decreases |p.parts|
  {
    match resolve(p)
    case Some(q) => q
    case None =>
      if p.parts == [] then p
      else
        var q := Resolved(resolve, Path(p.absolute, p.parts[..|p.parts| - 1]));
        Path(q.absolute, q.parts + [p.parts[|p.parts| - 1]])
  }

  function CanonicalPath(resolve: Resolver, p: Path): Path {
    if p.absolute then Resolved(resolve, p) else p
  }

  lemma {:induction false} ResolvedGood(resolve: Resolver, p: Path)
    requires GoodResolver(resolve) && GoodParts(p.parts)
    ensures GoodParts(Resolved(resolve, p).parts)
    decreases |p.parts|
  {
    if resolve(p).None? && p.parts != [] {
      ResolvedGood(resolve, Path(p.absolute, p.parts[..|p.parts| - 1]));
    }
  }

  function Ancestor(p: Path, k: nat): Path
    requires k <= |p.parts|
  {
    Path(p.absolute, p.parts[..k])
  }

  function Extended(q: Path, missing: seq<string>): Path {
    Path(q.absolute, q.parts + missing)
  }

  /** Resolving an ancestor and putting the missing components back resolves the path. */
  predicate Via(resolve: Resolver, p: Path, k: nat)
    requires k <= |p.parts|
  {
    Resolved(resolve, p) == Extended(Resolved(resolve, Ancestor(p, k)), p.parts[k..])
  }

  lemma {:induction false} ViaStep(resolve: Resolver, p: Path, k: nat)
    requires 0 < k <= |p.parts| && Via(resolve, p, k) && resolve(Ancestor(p, k)).None?
    ensures Via(resolve, p, k - 1)
  {
    assert p.parts[..k][..k - 1] == p.parts[..k - 1];
    var q := Resolved(resolve, Ancestor(p, k - 1));
    var last, rest := [p.parts[k - 1]], p.parts[k..];
    assert Resolved(resolve, Ancestor(p, k)).parts == q.parts + last;
    assert last + rest == p.parts[k - 1..];
    assert (q.parts + last) + rest == q.parts + (last + rest);
  }

  lemma {:induction false} ViaEnds(resolve: Resolver, p: Path, k: nat)
    requires k <= |p.parts|
    ensures k == |p.parts| ==> Ancestor(p, k) == p && Via(resolve, p, k)
    ensures k == 0 && resolve(Ancestor(p, k)).None? && Via(resolve, p, k) ==> Resolved(resolve, p) == p
    ensures resolve(Ancestor(p, k)).Some? && Via(resolve, p, k) ==>
      Resolved(resolve, p) == Extended(resolve(Ancestor(p, k)).value, p.parts[k..])
  {
    if k == |p.parts| {
      assert p.parts[..k] == p.parts && p.parts[k..] == [];
      assert Extended(Resolved(resolve, p), []) == Resolved(resolve, p);
    }
    assert [] + p.parts[0..] == p.parts;
  }

  lemma {:induction false} ViaDown(resolve: Resolver, p: Path, k: nat)
    requires k <= |p.parts| && forall j :: k < j <= |p.parts| ==> resolve(Ancestor(p, j)).None?
    ensures Via(resolve, p, k)
    decreases |p.parts| - k
  {
    hide Via, Ancestor;
    ViaEnds(resolve, p, k);
    if k < |p.parts| {
      ViaDown(resolve, p, k + 1);
      ViaStep(resolve, p, k + 1);
    }
  }

  /** The longest existing ancestor decides: two spellings of one place become one path. */
  lemma {:induction false} LongestExisting(resolve: Resolver, p: Path, k: nat)
    requires k <= |p.parts| && resolve(Ancestor(p, k)).Some?
    requires forall j :: k < j <= |p.parts| ==> resolve(Ancestor(p, j)).None?
    ensures Resolved(resolve, p) == Extended(resolve(Ancestor(p, k)).value, p.parts[k..])
  {
    ViaDown(resolve, p, k);
    ViaEnds(resolve, p, k);
  }

  /** `canonicalSyncDirPath` with `canonicalPathThroughExistingParent`: the parents are probed upwards. */
  method CanonicalSyncDirPath(resolve: Resolver, p: Path) returns (r: Path)
    requires GoodResolver(resolve) && GoodParts(p.parts)
    ensures r == CanonicalPath(resolve, p) && GoodParts(r.parts)
  {
    if !p.absolute { return p; }
    hide GoodParts, GoodResolver, Resolved, Via, Ancestor, Extended;
    ResolvedGood(resolve, p);
    ViaEnds(resolve, p, |p.parts|);
    if resolve(p).Some? {
      ResolvedExisting(resolve, p);
      return resolve(p).value;
    }
    var k, missing := |p.parts|, [];
    while k > 0
      invariant 0 <= k <= |p.parts| && missing == p.parts[k..] && resolve(Ancestor(p, k)).None? && Via(resolve, p, k)
    {
      ViaStep(resolve, p, k);
      k, missing := k - 1, [p.parts[k - 1]] + missing;
      ViaEnds(resolve, p, k);
      if resolve(Ancestor(p, k)).Some? {
        return Extended(resolve(Ancestor(p, k)).value, missing);
      }
    }
    ViaEnds(resolve, p, 0);
    r := p;
  }

  lemma {:induction false} ResolvedExisting(resolve: Resolver, p: Path)
    requires resolve(p).Some?
    ensures Resolved(resolve, p) == resolve(p).value
  {
  }

  // ---------------------------------------------------------------- the validator

  /** What is fixed for one validation: the configured directories and how they become canonical paths. */
  datatype Setup = Setup(dirs: map<string, string>, expand: string -> Path, resolve: Resolver)

  ghost predicate GoodSetup(x: Setup) {
    GoodResolver(x.resolve) && forall d :: GoodParts(x.expand(d).parts)
  }

  predicate HasDir(x: Setup, id: string) {
    id in x.dirs && x.dirs[id] != ""
  }

  function PathOf(x: Setup, id: string): (p: Path)
    requires HasDir(x, id)
  {
    CanonicalPath(x.resolve, x.expand(x.dirs[id]))
  }

  datatype Problem = Same(first: string, second: string) | Nested(first: string, second: string)

  /** What the documentation promises to reject. */
  predicate Clash(x: Setup, i: string, j: string) {
    HasDir(x, i) && HasDir(x, j) && i != j && (Above(PathOf(x, i), PathOf(x, j)) || Above(PathOf(x, j), PathOf(x, i)))
  }

  /** The clash the string test does not see. */
  predicate RootClash(x: Setup, i: string, j: string) {
    HasDir(x, i) && HasDir(x, j) && PathOf(x, i).parts == [] && Above(PathOf(x, i), PathOf(x, j))
      && PathOf(x, i) != PathOf(x, j)
  }

  /** A reported problem is real. */
  predicate Justified(x: Setup, e: Problem) {
    && Clash(x, e.first, e.second) && (e.Same? <==> PathOf(x, e.first) == PathOf(x, e.second))
    && !RootClash(x, e.first, e.second) && !RootClash(x, e.second, e.first)
  }

  /** What the code accepts, on components: no two drives clash, unless one sits at the root. */
  ghost predicate Accepted(x: Setup) {
    forall i, j :: Clash(x, i, j) ==> RootClash(x, i, j) || RootClash(x, j, i)
  }

  /** The invariant of the `seen` map: the drives done so far, by their canonical path. */
  ghost predicate Indexes(x: Setup, seen: map<string, string>, done: set<string>) {
    && (forall p :: p in seen ==> seen[p] in done && HasDir(x, seen[p]) && PathText(PathOf(x, seen[p])) == p)
    && (forall id :: id in done && HasDir(x, id) ==> PathText(PathOf(x, id)) in seen)
  }

  lemma {:induction false} PathsGood(x: Setup, id: string)
    requires GoodSetup(x) && HasDir(x, id)
    ensures GoodParts(PathOf(x, id).parts)
  {
    ResolvedGood(x.resolve, x.expand(x.dirs[id]));
  }

  lemma {:induction false} SameText(x: Setup, i: string, j: string)
    requires GoodSetup(x) && HasDir(x, i) && HasDir(x, j)
    ensures PathText(PathOf(x, i)) == PathText(PathOf(x, j)) <==> PathOf(x, i) == PathOf(x, j)
  {
    hide PathText, GoodParts, PathOf, GoodSetup;
    PathsGood(x, i);
    PathsGood(x, j);
    if PathText(PathOf(x, i)) == PathText(PathOf(x, j)) { TextInjective(PathOf(x, i), PathOf(x, j)); }
  }

  /** `validateDrives`, the part about sync directories, for every iteration order of its maps. */
  method ValidateDrives(x: Setup) returns (errs: seq<Problem>)
    requires GoodSetup(x)
    ensures errs == [] <==> Accepted(x)
    ensures forall i :: 0 <= i < |errs| ==> Justified(x, errs[i])
  {
    hide PathText, GoodParts, GoodResolver, CanonicalPath;
    errs := [];
    var seen: map<string, string>, todo := map[], x.dirs.Keys;
    ghost var done: set<string> := {};
    while todo != {}
      invariant todo !! done && todo + done == x.dirs.Keys && Indexes(x, seen, done)
      invariant forall i :: 0 <= i < |errs| ==> Justified(x, errs[i])
      invariant errs == [] ==> forall i, j :: i in done && j in done && HasDir(x, i) && HasDir(x, j) && i != j ==>
        PathOf(x, i) != PathOf(x, j)
    {
      var id :| id in todo;
      todo := todo - {id};
      if x.dirs[id] != "" {
        var p := CanonicalSyncDirPath(x.resolve, x.expand(x.dirs[id]));
        var key := PathText(p);
        assert p == PathOf(x, id);
        if key in seen {
          SameText(x, seen[key], id);
          assert Justified(x, Same(seen[key], id));
          errs := errs + [Same(seen[key], id)];
        } else {
          Fresh(x, seen, done, id);
          seen := seen[key := id];
        }
      }
      done := done + {id};
    }
    var nested := CheckOverlap(x, seen);
    hide Justified, Accepted, Indexes, PathOf;
    Verdict(x, seen, errs, nested);
    errs := errs + nested;
  }

  lemma {:induction false} Fresh(x: Setup, seen: map<string, string>, done: set<string>, id: string)
    requires GoodSetup(x) && Indexes(x, seen, done) && HasDir(x, id) && PathText(PathOf(x, id)) !in seen
    ensures forall j :: j in done && HasDir(x, j) ==> PathOf(x, j) != PathOf(x, id)
  {
  }

  /** `checkSyncDirOverlap`. */
  method CheckOverlap(x: Setup, seen: map<string, string>) returns (errs: seq<Problem>)
    requires GoodSetup(x) && Indexes(x, seen, x.dirs.Keys)
    ensures forall i :: 0 <= i < |errs| ==> errs[i].Nested? && Justified(x, errs[i])
    ensures errs == [] <==> forall p, q :: p in seen && q in seen && p != q ==> !PrefixTest(p, q)
  {
    hide PathText, GoodParts, GoodResolver, CanonicalPath, PrefixTest, Justified, GoodSetup, Indexes;
    var entries := Entries(seen);
    errs := [];
    for i := 0 to |entries|
      invariant forall k :: 0 <= k < |errs| ==> errs[k].Nested? && Justified(x, errs[k])
      invariant errs != [] ==> SomeNested(seen)
      invariant errs == [] ==> forall a, b :: 0 <= a < i && a < b < |entries| ==> Apart(entries[a], entries[b])
    {
      for j := i + 1 to |entries|
        invariant forall k :: 0 <= k < |errs| ==> errs[k].Nested? && Justified(x, errs[k])
        invariant errs != [] ==> SomeNested(seen)
        invariant errs == [] ==> forall a, b :: 0 <= a < i && a < b < |entries| ==> Apart(entries[a], entries[b])
        invariant errs == [] ==> forall b :: i < b < j ==> Apart(entries[i], entries[b])
      {
        if PrefixTest(entries[j], entries[i]) || PrefixTest(entries[i], entries[j]) {
          NestedJustified(x, seen, entries[i], entries[j]);
          errs := errs + [Nested(seen[entries[i]], seen[entries[j]])];
        }
      }
    }
    if errs == [] {
      forall p, q | p in seen && q in seen && p != q ensures !PrefixTest(p, q) {
        var a :| 0 <= a < |entries| && entries[a] == p;
        var b :| 0 <= b < |entries| && entries[b] == q;
        assert if a < b then Apart(entries[a], entries[b]) else Apart(entries[b], entries[a]);
      }
    }
  }

  ghost predicate SomeNested(seen: map<string, string>) {
    exists p, q :: p in seen && q in seen && p != q && PrefixTest(p, q)
  }

  predicate Apart(a: string, b: string) {
    !PrefixTest(a, b) && !PrefixTest(b, a)
  }

  /** The keys of the map, each once, in any order. */
  method Entries(seen: map<string, string>) returns (entries: seq<string>)
    ensures forall p :: p in seen <==> p in entries
    ensures forall a, b :: 0 <= a < b < |entries| ==> entries[a] != entries[b]
  {
    entries := [];
    var todo := seen.Keys;
    while todo != {}
      invariant todo <= seen.Keys
      invariant forall p :: p in seen <==> p in entries || p in todo
      invariant forall p :: p in entries ==> p !in todo
      invariant forall a, b :: 0 <= a < b < |entries| ==> entries[a] != entries[b]
    {
      var p :| p in todo;
      todo := todo - {p};
      entries := entries + [p];
    }
  }

  lemma {:induction false} NestedJustified(x: Setup, seen: map<string, string>, p: string, q: string)
    requires GoodSetup(x) && Indexes(x, seen, x.dirs.Keys) && p in seen && q in seen && p != q
    requires PrefixTest(p, q) || PrefixTest(q, p)
    ensures Justified(x, Nested(seen[p], seen[q]))
  {
    hide PathText, GoodParts, GoodSetup, PathOf, PrefixTest;
    var i, j := seen[p], seen[q];
    PathsGood(x, i);
    PathsGood(x, j);
    PrefixTestExact(PathOf(x, i), PathOf(x, j));
    PrefixTestExact(PathOf(x, j), PathOf(x, i));
  }

  /** Putting the two loops together. */
  lemma {:induction false} Verdict(x: Setup, seen: map<string, string>, same: seq<Problem>, nested: seq<Problem>)
    requires GoodSetup(x) && Indexes(x, seen, x.dirs.Keys)
    requires forall i :: 0 <= i < |same| ==> Justified(x, same[i])
    requires forall i :: 0 <= i < |nested| ==> Justified(x, nested[i])
    requires same == [] ==> forall i, j :: HasDir(x, i) && HasDir(x, j) && i != j ==> PathOf(x, i) != PathOf(x, j)
    requires nested == [] ==> forall p, q :: p in seen && q in seen && p != q ==> !PrefixTest(p, q)
    ensures same + nested == [] <==> Accepted(x)
  {
    hide PathText, GoodParts, GoodSetup, PathOf, PrefixTest;
    if same != [] {
      assert Justified(x, same[0]);
    } else if nested != [] {
      assert Justified(x, nested[0]);
    } else {
      forall i, j | Clash(x, i, j) ensures RootClash(x, i, j) || RootClash(x, j, i) {
        SameText(x, i, j);
        PathsGood(x, i);
        PathsGood(x, j);
        PrefixTestExact(PathOf(x, i), PathOf(x, j));
        PrefixTestExact(PathOf(x, j), PathOf(x, i));
      }
    }
  }

  /** The promise, exactly: the directories are free of clashes if and only if the code accepts them and no
      drive sits at the root (or the current directory) beside another drive below it. */
  lemma {:induction false} AcceptedExact(x: Setup)
    ensures (forall i, j :: !Clash(x, i, j)) <==> Accepted(x) && (forall i, j :: !RootClash(x, i, j))
  {
    hide PathOf, HasDir, Above;
    if forall i, j :: !Clash(x, i, j) {
      forall i, j ensures !RootClash(x, i, j) {
        assert !Clash(x, i, j);
      }
    }
    if Accepted(x) && (forall i, j :: !RootClash(x, i, j)) {
      forall i, j ensures !Clash(x, i, j) {
        assert !RootClash(x, i, j) && !RootClash(x, j, i);
      }
    }
  }

  /** The failing family has members: a drive at the root beside any other is accepted. */
  lemma {:induction false} RootAccepted(resolve: Resolver, expand: string -> Path, root: string, other: string)
    requires root != "" && other != "" && expand(root) == Path(true, []) && expand(other).absolute
    requires expand(other).parts != []
    requires resolve(expand(root)) == Some(expand(root)) && resolve(expand(other)) == Some(expand(other))
    ensures var x := Setup(map["personal:a" := root, "personal:b" := other], expand, resolve);
      Accepted(x) && Clash(x, "personal:a", "personal:b")
  {
    var x := Setup(map["personal:a" := root, "personal:b" := other], expand, resolve);
    forall i, j | Clash(x, i, j) ensures RootClash(x, i, j) || RootClash(x, j, i) {
      assert (i == "personal:a" && j == "personal:b") || (i == "personal:b" && j == "personal:a");
    }
  }
}
