/** Planning a bidirectional benchmark: which fixture files each side deletes and rewrites, which it
    creates, and the tree both sides must agree on afterwards. */
module Mutations {
  import opened Components
  import opened StringOrder
  import opened Sorting
  import opened Text
  import opened Fixtures

  datatype Selector = Selector(modulus: int, remainder: int, limit: int, truncateTo: int)

  datatype Mutation = Mutation(file: File, truncateTo: int)

  datatype CreateGroup = CreateGroup(directory: string, fileCount: int, sizeBytes: int, extension: string)

  datatype SideManifest = SideManifest(deletes: Selector, edits: Selector, creates: CreateGroup)

  datatype Side = Side(deletes: seq<Mutation>, edits: seq<Mutation>, creates: seq<File>)

  // ---------------------------------------------------------------- selection

  predicate ValidSelector(s: Selector) {
    s.modulus > 0 && 0 <= s.remainder < s.modulus && s.limit > 0
  }

  predicate Eligible(files: seq<File>, s: Selector, excluded: set<FilePath>, i: nat)
    requires i < |files| && ValidSelector(s)
  {
    files[i].path !in excluded && i % s.modulus == s.remainder
  }

  /** The eligible files among the first `n`, in order. */
  function Matching(files: seq<File>, s: Selector, excluded: set<FilePath>, n: nat): seq<File>
    requires n <= |files| && ValidSelector(s)
  {
    if n == 0 then []
    else Matching(files, s, excluded, n - 1) + if Eligible(files, s, excluded, n - 1) then [files[n - 1]] else []
  }

  function Marked(files: seq<File>, truncateTo: int): (r: seq<Mutation>)
    ensures |r| == |files| && forall i :: 0 <= i < |r| ==> r[i] == Mutation(files[i], truncateTo)
  {
    seq(|files|, i requires 0 <= i < |files| => Mutation(files[i], truncateTo))
  }

  /** The first `limit` eligible files, or none when there are too few. */
  function Selected(files: seq<File>, s: Selector, excluded: set<FilePath>): Option<seq<Mutation>> {
    if ValidSelector(s) && |Matching(files, s, excluded, |files|)| >= s.limit
    then Some(Marked(Matching(files, s, excluded, |files|)[..s.limit], s.truncateTo))
    else None
  }

  lemma {:induction false} MatchingGrows(files: seq<File>, s: Selector, excluded: set<FilePath>, n: nat, m: nat)
    requires n <= m <= |files| && ValidSelector(s)
    ensures Matching(files, s, excluded, n) <= Matching(files, s, excluded, m)
    decreases m
  {
    hide Eligible;
    if n < m { MatchingGrows(files, s, excluded, n, m - 1); }
  }

  /** `selectBenchLiveMutations`, stopping as soon as the limit is reached. */
  method SelectMutations(files: seq<File>, s: Selector, excluded: set<FilePath>) returns (r: Option<seq<Mutation>>)
    ensures r == Selected(files, s, excluded)
  {
    if s.modulus <= 0 || s.remainder < 0 || s.remainder >= s.modulus || s.limit <= 0 { return None; }
    var selected: seq<Mutation> := [];
    for i := 0 to |files|
      invariant |selected| < s.limit && selected == Marked(Matching(files, s, excluded, i), s.truncateTo)
    {
      if files[i].path !in excluded && i % s.modulus == s.remainder {
        selected := selected + [Mutation(files[i], s.truncateTo)];
        assert selected == Marked(Matching(files, s, excluded, i + 1), s.truncateTo);
        if |selected| == s.limit {
          MatchingGrows(files, s, excluded, i + 1, |files|);
          assert Matching(files, s, excluded, |files|)[..s.limit] == Matching(files, s, excluded, i + 1);
          return Some(selected);
        }
      }
    }
    return None;
  }

  predicate DistinctPaths(files: seq<File>) {
    forall i, j :: 0 <= i < j < |files| ==> files[i].path != files[j].path
  }

  function Paths(files: seq<File>): set<FilePath> {
    set f | f in files :: f.path
  }

  function Touched(ms: seq<Mutation>): set<FilePath> {
    set m | m in ms :: m.file.path
  }

  lemma {:induction false} MatchingHold(files: seq<File>, s: Selector, excluded: set<FilePath>, n: nat)
    requires n <= |files| && ValidSelector(s)
    ensures forall f :: f in Matching(files, s, excluded, n) ==>
      exists i :: 0 <= i < n && f == files[i] && Eligible(files, s, excluded, i)
  {
    if n > 0 { MatchingHold(files, s, excluded, n - 1); }
  }

  lemma {:induction false} MatchingDistinct(files: seq<File>, s: Selector, excluded: set<FilePath>, n: nat)
    requires n <= |files| && ValidSelector(s) && DistinctPaths(files)
    ensures DistinctPaths(Matching(files, s, excluded, n))
  {
    if n > 0 {
      MatchingDistinct(files, s, excluded, n - 1);
      var before := Matching(files, s, excluded, n - 1);
      MatchingHold(files, s, excluded, n - 1);
      forall i | 0 <= i < |before| ensures before[i].path != files[n - 1].path {
        assert before[i] in before;
      }
    }
  }

  lemma {:induction false} DistinctSize(files: seq<File>)
    requires DistinctPaths(files)
    ensures |Paths(files)| == |files|
  {
    if files != [] {
      var n := |files| - 1;
      var front := files[..n];
      DistinctSize(front);
      PathsMore(files);
      LastIsNew(files);
      hide Paths;
    }
  }

  lemma {:induction false} PathsMore(files: seq<File>)
    requires files != []
    ensures Paths(files) == Paths(files[..|files| - 1]) + {files[|files| - 1].path}
  {
    assert files == files[..|files| - 1] + [files[|files| - 1]];
  }

  lemma {:induction false} LastIsNew(files: seq<File>)
    requires files != [] && DistinctPaths(files)
    ensures files[|files| - 1].path !in Paths(files[..|files| - 1])
  {
    var front := files[..|files| - 1];
    forall f | f in front ensures f.path != files[|files| - 1].path {
      var i :| 0 <= i < |front| && front[i] == f;
      assert files[i] == f;
    }
  }

  lemma {:induction false} MarkedTouches(files: seq<File>, truncateTo: int)
    ensures Touched(Marked(files, truncateTo)) == Paths(files)
  {
    var ms := Marked(files, truncateTo);
    forall p ensures p in Touched(ms) <==> p in Paths(files) {
      if p in Touched(ms) {
        var i :| 0 <= i < |ms| && ms[i].file.path == p;
        assert files[i] in files;
      }
      if p in Paths(files) {
        var i :| 0 <= i < |files| && files[i].path == p;
        assert ms[i] in ms;
      }
    }
  }

  /** A selection has exactly its limit of files, each once, none of them excluded. */
  lemma {:induction false} SelectionMeaning(files: seq<File>, s: Selector, excluded: set<FilePath>)
    requires DistinctPaths(files) && Selected(files, s, excluded).Some?
    ensures var ms := Selected(files, s, excluded).value;
      |ms| == s.limit && |Touched(ms)| == s.limit && Touched(ms) <= Paths(files) && Touched(ms) !! excluded
  {
    hide Matching;
    var all := Matching(files, s, excluded, |files|);
    var few := all[..s.limit];
    MatchingDistinct(files, s, excluded, |files|);
    MatchingHold(files, s, excluded, |files|);
    DistinctSize(few);
    MarkedTouches(few, s.truncateTo);
    forall f | f in few ensures f.path in Paths(files) && f.path !in excluded {
      assert f in all;
    }
  }

  // ---------------------------------------------------------------- created files

  predicate ValidCreates(g: CreateGroup) {
    g.directory != "" && g.fileCount > 0 && g.sizeBytes > 0 && g.extension != ""
  }

  function CreatedAt(side: string, g: CreateGroup, i: nat): File {
    File(Clean(g.directory + "/" + FileName(side + "-created", i, g.extension)), g.sizeBytes)
  }

  function Created(side: string, g: CreateGroup, n: nat): (r: seq<File>)
    ensures |r| == n && forall i :: 0 <= i < n ==> r[i] == CreatedAt(side, g, i)
  {
    seq(n, i requires 0 <= i < n => CreatedAt(side, g, i))
  }

  method BuildCreateFiles(side: string, g: CreateGroup) returns (r: Option<seq<File>>)
    ensures r.Some? <==> ValidCreates(g)
    ensures r.Some? ==> r.value == Created(side, g, g.fileCount)
  {
    if !ValidCreates(g) { return None; }
    var files := [];
    for i := 0 to g.fileCount
      invariant files == Created(side, g, i)
    {
      files := files + [CreatedAt(side, g, i)];
    }
    return Some(files);
  }

  /** The extension stays within the file name. */
  predicate PlainCreates(g: CreateGroup) {
    g.directory != "" && '/' !in g.extension
  }

  lemma {:induction false} CreatedDistinct(side: string, g: CreateGroup, n: nat)
    requires PlainCreates(g) && '/' !in side
    ensures DistinctPaths(Created(side, g, n))
  {
    hide FileName, CreatedAt, PlainCreates;
    var r := Created(side, g, n);
    forall i, j | 0 <= i < j < n ensures r[i].path != r[j].path {
      LastOf(side, g, i);
      LastOf(side, g, j);
      if r[i].path == r[j].path { FileNameInjective(side + "-created", i, j, g.extension); }
    }
  }

  lemma {:induction false} LastOf(side: string, g: CreateGroup, i: nat)
    requires PlainCreates(g) && '/' !in side
    ensures var p := CreatedAt(side, g, i).path; p != [] && p[|p| - 1] == FileName(side + "-created", i, g.extension)
  {
    hide FileName, Clean;
    FileNamePlain(side + "-created", i, g.extension);
    CleanLast(g.directory, FileName(side + "-created", i, g.extension));
  }

  /** Sides whose names start differently never create the same file. */
  lemma {:induction false} SidesCreateApart(s: string, g: CreateGroup, t: string, h: CreateGroup)
    requires s != "" && t != "" && s[0] != t[0] && '/' !in s && '/' !in t
    requires PlainCreates(g) && PlainCreates(h) && g.fileCount >= 0 && h.fileCount >= 0
    ensures Paths(Created(s, g, g.fileCount)) !! Paths(Created(t, h, h.fileCount))
  {
    hide FileName, CreatedAt, PlainCreates;
    var a, b := Created(s, g, g.fileCount), Created(t, h, h.fileCount);
    forall p | p in Paths(a) ensures p !in Paths(b) {
      var i :| 0 <= i < |a| && a[i].path == p;
      LastOf(s, g, i);
      StartsLike(s, i, g.extension);
      forall j | 0 <= j < |b| ensures b[j].path != p {
        LastOf(t, h, j);
        StartsLike(t, j, h.extension);
      }
    }
  }

  lemma {:induction false} StartsLike(side: string, i: nat, extension: string)
    requires side != ""
    ensures FileName(side + "-created", i, extension) != "" && FileName(side + "-created", i, extension)[0] == side[0]
  {
    hide Padded;
  }

  // ---------------------------------------------------------------- the plan

  /** One side's mutations; `excluded` are the files already spoken for. */
  function SideOf(files: seq<File>, m: SideManifest, side: string, excluded: set<FilePath>): Option<Side> {
    var deletes := Selected(files, m.deletes, excluded);
    if deletes.None? then None
    else
      var edits := Selected(files, m.edits, excluded + Touched(deletes.value));
      if edits.None? || !ValidCreates(m.creates) then None
      else Some(Side(deletes.value, edits.value, Created(side, m.creates, m.creates.fileCount)))
  }

  function Spoken(s: Side): set<FilePath> {
    Touched(s.deletes) + Touched(s.edits)
  }

  /** Everything a side changes. */
  function Changed(s: Side): set<FilePath> {
    Spoken(s) + Paths(s.creates)
  }

  method MarkExcluded(ms: seq<Mutation>, excluded: set<FilePath>) returns (r: set<FilePath>)
    ensures r == excluded + Touched(ms)
  {
    r := excluded;
    for i := 0 to |ms|
      invariant r == excluded + Touched(ms[..i])
    {
      assert ms[..i + 1] == ms[..i] + [ms[i]];
      r := r + {ms[i].file.path};
    }
    assert ms[..|ms|] == ms;
  }

  method SelectSide(files: seq<File>, m: SideManifest, side: string, excluded: set<FilePath>)
    returns (r: Option<Side>, spoken: set<FilePath>)
    ensures r == SideOf(files, m, side, excluded)
    ensures r.Some? ==> spoken == excluded + Spoken(r.value)
  {
    hide Selected;
    spoken := excluded;
    var deletes := SelectMutations(files, m.deletes, spoken);
    if deletes.None? { return None, spoken; }
    spoken := MarkExcluded(deletes.value, spoken);
    var edits := SelectMutations(files, m.edits, spoken);
    if edits.None? { return None, spoken; }
    spoken := MarkExcluded(edits.value, spoken);
    var creates := BuildCreateFiles(side, m.creates);
    if creates.None? { return None, spoken; }
    return Some(Side(deletes.value, edits.value, creates.value)), spoken;
  }

  /** What a good side looks like next to what was spoken for before. */
  ghost predicate GoodSide(files: seq<File>, m: SideManifest, excluded: set<FilePath>, s: Side) {
    && |s.deletes| == |Touched(s.deletes)| == m.deletes.limit
    && |s.edits| == |Touched(s.edits)| == m.edits.limit
    && Touched(s.deletes) !! Touched(s.edits)
    && Spoken(s) <= Paths(files) && Spoken(s) !! excluded
    && |s.creates| == |Paths(s.creates)| == m.creates.fileCount
  }

  lemma {:induction false} SideMeaning(files: seq<File>, m: SideManifest, side: string, excluded: set<FilePath>)
    requires DistinctPaths(files) && SideOf(files, m, side, excluded).Some? && PlainCreates(m.creates) && '/' !in side
    ensures GoodSide(files, m, excluded, SideOf(files, m, side, excluded).value)
  {
    hide Selected, Touched, Paths, PlainCreates, CreatedAt;
    var s := SideOf(files, m, side, excluded).value;
    SelectionMeaning(files, m.deletes, excluded);
    SelectionMeaning(files, m.edits, excluded + Touched(s.deletes));
    CreatedDistinct(side, m.creates, m.creates.fileCount);
    DistinctSize(s.creates);
  }

  /** `None` is a rejected manifest. */
  function PlanOf(files: seq<File>, remote: SideManifest, local: SideManifest): Option<(Side, Side)> {
    var r := SideOf(files, remote, "remote", {});
    if r.None? then None
    else
      var l := SideOf(files, local, "local", Spoken(r.value));
      if l.None? then None else Some((r.value, l.value))
  }

  /** The four selections are pairwise disjoint and have exactly their limits, and the sides create apart. */
  lemma {:induction false} PlanMeaning(files: seq<File>, remote: SideManifest, local: SideManifest)
    requires DistinctPaths(files) && PlanOf(files, remote, local).Some? && PlainCreates(remote.creates)
    requires PlainCreates(local.creates)
    ensures var (r, l) := PlanOf(files, remote, local).value;
      && GoodSide(files, remote, {}, r) && GoodSide(files, local, {}, l)
      && Spoken(r) !! Spoken(l) && Paths(r.creates) !! Paths(l.creates)
  {
    hide Selected, Touched, Paths, ValidSelector, FileName, CreatedAt, PlainCreates;
    var (r, l) := PlanOf(files, remote, local).value;
    SideMeaning(files, remote, "remote", {});
    SideMeaning(files, local, "local", Spoken(r));
    SidesCreateApart("remote", remote.creates, "local", local.creates);
  }

  // ---------------------------------------------------------------- the expected tree

  type Tree = map<FilePath, File>

  /** A list of files written into an empty tree; the last one wins. */
  function Written(files: seq<File>): Tree {
    if files == [] then map[]
    else Written(files[..|files| - 1])[files[|files| - 1].path := files[|files| - 1]]
  }

  function Truncated(ms: seq<Mutation>): (r: seq<File>)
    ensures |r| == |ms| && forall i :: 0 <= i < |r| ==> r[i] == File(ms[i].file.path, ms[i].truncateTo)
  {
    seq(|ms|, i requires 0 <= i < |ms| => File(ms[i].file.path, ms[i].truncateTo))
  }

  /** What a side puts into the tree. */
  function Puts(s: Side): Tree {
    Written(Truncated(s.edits)) + Written(s.creates)
  }

  function Applied(t: Tree, s: Side): Tree {
    (t - Touched(s.deletes)) + Puts(s)
  }

  lemma {:induction false} WrittenMore(t: Tree, files: seq<File>, n: nat)
    requires n < |files|
    ensures t + Written(files[..n + 1]) == (t + Written(files[..n]))[files[n].path := files[n]]
  {
    assert files[..n + 1][..n] == files[..n];
  }

  lemma {:induction false} DroppedMore(t: Tree, ms: seq<Mutation>, n: nat)
    requires n < |ms|
    ensures t - Touched(ms[..n + 1]) == (t - Touched(ms[..n])) - {ms[n].file.path}
  {
    assert ms[..n + 1] == ms[..n] + [ms[n]];
    assert Touched(ms[..n + 1]) == Touched(ms[..n]) + {ms[n].file.path};
  }

  lemma {:induction false} MergeGroup(t: Tree, u: Tree, v: Tree)
    ensures (t + u) + v == t + (u + v)
  {
  }

  /** `applyExpectedSideMutations`. */
  method ApplySide(t: Tree, s: Side) returns (r: Tree)
    ensures r == Applied(t, s)
  {
    hide Touched, Written;
    r := t;
    StartEmpty(t, s);
    for i := 0 to |s.deletes|
      invariant r == t - Touched(s.deletes[..i])
    {
      DroppedMore(t, s.deletes, i);
      r := r - {s.deletes[i].file.path};
    }
    assert s.deletes[..|s.deletes|] == s.deletes;
    ghost var t1, fs := r, Truncated(s.edits);
    for i := 0 to |s.edits|
      invariant r == t1 + Written(fs[..i])
    {
      WrittenMore(t1, fs, i);
      var file := s.edits[i].file.(size := s.edits[i].truncateTo);
      r := r[file.path := file];
    }
    assert fs[..|fs|] == fs;
    ghost var t2 := r;
    for i := 0 to |s.creates|
      invariant r == t2 + Written(s.creates[..i])
    {
      WrittenMore(t2, s.creates, i);
      r := r[s.creates[i].path := s.creates[i]];
    }
    assert s.creates[..|s.creates|] == s.creates;
    MergeGroup(t1, Written(fs), Written(s.creates));
  }

  lemma {:induction false} StartEmpty(t: Tree, s: Side)
    ensures t - Touched([]) == t && Written([]) == map[] && forall u: Tree :: u + Written([]) == u
  {
    assert Touched([]) == {};
  }

  lemma {:induction false} WrittenKeys(files: seq<File>)
    ensures Written(files).Keys == Paths(files)
    ensures forall p :: p in Written(files) ==> Written(files)[p] in files && Written(files)[p].path == p
  {
    if files != [] {
      var n := |files| - 1;
      WrittenKeys(files[..n]);
      PathsMore(files);
    }
  }

  lemma {:induction false} TruncatedPaths(ms: seq<Mutation>)
    ensures Paths(Truncated(ms)) == Touched(ms)
  {
    var fs := Truncated(ms);
    forall p ensures p in Paths(fs) <==> p in Touched(ms) {
      if p in Paths(fs) {
        var i :| 0 <= i < |fs| && fs[i].path == p;
        assert ms[i] in ms;
      }
      if p in Touched(ms) {
        var i :| 0 <= i < |ms| && ms[i].file.path == p;
        assert fs[i] in fs;
      }
    }
  }

  lemma {:induction false} PutsKeys(s: Side)
    ensures Puts(s).Keys == Touched(s.edits) + Paths(s.creates)
    ensures forall p :: p in Puts(s) ==> Puts(s)[p].path == p
  {
    hide Touched, Paths, Written, Truncated;
    WrittenKeys(Truncated(s.edits));
    WrittenKeys(s.creates);
    TruncatedPaths(s.edits);
  }

  lemma {:induction false} UpdatesCommute(t: Tree, d: set<FilePath>, u: Tree, e: set<FilePath>, v: Tree)
    requires u.Keys !! v.Keys && u.Keys !! e && v.Keys !! d
    ensures (((t - d) + u) - e) + v == (((t - e) + v) - d) + u
  {
    var x, y := (((t - d) + u) - e) + v, (((t - e) + v) - d) + u;
    forall p ensures p in x <==> p in y {
    }
    forall p | p in x ensures x[p] == y[p] {
    }
  }

  /** Applying the remote side and then the local one is applying them the other way round. */
  lemma {:induction false} SidesCommute(t: Tree, r: Side, l: Side)
    requires Changed(r) !! Changed(l)
    ensures Applied(Applied(t, r), l) == Applied(Applied(t, l), r)
  {
    hide Touched, Paths, Puts;
    PutsKeys(r);
    PutsKeys(l);
    UpdatesCommute(t, Touched(r.deletes), Puts(r), Touched(l.deletes), Puts(l));
  }

  /** Create paths that no fixture file has. */
  predicate Fresh(files: seq<File>, s: Side) {
    Paths(s.creates) !! Paths(files)
  }

  lemma {:induction false} AppliedKeys(t: Tree, s: Side)
    ensures Applied(t, s).Keys == (t.Keys - Touched(s.deletes)) + Touched(s.edits) + Paths(s.creates)
  {
    hide Touched, Paths, Puts;
    PutsKeys(s);
  }

  lemma {:induction false} AppliedKeyed(t: Tree, s: Side)
    requires forall p :: p in t ==> t[p].path == p
    ensures forall p :: p in Applied(t, s) ==> Applied(t, s)[p].path == p
  {
    hide Touched, Paths, Puts;
    PutsKeys(s);
  }

  /** The tree both sides must end with. */
  function Expected(files: seq<File>, r: Side, l: Side): Tree {
    Applied(Applied(Written(files), r), l)
  }

  lemma {:induction false} ChangedApart(files: seq<File>, remote: SideManifest, local: SideManifest, r: Side, l: Side)
    requires GoodSide(files, remote, {}, r) && GoodSide(files, local, {}, l)
    requires Spoken(r) !! Spoken(l) && Paths(r.creates) !! Paths(l.creates) && Fresh(files, r) && Fresh(files, l)
    ensures Changed(r) !! Changed(l)
  {
    hide Touched, Paths;
  }

  lemma {:induction false} SizeOfUnion(a: set<FilePath>, b: set<FilePath>)
    requires a !! b
    ensures |a + b| == |a| + |b|
  {
  }

  lemma {:induction false} SizeOfRest(a: set<FilePath>, b: set<FilePath>)
    requires b <= a
    ensures |a - b| == |a| - |b|
  {
    assert a == (a - b) + b;
    SizeOfUnion(a - b, b);
  }

  lemma {:induction false} ExpectedKeys(files: seq<File>, remote: SideManifest, local: SideManifest, r: Side, l: Side)
    requires GoodSide(files, remote, {}, r) && GoodSide(files, local, {}, l)
    requires Spoken(r) !! Spoken(l) && Paths(r.creates) !! Paths(l.creates) && Fresh(files, r) && Fresh(files, l)
    ensures Expected(files, r, l).Keys ==
      (Paths(files) - (Touched(r.deletes) + Touched(l.deletes))) + (Paths(r.creates) + Paths(l.creates))
  {
    hide Touched, Paths, Applied, Written;
    WrittenKeys(files);
    AppliedKeys(Written(files), r);
    AppliedKeys(Applied(Written(files), r), l);
    Overlay(Paths(files), Touched(r.deletes), Touched(r.edits), Paths(r.creates), Touched(l.deletes),
      Touched(l.edits), Paths(l.creates));
  }

  lemma {:induction false} Overlay(
    all: set<FilePath>, d: set<FilePath>, e: set<FilePath>, c: set<FilePath>, d': set<FilePath>, e': set<FilePath>,
      c': set<FilePath>)
    requires e <= all && e' <= all && d !! e && d !! e' && d' !! e && d' !! e' && c !! d' && d <= all && d' <= all
    ensures (((all - d) + e + c) - d') + e' + c' == (all - (d + d')) + (c + c')
  {
  }

  /** The expected tree has as many files as there were, less the deletes, plus the creates. */
  lemma {:induction false} ExpectedCount(files: seq<File>, remote: SideManifest, local: SideManifest, r: Side, l: Side)
    requires DistinctPaths(files) && GoodSide(files, remote, {}, r) && GoodSide(files, local, {}, l)
    requires Spoken(r) !! Spoken(l) && Paths(r.creates) !! Paths(l.creates) && Fresh(files, r) && Fresh(files, l)
    ensures |Expected(files, r, l)| == |files| - |r.deletes| - |l.deletes| + |r.creates| + |l.creates|
  {
    hide Touched, Paths, Applied, Written, Expected;
    ExpectedKeys(files, remote, local, r, l);
    DistinctSize(files);
    var gone, added := Touched(r.deletes) + Touched(l.deletes), Paths(r.creates) + Paths(l.creates);
    SizeOfUnion(Touched(r.deletes), Touched(l.deletes));
    SizeOfUnion(Paths(r.creates), Paths(l.creates));
    SizeOfRest(Paths(files), gone);
    SizeOfUnion(Paths(files) - gone, added);
    assert |Expected(files, r, l)| == |Expected(files, r, l).Keys|;
  }

  // ---------------------------------------------------------------- denominators

  function Bytes(files: seq<File>): int {
    if files == [] then 0 else Bytes(files[..|files| - 1]) + files[|files| - 1].size
  }

  function FilesOf(ms: seq<Mutation>): (r: seq<File>)
    ensures |r| == |ms| && forall i :: 0 <= i < |r| ==> r[i] == ms[i].file
  {
    seq(|ms|, i requires 0 <= i < |ms| => ms[i].file)
  }

  lemma {:induction false} BytesMore(files: seq<File>, n: nat)
    requires n < |files|
    ensures Bytes(files[..n + 1]) == Bytes(files[..n]) + files[n].size
  {
    assert files[..n + 1][..n] == files[..n];
  }

  function SideBytes(s: Side): int {
    Bytes(FilesOf(s.deletes)) + Bytes(FilesOf(s.edits)) + Bytes(s.creates)
  }

  /** `benchSideMutationTotals`. */
  method SideTotals(s: Side) returns (count: nat, bytes: int)
    ensures count == |s.deletes| + |s.edits| + |s.creates|
    ensures bytes == SideBytes(s)
  {
    count, bytes := |s.deletes| + |s.edits| + |s.creates|, 0;
    ghost var ds, ms := FilesOf(s.deletes), FilesOf(s.edits);
    for i := 0 to |s.deletes|
      invariant bytes == Bytes(ds[..i])
    {
      BytesMore(ds, i);
      bytes := bytes + s.deletes[i].file.size;
    }
    assert ds[..|ds|] == ds;
    for i := 0 to |s.edits|
      invariant bytes == Bytes(ds) + Bytes(ms[..i])
    {
      BytesMore(ms, i);
      bytes := bytes + s.edits[i].file.size;
    }
    assert ms[..|ms|] == ms;
    for i := 0 to |s.creates|
      invariant bytes == Bytes(ds) + Bytes(ms) + Bytes(s.creates[..i])
    {
      BytesMore(s.creates, i);
      bytes := bytes + s.creates[i].size;
    }
    assert s.creates[..|s.creates|] == s.creates;
  }

  datatype Denominators = Denominators(
    fileCount: int, directoryCount: int, changedItems: int, changedBytes: int, transfers: int, deletes: int,
    localItems: int, localBytes: int, remoteItems: int, remoteBytes: int,
    uploads: int, downloads: int, localDeletes: int, remoteDeletes: int, conflicts: int)

  lemma {:induction false} ChangedSize(files: seq<File>, m: SideManifest, s: Side)
    requires GoodSide(files, m, {}, s) && Fresh(files, s)
    ensures |Changed(s)| == |s.deletes| + |s.edits| + |s.creates|
  {
    hide Touched, Paths;
    SizeOfUnion(Touched(s.deletes), Touched(s.edits));
    SizeOfUnion(Spoken(s), Paths(s.creates));
  }

  // ---------------------------------------------------------------- the whole plan

  /** Every path is written with slashes between components that hold none. */
  ghost predicate Proper(files: seq<File>) {
    forall f :: f in files ==> f.path != [] && SlashFree(f.path)
  }

  /** The tree's files, in any order. */
  method Listed(t: Tree) returns (files: seq<File>)
    requires forall p :: p in t ==> t[p].path == p
    ensures DistinctPaths(files) && |files| == |t| && forall f :: f in files <==> f.path in t && t[f.path] == f
  {
    files := [];
    var todo := t.Keys;
    assert |t| == |t.Keys|;
    while todo != {}
      invariant todo <= t.Keys && DistinctPaths(files) && |files| + |todo| == |t|
      invariant forall f :: f in files <==> f.path in t && t[f.path] == f && f.path !in todo
    {
      var p :| p in todo;
      todo := todo - {p};
      assert forall i :: 0 <= i < |files| ==> files[i] in files;
      files := files + [t[p]];
    }
  }

  /** `buildBenchBidirectionalExpectedTree`: the files and the directories. */
  method ExpectedTree(files: seq<File>, dirs: seq<FilePath>, r: Side, l: Side)
    returns (sorted: seq<File>, sortedDirs: seq<FilePath>)
    requires Proper(files) && Proper(r.creates) && Proper(l.creates) && Proper(Truncated(r.edits))
    requires Proper(Truncated(l.edits))
    requires forall d :: d in dirs ==> d != [] && SlashFree(d)
    ensures Ascending(sorted, PathText) && |sorted| == |Expected(files, r, l)|
    ensures forall f :: f in sorted <==> f.path in Expected(files, r, l) && Expected(files, r, l)[f.path] == f
    ensures Ascending(sortedDirs, TextOf) && forall d :: d in sortedDirs <==> d in dirs || d in Directories(sorted)
  {
    hide Applied, Sorted, Written, PathText, Directories, SlashFree;
    var t: Tree := map[];
    StartEmpty(t, r);
    for i := 0 to |files|
      invariant t == Written(files[..i])
    {
      WrittenMore(map[], files, i);
      assert map[] + Written(files[..i + 1]) == Written(files[..i + 1])
        && map[] + Written(files[..i]) == Written(files[..i]);
      t := t[files[i].path := files[i]];
    }
    assert files[..|files|] == files;
    WrittenKeys(files);
    AppliedKeyed(t, r);
    AppliedKeyed(Applied(t, r), l);
    TreeProper(files, r, l);
    t := ApplySide(t, r);
    t := ApplySide(t, l);
    var list := Listed(t);
    forall i | 0 <= i < |list| ensures list[i].path != [] && SlashFree(list[i].path) {
      assert list[i] in list && list[i].path in Expected(files, r, l);
    }
    DistinctText(list);
    SortedAscending(list, PathText);
    sorted := Sorted(list, PathText);
    sortedDirs := AllDirectories(dirs, sorted);
  }

  method AllDirectories(dirs: seq<FilePath>, files: seq<File>) returns (sorted: seq<FilePath>)
    requires (forall d :: d in dirs ==> d != [] && SlashFree(d)) && forall f :: f in files ==> SlashFree(f.path)
    ensures Ascending(sorted, TextOf) && forall d :: d in sorted <==> d in dirs || d in Directories(files)
  {
    hide Directories, SlashFree;
    var needed: set<FilePath> := {};
    NoDirectories();
    for i := 0 to |files|
      invariant needed == Directories(files[..i])
    {
      needed := AddParents(files[..i], needed, files[i]);
      assert files[..i] + [files[i]] == files[..i + 1];
    }
    assert files[..|files|] == files;
    var all := (set d | d in dirs) + needed;
    NeededProper(files);
    sorted := SortPaths(all);
  }

  lemma {:induction false} NeededProper(files: seq<File>)
    requires forall f :: f in files ==> SlashFree(f.path)
    ensures forall d :: d in Directories(files) ==> d != [] && SlashFree(d)
  {
  }

  lemma {:induction false} TreeProper(files: seq<File>, r: Side, l: Side)
    requires Proper(files) && Proper(r.creates) && Proper(l.creates) && Proper(Truncated(r.edits))
    requires Proper(Truncated(l.edits))
    ensures forall p :: p in Expected(files, r, l) ==> p != [] && SlashFree(p)
  {
    hide Written, SlashFree, Truncated;
    WrittenKeys(files);
    WrittenKeys(Truncated(r.edits));
    WrittenKeys(r.creates);
    WrittenKeys(Truncated(l.edits));
    WrittenKeys(l.creates);
  }

  lemma {:induction false} DistinctText(files: seq<File>)
    requires DistinctPaths(files) && forall i :: 0 <= i < |files| ==> files[i].path != [] && SlashFree(files[i].path)
    ensures DistinctKeys(files, PathText)
  {
    hide SlashFree, Joined;
    forall i, j | 0 <= i < j < |files| ensures PathText(files[i]) != PathText(files[j]) {
      if Joined(files[i].path) == Joined(files[j].path) { JoinedInjective(files[i].path, files[j].path); }
    }
  }

  /** What the counts rely on: each fixture file has its own path, and created files are new and named as such. */
  ghost predicate Countable(files: seq<File>, remote: SideManifest, local: SideManifest) {
    && DistinctPaths(files) && PlainCreates(remote.creates) && PlainCreates(local.creates)
    && (PlanOf(files, remote, local).Some? ==>
          Fresh(files, PlanOf(files, remote, local).value.0) && Fresh(files, PlanOf(files, remote, local).value.1))
  }

  /** `buildBenchBidirectionalMutationPlan`: the plan, the tree expected at the end and the denominators. */
  method BuildPlan(files: seq<File>, dirs: seq<FilePath>, remote: SideManifest, local: SideManifest)
    returns (plan: Option<(Side, Side)>, expected: seq<File>, expectedDirs: seq<FilePath>, d: Denominators)
    requires Proper(files) && forall p :: p in dirs ==> p != [] && SlashFree(p)
    ensures plan == PlanOf(files, remote, local)
    ensures plan.Some? ==>
      var (r, l) := plan.value;
      && (forall f :: f in expected <==> f.path in Expected(files, r, l) && Expected(files, r, l)[f.path] == f)
      && Ascending(expected, PathText) && Ascending(expectedDirs, TextOf)
      && (forall p :: p in expectedDirs <==> p in dirs || p in Directories(expected))
      && d.fileCount == |files| && d.changedItems == d.transfers + d.deletes && d.uploads + d.downloads == d.transfers
      && d.localDeletes == |r.deletes| && d.remoteDeletes == |l.deletes|
      && d.directoryCount == |dirs| && d.conflicts == 0
      && d.localItems == |l.deletes| + d.uploads && d.remoteItems == |r.deletes| + d.downloads
      && d.localItems + d.remoteItems == d.changedItems
      && d.localBytes == SideBytes(l) && d.remoteBytes == SideBytes(r) && d.changedBytes == SideBytes(r) + SideBytes(l)
    ensures plan.Some? && Countable(files, remote, local) ==>
      var (r, l) := plan.value;
      && |expected| == d.fileCount - d.deletes + remote.creates.fileCount + local.creates.fileCount
      && d.changedItems == |Changed(r) + Changed(l)| && d.localItems == |Changed(l)| && d.remoteItems == |Changed(r)|
      && d.localDeletes == remote.deletes.limit && d.remoteDeletes == local.deletes.limit
  {
    hide SideOf, Spoken, GoodSide, Changed, Ascending, Expected, Touched, Paths, PathText, Proper, DistinctPaths,
      SlashFree, Fresh, Directories, PlainCreates, TextOf;
    expected, expectedDirs, d := [], [], Denominators(0, 0, 0, 0, 0, 0, 0, 0, 0, 0, 0, 0, 0, 0, 0);
    var r, spoken := SelectSide(files, remote, "remote", {});
    if r.None? { return None, expected, expectedDirs, d; }
    assert {} + Spoken(r.value) == Spoken(r.value);
    var l;
    l, spoken := SelectSide(files, local, "local", spoken);
    if l.None? { return None, expected, expectedDirs, d; }
    plan := Some((r.value, l.value));
    PlanProper(files, remote, local);
    expected, expectedDirs := ExpectedTree(files, dirs, r.value, l.value);
    var localItems, localBytes := SideTotals(l.value);
    var remoteItems, remoteBytes := SideTotals(r.value);
    var uploads, downloads := |l.value.edits| + |l.value.creates|, |r.value.edits| + |r.value.creates|;
    d := Denominators(|files|, |dirs|, localItems + remoteItems, localBytes + remoteBytes, uploads + downloads,
                      |r.value.deletes| + |l.value.deletes|, localItems, localBytes, remoteItems, remoteBytes,
                      uploads, downloads, |r.value.deletes|, |l.value.deletes|, 0);
    if Countable(files, remote, local) {
      PlanMeaning(files, remote, local);
      PlanCounts(files, remote, local, r.value, l.value);
    }
  }

  lemma {:induction false} PlanCounts(files: seq<File>, remote: SideManifest, local: SideManifest, r: Side, l: Side)
    requires DistinctPaths(files) && GoodSide(files, remote, {}, r) && GoodSide(files, local, {}, l)
    requires Spoken(r) !! Spoken(l) && Paths(r.creates) !! Paths(l.creates) && Fresh(files, r) && Fresh(files, l)
    ensures |Expected(files, r, l)| == |files| - |r.deletes| - |l.deletes| + |r.creates| + |l.creates|
    ensures |Changed(r) + Changed(l)| == |r.deletes| + |r.edits| + |r.creates| + |l.deletes| + |l.edits| + |l.creates|
    ensures |r.deletes| == remote.deletes.limit && |l.deletes| == local.deletes.limit
    ensures |r.creates| == remote.creates.fileCount && |l.creates| == local.creates.fileCount
    ensures |Changed(r)| == |r.deletes| + |r.edits| + |r.creates|
    ensures |Changed(l)| == |l.deletes| + |l.edits| + |l.creates|
  {
    hide Expected, Touched, Paths, Spoken, Changed, DistinctPaths, Fresh;
    ExpectedCount(files, remote, local, r, l);
    ChangedSize(files, remote, r);
    ChangedSize(files, local, l);
    ChangedApart(files, remote, local, r, l);
    SizeOfUnion(Changed(r), Changed(l));
  }

  lemma {:induction false} CreatedProper(side: string, g: CreateGroup, n: nat)
    ensures Proper(Created(side, g, n))
  {
    hide Clean, FileName;
    forall f | f in Created(side, g, n) ensures f.path != [] && SlashFree(f.path) {
      var i :| 0 <= i < n && f == CreatedAt(side, g, i);
      CleanSlashFree(g.directory + "/" + FileName(side + "-created", i, g.extension));
    }
  }

  lemma {:induction false} TruncatedProper(files: seq<File>, ms: seq<Mutation>)
    requires Proper(files) && forall m :: m in ms ==> m.file in files
    ensures Proper(Truncated(ms))
  {
    hide SlashFree;
    forall f | f in Truncated(ms) ensures f.path != [] && SlashFree(f.path) {
      var i :| 0 <= i < |ms| && f.path == ms[i].file.path;
      assert ms[i] in ms;
    }
  }

  lemma {:induction false} SelectedHold(files: seq<File>, s: Selector, excluded: set<FilePath>)
    requires Selected(files, s, excluded).Some?
    ensures forall m :: m in Selected(files, s, excluded).value ==> m.file in files
  {
    hide Matching;
    var all := Matching(files, s, excluded, |files|);
    MatchingHold(files, s, excluded, |files|);
    forall m | m in Selected(files, s, excluded).value ensures m.file in files {
      assert m.file in all[..s.limit] && m.file in all;
    }
  }

  lemma {:induction false} PlanProper(files: seq<File>, remote: SideManifest, local: SideManifest)
    requires Proper(files) && PlanOf(files, remote, local).Some?
    ensures var (r, l) := PlanOf(files, remote, local).value;
      Proper(r.creates) && Proper(l.creates) && Proper(Truncated(r.edits)) && Proper(Truncated(l.edits))
  {
    hide Proper, Touched, Paths, Selected, CreatedAt, Truncated;
    var (r, l) := PlanOf(files, remote, local).value;
    CreatedProper("remote", remote.creates, remote.creates.fileCount);
    CreatedProper("local", local.creates, local.creates.fileCount);
    SelectedHold(files, remote.edits, {} + Touched(r.deletes));
    SelectedHold(files, local.edits, Spoken(r) + Touched(l.deletes));
    TruncatedProper(files, r.edits);
    TruncatedProper(files, l.edits);
  }

  /** For every accepted manifest whose create paths are fresh, the order of the sides does not matter. */
  lemma {:induction false} PlanCommutes(files: seq<File>, remote: SideManifest, local: SideManifest, t: Tree)
    requires PlanOf(files, remote, local).Some? && Countable(files, remote, local)
    ensures var (r, l) := PlanOf(files, remote, local).value; Applied(Applied(t, r), l) == Applied(Applied(t, l), r)
  {
    hide SideOf, Applied, GoodSide, Spoken, Changed, Paths, PlainCreates, DistinctPaths;
    var (r, l) := PlanOf(files, remote, local).value;
    PlanMeaning(files, remote, local);
    ChangedApart(files, remote, local, r, l);
    SidesCommute(t, r, l);
  }

  /** An expanded fixture meets what planning relies on. */
  lemma {:induction false} FixtureReady(groups: seq<Group>)
    requires Plain(groups)
    ensures DistinctPaths(Sorted(AllFiles(groups), PathText)) && Proper(Sorted(AllFiles(groups), PathText))
  {
    hide FileAt, AllFiles, PathText, Sorted, SlashFree, DividesEvenly;
    var files := Sorted(AllFiles(groups), PathText);
    PathsDistinct(groups);
    SortedAscending(AllFiles(groups), PathText);
    forall i, j | 0 <= i < j < |files| ensures files[i].path != files[j].path {
      Irreflexive(PathText(files[j]));
      SameText(files[i], files[j]);
    }
    forall f | f in files ensures f.path != [] && SlashFree(f.path) {
      FilesProper(groups, f);
    }
  }

  lemma {:induction false} SameText(f: File, g: File)
    ensures f.path == g.path ==> PathText(f) == PathText(g)
  {
  }

  // ---------------------------------------------------------------- which files are selected

  /** Position `i` is one the selector looks for. */
  predicate Picks(files: seq<File>, s: Selector, excluded: set<FilePath>, i: nat)
    requires s.modulus > 0
  {
    i < |files| && i % s.modulus == s.remainder && files[i].path !in excluded
  }

  predicate Increasing(at: seq<nat>) {
    forall j, k :: 0 <= j < k < |at| ==> at[j] < at[k]
  }

  lemma {:induction false} MatchingAt(files: seq<File>, s: Selector, excluded: set<FilePath>, n: nat)
    returns (at: seq<nat>)
    requires n <= |files| && ValidSelector(s)
    ensures |at| == |Matching(files, s, excluded, n)| && Increasing(at)
    ensures forall j :: 0 <= j < |at| ==>
      at[j] < n && Picks(files, s, excluded, at[j]) && Matching(files, s, excluded, n)[j] == files[at[j]]
    ensures forall i :: 0 <= i < n && Picks(files, s, excluded, i) ==> i in at
  {
    at := [];
    if n > 0 {
      at := MatchingAt(files, s, excluded, n - 1);
      if Eligible(files, s, excluded, n - 1) { at := at + [n - 1]; }
    }
  }

  /** The selected files stand at increasing positions congruent to the remainder, none is excluded, and no such
      position before the last is passed over; if there are fewer than the limit, nothing is selected. */
  lemma {:induction false} SelectionExact(files: seq<File>, s: Selector, excluded: set<FilePath>)
    returns (at: seq<nat>)
    requires ValidSelector(s)
    ensures Increasing(at) && forall j :: 0 <= j < |at| ==> Picks(files, s, excluded, at[j])
    ensures Selected(files, s, excluded).Some? ==>
      var ms := Selected(files, s, excluded).value;
      && |ms| == |at| == s.limit
      && (forall j :: 0 <= j < |at| ==> at[j] < |files| && ms[j] == Mutation(files[at[j]], s.truncateTo))
      && (forall i :: 0 <= i < at[s.limit - 1] && Picks(files, s, excluded, i) ==> i in at)
    ensures Selected(files, s, excluded).None? ==>
      |at| < s.limit && forall i :: 0 <= i < |files| && Picks(files, s, excluded, i) ==> i in at
  {
    hide Matching, Picks;
    at := MatchingAt(files, s, excluded, |files|);
    assert forall i: nat :: Picks(files, s, excluded, i) ==> i < |files| by { PicksInside(files, s, excluded); }
    if |at| >= s.limit {
      var all := at;
      at := at[..s.limit];
      forall i | 0 <= i < at[s.limit - 1] && Picks(files, s, excluded, i) ensures i in at {
        var m :| 0 <= m < |all| && all[m] == i;
        assert m < s.limit;
        assert at[m] == i;
      }
    }
  }

  lemma {:induction false} PicksInside(files: seq<File>, s: Selector, excluded: set<FilePath>)
    requires s.modulus > 0
    ensures forall i: nat :: Picks(files, s, excluded, i) ==> i < |files|
  {
  }

  // ---------------------------------------------------------------- what the expected tree holds

  lemma {:induction false} SizeDistinct(files: seq<File>)
    ensures |Paths(files)| <= |files| && (|Paths(files)| == |files| ==> DistinctPaths(files))
  {
    if files != [] {
      var front, last := files[..|files| - 1], files[|files| - 1];
      SizeDistinct(front);
      PathsMore(files);
      if |Paths(files)| == |files| {
        assert last.path !in Paths(front);
        forall i, j | 0 <= i < j < |files| ensures files[i].path != files[j].path {
          assert files[i] in front && (j < |front| ==> front[i] == files[i] && front[j] == files[j]);
        }
      }
    }
  }

  lemma {:induction false} WrittenAt(files: seq<File>, f: File)
    requires DistinctPaths(files) && f in files
    ensures f.path in Written(files) && Written(files)[f.path] == f
  {
    var front, last := files[..|files| - 1], files[|files| - 1];
    if f != last {
      assert f in front by { assert files == front + [last]; }
      WrittenAt(front, f);
      LastIsNew(files);
      assert f.path in Paths(front);
    }
  }

  /** One side applied, path by path. */
  lemma {:induction false} AppliedAt(t: Tree, s: Side, m: Mutation, f: File)
    requires |Touched(s.edits)| == |s.edits| && DistinctPaths(s.creates) && Touched(s.edits) !! Paths(s.creates)
    ensures m in s.edits ==>
      m.file.path in Applied(t, s) && Applied(t, s)[m.file.path] == File(m.file.path, m.truncateTo)
    ensures f in s.creates ==> f.path in Applied(t, s) && Applied(t, s)[f.path] == f
  {
    var edits := Truncated(s.edits);
    TruncatedPaths(s.edits);
    SizeDistinct(edits);
    WrittenKeys(s.creates);
    WrittenKeys(edits);
    if m in s.edits {
      var i :| 0 <= i < |s.edits| && s.edits[i] == m;
      assert edits[i] in edits && m.file.path in Touched(s.edits);
      hide Written;
      WrittenAt(edits, edits[i]);
    }
    if f in s.creates { WrittenAt(s.creates, f); }
  }

  lemma {:induction false} AppliedElsewhere(t: Tree, s: Side, p: FilePath)
    requires p !in Changed(s)
    ensures p in Applied(t, s) <==> p in t
    ensures p in t ==> Applied(t, s)[p] == t[p]
  {
    hide Touched, Paths, Puts;
    PutsKeys(s);
  }

  /** The expected tree, file by file: rewritten files have their new size, created files are there, files that no side
      speaks for are as they were, and deleted files are gone. */
  lemma {:induction false} ExpectedHolds(files: seq<File>, remote: SideManifest, local: SideManifest, r: Side, l: Side,
                                         m: Mutation, f: File)
    requires DistinctPaths(files) && GoodSide(files, remote, {}, r) && GoodSide(files, local, {}, l)
    requires Spoken(r) !! Spoken(l) && Paths(r.creates) !! Paths(l.creates) && Fresh(files, r) && Fresh(files, l)
    ensures var e := Expected(files, r, l);
      && (m in r.edits || m in l.edits ==>
            m.file.path in e && e[m.file.path] == File(m.file.path, m.truncateTo))
      && (m in r.deletes || m in l.deletes ==> m.file.path !in e)
      && (f in r.creates || f in l.creates ==> f.path in e && e[f.path] == f)
      && (f in files && f.path !in Spoken(r) + Spoken(l) ==> f.path in e && e[f.path] == f)
  {
    hide Applied, Written;
    ChangedApart(files, remote, local, r, l);
    SizeDistinct(r.creates);
    SizeDistinct(l.creates);
    var t := Applied(Written(files), r);
    AppliedAt(Written(files), r, m, f);
    AppliedAt(t, l, m, f);
    assert m in r.edits || m in r.deletes ==> m.file.path in Spoken(r);
    assert m in l.edits || m in l.deletes ==> m.file.path in Spoken(l);
    assert f in r.creates ==> f.path in Paths(r.creates);
    if m.file.path !in Changed(l) { AppliedElsewhere(t, l, m.file.path); }
    if f.path !in Changed(l) { AppliedElsewhere(t, l, f.path); }
    if f in files {
      WrittenAt(files, f);
      assert f.path in Paths(files);
      if f.path !in Changed(r) { AppliedElsewhere(Written(files), r, f.path); }
    }
    AppliedKeys(Written(files), r);
    AppliedKeys(t, l);
  }

  /** The name of a created file. */
  lemma {:induction false} CreatedName(side: string, g: CreateGroup, i: nat) returns (number: string)
    requires PlainCreates(g) && '/' !in side
    ensures var f := CreatedAt(side, g, i);
      && f.size == g.sizeBytes && f.path != []
      && f.path[|f.path| - 1] == side + "-created-" + number + "." + g.extension
    ensures Decimal(number, i, 5)
  {
    hide Padded, Decimal, Clean;
    LastOf(side, g, i);
    number := Padded(i, 5);
    PaddedDecimal(i, 5);
    assert side + "-created" + "-" + number == side + "-created-" + number;
  }

  /** Every changed file counts with the size it had, created ones with the size they get. */
  lemma {:induction false} EachCounts(s: Side, m: Mutation, f: File)
    ensures SideBytes(Side([], [], [])) == 0
    ensures SideBytes(s.(deletes := s.deletes + [m])) == SideBytes(s) + m.file.size
    ensures SideBytes(s.(edits := s.edits + [m])) == SideBytes(s) + m.file.size
    ensures SideBytes(s.(creates := s.creates + [f])) == SideBytes(s) + f.size
  {
    assert FilesOf(s.deletes + [m]) == FilesOf(s.deletes) + [m.file];
    assert FilesOf(s.edits + [m]) == FilesOf(s.edits) + [m.file];
    assert FilesOf([]) == [];
    OneMoreFile(FilesOf(s.deletes), m.file);
    OneMoreFile(FilesOf(s.edits), m.file);
    OneMoreFile(s.creates, f);
  }

  lemma {:induction false} OneMoreFile(files: seq<File>, f: File)
    ensures Bytes(files + [f]) == Bytes(files) + f.size
  {
    assert (files + [f])[..|files|] == files;
  }

  /** Who selects what: the remote side first, the local side among the files the remote side left, each with the name
      of its own side on the files it creates. */
  lemma {:induction false} PlanSides(files: seq<File>, remote: SideManifest, local: SideManifest)
    requires PlanOf(files, remote, local).Some?
    ensures var (r, l) := PlanOf(files, remote, local).value;
      var all := Touched(r.deletes) + Touched(r.edits);
      && Selected(files, remote.deletes, {}) == Some(r.deletes)
      && Selected(files, remote.edits, Touched(r.deletes)) == Some(r.edits)
      && Selected(files, local.deletes, all) == Some(l.deletes)
      && Selected(files, local.edits, all + Touched(l.deletes)) == Some(l.edits)
      && r.creates == Created("remote", remote.creates, |r.creates|) && |r.creates| == remote.creates.fileCount
      && l.creates == Created("local", local.creates, |l.creates|) && |l.creates| == local.creates.fileCount
  {
    hide Selected, Touched, CreatedAt;
    var (r, l) := PlanOf(files, remote, local).value;
    assert {} + Touched(r.deletes) == Touched(r.deletes);
  }
}
