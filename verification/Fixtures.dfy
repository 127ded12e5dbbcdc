/** Benchmark fixtures: a manifest of file groups becomes a list of files spread evenly over directories. */
module Fixtures {
  import opened Components
  import opened StringOrder
  import opened Sorting
  import opened Text

  // ---------------------------------------------------------------- numbers in names

  function Digit(d: nat): char
    requires d < 10
  {
    ('0' as int + d) as char
  }

  function Digits(n: nat): string {
    if n < 10 then [Digit(n)] else Digits(n / 10) + [Digit(n % 10)]
  }

  function Zeros(k: nat): string {
    if k == 0 then "" else "0" + Zeros(k - 1)
  }

  /** `%0<width>d`. */
  function Padded(n: nat, width: nat): string {
    Zeros(if |Digits(n)| < width then width - |Digits(n)| else 0) + Digits(n)
  }

  /** Reading a decimal number. */
  function Number(s: string): int {
    if s == "" then 0 else 10 * Number(s[..|s| - 1]) + (s[|s| - 1] as int - '0' as int)
  }

  predicate AllDigits(s: string) {
    forall i :: 0 <= i < |s| ==> '0' <= s[i] <= '9'
  }

  lemma {:induction false} NumberDigits(n: nat)
    ensures Number(Digits(n)) == n && AllDigits(Digits(n))
  {
    if n < 10 {
      assert Digits(n)[..0] == "";
    } else {
      NumberDigits(n / 10);
      var s := Digits(n);
      assert s[..|s| - 1] == Digits(n / 10);
    }
  }

  lemma {:induction false} ZerosNumber(k: nat)
    ensures Number(Zeros(k)) == 0 && AllDigits(Zeros(k)) && |Zeros(k)| == k
  {
    if k > 0 {
      ZerosNumber(k - 1);
      ZerosEnd(k);
      hide Zeros;
      var z := Zeros(k - 1);
      assert Zeros(k) == z + "0" && (z + "0")[..k - 1] == z && (z + "0")[k - 1] == '0';
    }
  }

  lemma {:induction false} ZerosEnd(k: nat)
    ensures |Zeros(k)| == k && (k > 0 ==> Zeros(k) == Zeros(k - 1) + "0")
  {
    if k > 0 { ZerosEnd(k - 1); }
  }

  lemma {:induction false} NumberZeros(k: nat, s: string)
    ensures Number(Zeros(k) + s) == Number(s)
    decreases |s|
  {
    hide Zeros;
    ZerosNumber(k);
    var z := Zeros(k);
    if s == "" {
      assert z + s == z;
    } else {
      var front, t := s[..|s| - 1], z + s;
      NumberZeros(k, front);
      assert t[..|t| - 1] == z + front && t[|t| - 1] == s[|s| - 1];
    }
  }

  lemma {:induction false} PaddedNumber(n: nat, width: nat)
    ensures Number(Padded(n, width)) == n && AllDigits(Padded(n, width))
  {
    var k := if |Digits(n)| < width then width - |Digits(n)| else 0;
    NumberDigits(n);
    NumberZeros(k, Digits(n));
    ZerosNumber(k);
  }

  lemma {:induction false} PaddedInjective(m: nat, n: nat, width: nat)
    requires Padded(m, width) == Padded(n, width)
    ensures m == n
  {
    PaddedNumber(m, width);
    PaddedNumber(n, width);
  }

  // ---------------------------------------------------------------- groups of files

  datatype Group =
    Group(name: string, fileCount: int, sizeBytes: int, topDirs: int, leavesPerTop: int, extension: string)

  type FilePath = seq<string>

  /** A file by the pieces of its cleaned path, and its size. */
  datatype File = File(path: FilePath, size: int)

  function TextOf(p: FilePath): string {
    if p == [] then "" else Joined(p)
  }

  function PathText(f: File): string {
    TextOf(f.path)
  }

  predicate Positive(g: Group) {
    g.name != "" && g.fileCount > 0 && g.sizeBytes > 0 && g.topDirs > 0 && g.leavesPerTop > 0 && g.extension != ""
  }

  predicate DividesEvenly(g: Group)
    requires Positive(g)
  {
    g.fileCount % (g.topDirs * g.leavesPerTop) == 0
  }

  predicate Valid(g: Group) {
    Positive(g) && DividesEvenly(g)
  }

  function PerLeaf(g: Group): (n: nat)
    requires Valid(g)
    ensures n > 0 && n * (g.topDirs * g.leavesPerTop) == g.fileCount
  {
    g.fileCount / (g.topDirs * g.leavesPerTop)
  }

  function LeafDir(g: Group, top: nat, leaf: nat): FilePath {
    [g.name, "tier-" + Padded(top, 2), "set-" + Padded(leaf, 2)]
  }

  function FileName(name: string, i: nat, extension: string): string {
    name + "-" + Padded(i, 5) + "." + extension
  }

  function TopOf(g: Group, i: nat): nat
    requires Valid(g)
  {
    i / PerLeaf(g) / g.leavesPerTop
  }

  function WithinTop(g: Group, i: nat): nat
    requires Valid(g)
  {
    i / PerLeaf(g) % g.leavesPerTop
  }

  function FileAt(g: Group, i: nat): File
    requires Valid(g)
  {
    File(Clean(Joined(LeafDir(g, TopOf(g, i), WithinTop(g, i)) + [FileName(g.name, i, g.extension)])), g.sizeBytes)
  }

  function FirstFiles(g: Group, n: nat): seq<File>
    requires Valid(g)
  {
    if n == 0 then [] else FirstFiles(g, n - 1) + [FileAt(g, n - 1)]
  }

  ghost predicate AllValid(groups: seq<Group>) {
    forall k :: 0 <= k < |groups| ==> Valid(groups[k])
  }

  function AllFiles(groups: seq<Group>): seq<File>
    requires forall k :: 0 <= k < |groups| ==> Valid(groups[k])
  {
    if groups == [] then []
    else
      var last := groups[|groups| - 1];
      assert Valid(last);
      AllFiles(groups[..|groups| - 1]) + FirstFiles(last, last.fileCount)
  }

  /** The directories the files need; the root is none of them. */
  function Directories(files: seq<File>): set<FilePath> {
    set f, k | f in files && 0 < k < |f.path| && f.path[..k] != [""] :: f.path[..k]
  }

  lemma {:induction false} FirstFilesAt(g: Group, n: nat)
    requires Valid(g)
    ensures |FirstFiles(g, n)| == n && forall i :: 0 <= i < n ==> FirstFiles(g, n)[i] == FileAt(g, i)
  {
    if n > 0 { FirstFilesAt(g, n - 1); }
  }

  lemma {:induction false} AllFilesHold(groups: seq<Group>, f: File)
    requires AllValid(groups)
    ensures f in AllFiles(groups) <==>
      exists k, i :: 0 <= k < |groups| && 0 <= i < groups[k].fileCount && f == FileAt(groups[k], i)
  {
    hide FileAt, DividesEvenly;
    if groups != [] {
      var n := |groups| - 1;
      var front, last := groups[..n], groups[n];
      AllFilesHold(front, f);
      FirstFilesAt(last, last.fileCount);
      if f in AllFiles(front) {
        var k, i :| 0 <= k < |front| && 0 <= i < front[k].fileCount && f == FileAt(front[k], i);
        assert groups[k] == front[k];
      }
      if f in FirstFiles(last, last.fileCount) {
        var i :| 0 <= i < last.fileCount && FirstFiles(last, last.fileCount)[i] == f;
        assert f == FileAt(groups[n], i);
      }
      if k, i :| 0 <= k < |groups| && 0 <= i < groups[k].fileCount && f == FileAt(groups[k], i) {
        if k < n {
          assert front[k] == groups[k];
        } else {
          assert FirstFiles(last, last.fileCount)[i] == f;
        }
      }
    }
  }

  // ---------------------------------------------------------------- all paths are unique

  /** The name and the extension stay within one path component. */
  predicate PlainGroup(g: Group) {
    PlainPart(g.name) && '/' !in g.extension
  }

  ghost predicate Plain(groups: seq<Group>) {
    && AllValid(groups)
    && (forall k :: 0 <= k < |groups| ==> PlainGroup(groups[k]))
    && (forall k, l :: 0 <= k < l < |groups| ==> groups[k].name != groups[l].name)
  }

  lemma {:induction false} CancelLeft(a: string, x: string, y: string)
    requires a + x == a + y
    ensures x == y
  {
    assert (a + x)[|a|..] == x && (a + y)[|a|..] == y;
  }

  lemma {:induction false} CancelRight(x: string, y: string, a: string)
    requires x + a == y + a
    ensures x == y
  {
    assert |x| == |y| && (x + a)[..|x|] == x && (y + a)[..|x|] == y;
  }

  lemma {:induction false} FileNameInjective(name: string, i: nat, j: nat, extension: string)
    requires FileName(name, i, extension) == FileName(name, j, extension)
    ensures i == j
  {
    hide Padded;
    CancelRight(name + "-" + Padded(i, 5) + ".", name + "-" + Padded(j, 5) + ".", extension);
    CancelRight(name + "-" + Padded(i, 5), name + "-" + Padded(j, 5), ".");
    CancelLeft(name + "-", Padded(i, 5), Padded(j, 5));
    PaddedInjective(i, j, 5);
  }

  lemma {:induction false} LeafDirInjective(g: Group, top: nat, leaf: nat, top': nat, leaf': nat)
    requires LeafDir(g, top, leaf) == LeafDir(g, top', leaf')
    ensures top == top' && leaf == leaf'
  {
    hide Padded;
    var d, d' := LeafDir(g, top, leaf), LeafDir(g, top', leaf');
    assert d[1] == d'[1] && d[2] == d'[2];
    CancelLeft("tier-", Padded(top, 2), Padded(top', 2));
    CancelLeft("set-", Padded(leaf, 2), Padded(leaf', 2));
    PaddedInjective(top, top', 2);
    PaddedInjective(leaf, leaf', 2);
  }

  lemma {:induction false} DigitsSlashFree(s: string)
    requires AllDigits(s)
    ensures '/' !in s
  {
  }

  lemma {:induction false} FileNamePlain(name: string, i: nat, extension: string)
    requires '/' !in name && '/' !in extension && name != ""
    ensures PlainPart(FileName(name, i, extension))
  {
    hide Padded, AllDigits;
    PaddedNumber(i, 5);
    DigitsSlashFree(Padded(i, 5));
    var f := FileName(name, i, extension);
    assert f[|name|] == '-' && '-' in f;
  }

  lemma {:induction false} LeafDirPlain(g: Group, top: nat, leaf: nat)
    requires PlainPart(g.name)
    ensures PlainParts(LeafDir(g, top, leaf))
  {
    hide Padded, AllDigits;
    PaddedNumber(top, 2);
    PaddedNumber(leaf, 2);
    DigitsSlashFree(Padded(top, 2));
    DigitsSlashFree(Padded(leaf, 2));
    var a, b := "tier-" + Padded(top, 2), "set-" + Padded(leaf, 2);
    assert a[4] == '-' && b[3] == '-';
    assert PlainPart(a) && PlainPart(b);
  }

  /** Nothing of a plain group's paths is cleaned away. */
  lemma {:induction false} PathShape(g: Group, i: nat)
    requires Valid(g) && PlainGroup(g)
    ensures FileAt(g, i).path == LeafDir(g, TopOf(g, i), WithinTop(g, i)) + [FileName(g.name, i, g.extension)]
    ensures SlashFree(FileAt(g, i).path)
  {
    hide Padded, FileName, TopOf, WithinTop, LeafDir, Clean, Joined, DividesEvenly;
    var parts := LeafDir(g, TopOf(g, i), WithinTop(g, i)) + [FileName(g.name, i, g.extension)];
    LeafDirPlain(g, TopOf(g, i), WithinTop(g, i));
    FileNamePlain(g.name, i, g.extension);
    CleanPlain(parts);
  }

  lemma {:induction false} FirstAndLast(g: Group, i: nat)
    requires Valid(g) && PlainGroup(g)
    ensures var p := FileAt(g, i).path; |p| == 4 && p[0] == g.name && p[3] == FileName(g.name, i, g.extension)
  {
    PathShape(g, i);
    hide Padded, FileName, TopOf, WithinTop, FileAt;
  }

  lemma {:induction false} SamePath(g: Group, i: nat, h: Group, j: nat)
    requires Valid(g) && PlainGroup(g) && Valid(h) && PlainGroup(h) && PathText(FileAt(g, i)) == PathText(FileAt(h, j))
    ensures g.name == h.name && (g == h ==> i == j)
  {
    hide LeafDir, SlashFree, DividesEvenly, Joined, FileName, FileAt, PlainGroup;
    PathShape(g, i);
    PathShape(h, j);
    FirstAndLast(g, i);
    FirstAndLast(h, j);
    JoinedInjective(FileAt(g, i).path, FileAt(h, j).path);
    if g == h { FileNameInjective(g.name, i, j, g.extension); }
  }

  lemma {:induction false} DistinctConcat(a: seq<File>, b: seq<File>)
    requires DistinctKeys(a, PathText) && DistinctKeys(b, PathText)
    requires forall i, j :: 0 <= i < |a| && 0 <= j < |b| ==> PathText(a[i]) != PathText(b[j])
    ensures DistinctKeys(a + b, PathText)
  {
    hide PathText;
    var c := a + b;
    forall i, j | 0 <= i < j < |c| ensures PathText(c[i]) != PathText(c[j]) {
      if j < |a| {
        assert c[i] == a[i] && c[j] == a[j];
      } else if i < |a| {
        assert c[i] == a[i] && c[j] == b[j - |a|];
      } else {
        assert c[i] == b[i - |a|] && c[j] == b[j - |a|];
      }
    }
  }

  /** Every file of a manifest with distinct group names has its own path. */
  lemma {:induction false} PathsDistinct(groups: seq<Group>)
    requires Plain(groups)
    ensures DistinctKeys(AllFiles(groups), PathText)
  {
    hide FileAt, DividesEvenly, PathText;
    if groups != [] {
      var n := |groups| - 1;
      var front, last := groups[..n], groups[n];
      PathsDistinct(front);
      var a, b := AllFiles(front), FirstFiles(last, last.fileCount);
      FirstFilesAt(last, last.fileCount);
      forall i, j | 0 <= i < j < |b| ensures PathText(b[i]) != PathText(b[j]) {
        if PathText(FileAt(last, i)) == PathText(FileAt(last, j)) { SamePath(last, i, last, j); }
      }
      forall i, j | 0 <= i < |a| && 0 <= j < |b| ensures PathText(a[i]) != PathText(b[j]) {
        assert a[i] in a;
        AllFilesHold(front, a[i]);
        var k, m :| 0 <= k < |front| && 0 <= m < front[k].fileCount && a[i] == FileAt(front[k], m);
        assert groups[k].name != groups[n].name;
        if PathText(FileAt(front[k], m)) == PathText(FileAt(last, j)) { SamePath(front[k], m, last, j); }
      }
      DistinctConcat(a, b);
    }
  }

  // ---------------------------------------------------------------- every leaf gets its share

  lemma {:induction false} Quotient(i: nat, d: nat, q: nat)
    requires d > 0
    ensures i / d == q <==> q * d <= i < q * d + d
  {
    var e := i / d;
    assert i == d * e + i % d;
    if e < q { Grows(e + 1, q, d); }
    if q < e { Grows(q + 1, e, d); }
  }

  lemma {:induction false} Grows(a: nat, b: nat, d: nat)
    requires a <= b
    ensures a * d <= b * d
  {
    assert b * d == a * d + (b - a) * d;
  }

  lemma {:induction false} LeafOf(leaf: nat, perTop: nat, top: nat, within: nat)
    requires perTop > 0 && within < perTop
    ensures leaf / perTop == top && leaf % perTop == within <==> leaf == top * perTop + within
  {
    Quotient(leaf, perTop, top);
    assert leaf == perTop * (leaf / perTop) + leaf % perTop;
  }

  function Parent(f: File): FilePath {
    if f.path == [] then [] else f.path[..|f.path| - 1]
  }

  /** The files whose directory this is. */
  function FilesIn(files: seq<File>, dir: FilePath): set<File> {
    set f | f in files && Parent(f) == dir
  }

  function Range(g: Group, lo: nat, hi: nat): set<File>
    requires Valid(g)
  {
    set i | lo <= i < hi :: FileAt(g, i)
  }

  lemma {:induction false} RangeSize(g: Group, lo: nat, hi: nat)
    requires Valid(g) && PlainGroup(g) && lo <= hi
    ensures |Range(g, lo, hi)| == hi - lo
    decreases hi
  {
    hide FileAt, Valid, PlainGroup;
    if lo < hi {
      RangeSize(g, lo, hi - 1);
      var f := FileAt(g, hi - 1);
      forall i | lo <= i < hi - 1 ensures FileAt(g, i) != f {
        FilesDiffer(g, i, hi - 1);
      }
      assert Range(g, lo, hi) == Range(g, lo, hi - 1) + {f};
    }
  }

  lemma {:induction false} FilesDiffer(g: Group, i: nat, j: nat)
    requires Valid(g) && PlainGroup(g) && i != j
    ensures FileAt(g, i) != FileAt(g, j)
  {
    hide FileAt, Valid, PlainGroup, FileName;
    FirstAndLast(g, i);
    FirstAndLast(g, j);
    if FileName(g.name, i, g.extension) == FileName(g.name, j, g.extension) {
      FileNameInjective(g.name, i, j, g.extension);
    }
  }

  /** The position of a leaf directory in the counting of its group. */
  function LeafIndex(g: Group, top: nat, leaf: nat): nat
    requires g.leavesPerTop > 0
  {
    top * g.leavesPerTop + leaf
  }

  lemma {:induction false} InLeaf(g: Group, i: nat, top: nat, leaf: nat)
    requires Valid(g) && PlainGroup(g) && leaf < g.leavesPerTop
    ensures var lo := LeafIndex(g, top, leaf) * PerLeaf(g);
      Parent(FileAt(g, i)) == LeafDir(g, top, leaf) <==> lo <= i < lo + PerLeaf(g)
  {
    hide Padded, FileName, LeafDir, FileAt, Parent, DividesEvenly, PlainGroup;
    var at := i / PerLeaf(g);
    Quotient(i, PerLeaf(g), LeafIndex(g, top, leaf));
    LeafOf(at, g.leavesPerTop, top, leaf);
    ParentIs(g, i);
    if Parent(FileAt(g, i)) == LeafDir(g, top, leaf) {
      LeafDirInjective(g, TopOf(g, i), WithinTop(g, i), top, leaf);
    }
  }

  lemma {:induction false} ParentIs(g: Group, i: nat)
    requires Valid(g) && PlainGroup(g)
    ensures Parent(FileAt(g, i)) == LeafDir(g, TopOf(g, i), WithinTop(g, i))
  {
    PathShape(g, i);
    hide Padded, FileName, TopOf, WithinTop, FileAt;
  }

  lemma {:induction false} LeafFits(g: Group, top: nat, leaf: nat)
    requires Valid(g) && top < g.topDirs && leaf < g.leavesPerTop
    ensures LeafIndex(g, top, leaf) * PerLeaf(g) + PerLeaf(g) <= g.fileCount
  {
    var n, m, per := LeafIndex(g, top, leaf), g.topDirs * g.leavesPerTop, PerLeaf(g);
    Grows(top + 1, g.topDirs, g.leavesPerTop);
    assert n + 1 <= m;
    Grows(n + 1, m, per);
    assert (n + 1) * per == n * per + per && m * per == per * m;
  }

  lemma {:induction false} LeafFiles(groups: seq<Group>, k: nat, top: nat, leaf: nat)
    requires Plain(groups) && k < |groups| && top < groups[k].topDirs && leaf < groups[k].leavesPerTop
    ensures var g := groups[k]; var lo := LeafIndex(g, top, leaf) * PerLeaf(g);
      FilesIn(AllFiles(groups), LeafDir(g, top, leaf)) == Range(g, lo, lo + PerLeaf(g))
  {
    hide FileAt, Parent, AllFiles, LeafDir;
    var g, per := groups[k], PerLeaf(groups[k]);
    var lo, dir := LeafIndex(g, top, leaf) * per, LeafDir(g, top, leaf);
    LeafFits(g, top, leaf);
    forall f ensures f in FilesIn(AllFiles(groups), dir) <==> f in Range(g, lo, lo + per) {
      AllFilesHold(groups, f);
      if f in Range(g, lo, lo + per) {
        var i :| lo <= i < lo + per && f == FileAt(g, i);
        InLeaf(g, i, top, leaf);
      }
      if f in AllFiles(groups) && Parent(f) == dir {
        var l, i :| 0 <= l < |groups| && 0 <= i < groups[l].fileCount && f == FileAt(groups[l], i);
        DirName(groups[l], i, g, top, leaf);
        assert l == k;
        InLeaf(g, i, top, leaf);
      }
    }
  }

  lemma {:induction false} DirName(h: Group, i: nat, g: Group, top: nat, leaf: nat)
    requires Valid(h) && PlainGroup(h) && Parent(FileAt(h, i)) == LeafDir(g, top, leaf)
    ensures h.name == g.name
  {
    ParentIs(h, i);
    hide Padded, FileName, TopOf, WithinTop, FileAt;
    assert Parent(FileAt(h, i))[0] == h.name;
    assert LeafDir(g, top, leaf)[0] == g.name;
  }

  /** Each leaf directory of each group gets exactly its share of the group's files. */
  lemma {:induction false} LeafShare(groups: seq<Group>, k: nat, top: nat, leaf: nat)
    requires Plain(groups) && k < |groups| && top < groups[k].topDirs && leaf < groups[k].leavesPerTop
    ensures |FilesIn(Sorted(AllFiles(groups), PathText), LeafDir(groups[k], top, leaf))| == PerLeaf(groups[k])
  {
    hide FileAt, Parent, AllFiles, LeafDir, Sorted, Range;
    var g := groups[k];
    PathsDistinct(groups);
    SortedAscending(AllFiles(groups), PathText);
    LeafFiles(groups, k, top, leaf);
    var lo := LeafIndex(g, top, leaf) * PerLeaf(g);
    RangeSize(g, lo, lo + PerLeaf(g));
    assert FilesIn(Sorted(AllFiles(groups), PathText), LeafDir(g, top, leaf)) ==
      FilesIn(AllFiles(groups), LeafDir(g, top, leaf));
  }

  // ---------------------------------------------------------------- the code

  /** `expandBenchLiveFixtureManifest`: the files by path, and their directories by path; `None` is a rejected
      manifest. */
  method Expand(groups: seq<Group>) returns (r: Option<(seq<File>, seq<FilePath>)>)
    ensures r.Some? <==> AllValid(groups)
    ensures r.Some? ==> r.value.0 == Sorted(AllFiles(groups), PathText)
    ensures r.Some? ==>
      Ascending(r.value.1, TextOf) && forall d :: d in r.value.1 <==> d in Directories(AllFiles(groups))
  {
    hide FileAt, Sorted, Directories, Ascending, TextOf, Valid;
    var files: seq<File>, dirs: set<FilePath> := [], {};
    NoDirectories();
    for k := 0 to |groups|
      invariant AllValid(groups[..k]) && files == AllFiles(groups[..k]) && dirs == Directories(files)
    {
      var g := groups[k];
      if !Valid(g) { return None; }
      Counted(g);
      ghost var before := files;
      for i := 0 to g.fileCount
        invariant files == before + FirstFiles(g, i) && dirs == Directories(files)
      {
        var file := FileAt(g, i);
        dirs := AddParents(files, dirs, file);
        assert before + FirstFiles(g, i) + [file] == before + (FirstFiles(g, i) + [file]);
        files := files + [file];
      }
      assert groups[..k + 1][..k] == groups[..k];
    }
    assert groups[..|groups|] == groups;
    DirectoriesProper(groups);
    var sorted := SortPaths(dirs);
    return Some((Sorted(files, PathText), sorted));
  }

  lemma {:induction false} Counted(g: Group)
    requires Valid(g)
    ensures g.fileCount > 0
  {
  }

  lemma {:induction false} NoDirectories()
    ensures Directories([]) == {}
  {
  }

  lemma {:induction false} FilesProper(groups: seq<Group>, f: File)
    requires AllValid(groups) && f in AllFiles(groups)
    ensures f.path != [] && SlashFree(f.path)
  {
    hide Clean, LeafDir, FileName, Valid;
    AllFilesHold(groups, f);
    var k, i :| 0 <= k < |groups| && 0 <= i < groups[k].fileCount && f == FileAt(groups[k], i);
    CleanSlashFree(Joined(LeafDir(groups[k], TopOf(groups[k], i), WithinTop(groups[k], i))
      + [FileName(groups[k].name, i, groups[k].extension)]));
  }

  lemma {:induction false} DirectoriesProper(groups: seq<Group>)
    requires AllValid(groups)
    ensures forall d :: d in Directories(AllFiles(groups)) ==> d != [] && SlashFree(d)
  {
    hide AllFiles, Valid;
    forall d | d in Directories(AllFiles(groups)) ensures d != [] && SlashFree(d) {
      var f, k :| f in AllFiles(groups) && 0 < k < |f.path| && f.path[..k] == d;
      FilesProper(groups, f);
    }
  }

  /** The paths of a set, each once, sorted by their text. */
  method SortPaths(paths: set<FilePath>) returns (r: seq<FilePath>)
    requires forall p :: p in paths ==> p != [] && SlashFree(p)
    ensures Ascending(r, TextOf) && forall p :: p in r <==> p in paths
  {
    var list, todo := [], paths;
    while todo != {}
      invariant todo <= paths && forall p :: p in list <==> p in paths && p !in todo
      invariant forall i, j :: 0 <= i < j < |list| ==> list[i] != list[j]
    {
      var p :| p in todo;
      todo := todo - {p};
      assert forall i :: 0 <= i < |list| ==> list[i] in list;
      list := list + [p];
    }
    assert forall i :: 0 <= i < |list| ==> list[i] in list;
    DistinctTexts(list);
    SortedAscending(list, TextOf);
    r := Sorted(list, TextOf);
  }

  lemma {:induction false} DistinctTexts(list: seq<FilePath>)
    requires forall i :: 0 <= i < |list| ==> list[i] != [] && SlashFree(list[i])
    requires forall i, j :: 0 <= i < j < |list| ==> list[i] != list[j]
    ensures DistinctKeys(list, TextOf)
  {
    hide SlashFree, Joined;
    forall i, j | 0 <= i < j < |list| ensures TextOf(list[i]) != TextOf(list[j]) {
      if Joined(list[i]) == Joined(list[j]) { JoinedInjective(list[i], list[j]); }
    }
  }

  /** The loop over a file's parents, up to the root or the current directory. */
  method AddParents(ghost files: seq<File>, dirs: set<FilePath>, file: File) returns (r: set<FilePath>)
    requires dirs == Directories(files)
    ensures r == Directories(files + [file])
  {
    r := dirs;
    var parent := Parent(file);
    ghost var n := |parent|;
    while parent != [] && parent != [""]
      invariant 0 <= n && (n > 0 ==> n < |file.path|) && parent == file.path[..n]
      invariant r == dirs + set k | n < k < |file.path| :: file.path[..k]
      invariant forall k :: n < k < |file.path| ==> file.path[..k] != [""]
      decreases |parent|
    {
      r := r + {parent};
      parent := parent[..|parent| - 1];
      n := n - 1;
    }
    DirectoriesMore(files, file);
    RootOnly(file, n);
  }

  lemma {:induction false} RootOnly(file: File, n: nat)
    requires n <= |file.path| && (file.path[..n] == [] || file.path[..n] == [""])
    requires forall k :: n < k < |file.path| ==> file.path[..k] != [""]
    ensures (set k | n < k < |file.path| :: file.path[..k])
         == set k | 0 < k < |file.path| && file.path[..k] != [""] :: file.path[..k]
  {
    var a := set k | n < k < |file.path| :: file.path[..k];
    var b := set k | 0 < k < |file.path| && file.path[..k] != [""] :: file.path[..k];
    forall d | d in b ensures d in a {
      var k :| 0 < k < |file.path| && file.path[..k] != [""] && file.path[..k] == d;
      assert k > n;
    }
  }

  lemma {:induction false} DirectoriesMore(files: seq<File>, file: File)
    ensures Directories(files + [file])
         == Directories(files) + set k | 0 < k < |file.path| && file.path[..k] != [""] :: file.path[..k]
  {
    var more := set k | 0 < k < |file.path| && file.path[..k] != [""] :: file.path[..k];
    forall d ensures d in Directories(files + [file]) <==> d in Directories(files) || d in more {
      if d in Directories(files + [file]) {
        var f, k :| f in files + [file] && 0 < k < |f.path| && f.path[..k] != [""] && f.path[..k] == d;
      }
    }
  }

  // ---------------------------------------------------------------- the names in full

  /** Decimal digits of a number, padded with zeros to a width and no further. */
  predicate Decimal(s: string, n: nat, width: nat) {
    AllDigits(s) && Number(s) == n && |s| >= width && (|s| > width && |s| > 1 ==> s[0] != '0')
  }

  lemma {:induction false} DigitsLead(n: nat)
    ensures |Digits(n)| >= 1 && (|Digits(n)| > 1 ==> Digits(n)[0] != '0')
  {
    if n >= 10 {
      DigitsLead(n / 10);
      if n / 10 < 10 { assert Digits(n / 10) == [Digit(n / 10)]; }
    }
  }

  lemma {:induction false} PaddedDecimal(n: nat, width: nat)
    ensures Decimal(Padded(n, width), n, width)
  {
    PaddedNumber(n, width);
    DigitsLead(n);
    var k := if |Digits(n)| < width then width - |Digits(n)| else 0;
    ZerosNumber(k);
    hide Digits, Zeros, Number, AllDigits;
    if k == 0 { assert Padded(n, width) == Digits(n) by { assert Zeros(0) == ""; } }
  }

  /** The path of the file with number `i`: group, tier, set and name, numbered in decimal. */
  lemma {:induction false} FilePathIs(g: Group, i: nat) returns (tier: string, leaf: string, number: string)
    requires Valid(g) && PlainGroup(g)
    ensures FileAt(g, i) ==
      File([g.name, "tier-" + tier, "set-" + leaf, g.name + "-" + number + "." + g.extension], g.sizeBytes)
    ensures Decimal(tier, i / PerLeaf(g) / g.leavesPerTop, 2) && Decimal(leaf, i / PerLeaf(g) % g.leavesPerTop, 2)
    ensures Decimal(number, i, 5)
  {
    hide Padded, Decimal, Clean, Joined;
    PathShape(g, i);
    tier, leaf, number := Padded(TopOf(g, i), 2), Padded(WithinTop(g, i), 2), Padded(i, 5);
    PaddedDecimal(TopOf(g, i), 2);
    PaddedDecimal(WithinTop(g, i), 2);
    PaddedDecimal(i, 5);
  }
}
