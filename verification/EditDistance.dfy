/** "Did you mean?" suggestions of `unknown.go`: the two-row Levenshtein loop, the distance it
    computes, and the choice of the closest known key. Strings are byte sequences, as in Go. */
module EditDistance {
  newtype Byte = x: int | 0 <= x < 256

  type Bytes = seq<Byte>

  const MAX_DISTANCE := 3

  function Min3(a: nat, b: nat, c: nat): nat {
    if b < a then (if c < b then c else b) else (if c < a then c else a)
  }

  function Cost(x: Byte, y: Byte): nat {
    if x == y then 0 else 1
  }

  function Init(s: Bytes): Bytes
    requires s != []
  {
    s[..|s| - 1]
  }

  function Last(s: Bytes): Byte
    requires s != []
  {
    s[|s| - 1]
  }

  /** Edit distance, by the last byte of each string. */
  function Distance(a: Bytes, b: Bytes): nat
    decreases |a| + |b|
  {
    if a == [] then |b|
    else if b == [] then |a|
    else Min3(Distance(a, Init(b)) + 1, Distance(Init(a), b) + 1, Distance(Init(a), Init(b)) + Cost(Last(a), Last(b)))
  }

  // ---------------------------------------------------------------- the loop

  /** One cell of the table from its three neighbours. */
  lemma {:induction false} Cell(a: Bytes, i: nat, b: Bytes, j: nat)
    requires i < |a| && j < |b|
    ensures Distance(a[..i + 1], b[..j + 1]) ==
      Min3(Distance(a[..i + 1], b[..j]) + 1, Distance(a[..i], b[..j + 1]) + 1,
        Distance(a[..i], b[..j]) + Cost(a[i], b[j]))
  {
    hide Distance;
    var x, y := a[..i + 1], b[..j + 1];
    assert Init(x) == a[..i] && Init(y) == b[..j] && Last(x) == a[i] && Last(y) == b[j];
    Unfold(x, y);
  }

  lemma {:induction false} Unfold(a: Bytes, b: Bytes)
    requires a != [] && b != []
    ensures Distance(a, b) ==
      Min3(Distance(a, Init(b)) + 1, Distance(Init(a), b) + 1, Distance(Init(a), Init(b)) + Cost(Last(a), Last(b)))
  {
  }

  lemma {:induction false} Borders(a: Bytes, b: Bytes)
    ensures Distance([], b) == |b| && Distance(a, []) == |a|
  {
  }

  /** The row for the first `i` bytes of `a`. */
  ghost predicate IsRow(row: array<nat>, a: Bytes, i: nat, b: Bytes)
    reads row
  {
    row.Length == |b| + 1 && i <= |a| && forall k :: 0 <= k <= |b| ==> row[k] == Distance(a[..i], b[..k])
  }

  /** The inner loop: the next row from the previous one. */
  method FillRow(a: Bytes, i: nat, b: Bytes, prev: array<nat>, curr: array<nat>)
    requires i < |a| && IsRow(prev, a, i, b) && curr.Length == |b| + 1 && prev != curr
    modifies curr
    ensures IsRow(curr, a, i + 1, b)
  {
    hide Distance;
    curr[0] := i + 1;
    Borders(a[..i + 1], b);
    for j := 0 to |b|
      invariant IsRow(prev, a, i, b)
      invariant forall k :: 0 <= k <= j ==> curr[k] == Distance(a[..i + 1], b[..k])
    {
      var cost := if a[i] == b[j] then 0 else 1;
      Cell(a, i, b, j);
      curr[j + 1] := Min3(curr[j] + 1, prev[j + 1] + 1, prev[j] + cost);
    }
  }

  /** The source's loop: two rows, filled left to right and swapped after every byte of `a`. */
  method Levenshtein(a: Bytes, b: Bytes) returns (d: nat)
    ensures d == Distance(a, b)
  {
    if a == [] {
      return |b|;
    }
    if b == [] {
      return |a|;
    }
    hide Distance;
    var prev, curr := new nat[|b| + 1], new nat[|b| + 1];
    for j := 0 to prev.Length
      invariant forall k :: 0 <= k < j ==> prev[k] == k
    {
      prev[j] := j;
    }
    forall k | 0 <= k <= |b| ensures prev[k] == Distance(a[..0], b[..k]) {
      Borders(a, b[..k]);
    }
    for i := 0 to |a|
      invariant IsRow(prev, a, i, b) && curr.Length == |b| + 1 && prev != curr
      invariant fresh(prev) && fresh(curr)
    {
      FillRow(a, i, b, prev, curr);
      prev, curr := curr, prev;
    }
    assert a[..|a|] == a && b[..|b|] == b;
    return prev[|b|];
  }

  // ---------------------------------------------------------------- a metric

  lemma {:induction false} SelfDistance(a: Bytes)
    ensures Distance(a, a) == 0
  {
    if a != [] {
      SelfDistance(Init(a));
    }
  }

  /** Distance zero means equal. */
  lemma {:induction false} Identity(a: Bytes, b: Bytes)
    ensures Distance(a, b) == 0 <==> a == b
    decreases |a| + |b|
  {
    if a == b {
      SelfDistance(a);
    } else if a != [] && b != [] {
      Identity(Init(a), Init(b));
      assert a == Init(a) + [Last(a)] && b == Init(b) + [Last(b)];
    }
  }

  lemma {:induction false} Symmetry(a: Bytes, b: Bytes)
    ensures Distance(a, b) == Distance(b, a)
    decreases |a| + |b|
  {
    if a != [] && b != [] {
      Symmetry(a, Init(b));
      Symmetry(Init(a), b);
      Symmetry(Init(a), Init(b));
    }
  }

  /** The three ways to end an alignment, as upper bounds. */
  lemma {:induction false} Bounds(a: Bytes, b: Bytes)
    ensures a != [] ==> Distance(a, b) <= Distance(Init(a), b) + 1
    ensures b != [] ==> Distance(a, b) <= Distance(a, Init(b)) + 1
    ensures a != [] && b != [] ==> Distance(a, b) <= Distance(Init(a), Init(b)) + Cost(Last(a), Last(b))
    decreases |a| + |b|
  {
  }

  lemma {:induction false} LengthBound(a: Bytes, b: Bytes)
    ensures |b| <= |a| + Distance(a, b)
    ensures |a| <= |b| + Distance(a, b)
    decreases |a| + |b|
  {
    if a != [] && b != [] {
      LengthBound(a, Init(b));
      LengthBound(Init(a), b);
      LengthBound(Init(a), Init(b));
    }
  }

  /** The last columns of two alignments, combined. */
  lemma {:induction false} TriangleStep(a: Bytes, b: Bytes, c: Bytes)
    requires a != [] && b != [] && c != []
    requires Distance(Init(a), c) <= Distance(Init(a), b) + Distance(b, c)
    requires Distance(a, Init(c)) <= Distance(a, b) + Distance(b, Init(c))
    requires Distance(a, c) <= Distance(a, Init(b)) + Distance(Init(b), c)
    requires Distance(a, Init(c)) <= Distance(a, Init(b)) + Distance(Init(b), Init(c))
    requires Distance(Init(a), c) <= Distance(Init(a), Init(b)) + Distance(Init(b), c)
    requires Distance(Init(a), Init(c)) <= Distance(Init(a), Init(b)) + Distance(Init(b), Init(c))
    ensures Distance(a, c) <= Distance(a, b) + Distance(b, c)
  {
    hide Distance, Init, Last;
    Unfold(a, b);
    Unfold(b, c);
    Bounds(a, c);
    assert Cost(Last(a), Last(c)) <= Cost(Last(a), Last(b)) + Cost(Last(b), Last(c));
  }

  lemma {:induction false} Triangle(a: Bytes, b: Bytes, c: Bytes)
    ensures Distance(a, c) <= Distance(a, b) + Distance(b, c)
    decreases |a| + |b| + |c|
  {
    hide Distance;
    Borders(a, c);
    if a == [] {
      Borders(a, b);
      LengthBound(b, c);
    } else if c == [] {
      Borders(b, c);
      LengthBound(a, b);
    } else if b == [] {
      Bounds(a, c);
      Triangle(Init(a), b, c);
      Borders(a, b);
      Borders(Init(a), b);
    } else {
      Triangle(Init(a), b, c);
      Triangle(a, b, Init(c));
      Triangle(a, Init(b), c);
      Triangle(a, Init(b), Init(c));
      Triangle(Init(a), Init(b), c);
      Triangle(Init(a), Init(b), Init(c));
      TriangleStep(a, b, c);
    }
  }

  // ---------------------------------------------------------------- edit scripts

  /** One edit anywhere in the string. */
  datatype Edit = Insert(at: nat, x: Byte) | Delete(at: nat) | Substitute(at: nat, x: Byte)

  predicate Applies(e: Edit, s: Bytes) {
    match e
    case Insert(at, _) => at <= |s|
    case Delete(at) => at < |s|
    case Substitute(at, _) => at < |s|
  }

  function Apply(e: Edit, s: Bytes): Bytes
    requires Applies(e, s)
  {
    match e
    case Insert(at, x) => s[..at] + [x] + s[at..]
    case Delete(at) => s[..at] + s[at + 1..]
    case Substitute(at, x) => s[at := x]
  }

  /** The script turns `a` into `b`. */
  predicate Leads(script: seq<Edit>, a: Bytes, b: Bytes) {
    if script == [] then a == b else Applies(script[0], a) && Leads(script[1..], Apply(script[0], a), b)
  }

  lemma {:induction false} SameTail(a: Bytes, b: Bytes, x: Byte)
    ensures Distance(a + [x], b + [x]) <= Distance(a, b)
  {
    Bounds(a + [x], b + [x]);
    assert Init(a + [x]) == a && Init(b + [x]) == b;
  }

  lemma {:induction false} SameTails(a: Bytes, b: Bytes, t: Bytes)
    ensures Distance(a + t, b + t) <= Distance(a, b)
  {
    hide Distance;
    if t == [] {
      assert a + t == a && b + t == b;
    } else {
      SameTails(a, b, Init(t));
      SameTail(a + Init(t), b + Init(t), Last(t));
      assert a + t == a + Init(t) + [Last(t)] && b + t == b + Init(t) + [Last(t)];
    }
  }

  lemma {:induction false} NearEnds(p: Bytes, x: Byte, y: Byte)
    ensures Distance(p, p + [x]) <= 1 && Distance(p + [x], p) <= 1 && Distance(p + [x], p + [y]) <= 1
  {
    SelfDistance(p);
    assert Init(p + [x]) == p && Init(p + [y]) == p;
    Bounds(p, p + [x]);
    Bounds(p + [x], p);
    Bounds(p + [x], p + [y]);
  }

  lemma {:induction false} OneEdit(s: Bytes, e: Edit)
    requires Applies(e, s)
    ensures Distance(s, Apply(e, s)) <= 1
  {
    hide Distance;
    var p := s[..e.at];
    match e
    case Insert(at, x) =>
      NearEnds(p, x, x);
      SameTails(p, p + [x], s[at..]);
      assert s == p + s[at..];
    case Delete(at) =>
      NearEnds(p, s[at], s[at]);
      SameTails(p + [s[at]], p, s[at + 1..]);
      assert s == p + [s[at]] + s[at + 1..];
    case Substitute(at, x) =>
      NearEnds(p, s[at], x);
      SameTails(p + [s[at]], p + [x], s[at + 1..]);
      assert s == p + [s[at]] + s[at + 1..] && s[at := x] == p + [x] + s[at + 1..];
  }

  /** No script is shorter than the distance. */
  lemma {:induction false} ScriptsAreLong(script: seq<Edit>, a: Bytes, b: Bytes)
    requires Leads(script, a, b)
    ensures Distance(a, b) <= |script|
    decreases script
  {
    if script == [] {
      SelfDistance(a);
    } else {
      var m := Apply(script[0], a);
      ScriptsAreLong(script[1..], m, b);
      OneEdit(a, script[0]);
      Triangle(a, m, b);
    }
  }

  /** A script for prefixes works unchanged in front of a common last byte. */
  lemma {:induction false} ApplyWithTail(e: Edit, a: Bytes, x: Byte)
    requires Applies(e, a)
    ensures Applies(e, a + [x]) && Apply(e, a + [x]) == Apply(e, a) + [x]
  {
  }

  lemma {:induction false} LeadsWithTail(script: seq<Edit>, a: Bytes, b: Bytes, x: Byte)
    requires Leads(script, a, b)
    ensures Leads(script, a + [x], b + [x])
    decreases script
  {
    if script != [] {
      var e := script[0];
      LeadsWithTail(script[1..], Apply(e, a), b, x);
      ApplyWithTail(e, a, x);
      hide Apply;
    }
  }

  lemma {:induction false} LeadsThen(script: seq<Edit>, a: Bytes, b: Bytes, e: Edit)
    requires Leads(script, a, b) && Applies(e, b)
    ensures Leads(script + [e], a, Apply(e, b))
    decreases script
  {
    if script == [] {
      assert [] + [e] == [e] && [e][1..] == [];
    } else {
      LeadsThen(script[1..], Apply(script[0], a), b, e);
      assert (script + [e])[1..] == script[1..] + [e];
    }
  }

  lemma {:induction false} ThenInsert(script: seq<Edit>, a: Bytes, b: Bytes) returns (r: seq<Edit>)
    requires b != [] && Leads(script, a, Init(b))
    ensures Leads(r, a, b) && |r| == |script| + 1
  {
    hide Leads;
    var e := Insert(|Init(b)|, Last(b));
    LeadsThen(script, a, Init(b), e);
    assert Apply(e, Init(b)) == b;
    r := script + [e];
  }

  lemma {:induction false} ThenDelete(script: seq<Edit>, a: Bytes, b: Bytes) returns (r: seq<Edit>)
    requires a != [] && Leads(script, Init(a), b)
    ensures Leads(r, a, b) && |r| == |script| + 1
  {
    hide Leads;
    LeadsWithTail(script, Init(a), b, Last(a));
    assert Init(a) + [Last(a)] == a;
    LeadsThen(script, a, b + [Last(a)], Delete(|b|));
    assert Apply(Delete(|b|), b + [Last(a)]) == b;
    r := script + [Delete(|b|)];
  }

  lemma {:induction false} ThenSubstitute(script: seq<Edit>, a: Bytes, b: Bytes) returns (r: seq<Edit>)
    requires a != [] && b != [] && Leads(script, Init(a), Init(b))
    ensures Leads(r, a, b) && |r| == |script| + Cost(Last(a), Last(b))
  {
    hide Leads;
    LeadsWithTail(script, Init(a), Init(b), Last(a));
    assert Init(a) + [Last(a)] == a && Init(b) + [Last(b)] == b;
    r := script;
    if Last(a) != Last(b) {
      var e := Substitute(|Init(b)|, Last(b));
      LeadsThen(script, a, Init(b) + [Last(a)], e);
      assert Apply(e, Init(b) + [Last(a)]) == b;
      r := script + [e];
    }
  }

  /** Some script has exactly the length of the distance. */
  lemma {:induction false} ShortestScript(a: Bytes, b: Bytes) returns (script: seq<Edit>)
    ensures Leads(script, a, b) && |script| == Distance(a, b)
    decreases |a| + |b|
  {
    if a == [] && b == [] {
      script := [];
    } else if b != [] && (a == [] || Distance(a, b) == Distance(a, Init(b)) + 1) {
      Borders(a, b);
      Borders(a, Init(b));
      script := ShortestScript(a, Init(b));
      script := ThenInsert(script, a, b);
    } else if b == [] || Distance(a, b) == Distance(Init(a), b) + 1 {
      Borders(a, b);
      Borders(Init(a), b);
      script := ShortestScript(Init(a), b);
      script := ThenDelete(script, a, b);
    } else {
      script := ShortestScript(Init(a), Init(b));
      script := ThenSubstitute(script, a, b);
    }
  }

  // ---------------------------------------------------------------- the suggestion

  /** `i` is the first index whose key is at least as close as every other. */
  predicate FirstClosest(word: Bytes, known: seq<Bytes>, i: nat) {
    && i < |known|
    && (forall j :: 0 <= j < |known| ==> Distance(word, known[i]) <= Distance(word, known[j]))
    && (forall j :: 0 <= j < i ==> Distance(word, known[i]) < Distance(word, known[j]))
  }

  method ClosestMatch(word: Bytes, known: seq<Bytes>) returns (best: Bytes)
    ensures (forall j :: 0 <= j < |known| ==> Distance(word, known[j]) > 3) ==> best == []
    ensures (exists j :: 0 <= j < |known| && Distance(word, known[j]) <= 3) ==>
      exists i: nat :: FirstClosest(word, known, i) && best == known[i] && Distance(word, best) <= 3
    ensures [] !in known ==>
      (best == [] <==> forall j :: 0 <= j < |known| ==> Distance(word, known[j]) > 3)
  {
    best := [];
    var bestDist := MAX_DISTANCE + 1;
    ghost var at: nat := 0;
    for i := 0 to |known|
      invariant bestDist <= MAX_DISTANCE + 1
      invariant bestDist == MAX_DISTANCE + 1 ==> best == []
      invariant bestDist <= MAX_DISTANCE ==> at < i && best == known[at] && bestDist == Distance(word, best)
      invariant forall j :: 0 <= j < i ==> bestDist <= Distance(word, known[j])
      invariant bestDist <= MAX_DISTANCE ==> forall j :: 0 <= j < at ==> bestDist < Distance(word, known[j])
    {
      var d := Levenshtein(word, known[i]);
      if d < bestDist {
        bestDist := d;
        best := known[i];
        at := i;
      }
    }
    if bestDist <= MAX_DISTANCE {
      assert FirstClosest(word, known, at);
      return best;
    }
    return [];
  }
}
