/** `SanitizePathComponent`: display names as file-name components. */
module Sanitize {

  predicate Unsafe(c: char) {
    c in {'/', '\\', ':', '<', '>', '"', '|', '?', '*'}
  }

  predicate Edge(c: char) {
    c == '-' || c == ' '
  }

  /** The single-character replacer. */
  function Replaced(s: string): string {
    if s == "" then "" else [if Unsafe(s[0]) then '-' else s[0]] + Replaced(s[1..])
  }

  predicate DoubleAt(s: string, i: int) {
    0 <= i && i + 1 < |s| && s[i] == '-' && s[i + 1] == '-'
  }

  /** `strings.Contains(s, "--")`. */
  predicate HasDouble(s: string) {
    exists i: int :: 0 <= i < |s| && DoubleAt(s, i)
  }

  /** `strings.ReplaceAll(s, "--", "-")`: the matches do not overlap. */
  function Halved(s: string): string {
    if s == "" then ""
    else if DoubleAt(s, 0) then "-" + Halved(s[2..])
    else [s[0]] + Halved(s[1..])
  }

  /** Reference: every run of dashes becomes one dash, in one pass. */
  function Collapsed(s: string): string {
    if s == "" then ""
    else if DoubleAt(s, 0) then Collapsed(s[1..])
    else [s[0]] + Collapsed(s[1..])
  }

  function TrimmedLeft(s: string): string {
    if s != "" && Edge(s[0]) then TrimmedLeft(s[1..]) else s
  }

  function TrimmedRight(s: string): string {
    if s != "" && Edge(s[|s| - 1]) then TrimmedRight(s[..|s| - 1]) else s
  }

  function Sanitized(s: string): string {
    TrimmedRight(TrimmedLeft(Collapsed(Replaced(s))))
  }

  /** What a sanitised name looks like. */
  predicate Clean(s: string) {
    && (forall i :: 0 <= i < |s| ==> !Unsafe(s[i]))
    && !HasDouble(s)
    && (s != "" ==> !Edge(s[0]) && !Edge(s[|s| - 1]))
  }

  /** The characters sanitising never touches, in order. */
  function Letters(s: string): string {
    if s == "" then "" else Letter(s[0]) + Letters(s[1..])
  }

  function Letter(c: char): string {
    if Unsafe(c) || Edge(c) then "" else [c]
  }

  // ---------------------------------------------------------------- repeated halving is collapsing

  lemma {:induction false} HalvedShrinks(s: string)
    ensures |Halved(s)| <= |s| && (HasDouble(s) ==> |Halved(s)| < |s|)
    ensures s != "" ==> Halved(s) != "" && Halved(s)[0] == s[0]
  {
    if s != "" {
      if DoubleAt(s, 0) {
        HalvedShrinks(s[2..]);
      } else {
        HalvedShrinks(s[1..]);
        DoubleTail(s);
      }
    }
  }

  lemma {:induction false} DoubleTail(s: string)
    requires s != ""
    ensures HasDouble(s) <==> DoubleAt(s, 0) || HasDouble(s[1..])
  {
    if HasDouble(s) {
      var i: int :| 0 <= i < |s| && DoubleAt(s, i);
      if i > 0 { assert DoubleAt(s[1..], i - 1); }
    }
    if HasDouble(s[1..]) {
      var i: int :| 0 <= i < |s[1..]| && DoubleAt(s[1..], i);
      assert DoubleAt(s, i + 1);
    }
  }

  lemma {:induction false} CollapsedKeepsFirst(s: string)
    ensures s != "" ==> Collapsed(s) != "" && Collapsed(s)[0] == s[0]
  {
    if s != "" && DoubleAt(s, 0) { CollapsedKeepsFirst(s[1..]); }
  }

  lemma {:induction false} CollapsedCons(c: char, x: string, y: string)
    requires Collapsed(x) == Collapsed(y)
    ensures Collapsed([c] + x) == Collapsed([c] + y)
  {
    CollapsedKeepsFirst(x);
    CollapsedKeepsFirst(y);
    assert ([c] + x)[1..] == x && ([c] + y)[1..] == y;
    assert x != "" ==> ([c] + x)[1] == x[0];
    assert y != "" ==> ([c] + y)[1] == y[0];
  }

  /** One round of replacements does not change what the dashes collapse to. */
  lemma {:induction false} HalvedCollapses(s: string)
    ensures Collapsed(Halved(s)) == Collapsed(s)
  {
    if s != "" {
      if DoubleAt(s, 0) {
        HalvedCollapses(s[2..]);
        CollapsedCons('-', Halved(s[2..]), s[2..]);
        assert ['-'] + s[2..] == s[1..];
      } else {
        HalvedCollapses(s[1..]);
        CollapsedCons(s[0], Halved(s[1..]), s[1..]);
        assert [s[0]] + s[1..] == s;
      }
    }
  }

  lemma {:induction false} CollapsedFixed(s: string)
    ensures !HasDouble(s) <==> Collapsed(s) == s
    ensures !HasDouble(Collapsed(s)) && |Collapsed(s)| <= |s|
  {
    if s != "" {
      var rest := s[1..];
      CollapsedFixed(rest);
      CollapsedKeepsFirst(rest);
      DoubleTail(s);
      if DoubleAt(s, 0) {
        assert |Collapsed(s)| < |s|;
      } else {
        var r := [s[0]] + Collapsed(rest);
        DoubleTail(r);
        assert r[1..] == Collapsed(rest);
        assert s == [s[0]] + rest;
      }
    }
  }

  // ---------------------------------------------------------------- the pieces keep the letters

  lemma {:induction false} ReplacedSafe(s: string)
    ensures forall i :: 0 <= i < |Replaced(s)| ==> !Unsafe(Replaced(s)[i])
    ensures Letters(Replaced(s)) == Letters(s)
    ensures (forall i :: 0 <= i < |s| ==> !Unsafe(s[i])) ==> Replaced(s) == s
  {
    if s != "" {
      ReplacedSafe(s[1..]);
      assert Replaced(s)[1..] == Replaced(s[1..]);
      assert s == [s[0]] + s[1..];
    }
  }

  lemma {:induction false} CollapsedLetters(s: string)
    ensures Letters(Collapsed(s)) == Letters(s)
    ensures forall c :: c in Collapsed(s) ==> c in s
  {
    if s != "" {
      CollapsedLetters(s[1..]);
      if !DoubleAt(s, 0) { assert Collapsed(s)[1..] == Collapsed(s[1..]); }
    }
  }

  lemma {:induction false} LettersSplit(s: string, t: string)
    ensures Letters(s + t) == Letters(s) + Letters(t)
  {
    hide Letter;
    if s == "" {
      assert s + t == t && Letters(s) + Letters(t) == Letters(t);
    } else {
      var first, rest := Letter(s[0]), s[1..];
      LettersSplit(rest, t);
      assert (s + t)[1..] == rest + t && (s + t)[0] == s[0];
      assert first + Letters(rest) + Letters(t) == first + (Letters(rest) + Letters(t));
    }
  }

  lemma {:induction false} TrimmedLeftIs(s: string) returns (k: nat)
    ensures k <= |s| && TrimmedLeft(s) == s[k..] && Letters(s[k..]) == Letters(s)
    ensures k < |s| ==> !Edge(s[k])
  {
    if s != "" && Edge(s[0]) {
      var j := TrimmedLeftIs(s[1..]);
      k := j + 1;
      assert s[1..][j..] == s[k..];
    } else {
      k := 0;
      assert s[0..] == s;
    }
  }

  lemma {:induction false} LastEdge(s: string)
    requires s != "" && Edge(s[|s| - 1])
    ensures Letters(s[..|s| - 1]) == Letters(s)
  {
    var front, last := s[..|s| - 1], [s[|s| - 1]];
    assert s == front + last;
    LettersSplit(front, last);
    OneLetter(last[0]);
    hide Letters;
  }

  lemma {:induction false} OneLetter(c: char)
    ensures Letters([c]) == Letter(c)
  {
    assert [c][1..] == "" && Letters("") == "";
  }

  lemma {:induction false} TrimmedRightIs(s: string) returns (k: nat)
    ensures k <= |s| && TrimmedRight(s) == s[..k] && Letters(s[..k]) == Letters(s)
    ensures k > 0 ==> !Edge(s[k - 1])
  {
    if s != "" && Edge(s[|s| - 1]) {
      var front := s[..|s| - 1];
      k := TrimmedRightIs(front);
      assert front[..k] == s[..k];
      LastEdge(s);
      hide Letters;
    } else {
      k := |s|;
      assert s[..k] == s;
    }
  }

  lemma {:induction false} SliceOfSlice(s: string, lo: nat, n: nat)
    requires lo <= |s| && n <= |s| - lo
    ensures s[lo..][..n] == s[lo..lo + n]
  {
  }

  lemma {:induction false} DoubleInSlice(s: string, lo: nat, hi: nat)
    requires lo <= hi <= |s|
    ensures HasDouble(s[lo..hi]) ==> HasDouble(s)
  {
    if HasDouble(s[lo..hi]) {
      var i: int :| 0 <= i < |s[lo..hi]| && DoubleAt(s[lo..hi], i);
      assert DoubleAt(s, lo + i);
    }
  }

  /** Sanitised names are clean, keep every letter, and clean names are exactly those left alone. */
  lemma {:induction false} SanitizedMeaning(s: string)
    ensures Clean(Sanitized(s)) && Letters(Sanitized(s)) == Letters(s)
    ensures Clean(s) <==> Sanitized(s) == s
  {
    hide Replaced, Collapsed, HasDouble, Unsafe, Letters;
    var r := Replaced(s);
    var c := Collapsed(r);
    ReplacedSafe(s);
    CollapsedLetters(r);
    CollapsedFixed(r);
    SafeSubset(r, c);
    var lo := TrimmedLeftIs(c);
    var rest := c[lo..];
    var hi := TrimmedRightIs(rest);
    SliceOfSlice(c, lo, hi);
    DoubleInSlice(c, lo, lo + hi);
    assert Clean(rest[..hi]);
    if Clean(s) {
      assert r == s && c == s;
    }
  }

  lemma {:induction false} SafeSubset(r: string, c: string)
    requires (forall i :: 0 <= i < |r| ==> !Unsafe(r[i])) && forall x :: x in c ==> x in r
    ensures forall i :: 0 <= i < |c| ==> !Unsafe(c[i])
  {
    forall i | 0 <= i < |c| ensures !Unsafe(c[i]) {
      assert c[i] in r;
    }
  }

  lemma {:induction false} Idempotent(s: string)
    ensures Sanitized(Sanitized(s)) == Sanitized(s)
  {
    SanitizedMeaning(s);
    SanitizedMeaning(Sanitized(s));
  }

  /** The code's loop: replace until nothing is left to replace. */
  method SanitizePathComponent(s: string) returns (r: string)
    ensures r == Sanitized(s) && Clean(r) && Letters(r) == Letters(s)
  {
    r := Replaced(s);
    while HasDouble(r)
      invariant Collapsed(r) == Collapsed(Replaced(s))
      decreases |r|
    {
      HalvedCollapses(r);
      HalvedShrinks(r);
      r := Halved(r);
    }
    CollapsedFixed(r);
    SanitizedMeaning(s);
    r := TrimmedRight(TrimmedLeft(r));
  }

  /** The shape of a file-name component, in so many characters. */
  predicate Presentable(s: string) {
    && (forall i :: 0 <= i < |s| ==>
          && s[i] != '/' && s[i] != '\\' && s[i] != ':' && s[i] != '<' && s[i] != '>' && s[i] != '"' && s[i] != '|'
          && s[i] != '?' && s[i] != '*')
    && (forall i :: 0 <= i < |s| - 1 ==> !(s[i] == '-' && s[i + 1] == '-'))
    && (s != "" ==> s[0] != '-' && s[0] != ' ' && s[|s| - 1] != '-' && s[|s| - 1] != ' ')
  }

  /** Every result is presentable, and exactly the presentable names are left alone. */
  lemma {:induction false} AlwaysPresentable(s: string)
    ensures Presentable(Sanitized(s)) && (Sanitized(s) == s <==> Presentable(s))
  {
    hide Sanitized;
    SanitizedMeaning(s);
    CleanIs(s);
    CleanIs(Sanitized(s));
  }

  lemma {:induction false} CleanIs(s: string)
    ensures Clean(s) <==> Presentable(s)
  {
    assert HasDouble(s) <==> exists i :: 0 <= i < |s| - 1 && s[i] == '-' && s[i + 1] == '-' by {
      if i :| 0 <= i < |s| - 1 && s[i] == '-' && s[i + 1] == '-' { assert DoubleAt(s, i); }
    }
  }
}
