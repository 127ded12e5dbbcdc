/** Sorting by a string key, where no two items share a key: the sorted list is then unique. */
module Sorting {
  import opened StringOrder

  ghost predicate Ascending<T>(items: seq<T>, key: T -> string) {
    forall i, j :: 0 <= i < j < |items| ==> Less(key(items[i]), key(items[j]))
  }

  ghost predicate DistinctKeys<T>(items: seq<T>, key: T -> string) {
    forall i, j :: 0 <= i < j < |items| ==> key(items[i]) != key(items[j])
  }

  function Inserted<T>(r: seq<T>, x: T, key: T -> string): seq<T> {
    if r == [] then [x]
    else if Less(key(x), key(r[0])) then [x] + r
    else [r[0]] + Inserted(r[1..], x, key)
  }

  function Sorted<T>(items: seq<T>, key: T -> string): seq<T> {
    if items == [] then [] else Inserted(Sorted(items[1..], key), items[0], key)
  }

  lemma {:induction false} AscendingTail<T(!new)>(r: seq<T>, key: T -> string)
    requires Ascending(r, key) && r != []
    ensures Ascending(r[1..], key) && forall x :: x in r[1..] <==> x in r && x != r[0]
  {
    Irreflexive(key(r[0]));
    assert forall i :: 0 < i < |r| ==> r[i] == r[1..][i - 1] && Less(key(r[0]), key(r[i]));
  }

  lemma {:induction false} InsertedAscending<T(!new)>(r: seq<T>, x: T, key: T -> string)
    requires Ascending(r, key) && forall y :: y in r ==> key(y) != key(x)
    ensures Ascending(Inserted(r, x, key), key)
    ensures forall y :: y in Inserted(r, x, key) <==> y == x || y in r
    ensures |Inserted(r, x, key)| == |r| + 1
  {
    if r != [] {
      if Less(key(x), key(r[0])) {
        forall i | 0 <= i < |r| ensures Less(key(x), key(r[i])) {
          if i > 0 { Transitive(key(x), key(r[0]), key(r[i])); }
        }
      } else {
        AscendingTail(r, key);
        InsertedAscending(r[1..], x, key);
        assert r[0] in r;
        Total(key(r[0]), key(x));
        var s := Inserted(r[1..], x, key);
        forall i | 0 <= i < |s| ensures Less(key(r[0]), key(s[i])) {
          assert s[i] in s;
        }
        assert r == [r[0]] + r[1..];
      }
    }
  }

  lemma {:induction false} SortedAscending<T(!new)>(items: seq<T>, key: T -> string)
    requires DistinctKeys(items, key)
    ensures Ascending(Sorted(items, key), key) && |Sorted(items, key)| == |items|
    ensures forall y :: y in Sorted(items, key) <==> y in items
  {
    if items != [] {
      SortedAscending(items[1..], key);
      forall y | y in Sorted(items[1..], key) ensures key(y) != key(items[0]) {
        var j :| 0 <= j < |items[1..]| && items[1..][j] == y;
        assert items[j + 1] == y;
      }
      InsertedAscending(Sorted(items[1..], key), items[0], key);
      assert items == [items[0]] + items[1..];
    }
  }

  lemma {:induction false} HasFirst<T(!new)>(s: seq<T>)
    requires s != []
    ensures exists x :: x in s
  {
    assert s[0] in s;
  }

  lemma {:induction false} FirstLeast<T>(r: seq<T>, s: seq<T>, key: T -> string)
    requires Ascending(r, key) && Ascending(s, key) && r != [] && s != [] && r[0] in s && s[0] in r
    ensures r[0] == s[0]
  {
    var i :| 0 <= i < |s| && s[i] == r[0];
    var j :| 0 <= j < |r| && r[j] == s[0];
    if i > 0 && j > 0 {
      Transitive(key(r[0]), key(s[0]), key(r[0]));
      Irreflexive(key(r[0]));
    }
  }

  /** Two ascending lists that hold the same items are equal. */
  lemma {:induction false} AscendingUnique<T(!new)>(r: seq<T>, s: seq<T>, key: T -> string)
    requires Ascending(r, key) && Ascending(s, key) && forall x :: x in r <==> x in s
    ensures r == s
  {
    if r == [] {
      if s != [] { HasFirst(s); }
    } else {
      assert r[0] in s && s[0] in r;
      FirstLeast(r, s, key);
      AscendingTail(r, key);
      AscendingTail(s, key);
      AscendingUnique(r[1..], s[1..], key);
      assert r == [r[0]] + r[1..] && s == [s[0]] + s[1..];
    }
  }
}
