/** Merging lists of accounts that need a login: per email the first non-empty value of every field, sorted
    by email. */
module AuthMerge {
  import opened StringOrder
  import opened Sorting

  datatype Requirement =
    Requirement(email: string, displayName: string, driveType: string, reason: string, action: string, stateDbs: int)

  // ---------------------------------------------------------------- what a merge is

  datatype Field = DisplayName | DriveType | Reason | Action | StateDbs

  datatype Value = Words(text: string) | Number(count: int)

  function ValueOf(r: Requirement, f: Field): Value {
    match f
    case DisplayName => Words(r.displayName)
    case DriveType => Words(r.driveType)
    case Reason => Words(r.reason)
    case Action => Words(r.action)
    case StateDbs => Number(r.stateDbs)
  }

  function Blank(f: Field): Value {
    if f.StateDbs? then Number(0) else Words("")
  }

  predicate Present(items: seq<Requirement>, email: string) {
    exists i :: 0 <= i < |items| && items[i].email == email
  }

  /** The first value for this email that is not blank. */
  function FirstOf(items: seq<Requirement>, email: string, f: Field): Value {
    if items == [] then Blank(f)
    else if items[0].email == email && ValueOf(items[0], f) != Blank(f) then ValueOf(items[0], f)
    else FirstOf(items[1..], email, f)
  }

  function EmailOf(r: Requirement): string {
    r.email
  }

  /** One entry's fields are those the items give for its email. */
  ghost predicate Agrees(items: seq<Requirement>, r: Requirement) {
    r.email != "" && Present(items, r.email) && forall f :: ValueOf(r, f) == FirstOf(items, r.email, f)
  }

  /** Reference: `r` is sorted and has, for every named account of the items, the first values. */
  ghost predicate IsMerge(items: seq<Requirement>, r: seq<Requirement>) {
    && Ascending(r, EmailOf)
    && (forall i :: 0 <= i < |r| ==> Agrees(items, r[i]))
    && (forall e :: e != "" && Present(items, e) ==> Present(r, e))
  }

  function Flatten(groups: seq<seq<Requirement>>): seq<Requirement> {
    if groups == [] then [] else groups[0] + Flatten(groups[1..])
  }

  // ---------------------------------------------------------------- concatenation

  function Or(f: Field, a: Value, b: Value): Value {
    if a != Blank(f) then a else b
  }

  lemma {:induction false} FirstOfConcat(a: seq<Requirement>, b: seq<Requirement>, e: string, f: Field)
    ensures FirstOf(a + b, e, f) == Or(f, FirstOf(a, e, f), FirstOf(b, e, f))
  {
    if a == [] {
      assert a + b == b;
    } else {
      FirstOfConcat(a[1..], b, e, f);
      assert (a + b)[1..] == a[1..] + b;
    }
  }

  lemma {:induction false} PresentConcat(a: seq<Requirement>, b: seq<Requirement>, e: string)
    ensures Present(a + b, e) <==> Present(a, e) || Present(b, e)
  {
    if Present(a, e) {
      var i :| 0 <= i < |a| && a[i].email == e;
      assert (a + b)[i].email == e;
    }
    if Present(b, e) {
      var i :| 0 <= i < |b| && b[i].email == e;
      assert (a + b)[|a| + i].email == e;
    }
  }

  lemma {:induction false} AbsentBlank(items: seq<Requirement>, e: string, f: Field)
    requires !Present(items, e)
    ensures FirstOf(items, e, f) == Blank(f)
  {
    if items != [] {
      assert items[0].email != e;
      assert forall i :: 0 <= i < |items[1..]| ==> items[1..][i] == items[i + 1];
      AbsentBlank(items[1..], e, f);
    }
  }

  lemma {:induction false} FlattenPrefix(groups: seq<seq<Requirement>>, n: nat)
    requires n < |groups|
    ensures Flatten(groups[..n + 1]) == Flatten(groups[..n]) + groups[n]
  {
    if n == 0 {
      assert groups[..1][1..] == [] && Flatten([]) == [];
    } else {
      var rest := groups[1..];
      FlattenPrefix(rest, n - 1);
      assert groups[..n + 1][1..] == rest[..n] && groups[..n][1..] == rest[..n - 1];
      assert groups[0] + (Flatten(rest[..n - 1]) + groups[n]) == groups[0] + Flatten(rest[..n - 1]) + groups[n];
    }
  }

  // ---------------------------------------------------------------- the merge is unique

  lemma {:induction false} SameRecord(a: Requirement, b: Requirement)
    requires a.email == b.email && forall f :: ValueOf(a, f) == ValueOf(b, f)
    ensures a == b
  {
    assert ValueOf(a, DisplayName) == ValueOf(b, DisplayName) && ValueOf(a, DriveType) == ValueOf(b, DriveType);
    assert ValueOf(a, Reason) == ValueOf(b, Reason) && ValueOf(a, Action) == ValueOf(b, Action);
    assert ValueOf(a, StateDbs) == ValueOf(b, StateDbs);
  }

  lemma {:induction false} MergeUnique(items: seq<Requirement>, r: seq<Requirement>, s: seq<Requirement>)
    requires IsMerge(items, r) && IsMerge(items, s)
    ensures r == s
  {
    forall x ensures x in r ==> x in s {
      if x in r { MergeHolds(items, r, s, x); }
    }
    forall x ensures x in s ==> x in r {
      if x in s { MergeHolds(items, s, r, x); }
    }
    AscendingUnique(r, s, EmailOf);
  }

  lemma {:induction false} MergeHolds(items: seq<Requirement>, r: seq<Requirement>, s: seq<Requirement>, x: Requirement)
    requires IsMerge(items, r) && IsMerge(items, s) && x in r
    ensures x in s
  {
    assert Agrees(items, x);
    var i :| 0 <= i < |s| && s[i].email == x.email;
    assert Agrees(items, s[i]);
    SameRecord(x, s[i]);
  }

  // ---------------------------------------------------------------- merging merged groups

  /** Two lists say the same about every named account. */
  ghost predicate Equivalent(a: seq<Requirement>, b: seq<Requirement>) {
    forall e :: e != "" ==> (Present(a, e) <==> Present(b, e)) && forall f :: FirstOf(a, e, f) == FirstOf(b, e, f)
  }

  lemma {:induction false} FirstOfSingle(r: seq<Requirement>, i: nat, f: Field)
    requires Ascending(r, EmailOf) && i < |r|
    ensures FirstOf(r, r[i].email, f) == ValueOf(r[i], f)
  {
    var e := r[i].email;
    forall j | 0 <= j < |r| && j != i ensures r[j].email != e {
      Irreflexive(e);
    }
    var a, b := r[..i], r[i + 1..];
    assert r == a + ([r[i]] + b);
    assert !Present(a, e) && !Present(b, e);
    FirstOfConcat(a, [r[i]] + b, e, f);
    FirstOfConcat([r[i]], b, e, f);
    AbsentBlank(a, e, f);
    AbsentBlank(b, e, f);
    assert [r[i]][1..] == [];
  }

  lemma {:induction false} MergeEquivalent(items: seq<Requirement>, r: seq<Requirement>)
    requires IsMerge(items, r)
    ensures Equivalent(items, r)
  {
    forall e | e != ""
      ensures (Present(items, e) <==> Present(r, e)) && forall f :: FirstOf(items, e, f) == FirstOf(r, e, f) {
      if Present(r, e) {
        var i :| 0 <= i < |r| && r[i].email == e;
        assert Agrees(items, r[i]);
        forall f ensures FirstOf(items, e, f) == FirstOf(r, e, f) {
          FirstOfSingle(r, i, f);
        }
      } else {
        forall f ensures FirstOf(items, e, f) == FirstOf(r, e, f) {
          AbsentBlank(r, e, f);
          AbsentBlank(items, e, f);
        }
      }
    }
  }

  lemma {:induction false} EquivalentMerge(a: seq<Requirement>, b: seq<Requirement>, r: seq<Requirement>)
    requires Equivalent(a, b) && IsMerge(a, r)
    ensures IsMerge(b, r)
  {
    hide FirstOf, ValueOf, Present;
    forall i | 0 <= i < |r| ensures Agrees(b, r[i]) {
      assert Agrees(a, r[i]);
    }
  }

  lemma {:induction false} EquivalentConcat(a: seq<Requirement>, b: seq<Requirement>, c: seq<Requirement>,
                                            d: seq<Requirement>)
    requires Equivalent(a, b) && Equivalent(c, d)
    ensures Equivalent(a + c, b + d)
  {
    hide FirstOf, Present;
    forall e | e != ""
      ensures (Present(a + c, e) <==> Present(b + d, e)) && forall f :: FirstOf(a + c, e, f) == FirstOf(b + d, e, f)
    {
      PresentConcat(a, c, e);
      PresentConcat(b, d, e);
      assert (Present(a, e) <==> Present(b, e)) && (Present(c, e) <==> Present(d, e));
      forall f ensures FirstOf(a + c, e, f) == FirstOf(b + d, e, f) {
        FirstOfConcat(a, c, e, f);
        FirstOfConcat(b, d, e, f);
      }
    }
  }

  lemma {:induction false} FlattenEquivalent(groups: seq<seq<Requirement>>, merged: seq<seq<Requirement>>)
    requires |groups| == |merged| && forall i :: 0 <= i < |groups| ==> IsMerge(groups[i], merged[i])
    ensures Equivalent(Flatten(groups), Flatten(merged))
  {
    hide IsMerge, Equivalent;
    if groups == [] {
      SelfEquivalent([]);
    } else {
      MergeEquivalent(groups[0], merged[0]);
      FlattenEquivalent(groups[1..], merged[1..]);
      EquivalentConcat(groups[0], merged[0], Flatten(groups[1..]), Flatten(merged[1..]));
    }
  }

  lemma {:induction false} SelfEquivalent(a: seq<Requirement>)
    ensures Equivalent(a, a)
  {
  }

  /** Merging already merged groups is merging the raw groups in the same order. */
  lemma {:induction false} MergeOfMerges(groups: seq<seq<Requirement>>, merged: seq<seq<Requirement>>,
                                         r: seq<Requirement>)
    requires |groups| == |merged| && forall i :: 0 <= i < |groups| ==> IsMerge(groups[i], merged[i])
    ensures IsMerge(Flatten(groups), r) <==> IsMerge(Flatten(merged), r)
  {
    hide IsMerge, Equivalent;
    var a, b := Flatten(groups), Flatten(merged);
    FlattenEquivalent(groups, merged);
    Symmetric(a, b);
    if IsMerge(a, r) { EquivalentMerge(a, b, r); }
    if IsMerge(b, r) { EquivalentMerge(b, a, r); }
  }

  lemma {:induction false} Symmetric(a: seq<Requirement>, b: seq<Requirement>)
    requires Equivalent(a, b)
    ensures Equivalent(b, a)
  {
  }

  /** Merging a merge again gives it back. */
  lemma {:induction false} MergeIdempotent(items: seq<Requirement>, r: seq<Requirement>)
    requires IsMerge(items, r)
    ensures IsMerge(r, r)
  {
    hide IsMerge, Equivalent;
    MergeEquivalent(items, r);
    EquivalentMerge(items, r, r);
  }

  // ---------------------------------------------------------------- the code

  /** The map after the items `done`. */
  ghost predicate Indexes(done: seq<Requirement>, m: map<string, Requirement>) {
    forall e :: (e in m <==> e != "" && Present(done, e)) && (e in m ==> m[e].email == e && Agrees(done, m[e]))
  }

  function Filled(old_: Requirement, new_: Requirement): Requirement {
    Requirement(
      old_.email,
      if old_.displayName == "" then new_.displayName else old_.displayName,
      if old_.driveType == "" then new_.driveType else old_.driveType,
      if old_.reason == "" then new_.reason else old_.reason,
      if old_.action == "" then new_.action else old_.action,
      if old_.stateDbs == 0 then new_.stateDbs else old_.stateDbs)
  }

  lemma {:induction false} FilledFields(a: Requirement, b: Requirement, f: Field)
    ensures ValueOf(Filled(a, b), f) == Or(f, ValueOf(a, f), ValueOf(b, f))
  {
  }

  function Put(m: map<string, Requirement>, x: Requirement): map<string, Requirement> {
    if x.email == "" then m
    else if x.email in m then m[x.email := Filled(m[x.email], x)]
    else m[x.email := x]
  }

  lemma {:induction false} FirstOfOne(x: Requirement, e: string, f: Field)
    ensures FirstOf([x], e, f) == if x.email == e then ValueOf(x, f) else Blank(f)
    ensures Present([x], e) <==> x.email == e
  {
    assert [x][1..] == [];
    assert [x][0].email == x.email;
  }

  lemma {:induction false} PutIndexes(done: seq<Requirement>, m: map<string, Requirement>, x: Requirement)
    requires Indexes(done, m)
    ensures Indexes(done + [x], Put(m, x))
  {
    hide FirstOf, ValueOf, Present, Filled;
    var m', all := Put(m, x), done + [x];
    forall e ensures (e in m' <==> e != "" && Present(all, e)) && (e in m' ==> m'[e].email == e && Agrees(all, m'[e])) {
      PresentConcat(done, [x], e);
      FirstOfOne(x, e, DisplayName);
      if e in m' {
        FilledEmail(m, x, e);
        forall f ensures ValueOf(m'[e], f) == FirstOf(all, e, f) {
          PutField(done, m, x, e, f);
        }
      }
    }
  }

  lemma {:induction false} FilledEmail(m: map<string, Requirement>, x: Requirement, e: string)
    requires (e in m ==> m[e].email == e) && e in Put(m, x)
    ensures Put(m, x)[e].email == e
  {
  }

  lemma {:induction false} PutField(done: seq<Requirement>, m: map<string, Requirement>, x: Requirement, e: string,
                                    f: Field)
    requires Indexes(done, m) && e in Put(m, x)
    ensures ValueOf(Put(m, x)[e], f) == FirstOf(done + [x], e, f)
  {
    hide FirstOf, ValueOf, Present, Filled;
    FirstOfConcat(done, [x], e, f);
    FirstOfOne(x, e, f);
    if e in m {
      assert Agrees(done, m[e]);
      FilledFields(m[e], x, f);
    } else {
      AbsentBlank(done, e, f);
    }
  }

  /** The map's records, in any order. */
  method Collect(m: map<string, Requirement>) returns (items: seq<Requirement>)
    requires forall e :: e in m ==> m[e].email == e
    ensures DistinctKeys(items, EmailOf) && forall x :: x in items <==> x.email in m && m[x.email] == x
  {
    items := [];
    var todo := m.Keys;
    while todo != {}
      invariant todo <= m.Keys && DistinctKeys(items, EmailOf)
      invariant forall x :: x in items <==> x.email in m && m[x.email] == x && x.email !in todo
    {
      var e :| e in todo;
      todo := todo - {e};
      assert forall i :: 0 <= i < |items| ==> items[i] in items;
      items := items + [m[e]];
    }
  }

  lemma {:induction false} SortedIsMerge(all: seq<Requirement>, m: map<string, Requirement>, items: seq<Requirement>)
    requires Indexes(all, m) && DistinctKeys(items, EmailOf)
    requires forall x :: x in items <==> x.email in m && m[x.email] == x
    ensures IsMerge(all, Sorted(items, EmailOf))
  {
    hide FirstOf, ValueOf;
    SortedAscending(items, EmailOf);
    var r := Sorted(items, EmailOf);
    forall i | 0 <= i < |r| ensures Agrees(all, r[i]) {
      assert r[i] in items;
    }
    forall e | e != "" && Present(all, e) ensures Present(r, e) {
      assert m[e] in r;
      var i :| 0 <= i < |r| && r[i] == m[e];
    }
  }

  /** `mergeAuthRequirements`, whatever order the map is read in. */
  method MergeAuthRequirements(groups: seq<seq<Requirement>>) returns (result: seq<Requirement>)
    ensures IsMerge(Flatten(groups), result)
  {
    hide FirstOf, ValueOf, IsMerge, Sorted, Indexes, Present, Put;
    var merged: map<string, Requirement> := map[];
    NothingIndexed();
    for g := 0 to |groups|
      invariant Indexes(Flatten(groups[..g]), merged)
    {
      var group := groups[g];
      ghost var before := Flatten(groups[..g]);
      assert before + group[..0] == before;
      for i := 0 to |group|
        invariant Indexes(before + group[..i], merged)
      {
        PutIndexes(before + group[..i], merged, group[i]);
        assert before + group[..i] + [group[i]] == before + group[..i + 1];
        merged := Put(merged, group[i]);
      }
      assert group[..|group|] == group;
      FlattenPrefix(groups, g);
    }
    assert groups[..|groups|] == groups;
    IndexedEmails(Flatten(groups), merged);
    var items := Collect(merged);
    SortedIsMerge(Flatten(groups), merged, items);
    result := Sorted(items, EmailOf);
  }

  lemma {:induction false} NothingIndexed()
    ensures Indexes([], map[])
  {
  }

  lemma {:induction false} IndexedEmails(done: seq<Requirement>, m: map<string, Requirement>)
    requires Indexes(done, m)
    ensures forall e :: e in m ==> m[e].email == e
  {
  }
}
