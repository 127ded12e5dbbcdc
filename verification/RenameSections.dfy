/** `renameDriveSectionsSnapshot`: renaming section headers while a Go map is iterated in an
    unknown order. */
module RenameSections {
  import opened Text
  import opened TomlLines
  import opened ConfigDoc
  import opened ConfigText

  predicate Present(ls: Lines, name: string) {
    exists i :: 0 <= i < |ls| && HasName(ls[i], name)
  }

  predicate UniqueHeaders(ls: Lines) {
    forall i, j :: 0 <= i < j < |ls| && ls[i].shape.Header? && ls[j].shape.Header? ==>
      ls[i].shape.name != ls[j].shape.name
  }

  /** A rename that is not to the same name. */
  predicate Moving(m: map<string, string>, x: string) {
    x in m && m[x] != x
  }

  function Rename(m: map<string, string>, x: string): string {
    if x in m then m[x] else x
  }

  /** No target is itself renamed. */
  ghost predicate TargetsStay(m: map<string, string>) {
    forall x :: Moving(m, x) ==> !Moving(m, m[x])
  }

  /** Every header whose name is in `done` gets its new name; every other line stays as it is. */
  function RenameLines(ls: Lines, m: map<string, string>, done: set<string>): (r: Lines)
    ensures |r| == |ls|
    ensures forall i :: 0 <= i < |ls| ==>
      r[i] == if ls[i].shape.Header? && ls[i].shape.name in done && Moving(m, ls[i].shape.name)
              then HeaderLine(m[ls[i].shape.name]) else ls[i]
  {
    seq(|ls|, i requires 0 <= i < |ls| =>
      if ls[i].shape.Header? && ls[i].shape.name in done && Moving(m, ls[i].shape.name)
      then HeaderLine(m[ls[i].shape.name]) else ls[i])
  }

  /** One pass over `order`; `None` is the collision error. */
  ghost function RenameInOrder(ls: Lines, m: map<string, string>, order: seq<string>): Option<Lines>
    decreases order
  {
    if order == [] then Some(ls)
    else
      var x := order[0];
      if !Moving(m, x) || !Present(ls, x) then RenameInOrder(ls, m, order[1..])
      else if Present(ls, m[x]) then None
      else RenameInOrder(RenameLines(ls, m, {x}), m, order[1..])
  }

  ghost predicate Distinct(order: seq<string>) {
    forall i, j :: 0 <= i < j < |order| ==> order[i] != order[j]
  }

  function Elements(order: seq<string>): set<string> {
    set x | x in order
  }

  /** A present source whose target is taken, or two present sources with one target. */
  ghost predicate Clash(ls: Lines, m: map<string, string>, s: set<string>) {
    || (exists x :: x in s && Moving(m, x) && Present(ls, x) && Present(ls, m[x]))
    || (exists x, y :: x in s && y in s && x != y && Moving(m, x) && Moving(m, y)
                       && Present(ls, x) && Present(ls, y) && m[x] == m[y])
  }

  /** The new headers after one step. */
  lemma {:induction false} PresentAfter(ls: Lines, m: map<string, string>, x: string, n: string)
    requires Moving(m, x) && Present(ls, x)
    ensures Present(RenameLines(ls, m, {x}), n) <==> n == m[x] || (n != x && Present(ls, n))
  {
    var r := RenameLines(ls, m, {x});
    var i :| 0 <= i < |ls| && HasName(ls[i], x);
    assert HasName(r[i], m[x]);
    if n != x && Present(ls, n) {
      var j :| 0 <= j < |ls| && HasName(ls[j], n);
      assert HasName(r[j], n);
    }
  }

  lemma {:induction false} ClashStays(ls: Lines, m: map<string, string>, x: string, s: set<string>)
    requires TargetsStay(m) && Moving(m, x) && Present(ls, x) && !Present(ls, m[x]) && x !in s
    requires Clash(ls, m, {x} + s)
    ensures Clash(RenameLines(ls, m, {x}), m, s)
  {
    hide Present, RenameLines;
    var r := RenameLines(ls, m, {x});
    forall n ensures Present(r, n) <==> n == m[x] || (n != x && Present(ls, n)) {
      PresentAfter(ls, m, x, n);
    }
    if y :| y in {x} + s && Moving(m, y) && Present(ls, y) && Present(ls, m[y]) {
      assert y in s && Present(r, y) && Present(r, m[y]);
    } else {
      var y, z :| y in {x} + s && z in {x} + s && y != z && Moving(m, y) && Moving(m, z)
        && Present(ls, y) && Present(ls, z) && m[y] == m[z];
      if y == x {
        assert z in s && Present(r, z) && Present(r, m[z]);
      } else if z == x {
        assert y in s && Present(r, y) && Present(r, m[y]);
      } else {
        assert y in s && z in s && Present(r, y) && Present(r, z);
      }
    }
  }

  lemma {:induction false} ClashWas(ls: Lines, m: map<string, string>, x: string, s: set<string>)
    requires TargetsStay(m) && Moving(m, x) && Present(ls, x) && !Present(ls, m[x]) && x !in s
    requires Clash(RenameLines(ls, m, {x}), m, s)
    ensures Clash(ls, m, {x} + s)
  {
    var r := RenameLines(ls, m, {x});
    forall n ensures Present(r, n) <==> n == m[x] || (n != x && Present(ls, n)) {
      PresentAfter(ls, m, x, n);
    }
    hide Present;
    if y :| y in s && Moving(m, y) && Present(r, y) && Present(r, m[y]) {
      assert Present(ls, y);
      assert x in {x} + s && y in {x} + s;
    } else {
      var y, z :| y in s && z in s && y != z && Moving(m, y) && Moving(m, z)
        && Present(r, y) && Present(r, z) && m[y] == m[z];
      assert y in {x} + s && z in {x} + s && Present(ls, y) && Present(ls, z);
    }
  }

  lemma {:induction false} StepsCompose(ls: Lines, m: map<string, string>, x: string, s: set<string>)
    requires TargetsStay(m) && Moving(m, x)
    ensures RenameLines(RenameLines(ls, m, {x}), m, s) == RenameLines(ls, m, {x} + s)
  {
  }

  /** For every iteration order: the same failure, and on success the same lines. */
  lemma {:induction false} OrderIndependent(ls: Lines, m: map<string, string>, order: seq<string>)
    requires TargetsStay(m) && Distinct(order)
    ensures RenameInOrder(ls, m, order)
      == if Clash(ls, m, Elements(order)) then None else Some(RenameLines(ls, m, Elements(order)))
    decreases order
  {
    if order == [] {
      assert Elements(order) == {} && RenameLines(ls, m, {}) == ls;
    } else {
      var x, rest := order[0], order[1..];
      var s := Elements(rest);
      assert Elements(order) == {x} + s && x !in s;
      if !Moving(m, x) || !Present(ls, x) {
        OrderIndependent(ls, m, rest);
        SkipStep(ls, m, x, s);
      } else if Present(ls, m[x]) {
        assert x in Elements(order);
      } else {
        OrderIndependent(RenameLines(ls, m, {x}), m, rest);
        var r := RenameLines(ls, m, {x});
        if Clash(ls, m, {x} + s) { ClashStays(ls, m, x, s); }
        if Clash(r, m, s) { ClashWas(ls, m, x, s); }
        StepsCompose(ls, m, x, s);
      }
    }
  }

  lemma {:induction false} SkipStep(ls: Lines, m: map<string, string>, x: string, s: set<string>)
    requires !Moving(m, x) || !Present(ls, x)
    ensures Clash(ls, m, {x} + s) <==> Clash(ls, m, s)
    ensures RenameLines(ls, m, {x} + s) == RenameLines(ls, m, s)
  {
    forall i | 0 <= i < |ls| ensures RenameLines(ls, m, {x} + s)[i] == RenameLines(ls, m, s)[i] {
      if ls[i].shape.Header? && ls[i].shape.name == x {
        assert HasName(ls[i], x);
      }
    }
    if Clash(ls, m, s) {
      if y :| y in s && Moving(m, y) && Present(ls, y) && Present(ls, m[y]) {
        assert y in {x} + s;
      } else {
        var y, z :| y in s && z in s && y != z && Moving(m, y) && Moving(m, z)
          && Present(ls, y) && Present(ls, z) && m[y] == m[z];
        assert y in {x} + s && z in {x} + s;
      }
    }
  }

  /** Whatever else is renamed, a present source whose target is a fixed existing header makes every order fail. */
  lemma {:induction false} TakenTargetFails(ls: Lines, m: map<string, string>, order: seq<string>, x: string)
    requires Distinct(order)
    requires x in order && Moving(m, x) && Present(ls, x) && Present(ls, m[x]) && !Moving(m, m[x])
    ensures RenameInOrder(ls, m, order) == None
    decreases order
  {
    var y, rest := order[0], order[1..];
    if y != x {
      assert x in rest;
      if !Moving(m, y) || !Present(ls, y) {
        TakenTargetFails(ls, m, rest, x);
      } else if !Present(ls, m[y]) {
        PresentAfter(ls, m, y, x);
        PresentAfter(ls, m, y, m[x]);
        TakenTargetFails(RenameLines(ls, m, {y}), m, rest, x);
      }
    }
  }

  // ---------------------------------------------------------------- when the order matters

  /** Every order of the map's keys has the same outcome, on every file with unique headers. */
  ghost predicate OrdersAgree(m: map<string, string>) {
    forall ls: Lines, o: seq<string>, p: seq<string> ::
      UniqueHeaders(ls) && Distinct(o) && Distinct(p) && Elements(o) == m.Keys && Elements(p) == m.Keys ==>
        RenameInOrder(ls, m, o) == RenameInOrder(ls, m, p)
  }

  lemma {:induction false} SkipAbsent(ls: Lines, m: map<string, string>, absent: seq<string>, rest: seq<string>)
    requires forall y :: y in absent ==> !Present(ls, y)
    ensures RenameInOrder(ls, m, absent + rest) == RenameInOrder(ls, m, rest)
    decreases absent
  {
    if absent == [] {
      assert absent + rest == rest;
    } else {
      assert (absent + rest)[1..] == absent[1..] + rest;
      assert absent[0] in absent;
      SkipAbsent(ls, m, absent[1..], rest);
    }
  }

  lemma {:induction false} OneHeader(x: string, y: string)
    ensures Present([HeaderLine(x)], y) <==> y == x
    ensures UniqueHeaders([HeaderLine(x)])
  {
    assert HasName([HeaderLine(x)][0], x);
  }

  lemma {:induction false} RenameOnlyHeader(m: map<string, string>, x: string, rest: seq<string>)
    requires Moving(m, x)
    ensures RenameInOrder([HeaderLine(x)], m, [x] + rest) == RenameInOrder([HeaderLine(m[x])], m, rest)
  {
    OneHeader(x, x);
    OneHeader(x, m[x]);
    assert ([x] + rest)[1..] == rest;
    assert RenameLines([HeaderLine(x)], m, {x}) == [HeaderLine(m[x])];
  }

  lemma {:induction false} EndsAtTarget(m: map<string, string>, x: string, others: seq<string>)
    requires Moving(m, x) && x !in others
    ensures RenameInOrder([HeaderLine(x)], m, others + [x]) == Some([HeaderLine(m[x])])
  {
    hide RenameInOrder, Present, HeaderLine;
    forall y | y in others ensures !Present([HeaderLine(x)], y) { OneHeader(x, y); }
    SkipAbsent([HeaderLine(x)], m, others, [x]);
    assert [x] + [] == [x];
    RenameOnlyHeader(m, x, []);
    EmptyOrder([HeaderLine(m[x])], m);
  }

  lemma {:induction false} EndsBehindTarget(m: map<string, string>, x: string, others: seq<string>)
    requires Moving(m, x) && Moving(m, m[x]) && x !in others
    ensures RenameInOrder([HeaderLine(x)], m, others + [x, m[x]]) == Some([HeaderLine(m[m[x]])])
  {
    hide RenameInOrder, Present, HeaderLine;
    var y := m[x];
    forall z | z in others ensures !Present([HeaderLine(x)], z) { OneHeader(x, z); }
    SkipAbsent([HeaderLine(x)], m, others, [x, y]);
    assert [x] + [y] == [x, y] && [y] + [] == [y];
    RenameOnlyHeader(m, x, [y]);
    RenameOnlyHeader(m, y, []);
    EmptyOrder([HeaderLine(m[y])], m);
  }

  /** Some of the keys last, in the order given. */
  lemma {:induction false} KeysLast(keys: set<string>, last: seq<string>) returns (first: seq<string>)
    requires Distinct(last) && Elements(last) <= keys
    ensures Distinct(first + last) && Elements(first + last) == keys && forall x :: x in last ==> x !in first
  {
    first := Enumerate(keys - Elements(last));
    DistinctConcat(first, last);
    assert keys - Elements(last) + Elements(last) == keys;
  }

  /** A target that is itself renamed makes the order matter: the file of the one source ends with the target, or
      with the target's target. */
  lemma {:induction false} ChainsDependOnOrder(m: map<string, string>, x: string)
    returns (ls: Lines, o: seq<string>, p: seq<string>)
    requires Moving(m, x) && Moving(m, m[x])
    ensures UniqueHeaders(ls) && Distinct(o) && Distinct(p) && Elements(o) == m.Keys && Elements(p) == m.Keys
    ensures RenameInOrder(ls, m, o) != RenameInOrder(ls, m, p)
  {
    assert Elements([x]) == {x} && Elements([x, m[x]]) == {x, m[x]};
    hide RenameInOrder, UniqueHeaders, Elements;
    ls := [HeaderLine(x)];
    OneHeader(x, x);
    var a := KeysLast(m.Keys, [x]);
    var b := KeysLast(m.Keys, [x, m[x]]);
    o, p := a + [x], b + [x, m[x]];
    EndsAtTarget(m, x, a);
    EndsBehindTarget(m, x, b);
    assert [HeaderLine(m[x])][0] != [HeaderLine(m[m[x]])][0];
  }

  /** The iteration order is immaterial for every file if and only if no target is itself renamed. */
  lemma {:induction false} OrderMattersExactly(m: map<string, string>)
    ensures OrdersAgree(m) <==> TargetsStay(m)
  {
    if TargetsStay(m) {
      forall ls: Lines, o: seq<string>, p: seq<string>
        | UniqueHeaders(ls) && Distinct(o) && Distinct(p) && Elements(o) == m.Keys && Elements(p) == m.Keys
        ensures RenameInOrder(ls, m, o) == RenameInOrder(ls, m, p)
      {
        OrderIndependent(ls, m, o);
        OrderIndependent(ls, m, p);
      }
    } else {
      var x :| Moving(m, x) && Moving(m, m[x]);
      var ls, o, p := ChainsDependOnOrder(m, x);
    }
  }

  /** The header index the source keeps while it renames. */
  ghost predicate Indexed(ls: Lines, index: map<string, nat>) {
    && (forall n :: n in index ==> index[n] < |ls| && HasName(ls[index[n]], n))
    && (forall i :: 0 <= i < |ls| && ls[i].shape.Header? ==> ls[i].shape.name in index && index[ls[i].shape.name] == i)
  }

  /** The source's loop. Which key the loop takes next is left open, as in Go. */
  method RenameDriveSections(lines: Lines, renames: map<string, string>)
    returns (r: Option<Lines>, ghost order: seq<string>)
    requires UniqueHeaders(lines)
    ensures Distinct(order) && Elements(order) == renames.Keys
    ensures r == RenameInOrder(lines, renames, order)
    ensures TargetsStay(renames) ==>
      r == if Clash(lines, renames, renames.Keys) then None else Some(RenameLines(lines, renames, renames.Keys))
  {
    hide RenameInOrder, Clash, RenameLines, Present, TargetsStay;
    EmptyOrder(lines, renames);
    var headerIndex: map<string, nat> := map[];
    for i := 0 to |lines|
      invariant forall n :: n in headerIndex ==> headerIndex[n] < i && HasName(lines[headerIndex[n]], n)
      invariant forall j :: 0 <= j < i && lines[j].shape.Header? ==>
        lines[j].shape.name in headerIndex && headerIndex[lines[j].shape.name] == j
    {
      if lines[i].shape.Header? {
        headerIndex := headerIndex[lines[i].shape.name := i];
      }
    }
    var ls, todo := lines, renames.Keys;
    ghost var done: seq<string> := [];
    while todo != {}
      invariant todo <= renames.Keys && Distinct(done) && Elements(done) == renames.Keys - todo
      invariant Indexed(ls, headerIndex)
      invariant RenameInOrder(lines, renames, done) == Some(ls)
      decreases todo
    {
      var x :| x in todo;
      todo := todo - {x};
      Extend(lines, renames, done, x);
      ghost var before := done;
      done := done + [x];
      assert Elements(done) == Elements(before) + {x};
      PresentIndexed(ls, headerIndex, x);
      PresentIndexed(ls, headerIndex, renames[x]);
      if renames[x] == x || x !in headerIndex {
      } else if renames[x] in headerIndex {
        ghost var rest := Enumerate(todo);
        order := done + rest;
        DistinctConcat(done, rest);
        StaysFailed(lines, renames, done, rest);
        if TargetsStay(renames) { OrderIndependent(lines, renames, order); }
        return None, order;
      } else {
        var idx := headerIndex[x];
        RenameAtIndex(ls, headerIndex, renames, x);
        ls := ls[idx := HeaderLine(renames[x])];
        headerIndex := (headerIndex - {x})[renames[x] := idx];
      }
    }
    order := done;
    if TargetsStay(renames) { OrderIndependent(lines, renames, order); }
    r := Some(ls);
  }

  lemma {:induction false} EmptyOrder(ls: Lines, m: map<string, string>)
    ensures RenameInOrder(ls, m, []) == Some(ls)
  {
  }

  lemma {:induction false} PresentIndexed(ls: Lines, index: map<string, nat>, n: string)
    requires Indexed(ls, index)
    ensures Present(ls, n) <==> n in index
  {
    if n in index { assert HasName(ls[index[n]], n); }
  }

  lemma {:induction false} RenameAtIndex(ls: Lines, index: map<string, nat>, m: map<string, string>, x: string)
    requires Indexed(ls, index) && Moving(m, x) && x in index && m[x] !in index
    ensures RenameLines(ls, m, {x}) == ls[index[x] := HeaderLine(m[x])]
    ensures Indexed(ls[index[x] := HeaderLine(m[x])], (index - {x})[m[x] := index[x]])
  {
  }

  lemma {:induction false} Extend(ls: Lines, m: map<string, string>, order: seq<string>, x: string)
    ensures var r := RenameInOrder(ls, m, order);
      RenameInOrder(ls, m, order + [x]) ==
        if r == None then None
        else if !Moving(m, x) || !Present(r.value, x) then r
        else if Present(r.value, m[x]) then None
        else Some(RenameLines(r.value, m, {x}))
    decreases order
  {
    if order == [] {
      assert [] + [x] == [x] && [x][1..] == [];
    } else {
      var y := order[0];
      assert (order + [x])[1..] == order[1..] + [x];
      Extend(ls, m, order[1..], x);
      Extend(RenameLines(ls, m, {y}), m, order[1..], x);
    }
  }

  lemma {:induction false} StaysFailed(ls: Lines, m: map<string, string>, order: seq<string>, more: seq<string>)
    requires RenameInOrder(ls, m, order) == None
    ensures RenameInOrder(ls, m, order + more) == None
    decreases more
  {
    if more == [] {
      assert order + more == order;
    } else {
      Extend(ls, m, order, more[0]);
      StaysFailed(ls, m, order + [more[0]], more[1..]);
      assert order + more == order + [more[0]] + more[1..];
    }
  }

  ghost function Enumerate(s: set<string>): (r: seq<string>)
    ensures Distinct(r) && Elements(r) == s
    ensures forall x :: x in r <==> x in s
  {
    if s == {} then []
    else
      var x :| x in s;
      [x] + Enumerate(s - {x})
  }

  lemma {:induction false} DistinctConcat(a: seq<string>, b: seq<string>)
    requires Distinct(a) && Distinct(b) && Elements(a) !! Elements(b)
    ensures Distinct(a + b) && Elements(a + b) == Elements(a) + Elements(b)
  {
    assert forall i :: 0 <= i < |a| ==> a[i] in Elements(a);
    assert forall i :: 0 <= i < |b| ==> b[i] in Elements(b);
  }

  // ---------------------------------------------------------------- what the renamed file means

  function RenameLine(l: ParsedLine, m: map<string, string>): ParsedLine {
    if l.shape.Header? && Moving(m, l.shape.name) then HeaderLine(m[l.shape.name]) else l
  }

  lemma {:induction false} BlocksRename(ls: Lines, m: map<string, string>)
    ensures var d, e := Blocks(ls), Blocks(RenameLines(ls, m, m.Keys));
      && e.preamble == d.preamble && |e.sections| == |d.sections|
      && forall i :: 0 <= i < |d.sections| ==>
           e.sections[i] == Section(RenameLine(d.sections[i].header, m), d.sections[i].body)
  {
    if ls != [] {
      BlocksRename(ls[1..], m);
      assert RenameLines(ls, m, m.Keys)[1..] == RenameLines(ls[1..], m, m.Keys);
      assert RenameLines(ls, m, m.Keys)[0] == RenameLine(ls[0], m);
    }
  }

  lemma {:induction false} HeadersPresent(ls: Lines, i: nat)
    requires i < |Blocks(ls).sections|
    ensures Blocks(ls).sections[i].header.shape.Header?
    ensures Present(ls, Blocks(ls).sections[i].header.shape.name)
  {
    if ls[0].shape.Header? && i == 0 {
      assert HasName(ls[0], ls[0].shape.name);
    } else {
      var k := if ls[0].shape.Header? then i - 1 else i;
      HeadersPresent(ls[1..], k);
      var n := Blocks(ls).sections[i].header.shape.name;
      var j :| 0 <= j < |ls[1..]| && HasName(ls[1..][j], n);
      assert HasName(ls[j + 1], n);
    }
  }

  /** Renamed headers stay distinct when nothing clashes. */
  lemma {:induction false} NewNamesDistinct(ls: Lines, m: map<string, string>, x: string, y: string)
    requires !Clash(ls, m, m.Keys) && Present(ls, x) && Present(ls, y) && x != y
    ensures Rename(m, x) != Rename(m, y)
  {
  }

  lemma {:induction false} RenamedStored(t: string, m: map<string, string>)
    requires forall x :: x in m ==> QuoteSafe(m[x])
    ensures ParseLines(RenderLines(RenameLines(ParseLines(t), m, m.Keys))) == RenameLines(ParseLines(t), m, m.Keys)
  {
    var ls := ParseLines(t);
    SplitLinesOk(t);
    forall i | 0 <= i < |ls| ensures IsParsed(RenameLines(ls, m, m.Keys)[i]) {
      if ls[i].shape.Header? && Moving(m, ls[i].shape.name) {
        HeaderReadsBack(m[ls[i].shape.name]);
        ShapeOfHeader(m[ls[i].shape.name]);
      }
    }
    ParseRaws(RenameLines(ls, m, m.Keys));
  }

  lemma {:induction false} RenamedSections(ls: Lines, m: map<string, string>, i: nat)
    requires UniqueNames(Blocks(ls).sections) && !Clash(ls, m, m.Keys) && i < |Blocks(ls).sections|
    ensures var d, e := Blocks(ls), Blocks(RenameLines(ls, m, m.Keys));
      && |e.sections| == |d.sections| && d.sections[i].header.shape.Header?
      && FindSection(e.sections, Rename(m, d.sections[i].header.shape.name)) == i
  {
    BlocksRename(ls, m);
    var d, e := Blocks(ls), Blocks(RenameLines(ls, m, m.Keys));
    HeadersPresent(ls, i);
    var n := d.sections[i].header.shape.name;
    forall j | 0 <= j < i ensures !HasName(e.sections[j].header, Rename(m, n)) {
      HeadersPresent(ls, j);
      NewNamesDistinct(ls, m, d.sections[j].header.shape.name, n);
    }
    FindSectionIs(e.sections, Rename(m, n), i);
  }

  /** A successful rename carries every entry of every section to the new name. */
  lemma {:induction false} RenameMeaning(t: string, m: map<string, string>, name: string)
    requires Sound(t) && !Clash(ParseLines(t), m, m.Keys) && name in Meaning(t)
    requires forall x :: x in m ==> QuoteSafe(m[x])
    ensures var u := RenderLines(RenameLines(ParseLines(t), m, m.Keys));
      Rename(m, name) in Meaning(u) && Meaning(u)[Rename(m, name)] == Meaning(t)[name]
  {
    RenamedStored(t, m);
    hide ParseLines, RenderLines, RenameLines, Blocks, Clash;
    var ls := ParseLines(t);
    NameFound(DocOf(t).sections, name);
    RenamedEntry(ls, RenameLines(ls, m, m.Keys), m, name);
  }

  lemma {:induction false} RenamedEntry(ls: Lines, rs: Lines, m: map<string, string>, name: string)
    requires Unambiguous(Blocks(ls)) && !Clash(ls, m, m.Keys) && name in TableOf(Blocks(ls))
    requires rs == RenameLines(ls, m, m.Keys)
    ensures Rename(m, name) in TableOf(Blocks(rs)) && TableOf(Blocks(rs))[Rename(m, name)] == TableOf(Blocks(ls))[name]
  {
    hide Blocks, Clash, RenameLines, BodyTable;
    var d, e := Blocks(ls), Blocks(rs);
    NameFound(d.sections, name);
    var i := FindSection(d.sections, name);
    RenamedSections(ls, m, i);
    BlocksRename(ls, m);
    NameFound(e.sections, Rename(m, name));
  }

  /** A successful rename keeps the file unambiguous. */
  lemma {:induction false} RenameSound(t: string, m: map<string, string>)
    requires Sound(t) && !Clash(ParseLines(t), m, m.Keys) && forall x :: x in m ==> QuoteSafe(m[x])
    ensures Sound(RenderLines(RenameLines(ParseLines(t), m, m.Keys)))
  {
    hide ParseLines, RenderLines, RenameLines, Blocks, Clash, QuoteSafe, Unambiguous;
    RenamedStored(t, m);
    RenamedUnambiguous(ParseLines(t), RenameLines(ParseLines(t), m, m.Keys), m);
  }

  lemma {:induction false} RenamedUnambiguous(ls: Lines, rs: Lines, m: map<string, string>)
    requires Unambiguous(Blocks(ls)) && !Clash(ls, m, m.Keys) && rs == RenameLines(ls, m, m.Keys)
    ensures Unambiguous(Blocks(rs))
  {
    hide Blocks, Clash, RenameLines, UniqueKeys, Present;
    BlocksRename(ls, m);
    var d, e := Blocks(ls), Blocks(rs);
    forall i, j | 0 <= i < j < |e.sections| && e.sections[i].header.shape.Header? && e.sections[j].header.shape.Header?
      ensures e.sections[i].header.shape.name != e.sections[j].header.shape.name
    {
      HeadersPresent(ls, i);
      HeadersPresent(ls, j);
      NewNamesDistinct(ls, m, d.sections[i].header.shape.name, d.sections[j].header.shape.name);
    }
  }

  /** A successful rename invents no section. */
  lemma {:induction false} RenameOnly(t: string, m: map<string, string>, name: string)
    requires forall x :: x in m ==> QuoteSafe(m[x])
    requires name in Meaning(RenderLines(RenameLines(ParseLines(t), m, m.Keys)))
    ensures exists x :: x in Meaning(t) && Rename(m, x) == name
  {
    hide ParseLines, RenderLines, RenameLines, Blocks, TableOf, QuoteSafe;
    RenamedStored(t, m);
    var ls := ParseLines(t);
    var x := RenamedOrigin(ls, RenameLines(ls, m, m.Keys), m, name);
    assert x in Meaning(t);
  }

  lemma {:induction false} RenamedOrigin(ls: Lines, rs: Lines, m: map<string, string>, name: string) returns (x: string)
    requires rs == RenameLines(ls, m, m.Keys) && name in TableOf(Blocks(rs))
    ensures x in TableOf(Blocks(ls)) && Rename(m, x) == name
  {
    hide Blocks, RenameLines, BodyTable;
    BlocksRename(ls, m);
    var d, e := Blocks(ls), Blocks(rs);
    NameFound(e.sections, name);
    var i := FindSection(e.sections, name);
    HeadersPresent(ls, i);
    x := d.sections[i].header.shape.name;
    NamesAreKeys(d, i);
  }
}
