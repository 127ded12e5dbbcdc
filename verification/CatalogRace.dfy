/** `UpdateCatalogForDataDir` loads, changes and saves without a lock: two `drive add` commands that register at
    the same time. */
module CatalogRace {
  import opened Text
  import opened CanonicalId
  import Cat = CatalogState

  /** The stored catalog, and what each of the two processes has loaded and not yet saved. */
  datatype Race = Race(stored: Cat.State, first: Option<Cat.State>, second: Option<Cat.State>)

  /** The next step of the first or the second process: a load, then a save of its own registration. */
  function Turn(r: Race, first: bool, c: CanonicalId, d: CanonicalId, name: string): Race {
    if first then
      match r.first
      case None => r.(first := Some(r.stored))
      case Some(s) => Race(Cat.Apply(s, Cat.Register(c, name)), None, r.second)
    else
      match r.second
      case None => r.(second := Some(r.stored))
      case Some(s) => Race(Cat.Apply(s, Cat.Register(d, name)), r.first, None)
  }

  function Schedule(r: Race, turns: seq<bool>, c: CanonicalId, d: CanonicalId, name: string): Race
    decreases turns
  {
    if turns == [] then r else Schedule(Turn(r, turns[0], c, d, name), turns[1..], c, d, name)
  }

  /** Each process takes two turns. */
  predicate TwoEach(turns: seq<bool>) {
    && |turns| == 4 && (turns[0] == turns[1] ==> turns[2] != turns[0] && turns[3] != turns[0])
    && (turns[0] != turns[1] ==> turns[2] != turns[3])
  }

  lemma {:induction false} RegisterKeys(s: Cat.State, c: CanonicalId, name: string)
    requires Cat.OwnerOf(c).Some? && (Print(c) in s.drives ==> s.drives[Print(c)].canonicalId == Print(c))
    ensures Cat.Apply(s, Cat.Register(c, name)).drives.Keys == s.drives.Keys + {Print(c)}
  {
    hide Print, Parse;
  }

  lemma {:induction false} FourTurns(r: Race, turns: seq<bool>, c: CanonicalId, d: CanonicalId, name: string)
    requires |turns| == 4
    ensures Schedule(r, turns, c, d, name) ==
      Turn(Turn(Turn(Turn(r, turns[0], c, d, name), turns[1], c, d, name), turns[2], c, d, name), turns[3], c, d, name)
  {
    hide Turn;
    var t1, t2, t3 := turns[1..], turns[2..], turns[3..];
    assert t1[1..] == t2 && t2[1..] == t3 && t3[1..] == [];
    var r1 := Turn(r, turns[0], c, d, name);
    var r2 := Turn(r1, turns[1], c, d, name);
    var r3 := Turn(r2, turns[2], c, d, name);
    assert Schedule(r3, t3, c, d, name) == Turn(r3, turns[3], c, d, name);
    assert Schedule(r2, t2, c, d, name) == Schedule(r3, t3, c, d, name);
    assert Schedule(r1, t1, c, d, name) == Schedule(r2, t2, c, d, name);
  }

  /** Both registrations succeed in every schedule. Both entries are there afterwards if and only if one process
      saved before the other loaded; otherwise the one that saved first is configured without an entry. */
  lemma {:induction false} BothKeptExactly(s: Cat.State, turns: seq<bool>, c: CanonicalId, d: CanonicalId, name: string)
    requires TwoEach(turns) && Cat.OwnerOf(c).Some? && Cat.OwnerOf(d).Some? && Print(c) != Print(d)
    requires Print(c) !in s.drives && Print(d) !in s.drives
    ensures var keys := Schedule(Race(s, None, None), turns, c, d, name).stored.drives.Keys;
      && (turns[0] == turns[1] <==> Print(c) in keys && Print(d) in keys)
      && (turns[0] != turns[1] ==> keys == s.drives.Keys + {if turns[2] then Print(d) else Print(c)})
  {
    hide Print, Parse, Cat.Apply, Schedule, Cat.OwnerOf;
    FourTurns(Race(s, None, None), turns, c, d, name);
    RegisterKeys(s, c, name);
    RegisterKeys(s, d, name);
    RegisterKeys(Cat.Apply(s, Cat.Register(c, name)), d, name);
    RegisterKeys(Cat.Apply(s, Cat.Register(d, name)), c, name);
  }
}
