/** The recursive folder download of `get.go`: goroutines over a remote tree that share a semaphore,
    a mutex-guarded result and a WaitGroup. Every schedule is a sequence of atomic steps. */
module Download {
  import opened Text

  const CONCURRENCY := 4

  /** A remote item. `Unlisted` is a folder whose listing failed in the counting pass. */
  datatype Node = File(name: string) | Folder(name: string, children: seq<Node>) | Unlisted(name: string)

  /** What the download pass finds in the listing cache. */
  function Cached(n: Node): seq<Node> {
    if n.Folder? then n.children else []
  }

  function FileCount(n: Node): nat {
    match n
    case File(_) => 1
    case Folder(_, cs) => FilesIn(cs)
    case Unlisted(_) => 0
  }

  /** Files reachable through listed folders. */
  function FilesIn(cs: seq<Node>): nat {
    if cs == [] then 0 else FileCount(cs[0]) + FilesIn(cs[1..])
  }

  function FolderCount(n: Node): nat {
    match n
    case File(_) => 0
    case Folder(_, cs) => 1 + FoldersIn(cs)
    case Unlisted(_) => 1
  }

  /** Folders to create below this one; those that could not be listed are created empty. */
  function FoldersIn(cs: seq<Node>): nat {
    if cs == [] then 0 else FolderCount(cs[0]) + FoldersIn(cs[1..])
  }

  function UnlistedCount(n: Node): nat {
    match n
    case File(_) => 0
    case Folder(_, cs) => UnlistedIn(cs)
    case Unlisted(_) => 1
  }

  function UnlistedIn(cs: seq<Node>): nat {
    if cs == [] then 0 else UnlistedCount(cs[0]) + UnlistedIn(cs[1..])
  }

  // ---------------------------------------------------------------- counting pass

  /** The counters of `downloadState` that the counting pass fills. */
  class Counters {
    var total: nat
    var countErrors: nat

    constructor ()
      ensures total == 0 && countErrors == 0
    {
      total, countErrors := 0, 0;
    }

    /** `countRemoteFiles`: a failed listing below the top is recorded and skipped. */
    method CountRemoteFiles(folder: Node) returns (ok: bool)
      requires !folder.File?
      modifies this
      ensures ok == folder.Folder?
      ensures total == old(total) + FilesIn(Cached(folder))
      ensures countErrors == old(countErrors) + UnlistedIn(Cached(folder))
      decreases folder
    {
      if folder.Unlisted? {
        return false;
      }
      var children := folder.children;
      for i := 0 to |children|
        invariant total + FilesIn(children[i..]) == old(total) + FilesIn(children)
        invariant countErrors + UnlistedIn(children[i..]) == old(countErrors) + UnlistedIn(children)
      {
        assert children[i..][1..] == children[i + 1..];
        if !children[i].File? {
          var listed := CountRemoteFiles(children[i]);
          if !listed {
            countErrors := countErrors + 1;
          }
        } else {
          total := total + 1;
        }
      }
      return true;
    }
  }

  // ---------------------------------------------------------------- goroutines

  /** Where a goroutine of the download pass is. */
  datatype Thread =
    | Mkdir(children: seq<Node>)     // folder goroutine, before MkdirAll
    | Spawning(rest: seq<Node>)      // in the loop over the children
    | Waiting                        // file goroutine, before the semaphore
    | Holding                        // downloading
    | Recorded                       // result recorded, semaphore not yet released
    | Returned                       // before wg.Done; for the main goroutine, in wg.Wait
    | Gone

  /** Thread 0 is the caller, which is not counted by the WaitGroup. The last four fields are
      bookkeeping of the model: errors by cause, and files and folders under folders that could not be created. */
  datatype State = State(
    threads: seq<Thread>,
    wg: nat,
    sem: nat,
    files: seq<nat>,
    totalSize: nat,
    done: nat,
    errors: nat,
    folders: nat,
    fileErrors: nat,
    dirErrors: nat,
    lost: nat,
    lostFolders: nat)

  function Init(root: seq<Node>, countErrors: nat): State {
    State([Mkdir(root)], 0, 0, [], 0, 0, countErrors, 0, 0, 0, 0, 0)
  }

  function Spawned(n: Node): Thread {
    if n.File? then Waiting else Mkdir(Cached(n))
  }

  /** A schedule entry: which goroutine moves, whether its operation succeeds, and the size downloaded. */
  datatype Move = Move(thread: nat, ok: bool, size: nat)

  /** One atomic step; `None` when the goroutine is blocked or gone. */
  function Step(s: State, m: Move): Option<State> {
    var i := m.thread;
    if i >= |s.threads| then None
    else
      match s.threads[i]
      case Mkdir(cs) =>
        if m.ok then Some(s.(threads := s.threads[i := Spawning(cs)], folders := s.folders + 1))
        else Some(s.(threads := s.threads[i := Returned], errors := s.errors + 1, dirErrors := s.dirErrors + 1,
                     lost := s.lost + FilesIn(cs), lostFolders := s.lostFolders + FoldersIn(cs)))
      case Spawning(rest) =>
        if rest == [] then Some(s.(threads := s.threads[i := Returned]))
        else Some(s.(threads := s.threads[i := Spawning(rest[1..])] + [Spawned(rest[0])], wg := s.wg + 1))
      case Waiting =>
        if !m.ok then Some(s.(threads := s.threads[i := Returned], errors := s.errors + 1,
          fileErrors := s.fileErrors + 1))
        else if s.sem < CONCURRENCY then Some(s.(threads := s.threads[i := Holding], sem := s.sem + 1))
        else None
      case Holding =>
        if m.ok then Some(s.(threads := s.threads[i := Recorded], files := s.files + [m.size],
                             totalSize := s.totalSize + m.size, done := s.done + 1))
        else Some(s.(threads := s.threads[i := Recorded], errors := s.errors + 1, fileErrors := s.fileErrors + 1))
      case Recorded =>
        if s.sem == 0 then None else Some(s.(threads := s.threads[i := Returned], sem := s.sem - 1))
      case Returned =>
        if i == 0 then (if s.wg == 0 then Some(s.(threads := s.threads[0 := Gone])) else None)
        else if s.wg == 0 then None
        else Some(s.(threads := s.threads[i := Gone], wg := s.wg - 1))
      case Gone => None
  }

  /** The state after a schedule whose every step was enabled. */
  function Run(s: State, schedule: seq<Move>): Option<State>
    decreases schedule
  {
    if schedule == [] then Some(s)
    else match Step(s, schedule[0])
      case None => None
      case Some(s') => Run(s', schedule[1..])
  }

  /** `downloadFolder` has come back from `wg.Wait`. */
  predicate Finished(s: State) {
    s.threads != [] && s.threads[0].Gone?
  }

  // ---------------------------------------------------------------- sums over threads

  function Sum(ts: seq<Thread>, f: Thread -> nat): nat {
    if ts == [] then 0 else f(ts[0]) + Sum(ts[1..], f)
  }

  lemma {:induction false} SumUpdate(ts: seq<Thread>, i: nat, t: Thread, f: Thread -> nat)
    requires i < |ts|
    ensures Sum(ts[i := t], f) + f(ts[i]) == Sum(ts, f) + f(t)
  {
    if i == 0 {
      assert ts[0 := t][1..] == ts[1..];
    } else {
      SumUpdate(ts[1..], i - 1, t, f);
      assert ts[i := t][1..] == ts[1..][i - 1 := t];
    }
  }

  lemma {:induction false} SumAppend(ts: seq<Thread>, t: Thread, f: Thread -> nat)
    ensures Sum(ts + [t], f) == Sum(ts, f) + f(t)
  {
    if ts == [] {
      assert ts + [t] == [t] && [t][1..] == [];
    } else {
      SumAppend(ts[1..], t, f);
      assert (ts + [t])[1..] == ts[1..] + [t];
    }
  }

  lemma {:induction false} SumAtLeast(ts: seq<Thread>, i: nat, f: Thread -> nat)
    requires i < |ts|
    ensures f(ts[i]) <= Sum(ts, f)
  {
    if i > 0 {
      SumAtLeast(ts[1..], i - 1, f);
    }
  }

  lemma {:induction false} SumZero(ts: seq<Thread>, f: Thread -> nat)
    requires forall i :: 0 <= i < |ts| ==> f(ts[i]) == 0
    ensures Sum(ts, f) == 0
  {
    if ts != [] {
      SumZero(ts[1..], f);
    }
  }

  lemma {:induction false} SumTwo(ts: seq<Thread>, i: nat, f: Thread -> nat)
    requires 0 < i < |ts|
    ensures f(ts[0]) + f(ts[i]) <= Sum(ts, f)
  {
    SumAtLeast(ts[1..], i - 1, f);
  }

  function Live(t: Thread): nat {
    if t.Gone? then 0 else 1
  }

  function Holds(t: Thread): nat {
    if t.Holding? || t.Recorded? then 1 else 0
  }

  /** Files this goroutine and its future children still have to account for. */
  function Pending(t: Thread): nat {
    match t
    case Mkdir(cs) => FilesIn(cs)
    case Spawning(rest) => FilesIn(rest)
    case Waiting => 1
    case Holding => 1
    case _ => 0
  }

  /** Steps this goroutine and its future children can still take. */
  function Work(t: Thread): nat {
    match t
    case Mkdir(cs) => 3 + SpawnWork(cs)
    case Spawning(rest) => 2 + SpawnWork(rest)
    case Waiting => 4
    case Holding => 3
    case Recorded => 2
    case Returned => 1
    case Gone => 0
  }

  function NodeWork(n: Node): nat {
    match n
    case File(_) => 4
    case Folder(_, cs) => 3 + SpawnWork(cs)
    case Unlisted(_) => 3
  }

  function SpawnWork(cs: seq<Node>): nat {
    if cs == [] then 0 else 1 + NodeWork(cs[0]) + SpawnWork(cs[1..])
  }

  function Total(sizes: seq<nat>): nat {
    if sizes == [] then 0 else Total(sizes[..|sizes| - 1]) + sizes[|sizes| - 1]
  }

  // ---------------------------------------------------------------- the invariant

  /** `total` is what the counting pass found, `counted` the errors it recorded. */
  predicate Inv(s: State, total: nat, counted: nat) {
    && s.threads != []
    && s.wg + Live(s.threads[0]) == Sum(s.threads, Live)
    && s.sem == Sum(s.threads, Holds) && s.sem <= CONCURRENCY
    && s.done == |s.files| && s.totalSize == Total(s.files)
    && total == s.done + s.fileErrors + s.lost + Sum(s.threads, Pending)
    && s.errors == counted + s.fileErrors + s.dirErrors
    && (s.threads[0].Mkdir? || s.threads[0].Spawning? || s.threads[0].Returned? || s.threads[0].Gone?)
    && (s.threads[0].Gone? ==> s.wg == 0)
  }

  lemma {:induction false} InitInv(root: seq<Node>, counted: nat)
    ensures Inv(Init(root, counted), FilesIn(root), counted)
  {
    var ts := [Mkdir(root)];
    assert ts[1..] == [];
  }

  /** The sums after replacing one thread, for the four weights the proofs use. */
  lemma {:induction false} Replace(ts: seq<Thread>, i: nat, t: Thread)
    requires i < |ts|
    ensures Sum(ts[i := t], Live) + Live(ts[i]) == Sum(ts, Live) + Live(t)
    ensures Sum(ts[i := t], Holds) + Holds(ts[i]) == Sum(ts, Holds) + Holds(t)
    ensures Sum(ts[i := t], Pending) + Pending(ts[i]) == Sum(ts, Pending) + Pending(t)
    ensures Sum(ts[i := t], Work) + Work(ts[i]) == Sum(ts, Work) + Work(t)
  {
    SumUpdate(ts, i, t, Live);
    SumUpdate(ts, i, t, Holds);
    SumUpdate(ts, i, t, Pending);
    SumUpdate(ts, i, t, Work);
  }

  lemma {:induction false} Append(ts: seq<Thread>, t: Thread)
    ensures Sum(ts + [t], Live) == Sum(ts, Live) + Live(t)
    ensures Sum(ts + [t], Holds) == Sum(ts, Holds) + Holds(t)
    ensures Sum(ts + [t], Pending) == Sum(ts, Pending) + Pending(t)
    ensures Sum(ts + [t], Work) == Sum(ts, Work) + Work(t)
  {
    SumAppend(ts, t, Live);
    SumAppend(ts, t, Holds);
    SumAppend(ts, t, Pending);
    SumAppend(ts, t, Work);
  }

  lemma {:induction false} SpawnedSums(n: Node)
    ensures Pending(Spawned(n)) == FileCount(n) && Work(Spawned(n)) == NodeWork(n)
    ensures Live(Spawned(n)) == 1 && Holds(Spawned(n)) == 0
  {
  }

  lemma {:induction false} TotalAppend(sizes: seq<nat>, x: nat)
    ensures Total(sizes + [x]) == Total(sizes) + x
  {
    assert (sizes + [x])[..|sizes|] == sizes;
  }

  lemma {:induction false} FolderStep(s: State, m: Move, total: nat, counted: nat)
    requires Inv(s, total, counted) && Step(s, m).Some? && (s.threads[m.thread].Mkdir? || s.threads[m.thread].Spawning?)
    ensures Inv(Step(s, m).value, total, counted)
    ensures Sum(Step(s, m).value.threads, Work) < Sum(s.threads, Work)
  {
    hide Sum, Spawned, FileCount, NodeWork;
    var i, ts := m.thread, s.threads;
    SumAtLeast(ts, i, Live);
    if ts[i].Mkdir? {
      Replace(ts, i, if m.ok then Spawning(ts[i].children) else Returned);
    } else if ts[i].rest == [] {
      Replace(ts, i, Returned);
    } else {
      var rest := ts[i].rest;
      var t, c := Spawning(rest[1..]), Spawned(rest[0]);
      Replace(ts, i, t);
      Append(ts[i := t], c);
      SpawnedSums(rest[0]);
      assert Pending(ts[i]) == FileCount(rest[0]) + Pending(t) && Work(ts[i]) == 1 + NodeWork(rest[0]) + Work(t);
    }
  }

  lemma {:induction false} FileStep(s: State, m: Move, total: nat, counted: nat)
    requires Inv(s, total, counted) && Step(s, m).Some?
    requires (s.threads[m.thread].Waiting? || s.threads[m.thread].Holding?)
    ensures Inv(Step(s, m).value, total, counted)
    ensures Sum(Step(s, m).value.threads, Work) < Sum(s.threads, Work)
  {
    hide Sum;
    var i, ts := m.thread, s.threads;
    if ts[i].Waiting? {
      Replace(ts, i, if m.ok then Holding else Returned);
    } else {
      Replace(ts, i, Recorded);
      TotalAppend(s.files, m.size);
    }
  }

  lemma {:induction false} LastSteps(s: State, m: Move, total: nat, counted: nat)
    requires Inv(s, total, counted) && Step(s, m).Some?
    requires (s.threads[m.thread].Recorded? || s.threads[m.thread].Returned?)
    ensures Inv(Step(s, m).value, total, counted)
    ensures Sum(Step(s, m).value.threads, Work) < Sum(s.threads, Work)
  {
    hide Sum;
    var i, ts := m.thread, s.threads;
    Replace(ts, i, if ts[i].Recorded? then Returned else Gone);
    if i > 0 { SumTwo(ts, i, Live); }
  }

  /** Every enabled step keeps the invariant and uses up work. */
  lemma {:induction false} StepKeeps(s: State, m: Move, total: nat, counted: nat)
    requires Inv(s, total, counted) && Step(s, m).Some?
    ensures Inv(Step(s, m).value, total, counted)
    ensures Sum(Step(s, m).value.threads, Work) < Sum(s.threads, Work)
  {
    var t := s.threads[m.thread];
    if t.Mkdir? || t.Spawning? {
      FolderStep(s, m, total, counted);
    } else if t.Waiting? || t.Holding? {
      FileStep(s, m, total, counted);
    } else {
      LastSteps(s, m, total, counted);
    }
  }

  /** Every schedule, whatever succeeds or fails in it, keeps the invariant and is bounded in length. */
  lemma {:induction false} RunKeeps(s: State, schedule: seq<Move>, total: nat, counted: nat)
    requires Inv(s, total, counted) && Run(s, schedule).Some?
    ensures Inv(Run(s, schedule).value, total, counted)
    ensures |schedule| + Sum(Run(s, schedule).value.threads, Work) <= Sum(s.threads, Work)
    decreases schedule
  {
    if schedule != [] {
      StepKeeps(s, schedule[0], total, counted);
      RunKeeps(Step(s, schedule[0]).value, schedule[1..], total, counted);
    }
  }

  /** Main waiting on a zero counter means that no goroutine is live and none can be spawned. */
  lemma {:induction false} WaitIsSafe(s: State, total: nat, counted: nat, i: nat)
    requires Inv(s, total, counted) && s.wg == 0 && (s.threads[0].Returned? || s.threads[0].Gone?)
    requires 0 < i < |s.threads|
    ensures s.threads[i].Gone?
  {
    SumTwo(s.threads, i, Live);
  }

  /** `wg.Add` never runs on a zero counter while the caller is already in `wg.Wait`. */
  lemma {:induction false} AddIsSafe(s: State, m: Move, total: nat, counted: nat)
    requires Inv(s, total, counted) && Step(s, m).Some? && Step(s, m).value.wg > s.wg && s.threads[0].Returned?
    ensures s.wg > 0
  {
    if m.thread > 0 { SumTwo(s.threads, m.thread, Live); }
  }

  /** Unless the caller has come back, some goroutine can move without any failure: no deadlock. */
  lemma {:induction false} Progress(s: State, total: nat, counted: nat) returns (m: Move)
    requires Inv(s, total, counted) && !Finished(s)
    ensures m.ok && Step(s, m).Some?
  {
    if i :| 0 <= i < |s.threads| && (s.threads[i].Mkdir? || s.threads[i].Spawning? || s.threads[i].Holding?) {
      m := Move(i, true, 0);
    } else if i :| 0 <= i < |s.threads| && s.threads[i].Recorded? {
      SumAtLeast(s.threads, i, Holds);
      m := Move(i, true, 0);
    } else if i :| 0 < i < |s.threads| && s.threads[i].Returned? {
      SumTwo(s.threads, i, Live);
      m := Move(i, true, 0);
    } else if i :| 0 <= i < |s.threads| && s.threads[i].Waiting? {
      SumZero(s.threads, Holds);
      m := Move(i, true, 0);
    } else {
      assert forall i :: 0 < i < |s.threads| ==> s.threads[i].Gone?;
      SumZero(s.threads[1..], Live);
      m := Move(0, true, 0);
    }
  }

  /** Folders this goroutine and its future children still have to create. */
  function PendingFolders(t: Thread): nat {
    match t
    case Mkdir(cs) => 1 + FoldersIn(cs)
    case Spawning(rest) => FoldersIn(rest)
    case _ => 0
  }

  /** Every folder is created, failed, lost under one that failed, or still to come. */
  predicate FoldersInv(s: State, folders: nat) {
    folders == s.folders + s.dirErrors + s.lostFolders + Sum(s.threads, PendingFolders)
  }

  lemma {:induction false} FoldersKept(s: State, m: Move, folders: nat)
    requires FoldersInv(s, folders) && Step(s, m).Some?
    ensures FoldersInv(Step(s, m).value, folders)
  {
    hide Sum, FoldersIn;
    var i, ts := m.thread, s.threads;
    if ts[i].Spawning? && ts[i].rest != [] {
      var rest := ts[i].rest;
      SumUpdate(ts, i, Spawning(rest[1..]), PendingFolders);
      SumAppend(ts[i := Spawning(rest[1..])], Spawned(rest[0]), PendingFolders);
      FoldersSplit(rest);
    } else {
      SumUpdate(ts, i, Step(s, m).value.threads[i], PendingFolders);
      FoldersSplit([]);
    }
  }

  lemma {:induction false} FoldersSplit(rest: seq<Node>)
    ensures FoldersIn([]) == 0
    ensures rest != [] ==> FoldersIn(rest) == PendingFolders(Spawned(rest[0])) + FoldersIn(rest[1..])
  {
  }

  lemma {:induction false} FoldersRun(s: State, schedule: seq<Move>, folders: nat)
    requires FoldersInv(s, folders) && Run(s, schedule).Some?
    ensures FoldersInv(Run(s, schedule).value, folders)
    decreases schedule
  {
    hide FoldersInv, Step;
    if schedule != [] {
      FoldersKept(s, schedule[0], folders);
      FoldersRun(Step(s, schedule[0]).value, schedule[1..], folders);
    }
  }

  /** The folder count: when the caller has come back, every folder was created, failed, or lies under one that did. */
  lemma {:induction false} FolderAccounting(root: seq<Node>, counted: nat, schedule: seq<Move>)
    requires Run(Init(root, counted), schedule).Some? && Finished(Run(Init(root, counted), schedule).value)
    ensures var s := Run(Init(root, counted), schedule).value;
      && 1 + FoldersIn(root) == s.folders + s.dirErrors + s.lostFolders
      && (s.dirErrors == 0 && s.lostFolders == 0 ==> s.folders == 1 + FoldersIn(root))
  {
    hide Step;
    var s0 := Init(root, counted);
    assert s0.threads[1..] == [] && Sum([], PendingFolders) == 0;
    assert Sum(s0.threads, PendingFolders) == PendingFolders(s0.threads[0]) + Sum(s0.threads[1..], PendingFolders);
    FoldersRun(s0, schedule, 1 + FoldersIn(root));
    Accounting(root, counted, schedule);
    SumZero(Run(s0, schedule).value.threads, PendingFolders);
  }

  /** The accounting law: when the caller has come back, every counted file was downloaded, failed on
      its own, or lies under a folder that could not be created. */
  lemma {:induction false} Accounting(root: seq<Node>, counted: nat, schedule: seq<Move>)
    requires Run(Init(root, counted), schedule).Some?
    ensures var s := Run(Init(root, counted), schedule).value;
      && s.sem <= 4 && s.done == |s.files| && s.totalSize == Total(s.files)
      && s.errors == counted + s.fileErrors + s.dirErrors
      && |schedule| <= 3 + SpawnWork(root)
      && (Finished(s) ==> FilesIn(root) == |s.files| + s.fileErrors + s.lost && s.wg == 0 && s.sem == 0
                          && forall i :: 0 <= i < |s.threads| ==> s.threads[i].Gone?)
  {
    var s0 := Init(root, counted);
    InitInv(root, counted);
    RunKeeps(s0, schedule, FilesIn(root), counted);
    assert s0.threads[1..] == [];
    var s := Run(s0, schedule).value;
    if Finished(s) {
      forall i | 0 <= i < |s.threads| ensures s.threads[i].Gone? {
        if i > 0 { WaitIsSafe(s, FilesIn(root), counted, i); }
      }
      SumZero(s.threads, Pending);
      SumZero(s.threads, Holds);
    }
  }
}
