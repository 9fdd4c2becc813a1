/**
 `replace` of client/output.go: moving a staged tree onto an output path.

 Renames and removals are atomic. A rename onto nothing, or of a file onto a file, works;
 any other fails, except that a directory onto an empty directory may go either way, which
 is where POSIX and Go's `os.Rename` differ.
 */
module Renaming {
  import opened Paths
  import opened LockTable

  datatype Entry = Absent | File(content: seq<int>) | Directory(entries: map<string, Entry>)

  predicate MayRename(staged: Entry, target: Entry) {
    target.Absent? || (staged.File? && target.File?) || (staged.Directory? && target == Directory(map[]))
  }

  predicate MayFail(staged: Entry, target: Entry) {
    !target.Absent? && !(staged.File? && target.File?)
  }

  // A rename always has an outcome, and only one, but for a directory onto an empty one.
  lemma RenamesAreDecided(staged: Entry, target: Entry)
    ensures MayRename(staged, target) || MayFail(staged, target)
    ensures MayRename(staged, target) && MayFail(staged, target) <==> staged.Directory? && target == Directory(map[])
    ensures !MayFail(staged, target) <==> target.Absent? || (staged.File? && target.File?)
  {
  }

  // What a finished `replace` comes to. `since` is how many publishes had happened when the
  // call cleared the path.
  datatype Result = Published | Overtaken(since: nat) | GaveUp

  // The output path with nobody else writing it, and the lock table of the process.
  class Output {
    const locks: PathLocks
    var entry: Entry

    constructor (locks: PathLocks, entry: Entry)
      ensures this.locks == locks && this.entry == entry
    {
      this.locks, this.entry := locks, entry;
    }

    method Rename(staged: Entry) returns (ok: bool)
      modifies `entry
      ensures ok ==> MayRename(staged, old(entry)) && entry == staged
      ensures !ok ==> MayFail(staged, old(entry)) && entry == old(entry)
    {
      ok := MayRename(staged, entry);
      if ok && MayFail(staged, entry) {
        ok := *;
      }
      if ok {
        entry := staged;
      }
    }

    method RemoveAll()
      modifies `entry
      ensures entry == Absent
    {
      entry := Absent;
    }

    // Whatever is there, a call with time left replaces it by the whole staged tree. One whose
    // context is done by the time it waits for the lock may give up there instead, changing
    // nothing. The lock table is left as it was found.
    method Replace(path: string, expired: bool, late: bool, staged: Entry) returns (result: Result)
      requires Clean(path) !in locks.held && Clean(path) !in locks.waiting
      modifies `entry, locks
      ensures locks.held == old(locks.held) && locks.waiting == old(locks.waiting)
      ensures expired ==> result == GaveUp
      ensures result == GaveUp ==> entry == old(entry) && (expired || (late && MayFail(staged, old(entry))))
      ensures result != GaveUp ==> result == Published && entry == staged
    {
      if expired {
        return GaveUp;
      }

      var ok := Rename(staged);
      if ok {
        return Published;
      }

      var key, gate := locks.Register(path);
      // The gate is free, so with the context done too `select` takes either.
      var given := true;
      if late {
        given := *;
      }
      if !given {
        locks.Drop(key);
        return GaveUp;
      }

      result := Overtaken(0);
      ok := Rename(staged);
      if !ok {
        RemoveAll();
        ok := Rename(staged);
      }
      if ok {
        result := Published;
      }
      locks.Drop(key);
    }
  }
}

/**
 Every interleaving of `replace` calls on one place on disk, over the locks of `PathLocks`. The
 lock goes by the cleaned text of a path, so calls that spell the place differently have locks
 of their own: `keys` are the cleaned texts in use.
 */
module Publishing {
  import opened Wrappers
  import opened Paths
  import opened Renaming
  import PathLocks

  type Call = PathLocks.Call

  datatype Pc =
    | Starting
    | FirstTry
    | Queueing
    | SecondTry
    | Clearing
    | ThirdTry(since: nat)
    | Unlocking(result: Result)
    | Dropping(result: Result)
    | Finished(result: Result)

  datatype State = State(
    keys: set<string>,
    locks: PathLocks.State,   // with the calls whose context has ended
    initial: Entry,
    output: Entry,
    staged: map<Call, Entry>,
    keyOf: map<Call, string>,
    calls: map<Call, Pc>,
    pubs: seq<Call>           // history: the successful renames, in order
  )

  // `Lock` is a step of the lock table by a call of ours; `Foreign` one by anybody else.
  datatype Action =
    | Arrive(call: Call, staged: Entry, path: string)
    | Deadline(call: Call)
    | Check(call: Call)
    | Rename(call: Call, ok: bool)
    | Clear(call: Call)
    | Lock(call: Call, step: PathLocks.Action)
    | Foreign(step: PathLocks.Action)

  function Initial(paths: set<string>, output: Entry): State {
    State(set path | path in paths :: Clean(path), PathLocks.Initial(), output, output, map[], map[], map[], [])
  }

  // Every call spells the place the same.
  predicate OneKey(s: State) {
    forall k, l :: k in s.keys && l in s.keys ==> k == l
  }

  predicate Ours(s: State, c: Call) {
    c in s.calls && c in s.staged && c in s.keyOf
  }

  predicate Enabled(s: State, a: Action) {
    match a
    case Arrive(c, staged, path) => c !in s.calls && c !in s.locks.calls && staged != Absent && Clean(path) in s.keys
    case Deadline(c) => c in s.calls
    case Check(c) => c in s.calls && s.calls[c] == Starting
    case Rename(c, ok) =>
      && Ours(s, c)
      && (s.calls[c] == FirstTry || s.calls[c] == SecondTry || s.calls[c].ThirdTry?)
      && (if ok then MayRename(s.staged[c], s.output) else MayFail(s.staged[c], s.output))
    case Clear(c) => c in s.calls && s.calls[c] == Clearing
    case Lock(c, step) =>
      && Ours(s, c) && step.call == c && PathLocks.Enabled(s.locks, step)
      && (match step
          case Register(_, path) => s.calls[c] == Queueing && Clean(path) == s.keyOf[c]
          case Unlock(_, _) => s.calls[c].Unlocking?
          case Drop(_) => s.calls[c] == Queueing || s.calls[c].Dropping?
          case Deadline(_) => false
          case _ => s.calls[c] == Queueing)
    case Foreign(step) =>
      && step.call !in s.calls && PathLocks.Enabled(s.locks, step)
      && (step.Deadline? ==> step.call in s.locks.calls)
  }

  function AfterLock(pc: Pc, step: PathLocks.Action): Pc {
    match step
    case Grant(_) => SecondTry
    case Wake(_) => SecondTry
    case Unlock(_, _) => if pc.Unlocking? then Dropping(pc.result) else pc
    case Drop(_) => if pc.Dropping? then Finished(pc.result) else Finished(GaveUp)
    case _ => pc
  }

  function After(s: State, a: Action): State
    requires Enabled(s, a)
  {
    match a
    case Arrive(c, staged, path) =>
      s.(staged := s.staged[c := staged], keyOf := s.keyOf[c := Clean(path)], calls := s.calls[c := Starting])
    case Deadline(c) => s.(locks := PathLocks.After(s.locks, PathLocks.Deadline(c)))
    case Check(c) => s.(calls := s.calls[c := if c in s.locks.done then Finished(GaveUp) else FirstTry])
    case Rename(c, ok) =>
      var pc := match s.calls[c]
        case FirstTry => if ok then Finished(Published) else Queueing
        case SecondTry => if ok then Unlocking(Published) else Clearing
        case ThirdTry(since) => Unlocking(if ok then Published else Overtaken(since))
        case other => other;
      var moved := s.(calls := s.calls[c := pc]);
      if ok then moved.(output := s.staged[c], pubs := s.pubs + [c]) else moved
    case Clear(c) => s.(output := Absent, calls := s.calls[c := ThirdTry(|s.pubs|)])
    case Lock(c, step) =>
      s.(locks := PathLocks.After(s.locks, step), calls := s.calls[c := AfterLock(s.calls[c], step)])
    case Foreign(step) => s.(locks := PathLocks.After(s.locks, step))
  }

  // ---------------------------------------------------------------- invariant

  // Where the lock table has a call of ours.
  ghost predicate LockedAs(s: State, c: Call)
    requires c in s.calls && c in s.keyOf
  {
    match s.calls[c]
    case Starting => c !in s.locks.calls
    case FirstTry => c !in s.locks.calls
    case Queueing =>
      c in s.locks.calls ==>
        || s.locks.calls[c].GivingUp?
        || ((s.locks.calls[c].Selecting? || s.locks.calls[c].Parked?) && s.locks.calls[c].key == s.keyOf[c])
    case Dropping(_) => c in s.locks.calls && s.locks.calls[c].Leaving?
    case Finished(_) => c in s.locks.calls ==> s.locks.calls[c].Gone?
    case _ => c in s.locks.calls && s.locks.calls[c].Holding? && s.locks.calls[c].key == s.keyOf[c]
  }

  predicate Ended(pc: Pc, result: Result) {
    (pc.Unlocking? || pc.Dropping? || pc.Finished?) && pc.result == result
  }

  function Current(s: State): Entry {
    if s.pubs != [] && s.pubs[|s.pubs| - 1] in s.staged then s.staged[s.pubs[|s.pubs| - 1]] else s.initial
  }

  ghost predicate LockInv(s: State) {
    && PathLocks.Inv(s.locks)
    && s.keyOf.Keys == s.calls.Keys
    && (forall k :: k in s.keys ==> Clean(k) == k)
    && (forall c :: c in s.calls ==> s.keyOf[c] in s.keys && LockedAs(s, c))
  }

  ghost predicate PubInv(s: State) {
    && s.staged.Keys == s.calls.Keys
    && (forall c :: c in s.staged ==> s.staged[c] != Absent)
    && (forall c :: c in s.pubs <==> c in s.calls && Ended(s.calls[c], Published))
    && (forall i, j :: 0 <= i < j < |s.pubs| ==> s.pubs[i] != s.pubs[j])
  }

  ghost predicate OutputInv(s: State) {
    && (s.output == Current(s) || s.output == Absent)
    && (s.output == Absent && Current(s) != Absent ==> exists c :: c in s.calls && s.calls[c] == ThirdTry(|s.pubs|))
    && (forall c :: c in s.calls && s.calls[c].ThirdTry? ==>
          s.calls[c].since <= |s.pubs| && (s.calls[c].since == |s.pubs| ==> s.output == Absent))
    && (forall c, n: nat :: c in s.calls && Ended(s.calls[c], Overtaken(n)) ==> n < |s.pubs|)
  }

  predicate AllFiles(s: State) {
    forall c :: c in s.staged ==> s.staged[c].File?
  }

  predicate Failed(pc: Pc) {
    (pc.Unlocking? || pc.Dropping? || pc.Finished?) && pc.result.Overtaken?
  }

  // While every staged tree is a single file, and with one key besides.
  predicate Smooth(s: State) {
    && (s.pubs != [] ==> !s.output.Directory?)
    && (forall c :: c in s.calls ==> (s.calls[c].ThirdTry? ==> !s.output.Directory?) && !Failed(s.calls[c]))
  }

  predicate Gapless(s: State) {
    && (s.pubs != [] ==> s.output.File?)
    && (forall c :: c in s.calls && s.calls[c] == Clearing ==> s.output.Directory?)
  }

  predicate FileInv(s: State) {
    AllFiles(s) ==> Smooth(s) && (OneKey(s) ==> Gapless(s))
  }

  ghost predicate DeadlineInv(s: State) {
    forall c :: c in s.calls ==> GivesUpLate(s, c)
  }

  ghost predicate Inv(s: State) {
    LockInv(s) && PubInv(s) && OutputInv(s) && FileInv(s) && DeadlineInv(s)
  }

  // What an action does to the lock table, if anything.
  function LockAction(a: Action): Option<PathLocks.Action> {
    match a
    case Deadline(c) => Some(PathLocks.Deadline(c))
    case Lock(_, step) => Some(step)
    case Foreign(step) => Some(step)
    case _ => None
  }

  lemma LocksFollow(s: State, a: Action)
    requires Enabled(s, a)
    ensures LockAction(a).None? ==> After(s, a).locks == s.locks
    ensures LockAction(a).Some? ==>
      PathLocks.Enabled(s.locks, LockAction(a).value) && After(s, a).locks == PathLocks.After(s.locks, LockAction(a).value)
    ensures After(s, a).keys == s.keys
  {
  }

  lemma OwnPlaceFollows(s: State, a: Action, c: Call)
    requires Enabled(s, a) && LockAction(a).None? && c in After(s, a).calls
    requires c in s.calls ==> c in s.keyOf && s.keyOf[c] in s.keys && LockedAs(s, c)
    ensures c in After(s, a).keyOf && After(s, a).keyOf[c] in s.keys && LockedAs(After(s, a), c)
  {
    hide Clean, MayRename, MayFail;
  }

  lemma LockPlaceFollows(s: State, a: Action, c: Call)
    requires Enabled(s, a) && a.Lock? && c in s.calls && c in s.keyOf && LockedAs(s, c)
    ensures c in After(s, a).calls && c in After(s, a).keyOf && LockedAs(After(s, a), c)
  {
    PathLocks.OnlyTheCallerMoves(s.locks, a.step);
    hide PathLocks.After, PathLocks.Enabled;
  }

  lemma OtherPlaceFollows(s: State, a: Action, c: Call)
    requires Enabled(s, a) && (a.Foreign? || a.Deadline?) && c in s.calls && c in s.keyOf && LockedAs(s, c)
    ensures c in After(s, a).calls && c in After(s, a).keyOf && LockedAs(After(s, a), c)
  {
    PathLocks.OnlyTheCallerMoves(s.locks, LockAction(a).value);
    hide PathLocks.After, PathLocks.Enabled;
  }

  lemma PlaceFollows(s: State, a: Action, c: Call)
    requires LockInv(s) && Enabled(s, a) && c in After(s, a).calls
    ensures c in After(s, a).keyOf && After(s, a).keyOf[c] in s.keys && LockedAs(After(s, a), c)
  {
    LocksFollow(s, a);
    if LockAction(a).None? {
      OwnPlaceFollows(s, a, c);
    } else {
      assert c in s.calls && After(s, a).keyOf == s.keyOf;
      hide After, Enabled, LockedAs, PathLocks.Inv;
      if a.Lock? {
        LockPlaceFollows(s, a, c);
      } else {
        OtherPlaceFollows(s, a, c);
      }
    }
  }

  lemma LockStep(s: State, a: Action)
    requires LockInv(s) && Enabled(s, a)
    ensures LockInv(After(s, a))
  {
    LocksFollow(s, a);
    if LockAction(a).Some? {
      PathLocks.StepKeepsInv(s.locks, LockAction(a).value);
    }
    KeysFollow(s, a);
    forall c | c in After(s, a).calls
      ensures c in After(s, a).keyOf && After(s, a).keyOf[c] in s.keys && LockedAs(After(s, a), c)
    {
      hide After, Enabled, LockedAs, PathLocks.Inv;
      PlaceFollows(s, a, c);
    }
    hide After, Enabled, PathLocks.After, PathLocks.Enabled, PathLocks.Inv, LockedAs;
  }

  lemma KeysFollow(s: State, a: Action)
    requires s.keyOf.Keys == s.calls.Keys && Enabled(s, a)
    ensures After(s, a).keyOf.Keys == After(s, a).calls.Keys
  {
    hide PathLocks.After, PathLocks.Enabled, Clean, MayRename, MayFail;
  }

  // Which calls an action leaves published, and what it leaves staged.
  lemma PublishedAt(s: State, a: Action, c: Call)
    requires PubInv(s) && Enabled(s, a)
    ensures var t := After(s, a);
      && (c in t.pubs <==> c in t.calls && Ended(t.calls[c], Published))
      && (c in t.staged <==> c in t.calls)
      && (c in t.staged ==> t.staged[c] != Absent)
  {
    hide PathLocks.Enabled, PathLocks.After;
    assert c in s.pubs <==> c in s.calls && Ended(s.calls[c], Published);
    assert c in s.staged <==> c in s.calls;
  }

  // A publish is the call's first.
  lemma PubsGrow(s: State, a: Action)
    requires PubInv(s) && Enabled(s, a)
    ensures After(s, a).pubs == s.pubs || (After(s, a).pubs == s.pubs + [a.call] && a.call !in s.pubs)
  {
    assert a.Rename? ==> !Ended(s.calls[a.call], Published);
    hide PathLocks.Enabled, PathLocks.After, Clean, MayRename, MayFail;
  }

  lemma PubStep(s: State, a: Action)
    requires PubInv(s) && Enabled(s, a)
    ensures PubInv(After(s, a))
  {
    PubsGrow(s, a);
    hide After, Enabled, Ended;
    var t := After(s, a);
    forall c
      ensures c in t.pubs <==> c in t.calls && Ended(t.calls[c], Published)
      ensures c in t.staged <==> c in t.calls
      ensures c in t.staged ==> t.staged[c] != Absent
    {
      PublishedAt(s, a, c);
    }
  }

  // Only renames and clearings touch the path, decide who publishes or fails, or clear.
  lemma PlaceUntouched(s: State, a: Action, d: Call)
    requires PubInv(s) && Enabled(s, a) && !a.Rename? && !a.Clear?
    ensures d in s.staged ==> d in After(s, a).staged && After(s, a).staged[d] == s.staged[d]
    ensures d in After(s, a).calls ==>
      var pc := After(s, a).calls[d];
      && (pc == Clearing || pc.ThirdTry? ==> d in s.calls && s.calls[d] == pc)
      && (forall n: nat :: Ended(pc, Overtaken(n)) ==> d in s.calls && Ended(s.calls[d], Overtaken(n)))
      && (Failed(pc) ==> d in s.calls && Failed(s.calls[d]))
    ensures d in s.calls && (s.calls[d] == Clearing || s.calls[d].ThirdTry?) ==>
      d in After(s, a).calls && After(s, a).calls[d] == s.calls[d]
  {
    hide PathLocks.Enabled, PathLocks.After, Clean, MayRename, MayFail;
  }

  lemma OutputUntouched(s: State, a: Action)
    requires PubInv(s) && Enabled(s, a) && !a.Rename? && !a.Clear?
    ensures After(s, a).output == s.output && After(s, a).pubs == s.pubs && After(s, a).initial == s.initial
    ensures forall d :: d in s.staged ==> d in After(s, a).staged && After(s, a).staged[d] == s.staged[d]
    ensures forall d :: d in After(s, a).calls ==>
      var pc := After(s, a).calls[d];
      && (pc == Clearing || pc.ThirdTry? ==> d in s.calls && s.calls[d] == pc)
      && (forall n: nat :: Ended(pc, Overtaken(n)) ==> d in s.calls && Ended(s.calls[d], Overtaken(n)))
      && (Failed(pc) ==> d in s.calls && Failed(s.calls[d]))
    ensures forall d :: d in s.calls && (s.calls[d] == Clearing || s.calls[d].ThirdTry?) ==>
      d in After(s, a).calls && After(s, a).calls[d] == s.calls[d]
  {
    assert After(s, a).output == s.output && After(s, a).pubs == s.pubs && After(s, a).initial == s.initial by {
      hide PathLocks.Enabled, PathLocks.After;
    }
    hide After, Enabled, PubInv, Ended, Failed;
    forall d {
      PlaceUntouched(s, a, d);
    }
  }

  lemma RenameKeepsOutput(s: State, c: Call, ok: bool)
    requires PubInv(s) && OutputInv(s) && Enabled(s, Rename(c, ok))
    ensures OutputInv(After(s, Rename(c, ok)))
  {
    assert After(s, Rename(c, ok)).output != Absent;
  }

  lemma ClearKeepsOutput(s: State, c: Call)
    requires OutputInv(s) && Enabled(s, Clear(c))
    ensures OutputInv(After(s, Clear(c)))
  {
    assert After(s, Clear(c)).calls[c] == ThirdTry(|s.pubs|);
  }

  lemma GapIsStillFilled(s: State, a: Action)
    requires PubInv(s) && OutputInv(s) && Enabled(s, a) && !a.Rename? && !a.Clear?
    requires s.output == Absent && Current(s) != Absent
    ensures exists c :: c in After(s, a).calls && After(s, a).calls[c] == ThirdTry(|s.pubs|)
  {
    var d :| d in s.calls && s.calls[d] == ThirdTry(|s.pubs|);
    PlaceUntouched(s, a, d);
    hide After, Enabled, PubInv, OutputInv;
    assert After(s, a).calls[d] == ThirdTry(|s.pubs|);
  }

  lemma RestKeepsOutput(s: State, a: Action)
    requires PubInv(s) && OutputInv(s) && Enabled(s, a) && !a.Rename? && !a.Clear?
    ensures OutputInv(After(s, a))
  {
    OutputUntouched(s, a);
    CurrentUntouched(s, a);
    if s.output == Absent && Current(s) != Absent {
      GapIsStillFilled(s, a);
    }
    hide After, Enabled, Ended, Current, PubInv, Failed;
  }

  lemma CurrentUntouched(s: State, a: Action)
    requires PubInv(s) && Enabled(s, a) && !a.Rename? && !a.Clear?
    ensures Current(After(s, a)) == Current(s)
  {
    OutputUntouched(s, a);
    hide After, Enabled, Ended, Failed;
    if s.pubs != [] {
      assert s.pubs[|s.pubs| - 1] in s.pubs;
    }
  }

  lemma OutputStep(s: State, a: Action)
    requires PubInv(s) && OutputInv(s) && Enabled(s, a)
    ensures OutputInv(After(s, a))
  {
    if a.Rename? {
      RenameKeepsOutput(s, a.call, a.ok);
    } else if a.Clear? {
      ClearKeepsOutput(s, a.call);
    } else {
      RestKeepsOutput(s, a);
    }
  }

  predicate PastTheLock(pc: Pc) {
    pc == SecondTry || pc == Clearing || pc.ThirdTry? || pc.Unlocking?
  }

  lemma OnePastTheLock(s: State, c: Call, d: Call)
    requires LockInv(s) && c in s.calls && d in s.calls && s.keyOf[c] == s.keyOf[d]
    requires PastTheLock(s.calls[c]) && PastTheLock(s.calls[d])
    ensures c == d
  {
    assert LockedAs(s, c) && LockedAs(s, d);
    PathLocks.OneHolderPerKey(s.locks, c, d);
  }

  lemma ClearStaysSmooth(s: State, c: Call)
    requires Enabled(s, Clear(c)) && Smooth(s)
    ensures Smooth(After(s, Clear(c)))
  {
  }

  lemma ClearStaysGapless(s: State, c: Call)
    requires LockInv(s) && Enabled(s, Clear(c)) && OneKey(s) && Gapless(s)
    ensures Gapless(After(s, Clear(c)))
  {
    forall d | d in After(s, Clear(c)).calls ensures After(s, Clear(c)).calls[d] != Clearing {
      if d != c && s.calls[d] == Clearing {
        OnePastTheLock(s, c, d);
      }
    }
  }

  lemma RenameStaysSmooth(s: State, c: Call, ok: bool)
    requires Enabled(s, Rename(c, ok)) && s.staged[c].File? && Smooth(s)
    ensures Smooth(After(s, Rename(c, ok)))
  {
    assert s.output.Directory? ==> !ok;
    assert s.calls[c].ThirdTry? ==> ok;
  }

  lemma RenameStaysGapless(s: State, c: Call, ok: bool)
    requires LockInv(s) && Enabled(s, Rename(c, ok)) && s.staged[c].File? && OneKey(s) && Gapless(s)
    ensures Gapless(After(s, Rename(c, ok)))
  {
    var t := After(s, Rename(c, ok));
    assert s.output.Directory? ==> !ok;
    var first := s.calls[c] == FirstTry;
    forall d | d in t.calls && t.calls[d] == Clearing ensures t.output.Directory? {
      if ok && !first {
        OnePastTheLock(s, c, d);
      }
    }
  }

  lemma RestStaysSmooth(s: State, a: Action)
    requires PubInv(s) && Enabled(s, a) && !a.Rename? && !a.Clear?
    ensures Smooth(s) ==> Smooth(After(s, a))
    ensures Gapless(s) ==> Gapless(After(s, a))
  {
    OutputUntouched(s, a);
    hide After, Enabled, PubInv, Ended, Failed;
  }

  lemma FilesBefore(s: State, a: Action)
    requires PubInv(s) && Enabled(s, a)
    ensures AllFiles(After(s, a)) ==> AllFiles(s)
    ensures OneKey(After(s, a)) <==> OneKey(s)
    ensures a.Rename? && AllFiles(s) ==> s.staged[a.call].File?
  {
    LocksFollow(s, a);
    hide PathLocks.After, PathLocks.Enabled;
    var t := After(s, a);
    assert forall c :: c in s.staged ==> c in t.staged && t.staged[c] == s.staged[c];
  }

  lemma FileStep(s: State, a: Action)
    requires LockInv(s) && PubInv(s) && FileInv(s) && Enabled(s, a)
    ensures FileInv(After(s, a))
  {
    FilesBefore(s, a);
    hide After, Enabled, LockInv, PubInv, AllFiles, OneKey, Smooth, Gapless;
    if AllFiles(s) {
      if a.Clear? {
        ClearStaysSmooth(s, a.call);
        if OneKey(s) {
          ClearStaysGapless(s, a.call);
        }
      } else if a.Rename? {
        RenameStaysSmooth(s, a.call, a.ok);
        if OneKey(s) {
          RenameStaysGapless(s, a.call, a.ok);
        }
      } else {
        RestStaysSmooth(s, a);
      }
    }
  }

  predicate GivesUpLate(s: State, c: Call) {
    c in s.calls ==>
      && (Ended(s.calls[c], GaveUp) ==> c in s.locks.done)
      && (c in s.locks.calls && s.locks.calls[c].GivingUp? ==> c in s.locks.done)
  }

  lemma OwnGivesUpLate(s: State, a: Action, c: Call)
    requires Enabled(s, a) && LockAction(a).None? && GivesUpLate(s, c) && (a.Arrive? ==> a.call !in s.locks.calls)
    ensures GivesUpLate(After(s, a), c)
  {
    hide Clean, MayRename, MayFail;
  }

  lemma LockGivesUpLate(s: State, a: Action, c: Call)
    requires Enabled(s, a) && LockAction(a).Some? && GivesUpLate(s, c)
    requires a.Lock? ==> a.call in s.keyOf && LockedAs(s, a.call)
    ensures GivesUpLate(After(s, a), c)
  {
    PathLocks.OnlyTheCallerMoves(s.locks, LockAction(a).value);
    hide PathLocks.After, PathLocks.Enabled;
  }

  lemma DeadlineStep(s: State, a: Action)
    requires LockInv(s) && DeadlineInv(s) && Enabled(s, a)
    ensures DeadlineInv(After(s, a))
  {
    assert a.Lock? ==> a.call in s.keyOf && LockedAs(s, a.call);
    assert a.Arrive? ==> a.call !in s.locks.calls;
    forall c | c in After(s, a).calls ensures GivesUpLate(After(s, a), c) {
      assert GivesUpLate(s, c);
      hide After, Enabled, LockInv, LockedAs, DeadlineInv, GivesUpLate;
      if LockAction(a).None? {
        OwnGivesUpLate(s, a, c);
      } else {
        LockGivesUpLate(s, a, c);
      }
    }
    hide After, Enabled, LockInv;
  }

  lemma StepKeepsInv(s: State, a: Action)
    requires Inv(s) && Enabled(s, a)
    ensures Inv(After(s, a))
  {
    LockStep(s, a);
    PubStep(s, a);
    OutputStep(s, a);
    FileStep(s, a);
    DeadlineStep(s, a);
  }

  // ---------------------------------------------------------------- whole runs

  function Replay(paths: set<string>, initial: Entry, acts: seq<Action>): Option<State> {
    if acts == [] then Some(Initial(paths, initial))
    else
      var before := Replay(paths, initial, acts[..|acts| - 1]);
      var last := acts[|acts| - 1];
      if before.Some? && Enabled(before.value, last) then Some(After(before.value, last)) else None
  }

  ghost predicate Reachable(s: State) {
    exists paths, acts :: Replay(paths, s.initial, acts) == Some(s)
  }

  lemma InitialInv(paths: set<string>, initial: Entry)
    ensures Inv(Initial(paths, initial))
  {
    PathLocks.InitialInv();
    forall path | path in paths ensures Clean(Clean(path)) == Clean(path) {
      CleanIdempotent(path);
    }
  }

  lemma {:induction false} RunsKeepInv(paths: set<string>, initial: Entry, acts: seq<Action>)
    ensures Replay(paths, initial, acts).Some? ==> Inv(Replay(paths, initial, acts).value)
  {
    if acts == [] {
      InitialInv(paths, initial);
    } else {
      RunsKeepInv(paths, initial, acts[..|acts| - 1]);
      if Replay(paths, initial, acts).Some? {
        StepKeepsInv(Replay(paths, initial, acts[..|acts| - 1]).value, acts[|acts| - 1]);
      }
    }
  }

  lemma ReachableInv(s: State)
    requires Reachable(s)
    ensures Inv(s)
  {
    var paths, acts :| Replay(paths, s.initial, acts) == Some(s);
    RunsKeepInv(paths, s.initial, acts);
  }

  lemma ReachStep(s: State, a: Action)
    requires Reachable(s) && Enabled(s, a)
    ensures Reachable(After(s, a))
  {
    var paths, acts :| Replay(paths, s.initial, acts) == Some(s);
    assert After(s, a).initial == s.initial;
    hide Enabled, After;
    assert (acts + [a])[..|acts|] == acts;
    assert Replay(paths, s.initial, acts + [a]) == Some(After(s, a));
  }
}
