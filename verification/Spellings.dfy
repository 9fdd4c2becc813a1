/**
 What two spellings of one output cost: `pathLocks` of client/output.go locks the cleaned text of
 a path, so they have a lock each. Everything in `Outcomes` holds all the same, but for the
 gap that single files leave.
 */
module Spellings {
  import opened Wrappers
  import opened Paths
  import opened Renaming
  import opened Publishing
  import opened Outcomes
  import PathLocks

  // Over every run with these spellings, once a file has been published there is one there, as
  // long as all that is staged is files.
  ghost predicate NeverAbsent(paths: set<string>) {
    forall initial, acts :: Replay(paths, initial, acts).Some? ==> FileStays(Replay(paths, initial, acts).value)
  }

  predicate FileStays(s: State) {
    AllFiles(s) && s.pubs != [] ==> s.output.File?
  }

  lemma {:induction false} KeysStay(paths: set<string>, initial: Entry, acts: seq<Action>)
    requires Replay(paths, initial, acts).Some?
    ensures Replay(paths, initial, acts).value.keys == Initial(paths, initial).keys
    ensures Replay(paths, initial, acts).value.initial == initial
  {
    if acts != [] {
      var init, last := acts[..|acts| - 1], acts[|acts| - 1];
      KeysStay(paths, initial, init);
      LocksFollow(Replay(paths, initial, init).value, last);
      hide PathLocks.Enabled, PathLocks.After;
    }
  }

  lemma Extend(paths: set<string>, initial: Entry, acts: seq<Action>, s: State, a: Action)
    returns (more: seq<Action>, t: State)
    requires Replay(paths, initial, acts) == Some(s) && Enabled(s, a)
    ensures t == After(s, a) && Replay(paths, initial, more) == Some(t)
  {
    more, t := acts + [a], After(s, a);
    assert more[..|acts|] == acts;
  }

  predicate Unknown(s: State, c: Call) {
    c !in s.calls && c !in s.locks.calls && c !in s.locks.done
  }

  // Something no file can be renamed onto.
  predicate InTheWay(e: Entry) {
    e.Directory?
  }

  // What happened to the state `s` while one call was getting somewhere.
  predicate Only(s: State, t: State, c: Call, pc: Pc, key: string) {
    && t.calls == s.calls[c := pc] && t.staged == s.staged[c := File([])] && t.keyOf == s.keyOf[c := key]
    && t.output == s.output && t.pubs == s.pubs && t.keys == s.keys && t.locks.done == s.locks.done
  }

  // A call that finds a directory gets as far as wanting the lock.
  lemma ToTheQueue(paths: set<string>, initial: Entry, acts: seq<Action>, s: State, c: Call, path: string)
    returns (more: seq<Action>, t: State)
    requires Replay(paths, initial, acts) == Some(s) && InTheWay(s.output) && Unknown(s, c) && Clean(path) in s.keys
    ensures Replay(paths, initial, more) == Some(t) && Only(s, t, c, Queueing, Clean(path)) && t.locks == s.locks
  {
    hide Replay, Clean;
    more, t := Extend(paths, initial, acts, s, Arrive(c, File([]), path));
    more, t := Extend(paths, initial, more, t, Check(c));
    more, t := Extend(paths, initial, more, t, Rename(c, false));
  }

  lemma FullGatesAreMade(l: PathLocks.State)
    requires PathLocks.Inv(l)
    ensures forall g :: g in l.tokens ==> g < l.table.made
  {
    forall g | g in l.tokens ensures g < l.table.made {
      assert PathLocks.HasLock(l, l.tokens[g]) && l.calls[l.tokens[g]].gate == g;
    }
  }

  // A caller alone at a key that is not in the table.
  lemma TakesAFreeLock(l: PathLocks.State, c: Call, path: string)
    requires c !in l.calls && Clean(path) !in l.table.held && l.table.made !in l.tokens
    ensures PathLocks.Enabled(l, PathLocks.Register(c, path))
    ensures var l1 := PathLocks.After(l, PathLocks.Register(c, path));
      PathLocks.Enabled(l1, PathLocks.Grant(c)) &&
      var l2 := PathLocks.After(l1, PathLocks.Grant(c));
      && l2.calls.Keys == l.calls.Keys + {c} && l2.done == l.done
      && l2.table.held.Keys == l.table.held.Keys + {Clean(path)}
  {
    hide Clean;
  }

  // The same two steps by a call of ours.
  lemma QueueThenLock(s: State, c: Call, path: string)
    requires Ours(s, c) && s.calls[c] == Queueing && s.keyOf[c] == Clean(path)
    requires PathLocks.Enabled(s.locks, PathLocks.Register(c, path))
    ensures var a := Lock(c, PathLocks.Register(c, path));
      && Enabled(s, a) && After(s, a) == s.(locks := PathLocks.After(s.locks, PathLocks.Register(c, path)))
  {
    assert s.calls[c := Queueing] == s.calls;
    hide PathLocks.Enabled, PathLocks.After, Clean;
  }

  lemma GrantThenTry(s: State, c: Call)
    requires Ours(s, c) && s.calls[c] == Queueing && PathLocks.Enabled(s.locks, PathLocks.Grant(c))
    ensures var a := Lock(c, PathLocks.Grant(c));
      && Enabled(s, a)
      && After(s, a) == s.(locks := PathLocks.After(s.locks, PathLocks.Grant(c)), calls := s.calls[c := SecondTry])
  {
    hide PathLocks.Enabled, PathLocks.After;
  }

  // With its lock free it takes it, and tries again.
  lemma ToTheLock(paths: set<string>, initial: Entry, acts: seq<Action>, s: State, c: Call, path: string)
    returns (more: seq<Action>, t: State)
    requires Replay(paths, initial, acts) == Some(s) && Ours(s, c) && s.calls[c] == Queueing && s.keyOf[c] == Clean(path)
    requires c !in s.locks.calls && Clean(path) !in s.locks.table.held
    ensures Replay(paths, initial, more) == Some(t)
    ensures t == s.(calls := s.calls[c := SecondTry], locks := t.locks)
    ensures t.locks.calls.Keys == s.locks.calls.Keys + {c} && t.locks.done == s.locks.done
    ensures t.locks.table.held.Keys == s.locks.table.held.Keys + {Clean(path)}
  {
    RunsKeepInv(paths, initial, acts);
    FullGatesAreMade(s.locks);
    TakesAFreeLock(s.locks, c, path);
    hide Replay, Clean, Inv, Enabled, After, PathLocks.Enabled, PathLocks.After;
    QueueThenLock(s, c, path);
    more, t := Extend(paths, initial, acts, s, Lock(c, PathLocks.Register(c, path)));
    GrantThenTry(t, c);
    more, t := Extend(paths, initial, more, t, Lock(c, PathLocks.Grant(c)));
  }

  lemma ToClearing(paths: set<string>, initial: Entry, acts: seq<Action>, s: State, c: Call, path: string)
    returns (more: seq<Action>, t: State)
    requires Replay(paths, initial, acts) == Some(s) && InTheWay(s.output) && Unknown(s, c) && Clean(path) in s.keys
    requires Clean(path) !in s.locks.table.held
    ensures Replay(paths, initial, more) == Some(t) && Only(s, t, c, Clearing, Clean(path))
    ensures t.locks.calls.Keys == s.locks.calls.Keys + {c}
    ensures t.locks.table.held.Keys == s.locks.table.held.Keys + {Clean(path)}
  {
    hide Replay, Clean;
    var queued, u := ToTheQueue(paths, initial, acts, s, c, path);
    more, t := ToTheLock(paths, initial, queued, u, c, path);
    assert t.calls == s.calls[c := SecondTry];
    more, t := Extend(paths, initial, more, t, Rename(c, false));
    assert t.calls == s.calls[c := Clearing];
  }

  // Two calls, one under each key, both get as far as clearing a directory. The first clears and
  // publishes its file, and then the second clears that.
  lemma TwoKeysLeaveAGap(paths: set<string>, p: string, q: string)
    requires p in paths && q in paths && Clean(p) != Clean(q)
    ensures !NeverAbsent(paths)
  {
    var initial := Directory(map[]);
    var s := Initial(paths, initial);
    hide Clean, NeverAbsent;
    var acts, t := ToClearing(paths, initial, [], s, 0, p);
    acts, t := ToClearing(paths, initial, acts, t, 1, q);
    assert t.calls == map[0 := Clearing, 1 := Clearing] && t.staged == map[0 := File([]), 1 := File([])] && t.pubs == [];
    hide Replay, Only;
    acts, t := Extend(paths, initial, acts, t, Clear(0));
    acts, t := Extend(paths, initial, acts, t, Rename(0, true));
    acts, t := Extend(paths, initial, acts, t, Clear(1));
    assert AllFiles(t) && t.pubs == [0] && t.output == Absent;
    assert !NeverAbsent(paths) by { Refuted(paths, initial, acts); }
  }

  lemma Refuted(paths: set<string>, initial: Entry, acts: seq<Action>)
    requires Replay(paths, initial, acts).Some? && !FileStays(Replay(paths, initial, acts).value)
    ensures !NeverAbsent(paths)
  {
  }

  // Files leave no gap exactly when all spellings of the place clean to the same.
  lemma WhenFilesLeaveNoGap(paths: set<string>)
    ensures NeverAbsent(paths) <==> forall p, q :: p in paths && q in paths ==> Clean(p) == Clean(q)
  {
    if p, q :| p in paths && q in paths && Clean(p) != Clean(q) {
      TwoKeysLeaveAGap(paths, p, q);
    } else {
      hide Clean;
      forall initial, acts | Replay(paths, initial, acts).Some?
        ensures FileStays(Replay(paths, initial, acts).value)
      {
        var s := Replay(paths, initial, acts).value;
        KeysStay(paths, initial, acts);
        assert OneKey(s);
        assert Reachable(s);
        hide Replay, Reachable;
        if AllFiles(s) {
          FilesLeaveNoGap(s);
        }
      }
    }
  }
}
