/**
 How `writePeerSnapshot` of client/snapshot.go puts a snapshot in place: a temporary file of its
 own, written, closed and renamed, with the process free to die at any point.
 */
module Saving {
  import opened Wrappers
  import opened Peers
  import opened Snapshot

  // A writer is named by its temporary file, since `os.CreateTemp` never hands out a name that
  // is taken. `Leaving` has yet to run the deferred `os.Remove`.
  datatype Pc =
    | Writing
    | Ready
    | Leaving(saved: bool)
    | Gone(saved: bool)
    | Dead

  datatype State = State(
    initial: Option<string>,
    target: Option<string>,            // what a reader finds at the path
    partials: map<nat, string>,        // the temporary files there are
    texts: map<nat, seq<AddrInfo>>,    // what each writer was given
    writers: map<nat, Pc>,
    saves: seq<nat>)                   // history: the renames, in order

  // `Fault` is a write or a close that fails, with a full disk for one.
  datatype Action =
    | Create(writer: nat, peers: seq<AddrInfo>)
    | Append(writer: nat, more: string)
    | Finish(writer: nat)
    | Fault(writer: nat)
    | Rename(writer: nat, ok: bool)
    | Remove(writer: nat)
    | Kill

  function Initial(target: Option<string>): State {
    State(target, target, map[], map[], map[], [])
  }

  predicate Enabled(s: State, a: Action) {
    match a
    case Create(w, peers) => w !in s.writers && w !in s.partials && peers != []
    case Append(w, more) => At(s, w, Writing) && s.partials[w] + more <= Text(s.texts[w])
    case Finish(w) => At(s, w, Writing) && s.partials[w] == Text(s.texts[w])
    case Fault(w) => At(s, w, Writing)
    case Rename(w, ok) => At(s, w, Ready)
    case Remove(w) => w in s.writers && s.writers[w].Leaving?
    case Kill => true
  }

  predicate At(s: State, w: nat, pc: Pc) {
    w in s.writers && s.writers[w] == pc && w in s.partials && w in s.texts
  }

  function Killed(pc: Pc): Pc {
    if pc.Gone? then pc else Dead
  }

  function After(s: State, a: Action): State
    requires Enabled(s, a)
  {
    match a
    case Create(w, peers) =>
      s.(partials := s.partials[w := ""], texts := s.texts[w := peers], writers := s.writers[w := Writing])
    case Append(w, more) => s.(partials := s.partials[w := s.partials[w] + more])
    case Finish(w) => s.(writers := s.writers[w := Ready])
    case Fault(w) => s.(writers := s.writers[w := Leaving(false)])
    case Rename(w, ok) =>
      var moved := s.(writers := s.writers[w := Leaving(ok)]);
      if ok
      then moved.(target := Some(s.partials[w]), partials := s.partials - {w}, saves := s.saves + [w])
      else moved
    case Remove(w) => s.(partials := s.partials - {w}, writers := s.writers[w := Gone(s.writers[w].saved)])
    case Kill => s.(writers := map w | w in s.writers :: Killed(s.writers[w]))
  }

  predicate Saved(pc: Pc) {
    (pc.Leaving? || pc.Gone?) && pc.saved
  }

  ghost predicate Inv(s: State) {
    && (forall w: nat :: WriterHolds(s, w))
    && s.target == Latest(s)
  }

  // A temporary file is the beginning of its writer's text, the whole of it once closed, and
  // gone once renamed.
  ghost predicate WriterHolds(s: State, w: nat) {
    && (w in s.texts <==> w in s.writers)
    && (w in s.partials ==> w in s.writers && !s.writers[w].Gone? && s.partials[w] <= Text(s.texts[w]))
    && (w in s.writers && s.writers[w] == Writing ==> w in s.partials)
    && (w in s.writers && s.writers[w] == Ready ==> w in s.partials && s.partials[w] == Text(s.texts[w]))
    && (w in s.writers ==> s.texts[w] != [])
    && (w in s.writers && Saved(s.writers[w]) ==> w in s.saves)
    && (w in s.saves ==> w in s.writers && w !in s.partials && (Saved(s.writers[w]) || s.writers[w] == Dead))
  }

  function Latest(s: State): Option<string> {
    if s.saves != [] && s.saves[|s.saves| - 1] in s.texts then Some(Text(s.texts[s.saves[|s.saves| - 1]])) else s.initial
  }

  lemma WriterStays(s: State, a: Action, w: nat)
    requires WriterHolds(s, w) && Enabled(s, a)
    ensures WriterHolds(After(s, a), w)
  {
    hide Text;
  }

  lemma StepKeepsInv(s: State, a: Action)
    requires Inv(s) && Enabled(s, a)
    ensures Inv(After(s, a))
  {
    forall w: nat ensures WriterHolds(After(s, a), w) {
      WriterStays(s, a, w);
    }
    hide Text;
    if a.Rename? {
      assert WriterHolds(s, a.writer);
    }
    if s.saves != [] {
      assert s.saves[|s.saves| - 1] in s.saves && WriterHolds(s, s.saves[|s.saves| - 1]);
    }
  }

  function Replay(target: Option<string>, acts: seq<Action>): Option<State> {
    if acts == [] then Some(Initial(target))
    else
      var before := Replay(target, acts[..|acts| - 1]);
      var last := acts[|acts| - 1];
      if before.Some? && Enabled(before.value, last) then Some(After(before.value, last)) else None
  }

  ghost predicate Reachable(s: State) {
    exists acts :: Replay(s.initial, acts) == Some(s)
  }

  lemma {:induction false} RunsKeepInv(target: Option<string>, acts: seq<Action>)
    ensures Replay(target, acts).Some? ==> Inv(Replay(target, acts).value)
  {
    if acts != [] {
      RunsKeepInv(target, acts[..|acts| - 1]);
      if Replay(target, acts).Some? {
        StepKeepsInv(Replay(target, acts[..|acts| - 1]).value, acts[|acts| - 1]);
      }
    }
  }

  // However many nodes write at once, and wherever the process dies, a reader finds what was
  // there at first or the whole of the snapshot renamed last: never half of one.
  lemma ReadersSeeWholeSnapshots(s: State)
    requires Reachable(s)
    ensures s.saves == [] ==> s.target == s.initial
    ensures s.saves != [] ==>
      var last := s.saves[|s.saves| - 1];
      last in s.texts && s.target == Some(Text(s.texts[last]))
  {
    var acts :| Replay(s.initial, acts) == Some(s);
    RunsKeepInv(s.initial, acts);
    if s.saves != [] {
      assert s.saves[|s.saves| - 1] in s.saves && WriterHolds(s, s.saves[|s.saves| - 1]);
    }
  }

  // A temporary file outlives its writer only if the process died, and the deferred removal
  // never takes a snapshot that was put in place.
  lemma OnlyTheDeadLitter(s: State, w: nat)
    requires Reachable(s) && w in s.writers
    ensures s.writers[w].Gone? ==> w !in s.partials && (s.writers[w].saved <==> w in s.saves)
    ensures Enabled(s, Remove(w)) ==> After(s, Remove(w)).target == s.target
  {
    var acts :| Replay(s.initial, acts) == Some(s);
    RunsKeepInv(s.initial, acts);
    assert WriterHolds(s, w);
  }

  // A snapshot of nobody is never begun, and any other at any time.
  lemma OnlyNobodyIsNotSaved(s: State, w: nat, peers: seq<AddrInfo>)
    requires Reachable(s)
    ensures w in s.texts ==> s.texts[w] != []
    ensures peers != [] && w !in s.writers ==> Enabled(s, Create(w, peers))
  {
    var acts :| Replay(s.initial, acts) == Some(s);
    RunsKeepInv(s.initial, acts);
    assert WriterHolds(s, w);
  }

  // No writer waits for another: it can write on to the end of its text, close, and rename or
  // fail, and the process can die at any moment.
  lemma NoWriterIsHeldUp(s: State, w: nat, more: string, ok: bool)
    requires Reachable(s) && w in s.writers
    ensures match s.writers[w]
      case Writing =>
        && w in s.texts && w in s.partials && Enabled(s, Fault(w)) && After(s, Fault(w)).writers[w] == Leaving(false)
        && (if s.partials[w] == Text(s.texts[w]) then Enabled(s, Finish(w)) && After(s, Finish(w)).writers[w] == Ready
            else s.partials[w] + more <= Text(s.texts[w]) ==>
              Enabled(s, Append(w, more)) && After(s, Append(w, more)).partials[w] == s.partials[w] + more)
      case Ready => Enabled(s, Rename(w, ok)) && After(s, Rename(w, ok)).writers[w] == Leaving(ok)
      case Leaving(saved) => Enabled(s, Remove(w)) && After(s, Remove(w)).writers[w] == Gone(saved)
      case _ => true
    ensures Enabled(s, Kill) && After(s, Kill).writers[w] == if s.writers[w].Gone? then s.writers[w] else Dead
    ensures After(s, Kill).target == s.target && After(s, Kill).partials == s.partials
  {
    var acts :| Replay(s.initial, acts) == Some(s);
    RunsKeepInv(s.initial, acts);
    assert WriterHolds(s, w);
    hide Text;
  }

  // Together with the parser: what is read, within the lifetime of a file last written at `at`,
  // is the whole list some writer was given, but for peers without an address.
  lemma ReadersGetWholeLists(parse: Parser, s: State, at: int, now: int)
    requires Reachable(s) && s.saves != [] && now - at <= SNAPSHOT_LIFETIME
    requires forall w :: w in s.texts ==> Distinct(s.texts[w]) && forall info :: info in s.texts[w] ==> Writable(parse, info)
    ensures s.target.Some? && s.saves[|s.saves| - 1] in s.texts
    ensures Kept(parse, Some(Snapshot.Saved(s.target.value, at)), now) == WithAddrs(s.texts[s.saves[|s.saves| - 1]])
  {
    ReadersSeeWholeSnapshots(s);
    SnapshotRoundTrip(parse, s.texts[s.saves[|s.saves| - 1]], at, now);
  }
}
