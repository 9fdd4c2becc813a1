/**
 Staging directories: `claimScratch` and `sweepScratchPrefix` of client/node.go.

 A sweep removes what dead processes left behind, and must not touch a directory a download
 of this process is using. Two things hold it off: the `staging` table, and age. The table is
 keyed by text, so what matters is how each output spells the directory it lies in. The model
 is of one directory on disk, the downloads whose outputs lie in it, and one name prefix.
 */
module Scratch {
  import opened Wrappers
  import opened Paths

  type Name = string

  // In seconds: `scratchStaleAfter`.
  const STALE_AFTER: int := 60 * 60

  // What a run of the protocol depends on. `prompt` bounds how long two short stretches of code
  // take: from making a directory to entering it in the table, and from consulting the table to
  // reading the age. `outputs` are those that lie in the directory, each as its caller gave it.
  datatype Setting = Setting(prompt: nat, outputs: set<string>)

  // A claim between `os.MkdirTemp` and `staging.Store`, in use, and released.
  datatype ClaimPc =
    | Made(output: string, at: int)
    | InUse(output: string, at: int)
    | Released

  // A sweep looking at one entry of its listing: before it consults the table, before it
  // looks at the age, and before it removes.
  datatype SweepPc =
    | Listed(name: Name, output: string)
    | NotLive(name: Name, at: int)
    | Old(name: Name)
    | Moved

  datatype State = State(
    now: int,
    used: set<Name>,                // names handed out or left over so far
    modified: map<Name, int>,       // the directories there are, and when each last changed
    claims: map<Name, ClaimPc>,
    sweeps: map<nat, SweepPc>,
    lost: set<string>)              // history: outputs with a claim whose directory was removed

  datatype Action =
    | Tick(now: int)
    | Mkdir(name: Name, output: string)
    | Store(name: Name)
    | Touch(name: Name)
    | Release(name: Name)
    | List(sweep: nat, name: Name, output: string)
    | Load(sweep: nat)
    | Age(sweep: nat)
    | Remove(sweep: nat)

  predicate Leftovers(left: map<Name, int>, used: set<Name>) {
    left.Keys <= used && forall n :: n in left ==> Plain(n)
  }

  function Initial(left: map<Name, int>, used: set<Name>, now: int): State {
    State(now, used, left, map[], map[], {})
  }

  predicate Claimed(s: State, name: Name) {
    name in s.claims && !s.claims[name].Released?
  }

  predicate ClaimedFor(s: State, name: Name, output: string) {
    Claimed(s, name) && s.claims[name].output == output
  }

  predicate OnTime(s: State, prompt: int, now: int) {
    && (forall n :: n in s.claims && s.claims[n].Made? ==> now - s.claims[n].at <= prompt)
    && (forall w :: w in s.sweeps && s.sweeps[w].NotLive? ==> now - s.sweeps[w].at <= prompt)
  }

  // The table has the path that a sweep for `output` looks up for `name`.
  predicate InTable(s: State, name: Name, output: string) {
    exists m :: m in s.claims && s.claims[m].InUse? &&
      MkdirTempPath(Dir(s.claims[m].output), m) == Join(Dir(output), name)
  }

  predicate Enabled(s: State, how: Setting, a: Action) {
    match a
    case Tick(now) => s.now <= now && OnTime(s, how.prompt, now)
    case Mkdir(n, o) => n !in s.used && Plain(n) && o in how.outputs
    case Store(n) => n in s.claims && s.claims[n].Made?
    case Touch(n) => n in s.modified
    case Release(n) => n in s.claims && s.claims[n].InUse?
    case List(w, n, o) => n in s.modified && o in how.outputs && (w in s.sweeps ==> s.sweeps[w] == Moved)
    case Load(w) => w in s.sweeps && s.sweeps[w].Listed?
    case Age(w) => w in s.sweeps && s.sweeps[w].NotLive?
    case Remove(w) => w in s.sweeps && s.sweeps[w].Old?
  }

  function After(s: State, how: Setting, a: Action): State
    requires Enabled(s, how, a)
  {
    match a
    case Tick(now) => s.(now := now)
    case Mkdir(n, o) =>
      s.(used := s.used + {n}, modified := s.modified[n := s.now], claims := s.claims[n := Made(o, s.now)])
    case Store(n) => s.(claims := s.claims[n := InUse(s.claims[n].output, s.claims[n].at)])
    case Touch(n) => s.(modified := s.modified[n := s.now])
    case Release(n) => s.(claims := s.claims[n := Released], modified := s.modified - {n})
    case List(w, n, o) => s.(sweeps := s.sweeps[w := Listed(n, o)])
    case Load(w) =>
      var n, o := s.sweeps[w].name, s.sweeps[w].output;
      s.(sweeps := s.sweeps[w := if InTable(s, n, o) then Moved else NotLive(n, s.now)])
    case Age(w) =>
      var n := s.sweeps[w].name;
      var keep := n !in s.modified || s.now - s.modified[n] < STALE_AFTER;
      s.(sweeps := s.sweeps[w := if keep then Moved else Old(n)])
    case Remove(w) =>
      var n := s.sweeps[w].name;
      s.(sweeps := s.sweeps[w := Moved], modified := s.modified - {n},
         lost := if Claimed(s, n) then s.lost + {s.claims[n].output} else s.lost)
  }

  // ---------------------------------------------------------------- invariant

  // A directory is at least as young as the claim on it, and the claim no older than now.
  predicate ClaimHolds(s: State, how: Setting, n: Name)
    requires n in s.claims
  {
    && n in s.used && Plain(n)
    && (!s.claims[n].Released? ==>
          && s.claims[n].output in how.outputs
          && s.claims[n].at <= s.now && (n in s.modified ==> s.claims[n].at <= s.modified[n]))
    && (s.claims[n].Made? ==> s.now - s.claims[n].at <= how.prompt)
  }

  predicate SweepKnown(s: State, how: Setting, w: nat)
    requires w in s.sweeps
  {
    && (!s.sweeps[w].Moved? ==> s.sweeps[w].name in s.used && Plain(s.sweeps[w].name))
    && (s.sweeps[w].Listed? ==> s.sweeps[w].output in how.outputs)
    && (s.sweeps[w].NotLive? ==> s.now - s.sweeps[w].at <= how.prompt)
  }

  predicate Inv(s: State, how: Setting) {
    && (forall n :: n in s.modified ==> n in s.used && Plain(n))
    && (forall n :: n in s.claims ==> ClaimHolds(s, how, n))
    && (forall w :: w in s.sweeps ==> SweepKnown(s, how, w))
  }

  // A claim for `output` that was not in the table when a sweep looked was entered later.
  predicate SweepSpares(s: State, how: Setting, output: string, w: nat)
    requires w in s.sweeps
  {
    match s.sweeps[w]
    case NotLive(n, at) => ClaimedFor(s, n, output) ==> at <= s.claims[n].at + how.prompt
    case Old(n) => !ClaimedFor(s, n, output)
    case _ => true
  }

  predicate SparedSoFar(s: State, how: Setting, output: string) {
    && (forall w :: w in s.sweeps ==> SweepSpares(s, how, output, w))
    && output !in s.lost
  }

  // What it takes for the claims of one output.
  predicate Safe(how: Setting, output: string) {
    && 2 * how.prompt < STALE_AFTER
    && Dir(output) != "."
    && forall other :: other in how.outputs ==> Dir(other) == Dir(output)
  }

  lemma TableFinds(s: State, how: Setting, n: Name, output: string)
    requires Inv(s, how) && Plain(n)
    ensures InTable(s, n, output) <==>
      n in s.claims && s.claims[n].InUse? && Dir(s.claims[n].output) == Dir(output) && Dir(output) != "."
  {
    hide Dir, MkdirTempPath, Join;
    forall m | m in s.claims && s.claims[m].InUse?
      ensures MkdirTempPath(Dir(s.claims[m].output), m) == Join(Dir(output), n) <==>
        Dir(s.claims[m].output) == Dir(output) && Dir(output) != "." && m == n
    {
      assert ClaimHolds(s, how, m);
      SweepsSpellAlike(s.claims[m].output, m, output, n);
    }
  }

  lemma ClaimKept(s: State, how: Setting, a: Action, n: Name)
    requires Inv(s, how) && Enabled(s, how, a) && n in After(s, how, a).claims
    ensures ClaimHolds(After(s, how, a), how, n)
  {
    hide InTable;
    if n in s.claims {
      assert ClaimHolds(s, how, n);
    }
  }

  lemma SweepStaysKnown(s: State, how: Setting, a: Action, w: nat)
    requires Inv(s, how) && Enabled(s, how, a) && w in After(s, how, a).sweeps
    ensures SweepKnown(After(s, how, a), how, w)
  {
    hide InTable;
    if w in s.sweeps {
      assert SweepKnown(s, how, w);
    }
  }

  lemma StepKeepsInv(s: State, how: Setting, a: Action)
    requires Inv(s, how) && Enabled(s, how, a)
    ensures Inv(After(s, how, a), how)
  {
    var t := After(s, how, a);
    forall n | n in t.claims ensures ClaimHolds(t, how, n) {
      ClaimKept(s, how, a, n);
    }
    forall w | w in t.sweeps ensures SweepKnown(t, how, w) {
      SweepStaysKnown(s, how, a, w);
    }
    hide InTable;
  }

  lemma SweepStaysSparing(s: State, how: Setting, output: string, a: Action, w: nat)
    requires Inv(s, how) && SparedSoFar(s, how, output) && Enabled(s, how, a) && Safe(how, output)
    requires w in After(s, how, a).sweeps
    ensures SweepSpares(After(s, how, a), how, output, w)
  {
    hide InTable, Dir;
    if w in s.sweeps {
      assert SweepSpares(s, how, output, w) && SweepKnown(s, how, w);
      if !s.sweeps[w].Moved? && s.sweeps[w].name in s.claims {
        assert ClaimHolds(s, how, s.sweeps[w].name);
      }
      if a == Load(w) {
        TableFinds(s, how, s.sweeps[w].name, s.sweeps[w].output);
      }
    }
  }

  lemma StepSpares(s: State, how: Setting, output: string, a: Action)
    requires Inv(s, how) && SparedSoFar(s, how, output) && Enabled(s, how, a) && Safe(how, output)
    ensures SparedSoFar(After(s, how, a), how, output)
  {
    var t := After(s, how, a);
    forall w | w in t.sweeps ensures SweepSpares(t, how, output, w) {
      SweepStaysSparing(s, how, output, a, w);
    }
    hide InTable;
    if a.Remove? {
      assert SweepSpares(s, how, output, a.sweep);
    }
  }

  // ---------------------------------------------------------------- whole runs

  function Replay(start: State, how: Setting, acts: seq<Action>): Option<State> {
    if acts == [] then Some(start)
    else
      var before := Replay(start, how, acts[..|acts| - 1]);
      var last := acts[|acts| - 1];
      if before.Some? && Enabled(before.value, how, last) then Some(After(before.value, how, last)) else None
  }

  lemma {:induction false} RunsKeepInv(left: map<Name, int>, used: set<Name>, now: int, how: Setting, acts: seq<Action>)
    requires Leftovers(left, used)
    ensures var end := Replay(Initial(left, used, now), how, acts);
      end.Some? ==> Inv(end.value, how)
  {
    if acts != [] {
      var init, last := acts[..|acts| - 1], acts[|acts| - 1];
      RunsKeepInv(left, used, now, how, init);
      var before := Replay(Initial(left, used, now), how, init);
      if before.Some? && Enabled(before.value, how, last) {
        StepKeepsInv(before.value, how, last);
      }
    }
  }

  lemma {:induction false} SafeRunsSpare(left: map<Name, int>, used: set<Name>, now: int, how: Setting, output: string, acts: seq<Action>)
    requires Leftovers(left, used) && Safe(how, output)
    ensures var end := Replay(Initial(left, used, now), how, acts);
      end.Some? ==> Inv(end.value, how) && SparedSoFar(end.value, how, output)
  {
    RunsKeepInv(left, used, now, how, acts);
    if acts != [] {
      var init, last := acts[..|acts| - 1], acts[|acts| - 1];
      SafeRunsSpare(left, used, now, how, output, init);
      var before := Replay(Initial(left, used, now), how, init);
      if before.Some? && Enabled(before.value, how, last) {
        StepSpares(before.value, how, output, last);
      }
    }
  }

  ghost predicate Spared(how: Setting, output: string, left: map<Name, int>, used: set<Name>, now: int, acts: seq<Action>) {
    var end := Replay(Initial(left, used, now), how, acts);
    end.Some? ==> output !in end.value.lost
  }

  ghost predicate SparesClaimsOf(how: Setting, output: string) {
    forall left, used: set<Name>, now, acts :: Leftovers(left, used) ==> Spared(how, output, left, used, now, acts)
  }

  // However sweeps and downloads interleave, and however long a download takes, no sweep
  // removes a directory claimed for an output: exactly when the two short stretches take less
  // than half the stale age, the output is not directly in the working directory, and every
  // other output in the same directory spells that directory the same.
  lemma SweepsSpareClaims(how: Setting, output: string)
    requires output in how.outputs
    ensures SparesClaimsOf(how, output) <==>
      && 2 * how.prompt < STALE_AFTER
      && Dir(output) != "."
      && forall other :: other in how.outputs ==> Dir(other) == Dir(output)
  {
    if Safe(how, output) {
      forall left, used: set<Name>, now, acts | Leftovers(left, used)
        ensures Spared(how, output, left, used, now, acts)
      {
        SafeRunsSpare(left, used, now, how, output, acts);
      }
    } else {
      var acts;
      if STALE_AFTER <= 2 * how.prompt {
        acts := RaceRun(how, output);
      } else {
        var other :| other in how.outputs && (Dir(output) == "." || Dir(other) != Dir(output));
        acts := LongDownloadRun(how, output, other);
      }
      assert Leftovers(map[], {}) && !Spared(how, output, map[], {}, 0, acts);
    }
  }

  // So all downloads into a directory are safe exactly when all spell it the same, and not ".".
  lemma DownloadsKeepTheirScratch(how: Setting)
    requires how.outputs != {}
    ensures (forall output :: output in how.outputs ==> SparesClaimsOf(how, output)) <==>
      && 2 * how.prompt < STALE_AFTER
      && (forall o, p :: o in how.outputs && p in how.outputs ==> Dir(o) == Dir(p) && Dir(o) != ".")
  {
    hide SparesClaimsOf, Dir;
    var some :| some in how.outputs;
    forall output | output in how.outputs
      ensures SparesClaimsOf(how, output) <==>
        2 * how.prompt < STALE_AFTER && Dir(output) != "." && forall other :: other in how.outputs ==> Dir(other) == Dir(output)
    {
      SweepsSpareClaims(how, output);
    }
  }

  // Of two outputs in one directory, one relative and the other absolute, neither is sure to keep
  // its directory, however prompt the code is.
  lemma TwoSpellingsLoseClaims(prompt: nat, relative: string, absolute: string)
    requires !Rooted(relative) && Rooted(absolute)
    ensures !SparesClaimsOf(Setting(prompt, {relative, absolute}), relative)
    ensures !SparesClaimsOf(Setting(prompt, {relative, absolute}), absolute)
  {
    hide SparesClaimsOf, Dir;
    DirRooted(relative);
    DirRooted(absolute);
    SweepsSpareClaims(Setting(prompt, {relative, absolute}), relative);
    SweepsSpareClaims(Setting(prompt, {relative, absolute}), absolute);
  }

  // So it is with one download to out/x and another to /work/out/y, in a process whose working
  // directory is /work, although neither output lies directly in that.
  lemma TwoSpellingsOfOut(prompt: nat)
    ensures !SparesClaimsOf(Setting(prompt, {"out/x", "/work/out/y"}), "out/x")
  {
    TwoSpellingsLoseClaims(prompt, "out/x", "/work/out/y");
  }

  // ---------------------------------------------------------------- runs that lose a claim

  // They lose the directory "a", made at 0 and claimed, to sweep 0.

  function Start(): State {
    Initial(map[], {}, 0)
  }

  function With(now: int, claim: ClaimPc, sweep: Option<SweepPc>): State {
    State(now, {"a"}, map["a" := 0], map["a" := claim], if sweep.Some? then map[0 := sweep.value] else map[], {})
  }

  lemma Stepped(how: Setting, acts: seq<Action>, s: State, a: Action, t: State) returns (more: seq<Action>)
    requires Replay(Start(), how, acts) == Some(s) && Enabled(s, how, a) && After(s, how, a) == t
    ensures Replay(Start(), how, more) == Some(t)
  {
    more := acts + [a];
    assert more[..|acts|] == acts;
  }

  lemma Reset<K, T>(k: K, a: T, b: T)
    ensures map[k := a][k := b] == map[k := b]
    ensures (map[])[k := b] == map[k := b]
  {
  }

  lemma Claims(how: Setting, output: string) returns (acts: seq<Action>)
    requires output in how.outputs
    ensures Replay(Start(), how, acts) == Some(With(0, Made(output, 0), None))
  {
    assert {} + {"a"} == {"a"};
    acts := Stepped(how, [], Start(), Mkdir("a", output), With(0, Made(output, 0), None));
  }

  // The sweep asks the table before the claim is in it, and the age too late.
  lemma RaceRun(how: Setting, o: string) returns (acts: seq<Action>)
    requires STALE_AFTER <= 2 * how.prompt && o in how.outputs
    ensures !Spared(how, o, map[], {}, 0, acts)
  {
    hide Dir, Join, MkdirTempPath;
    var half := STALE_AFTER / 2;
    acts := Claims(how, o);
    acts := Stepped(how, acts, With(0, Made(o, 0), None), Tick(half), With(half, Made(o, 0), None));
    acts := Stepped(how, acts, With(half, Made(o, 0), None), List(0, "a", o), With(half, Made(o, 0), Some(Listed("a", o))));
    Reset(0, Listed("a", o), NotLive("a", half));
    acts := Stepped(how, acts, With(half, Made(o, 0), Some(Listed("a", o))), Load(0),
      With(half, Made(o, 0), Some(NotLive("a", half))));
    Reset("a", Made(o, 0), InUse(o, 0));
    acts := Stepped(how, acts, With(half, Made(o, 0), Some(NotLive("a", half))), Store("a"),
      With(half, InUse(o, 0), Some(NotLive("a", half))));
    acts := Stepped(how, acts, With(half, InUse(o, 0), Some(NotLive("a", half))), Tick(STALE_AFTER),
      With(STALE_AFTER, InUse(o, 0), Some(NotLive("a", half))));
    acts := FoundOld(how, o, acts, half);
  }

  // The sweep looks under another path, so an old enough claim counts as abandoned.
  lemma LongDownloadRun(how: Setting, o: string, p: string) returns (acts: seq<Action>)
    requires o in how.outputs && p in how.outputs && (Dir(o) == "." || Dir(p) != Dir(o))
    ensures !Spared(how, o, map[], {}, 0, acts)
  {
    SweepsSpellAlike(o, "a", p, "a");
    hide Dir, Join, MkdirTempPath;
    acts := Claims(how, o);
    Reset("a", Made(o, 0), InUse(o, 0));
    acts := Stepped(how, acts, With(0, Made(o, 0), None), Store("a"), With(0, InUse(o, 0), None));
    acts := Stepped(how, acts, With(0, InUse(o, 0), None), Tick(STALE_AFTER), With(STALE_AFTER, InUse(o, 0), None));
    acts := Stepped(how, acts, With(STALE_AFTER, InUse(o, 0), None), List(0, "a", p),
      With(STALE_AFTER, InUse(o, 0), Some(Listed("a", p))));
    Reset(0, Listed("a", p), NotLive("a", STALE_AFTER));
    acts := Stepped(how, acts, With(STALE_AFTER, InUse(o, 0), Some(Listed("a", p))), Load(0),
      With(STALE_AFTER, InUse(o, 0), Some(NotLive("a", STALE_AFTER))));
    acts := FoundOld(how, o, acts, STALE_AFTER);
  }

  lemma FoundOld(how: Setting, o: string, acts: seq<Action>, at: int) returns (more: seq<Action>)
    requires Replay(Start(), how, acts) == Some(With(STALE_AFTER, InUse(o, 0), Some(NotLive("a", at))))
    ensures !Spared(how, o, map[], {}, 0, more)
  {
    Reset(0, NotLive("a", at), Old("a"));
    more := Stepped(how, acts, With(STALE_AFTER, InUse(o, 0), Some(NotLive("a", at))), Age(0),
      With(STALE_AFTER, InUse(o, 0), Some(Old("a"))));
    more := Stepped(how, more, With(STALE_AFTER, InUse(o, 0), Some(Old("a"))), Remove(0),
      After(With(STALE_AFTER, InUse(o, 0), Some(Old("a"))), how, Remove(0)));
    assert Claimed(With(STALE_AFTER, InUse(o, 0), Some(Old("a"))), "a");
  }

  // ---------------------------------------------------------------- what a sweep removes

  // Some earlier action of the run was this sweep reading that age and finding it old.
  ghost predicate FoundStale(start: State, how: Setting, acts: seq<Action>, w: nat, n: Name) {
    exists i :: 0 <= i < |acts| && acts[i] == Age(w) && SawOld(Replay(start, how, acts[..i]), w, n)
  }

  predicate SawOld(at: Option<State>, w: nat, n: Name) {
    && at.Some? && w in at.value.sweeps && at.value.sweeps[w].NotLive? && at.value.sweeps[w].name == n
    && n in at.value.modified && at.value.now - at.value.modified[n] >= STALE_AFTER
  }

  lemma FoundStaleBefore(start: State, how: Setting, acts: seq<Action>, a: Action, w: nat, n: Name)
    requires FoundStale(start, how, acts, w, n)
    ensures FoundStale(start, how, acts + [a], w, n)
  {
    var i :| 0 <= i < |acts| && acts[i] == Age(w) && SawOld(Replay(start, how, acts[..i]), w, n);
    assert (acts + [a])[i] == Age(w) && (acts + [a])[..i] == acts[..i];
  }

  lemma OldComesFromAge(s: State, how: Setting, a: Action, w: nat)
    requires Enabled(s, how, a) && w in After(s, how, a).sweeps && After(s, how, a).sweeps[w].Old?
    ensures var seen := After(s, how, a).sweeps[w];
      if a == Age(w) then SawOld(Some(s), w, seen.name) else w in s.sweeps && s.sweeps[w] == seen
  {
    hide InTable;
  }

  lemma {:induction false} OldWasFoundStale(start: State, how: Setting, acts: seq<Action>, w: nat)
    requires start.sweeps == map[] && Replay(start, how, acts).Some?
    requires var s := Replay(start, how, acts).value; w in s.sweeps && s.sweeps[w].Old?
    ensures FoundStale(start, how, acts, w, Replay(start, how, acts).value.sweeps[w].name)
  {
    var init, last := acts[..|acts| - 1], acts[|acts| - 1];
    var before := Replay(start, how, init).value;
    var n := Replay(start, how, acts).value.sweeps[w].name;
    OldComesFromAge(before, how, last, w);
    hide Enabled, After, SawOld;
    if last == Age(w) {
      assert acts[|acts| - 1] == Age(w) && SawOld(Replay(start, how, acts[..|acts| - 1]), w, n);
    } else {
      OldWasFoundStale(start, how, init, w);
      FoundStaleBefore(start, how, init, last, w, n);
      assert acts == init + [last];
    }
  }

  lemma OldIsUnclaimed(s: State, how: Setting, output: string, w: nat)
    requires SparedSoFar(s, how, output) && w in s.sweeps && s.sweeps[w].Old?
    ensures !ClaimedFor(s, s.sweeps[w].name, output)
  {
    assert SweepSpares(s, how, output, w);
  }

  // Over every run, a directory goes only when its own download releases it, or when a sweep
  // removes it that had found it stale; and then there is no claim on it for a safe output.
  lemma OnlyTheStaleGo(left: map<Name, int>, used: set<Name>, now: int, how: Setting, acts: seq<Action>, a: Action, n: Name)
    requires Leftovers(left, used)
    requires Replay(Initial(left, used, now), how, acts).Some?
    requires var s := Replay(Initial(left, used, now), how, acts).value;
      Enabled(s, how, a) && n in s.modified && n !in After(s, how, a).modified
    ensures var start := Initial(left, used, now);
      var s := Replay(start, how, acts).value;
      || (a == Release(n) && n in s.claims && s.claims[n].InUse?)
      || (a.Remove? && FoundStale(start, how, acts, a.sweep, n)
          && (Claimed(s, n) ==> !Safe(how, s.claims[n].output)))
  {
    var start := Initial(left, used, now);
    var s := Replay(start, how, acts).value;
    if a.Remove? {
      OldWasFoundStale(start, how, acts, a.sweep);
      if Claimed(s, n) && Safe(how, s.claims[n].output) {
        SafeRunsSpare(left, used, now, how, s.claims[n].output, acts);
        OldIsUnclaimed(s, how, s.claims[n].output, a.sweep);
      }
    }
  }

  // The directory of a claim that was released is gone, and that of one that was not is there
  // unless a sweep has taken it.
  predicate ClaimShows(s: State, n: Name) {
    n in s.claims ==>
      if s.claims[n].Released? then n !in s.modified else n in s.modified || s.claims[n].output in s.lost
  }

  lemma ClaimShowsStep(s: State, how: Setting, a: Action, n: Name)
    requires Inv(s, how) && Enabled(s, how, a) && ClaimShows(s, n)
    ensures ClaimShows(After(s, how, a), n)
  {
    hide InTable;
    assert n in s.claims ==> ClaimHolds(s, how, n);
  }

  // Over every run, a download's release removes its directory for good, and until then the
  // directory is there, unless a sweep has removed one of that output's.
  lemma {:induction false} ReleasesRemove(left: map<Name, int>, used: set<Name>, now: int, how: Setting, acts: seq<Action>, n: Name)
    requires Leftovers(left, used) && Replay(Initial(left, used, now), how, acts).Some?
    ensures var s := Replay(Initial(left, used, now), how, acts).value;
      n in s.claims ==>
        && (s.claims[n].Released? ==> n !in s.modified)
        && (!s.claims[n].Released? && s.claims[n].output !in s.lost ==> n in s.modified)
    ensures ClaimShows(Replay(Initial(left, used, now), how, acts).value, n)
  {
    if acts != [] {
      var init, last := acts[..|acts| - 1], acts[|acts| - 1];
      ReleasesRemove(left, used, now, how, init, n);
      RunsKeepInv(left, used, now, how, init);
      ClaimShowsStep(Replay(Initial(left, used, now), how, init).value, how, last, n);
      hide Enabled, After, Inv;
    }
  }

  // A sweep is at a stale directory nobody ever claimed, or the directory is gone.
  predicate Doomed(s: State, w: nat, n: Name) {
    && n in s.used && Plain(n) && n !in s.claims
    && (n in s.modified ==>
          && w in s.sweeps && !s.sweeps[w].Moved? && s.sweeps[w].name == n
          && (s.sweeps[w].Old? || s.now - s.modified[n] >= STALE_AFTER))
  }

  lemma DoomedStays(s: State, how: Setting, a: Action, w: nat, n: Name)
    requires Inv(s, how) && Enabled(s, how, a) && Doomed(s, w, n) && a != Touch(n)
    ensures Doomed(After(s, how, a), w, n)
  {
    if a == Load(w) && n in s.modified {
      TableFinds(s, how, n, s.sweeps[w].output);
    }
    hide InTable;
  }

  // Where a sequence of actions leads on from a state.
  function Onwards(s: State, how: Setting, acts: seq<Action>): Option<State>
    decreases |acts|
  {
    if acts == [] then Some(s)
    else if Enabled(s, how, acts[0]) then Onwards(After(s, how, acts[0]), how, acts[1..])
    else None
  }

  lemma {:induction false} DoomedToTheEnd(s: State, how: Setting, acts: seq<Action>, w: nat, n: Name)
    requires Inv(s, how) && Doomed(s, w, n) && Onwards(s, how, acts).Some? && Touch(n) !in acts
    ensures Doomed(Onwards(s, how, acts).value, w, n)
    decreases |acts|
  {
    if acts != [] {
      assert acts[0] in acts;
      DoomedStays(s, how, acts[0], w, n);
      StepKeepsInv(s, how, acts[0]);
      DoomedToTheEnd(After(s, how, acts[0]), how, acts[1..], w, n);
    }
  }

  // In every run and however others interleave with it, once a sweep that listed a stale
  // leftover has moved on, the leftover is gone, unless somebody changed it meanwhile. Until
  // then the sweep can go on.
  lemma LeftoversGo(left: map<Name, int>, used: set<Name>, now: int, how: Setting, before: seq<Action>, s: State,
    w: nat, n: Name, o: string, acts: seq<Action>)
    requires Leftovers(left, used) && Replay(Initial(left, used, now), how, before) == Some(s)
    requires n !in s.claims && n in s.modified && s.now - s.modified[n] >= STALE_AFTER
    requires Enabled(s, how, List(w, n, o)) && Onwards(After(s, how, List(w, n, o)), how, acts).Some? && Touch(n) !in acts
    ensures var t := Onwards(After(s, how, List(w, n, o)), how, acts).value;
      && w in t.sweeps
      && (t.sweeps[w].Moved? ==> n !in t.modified)
      && (n in t.modified ==> Enabled(t, how, Load(w)) || Enabled(t, how, Age(w)) || Enabled(t, how, Remove(w)))
  {
    RunsKeepInv(left, used, now, how, before);
    StepKeepsInv(s, how, List(w, n, o));
    DoomedToTheEnd(After(s, how, List(w, n, o)), how, acts, w, n);
    SweepsStay(After(s, how, List(w, n, o)), how, acts, w);
  }

  // Nobody waits for anybody: a sweep goes on whatever downloads do, and a download whatever
  // sweeps do.
  lemma NobodyIsHeldUp(s: State, how: Setting, n: Name, o: string, w: nat)
    requires Plain(n) && o in how.outputs
    ensures n !in s.used ==> Enabled(s, how, Mkdir(n, o)) && Claimed(After(s, how, Mkdir(n, o)), n)
    ensures Claimed(s, n) && s.claims[n].Made? ==> Enabled(s, how, Store(n)) && After(s, how, Store(n)).claims[n].InUse?
    ensures Claimed(s, n) && s.claims[n].InUse? ==> Enabled(s, how, Release(n)) && !Claimed(After(s, how, Release(n)), n)
    ensures n in s.modified ==> Enabled(s, how, Touch(n)) && (w !in s.sweeps ==> Enabled(s, how, List(w, n, o)))
    ensures w in s.sweeps && !s.sweeps[w].Moved? ==>
      Enabled(s, how, Load(w)) || Enabled(s, how, Age(w)) || Enabled(s, how, Remove(w))
  {
    hide InTable;
  }

  // A directory changed at some time is never again taken for older than that.
  lemma {:induction false} TouchingRenews(s: State, how: Setting, since: int, acts: seq<Action>, n: Name)
    requires since <= s.now && (n in s.modified ==> since <= s.modified[n]) && Onwards(s, how, acts).Some?
    ensures var t := Onwards(s, how, acts).value;
      since <= t.now && (n in t.modified ==> since <= t.modified[n])
    decreases |acts|
  {
    if acts != [] {
      TouchingRenews(After(s, how, acts[0]), how, since, acts[1..], n);
    }
  }

  // So a sweep that looks at its age within the hour moves on, wherever it stood before.
  lemma TouchedDirectoriesStay(s: State, how: Setting, acts: seq<Action>, n: Name, w: nat)
    requires Enabled(s, how, Touch(n)) && Onwards(After(s, how, Touch(n)), how, acts).Some?
    requires var t := Onwards(After(s, how, Touch(n)), how, acts).value;
      Enabled(t, how, Age(w)) && t.sweeps[w].name == n && t.now - s.now < STALE_AFTER
    ensures After(Onwards(After(s, how, Touch(n)), how, acts).value, how, Age(w)).sweeps[w].Moved?
  {
    TouchingRenews(After(s, how, Touch(n)), how, s.now, acts, n);
  }

  lemma {:induction false} SweepsStay(s: State, how: Setting, acts: seq<Action>, w: nat)
    requires w in s.sweeps && Onwards(s, how, acts).Some?
    ensures w in Onwards(s, how, acts).value.sweeps
    decreases |acts|
  {
    if acts != [] {
      SweepsStay(After(s, how, acts[0]), how, acts[1..], w);
    }
  }
}
