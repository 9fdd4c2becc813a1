/**
 The per-path locks of client/output.go.

 `LockTable` is what the mutex guards, with its two critical sections. A lock itself is a
 channel of capacity one, a gate: taking it is a send, giving it back a receive. Entries
 are counted, deleted at zero and made again later with another gate.
 */
module LockTable {
  import opened Wrappers
  import opened Paths

  type Gate = nat

  // `made` counts the gates made so far, so it names the next one.
  datatype Table = Table(held: map<string, Gate>, waiting: map<string, int>, made: Gate)

  function Waiting(t: Table, key: string): int {
    if key in t.waiting then t.waiting[key] else 0
  }

  function Registered(t: Table, key: string): Table {
    var gated := if key in t.held then t else t.(held := t.held[key := t.made], made := t.made + 1);
    gated.(waiting := gated.waiting[key := Waiting(gated, key) + 1])
  }

  function Dropped(t: Table, key: string): Table {
    var left := t.(waiting := t.waiting[key := Waiting(t, key) - 1]);
    if left.waiting[key] == 0
    then left.(waiting := left.waiting - {key}, held := left.held - {key})
    else left
  }

  class PathLocks {
    var held: map<string, Gate>
    var waiting: map<string, int>
    var made: Gate

    constructor ()
      ensures Abstract() == Table(map[], map[], 0)
    {
      held, waiting, made := map[], map[], 0;
    }

    ghost function Abstract(): Table
      reads this
    {
      Table(held, waiting, made)
    }

    method Register(path: string) returns (key: string, gate: Gate)
      modifies this
      ensures key == Clean(path)
      ensures Abstract() == Registered(old(Abstract()), key)
      ensures key in held && held[key] == gate
    {
      key := Clean(path);
      if key !in held {
        held := held[key := made];
        made := made + 1;
      }
      gate := held[key];
      waiting := waiting[key := (if key in waiting then waiting[key] else 0) + 1];
    }

    method Drop(key: string)
      modifies this
      ensures Abstract() == Dropped(old(Abstract()), key)
    {
      waiting := waiting[key := (if key in waiting then waiting[key] else 0) - 1];
      if waiting[key] == 0 {
        waiting := waiting - {key};
        held := held - {key};
      }
    }
  }
}

/** Every interleaving of callers of `pathLocks.lock` and of the functions it returns. */
module PathLocks {
  import opened Wrappers
  import opened Paths
  import opened Counting
  import opened LockTable

  type Call = nat

  // A `Selecting` caller is registered and has yet to look at its gate; one that finds it full
  // parks in the `select`. `Leaving` has given the gate back and `GivingUp` never got it; both
  // have yet to drop their use of the entry.
  datatype Pc =
    | Selecting(key: string, gate: Gate)
    | Parked(key: string, gate: Gate, ticket: nat)
    | Holding(key: string, gate: Gate)
    | Leaving(key: string)
    | GivingUp(key: string)
    | Gone(held: bool)

  // `tokens` holds, for each full gate, the call whose send filled it. A gate given back while
  // callers are parked at it goes straight to the one that parked first, by `tickets`, and stays
  // full; that caller holds the lock before it wakes.
  datatype State = State(
    table: Table,
    tokens: map<Gate, Call>,
    calls: map<Call, Pc>,
    done: set<Call>,         // calls whose context has ended
    tickets: nat)

  datatype Action =
    | Register(call: Call, path: string)
    | Deadline(call: Call)
    | Grant(call: Call)
    | Park(call: Call)
    | Wake(call: Call)
    | Expire(call: Call)
    | Unlock(call: Call, heir: Option<Call>)
    | Drop(call: Call)

  function Initial(): State {
    State(Table(map[], map[], 0), map[], map[], {}, 0)
  }

  predicate AtGate(pc: Pc) {
    pc.Selecting? || pc.Parked? || pc.Holding?
  }

  predicate HasToken(s: State, c: Call, gate: Gate) {
    gate in s.tokens && s.tokens[gate] == c
  }

  // Holding the lock, or handed it and about to wake.
  predicate HasLock(s: State, c: Call) {
    c in s.calls && (s.calls[c].Holding? || (s.calls[c].Parked? && HasToken(s, c, s.calls[c].gate)))
  }

  // Parked at the gate, with a context that has not ended: one that has wakes the caller, and
  // takes it out of the line.
  predicate InLine(s: State, c: Call, gate: Gate) {
    c in s.calls && s.calls[c].Parked? && s.calls[c].gate == gate && c !in s.done
  }

  predicate NotBefore(s: State, first: Call, c: Call) {
    && first in s.calls && s.calls[first].Parked? && c in s.calls && s.calls[c].Parked?
    && s.calls[first].ticket <= s.calls[c].ticket
  }

  predicate TakesOver(s: State, gate: Gate, heir: Option<Call>) {
    match heir
    case None => forall c :: c in s.calls ==> !InLine(s, c, gate)
    case Some(h) =>
      && InLine(s, h, gate)
      && forall c :: c in s.calls && InLine(s, c, gate) ==> NotBefore(s, h, c)
  }

  predicate Enabled(s: State, a: Action) {
    match a
    case Register(c, path) => c !in s.calls
    case Deadline(c) => true
    case Grant(c) => c in s.calls && s.calls[c].Selecting? && s.calls[c].gate !in s.tokens
    case Park(c) => c in s.calls && s.calls[c].Selecting? && s.calls[c].gate in s.tokens && c !in s.done
    case Wake(c) => c in s.calls && s.calls[c].Parked? && HasToken(s, c, s.calls[c].gate)
    case Expire(c) =>
      && c in s.calls && c in s.done
      && (s.calls[c].Selecting? || (s.calls[c].Parked? && !HasToken(s, c, s.calls[c].gate)))
    case Unlock(c, heir) =>
      && c in s.calls && s.calls[c].Holding? && HasToken(s, c, s.calls[c].gate)
      && TakesOver(s, s.calls[c].gate, heir)
    case Drop(c) => c in s.calls && (s.calls[c].Leaving? || s.calls[c].GivingUp?)
  }

  function After(s: State, a: Action): State
    requires Enabled(s, a)
  {
    match a
    case Register(c, path) =>
      var key := Clean(path);
      var table := Registered(s.table, key);
      s.(table := table, calls := s.calls[c := Selecting(key, table.held[key])])
    case Deadline(c) => s.(done := s.done + {c})
    case Grant(c) =>
      var pc := s.calls[c];
      s.(tokens := s.tokens[pc.gate := c], calls := s.calls[c := Holding(pc.key, pc.gate)])
    case Park(c) =>
      var pc := s.calls[c];
      s.(calls := s.calls[c := Parked(pc.key, pc.gate, s.tickets)], tickets := s.tickets + 1)
    case Wake(c) => s.(calls := s.calls[c := Holding(s.calls[c].key, s.calls[c].gate)])
    case Expire(c) => s.(calls := s.calls[c := GivingUp(s.calls[c].key)])
    case Unlock(c, heir) =>
      var pc := s.calls[c];
      var tokens := if heir.Some? then s.tokens[pc.gate := heir.value] else s.tokens - {pc.gate};
      s.(tokens := tokens, calls := s.calls[c := Leaving(pc.key)])
    case Drop(c) =>
      var pc := s.calls[c];
      s.(table := Dropped(s.table, pc.key), calls := s.calls[c := Gone(pc.Leaving?)])
  }

  // A step touches nobody's place but its own caller's.
  lemma OnlyTheCallerMoves(s: State, a: Action)
    requires Enabled(s, a)
    ensures a.Deadline? ==> After(s, a).calls == s.calls && After(s, a).tokens == s.tokens && After(s, a).done == s.done + {a.call}
    ensures !a.Deadline? ==>
      && a.call in After(s, a).calls && After(s, a).calls == s.calls[a.call := After(s, a).calls[a.call]]
      && After(s, a).done == s.done
    ensures match a
      case Register(c, path) => c !in s.calls && After(s, a).calls[c].Selecting? && After(s, a).calls[c].key == Clean(path)
      case Deadline(c) => true
      case Grant(c) => c in s.calls && s.calls[c].Selecting? && After(s, a).calls[c] == Holding(s.calls[c].key, s.calls[c].gate)
      case Park(c) => c in s.calls && s.calls[c].Selecting? && After(s, a).calls[c] == Parked(s.calls[c].key, s.calls[c].gate, s.tickets)
      case Wake(c) => c in s.calls && s.calls[c].Parked? && After(s, a).calls[c] == Holding(s.calls[c].key, s.calls[c].gate)
      case Expire(c) => c in s.calls && c in s.done && (s.calls[c].Selecting? || s.calls[c].Parked?) && After(s, a).calls[c].GivingUp?
      case Unlock(c, _) => c in s.calls && s.calls[c].Holding? && After(s, a).calls[c].Leaving?
      case Drop(c) => c in s.calls && (s.calls[c].Leaving? || s.calls[c].GivingUp?) && After(s, a).calls[c] == Gone(s.calls[c].Leaving?)
  {
  }

  // ---------------------------------------------------------------- invariant

  predicate Uses(pc: Pc, key: string) {
    !pc.Gone? && pc.key == key
  }

  ghost function Users(calls: map<Call, Pc>, key: string): nat {
    Count(calls, (pc: Pc) => Uses(pc, key))
  }

  // The table counts every user of every key, and keeps an entry exactly while there is one.
  ghost predicate CountInv(s: State) {
    && s.table.held.Keys == s.table.waiting.Keys
    && (forall key :: KeyCounted(s, key))
  }

  ghost predicate KeyCounted(s: State, key: string) {
    && (key in s.table.waiting <==> Users(s.calls, key) > 0)
    && (key in s.table.waiting ==> s.table.waiting[key] == Users(s.calls, key))
  }

  // Whoever is at a gate uses the one in the table now.
  ghost predicate GateInv(s: State) {
    && (forall c :: c in s.calls && AtGate(s.calls[c]) ==>
          s.calls[c].key in s.table.held && s.table.held[s.calls[c].key] == s.calls[c].gate)
    && (forall k :: k in s.table.held ==> s.table.held[k] < s.table.made)
    && (forall k, l :: k in s.table.held && l in s.table.held && s.table.held[k] == s.table.held[l] ==> k == l)
  }

  // A full gate is somebody's who is at it, and nobody waits in line at one that is not full.
  ghost predicate TokenInv(s: State) {
    && (forall g :: g in s.tokens ==> HasLock(s, s.tokens[g]) && s.calls[s.tokens[g]].gate == g)
    && (forall c :: c in s.calls && s.calls[c].Holding? ==> HasToken(s, c, s.calls[c].gate))
    && (forall c, g :: InLine(s, c, g) ==> g in s.tokens)
  }

  ghost predicate Inv(s: State) {
    CountInv(s) && GateInv(s) && TokenInv(s)
  }

  lemma UsersUpdate(calls: map<Call, Pc>, c: Call, pc: Pc, key: string)
    ensures Users(calls[c := pc], key) ==
      Users(calls, key) + One(Uses(pc, key)) - One(c in calls && Uses(calls[c], key))
  {
    CountUpdate(calls, c, pc, (pc: Pc) => Uses(pc, key));
  }

  lemma UserIsCounted(s: State, c: Call)
    requires c in s.calls && !s.calls[c].Gone?
    ensures Users(s.calls, s.calls[c].key) > 0
  {
    var key := s.calls[c].key;
    CountAtLeastOne(s.calls, c, (pc: Pc) => Uses(pc, key));
  }

  lemma KeyStaysCounted(s: State, a: Action, key: string)
    requires CountInv(s) && Enabled(s, a)
    ensures KeyCounted(After(s, a), key)
    ensures key in After(s, a).table.held <==> key in After(s, a).table.waiting
  {
    var t := After(s, a);
    assert KeyCounted(s, key);
    if !a.Deadline? {
      UsersUpdate(s.calls, a.call, t.calls[a.call], key);
    }
    if a.Drop? {
      assert KeyCounted(s, s.calls[a.call].key);
      UserIsCounted(s, a.call);
    }
  }

  lemma CountStep(s: State, a: Action)
    requires CountInv(s) && Enabled(s, a)
    ensures CountInv(After(s, a))
  {
    var t := After(s, a);
    forall key ensures KeyCounted(t, key) && (key in t.table.held <==> key in t.table.waiting) {
      KeyStaysCounted(s, a, key);
    }
  }

  // A gate somebody uses is still in the table after a drop.
  lemma UsedGateStays(s: State, c: Call, d: Call)
    requires Inv(s) && Enabled(s, Drop(c))
    requires d in s.calls && d != c && AtGate(s.calls[d])
    ensures var t, key := After(s, Drop(c)), s.calls[d].key;
      key in t.table.held && t.table.held[key] == s.calls[d].gate
  {
    var t := After(s, Drop(c));
    CountStep(s, Drop(c));
    UserIsCounted(t, d);
    assert KeyCounted(t, t.calls[d].key);
  }

  lemma DropKeepsGates(s: State, c: Call)
    requires Inv(s) && Enabled(s, Drop(c))
    ensures GateInv(After(s, Drop(c)))
  {
    var t := After(s, Drop(c));
    forall d | d in t.calls && AtGate(t.calls[d])
      ensures t.calls[d].key in t.table.held && t.table.held[t.calls[d].key] == t.calls[d].gate
    {
      UsedGateStays(s, c, d);
    }
    hide CountInv, TokenInv, Uses;
    assert forall k :: k in t.table.held ==> k in s.table.held && t.table.held[k] == s.table.held[k];
  }

  lemma RegisterKeepsGates(s: State, c: Call, path: string)
    requires GateInv(s) && Enabled(s, Register(c, path))
    ensures GateInv(After(s, Register(c, path)))
  {
    hide Clean;
  }

  lemma GateStep(s: State, a: Action)
    requires Inv(s) && Enabled(s, a)
    ensures GateInv(After(s, a))
  {
    match a
    case Register(c, path) => RegisterKeepsGates(s, c, path);
    case Drop(c) => DropKeepsGates(s, c);
    case _ =>
      OnlyTheCallerMoves(s, a);
      hide CountInv, TokenInv, Registered, Dropped;
      assert After(s, a).table == s.table;
  }

  // A place in line is kept until it is given up, and taken at a full gate.
  lemma LineStep(s: State, a: Action, d: Call, g: Gate)
    requires Enabled(s, a) && InLine(After(s, a), d, g)
    ensures InLine(s, d, g) || (a == Park(d) && g in s.tokens)
    ensures a.Unlock? && a.heir.None? ==> g != s.calls[a.call].gate
  {
  }

  lemma GrantKeepsTokens(s: State, c: Call)
    requires TokenInv(s) && Enabled(s, Grant(c))
    ensures TokenInv(After(s, Grant(c)))
  {
    var t := After(s, Grant(c));
    forall d, g | InLine(t, d, g) ensures g in t.tokens {
      LineStep(s, Grant(c), d, g);
    }
  }

  lemma UnlockKeepsTokens(s: State, c: Call, heir: Option<Call>)
    requires TokenInv(s) && Enabled(s, Unlock(c, heir))
    ensures TokenInv(After(s, Unlock(c, heir)))
  {
    var t := After(s, Unlock(c, heir));
    forall g | g in t.tokens ensures HasLock(t, t.tokens[g]) && t.calls[t.tokens[g]].gate == g {
      assert g in s.tokens && HasLock(s, s.tokens[g]);
    }
    forall d, g | InLine(t, d, g) ensures g in t.tokens {
      LineStep(s, Unlock(c, heir), d, g);
    }
  }

  lemma ParkKeepsTokens(s: State, c: Call)
    requires TokenInv(s) && Enabled(s, Park(c))
    ensures TokenInv(After(s, Park(c)))
  {
    var t := After(s, Park(c));
    forall d, g | InLine(t, d, g) ensures g in t.tokens {
      LineStep(s, Park(c), d, g);
    }
  }

  lemma WakeKeepsTokens(s: State, c: Call)
    requires TokenInv(s) && Enabled(s, Wake(c))
    ensures TokenInv(After(s, Wake(c)))
  {
    var t := After(s, Wake(c));
    forall d, g | InLine(t, d, g) ensures g in t.tokens {
      LineStep(s, Wake(c), d, g);
    }
  }

  lemma ExpireKeepsTokens(s: State, c: Call)
    requires TokenInv(s) && Enabled(s, Expire(c))
    ensures TokenInv(After(s, Expire(c)))
  {
    var t := After(s, Expire(c));
    forall d, g | InLine(t, d, g) ensures g in t.tokens {
      LineStep(s, Expire(c), d, g);
    }
  }

  lemma TokenStep(s: State, a: Action)
    requires TokenInv(s) && Enabled(s, a)
    ensures TokenInv(After(s, a))
  {
    match a
    case Grant(c) => GrantKeepsTokens(s, c);
    case Park(c) => ParkKeepsTokens(s, c);
    case Wake(c) => WakeKeepsTokens(s, c);
    case Expire(c) => ExpireKeepsTokens(s, c);
    case Unlock(c, heir) => UnlockKeepsTokens(s, c, heir);
    case _ =>
      OnlyTheCallerMoves(s, a);
      hide Registered, Dropped;
      assert After(s, a).tokens == s.tokens;
      forall d, g | InLine(After(s, a), d, g) ensures g in s.tokens {
        LineStep(s, a, d, g);
      }
  }

  // ---------------------------------------------------------------- whole runs

  function Replay(acts: seq<Action>): Option<State> {
    if acts == [] then Some(Initial())
    else
      var before := Replay(acts[..|acts| - 1]);
      var last := acts[|acts| - 1];
      if before.Some? && Enabled(before.value, last) then Some(After(before.value, last)) else None
  }

  ghost predicate Reachable(s: State) {
    exists acts :: Replay(acts) == Some(s)
  }

  lemma StepKeepsInv(s: State, a: Action)
    requires Inv(s) && Enabled(s, a)
    ensures Inv(After(s, a))
  {
    CountStep(s, a);
    GateStep(s, a);
    TokenStep(s, a);
  }

  lemma InitialInv()
    ensures Inv(Initial())
  {
    forall key ensures KeyCounted(Initial(), key) {
      assert Those(Initial().calls, (pc: Pc) => Uses(pc, key)) == {};
    }
  }

  lemma {:induction false} RunsKeepInv(acts: seq<Action>)
    ensures Replay(acts).Some? ==> Inv(Replay(acts).value)
  {
    if acts == [] {
      InitialInv();
    } else {
      RunsKeepInv(acts[..|acts| - 1]);
      if Replay(acts).Some? {
        StepKeepsInv(Replay(acts[..|acts| - 1]).value, acts[|acts| - 1]);
      }
    }
  }

  lemma ReachableInv(s: State)
    requires Reachable(s)
    ensures Inv(s)
  {
    var acts :| Replay(acts) == Some(s);
    RunsKeepInv(acts);
  }

  // ---------------------------------------------------------------- who has a lock

  lemma OneHolderPerKey(s: State, c: Call, d: Call)
    requires GateInv(s) && TokenInv(s) && HasLock(s, c) && HasLock(s, d)
    requires s.calls[c].key == s.calls[d].key
    ensures c == d
  {
  }

  lemma {:induction false} FirstInLine(s: State, gate: Gate, some: set<Call>) returns (heir: Option<Call>)
    requires forall c :: c in some ==> c in s.calls && InLine(s, c, gate)
    ensures heir.None? ==> some == {}
    ensures heir.Some? ==> heir.value in some && forall c :: c in some ==> NotBefore(s, heir.value, c)
  {
    heir := None;
    if c :| c in some {
      var first := FirstInLine(s, gate, some - {c});
      heir := if first.None? || s.calls[c].ticket < s.calls[first.value].ticket then Some(c) else first;
      forall d | d in some ensures NotBefore(s, heir.value, d) {
        assert InLine(s, d, gate) && InLine(s, c, gate);
        if d != c {
          assert d in some - {c};
          assert NotBefore(s, first.value, d);
        }
      }
    }
  }

  lemma UnlockIsPossible(s: State, c: Call) returns (heir: Option<Call>)
    requires TokenInv(s) && c in s.calls && s.calls[c].Holding?
    ensures Enabled(s, Unlock(c, heir))
  {
    var gate := s.calls[c].gate;
    var line := set d | d in s.calls && InLine(s, d, gate);
    heir := FirstInLine(s, gate, line);
    assert forall d :: d in s.calls && InLine(s, d, gate) ==> d in line;
  }

  // ---------------------------------------------------------------- every run ends

  function Weight(pc: Pc): nat {
    match pc
    case Selecting(_, _) => 4
    case Parked(_, _, _) => 3
    case Holding(_, _) => 2
    case Gone(_) => 0
    case _ => 1
  }

  // A bound on the steps left to the callers there are.
  ghost function StepsLeft(calls: map<Call, Pc>): nat {
    4 * Count(calls, (pc: Pc) => pc.Selecting?) + 3 * Count(calls, (pc: Pc) => pc.Parked?)
    + 2 * Count(calls, (pc: Pc) => pc.Holding?) + Count(calls, (pc: Pc) => pc.Leaving? || pc.GivingUp?)
  }

  lemma StepsLeftUpdate(calls: map<Call, Pc>, c: Call, pc: Pc)
    ensures StepsLeft(calls[c := pc]) == StepsLeft(calls) + Weight(pc) - (if c in calls then Weight(calls[c]) else 0)
  {
    CountUpdate(calls, c, pc, (pc: Pc) => pc.Selecting?);
    CountUpdate(calls, c, pc, (pc: Pc) => pc.Parked?);
    CountUpdate(calls, c, pc, (pc: Pc) => pc.Holding?);
    CountUpdate(calls, c, pc, (pc: Pc) => pc.Leaving? || pc.GivingUp?);
    hide Count;
  }

  // What comes from outside: new callers, and contexts that end.
  predicate Arrival(a: Action) {
    a.Register? || a.Deadline?
  }

  // Every step but those brings the callers there are nearer to being done.
  lemma EveryStepCounts(s: State, a: Action)
    requires Enabled(s, a)
    ensures StepsLeft(After(s, a).calls) <= StepsLeft(s.calls) + 4
    ensures !Arrival(a) ==> StepsLeft(After(s, a).calls) < StepsLeft(s.calls)
  {
    OnlyTheCallerMoves(s, a);
    hide StepsLeft;
    if !a.Deadline? {
      StepsLeftUpdate(s.calls, a.call, After(s, a).calls[a.call]);
    }
  }

  // Whoever has a lock can move.
  lemma HolderMoves(s: State, c: Call) returns (a: Action)
    requires TokenInv(s) && HasLock(s, c)
    ensures Enabled(s, a) && a.call == c && (a.Wake? || a.Unlock?)
    ensures a.Wake? <==> s.calls[c].Parked?
  {
    if s.calls[c].Parked? {
      a := Wake(c);
    } else {
      var heir := UnlockIsPossible(s, c);
      a := Unlock(c, heir);
    }
  }

  // A caller that is not done can move, or whoever has its lock can.
  lemma SomebodyMoves(s: State, c: Call) returns (a: Action)
    requires Inv(s) && c in s.calls && !s.calls[c].Gone?
    ensures Enabled(s, a) && !Arrival(a)
  {
    if s.calls[c].Holding? {
      a := HolderMoves(s, c);
    } else if s.calls[c].Leaving? || s.calls[c].GivingUp? {
      a := Drop(c);
    } else if s.calls[c].gate in s.tokens {
      a := HolderMoves(s, s.tokens[s.calls[c].gate]);
    } else if s.calls[c].Selecting? {
      a := Grant(c);
    } else {
      assert !InLine(s, c, s.calls[c].gate);
      a := Expire(c);
    }
  }
}
