/** The bounded, expiring cache of TXT answers in client/resolver.go. Times are in seconds. */
module TxtCache {
  import opened Wrappers
  import opened Counting

  const LIMIT: nat := 64
  const LIFETIME: int := 60 * 60

  datatype Answer = Answer(records: seq<string>, until: int)

  type Answers = map<string, Answer>

  function Live(answers: Answers, now: int): Answers {
    map name | name in answers && now <= answers[name].until :: answers[name]
  }

  function Found(answers: Answers, name: string, now: int): Option<seq<string>> {
    if name in answers && now <= answers[name].until then Some(answers[name].records) else None
  }

  function Lapsed(answers: Answers, now: int): set<string> {
    set name | name in answers && now > answers[name].until
  }

  // What a purge can have deleted that reads the clock anew for each answer, from `first` on and
  // up to `at`.
  predicate Purged(answers: Answers, gone: set<string>, first: int, at: int) {
    Lapsed(answers, first) <= gone <= Lapsed(answers, at)
  }

  function Room(answers: Answers, gone: set<string>): Answers {
    if |answers| >= LIMIT then answers - gone else answers
  }

  function Stored(answers: Answers, name: string, records: seq<string>, gone: set<string>, at: int): Answers {
    var room := Room(answers, gone);
    if |room| >= LIMIT then room else room[name := Answer(records, at + LIFETIME)]
  }

  class Cache {
    var answers: Answers

    constructor ()
      ensures answers == map[]
    {
      answers := map[];
    }

    method Lookup(name: string, now: int) returns (records: Option<seq<string>>)
      ensures records == Found(answers, name, now)
    {
      if name !in answers || now > answers[name].until {
        return None;
      }
      return Some(answers[name].records);
    }

    // The loop deletes while it iterates, in whatever order the map comes in, and reads the
    // clock anew for each answer.
    method Purge(clock: seq<int>) returns (ghost gone: set<string>)
      requires |clock| == |answers| + 1 && forall i, j :: 0 <= i < j < |clock| ==> clock[i] <= clock[j]
      modifies this
      ensures answers == old(answers) - gone && Purged(old(answers), gone, clock[0], clock[|clock| - 1])
    {
      ghost var before := answers;
      var cached, read := answers.Keys, 0;
      gone := {};
      assert |cached| == |answers|;
      while cached != {}
        invariant cached <= before.Keys && read + |cached| == |before|
        invariant gone <= before.Keys - cached
        invariant answers == before - gone
        invariant gone <= Lapsed(before, clock[|clock| - 1])
        invariant Lapsed(before, clock[0]) - cached <= gone
      {
        var one :| one in cached;
        cached := cached - {one};
        if clock[read] > answers[one].until {
          answers := answers - {one};
          gone := gone + {one};
        }
        read := read + 1;
      }
    }

    method Keep(name: string, records: seq<string>, clock: seq<int>)
      requires |clock| == |answers| + 1 && forall i, j :: 0 <= i < j < |clock| ==> clock[i] <= clock[j]
      modifies this
      ensures var at := clock[|clock| - 1];
        exists gone :: Purged(old(answers), gone, clock[0], at) && answers == Stored(old(answers), name, records, gone, at)
    {
      var at := clock[|clock| - 1];
      ghost var before, gone := answers, Lapsed(answers, at);
      NothingToPurge(answers, clock[0], at);
      hide Purged, Lapsed, Stored;
      if |answers| >= LIMIT {
        gone := Purge(clock);
      }
      StoredFrom(before, name, records, gone, at);
      if |answers| >= LIMIT {
        return;
      }
      answers := answers[name := Answer(records, at + LIFETIME)];
    }
  }

  lemma NothingToPurge(answers: Answers, first: int, at: int)
    requires first <= at
    ensures Purged(answers, Lapsed(answers, at), first, at)
  {
  }

  lemma StoredFrom(answers: Answers, name: string, records: seq<string>, gone: set<string>, at: int)
    ensures Stored(answers, name, records, gone, at) ==
      var room := if |answers| >= LIMIT then answers - gone else answers;
      if |room| >= LIMIT then room else room[name := Answer(records, at + LIFETIME)]
  {
  }

  // ---------------------------------------------------------------- one call

  lemma LiveIsSmaller(answers: Answers, now: int)
    ensures |Live(answers, now)| <= |answers|
  {
    SubsetSize(Live(answers, now).Keys, answers.Keys);
    assert |Live(answers, now).Keys| == |Live(answers, now)|;
    assert |answers.Keys| == |answers|;
  }

  // An answer is taken if fewer than 64 are live when the call begins, and refused if 64 are
  // when it ends. A full cache refuses even a name it holds, whose answer stays as old as it
  // was; nothing unexpired is ever given up.
  lemma WhenAnswersAreTaken(answers: Answers, name: string, records: seq<string>, gone: set<string>, first: int, at: int)
    requires |answers| <= LIMIT && (|answers| >= LIMIT ==> Purged(answers, gone, first, at))
    ensures var after := Stored(answers, name, records, gone, at);
      && |after| <= LIMIT
      && (|Live(answers, first)| < LIMIT ==> name in after && after[name] == Answer(records, at + LIFETIME))
      && (|Live(answers, at)| >= LIMIT ==> after == answers)
      && (forall other :: other != name && other in Live(answers, at) ==> other in after && after[other] == answers[other])
  {
    LiveIsSmaller(answers, at);
    if |answers| >= LIMIT {
      var room := Room(answers, gone);
      assert room.Keys <= Live(answers, first).Keys && Live(answers, at).Keys <= room.Keys;
      SubsetSize(room.Keys, Live(answers, first).Keys);
      SubsetSize(Live(answers, at).Keys, room.Keys);
      SubsetSize(room.Keys, answers.Keys);
      assert |room.Keys| == |room| && |Live(answers, at).Keys| == |Live(answers, at)|;
      assert |Live(answers, first).Keys| == |Live(answers, first)| && |answers.Keys| == |answers|;
      if |Live(answers, at)| >= LIMIT {
        SameSize(room.Keys, answers.Keys);
        assert room == answers;
      }
    }
  }

  lemma {:induction false} SameSize<K>(small: set<K>, big: set<K>)
    requires small <= big && |small| >= |big|
    ensures small == big
  {
    if k :| k in big && k !in small {
      SubsetSize(small, big - {k});
    }
  }

  // ---------------------------------------------------------------- whole runs

  // One `keep`, from `first` to `at`, with what it purged if the cache was full.
  datatype Kept = Kept(name: string, records: seq<string>, gone: set<string>, first: int, at: int)

  function Replay(keeps: seq<Kept>): Answers {
    if keeps == [] then map[]
    else
      var last := keeps[|keeps| - 1];
      Stored(Replay(keeps[..|keeps| - 1]), last.name, last.records, last.gone, last.at)
  }

  // Each purge that was called for deleted what it could have.
  predicate Possible(keeps: seq<Kept>) {
    forall i :: 0 <= i < |keeps| && |Replay(keeps[..i])| >= LIMIT ==>
      Purged(Replay(keeps[..i]), keeps[i].gone, keeps[i].first, keeps[i].at)
  }

  predicate Taken(answers: Answers, keep: Kept) {
    |Room(answers, keep.gone)| < LIMIT
  }

  // The last `keep` of a name that was taken.
  function Latest(keeps: seq<Kept>, name: string): Option<Kept> {
    if keeps == [] then None
    else
      var init, last := keeps[..|keeps| - 1], keeps[|keeps| - 1];
      if last.name == name && Taken(Replay(init), last) then Some(last) else Latest(init, name)
  }

  // A held answer is the latest taken, and a latest taken that has not lapsed is held.
  predicate Faithful(answers: Answers, latest: Option<Kept>, name: string, now: int) {
    && (name in answers ==> latest.Some? && answers[name] == Answer(latest.value.records, latest.value.at + LIFETIME))
    && (latest.Some? && now <= latest.value.at + LIFETIME ==> name in answers)
  }

  lemma StaysFaithful(answers: Answers, latest: Option<Kept>, keep: Kept, name: string, now: int)
    requires |answers| >= LIMIT ==> Purged(answers, keep.gone, keep.first, keep.at)
    requires Faithful(answers, latest, name, now) && keep.at <= now
    ensures Faithful(Stored(answers, keep.name, keep.records, keep.gone, keep.at),
                     if keep.name == name && Taken(answers, keep) then Some(keep) else latest, name, now)
  {
  }

  lemma BeginningPossible(keeps: seq<Kept>)
    requires Possible(keeps) && keeps != []
    ensures Possible(keeps[..|keeps| - 1])
  {
    var init := keeps[..|keeps| - 1];
    forall i | 0 <= i < |init| && |Replay(init[..i])| >= LIMIT
      ensures Purged(Replay(init[..i]), init[i].gone, init[i].first, init[i].at)
    {
      assert init[..i] == keeps[..i];
    }
  }

  lemma {:induction false} RunsAreFaithful(keeps: seq<Kept>, name: string, now: int)
    requires Possible(keeps) && forall i :: 0 <= i < |keeps| ==> keeps[i].at <= now
    ensures |Replay(keeps)| <= LIMIT
    ensures Faithful(Replay(keeps), Latest(keeps, name), name, now)
  {
    if keeps != [] {
      var init, last := keeps[..|keeps| - 1], keeps[|keeps| - 1];
      BeginningPossible(keeps);
      RunsAreFaithful(init, name, now);
      assert |Replay(init)| >= LIMIT ==> Purged(Replay(init), last.gone, last.first, last.at);
      hide Possible, Faithful, Purged;
      WhenAnswersAreTaken(Replay(init), last.name, last.records, last.gone, last.first, last.at);
      StaysFaithful(Replay(init), Latest(init, name), last, name, now);
    }
  }

  // Over every run: at most 64 answers are held, and with a clock that has not gone back a
  // lookup finds a name exactly when its latest taken answer is at most an hour old, and
  // then finds that answer.
  lemma LookupsAreExact(keeps: seq<Kept>, name: string, now: int)
    requires Possible(keeps) && forall i :: 0 <= i < |keeps| ==> keeps[i].at <= now
    ensures |Replay(keeps)| <= LIMIT
    ensures Found(Replay(keeps), name, now) ==
      var latest := Latest(keeps, name);
      if latest.Some? && now <= latest.value.at + LIFETIME then Some(latest.value.records) else None
  {
    RunsAreFaithful(keeps, name, now);
  }
}
