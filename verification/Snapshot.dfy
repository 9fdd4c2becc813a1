/**
 The peer snapshot of client/snapshot.go: what a node writes down when it closes, and what
 the next one reads.
 */
module Snapshot {
  import opened Wrappers
  import opened Peers

  const SNAPSHOT_PEERS: nat := 64

  // In seconds.
  const SNAPSHOT_LIFETIME: int := 24 * 60 * 60

  // ---------------------------------------------------------------- strings.Fields

  predicate Spaceless(s: string) {
    forall i :: 0 <= i < |s| ==> !Space(s[i])
  }

  // `unicode.IsSpace`.
  predicate Space(c: char) {
    c == ' ' || c == '\t' || c == '\n' || c == '\r' || c as int == 11 || c as int == 12
    || c as int == 0x85 || c as int == 0xA0 || c as int == 0x1680 || 0x2000 <= c as int <= 0x200a
    || c as int == 0x2028 || c as int == 0x2029 || c as int == 0x202f || c as int == 0x205f || c as int == 0x3000
  }

  function WordEnd(s: string): (n: nat)
    ensures n <= |s|
    ensures s != "" && !Space(s[0]) ==> n > 0
  {
    if s == "" || Space(s[0]) then 0 else 1 + WordEnd(s[1..])
  }

  function Fields(s: string): seq<string>
    decreases |s|
  {
    if s == "" then []
    else if Space(s[0]) then Fields(s[1..])
    else [s[..WordEnd(s)]] + Fields(s[WordEnd(s)..])
  }

  // ---------------------------------------------------------------- the file's text

  // One line of the file: an address, and the peer it leads to.
  function Printed(addr: Addr, id: PeerId): string {
    addr + "/p2p/" + id
  }

  function Lines(addrs: seq<Addr>, id: PeerId): string {
    if addrs == [] then ""
    else Lines(addrs[..|addrs| - 1], id) + Printed(addrs[|addrs| - 1], id) + "\n"
  }

  function Text(peers: seq<AddrInfo>): string {
    if peers == [] then ""
    else
      var last := peers[|peers| - 1];
      Text(peers[..|peers| - 1]) + Lines(last.addrs, last.id)
  }

  datatype Saved = Saved(text: string, at: int)

  function Kept(parse: Parser, saved: Option<Saved>, now: int): seq<AddrInfo> {
    if saved.None? || now - saved.value.at > SNAPSHOT_LIFETIME then []
    else Grouped(Readable(parse, Fields(saved.value.text)))
  }

  class File {
    const path: string
    var saved: Option<Saved>

    constructor (path: string)
      ensures this.path == path && saved == None
    {
      this.path := path;
      saved := None;
    }

    // The temporary file and the rename come down to one replacement of the whole text.
    method Write(peers: seq<AddrInfo>, now: int)
      modifies this
      ensures saved == if path == "" || peers == [] then old(saved) else Some(Saved(Text(peers), now))
    {
      if path == "" || |peers| == 0 {
        return;
      }

      var lines := "";
      for i := 0 to |peers|
        invariant lines == Text(peers[..i])
      {
        ghost var before := lines;
        assert peers[..i + 1][..i] == peers[..i];
        var info := peers[i];
        for j := 0 to |info.addrs|
          invariant lines == before + Lines(info.addrs[..j], info.id)
        {
          assert info.addrs[..j + 1][..j] == info.addrs[..j];
          lines := lines + Printed(info.addrs[j], info.id) + "\n";
        }
        assert info.addrs[..|info.addrs|] == info.addrs;
      }
      assert peers[..|peers|] == peers;
      saved := Some(Saved(lines, now));
    }

    method Read(parse: Parser, now: int) returns (peers: seq<AddrInfo>)
      ensures peers == if path == "" then [] else Kept(parse, saved, now)
    {
      if path == "" || saved.None? || now - saved.value.at > SNAPSHOT_LIFETIME {
        return [];
      }
      peers := ParsePeers(parse, Fields(saved.value.text));
    }
  }

  // ---------------------------------------------------------------- which peers are written

  function Filtered<T>(keep: T -> bool, xs: seq<T>): (ys: seq<T>)
    ensures forall y :: y in ys ==> keep(y) && y in xs
  {
    if xs == [] then []
    else
      var last := xs[|xs| - 1];
      Filtered(keep, xs[..|xs| - 1]) + (if keep(last) then [last] else [])
  }

  // What is kept of an address list: literal addresses, which need no name looked up, that the
  // node would dial.
  function Fit(literal: Addr -> bool, dialable: Addr -> bool): Addr -> bool {
    (a: Addr) => literal(a) && dialable(a)
  }

  // A routing table entry as it would be written down.
  function Trimmed(fit: Addr -> bool, info: AddrInfo): AddrInfo {
    AddrInfo(info.id, Filtered(fit, info.addrs))
  }

  predicate Wanted(skip: set<PeerId>, fit: Addr -> bool, info: AddrInfo) {
    info.id !in skip && Filtered(fit, info.addrs) != []
  }

  function WorthAll(table: seq<AddrInfo>, skip: set<PeerId>, fit: Addr -> bool): seq<AddrInfo> {
    if table == [] then []
    else
      var last := table[|table| - 1];
      WorthAll(table[..|table| - 1], skip, fit)
      + (if Wanted(skip, fit, last) then [Trimmed(fit, last)] else [])
  }

  lemma {:induction false} FilteredExactly<T>(keep: T -> bool, xs: seq<T>)
    ensures forall y :: y in Filtered(keep, xs) <==> y in xs && keep(y)
  {
    if xs != [] {
      FilteredExactly(keep, xs[..|xs| - 1]);
      assert xs == xs[..|xs| - 1] + [xs[|xs| - 1]];
    }
  }

  // Order is kept: what is written of two lists is what is written of each, and of one entry is
  // that entry with its fit addresses, in order, or nothing.
  lemma {:induction false} WorthConcat(a: seq<AddrInfo>, b: seq<AddrInfo>, skip: set<PeerId>, fit: Addr -> bool)
    ensures WorthAll(a + b, skip, fit) == WorthAll(a, skip, fit) + WorthAll(b, skip, fit)
  {
    if b == [] {
      assert a + b == a;
    } else {
      assert (a + b)[..|a + b| - 1] == a + b[..|b| - 1];
      WorthConcat(a, b[..|b| - 1], skip, fit);
    }
  }

  lemma {:induction false} FilteredConcat<T>(keep: T -> bool, a: seq<T>, b: seq<T>)
    ensures Filtered(keep, a + b) == Filtered(keep, a) + Filtered(keep, b)
  {
    if b == [] {
      assert a + b == a;
    } else {
      assert (a + b)[..|a + b| - 1] == a + b[..|b| - 1];
      FilteredConcat(keep, a, b[..|b| - 1]);
    }
  }

  lemma WorthOfOne(info: AddrInfo, skip: set<PeerId>, literal: Addr -> bool, dialable: Addr -> bool)
    ensures var worth := WorthAll([info], skip, Fit(literal, dialable));
      if info.id in skip || (forall a :: a in info.addrs ==> !literal(a) || !dialable(a)) then worth == []
      else |worth| == 1 && worth[0].id == info.id && worth[0].addrs == Filtered(a => literal(a) && dialable(a), info.addrs)
  {
    FitMeans(literal, dialable, info.addrs);
    FilteredAlike(Fit(literal, dialable), a => literal(a) && dialable(a), info.addrs);
    assert [info][..0] == [];
    assert WorthAll([], skip, Fit(literal, dialable)) == [];
  }

  lemma {:induction false} FilteredAlike<T>(keep: T -> bool, also: T -> bool, xs: seq<T>)
    requires forall x :: keep(x) == also(x)
    ensures Filtered(keep, xs) == Filtered(also, xs)
  {
    if xs != [] {
      FilteredAlike(keep, also, xs[..|xs| - 1]);
    }
  }

  // An entry of the routing table is written down exactly if it is not configured and has an
  // address that is literal and that the node would dial, and then with exactly those.
  lemma {:induction false} WorthExactly(table: seq<AddrInfo>, skip: set<PeerId>, literal: Addr -> bool, dialable: Addr -> bool, info: AddrInfo)
    requires info in table && Distinct(table)
    ensures var worth := WorthAll(table, skip, Fit(literal, dialable));
      && (Holds(worth, info.id) <==> info.id !in skip && exists a :: a in info.addrs && literal(a) && dialable(a))
      && (forall w :: w in worth && w.id == info.id ==>
            forall a :: a in w.addrs <==> a in info.addrs && literal(a) && dialable(a))
  {
    var init, last := table[..|table| - 1], table[|table| - 1];
    var fit := Fit(literal, dialable);
    FilteredExactly(fit, last.addrs);
    WorthIsWanted(init, skip, fit);
    var kept := if Wanted(skip, fit, last) then [Trimmed(fit, last)] else [];
    HoldsConcat(WorthAll(init, skip, fit), kept, info.id);
    if info == last {
      if Holds(WorthAll(init, skip, fit), info.id) {
        WorthComesFrom(init, skip, fit, info.id);
      }
      assert !Holds(init, info.id);
      FitMeans(literal, dialable, last.addrs);
      assert Wanted(skip, fit, last) ==> kept[0].id == info.id;
    } else {
      assert info in init && info.id != last.id by {
        var i :| 0 <= i < |table| && table[i] == info;
        assert i < |init| && init[i] == info;
      }
      WorthExactly(init, skip, literal, dialable, info);
    }
  }

  lemma FitMeans(literal: Addr -> bool, dialable: Addr -> bool, addrs: seq<Addr>)
    ensures Filtered(Fit(literal, dialable), addrs) != [] <==> exists a :: a in addrs && literal(a) && dialable(a)
  {
    var kept := Filtered(Fit(literal, dialable), addrs);
    FilteredExactly(Fit(literal, dialable), addrs);
    if kept != [] {
      assert kept[0] in kept;
    }
  }

  lemma WorthComesFrom(table: seq<AddrInfo>, skip: set<PeerId>, fit: Addr -> bool, id: PeerId)
    requires Holds(WorthAll(table, skip, fit), id)
    ensures Holds(table, id)
  {
    var worth := WorthAll(table, skip, fit);
    var i :| 0 <= i < |worth| && worth[i].id == id;
    WorthIsWanted(table, skip, fit);
    assert worth[i] in worth;
  }

  lemma {:induction false} WorthIsWanted(table: seq<AddrInfo>, skip: set<PeerId>, fit: Addr -> bool)
    ensures forall w :: w in WorthAll(table, skip, fit) ==>
      w.id !in skip && w.addrs != [] && (forall a :: a in w.addrs ==> fit(a)) && Holds(table, w.id)
    ensures Distinct(table) ==> Distinct(WorthAll(table, skip, fit))
  {
    if table != [] {
      var init, last := table[..|table| - 1], table[|table| - 1];
      WorthIsWanted(init, skip, fit);
      HoldsMore(init, last);
      assert init + [last] == table;
      if Distinct(table) {
        assert !Holds(init, last.id);
      }
    }
  }

  lemma {:induction false} WorthStepwise(table: seq<AddrInfo>, skip: set<PeerId>, fit: Addr -> bool, n: nat)
    requires n <= |table|
    ensures WorthAll(table[..n], skip, fit) <= WorthAll(table, skip, fit)
    decreases |table|
  {
    if n < |table| {
      assert table[..|table| - 1][..n] == table[..n];
      WorthStepwise(table[..|table| - 1], skip, fit, n);
    } else {
      assert table[..n] == table;
    }
  }

  lemma OneMoreWanted(table: seq<AddrInfo>, skip: set<PeerId>, fit: Addr -> bool, i: nat)
    requires i < |table|
    ensures WorthAll(table[..i + 1], skip, fit) ==
      WorthAll(table[..i], skip, fit) + (if Wanted(skip, fit, table[i]) then [Trimmed(fit, table[i])] else [])
  {
    assert table[..i + 1][..i] == table[..i];
  }

  function FirstOf<T>(xs: seq<T>, n: nat): seq<T> {
    if |xs| <= n then xs else xs[..n]
  }

  // The routing table with what the peerstore has on each of its peers.
  function Known(ids: seq<PeerId>, addrsOf: PeerId -> seq<Addr>): (table: seq<AddrInfo>)
    ensures |table| == |ids|
    ensures forall i :: 0 <= i < |ids| ==> table[i] == AddrInfo(ids[i], addrsOf(ids[i]))
  {
    seq(|ids|, i requires 0 <= i < |ids| => AddrInfo(ids[i], addrsOf(ids[i])))
  }

  method SnapshotAddrs(addrs: seq<Addr>, literal: Addr -> bool, dialable: Addr -> bool) returns (keep: seq<Addr>)
    ensures keep == Filtered(Fit(literal, dialable), addrs)
  {
    keep := [];
    for i := 0 to |addrs|
      invariant keep == Filtered(Fit(literal, dialable), addrs[..i])
    {
      assert addrs[..i + 1][..i] == addrs[..i];
      if !literal(addrs[i]) {
        continue;
      }
      if !dialable(addrs[i]) {
        continue;
      }
      keep := keep + [addrs[i]];
    }
    assert addrs[..|addrs|] == addrs;
  }

  // The first 64 entries of the routing table that are wanted; none for a node without one.
  method SnapshotWorth(dht: Option<seq<PeerId>>, addrsOf: PeerId -> seq<Addr>, configured: seq<AddrInfo>,
    literal: Addr -> bool, dialable: Addr -> bool)
    returns (worth: seq<AddrInfo>)
    ensures dht.None? ==> worth == []
    ensures dht.Some? ==>
      var all := WorthAll(Known(dht.value, addrsOf), set info | info in configured :: info.id, Fit(literal, dialable));
      worth <= all && |worth| == if |all| <= SNAPSHOT_PEERS then |all| else SNAPSHOT_PEERS
  {
    worth := [];
    if dht.None? {
      return;
    }

    var skip := set info | info in configured :: info.id;
    var ids := dht.value;
    ghost var table, fit := Known(ids, addrsOf), Fit(literal, dialable);
    assert WorthAll(table[..0], skip, fit) == [];
    hide WorthAll, Filtered, Fit, Known;
    for i := 0 to |ids|
      invariant worth == WorthAll(table[..i], skip, fit) && |worth| <= SNAPSHOT_PEERS
    {
      if |worth| == SNAPSHOT_PEERS {
        WorthStepwise(table, skip, fit, i);
        return;
      }
      OneMoreWanted(table, skip, fit, i);
      if ids[i] in skip {
        continue;
      }

      var keep := SnapshotAddrs(addrsOf(ids[i]), literal, dialable);
      if |keep| == 0 {
        continue;
      }
      worth := worth + [AddrInfo(ids[i], keep)];
    }
    assert table[..|table|] == table;
  }

  // ---------------------------------------------------------------- the round trip

  // What is asked of the library: the texts of an address and of an id have no spaces in them,
  // and a printed line parses back to its peer and address.
  predicate Writable(parse: Parser, info: AddrInfo) {
    && Spaceless(info.id)
    && forall a :: a in info.addrs ==> Spaceless(a) && parse(Printed(a, info.id)) == Some(AddrInfo(info.id, [a]))
  }

  function Singles(addrs: seq<Addr>, id: PeerId): seq<AddrInfo> {
    if addrs == [] then [] else Singles(addrs[..|addrs| - 1], id) + [AddrInfo(id, [addrs[|addrs| - 1]])]
  }

  // The peers one address at a time, which is what the lines say.
  function Spread(peers: seq<AddrInfo>): seq<AddrInfo> {
    if peers == [] then []
    else
      var last := peers[|peers| - 1];
      Spread(peers[..|peers| - 1]) + Singles(last.addrs, last.id)
  }

  function WithAddrs(peers: seq<AddrInfo>): seq<AddrInfo> {
    Filtered((info: AddrInfo) => info.addrs != [], peers)
  }

  lemma {:induction false} FieldsOfWord(word: string, rest: string)
    requires word != "" && Spaceless(word)
    ensures WordEnd(word + "\n" + rest) == |word|
    ensures Fields(word + "\n" + rest) == [word] + Fields(rest)
  {
    var all := word + "\n" + rest;
    WordEndOf(word, rest);
    assert all[..|word|] == word;
    assert all[|word|..] == "\n" + rest;
    assert ("\n" + rest)[1..] == rest;
  }

  lemma {:induction false} WordEndOf(word: string, rest: string)
    requires Spaceless(word)
    ensures WordEnd(word + "\n" + rest) == |word|
  {
    if word != "" {
      assert (word + "\n" + rest)[1..] == word[1..] + "\n" + rest;
      WordEndOf(word[1..], rest);
    }
  }

  // White space of every kind ends a word and starts none.
  lemma {:induction false} FieldsSplitAtSpace(word: string, c: char, rest: string)
    requires Spaceless(word) && (c == ' ' || c == '\t' || c == '\n' || c == '\r')
    ensures Fields(word + [c] + rest) == (if word == "" then [] else [word]) + Fields(rest)
  {
    var all := word + [c] + rest;
    WordEndAt(word, c, rest);
    if word != "" {
      assert all[..|word|] == word && all[|word|..] == [c] + rest && all[0] == word[0];
    } else {
      assert all == [c] + rest;
    }
    assert ([c] + rest)[1..] == rest;
  }

  lemma {:induction false} WordEndAt(word: string, c: char, rest: string)
    requires Spaceless(word) && Space(c)
    ensures WordEnd(word + [c] + rest) == |word|
  {
    if word != "" {
      assert (word + [c] + rest)[1..] == word[1..] + [c] + rest;
      WordEndAt(word[1..], c, rest);
    }
  }

  // A text ends cleanly when nothing after it can run into its last word.
  lemma {:induction false} FieldsConcat(lines: seq<string>, rest: string)
    requires forall line :: line in lines ==> line != "" && Spaceless(line)
    ensures Fields(Ended(lines) + rest) == lines + Fields(rest)
  {
    if lines == [] {
      assert Ended(lines) + rest == rest;
    } else {
      hide Fields, Spaceless;
      var tail := Ended(lines[1..]);
      assert lines[0] in lines && forall line :: line in lines[1..] ==> line in lines;
      assert [lines[0]] + (lines[1..] + Fields(rest)) == lines + Fields(rest);
      assert Ended(lines) + rest == lines[0] + "\n" + (tail + rest);
      FieldsOfWord(lines[0], tail + rest);
      FieldsConcat(lines[1..], rest);
    }
  }

  function Ended(lines: seq<string>): string {
    if lines == [] then "" else lines[0] + "\n" + Ended(lines[1..])
  }

  lemma {:induction false} EndedConcat(a: seq<string>, b: seq<string>)
    ensures Ended(a + b) == Ended(a) + Ended(b)
  {
    if a == [] {
      assert a + b == b;
    } else {
      assert (a + b)[1..] == a[1..] + b;
      EndedConcat(a[1..], b);
    }
  }

  // The lines of a peer's addresses, and what reading them gives.
  function PrintedAll(addrs: seq<Addr>, id: PeerId): (lines: seq<string>)
    ensures |lines| == |addrs|
    ensures forall i :: 0 <= i < |addrs| ==> lines[i] == Printed(addrs[i], id)
  {
    seq(|addrs|, i requires 0 <= i < |addrs| => Printed(addrs[i], id))
  }

  function LinesOf(peers: seq<AddrInfo>): seq<string> {
    if peers == [] then []
    else
      var last := peers[|peers| - 1];
      LinesOf(peers[..|peers| - 1]) + PrintedAll(last.addrs, last.id)
  }

  lemma {:induction false} LinesAreLines(addrs: seq<Addr>, id: PeerId)
    ensures Lines(addrs, id) == Ended(PrintedAll(addrs, id))
  {
    if addrs != [] {
      var init, last := addrs[..|addrs| - 1], addrs[|addrs| - 1];
      LinesAreLines(init, id);
      assert PrintedAll(addrs, id) == PrintedAll(init, id) + [Printed(last, id)];
      EndedConcat(PrintedAll(init, id), [Printed(last, id)]);
      assert Ended([Printed(last, id)]) == Printed(last, id) + "\n" + "";
    }
  }

  lemma {:induction false} TextIsLines(peers: seq<AddrInfo>)
    ensures Text(peers) == Ended(LinesOf(peers))
  {
    if peers != [] {
      var init, last := peers[..|peers| - 1], peers[|peers| - 1];
      TextIsLines(init);
      LinesAreLines(last.addrs, last.id);
      EndedConcat(LinesOf(init), PrintedAll(last.addrs, last.id));
    }
  }

  lemma {:induction false} LinesRead(parse: Parser, addrs: seq<Addr>, id: PeerId)
    requires Writable(parse, AddrInfo(id, addrs))
    ensures Readable(parse, PrintedAll(addrs, id)) == Singles(addrs, id)
    ensures forall line :: line in PrintedAll(addrs, id) ==> line != "" && Spaceless(line)
  {
    if addrs != [] {
      var init, last := addrs[..|addrs| - 1], addrs[|addrs| - 1];
      LinesRead(parse, init, id);
      var lines := PrintedAll(addrs, id);
      assert lines[..|lines| - 1] == PrintedAll(init, id);
      assert last in addrs;
      forall line | line in lines ensures line != "" && Spaceless(line) {
        var i :| 0 <= i < |lines| && lines[i] == line;
        assert addrs[i] in addrs;
        PrintedIsAWord(addrs[i], id);
      }
    }
  }

  lemma PrintedIsAWord(addr: Addr, id: PeerId)
    requires Spaceless(addr) && Spaceless(id)
    ensures Printed(addr, id) != "" && Spaceless(Printed(addr, id))
  {
  }

  lemma {:induction false} PeersRead(parse: Parser, peers: seq<AddrInfo>)
    requires forall info :: info in peers ==> Writable(parse, info)
    ensures Readable(parse, LinesOf(peers)) == Spread(peers)
    ensures forall line :: line in LinesOf(peers) ==> line != "" && Spaceless(line)
  {
    if peers != [] {
      var init, last := peers[..|peers| - 1], peers[|peers| - 1];
      PeersRead(parse, init);
      assert last in peers;
      LinesRead(parse, last.addrs, last.id);
      ReadableConcat(parse, LinesOf(init), PrintedAll(last.addrs, last.id));
    }
  }

  function Mine(addrs: seq<Addr>, id: PeerId): seq<AddrInfo> {
    if addrs == [] then [] else [AddrInfo(id, addrs)]
  }

  lemma OneSingleMore(before: seq<AddrInfo>, all: seq<AddrInfo>, addrs: seq<Addr>, last: Addr, id: PeerId)
    requires !Holds(before, id) && Grouped(all) == Grouped(before) + Mine(addrs, id)
    ensures Grouped(all + [AddrInfo(id, [last])]) == Grouped(before) + Mine(addrs + [last], id)
  {
    hide Grouped, Added, Holds;
    GroupedOneMore(all, AddrInfo(id, [last]));
    GroupedIsDistinct(before);
    AddedLast(Grouped(before), if addrs == [] then None else Some(AddrInfo(id, addrs)), AddrInfo(id, [last]));
  }

  lemma {:induction false} SinglesGroup(before: seq<AddrInfo>, addrs: seq<Addr>, id: PeerId)
    requires !Holds(before, id)
    ensures Grouped(before + Singles(addrs, id)) == Grouped(before) + Mine(addrs, id)
  {
    hide Grouped, Holds;
    if addrs == [] {
      assert before + Singles(addrs, id) == before;
      assert Grouped(before) + [] == Grouped(before);
    } else {
      var init, last := addrs[..|addrs| - 1], addrs[|addrs| - 1];
      SinglesGroup(before, init, id);
      OneSingleMore(before, before + Singles(init, id), init, last, id);
      assert before + Singles(addrs, id) == before + Singles(init, id) + [AddrInfo(id, [last])];
      assert init + [last] == addrs;
    }
  }

  lemma AddedLast(before: seq<AddrInfo>, mine: Option<AddrInfo>, more: AddrInfo)
    requires Distinct(before) && !Holds(before, more.id) && (mine.Some? ==> mine.value.id == more.id)
    ensures var infos := before + (if mine.Some? then [mine.value] else []);
      Added(infos, more) == before + [AddrInfo(more.id, (if mine.Some? then mine.value.addrs else []) + more.addrs)]
  {
    var infos := before + (if mine.Some? then [mine.value] else []);
    HoldsConcat(before, if mine.Some? then [mine.value] else [], more.id);
    forall i | 0 <= i < |before| ensures before[i].id != more.id {
      assert !Holds(before, more.id);
    }
    AddedAt(infos, more);
    forall i | 0 <= i < |before| ensures Extended(before[i], more) == before[i] {
      assert before[i].addrs + [] == before[i].addrs;
    }
    if mine.Some? {
      assert infos[|before|].id == more.id;
    } else {
      assert infos == before;
      assert [] + more.addrs == more.addrs;
    }
  }

  lemma {:induction false} SpreadHolds(peers: seq<AddrInfo>, id: PeerId)
    ensures Holds(Spread(peers), id) ==> Holds(peers, id)
  {
    if peers != [] {
      var init, last := peers[..|peers| - 1], peers[|peers| - 1];
      SpreadHolds(init, id);
      SinglesHold(last.addrs, last.id, id);
      HoldsConcat(Spread(init), Singles(last.addrs, last.id), id);
      HoldsMore(init, last);
      assert init + [last] == peers;
    }
  }

  lemma {:induction false} SinglesHold(addrs: seq<Addr>, id: PeerId, other: PeerId)
    ensures Holds(Singles(addrs, id), other) ==> other == id
  {
    if addrs != [] {
      SinglesHold(addrs[..|addrs| - 1], id, other);
      HoldsMore(Singles(addrs[..|addrs| - 1], id), AddrInfo(id, [addrs[|addrs| - 1]]));
    }
  }

  lemma {:induction false} SpreadGroups(peers: seq<AddrInfo>)
    requires Distinct(peers)
    ensures Grouped(Spread(peers)) == WithAddrs(peers)
  {
    if peers != [] {
      var init, last := peers[..|peers| - 1], peers[|peers| - 1];
      SpreadGroups(init);
      assert !Holds(init, last.id);
      SpreadHolds(init, last.id);
      SinglesGroup(Spread(init), last.addrs, last.id);
    }
  }

  // Reading within its lifetime what was written gives the same peers, addresses and order,
  // but for peers that had no address; after it, nothing.
  lemma SnapshotRoundTrip(parse: Parser, peers: seq<AddrInfo>, at: int, now: int)
    requires Distinct(peers) && forall info :: info in peers ==> Writable(parse, info)
    ensures Kept(parse, Some(Saved(Text(peers), at)), now) ==
      if now - at > SNAPSHOT_LIFETIME then [] else WithAddrs(peers)
  {
    hide Ended, LinesOf, Spread, Readable, Grouped, Text, WithAddrs, Distinct, Writable;
    TextIsLines(peers);
    PeersRead(parse, peers);
    FieldsConcat(LinesOf(peers), "");
    assert Ended(LinesOf(peers)) + "" == Text(peers);
    assert LinesOf(peers) + [] == LinesOf(peers);
    SpreadGroups(peers);
  }

  // What a node writes when it closes the next one reads back whole: at most 64 peers, none
  // of them configured, each with an address, and no address that was not worth keeping.
  lemma RestartKeepsThePeers(parse: Parser, table: seq<AddrInfo>, skip: set<PeerId>, fit: Addr -> bool, at: int, now: int)
    requires Distinct(table) && now - at <= SNAPSHOT_LIFETIME
    requires forall w :: w in WorthAll(table, skip, fit) ==> Writable(parse, w)
    ensures var all := WorthAll(table, skip, fit);
      var worth := FirstOf(all, SNAPSHOT_PEERS);
      && worth <= all && |worth| == (if |all| <= SNAPSHOT_PEERS then |all| else SNAPSHOT_PEERS)
      && Kept(parse, Some(Saved(Text(worth), at)), now) == worth
      && |worth| <= SNAPSHOT_PEERS
      && forall w :: w in worth ==> w.id !in skip && Holds(table, w.id) && w.addrs != [] && forall a :: a in w.addrs ==> fit(a)
  {
    var all := WorthAll(table, skip, fit);
    var worth := FirstOf(all, SNAPSHOT_PEERS);
    WorthIsWanted(table, skip, fit);
    assert forall w :: w in worth ==> w in all;
    SnapshotRoundTrip(parse, worth, at, now);
    NoneFiltered(worth);
  }

  lemma {:induction false} NoneFiltered(peers: seq<AddrInfo>)
    requires forall info :: info in peers ==> info.addrs != []
    ensures WithAddrs(peers) == peers
  {
    if peers != [] {
      NoneFiltered(peers[..|peers| - 1]);
    }
  }

  // ---------------------------------------------------------------- a parser it holds of

  const P2P: string := "/p2p/"

  // Where the last component of an address starts: one past its last slash.
  function LastPart(s: string): (n: nat)
    ensures n <= |s|
  {
    if s == "" then 0
    else if s[|s| - 1] == '/' then |s|
    else LastPart(s[..|s| - 1])
  }

  // The plainest parser: the address up to a last /p2p/ component, and the id there.
  function PlainParse(text: string): Option<AddrInfo> {
    var n := LastPart(text);
    if n >= |P2P| && text[n - |P2P|..n] == P2P && text[n..] != "" then
      Some(AddrInfo(text[n..], if n == |P2P| then [] else [text[..n - |P2P|]]))
    else None
  }

  lemma {:induction false} LastPartOf(s: string, part: string)
    requires '/' !in part
    ensures LastPart(s + "/" + part) == |s| + 1
  {
    var whole := s + "/" + part;
    if part == "" {
      assert whole[|whole| - 1] == '/';
    } else {
      assert whole[|whole| - 1] == part[|part| - 1];
      assert whole[..|whole| - 1] == s + "/" + part[..|part| - 1];
      LastPartOf(s, part[..|part| - 1]);
    }
  }

  lemma PrintedParses(addr: Addr, id: PeerId)
    requires id != "" && '/' !in id && addr != ""
    ensures PlainParse(Printed(addr, id)) == Some(AddrInfo(id, [addr]))
  {
    assert Printed(addr, id) == (addr + "/p2p") + "/" + id;
    LastPartOf(addr + "/p2p", id);
    var n := |addr| + 5;
    assert Printed(addr, id)[n..] == id;
    assert Printed(addr, id)[n - 5..n] == P2P;
    assert Printed(addr, id)[..n - 5] == addr;
  }

  // What is asked of the library can be met, by peers of every kind.
  lemma PlainPeersAreWritable(info: AddrInfo)
    requires info.id != "" && '/' !in info.id && Spaceless(info.id)
    requires forall a :: a in info.addrs ==> a != "" && Spaceless(a)
    ensures Writable(PlainParse, info)
  {
    forall a | a in info.addrs ensures PlainParse(Printed(a, info.id)) == Some(AddrInfo(info.id, [a])) {
      PrintedParses(a, info.id);
    }
  }
}
