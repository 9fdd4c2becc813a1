/**
 Peer lists: `parsePeers` of client/node.go, and the snapshot file that client/snapshot.go
 writes when a node closes and reads when the next one starts.

 A multiaddress is its text. `parse` is what the multiaddress library and
 `peer.AddrInfoFromP2pAddr` make of a text; nothing is assumed of it here.
 */
module Peers {
  import opened Wrappers

  type PeerId = string
  type Addr = string

  datatype AddrInfo = AddrInfo(id: PeerId, addrs: seq<Addr>)

  type Parser = string -> Option<AddrInfo>

  // ---------------------------------------------------------------- grouping

  predicate Holds(infos: seq<AddrInfo>, id: PeerId) {
    exists i :: 0 <= i < |infos| && infos[i].id == id
  }

  predicate Distinct(infos: seq<AddrInfo>) {
    forall i, j :: 0 <= i < j < |infos| ==> infos[i].id != infos[j].id
  }

  // The peers, in order of first appearance.
  function Ids(infos: seq<AddrInfo>): seq<PeerId> {
    if infos == [] then []
    else
      var init, last := infos[..|infos| - 1], infos[|infos| - 1];
      if Holds(init, last.id) then Ids(init) else Ids(init) + [last.id]
  }

  // Every address of one peer, in order of appearance.
  function AddrsOf(infos: seq<AddrInfo>, id: PeerId): seq<Addr> {
    if infos == [] then []
    else
      var init, last := infos[..|infos| - 1], infos[|infos| - 1];
      AddrsOf(init, id) + (if last.id == id then last.addrs else [])
  }

  // A list grouped by peer: each once, where it first appeared, with all its addresses.
  function Grouped(infos: seq<AddrInfo>): (groups: seq<AddrInfo>)
    ensures |groups| == |Ids(infos)|
    ensures forall i :: 0 <= i < |groups| ==> groups[i] == AddrInfo(Ids(infos)[i], AddrsOf(infos, Ids(infos)[i]))
  {
    var ids := Ids(infos);
    seq(|ids|, i requires 0 <= i < |ids| => AddrInfo(ids[i], AddrsOf(infos, ids[i])))
  }

  // One list entered into a list of distinct peers: appended to its peer, or put last.
  function Added(infos: seq<AddrInfo>, more: AddrInfo): seq<AddrInfo> {
    if infos == [] then [more]
    else if infos[0].id == more.id then [AddrInfo(more.id, infos[0].addrs + more.addrs)] + infos[1..]
    else [infos[0]] + Added(infos[1..], more)
  }

  function Merged(infos: seq<AddrInfo>, more: seq<AddrInfo>): seq<AddrInfo> {
    if more == [] then infos
    else Added(Merged(infos, more[..|more| - 1]), more[|more| - 1])
  }

  // The addresses that parse, in order, each with its peer.
  function Readable(parse: Parser, texts: seq<string>): seq<AddrInfo> {
    if texts == [] then []
    else
      var last := parse(texts[|texts| - 1]);
      Readable(parse, texts[..|texts| - 1]) + (if last.Some? then [last.value] else [])
  }

  lemma OneMoreText(parse: Parser, texts: seq<string>, i: nat)
    requires i < |texts|
    ensures var parsed := parse(texts[i]);
      Readable(parse, texts[..i + 1]) == Readable(parse, texts[..i]) + (if parsed.Some? then [parsed.value] else [])
  {
    assert texts[..i + 1][..i] == texts[..i];
  }

  lemma OneMoreId(infos: seq<AddrInfo>, more: AddrInfo)
    ensures Ids(infos + [more]) == Ids(infos) + (if Holds(infos, more.id) then [] else [more.id])
  {
    assert (infos + [more])[..|infos|] == infos;
  }

  // What the loop holds after the addresses that gave `xs`: where each peer's list stands, and
  // the order the peers came in.
  ghost predicate Collected(infos: map<PeerId, seq<Addr>>, order: seq<PeerId>, xs: seq<AddrInfo>) {
    && order == Ids(xs)
    && (forall id :: id in infos <==> Holds(xs, id))
    && (forall id :: id in infos ==> infos[id] == AddrsOf(xs, id))
  }

  lemma NothingCollected()
    ensures Collected(map[], [], [])
  {
  }

  lemma OneMoreCollected(infos: map<PeerId, seq<Addr>>, order: seq<PeerId>, xs: seq<AddrInfo>, more: AddrInfo)
    requires Collected(infos, order, xs)
    ensures var held := if more.id in infos then infos[more.id] else [];
      Collected(infos[more.id := held + more.addrs], if more.id in infos then order else order + [more.id], xs + [more])
  {
    HoldsMore(xs, more);
    OneMoreId(xs, more);
    OneMoreAddrs(xs, more);
    NoAddrsOf(xs, more.id);
    hide Ids, AddrsOf, Holds;
  }

  lemma CollectedHolds(infos: map<PeerId, seq<Addr>>, order: seq<PeerId>, xs: seq<AddrInfo>)
    requires Collected(infos, order, xs)
    ensures order == Ids(xs)
    ensures forall i :: 0 <= i < |order| ==> order[i] in infos && infos[order[i]] == AddrsOf(xs, order[i])
  {
    IdsAreHeld(xs);
  }

  method ParsePeers(parse: Parser, texts: seq<string>) returns (peers: seq<AddrInfo>)
    ensures peers == Grouped(Readable(parse, texts))
  {
    var infos: map<PeerId, seq<Addr>> := map[];
    var order: seq<PeerId> := [];
    ghost var xs: seq<AddrInfo> := [];
    NothingCollected();
    hide Ids, AddrsOf, Holds, Collected, Grouped;

    for i := 0 to |texts|
      invariant xs == Readable(parse, texts[..i]) && Collected(infos, order, xs)
    {
      OneMoreText(parse, texts, i);
      var parsed := parse(texts[i]);
      if parsed.None? {
        continue;
      }

      var more := parsed.value;
      OneMoreCollected(infos, order, xs, more);
      xs := xs + [more];
      ghost var was := infos;

      if more.id !in infos {
        infos := infos[more.id := []];
        order := order + [more.id];
      }
      infos := infos[more.id := infos[more.id] + more.addrs];
      assert infos == was[more.id := (if more.id in was then was[more.id] else []) + more.addrs];
    }
    assert texts[..|texts|] == texts;
    CollectedHolds(infos, order, xs);

    peers := [];
    for i := 0 to |order|
      invariant |peers| == i
      invariant forall j :: 0 <= j < i ==> peers[j] == AddrInfo(order[j], AddrsOf(xs, order[j]))
    {
      peers := peers + [AddrInfo(order[i], infos[order[i]])];
    }
    GroupedIs(xs, peers);
  }

  lemma GroupedIs(infos: seq<AddrInfo>, groups: seq<AddrInfo>)
    requires |groups| == |Ids(infos)|
    requires forall i :: 0 <= i < |groups| ==> groups[i] == AddrInfo(Ids(infos)[i], AddrsOf(infos, Ids(infos)[i]))
    ensures groups == Grouped(infos)
  {
  }

  lemma HoldsMore(infos: seq<AddrInfo>, more: AddrInfo)
    ensures forall id :: Holds(infos + [more], id) <==> Holds(infos, id) || id == more.id
  {
    forall id ensures Holds(infos + [more], id) <==> Holds(infos, id) || id == more.id {
      if Holds(infos, id) {
        var i :| 0 <= i < |infos| && infos[i].id == id;
        assert (infos + [more])[i].id == id;
      }
      if id == more.id {
        assert (infos + [more])[|infos|].id == id;
      }
    }
  }

  lemma OneMoreAddrs(infos: seq<AddrInfo>, more: AddrInfo)
    ensures forall id :: AddrsOf(infos + [more], id) == AddrsOf(infos, id) + (if id == more.id then more.addrs else [])
  {
    assert (infos + [more])[..|infos|] == infos;
  }

  lemma {:induction false} NoAddrsOf(infos: seq<AddrInfo>, id: PeerId)
    ensures !Holds(infos, id) ==> AddrsOf(infos, id) == []
  {
    if infos != [] && !Holds(infos, id) {
      var last := |infos| - 1;
      assert infos[last].id != id;
      assert forall i :: 0 <= i < last ==> infos[..last][i] == infos[i];
      NoAddrsOf(infos[..last], id);
    }
  }

  // The group list names each peer of the list once.
  lemma {:induction false} IdsAreHeld(infos: seq<AddrInfo>)
    ensures forall id :: id in Ids(infos) <==> Holds(infos, id)
    ensures forall i, j :: 0 <= i < j < |Ids(infos)| ==> Ids(infos)[i] != Ids(infos)[j]
  {
    if infos != [] {
      var init, last := infos[..|infos| - 1], infos[|infos| - 1];
      IdsAreHeld(init);
      HoldsMore(init, last);
      assert init + [last] == infos;
    }
  }

  // ---------------------------------------------------------------- concatenation

  function Extended(info: AddrInfo, more: AddrInfo): AddrInfo {
    AddrInfo(info.id, info.addrs + (if info.id == more.id then more.addrs else []))
  }

  lemma {:induction false} AddedAt(infos: seq<AddrInfo>, more: AddrInfo)
    requires Distinct(infos)
    ensures |Added(infos, more)| == |infos| + (if Holds(infos, more.id) then 0 else 1)
    ensures forall i :: 0 <= i < |infos| ==> Added(infos, more)[i] == Extended(infos[i], more)
    ensures !Holds(infos, more.id) ==> Added(infos, more)[|infos|] == more
  {
    if infos != [] {
      if infos[0].id == more.id {
        assert Holds(infos, more.id);
      } else {
        AddedAt(infos[1..], more);
        assert Holds(infos[1..], more.id) <==> Holds(infos, more.id) by {
          assert [infos[0]] + infos[1..] == infos;
          HoldsBehind(infos, more.id);
        }
      }
    }
  }

  lemma HoldsBehind(infos: seq<AddrInfo>, id: PeerId)
    requires infos != [] && infos[0].id != id
    ensures Holds(infos[1..], id) <==> Holds(infos, id)
  {
    if Holds(infos, id) {
      var i :| 0 <= i < |infos| && infos[i].id == id;
      assert infos[1..][i - 1].id == id;
    }
  }

  lemma GroupedIsDistinct(infos: seq<AddrInfo>)
    ensures Distinct(Grouped(infos))
    ensures forall id :: Holds(Grouped(infos), id) <==> Holds(infos, id)
  {
    IdsAreHeld(infos);
    forall id ensures Holds(Grouped(infos), id) <==> Holds(infos, id) {
      if id in Ids(infos) {
        var i :| 0 <= i < |Ids(infos)| && Ids(infos)[i] == id;
        assert Grouped(infos)[i].id == id;
      }
    }
  }

  // Grouping one list more is entering it into the groups.
  lemma GroupedOneMore(infos: seq<AddrInfo>, more: AddrInfo)
    ensures Grouped(infos + [more]) == Added(Grouped(infos), more)
  {
    hide AddrsOf, Added, Distinct;
    var all, groups := infos + [more], Grouped(infos);
    assert all[..|infos|] == infos;
    GroupedIsDistinct(infos);
    AddedAt(groups, more);
    OneMoreAddrs(infos, more);
    NoAddrsOf(infos, more.id);
    assert Ids(all) == Ids(infos) + (if Holds(infos, more.id) then [] else [more.id]);
    forall i | 0 <= i < |groups| ensures Grouped(all)[i] == Extended(groups[i], more) {
    }
    if !Holds(infos, more.id) {
      assert AddrsOf(all, more.id) == [] + more.addrs == more.addrs;
      assert Grouped(all)[|groups|] == more;
    }
    assert |Grouped(all)| == |Added(groups, more)|;
    assert Grouped(all) == Added(groups, more);
  }

  lemma {:induction false} GroupedMerge(infos: seq<AddrInfo>, more: seq<AddrInfo>)
    ensures Grouped(infos + more) == Merged(Grouped(infos), more)
  {
    if more == [] {
      assert infos + more == infos;
    } else {
      var init, last := more[..|more| - 1], more[|more| - 1];
      GroupedMerge(infos, init);
      GroupedOneMore(infos + init, last);
      assert infos + more == (infos + init) + [last];
    }
  }

  lemma {:induction false} AddrsOfConcat(a: seq<AddrInfo>, b: seq<AddrInfo>, id: PeerId)
    ensures AddrsOf(a + b, id) == AddrsOf(a, id) + AddrsOf(b, id)
  {
    if b == [] {
      assert a + b == a;
    } else {
      assert (a + b)[..|a + b| - 1] == a + b[..|b| - 1];
      AddrsOfConcat(a, b[..|b| - 1], id);
    }
  }

  function Without(ids: seq<PeerId>, infos: seq<AddrInfo>): seq<PeerId> {
    if ids == [] then []
    else
      var last := ids[|ids| - 1];
      Without(ids[..|ids| - 1], infos) + (if Holds(infos, last) then [] else [last])
  }

  lemma HoldsConcat(a: seq<AddrInfo>, b: seq<AddrInfo>, id: PeerId)
    ensures Holds(a + b, id) <==> Holds(a, id) || Holds(b, id)
  {
    if Holds(a, id) {
      var i :| 0 <= i < |a| && a[i].id == id;
      assert (a + b)[i].id == id;
    }
    if Holds(b, id) {
      var i :| 0 <= i < |b| && b[i].id == id;
      assert (a + b)[|a| + i].id == id;
    }
  }

  lemma {:induction false} IdsConcat(a: seq<AddrInfo>, b: seq<AddrInfo>)
    ensures Ids(a + b) == Ids(a) + Without(Ids(b), a)
  {
    if b == [] {
      assert a + b == a;
    } else {
      var init, last := b[..|b| - 1], b[|b| - 1];
      assert (a + b)[..|a + b| - 1] == a + init;
      IdsConcat(a, init);
      HoldsConcat(a, init, last.id);
      assert (Ids(init) + [last.id])[..|Ids(init)|] == Ids(init);
    }
  }

  lemma {:induction false} DistinctGroups(infos: seq<AddrInfo>)
    requires Distinct(infos)
    ensures Grouped(infos) == infos
  {
    if infos != [] {
      var init, last := infos[..|infos| - 1], infos[|infos| - 1];
      DistinctGroups(init);
      assert !Holds(init, last.id);
      GroupedOneMore(init, last);
      assert init + [last] == infos;
      AddedAt(init, last);
      forall i | 0 <= i < |init| ensures Extended(init[i], last) == init[i] {
        assert init[i].addrs + [] == init[i].addrs;
      }
      assert Added(init, last) == init + [last];
    }
  }

  lemma SameGroups(a: seq<AddrInfo>, b: seq<AddrInfo>)
    requires Ids(a) == Ids(b) && forall id :: AddrsOf(a, id) == AddrsOf(b, id)
    ensures Grouped(a) == Grouped(b)
  {
  }

  lemma {:induction false} GroupedKeeps(infos: seq<AddrInfo>, id: PeerId)
    ensures Ids(Grouped(infos)) == Ids(infos)
    ensures AddrsOf(Grouped(infos), id) == AddrsOf(infos, id)
  {
    var groups := Grouped(infos);
    GroupedIsDistinct(infos);
    DistinctGroups(groups);
    assert Ids(groups) == Ids(infos) by {
      forall i | 0 <= i < |groups| ensures Ids(groups)[i] == Ids(infos)[i] {
        assert Grouped(groups)[i].id == groups[i].id;
      }
    }
    if Holds(infos, id) {
      IdsAreHeld(infos);
      var i :| 0 <= i < |Ids(infos)| && Ids(infos)[i] == id;
      assert Grouped(groups)[i] == groups[i];
    } else {
      NoAddrsOf(infos, id);
      NoAddrsOf(groups, id);
    }
  }

  lemma {:induction false} ReadableConcat(parse: Parser, a: seq<string>, b: seq<string>)
    ensures Readable(parse, a + b) == Readable(parse, a) + Readable(parse, b)
  {
    if b == [] {
      assert a + b == a;
    } else {
      assert (a + b)[..|a + b| - 1] == a + b[..|b| - 1];
      ReadableConcat(parse, a, b[..|b| - 1]);
    }
  }

  // One address gives its peer and address if it parses, and nothing if it does not, and two
  // results are merged peer by peer: a known peer keeps its place and takes the addresses at its
  // end, a new one goes last.
  lemma ParsingOne(parse: Parser, text: string)
    ensures Grouped(Readable(parse, [text])) == if parse(text).Some? then [parse(text).value] else []
    ensures Readable(parse, []) == [] && Grouped([]) == []
  {
    assert [text][..0] == [];
    assert Readable(parse, []) == [];
    if parse(text).Some? {
      DistinctGroups([parse(text).value]);
    }
  }

  lemma MergingOne(infos: seq<AddrInfo>, more: AddrInfo)
    requires Distinct(infos)
    ensures var merged := Merged(infos, [more]);
      && (forall i :: 0 <= i < |infos| ==>
            |merged| > i && merged[i].id == infos[i].id
            && merged[i].addrs == if infos[i].id == more.id then infos[i].addrs + more.addrs else infos[i].addrs)
      && (if exists i :: 0 <= i < |infos| && infos[i].id == more.id then |merged| == |infos|
          else |merged| == |infos| + 1 && merged[|infos|] == more)
  {
    assert [more][..0] == [];
    assert Merged(infos, []) == infos;
    AddedAt(infos, more);
  }

  lemma {:induction false} MergingConcat(infos: seq<AddrInfo>, a: seq<AddrInfo>, b: seq<AddrInfo>)
    ensures Merged(infos, a + b) == Merged(Merged(infos, a), b)
    ensures Merged(infos, []) == infos
  {
    if b == [] {
      assert a + b == a;
    } else {
      assert (a + b)[..|a + b| - 1] == a + b[..|b| - 1];
      MergingConcat(infos, a, b[..|b| - 1]);
    }
  }

  // What two lists parse to together is what the one parses to with what the other parses to
  // merged in; each result lists a peer once.
  lemma ParsingMerges(parse: Parser, a: seq<string>, b: seq<string>)
    ensures var x, y := Grouped(Readable(parse, a)), Grouped(Readable(parse, b));
      Distinct(x) && Grouped(Readable(parse, a + b)) == Merged(x, y)
  {
    var xs, ys := Readable(parse, a), Readable(parse, b);
    ReadableConcat(parse, a, b);
    GroupedIsDistinct(xs);
    GroupedMerge(xs, Grouped(ys));
    IdsConcat(xs, ys);
    IdsConcat(xs, Grouped(ys));
    forall id ensures AddrsOf(xs + ys, id) == AddrsOf(xs + Grouped(ys), id) {
      AddrsOfConcat(xs, ys, id);
      AddrsOfConcat(xs, Grouped(ys), id);
      GroupedKeeps(ys, id);
    }
    GroupedKeeps(ys, "");
    SameGroups(xs + ys, xs + Grouped(ys));
  }
}
