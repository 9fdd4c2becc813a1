/**
 `materialise` of client/node.go: writing a verified DAG to disk, where its author chose
 every name, every kind and every declared size.
 */
module Materialise {
  import opened Wrappers
  import opened Paths
  import opened FixedWidth
  import opened Disk

  datatype Dag = Symlink(target: string) | File(body: Bytes) | Dir(entries: seq<Entry>) | Strange

  datatype Entry = Entry(name: string, node: Dag)

  predicate ValidEntryName(name: string) {
    name != "" && name != "." && name != ".." && '/' !in name && '\0' !in name
  }

  // A valid entry name is a component, and names no other directory.
  lemma ValidNamesArePlain(name: string)
    ensures ValidEntryName(name) <==> Plain(name) && '\0' !in name
  {
  }

  // ---------------------------------------------------------------- what is acceptable

  // Only files and directories, under valid names, no two alike in one directory.
  predicate Writable(nd: Dag)
    decreases nd, 1
  {
    match nd
    case File(_) => true
    case Dir(entries) => WritableAll(entries)
    case _ => false
  }

  predicate WritableAll(es: seq<Entry>)
    decreases es, 0
  {
    es != [] ==>
      var init, last := es[..|es| - 1], es[|es| - 1];
      WritableAll(init) && ValidEntryName(last.name) && !Names(init, last.name) && Writable(last.node)
  }

  predicate Names(es: seq<Entry>, name: string) {
    exists i :: 0 <= i < |es| && es[i].name == name
  }

  function Size(nd: Dag): nat
    decreases nd, 1
  {
    match nd
    case File(body) => |body|
    case Dir(entries) => SizeAll(entries)
    case _ => 0
  }

  function SizeAll(es: seq<Entry>): nat
    decreases es, 0
  {
    if es == [] then 0 else SizeAll(es[..|es| - 1]) + Size(es[|es| - 1].node)
  }

  // The subtree a DAG stands for, rooted at `path`.
  function Tree(nd: Dag, path: Path): Fs
    decreases nd, 1
  {
    match nd
    case File(body) => map[path := Regular(body)]
    case Dir(entries) => map[path := Folder] + TreeAll(entries, path)
    case _ => map[]
  }

  function TreeAll(es: seq<Entry>, path: Path): Fs
    decreases es, 0
  {
    if es == [] then map[]
    else
      var last := es[|es| - 1];
      TreeAll(es[..|es| - 1], path) + Tree(last.node, path + [last.name])
  }

  // What arrives of a DAG: under the largest limit every file is cut to nothing.
  function Delivered(nd: Dag, limit: int): Dag
    decreases nd, 1
  {
    match nd
    case File(body) => File(Arriving(body, limit))
    case Dir(entries) => Dir(DeliveredAll(entries, limit))
    case _ => nd
  }

  function DeliveredAll(es: seq<Entry>, limit: int): (ds: seq<Entry>)
    ensures |ds| == |es|
    decreases es, 0
  {
    if es == [] then []
    else
      var last := es[|es| - 1];
      DeliveredAll(es[..|es| - 1], limit) + [Entry(last.name, Delivered(last.node, limit))]
  }

  lemma {:induction false} DeliveredWhole(nd: Dag, limit: int)
    requires limit != MAX_INT64
    ensures Delivered(nd, limit) == nd
    decreases nd, 1
  {
    if nd.Dir? {
      DeliveredAllWhole(nd.entries, limit);
    }
  }

  lemma {:induction false} DeliveredAllWhole(es: seq<Entry>, limit: int)
    requires limit != MAX_INT64
    ensures DeliveredAll(es, limit) == es
    decreases es, 0
  {
    if es != [] {
      DeliveredAllWhole(es[..|es| - 1], limit);
      DeliveredWhole(es[|es| - 1].node, limit);
    }
  }

  lemma {:induction false} DeliveredEmpty(nd: Dag)
    ensures Size(Delivered(nd, MAX_INT64)) == 0
    decreases nd, 1
  {
    if nd.Dir? {
      DeliveredAllEmpty(nd.entries);
    }
  }

  lemma {:induction false} DeliveredAllEmpty(es: seq<Entry>)
    ensures SizeAll(DeliveredAll(es, MAX_INT64)) == 0
    decreases es, 0
  {
    if es != [] {
      var ds := DeliveredAll(es, MAX_INT64);
      assert ds[..|ds| - 1] == DeliveredAll(es[..|es| - 1], MAX_INT64);
      DeliveredAllEmpty(es[..|es| - 1]);
      DeliveredEmpty(es[|es| - 1].node);
    }
  }

  // Somewhere in the DAG is a reason to fail like this.
  predicate Flawed(nd: Dag, fault: Fault) {
    match nd
    case File(_) => false
    case Dir(entries) =>
      || (fault == BadName && exists i :: 0 <= i < |entries| && !ValidEntryName(entries[i].name))
      || (fault == Blocked && exists i, j :: 0 <= i < j < |entries| && entries[i].name == entries[j].name)
      || exists i :: 0 <= i < |entries| && Flawed(entries[i].node, fault)
    case _ => fault == Unsupported
  }

  // A fault, other than for what is at `path` already, that the DAG and the limit account for.
  predicate Deserved(nd: Dag, fault: Fault, limit: int, total: int) {
    Flawed(nd, fault) || (limit > 0 && total > limit && fault == TooBig(limit + 1, limit))
  }

  // ---------------------------------------------------------------- where trees lie

  lemma {:induction false} TreeLiesUnder(nd: Dag, path: Path, p: Path)
    requires p in Tree(nd, path)
    ensures path <= p
    decreases nd, 1
  {
    if nd.Dir? && p != path {
      var name := TreeAllLiesUnder(nd.entries, path, p);
    }
  }

  lemma {:induction false} TreeAllLiesUnder(es: seq<Entry>, path: Path, p: Path) returns (name: string)
    requires p in TreeAll(es, path)
    ensures Names(es, name) && path + [name] <= p
    decreases es, 0
  {
    var init, last := es[..|es| - 1], es[|es| - 1];
    if p in Tree(last.node, path + [last.name]) {
      TreeLiesUnder(last.node, path + [last.name], p);
      name := last.name;
    } else {
      name := TreeAllLiesUnder(init, path, p);
      var i :| 0 <= i < |init| && init[i].name == name;
      assert es[i].name == name;
    }
  }

  lemma {:induction false} EntriesAreThere(es: seq<Entry>, path: Path, i: nat)
    requires WritableAll(es) && i < |es|
    ensures path + [es[i].name] in TreeAll(es, path)
    decreases es, 0
  {
    var init := es[..|es| - 1];
    if i < |init| {
      EntriesAreThere(init, path, i);
    } else {
      RootIsThere(es[i].node, path + [es[i].name]);
    }
  }

  lemma RootIsThere(nd: Dag, path: Path)
    requires Writable(nd)
    ensures path in Tree(nd, path)
  {
  }

  // An entry's place is taken exactly when an entry before it had its name.
  lemma PlaceTaken(fs: Fs, es: seq<Entry>, path: Path, name: string)
    requires Closed(fs) && path !in fs && WritableAll(es)
    ensures path + [name] in fs + map[path := Folder] + TreeAll(es, path) <==> Names(es, name)
  {
    var place := path + [name];
    if place in fs {
      AncestorsAreFolders(fs, place, path);
    }
    if place in TreeAll(es, path) {
      var other := TreeAllLiesUnder(es, path, place);
      assert place[|path|] == other;
    }
    if Names(es, name) {
      var i :| 0 <= i < |es| && es[i].name == name;
      EntriesAreThere(es, path, i);
    }
    assert place != path;
  }

  lemma {:induction false} DeliveredAt(es: seq<Entry>, limit: int, i: nat)
    requires i < |es|
    ensures DeliveredAll(es, limit)[i] == Entry(es[i].name, Delivered(es[i].node, limit))
    decreases |es|
  {
    if i < |es| - 1 {
      DeliveredAt(es[..|es| - 1], limit, i);
    }
  }

  // `WritableAll` without the recursion.
  lemma {:induction false} WritableAllMeans(es: seq<Entry>)
    ensures WritableAll(es) <==>
      && (forall i :: 0 <= i < |es| ==> ValidEntryName(es[i].name) && Writable(es[i].node))
      && (forall i, j :: 0 <= i < j < |es| ==> es[i].name != es[j].name)
    decreases |es|
  {
    if es != [] {
      var init, last := es[..|es| - 1], |es| - 1;
      WritableAllMeans(init);
      if Names(init, es[last].name) {
        var i :| 0 <= i < |init| && init[i].name == es[last].name;
        assert es[i].name == es[last].name;
      } else if WritableAll(es) {
        forall i | 0 <= i < last ensures es[i].name != es[last].name {
          assert init[i] == es[i];
        }
        forall i, j | 0 <= i < j < |es| ensures es[i].name != es[j].name {
          assert j < last ==> init[i].name != init[j].name;
        }
      } else {
        forall i | 0 <= i < last ensures init[i] == es[i] {
        }
      }
    }
  }

  lemma {:induction false} BeginningWritable(es: seq<Entry>, n: nat)
    requires n <= |es|
    ensures WritableAll(es) ==> WritableAll(es[..n])
    ensures SizeAll(es[..n]) <= SizeAll(es)
    decreases |es|
  {
    if n < |es| {
      assert es[..|es| - 1][..n] == es[..n];
      BeginningWritable(es[..|es| - 1], n);
    } else {
      assert es[..n] == es;
    }
  }

  // What may be written: files, and directories of what may be, under valid, distinct names.
  lemma WhatIsWritable(nd: Dag)
    ensures nd.File? ==> Writable(nd)
    ensures nd.Symlink? || nd.Strange? ==> !Writable(nd)
    ensures nd.Dir? ==> (Writable(nd) <==>
      && (forall i :: 0 <= i < |nd.entries| ==> ValidEntryName(nd.entries[i].name) && Writable(nd.entries[i].node))
      && (forall i, j :: 0 <= i < j < |nd.entries| ==> nd.entries[i].name != nd.entries[j].name))
  {
    if nd.Dir? {
      WritableAllMeans(nd.entries);
    }
  }

  // What each fault says of the DAG, wherever in it the fault lies.
  lemma WhatFlawsMean(nd: Dag, fault: Fault)
    ensures nd.File? ==> !Flawed(nd, fault)
    ensures nd.Symlink? || nd.Strange? ==> (Flawed(nd, fault) <==> fault == Unsupported)
    ensures nd.Dir? ==> (Flawed(nd, fault) <==>
      || (exists i :: 0 <= i < |nd.entries| && Flawed(nd.entries[i].node, fault))
      || (fault == BadName && !(forall i :: 0 <= i < |nd.entries| ==> Plain(nd.entries[i].name) && '\0' !in nd.entries[i].name))
      || (fault == Blocked && !(forall i, j :: 0 <= i < j < |nd.entries| ==> nd.entries[i].name != nd.entries[j].name)))
  {
    if nd.Dir? {
      forall i | 0 <= i < |nd.entries|
        ensures ValidEntryName(nd.entries[i].name) <==> Plain(nd.entries[i].name) && '\0' !in nd.entries[i].name
      {
        ValidNamesArePlain(nd.entries[i].name);
      }
    }
  }

  // The bytes on disk are those of the DAG's files.
  lemma {:induction false} SizeIsOnDisk(nd: Dag, path: Path)
    requires Writable(nd)
    ensures BytesIn(Tree(nd, path)) == Size(nd)
    decreases nd, 1
  {
    match nd
    case File(body) =>
      BytesPut(map[], path, Regular(body));
    case Dir(entries) =>
      SizeAllIsOnDisk(entries, path);
      if path in TreeAll(entries, path) {
        var name := TreeAllLiesUnder(entries, path, path);
      }
      BytesPut(map[], path, Folder);
      BytesTogether(map[path := Folder], TreeAll(entries, path));
  }

  lemma {:induction false} SizeAllIsOnDisk(es: seq<Entry>, path: Path)
    requires WritableAll(es)
    ensures BytesIn(TreeAll(es, path)) == SizeAll(es)
    decreases es, 0
  {
    if es != [] {
      var init, last := es[..|es| - 1], es[|es| - 1];
      SizeAllIsOnDisk(init, path);
      SizeIsOnDisk(last.node, path + [last.name]);
      TreesApart(init, last, path);
      BytesTogether(TreeAll(init, path), Tree(last.node, path + [last.name]));
    }
  }

  // Entries of distinct names lie apart.
  lemma TreesApart(es: seq<Entry>, last: Entry, path: Path)
    requires !Names(es, last.name)
    ensures TreeAll(es, path).Keys !! Tree(last.node, path + [last.name]).Keys
  {
    forall p | p in TreeAll(es, path) ensures p !in Tree(last.node, path + [last.name]) {
      var name := TreeAllLiesUnder(es, path, p);
      assert p[|path|] == name;
      if p in Tree(last.node, path + [last.name]) {
        TreeLiesUnder(last.node, path + [last.name], p);
      }
    }
  }

  // ---------------------------------------------------------------- reading it back

  // Walking finds the DAG itself where the walk begins, the entry of the next name below a
  // directory, and nothing below anything else.
  lemma LookupFinds(nd: Dag, names: Path)
    ensures Lookup(nd, []) == Some(nd)
    ensures nd.Dir? && Writable(nd) ==>
      forall i :: 0 <= i < |nd.entries| ==> Lookup(nd, [nd.entries[i].name] + names) == Lookup(nd.entries[i].node, names)
    ensures names != [] && (nd.Dir? ==> forall i :: 0 <= i < |nd.entries| ==> nd.entries[i].name != names[0]) ==>
      Lookup(nd, names) == None
  {
    if nd.Dir? && Writable(nd) {
      forall i | 0 <= i < |nd.entries| ensures Lookup(nd, [nd.entries[i].name] + names) == Lookup(nd.entries[i].node, names) {
        FindsIts(nd.entries, i);
        var walk := [nd.entries[i].name] + names;
        assert walk[0] == nd.entries[i].name && walk[1..] == names;
      }
    }
    if names != [] && nd.Dir? {
      FindsNothing(nd.entries, names[0]);
    }
  }

  lemma {:induction false} FindsIts(es: seq<Entry>, i: nat)
    requires i < |es| && WritableAll(es)
    ensures Find(es, es[i].name) == Some(es[i].node)
  {
    WritableAllMeans(es);
    if i < |es| - 1 {
      FindsIts(es[..|es| - 1], i);
    }
  }

  lemma {:induction false} FindsNothing(es: seq<Entry>, name: string)
    ensures !Names(es, name) ==> Find(es, name) == None
  {
    if es != [] && !Names(es, name) {
      assert es[|es| - 1].name != name;
      assert !Names(es[..|es| - 1], name) by {
        assert forall i :: 0 <= i < |es| - 1 ==> es[..|es| - 1][i] == es[i];
      }
      FindsNothing(es[..|es| - 1], name);
    }
  }

  function Find(es: seq<Entry>, name: string): Option<Dag> {
    if es == [] then None
    else if es[|es| - 1].name == name then Some(es[|es| - 1].node)
    else Find(es[..|es| - 1], name)
  }

  // What walking a DAG down a sequence of names finds.
  function Lookup(nd: Dag, names: Path): Option<Dag>
    decreases |names|
  {
    if names == [] then Some(nd)
    else if !nd.Dir? then None
    else
      var next := Find(nd.entries, names[0]);
      if next.None? then None else Lookup(next.value, names[1..])
  }

  function LookupIn(es: seq<Entry>, names: Path): Option<Dag>
    requires names != []
  {
    var next := Find(es, names[0]);
    if next.None? then None else Lookup(next.value, names[1..])
  }

  predicate Shows(fs: Fs, path: Path, found: Option<Dag>) {
    match found
    case None => path !in fs
    case Some(File(body)) => path in fs && fs[path] == Regular(body)
    case Some(Dir(_)) => path in fs && fs[path] == Folder
    case _ => false
  }

  // Below `path` the disk shows at every sequence of names what the DAG has there, and
  // nothing where it has nothing.
  lemma {:induction false} TreeIsTheDag(nd: Dag, path: Path, names: Path)
    requires Writable(nd)
    ensures Shows(Tree(nd, path), path + names, Lookup(nd, names))
    decreases nd, 1
  {
    if names == [] {
      assert path + names == path;
      if nd.Dir? && path in TreeAll(nd.entries, path) {
        var name := TreeAllLiesUnder(nd.entries, path, path);
      }
    } else {
      assert path + names != path;
      if nd.Dir? {
        EntriesAreTheDag(nd.entries, path, names);
      }
    }
  }

  lemma {:induction false} EntriesAreTheDag(es: seq<Entry>, path: Path, names: Path)
    requires WritableAll(es) && names != []
    ensures Shows(TreeAll(es, path), path + names, LookupIn(es, names))
    decreases es, 0
  {
    if es != [] {
      var init, last := es[..|es| - 1], es[|es| - 1];
      var place := path + [last.name];
      assert place + names[1..] == (if names[0] == last.name then path + names else place + names[1..]);
      if names[0] == last.name {
        TreeIsTheDag(last.node, place, names[1..]);
        NotAmong(init, path, names);
      } else {
        EntriesAreTheDag(init, path, names);
        NotBeneath(last, path, names);
      }
    }
  }

  lemma NotAmong(es: seq<Entry>, path: Path, names: Path)
    requires names != [] && !Names(es, names[0])
    ensures path + names !in TreeAll(es, path)
  {
    assert (path + names)[|path|] == names[0];
    if path + names in TreeAll(es, path) {
      var other := TreeAllLiesUnder(es, path, path + names);
      assert false;
    }
  }

  lemma NotBeneath(e: Entry, path: Path, names: Path)
    requires names != [] && e.name != names[0]
    ensures path + names !in Tree(e.node, path + [e.name])
  {
    assert (path + names)[|path|] == names[0];
    if path + names in Tree(e.node, path + [e.name]) {
      TreeLiesUnder(e.node, path + [e.name], path + names);
      assert false;
    }
  }

  // ---------------------------------------------------------------- one entry more

  predicate Fits(limit: int, total: int) {
    limit <= 0 || total <= limit
  }

  // What is there stays as it is, and what is new lies at or below `path`.
  ghost predicate OnlyBelow(before: Fs, after: Fs, path: Path) {
    && (forall p :: p in before ==> p in after && after[p] == before[p])
    && (forall p :: p in after && p !in before ==> path <= p)
  }

  function Begun(fs: Fs, es: seq<Entry>, path: Path): Fs {
    fs + map[path := Folder] + TreeAll(es, path)
  }

  lemma TopIsFolder(fs: Fs, es: seq<Entry>, path: Path)
    ensures path in Begun(fs, es, path) && Begun(fs, es, path)[path] == Folder
  {
    if path in TreeAll(es, path) {
      var name := TreeAllLiesUnder(es, path, path);
    }
  }

  // When an entry can go in beside those before it, and what it adds.
  lemma OneEntryMore(fs: Fs, ds: seq<Entry>, i: nat, path: Path)
    requires Closed(fs) && path !in fs && i < |ds| && WritableAll(ds[..i])
    ensures var d, place := ds[i], path + [ds[i].name];
      && (Creatable(Begun(fs, ds[..i], path), place) <==> !Names(ds[..i], d.name))
      && (WritableAll(ds[..i + 1]) <==> ValidEntryName(d.name) && !Names(ds[..i], d.name) && Writable(d.node))
      && SizeAll(ds[..i + 1]) == SizeAll(ds[..i]) + Size(d.node)
      && Begun(fs, ds[..i], path) + Tree(d.node, place) == Begun(fs, ds[..i + 1], path)
  {
    var place := path + [ds[i].name];
    assert ds[..i + 1][..i] == ds[..i];
    assert place[..|place| - 1] == path;
    PlaceTaken(fs, ds[..i], path, ds[i].name);
    TopIsFolder(fs, ds[..i], path);
  }

  lemma NothingBegun(fs: Fs, path: Path)
    ensures Begun(fs, [], path) == fs[path := Folder]
    ensures WritableAll([]) && SizeAll([]) == 0
  {
  }

  lemma BelowPut(fs: Fs, path: Path, node: Node)
    ensures OnlyBelow(fs, fs, path)
    ensures path !in fs ==> OnlyBelow(fs, fs[path := node], path)
  {
  }

  lemma BelowStep(a: Fs, b: Fs, c: Fs, path: Path, name: string)
    requires OnlyBelow(a, b, path) && OnlyBelow(b, c, path + [name])
    ensures OnlyBelow(a, c, path)
  {
    forall p | p in c && p !in a ensures path <= p {
      if p !in b {
        assert path + [name] <= p;
      }
    }
  }

  // What an entry fails for, its directory fails for.
  lemma DeservedBelow(nd: Dag, i: nat, fault: Fault, limit: int, sofar: int, total: int)
    requires nd.Dir? && i < |nd.entries| && sofar <= total
    requires (fault == Blocked && Names(DeliveredAll(nd.entries, limit)[..i], nd.entries[i].name))
      || Deserved(nd.entries[i].node, fault, limit, sofar)
    ensures Deserved(nd, fault, limit, total)
  {
    if !Deserved(nd.entries[i].node, fault, limit, sofar) {
      var ds := DeliveredAll(nd.entries, limit);
      var j :| 0 <= j < i && ds[..i][j].name == nd.entries[i].name;
      DeliveredAt(nd.entries, limit, j);
    }
  }

  lemma BadNameBelow(nd: Dag, i: nat, limit: int, total: int)
    requires nd.Dir? && i < |nd.entries| && !ValidEntryName(nd.entries[i].name)
    ensures Deserved(nd, BadName, limit, total)
  {
  }

  // Writing a DAG succeeds exactly when nothing is at `path` yet and its parent is there, the
  // DAG holds only files and directories under valid, distinct names, and its bytes are within
  // the limit. Then the subtree at `path` is the DAG, byte for byte. It fails only for a
  // reason that is there, and however it ends, nothing that was there changes and nothing
  // appears except below `path`.
  method Materialise(disk: Directory, nd: Dag, path: Path, limit: int, written: int)
    returns (total: int, fault: Option<Fault>)
    requires Int64(limit) && written >= 0 && (limit > 0 ==> written <= limit) && (limit == MAX_INT64 ==> written == 0)
    requires Closed(disk.fs) && WithinLimit(disk.budgets, limit)
    modifies disk
    ensures var d := Delivered(nd, limit);
      && (fault.None? <==> Creatable(old(disk.fs), path) && Writable(d) && Fits(limit, written + Size(d)))
      && (fault.None? ==>
            disk.fs == old(disk.fs) + Tree(d, path) && total == written + Size(d) == written + BytesIn(Tree(d, path)))
    ensures OnlyBelow(old(disk.fs), disk.fs, path)
    ensures Closed(disk.fs) && WithinLimit(disk.budgets, limit)
    ensures fault.Some? ==>
      || (fault.value == Blocked && !Creatable(old(disk.fs), path))
      || Deserved(nd, fault.value, limit, written + Size(Delivered(nd, limit)))
    decreases nd
  {
    hide Closed, Under, OnlyBelow, WithinLimit, Landed, WritableAll, SizeAll, TreeAll, DeliveredAll, BytesIn;
    BelowPut(disk.fs, path, Folder);
    if Writable(Delivered(nd, limit)) {
      SizeIsOnDisk(Delivered(nd, limit), path);
    }
    match nd {
      case Symlink(_) =>
        return written, Some(Unsupported);

      case File(body) =>
        var remaining := if limit > 0 then limit - written else -1;
        ShareOfLimit(body, limit, written);
        WithinLimitGrows(disk.budgets, remaining, limit);
        if Creatable(disk.fs, path) {
          CreatingKeepsClosed(disk.fs, path, Regular(Landed(body, remaining)));
          BelowPut(disk.fs, path, Regular(Landed(body, remaining)));
        }
        var count, error := disk.WriteLimited(path, body, remaining);
        return written + count, SizeLimitWithTotals(error, written + count, limit);

      case Dir(entries) =>
        if Creatable(disk.fs, path) {
          CreatingKeepsClosed(disk.fs, path, Folder);
        }
        var made := disk.Mkdir(path);
        if !made {
          return written, Some(Blocked);
        }
        total, fault := MaterialiseEntries(disk, nd, old(disk.fs), path, limit, written);

      case Strange =>
        return written, Some(Unsupported);
    }
  }

  // The loop over a directory's entries, once the directory is made; `before` is the disk
  // without it.
  method MaterialiseEntries(disk: Directory, nd: Dag, ghost before: Fs, path: Path, limit: int, written: int)
    returns (total: int, fault: Option<Fault>)
    requires nd.Dir?
    requires Int64(limit) && written >= 0 && (limit > 0 ==> written <= limit) && (limit == MAX_INT64 ==> written == 0)
    requires Closed(before) && Creatable(before, path) && disk.fs == before[path := Folder]
    requires Closed(disk.fs) && WithinLimit(disk.budgets, limit)
    modifies disk
    ensures var ds := DeliveredAll(nd.entries, limit);
      && (fault.None? <==> WritableAll(ds) && Fits(limit, written + SizeAll(ds)))
      && (fault.None? ==> disk.fs == Begun(before, ds, path) && total == written + SizeAll(ds))
    ensures OnlyBelow(before, disk.fs, path)
    ensures Closed(disk.fs) && WithinLimit(disk.budgets, limit)
    ensures fault.Some? ==> Deserved(nd, fault.value, limit, written + SizeAll(DeliveredAll(nd.entries, limit)))
    decreases nd, 0
  {
    hide Closed, Under, OnlyBelow, WithinLimit, Begun, Writable, WritableAll, Size, SizeAll, Names, Flawed, Deserved;
    hide BytesIn, Tree, TreeAll, Delivered, DeliveredAll, ValidEntryName;
    var entries := nd.entries;
    ghost var ds := DeliveredAll(entries, limit);
    total, fault := written, None;
    NothingBegun(before, path);
    BelowPut(before, path, Folder);
    DeliveredAllEmpty(entries);

    for i := 0 to |entries|
      invariant fault == None
      invariant disk.fs == Begun(before, ds[..i], path)
      invariant WritableAll(ds[..i]) && total == written + SizeAll(ds[..i]) && (limit > 0 ==> total <= limit)
      invariant OnlyBelow(before, disk.fs, path)
      invariant Closed(disk.fs) && WithinLimit(disk.budgets, limit)
    {
      DeliveredAt(entries, limit, i);
      BeginningWritable(ds, i);
      BeginningWritable(ds, i + 1);
      OneEntryMore(before, ds, i, path);

      var name := entries[i].name;
      if !ValidEntryName(name) {
        BadNameBelow(nd, i, limit, written + SizeAll(ds));
        return total, Some(BadName);
      }

      ghost var sofar, reached := disk.fs, total;
      total, fault := Materialise(disk, entries[i].node, path + [name], limit, total);
      BelowStep(before, sofar, disk.fs, path, name);
      if fault.Some? {
        DeservedBelow(nd, i, fault.value, limit, reached + Size(Delivered(entries[i].node, limit)), written + SizeAll(ds));
        return;
      }
    }
    assert ds[..|entries|] == ds;
  }
}
