/**
 `extractTar` of client/fallback.go: unpacking an archive from a source nobody vouches for
 into an empty staging directory.
 */
module Tar {
  import opened Wrappers
  import opened Paths
  import opened FixedWidth
  import opened Disk

  datatype Kind = TypeDir | TypeReg | OtherType

  datatype Header = Header(name: string, kind: Kind, body: Bytes)

  datatype Extraction = Extracted(root: string, written: int) | Failed(fault: Fault, written: int)

  // Where an entry goes, below the staging directory; nowhere if its name cancels out.
  function Where(e: Header): Path {
    Components(e.name)
  }

  // ---------------------------------------------------------------- what is acceptable

  predicate Plausible(e: Header) {
    Where(e) != [] && e.kind != OtherType
  }

  // A file at, or above, the place of another entry.
  predicate Clash(e: Header, f: Header) {
    e.kind.TypeReg? && Where(e) <= Where(f)
  }

  predicate AllPlausible(es: seq<Header>) {
    forall i :: 0 <= i < |es| ==> Plausible(es[i])
  }

  predicate NoClash(es: seq<Header>) {
    forall i, j :: 0 <= i < |es| && 0 <= j < |es| && i != j ==> !Clash(es[i], es[j])
  }

  function Top(e: Header): Option<string> {
    if Where(e) == [] then None else Some(Where(e)[0])
  }

  predicate OneRoot(es: seq<Header>) {
    forall i, j :: 0 <= i < |es| && 0 <= j < |es| ==> Top(es[i]) == Top(es[j])
  }

  function Size(e: Header): nat {
    if e.kind.TypeReg? then |e.body| else 0
  }

  function Total(es: seq<Header>): nat {
    if es == [] then 0 else Total(es[..|es| - 1]) + Size(es[|es| - 1])
  }

  predicate Acceptable(es: seq<Header>, limit: int) {
    es != [] && AllPlausible(es) && OneRoot(es) && NoClash(es) && (limit <= 0 || Total(es) <= limit)
  }

  // The tree an acceptable archive stands for: each entry, and directories on the way to it.
  ghost predicate IsTree(fs: Fs, es: seq<Header>) {
    && (forall p :: p in fs <==> Covered(es, p))
    && (forall e :: e in es && e.kind.TypeReg? ==> Where(e) in fs && fs[Where(e)] == Regular(e.body))
    && (forall p :: p in fs && fs[p].Regular? ==> exists e :: e in es && e.kind.TypeReg? && Where(e) == p)
  }

  ghost predicate Covered(es: seq<Header>, p: Path) {
    p == [] || exists e :: e in es && p <= Where(e)
  }

  lemma OneTreeOnly(f: Fs, g: Fs, es: seq<Header>)
    requires IsTree(f, es) && IsTree(g, es)
    ensures f == g
  {
    forall p | p in f ensures p in g && f[p] == g[p] {
      assert Covered(es, p);
      SameNode(f, g, es, p);
      SameNode(g, f, es, p);
    }
    forall p | p in g ensures p in f {
      assert Covered(es, p);
    }
  }

  lemma SameNode(f: Fs, g: Fs, es: seq<Header>, p: Path)
    requires IsTree(f, es) && IsTree(g, es) && p in f && p in g
    ensures f[p].Regular? ==> g[p] == f[p]
  {
    if f[p].Regular? {
      var e :| e in es && e.kind.TypeReg? && Where(e) == p;
    }
  }

  lemma WhatIsPlausible(es: seq<Header>)
    ensures AllPlausible(es) <==> forall e :: e in es ==> Components(e.name) != [] && (e.kind == TypeReg || e.kind == TypeDir)
  {
    assert forall i :: 0 <= i < |es| ==> es[i] in es;
    hide Components;
  }

  lemma WhatOneRootIs(es: seq<Header>)
    requires forall e :: e in es ==> Components(e.name) != []
    ensures OneRoot(es) <==> forall e, f :: e in es && f in es ==> Components(e.name)[..1] == Components(f.name)[..1]
  {
    forall e, f | e in es && f in es ensures Top(e) == Top(f) <==> Components(e.name)[..1] == Components(f.name)[..1] {
      assert Components(e.name)[..1] == [Components(e.name)[0]];
      assert Components(f.name)[..1] == [Components(f.name)[0]];
    }
    hide Components, Top;
    assert forall i :: 0 <= i < |es| ==> es[i] in es;
  }

  // An archive is accepted exactly if it has an entry, every entry is a file or a directory with a
  // name that comes down to something, all lie under one root, no file is at or above the place
  // of another entry, and the bodies are within the limit.
  lemma WhatIsAcceptable(es: seq<Header>, limit: int)
    ensures Acceptable(es, limit) <==>
      |es| > 0 && AllPlausible(es) && OneRoot(es) && NoClash(es) && (limit > 0 ==> Total(es) <= limit)
    ensures AllPlausible(es) <==> forall e :: e in es ==> Components(e.name) != [] && (e.kind == TypeReg || e.kind == TypeDir)
    ensures AllPlausible(es) ==>
      (OneRoot(es) <==> forall e, f :: e in es && f in es ==> Components(e.name)[..1] == Components(f.name)[..1])
    ensures NoClash(es) <==>
      forall i, j :: 0 <= i < |es| && 0 <= j < |es| && i != j && es[i].kind == TypeReg ==>
        !(Components(es[i].name) <= Components(es[j].name))
  {
    WhatIsPlausible(es);
    if AllPlausible(es) {
      WhatOneRootIs(es);
    }
    hide Components, AllPlausible, OneRoot, Total;
  }

  // Its tree has a file exactly where a file entry is, with that entry's body, and a directory
  // at every other place on the way to an entry.
  lemma WhatTheTreeIs(fs: Fs, es: seq<Header>)
    requires IsTree(fs, es)
    ensures forall e :: e in es && e.kind == TypeReg ==>
      Components(e.name) in fs && fs[Components(e.name)] == Regular(e.body)
    ensures forall e, p :: e in es && p <= Components(e.name) ==> p in fs
    ensures forall p :: p in fs && p != [] ==> exists e :: e in es && p <= Components(e.name)
    ensures forall p :: p in fs && fs[p] != Folder ==>
      exists e :: e in es && e.kind == TypeReg && Components(e.name) == p && fs[p] == Regular(e.body)
  {
    forall e, p | e in es && p <= Components(e.name) ensures p in fs {
      assert p <= Where(e);
      assert Covered(es, p);
    }
    forall p | p in fs && p != [] ensures exists e :: e in es && p <= Components(e.name) {
      assert Covered(es, p);
      var e :| e in es && p <= Where(e);
      assert p <= Components(e.name);
    }
  }

  // What is left of a tree without its last entry.
  ghost function TreeOf(fs: Fs, es: seq<Header>): Fs {
    map p | p in fs && Covered(es, p) :: fs[p]
  }

  // A file of a tree with its last entry is one without it, unless it is that entry.
  lemma FileWithoutLast(fs: Fs, es: seq<Header>, e: Header, p: Path)
    requires IsTree(fs, es + [e]) && p in fs && fs[p].Regular? && !(e.kind.TypeReg? && Where(e) == p)
    ensures exists f :: f in es && f.kind.TypeReg? && Where(f) == p
  {
    var f :| f in es + [e] && f.kind.TypeReg? && Where(f) == p;
    assert f in es;
  }

  lemma FileIsCovered(fs: Fs, es: seq<Header>, e: Header, p: Path)
    requires IsTree(fs, es + [e]) && p in fs && fs[p].Regular? && !(e.kind.TypeReg? && Where(e) == p)
    ensures Covered(es, p)
  {
    FileWithoutLast(fs, es, e, p);
  }

  lemma TreeWithoutLast(fs: Fs, es: seq<Header>, e: Header)
    requires IsTree(fs, es + [e]) && NoClash(es + [e]) && Where(e) != []
    ensures IsTree(TreeOf(fs, es), es)
    ensures e.kind.TypeReg? ==> Where(e) in fs && fs[Where(e)] == Regular(e.body) && !Covered(es, Where(e))
    ensures forall p :: p in fs && !Covered(es, p) && fs[p].Regular? ==> e.kind.TypeReg? && p == Where(e)
  {
    var all, less := es + [e], TreeOf(fs, es);
    NoClashGrows(es, e);
    assert e in all && forall f :: f in es ==> f in all;
    assert forall p :: Covered(es, p) ==> Covered(all, p);
    hide NoClash, Where, Components;
    assert e.kind.TypeReg? ==> !Covered(es, Where(e)) by {
      assert forall f :: f in es && e.kind.TypeReg? ==> !Clash(e, f);
    }
    forall f | f in es && f.kind.TypeReg? ensures Where(f) in less && less[Where(f)] == Regular(f.body) {
      assert Covered(es, Where(f));
    }
    forall p | p in less && less[p].Regular? ensures exists f :: f in es && f.kind.TypeReg? && Where(f) == p {
      FileWithoutLast(fs, es, e, p);
    }
    forall p | p in fs && !Covered(es, p) && fs[p].Regular? ensures e.kind.TypeReg? && p == Where(e) {
      if !(e.kind.TypeReg? && Where(e) == p) {
        FileIsCovered(fs, es, e, p);
      }
    }
  }

  // The bytes on disk are those of the bodies.
  lemma {:induction false} TotalIsOnDisk(fs: Fs, es: seq<Header>)
    requires IsTree(fs, es) && NoClash(es) && AllPlausible(es)
    ensures BytesIn(fs) == Total(es)
  {
    if es == [] {
      assert forall p :: p in fs ==> fs[p] == Folder;
      FoldersHoldNothing(fs);
    } else {
      var init, e := es[..|es| - 1], es[|es| - 1];
      assert es == init + [e] && Plausible(e);
      NoClashGrows(init, e);
      TreeWithoutLast(fs, init, e);
      hide IsTree, NoClash, Where, Components;
      TotalIsOnDisk(TreeOf(fs, init), init);
      LastOnDisk(fs, init, e);
    }
  }

  lemma LastOnDisk(fs: Fs, es: seq<Header>, e: Header)
    requires e.kind.TypeReg? ==> Where(e) in fs && fs[Where(e)] == Regular(e.body) && !Covered(es, Where(e))
    requires forall p :: p in fs && !Covered(es, p) && fs[p].Regular? ==> e.kind.TypeReg? && p == Where(e)
    ensures BytesIn(fs) == BytesIn(TreeOf(fs, es)) + Size(e)
  {
    var less := TreeOf(fs, es);
    var more := map p | p in fs && !Covered(es, p) :: fs[p];
    assert less + more == fs && less.Keys !! more.Keys;
    hide Covered, Where, BytesIn;
    BytesTogether(less, more);
    if e.kind.TypeReg? {
      BytesWithout(more, Where(e));
      FoldersHoldNothing(more - {Where(e)});
    } else {
      FoldersHoldNothing(more);
    }
  }

  // ---------------------------------------------------------------- order does not matter

  function Less<T>(s: seq<T>, i: nat): seq<T>
    requires i < |s|
  {
    s[..i] + s[i + 1..]
  }

  lemma {:induction false} TotalIsASum(es: seq<Header>, i: nat)
    requires i < |es|
    ensures Total(es) == Total(Less(es, i)) + Size(es[i])
  {
    var last := |es| - 1;
    var without := es[..i] + es[i + 1..];
    if i == last {
      assert without == es[..last];
    } else {
      TotalIsASum(es[..last], i);
      assert es[..last][..i] + es[..last][i + 1..] == without[..|without| - 1];
      assert without[|without| - 1] == es[last];
    }
  }

  lemma WithoutOne(es: seq<Header>, i: nat)
    requires i < |es|
    ensures multiset(Less(es, i)) == multiset(es) - multiset{es[i]}
  {
    assert es == es[..i] + [es[i]] + es[i + 1..];
  }

  // Taking the last entry out of both orders leaves two orders of the rest.
  lemma LastIn(es: seq<Header>, fs: seq<Header>) returns (i: nat)
    requires multiset(es) == multiset(fs) && es != []
    ensures i < |fs| && fs[i] == es[|es| - 1]
    ensures multiset(es[..|es| - 1]) == multiset(Less(fs, i))
  {
    var last := |es| - 1;
    assert es == es[..last] + [es[last]];
    assert es[last] in multiset(fs);
    i :| 0 <= i < |fs| && fs[i] == es[last];
    WithoutOne(fs, i);
  }

  lemma {:induction false} TotalIgnoresOrder(es: seq<Header>, fs: seq<Header>)
    requires multiset(es) == multiset(fs)
    ensures Total(es) == Total(fs)
  {
    if es == [] {
      assert |multiset(fs)| == 0;
    } else {
      var i := LastIn(es, fs);
      TotalIgnoresOrder(es[..|es| - 1], Less(fs, i));
      TotalIsASum(fs, i);
    }
  }

  // No clash, told by which entries there are and how often rather than by position.
  ghost predicate NoClashInBag(bag: multiset<Header>) {
    forall e, f :: e in bag && f in bag && Clash(e, f) ==> e == f && bag[e] == 1
  }

  lemma {:induction false} TwicePresent(es: seq<Header>, e: Header) returns (i: nat, j: nat)
    requires multiset(es)[e] >= 2
    ensures i < j < |es| && es[i] == e && es[j] == e
  {
    var init, last := es[..|es| - 1], es[|es| - 1];
    assert es == init + [last];
    if last == e {
      assert e in multiset(init);
      i :| 0 <= i < |init| && init[i] == e;
      j := |es| - 1;
    } else {
      i, j := TwicePresent(init, e);
    }
  }

  lemma OncePresent(es: seq<Header>, i: nat, j: nat)
    requires i < |es| && j < |es| && i != j && es[i] == es[j]
    ensures multiset(es)[es[i]] >= 2
  {
    var rest := es[..j] + es[j + 1..];
    WithoutOne(es, j);
    assert es[i] in rest by {
      assert rest[if i < j then i else i - 1] == es[i];
    }
  }

  lemma BagClashHasPositions(es: seq<Header>, e: Header, f: Header)
    requires e in multiset(es) && f in multiset(es) && Clash(e, f) && (e != f || multiset(es)[e] != 1)
    ensures !NoClash(es)
  {
    if e == f {
      var i, j := TwicePresent(es, e);
      assert Clash(es[i], es[j]);
    } else {
      var i :| 0 <= i < |es| && es[i] == e;
      var j :| 0 <= j < |es| && es[j] == f;
      assert Clash(es[i], es[j]);
    }
  }

  lemma NoClashByBag(es: seq<Header>)
    ensures NoClash(es) <==> NoClashInBag(multiset(es))
  {
    if e, f :| e in multiset(es) && f in multiset(es) && Clash(e, f) && (e != f || multiset(es)[e] != 1) {
      BagClashHasPositions(es, e, f);
    } else if i, j :| 0 <= i < |es| && 0 <= j < |es| && i != j && Clash(es[i], es[j]) {
      assert es[i] in multiset(es) && es[j] in multiset(es);
      if es[i] == es[j] {
        OncePresent(es, i, j);
      }
    }
  }

  // An archive and a reordering of it are accepted alike and stand for the same tree, of the
  // same size, under the same root.
  lemma OrderDoesNotMatter(es: seq<Header>, fs: seq<Header>, limit: int)
    requires multiset(es) == multiset(fs)
    ensures Acceptable(es, limit) <==> Acceptable(fs, limit)
    ensures forall tree :: IsTree(tree, es) <==> IsTree(tree, fs)
    ensures Total(es) == Total(fs)
    ensures Acceptable(es, limit) ==> fs != [] && Top(es[0]) == Top(fs[0])
  {
    SameEntries(es, fs);
    NoClashByBag(es);
    NoClashByBag(fs);
    TotalIgnoresOrder(es, fs);
    OneWay(es, fs, limit);
    OneWay(fs, es, limit);
    forall tree ensures IsTree(tree, es) <==> IsTree(tree, fs) {
      SameTree(tree, es, fs);
      SameTree(tree, fs, es);
    }
  }

  lemma SameTree(tree: Fs, es: seq<Header>, fs: seq<Header>)
    requires forall e :: e in es <==> e in fs
    ensures IsTree(tree, es) ==> IsTree(tree, fs)
  {
    assert forall p :: Covered(es, p) <==> Covered(fs, p);
  }

  lemma SameEntries(es: seq<Header>, fs: seq<Header>)
    requires multiset(es) == multiset(fs)
    ensures forall e :: e in es <==> e in fs
  {
    forall e ensures e in es <==> e in fs {
      assert e in es <==> e in multiset(es);
      assert e in fs <==> e in multiset(fs);
    }
  }

  lemma OneWay(es: seq<Header>, fs: seq<Header>, limit: int)
    requires forall e :: e in es <==> e in fs
    requires NoClash(es) <==> NoClash(fs)
    requires Total(es) == Total(fs)
    ensures Acceptable(es, limit) ==> Acceptable(fs, limit) && Top(es[0]) == Top(fs[0])
  {
    if Acceptable(es, limit) {
      assert es[0] in fs;
      forall i | 0 <= i < |fs| ensures Plausible(fs[i]) && Top(es[0]) == Top(fs[i]) {
        assert fs[i] in es;
        var j :| 0 <= j < |es| && es[j] == fs[i];
        assert Plausible(es[j]) && Top(es[0]) == Top(es[j]);
      }
    }
  }

  // ---------------------------------------------------------------- one entry more

  lemma CoveredMore(es: seq<Header>, e: Header, p: Path)
    ensures Covered(es + [e], p) <==> Covered(es, p) || p <= Where(e)
  {
    if Covered(es, p) && p != [] {
      var f :| f in es && p <= Where(f);
      assert f in es + [e];
    }
    if p <= Where(e) {
      assert e in es + [e];
    }
  }

  lemma DirectoryGrowsTree(fs: Fs, es: seq<Header>, e: Header)
    requires IsTree(fs, es) && e.kind.TypeDir? && AllFoldersOn(fs, Where(e))
    ensures IsTree(fs + Folders(Where(e)), es + [e])
  {
    var made := fs + Folders(Where(e));
    forall p ensures p in made <==> Covered(es + [e], p) {
      FoldersAre(Where(e), p);
      CoveredMore(es, e, p);
    }
    forall p | p in made && p in fs ensures made[p] == fs[p] {
      FolderStays(fs, Where(e), p);
    }
  }

  // Making directories leaves what is there as it is.
  lemma FolderStays(fs: Fs, path: Path, p: Path)
    requires AllFoldersOn(fs, path) && p in fs
    ensures (fs + Folders(path))[p] == fs[p]
  {
    FoldersAre(path, p);
    if p <= path {
      assert p == path[..|p|];
      assert ClearAt(fs, path[..|p|]);
    }
  }

  lemma FileGrowsTree(fs: Fs, es: seq<Header>, e: Header)
    requires IsTree(fs, es) && e.kind.TypeReg? && Where(e) != [] && Where(e) !in fs
    requires AllFoldersOn(fs, Where(e)[..|Where(e)| - 1])
    ensures IsTree((fs + Folders(Where(e)[..|Where(e)| - 1]))[Where(e) := Regular(e.body)], es + [e])
  {
    var p, up := Where(e), Where(e)[..|Where(e)| - 1];
    var made := (fs + Folders(up))[p := Regular(e.body)];
    forall q ensures q in made <==> Covered(es + [e], q) {
      FoldersAre(up, q);
      CoveredMore(es, e, q);
      assert q <= p <==> q <= up || q == p;
    }
    forall q | q in made && q in fs ensures made[q] == fs[q] {
      FolderStays(fs, up, q);
    }
    assert e in es + [e];
  }

  // The way to an entry is free exactly when it clashes with none of those before it.
  predicate Free(fs: Fs, e: Header)
    requires Where(e) != []
  {
    if e.kind.TypeReg? then AllFoldersOn(fs, Where(e)[..|Where(e)| - 1]) && Where(e) !in fs
    else AllFoldersOn(fs, Where(e))
  }

  lemma FileInTheWay(fs: Fs, es: seq<Header>, e: Header, p: Path)
    requires IsTree(fs, es) && p <= Where(e) && p in fs && fs[p].Regular?
    ensures exists f :: f in es && Clash(f, e)
  {
    var f :| f in es && f.kind.TypeReg? && Where(f) == p;
  }

  lemma ClashBlocks(fs: Fs, es: seq<Header>, e: Header, f: Header)
    requires IsTree(fs, es) && Where(e) != [] && f in es && (Clash(f, e) || Clash(e, f))
    ensures !Free(fs, e)
  {
    var p := Where(e);
    var up := if e.kind.TypeReg? then p[..|p| - 1] else p;
    if Clash(f, e) {
      var n := |Where(f)|;
      if n <= |up| {
        assert up[..n] == Where(f);
        assert !ClearAt(fs, up[..n]);
      } else {
        assert Where(f) == p;
      }
    } else {
      assert Covered(es, p);
    }
  }

  lemma FreeMeansNoClash(fs: Fs, es: seq<Header>, e: Header)
    requires IsTree(fs, es) && Where(e) != []
    ensures Free(fs, e) <==> forall f :: f in es ==> !Clash(f, e) && !Clash(e, f)
  {
    forall f | f in es && (Clash(f, e) || Clash(e, f)) ensures !Free(fs, e) {
      ClashBlocks(fs, es, e, f);
    }
    if !Free(fs, e) {
      var p := Where(e);
      var up := if e.kind.TypeReg? then p[..|p| - 1] else p;
      if !AllFoldersOn(fs, up) {
        var i :| 0 <= i <= |up| && !ClearAt(fs, up[..i]);
        FileInTheWay(fs, es, e, up[..i]);
      } else {
        assert Covered(es, p);
        var f :| f in es && p <= Where(f);
        assert Clash(e, f);
      }
    }
  }

  lemma NoClashGrows(es: seq<Header>, e: Header)
    ensures NoClash(es + [e]) <==> NoClash(es) && forall f :: f in es ==> !Clash(f, e) && !Clash(e, f)
  {
    var more := es + [e];
    if NoClash(more) {
      forall i, j | 0 <= i < |es| && 0 <= j < |es| && i != j ensures !Clash(es[i], es[j]) {
        assert !Clash(more[i], more[j]);
      }
      forall f | f in es ensures !Clash(f, e) && !Clash(e, f) {
        var i :| 0 <= i < |es| && es[i] == f;
        assert !Clash(more[i], more[|es|]) && !Clash(more[|es|], more[i]);
      }
    }
  }

  lemma FreeGrows(fs: Fs, es: seq<Header>, e: Header)
    requires IsTree(fs, es) && NoClash(es) && Where(e) != []
    ensures NoClash(es + [e]) <==> Free(fs, e)
  {
    FreeMeansNoClash(fs, es, e);
    NoClashGrows(es, e);
  }

  lemma {:induction false} TotalGrows(es: seq<Header>, n: nat)
    requires n <= |es|
    ensures Total(es[..n]) <= Total(es)
    decreases |es|
  {
    if n < |es| {
      var init := es[..|es| - 1];
      assert init[..n] == es[..n];
      TotalGrows(init, n);
    } else {
      assert es[..n] == es;
    }
  }

  // So an archive whose beginning will not do will not do.
  lemma AcceptableUpTo(es: seq<Header>, n: nat, limit: int)
    requires Acceptable(es, limit) && 0 < n <= |es|
    ensures Acceptable(es[..n], limit)
  {
    TotalGrows(es, n);
  }

  // ---------------------------------------------------------------- the loop

  // What of an entry arrives. Under the largest limit every body is cut to nothing.
  function Delivered(es: seq<Header>, limit: int): (ds: seq<Header>)
    ensures |ds| == |es|
    ensures forall i :: 0 <= i < |es| ==> ds[i] == (if limit == MAX_INT64 then es[i].(body := []) else es[i])
  {
    seq(|es|, i requires 0 <= i < |es| => if limit == MAX_INT64 then es[i].(body := []) else es[i])
  }

  lemma DeliveredWhole(es: seq<Header>, limit: int)
    ensures limit != MAX_INT64 ==> Delivered(es, limit) == es
    ensures limit == MAX_INT64 && (exists e :: e in es && e.body != []) ==> Delivered(es, limit) != es
  {
    if limit == MAX_INT64 && (exists e :: e in es && e.body != []) {
      var i :| 0 <= i < |es| && es[i].body != [];
      assert Delivered(es, limit)[i].body == [];
    }
  }

  lemma DeliveredWithoutOne(es: seq<Header>, i: nat, limit: int)
    requires i < |es|
    ensures var d := Delivered(es, limit)[i];
      multiset(Delivered(es, limit)) == multiset(Delivered(Less(es, i), limit)) + multiset{d}
  {
    var ds := Delivered(es, limit);
    assert Delivered(Less(es, i), limit) == Less(ds, i);
    WithoutOne(ds, i);
  }

  lemma {:induction false} DeliveredIgnoresOrder(es: seq<Header>, fs: seq<Header>, limit: int)
    requires multiset(es) == multiset(fs)
    ensures multiset(Delivered(es, limit)) == multiset(Delivered(fs, limit))
  {
    if es == [] {
      assert |multiset(fs)| == 0;
    } else {
      var i := LastIn(es, fs);
      hide Delivered;
      DeliveredIgnoresOrder(es[..|es| - 1], Less(fs, i), limit);
      assert Less(es, |es| - 1) == es[..|es| - 1];
      DeliveredWithoutOne(es, |es| - 1, limit);
      DeliveredWithoutOne(fs, i, limit);
    }
  }

  // So whether `ExtractTar` accepts, and the tree, byte count and root it then leaves, are
  // the same for every order of the entries, under every limit.
  lemma ExtractionIgnoresOrder(es: seq<Header>, fs: seq<Header>, limit: int)
    requires multiset(es) == multiset(fs)
    ensures var ds, gs := Delivered(es, limit), Delivered(fs, limit);
      && (Acceptable(ds, limit) <==> Acceptable(gs, limit))
      && (forall tree :: IsTree(tree, ds) <==> IsTree(tree, gs))
      && Total(ds) == Total(gs)
      && (Acceptable(ds, limit) ==> fs != [] && Top(es[0]) == Top(fs[0]))
  {
    DeliveredIgnoresOrder(es, fs, limit);
    OrderDoesNotMatter(Delivered(es, limit), Delivered(fs, limit), limit);
  }

  lemma OneBody(es: seq<Header>, i: nat, limit: int, written: nat)
    requires i < |es| && Int64(limit) && es[i].kind.TypeReg?
    requires limit > 0 ==> written <= limit
    requires limit == MAX_INT64 ==> written == 0
    ensures limit > 0 ==> 0 <= Remaining(limit, written) <= limit
    ensures var d, landed := Delivered(es, limit)[i].body, Landed(es[i].body, Remaining(limit, written));
      if limit <= 0 || written + |d| <= limit
      then landed == d && !(0 <= Remaining(limit, written) < |landed|)
      else written + |landed| == limit + 1
  {
    ShareOfLimit(es[i].body, limit, written);
  }

  // Everything the loop knows after `n` entries, of which `ds` is what they deliver.
  ghost predicate Unpacked(fs: Fs, dir: string, ds: seq<Header>, root: string, written: int, limit: int) {
    && IsTree(fs, ds) && Closed(fs) && AllPlausible(ds) && OneRoot(ds) && NoClash(ds)
    && written == Total(ds)
    && (limit > 0 ==> written <= limit)
    && (limit == MAX_INT64 ==> written == 0)
    && (if ds == [] then root == "" else Where(ds[0]) != [] && root == dir + "/" + Where(ds[0])[0])
  }

  lemma SameTopMore(dir: string, ds: seq<Header>, e: Header)
    requires OneRoot(ds) && Where(e) != []
    requires ds != [] ==> Where(ds[0]) != [] && dir + "/" + Where(ds[0])[0] == dir + "/" + Where(e)[0]
    ensures OneRoot(ds + [e])
  {
    if ds != [] {
      SameAfter(dir + "/", Where(ds[0])[0], Where(e)[0]);
      forall i | 0 <= i < |ds| ensures Top(ds[i]) == Top(e) {
        assert Top(ds[i]) == Top(ds[0]);
      }
    }
  }

  lemma SameAfter(prefix: string, a: string, b: string)
    requires prefix + a == prefix + b
    ensures a == b
  {
    assert a == (prefix + a)[|prefix|..] == (prefix + b)[|prefix|..] == b;
  }

  lemma OneEntryMore(fs: Fs, dir: string, ds: seq<Header>, e: Header, root: string, written: int, limit: int)
    requires Unpacked(fs, dir, ds, root, written, limit) && Plausible(e)
    requires ds != [] ==> root == dir + "/" + Where(e)[0]
    ensures AllPlausible(ds + [e]) && OneRoot(ds + [e])
    ensures NoClash(ds + [e]) <==> Free(fs, e)
    ensures Total(ds + [e]) == written + Size(e)
  {
    hide Free, NoClash, IsTree, Closed, OneRoot, Where, Size;
    FreeGrows(fs, ds, e);
    SameTopMore(dir, ds, e);
    assert (ds + [e])[..|ds|] == ds;
  }

  lemma TakenOneMore<T>(s: seq<T>, i: nat)
    requires i < |s|
    ensures s[..i] + [s[i]] == s[..i + 1]
  {
  }

  // One entry, through to the disk: `e` is what `header` delivers, `before` what came already.
  method PlaceEntry(disk: Directory, header: Header, ghost e: Header, ghost before: seq<Header>, limit: int, written: int)
    returns (count: int, fault: Option<Fault>)
    requires Int64(limit) && written >= 0 && (limit > 0 ==> written <= limit) && (limit == MAX_INT64 ==> written == 0)
    requires e == Delivered([header], limit)[0] && Where(e) != []
    requires IsTree(disk.fs, before) && Closed(disk.fs)
    modifies disk
    ensures fault.None? <==> Plausible(e) && Free(old(disk.fs), e) && (limit <= 0 || written + Size(e) <= limit)
    ensures fault.None? ==> IsTree(disk.fs, before + [e]) && Closed(disk.fs) && count == Size(e)
    ensures fault.Some? ==>
      fault.value == (if e.kind.OtherType? then Unsupported else if Free(old(disk.fs), e) then TooBig(limit + 1, limit) else Blocked)
    requires WithinLimit(disk.budgets, limit)
    ensures WithinLimit(disk.budgets, limit)
  {
    hide IsTree, Closed, Covered, Components;
    var path := Components(header.name);
    count := 0;
    match header.kind {
      case TypeDir =>
        var made := disk.MkdirAll(path);
        if !made {
          return 0, Some(Blocked);
        }
        DirectoryGrowsTree(old(disk.fs), before, e);
        return 0, None;

      case TypeReg =>
        var made := disk.MkdirAll(path[..|path| - 1]);
        if !made {
          return 0, Some(Blocked);
        }

        var remaining := if limit > 0 then limit - written else -1;
        OneBody([header], 0, limit, written);
        FoldersAre(path[..|path| - 1], path);
        FoldersAre(path[..|path| - 1], path[..|path| - 1]);
        assert Creatable(disk.fs, path) <==> path !in old(disk.fs);
        ghost var made' := disk.fs;

        var error;
        WithinLimitGrows(disk.budgets, remaining, limit);
        count, error := disk.WriteLimited(path, header.body, remaining);
        fault := SizeLimitWithTotals(error, written + count, limit);
        if fault.None? {
          FileGrowsTree(old(disk.fs), before, e);
          CreatingKeepsClosed(made', path, Regular(e.body));
        }

      case OtherType =>
        return 0, Some(Unsupported);
    }
  }

  // What is wrong with an entry, given those before it.
  ghost function FaultOf(before: seq<Header>, e: Header, limit: int): Fault {
    if Where(e) == [] then BadName
    else if before != [] && Top(e) != Top(before[0]) then ManyRoots
    else if e.kind.OtherType? then Unsupported
    else if exists f :: f in before && (Clash(f, e) || Clash(e, f)) then Blocked
    else TooBig(limit + 1, limit)
  }

  // The first entry that will not do after those before it, and what is wrong with it.
  ghost predicate StopsAt(ds: seq<Header>, n: nat, limit: int, fault: Fault) {
    && n <= |ds|
    && (n > 0 ==> Acceptable(ds[..n], limit))
    && (if n == |ds| then n == 0 && fault == Empty
        else !Acceptable(ds[..n + 1], limit) && fault == FaultOf(ds[..n], ds[n], limit))
  }

  lemma WhatFaultsMean(before: seq<Header>, e: Header, limit: int)
    requires before != [] ==> Where(before[0]) != []
    ensures var fault := FaultOf(before, e, limit);
      && (fault == BadName <==> Components(e.name) == [])
      && (fault == ManyRoots <==>
            Components(e.name) != [] && before != [] && Components(e.name)[..1] != Components(before[0].name)[..1])
      && (fault == Unsupported ==> e.kind != TypeReg && e.kind != TypeDir)
      && (fault == Blocked ==>
            exists f :: f in before && (if f.kind == TypeReg && Components(f.name) <= Components(e.name) then true
                                        else e.kind == TypeReg && Components(e.name) <= Components(f.name)))
      && (fault.TooBig? ==> fault == TooBig(limit + 1, limit)) && fault != Empty
  {
    if before != [] {
      TopsDiffer(e, before[0]);
    }
    hide Components, Top;
  }

  // What each fault says of the entry the loop stopped at.
  lemma WhatStopsIt(ds: seq<Header>, n: nat, limit: int, fault: Fault)
    requires StopsAt(ds, n, limit, fault)
    ensures fault == Empty <==> ds == []
    ensures n < |ds| ==>
      var e := ds[n];
      && (fault == BadName <==> Components(e.name) == [])
      && (fault == ManyRoots <==> Components(e.name) != [] && n > 0 && Components(e.name)[..1] != Components(ds[0].name)[..1])
      && (fault == Unsupported ==> e.kind != TypeReg && e.kind != TypeDir)
      && (fault == Blocked ==>
            exists f :: f in ds[..n] && (if f.kind == TypeReg && Components(f.name) <= Components(e.name) then true
                                         else e.kind == TypeReg && Components(e.name) <= Components(f.name)))
      && (fault.TooBig? ==> fault == TooBig(limit + 1, limit) && 0 < limit < Total(ds[..n + 1]))
  {
    if n < |ds| {
      if n > 0 {
        assert ds[..n][0] == ds[0];
        WhatIsPlausible(ds[..n]);
      }
      assert ds[..n + 1] == ds[..n] + [ds[n]];
      hide Acceptable, FaultOf, Components;
      WhatFaultsMean(ds[..n], ds[n], limit);
      if fault.TooBig? {
        TooBigMeans(ds[..n], ds[n], limit);
      }
    }
  }

  lemma TopsDiffer(e: Header, f: Header)
    requires Where(f) != []
    ensures Where(e) != [] ==> (Top(e) != Top(f) <==> Components(e.name)[..1] != Components(f.name)[..1])
  {
    if Where(e) != [] {
      assert Components(e.name)[..1] == [Components(e.name)[0]];
      assert Components(f.name)[..1] == [Components(f.name)[0]];
    }
  }

  lemma TooBigMeans(before: seq<Header>, e: Header, limit: int)
    requires (before != [] ==> Acceptable(before, limit)) && !Acceptable(before + [e], limit) && FaultOf(before, e, limit).TooBig?
    ensures 0 < limit < Total(before + [e])
  {
    NoClashGrows(before, e);
    var all := before + [e];
    if before == [] {
      assert AllPlausible(all) && OneRoot(all) && NoClash(all);
    } else {
      forall i | 0 <= i < |all| ensures Plausible(all[i]) && Top(all[i]) == Top(before[0]) {
        assert i < |before| ==> all[i] == before[i];
      }
      assert AllPlausible(all) && OneRoot(all) && NoClash(all);
    }
  }

  lemma BadEntryEndsIt(fs: Fs, dir: string, ds: seq<Header>, i: nat, root: string, written: int, limit: int)
    requires i < |ds| && Unpacked(fs, dir, ds[..i], root, written, limit)
    requires Where(ds[i]) == [] || (root != "" && root != dir + "/" + Where(ds[i])[0])
    ensures StopsAt(ds, i, limit, if Where(ds[i]) == [] then BadName else ManyRoots)
  {
    RootIsKnown(fs, dir, ds[..i], root, written, limit);
    assert ds[..i + 1][i] == ds[i];
    if i > 0 {
      assert ds[..i + 1][0] == ds[..i][0];
    }
  }

  lemma BlockedEntryEndsIt(fs: Fs, dir: string, ds: seq<Header>, i: nat, root: string, written: int, limit: int, fault: Fault)
    requires i < |ds| && Unpacked(fs, dir, ds[..i], root, written, limit)
    requires Where(ds[i]) != [] && (i > 0 ==> root == dir + "/" + Where(ds[i])[0])
    requires !(Plausible(ds[i]) && Free(fs, ds[i]) && (limit <= 0 || written + Size(ds[i]) <= limit))
    requires fault ==
      if ds[i].kind.OtherType? then Unsupported else if !Free(fs, ds[i]) then Blocked else TooBig(limit + 1, limit)
    ensures StopsAt(ds, i, limit, fault)
  {
    RootIsKnown(fs, dir, ds[..i], root, written, limit);
    FaultIsTold(fs, dir, ds[..i], ds[i], root, written, limit);
    NotAcceptableWith(fs, dir, ds[..i], ds[i], root, written, limit);
    assert ds[..i + 1] == ds[..i] + [ds[i]];
    hide Acceptable, Unpacked, FaultOf, Free;
  }

  lemma FaultIsTold(fs: Fs, dir: string, before: seq<Header>, e: Header, root: string, written: int, limit: int)
    requires Unpacked(fs, dir, before, root, written, limit)
    requires Where(e) != [] && (before != [] ==> root == dir + "/" + Where(e)[0])
    ensures FaultOf(before, e, limit) ==
      if e.kind.OtherType? then Unsupported else if !Free(fs, e) then Blocked else TooBig(limit + 1, limit)
  {
    FreeMeansNoClash(fs, before, e);
    hide Free, IsTree, Closed, AllPlausible, OneRoot, NoClash, Clash;
    if before != [] {
      SameAfter(dir + "/", Where(before[0])[0], Where(e)[0]);
    }
  }

  lemma NotAcceptableWith(fs: Fs, dir: string, before: seq<Header>, e: Header, root: string, written: int, limit: int)
    requires Unpacked(fs, dir, before, root, written, limit)
    requires Where(e) != [] && (before != [] ==> root == dir + "/" + Where(e)[0])
    requires !(Plausible(e) && Free(fs, e) && (limit <= 0 || written + Size(e) <= limit))
    ensures !Acceptable(before + [e], limit)
  {
    if Acceptable(before + [e], limit) {
      assert Plausible((before + [e])[|before|]);
      OneEntryMore(fs, dir, before, e, root, written, limit);
    }
  }

  lemma EmptyStops(limit: int)
    ensures StopsAt([], 0, limit, Empty)
  {
  }

  lemma StoppingRefuses(ds: seq<Header>, n: nat, limit: int, fault: Fault)
    requires StopsAt(ds, n, limit, fault)
    ensures !Acceptable(ds, limit)
  {
    if Acceptable(ds, limit) {
      if n < |ds| {
        AcceptableUpTo(ds, n + 1, limit);
      }
    }
  }

  lemma NextEntryIsIn(fs: Fs, after: Fs, dir: string, ds: seq<Header>, e: Header, root: string, top: string, written: int, now: int, limit: int)
    requires Unpacked(fs, dir, ds, root, written, limit)
    requires Plausible(e) && Free(fs, e) && now == written + Size(e) && (limit <= 0 || now <= limit)
    requires limit == MAX_INT64 ==> Size(e) == 0
    requires top == dir + "/" + Where(e)[0] && (ds != [] ==> root == top)
    requires IsTree(after, ds + [e]) && Closed(after)
    ensures Unpacked(after, dir, ds + [e], top, now, limit)
  {
    OneEntryMore(fs, dir, ds, e, root, written, limit);
    if ds != [] {
      assert Where((ds + [e])[0]) == Where(ds[0]);
    }
  }

  lemma NothingUnpacked(dir: string, limit: int)
    ensures Unpacked(map[[] := Folder], dir, [], "", 0, limit)
    ensures !Acceptable([], limit)
  {
  }

  lemma RootIsKnown(fs: Fs, dir: string, ds: seq<Header>, root: string, written: int, limit: int)
    requires Unpacked(fs, dir, ds, root, written, limit)
    ensures root == "" <==> ds == []
    ensures ds != [] ==> Where(ds[0]) != [] && root == dir + "/" + Where(ds[0])[0]
    ensures IsTree(fs, ds) && Closed(fs) && written == Total(ds) && (limit > 0 ==> written <= limit) && (limit == MAX_INT64 ==> written == 0)
    ensures ds != [] ==> Acceptable(ds, limit)
  {
  }

  lemma DoneOnDisk(fs: Fs, dir: string, ds: seq<Header>, root: string, written: int, limit: int)
    requires Unpacked(fs, dir, ds, root, written, limit)
    ensures BytesIn(fs) == written
  {
    TotalIsOnDisk(fs, ds);
  }

  // The top level path an entry sits beneath, checked against the one found so far.
  method RootOf(dir: string, header: Header, root: string) returns (top: string, fault: Option<Fault>)
    requires StagingDir(dir)
    ensures fault.None? <==> Where(header) != [] && (root == "" || root == dir + "/" + Where(header)[0])
    ensures fault.None? ==> top == dir + "/" + Where(header)[0]
    ensures fault.Some? ==> fault.value == if Where(header) == [] then BadName else ManyRoots
  {
    TarPathIsExact(dir, header.name);
    NamelessHasNoComponents(header.name);
    top, fault := root, None;
    var placed := ResolveTarPath(dir, header.name);
    if !placed.At? {
      return top, Some(BadName);
    }
    if root == "" {
      top := placed.top;
    } else if placed.top != root {
      return top, Some(ManyRoots);
    }
  }

  // Unpacking into an empty staging directory succeeds exactly for an acceptable archive, and
  // then leaves its tree, all its bytes and its one root. A failure is that of the first entry
  // that will not do after those before it. The budget handed on is never negative under a
  // positive limit, and a limit error carries the caller's limit and one byte more than it.
  method ExtractTar(disk: Directory, dir: string, entries: seq<Header>, limit: int) returns (result: Extraction)
    requires StagingDir(dir) && Int64(limit) && disk.fs == map[[] := Folder] && disk.budgets == []
    modifies disk
    ensures result.Extracted? <==> Acceptable(Delivered(entries, limit), limit)
    ensures result.Extracted? ==>
      && IsTree(disk.fs, Delivered(entries, limit))
      && result.written == Total(Delivered(entries, limit)) == BytesIn(disk.fs)
      && result.root == dir + "/" + Where(entries[0])[0]
    ensures result.Failed? ==> exists n: nat :: StopsAt(Delivered(entries, limit), n, limit, result.fault)
    ensures WithinLimit(disk.budgets, limit)
  {
    hide Unpacked, IsTree, Closed, Acceptable, Free, ResolveTarPath, Components, StopsAt;
    ghost var ds := Delivered(entries, limit);
    var root, written := "", 0;
    var i := 0;

    ghost var done: seq<Header> := [];
    NothingUnpacked(dir, limit);
    while i < |entries|
      invariant 0 <= i <= |entries| && done == ds[..i]
      invariant Unpacked(disk.fs, dir, done, root, written, limit)
      invariant WithinLimit(disk.budgets, limit)
    {
      var header := entries[i];
      ghost var fs := disk.fs;
      RootIsKnown(fs, dir, done, root, written, limit);
      var top, mismatch := RootOf(dir, header, root);
      if mismatch.Some? {
        BadEntryEndsIt(fs, dir, ds, i, root, written, limit);
        StoppingRefuses(ds, i, limit, mismatch.value);
        return Failed(mismatch.value, written);
      }
      ghost var known := root;
      root := top;

      var count, fault := PlaceEntry(disk, header, ds[i], done, limit, written);
      if fault.Some? {
        BlockedEntryEndsIt(fs, dir, ds, i, known, written, limit, fault.value);
        StoppingRefuses(ds, i, limit, fault.value);
        return Failed(fault.value, written + count);
      }
      NextEntryIsIn(fs, disk.fs, dir, done, ds[i], known, root, written, written + count, limit);
      written := written + count;
      TakenOneMore(ds, i);
      done := done + [ds[i]];
      i := i + 1;
    }

    assert done == ds;
    RootIsKnown(disk.fs, dir, done, root, written, limit);
    if root == "" {
      EmptyStops(limit);
      return Failed(Empty, written);
    }
    DoneOnDisk(disk.fs, dir, done, root, written, limit);
    result := Extracted(root, written);
  }
}
