/**
 A directory tree, and the two ways client/fallback.go and client/node.go write into one:
 `os.MkdirAll` and `writeLimited`.

 A path is the sequence of its components below some directory. `Paths.SlashedInjective`
 says that distinct sequences are distinct paths on disk.
 */
module Disk {
  import opened Wrappers
  import opened FixedWidth

  newtype byte = x: int | 0 <= x < 256

  type Bytes = seq<byte>
  type Path = seq<string>

  datatype Node = Folder | Regular(content: Bytes)

  type Fs = map<Path, Node>

  datatype Fault =
    | Blocked                          // something is in the way, or the parent is no directory
    | TooBig(size: int, limit: int)    // SizeLimitError
    | BadName
    | Unsupported
    | ManyRoots
    | Empty

  // ---------------------------------------------------------------- trees

  predicate Under(fs: Fs, path: Path) {
    path != [] && path[..|path| - 1] in fs && fs[path[..|path| - 1]].Folder?
  }

  // Every path but the top lies in a directory.
  predicate Closed(fs: Fs) {
    && [] in fs && fs[[]] == Folder
    && forall p :: p in fs && p != [] ==> Under(fs, p)
  }

  // Exclusive creation works: nothing there, and a directory to put it in.
  predicate Creatable(fs: Fs, path: Path) {
    path !in fs && Under(fs, path)
  }

  lemma CreatingKeepsClosed(fs: Fs, path: Path, node: Node)
    requires Closed(fs) && Creatable(fs, path)
    ensures Closed(fs[path := node])
  {
    var put := fs[path := node];
    forall p | p in put && p != [] ensures Under(put, p) {
      assert Under(fs, p);
    }
  }

  lemma {:induction false} AncestorsAreFolders(fs: Fs, path: Path, up: Path)
    requires Closed(fs) && path in fs && up <= path && up != path
    ensures up in fs && fs[up] == Folder
    decreases |path|
  {
    var parent := path[..|path| - 1];
    assert Under(fs, path);
    if up != parent {
      AncestorsAreFolders(fs, parent, up);
    }
  }

  function Prefixes(path: Path): set<Path> {
    set i | 0 <= i <= |path| :: path[..i]
  }

  function Folders(path: Path): Fs {
    map p | p in Prefixes(path) :: Folder
  }

  lemma FoldersAre(path: Path, p: Path)
    ensures p in Folders(path) <==> p <= path
  {
    if p <= path {
      assert p == path[..|p|];
    }
  }

  lemma FoldersOfNothing(fs: Fs)
    requires Closed(fs)
    ensures fs + Folders([]) == fs
  {
    forall p | p in Folders([]) ensures p == [] {
      FoldersAre([], p);
    }
  }

  // One more component: made if nothing is there, left alone if a directory is, and in the
  // way if a file is, in which case nothing on the way to it had to be made either.
  lemma FoldersExtend(fs: Fs, path: Path, i: nat)
    requires Closed(fs) && i < |path|
    ensures var made, here := fs + Folders(path[..i]), path[..i + 1];
      && (here in made <==> here in fs)
      && (here !in made ==> fs + Folders(here) == made[here := Folder])
      && (here in made && made[here] == Folder ==> fs + Folders(here) == made)
      && (here in made ==> made == fs)
  {
    var here := path[..i + 1];
    forall p ensures p in Folders(here) <==> p in Folders(path[..i]) || p == here {
      FoldersAre(here, p);
      FoldersAre(path[..i], p);
      assert p <= here && p != here ==> p <= path[..i];
    }
    assert here !in Folders(path[..i]) by { FoldersAre(path[..i], here); }
    if here in fs {
      forall p | p in Folders(path[..i]) ensures p in fs && fs[p] == Folder {
        FoldersAre(path[..i], p);
        AncestorsAreFolders(fs, here, p);
      }
    }
  }

  lemma ClearMore(fs: Fs, path: Path, i: nat)
    requires i < |path|
    ensures ClearTo(fs, path, i + 1) <==> ClearTo(fs, path, i) && ClearAt(fs, path[..i + 1])
    ensures AllFoldersOn(fs, path) ==> ClearAt(fs, path[..i + 1])
  {
  }

  lemma FoldersKeepClosed(fs: Fs, path: Path)
    requires Closed(fs) && AllFoldersOn(fs, path)
    ensures Closed(fs + Folders(path))
  {
    var made := fs + Folders(path);
    FoldersAre(path, []);
    forall p | p in made && p != [] ensures Under(made, p) {
      FoldersAre(path, p);
      FoldersAre(path, p[..|p| - 1]);
      if p <= path {
        assert p[..|p| - 1] == path[..|p| - 1];
        assert ClearAt(fs, path[..|p| - 1]);
      }
    }
  }

  // No file on the first `n` steps of the way down to `path`.
  predicate ClearTo(fs: Fs, path: Path, n: nat)
    requires n <= |path|
  {
    forall i :: 0 <= i <= n ==> ClearAt(fs, path[..i])
  }

  predicate ClearAt(fs: Fs, path: Path) {
    path in fs ==> fs[path] == Folder
  }

  predicate AllFoldersOn(fs: Fs, path: Path) {
    ClearTo(fs, path, |path|)
  }

  // ---------------------------------------------------------------- bytes on disk

  function NodeBytes(node: Node): nat {
    match node
    case Folder => 0
    case Regular(content) => |content|
  }

  // All content bytes in a tree.
  ghost function BytesIn(fs: Fs): nat
    decreases |fs|
  {
    if fs == map[] then 0
    else
      var p :| p in fs;
      assert |fs - {p}| < |fs| by { FewerPaths(fs, p); }
      NodeBytes(fs[p]) + BytesIn(fs - {p})
  }

  lemma FewerPaths(fs: Fs, p: Path)
    requires p in fs
    ensures |fs - {p}| < |fs|
  {
    assert (fs - {p}).Keys == fs.Keys - {p};
    assert |(fs - {p}).Keys| == |fs - {p}| && |fs.Keys| == |fs|;
  }

  lemma {:induction false} BytesWithout(fs: Fs, p: Path)
    requires p in fs
    ensures BytesIn(fs) == NodeBytes(fs[p]) + BytesIn(fs - {p})
    decreases |fs|
  {
    var q :| q in fs && BytesIn(fs) == NodeBytes(fs[q]) + BytesIn(fs - {q});
    if q != p {
      FewerPaths(fs, q);
      BytesWithout(fs - {q}, p);
      FewerPaths(fs, p);
      BytesWithout(fs - {p}, q);
      assert fs - {q} - {p} == fs - {p} - {q};
    }
  }

  lemma BytesPut(fs: Fs, p: Path, node: Node)
    requires p !in fs
    ensures BytesIn(fs[p := node]) == BytesIn(fs) + NodeBytes(node)
  {
    BytesWithout(fs[p := node], p);
    assert fs[p := node] - {p} == fs;
  }

  lemma TogetherWithout(a: Fs, b: Fs, p: Path)
    requires a.Keys !! b.Keys && p in b
    ensures a + b - {p} == a + (b - {p}) && (a + b)[p] == b[p] && a.Keys !! (b - {p}).Keys
  {
  }

  lemma {:induction false} BytesTogether(a: Fs, b: Fs)
    requires a.Keys !! b.Keys
    ensures BytesIn(a + b) == BytesIn(a) + BytesIn(b)
    decreases |b|
  {
    if p :| p in b {
      TogetherWithout(a, b, p);
      FewerPaths(b, p);
      BytesWithout(b, p);
      BytesWithout(a + b, p);
      hide BytesIn;
      BytesTogether(a, b - {p});
    } else {
      assert a + b == a && b == map[];
    }
  }

  lemma {:induction false} FoldersHoldNothing(fs: Fs)
    requires forall p :: p in fs ==> fs[p] == Folder
    ensures BytesIn(fs) == 0
    decreases |fs|
  {
    if p :| p in fs {
      FewerPaths(fs, p);
      BytesWithout(fs, p);
      FoldersHoldNothing(fs - {p});
    }
  }

  // ---------------------------------------------------------------- what a write delivers

  // What `writeLimited` copies: `io.LimitReader(body, sizeLimit+1)` in 64-bit arithmetic, or
  // all of it for a negative limit.
  function Landed(body: Bytes, limit: int): Bytes {
    if limit < 0 then body
    else
      var most := Wrap64(limit + 1);
      if most <= 0 then [] else if |body| <= most then body else body[..most]
  }

  ghost predicate DeliversWhatFits(limit: int) {
    forall body: Bytes :: (limit < 0 || |body| <= limit) ==> Landed(body, limit) == body
  }

  // The largest limit wraps to "copy nothing", and an empty file passes for a success. Every
  // other limit delivers each body that fits.
  lemma WhenLimitsDeliver(limit: int)
    requires Int64(limit)
    ensures DeliversWhatFits(limit) <==> limit != MAX_INT64
  {
    if limit == MAX_INT64 {
      var body: Bytes := [0];
      assert Wrap64(limit + 1) < 0;
      assert |body| <= limit && Landed(body, limit) == [];
      assert Landed(body, limit) != body;
    }
  }

  // What a write under a limit lets through: short of the largest limit, all that fits, and
  // otherwise one byte more than the limit, which is how the excess is noticed.
  lemma LandedSize(body: Bytes, limit: int)
    requires 0 <= limit < MAX_INT64
    ensures |body| <= limit ==> Landed(body, limit) == body
    ensures |body| > limit ==> |Landed(body, limit)| == limit + 1
  {
  }

  // The caller's figures in place of the share of the budget `writeLimited` saw.
  function SizeLimitWithTotals(error: Option<Fault>, written: int, limit: int): Option<Fault> {
    if error.Some? && error.value.TooBig? then Some(TooBig(written, limit)) else error
  }

  // The share of `limit` that is left, with -1 for no limit at all.
  function Remaining(limit: int, written: int): int {
    if limit > 0 then limit - written else -1
  }

  // What arrives of a body: under the largest limit, nothing.
  function Arriving(body: Bytes, limit: int): Bytes {
    if limit == MAX_INT64 then [] else body
  }

  // What `writeLimited` makes of a body, in terms of the limit as a whole.
  lemma ShareOfLimit(body: Bytes, limit: int, written: nat)
    requires Int64(limit)
    requires limit > 0 ==> written <= limit
    requires limit == MAX_INT64 ==> written == 0
    ensures limit > 0 ==> 0 <= Remaining(limit, written) <= limit
    ensures var landed := Landed(body, Remaining(limit, written));
      if limit <= 0 || written + |Arriving(body, limit)| <= limit
      then landed == Arriving(body, limit) && !(0 <= Remaining(limit, written) < |landed|)
      else written + |landed| == limit + 1
  {
    if limit > 0 && limit != MAX_INT64 {
      LandedSize(body, Remaining(limit, written));
    }
  }

  // Every budget handed to `writeLimited` under a positive limit is a share of it, and so
  // never the negative number that reads as "no limit".
  predicate WithinLimit(budgets: seq<int>, limit: int) {
    limit > 0 ==> forall i :: 0 <= i < |budgets| ==> 0 <= budgets[i] <= limit
  }

  lemma WithinLimitGrows(budgets: seq<int>, budget: int, limit: int)
    requires WithinLimit(budgets, limit) && (limit > 0 ==> 0 <= budget <= limit)
    ensures WithinLimit(budgets + [budget], limit)
  {
  }

  // ---------------------------------------------------------------- the directory

  class Directory {
    var fs: Fs
    // Every limit `WriteLimited` was given.
    ghost var budgets: seq<int>

    constructor ()
      ensures fs == map[[] := Folder] && budgets == []
    {
      fs := map[[] := Folder];
      budgets := [];
    }

    method Mkdir(path: Path) returns (ok: bool)
      modifies `fs
      ensures ok == Creatable(old(fs), path)
      ensures fs == if ok then old(fs)[path := Folder] else old(fs)
    {
      ok := path !in fs && path != [] && path[..|path| - 1] in fs && fs[path[..|path| - 1]].Folder?;
      if ok {
        fs := fs[path := Folder];
      }
    }

    method MkdirAll(path: Path) returns (ok: bool)
      requires Closed(fs)
      modifies `fs
      ensures ok == AllFoldersOn(old(fs), path)
      ensures fs == if ok then old(fs) + Folders(path) else old(fs)
      ensures Closed(fs)
    {
      assert path[..0] == [];
      FoldersOfNothing(fs);
      assert ClearTo(fs, path, 0);
      hide Closed, Under, Folders, ClearTo;
      var i := 0;
      while i < |path|
        invariant 0 <= i <= |path|
        invariant fs == old(fs) + Folders(path[..i])
        invariant ClearTo(old(fs), path, i)
      {
        FoldersExtend(old(fs), path, i);
        ClearMore(old(fs), path, i);
        if path[..i + 1] !in fs {
          fs := fs[path[..i + 1] := Folder];
        } else if fs[path[..i + 1]] != Folder {
          return false;
        }
        i := i + 1;
      }
      assert path[..|path|] == path;
      FoldersKeepClosed(old(fs), path);
      ok := true;
    }

    method WriteLimited(path: Path, body: Bytes, limit: int) returns (count: int, error: Option<Fault>)
      modifies this
      ensures budgets == old(budgets) + [limit]
      ensures !Creatable(old(fs), path) ==> fs == old(fs) && count == 0 && error == Some(Blocked)
      ensures Creatable(old(fs), path) ==>
        var landed := Landed(body, limit);
        && fs == old(fs)[path := Regular(landed)] && count == |landed|
        && error == (if 0 <= limit < count then Some(TooBig(count, limit)) else None)
    {
      budgets := budgets + [limit];
      if path in fs || path == [] || path[..|path| - 1] !in fs || !fs[path[..|path| - 1]].Folder? {
        return 0, Some(Blocked);
      }

      if limit < 0 {
        fs := fs[path := Regular(body)];
        return |body|, None;
      }

      var most := Wrap64(limit + 1);
      var landed := if most <= 0 then [] else if |body| <= most then body else body[..most];
      fs := fs[path := Regular(landed)];
      count := |landed|;
      error := if count > limit then Some(TooBig(count, limit)) else None;
    }
  }
}
