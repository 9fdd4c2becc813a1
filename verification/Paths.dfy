/**
 Slash-separated paths: the documented rules of `filepath.Clean`, `Join` and `Dir` on a
 POSIX system, and `resolveTarPath` of client/fallback.go on top of them.

 A path is read as components. `Walk` applies them one by one to a stack, which is what
 cleaning means; everything else is about how stacks print and parse.
 */
module Paths {
  function Split(s: string): (parts: seq<string>)
    ensures |parts| >= 1
  {
    if s == "" then [""]
    else
      var rest := Split(s[1..]);
      if s[0] == '/' then [""] + rest else [[s[0]] + rest[0]] + rest[1..]
  }

  function Slashed(parts: seq<string>): string {
    if |parts| == 0 then ""
    else if |parts| == 1 then parts[0]
    else parts[0] + "/" + Slashed(parts[1..])
  }

  // One component read onto a stack: ".." takes the last name off, or climbs.
  function Pushed(rooted: bool, stack: seq<string>, part: string): seq<string> {
    if part == "" || part == "." then stack
    else if part != ".." then stack + [part]
    else if stack != [] && stack[|stack| - 1] != ".." then stack[..|stack| - 1]
    else if rooted then stack
    else stack + [part]
  }

  function Walk(rooted: bool, stack: seq<string>, parts: seq<string>): seq<string>
    decreases |parts|
  {
    if parts == [] then stack else Walk(rooted, Pushed(rooted, stack, parts[0]), parts[1..])
  }

  predicate Rooted(s: string) {
    s != "" && s[0] == '/'
  }

  function Stack(s: string): seq<string> {
    Walk(Rooted(s), [], Split(s))
  }

  function Printed(rooted: bool, stack: seq<string>): string {
    if rooted then "/" + Slashed(stack)
    else if stack == [] then "."
    else Slashed(stack)
  }

  function Clean(s: string): string {
    Printed(Rooted(s), Stack(s))
  }

  function Join(dir: string, name: string): string {
    if dir != "" then Clean(dir + "/" + name) else if name != "" then Clean(name) else ""
  }

  // Up to and including the last slash.
  function UpToSlash(path: string): string {
    if path == "" then ""
    else if path[|path| - 1] == '/' then path
    else UpToSlash(path[..|path| - 1])
  }

  function Dir(path: string): string {
    Clean(UpToSlash(path))
  }

  datatype Placed =
    | At(path: string, top: string)
    | NoName
    | Escapes
    | NoTopLevel

  function ResolveTarPath(dir: string, name: string): Placed {
    if name == "" then NoName
    else
      var cleaned := Clean("/" + name);
      var path := Join(dir, cleaned);
      if path != dir && !(dir + "/" <= path) then Escapes
      else
        var elements := Split(if Rooted(cleaned) then cleaned[1..] else cleaned);
        if elements[0] == "" then NoTopLevel
        else At(path, Join(dir, elements[0]))
  }

  // The components an entry name comes down to below the staging directory.
  function Components(name: string): seq<string> {
    Stack("/" + name)
  }

  // ---------------------------------------------------------------- printing and parsing

  predicate Unslashed(part: string) {
    '/' !in part
  }

  // A component that names something: what a stack below a root consists of.
  predicate Plain(part: string) {
    part != "" && part != "." && part != ".." && Unslashed(part)
  }

  lemma {:induction false} SplitConcat(a: string, b: string)
    ensures Split(a + "/" + b) == Split(a) + Split(b)
  {
    if a == "" {
      assert (a + "/" + b)[1..] == b;
    } else {
      assert (a + "/" + b)[1..] == a[1..] + "/" + b;
      SplitConcat(a[1..], b);
    }
  }

  lemma {:induction false} SplitUnslashed(s: string)
    ensures forall i :: 0 <= i < |Split(s)| ==> Unslashed(Split(s)[i])
  {
    if s != "" {
      SplitUnslashed(s[1..]);
    }
  }

  lemma {:induction false} SplitWhole(part: string)
    requires Unslashed(part)
    ensures Split(part) == [part]
  {
    if part != "" {
      SplitWhole(part[1..]);
      assert part == [part[0]] + part[1..];
    }
  }

  lemma {:induction false} SplitSlashed(parts: seq<string>)
    requires parts != [] && forall i :: 0 <= i < |parts| ==> Unslashed(parts[i])
    ensures Split(Slashed(parts)) == parts
  {
    SplitWhole(parts[0]);
    if |parts| > 1 {
      SplitConcat(parts[0], Slashed(parts[1..]));
      SplitSlashed(parts[1..]);
    }
  }

  lemma {:induction false} SlashedConcat(a: seq<string>, b: seq<string>)
    requires a != [] && b != []
    ensures Slashed(a + b) == Slashed(a) + "/" + Slashed(b)
  {
    if |a| == 1 {
      assert (a + b)[1..] == b;
    } else {
      assert (a + b)[1..] == a[1..] + b;
      SlashedConcat(a[1..], b);
    }
  }

  lemma {:induction false} SlashedSplit(s: string)
    ensures Slashed(Split(s)) == s
  {
    if s != "" {
      var rest := Split(s[1..]);
      SlashedSplit(s[1..]);
      if s[0] == '/' {
        assert Split(s)[1..] == rest;
      } else {
        assert Split(s)[1..] == rest[1..];
        assert s == [s[0]] + s[1..];
      }
    }
  }

  // Component sequences and the paths they print to are in one-to-one correspondence.
  lemma SlashedInjective(a: seq<string>, b: seq<string>)
    requires a != [] && forall i :: 0 <= i < |a| ==> Unslashed(a[i])
    requires b != [] && forall i :: 0 <= i < |b| ==> Unslashed(b[i])
    requires Slashed(a) == Slashed(b)
    ensures a == b
  {
    SplitSlashed(a);
    SplitSlashed(b);
  }

  // ---------------------------------------------------------------- walking

  lemma {:induction false} WalkConcat(rooted: bool, stack: seq<string>, a: seq<string>, b: seq<string>)
    ensures Walk(rooted, stack, a + b) == Walk(rooted, Walk(rooted, stack, a), b)
    decreases |a|
  {
    if a == [] {
      assert a + b == b;
    } else {
      assert (a + b)[1..] == a[1..] + b;
      WalkConcat(rooted, Pushed(rooted, stack, a[0]), a[1..], b);
    }
  }

  // What a walk leaves: names, below ".." only where a relative path climbs out.
  predicate Settled(rooted: bool, stack: seq<string>) {
    && (forall i :: 0 <= i < |stack| ==> Plain(stack[i]) || (!rooted && stack[i] == ".."))
    && (forall i, j :: 0 <= i < j < |stack| && stack[j] == ".." ==> stack[i] == "..")
  }

  lemma {:induction false} WalkSettles(rooted: bool, stack: seq<string>, parts: seq<string>)
    requires Settled(rooted, stack) && forall i :: 0 <= i < |parts| ==> Unslashed(parts[i])
    ensures Settled(rooted, Walk(rooted, stack, parts))
    decreases |parts|
  {
    if parts != [] {
      WalkSettles(rooted, Pushed(rooted, stack, parts[0]), parts[1..]);
    }
  }

  lemma {:induction false} WalkOntoSettled(rooted: bool, stack: seq<string>, more: seq<string>)
    requires Settled(rooted, stack + more)
    ensures Walk(rooted, stack, more) == stack + more
    decreases |more|
  {
    if more == [] {
      assert stack + more == stack;
    } else {
      assert (stack + more)[|stack|] == more[0];
      assert more[0] == ".." && stack != [] ==> (stack + more)[|stack| - 1] == "..";
      assert (stack + [more[0]]) + more[1..] == stack + more;
      WalkOntoSettled(rooted, stack + [more[0]], more[1..]);
    }
  }

  lemma StackSettled(s: string)
    ensures Settled(Rooted(s), Stack(s))
  {
    SplitUnslashed(s);
    WalkSettles(Rooted(s), [], Split(s));
  }

  // A settled stack prints to a path that parses back to it.
  lemma StackPrinted(rooted: bool, stack: seq<string>)
    requires Settled(rooted, stack)
    ensures Rooted(Printed(rooted, stack)) == rooted
    ensures Stack(Printed(rooted, stack)) == stack
  {
    var s := Printed(rooted, stack);
    if rooted {
      assert s == "" + "/" + Slashed(stack);
      SplitConcat("", Slashed(stack));
      assert Split("") == [""];
      if stack != [] {
        SplitSlashed(stack);
      }
      WalkConcat(true, [], [""], Split(Slashed(stack)));
      WalkOntoSettled(true, [], stack);
      assert [] + stack == stack;
    } else if stack == [] {
      SplitWhole(".");
    } else {
      SplitSlashed(stack);
      assert stack[0] != "" && stack[0][0] != '/';
      WalkOntoSettled(false, [], stack);
      assert [] + stack == stack;
    }
  }

  lemma CleanIdempotent(s: string)
    ensures Clean(Clean(s)) == Clean(s)
  {
    StackSettled(s);
    StackPrinted(Rooted(s), Stack(s));
  }

  // Two paths clean to the same text exactly when they walk to the same place.
  lemma SameCleanSamePlace(s: string, t: string)
    ensures Clean(s) == Clean(t) <==> Rooted(s) == Rooted(t) && Stack(s) == Stack(t)
  {
    StackSettled(s);
    StackSettled(t);
    StackPrinted(Rooted(s), Stack(s));
    StackPrinted(Rooted(t), Stack(t));
  }

  lemma SettledExtends(rooted: bool, stack: seq<string>, more: seq<string>)
    requires Settled(rooted, stack) && forall i :: 0 <= i < |more| ==> Plain(more[i])
    ensures Settled(rooted, stack + more)
  {
  }

  lemma EmptyPart(rooted: bool, stack: seq<string>)
    ensures Split("") == [""]
    ensures Walk(rooted, stack, [""]) == stack
  {
  }

  // A path printed below the root splits into an empty part and its components.
  lemma SplitBelow(more: seq<string>)
    requires forall i :: 0 <= i < |more| ==> Plain(more[i])
    ensures Split(Printed(true, more)) == [""] + (if more == [] then [""] else more)
  {
    assert Printed(true, more) == "" + "/" + Slashed(more);
    SplitConcat("", Slashed(more));
    if more != [] {
      SplitSlashed(more);
    }
  }

  // Reading on from a directory's own stack extends it.
  lemma WalkFrom(dir: string, parts: seq<string>, more: seq<string>)
    requires forall i :: 0 <= i < |more| ==> Plain(more[i])
    requires parts == more || parts == [""] + more || (more == [] && parts == ["", ""])
    ensures Walk(Rooted(dir), [], Split(dir) + parts) == Stack(dir) + more
  {
    var rooted := Rooted(dir);
    StackSettled(dir);
    SettledExtends(rooted, Stack(dir), more);
    WalkOntoSettled(rooted, Stack(dir), more);
    EmptyPart(rooted, Stack(dir));
    WalkConcat(rooted, [], Split(dir), parts);
    if parts != more {
      assert parts == [""] + parts[1..];
      WalkConcat(rooted, Stack(dir), [""], parts[1..]);
    }
  }

  // Joining a rooted, settled path onto a directory extends the directory's stack.
  lemma JoinExtends(dir: string, more: seq<string>)
    requires dir != "" && forall i :: 0 <= i < |more| ==> Plain(more[i])
    ensures Join(dir, Printed(true, more)) == Printed(Rooted(dir), Stack(dir) + more)
    ensures |more| == 1 ==> Join(dir, more[0]) == Printed(Rooted(dir), Stack(dir) + more)
  {
    hide Split, Walk, Printed, Plain;
    var below := Printed(true, more);
    assert Rooted(dir + "/" + below) == Rooted(dir);
    SplitConcat(dir, below);
    SplitBelow(more);
    WalkFrom(dir, Split(below), more);
    if |more| == 1 {
      assert Rooted(dir + "/" + more[0]) == Rooted(dir);
      SplitConcat(dir, more[0]);
      PlainSplits(more[0]);
      assert more == [more[0]];
      WalkFrom(dir, more, more);
    }
  }

  lemma PlainSplits(part: string)
    requires Plain(part)
    ensures Split(part) == [part]
  {
    SplitWhole(part);
  }

  // ---------------------------------------------------------------- tar entry names

  lemma ComponentsPlain(name: string)
    ensures forall i :: 0 <= i < |Components(name)| ==> Plain(Components(name)[i])
  {
    StackSettled("/" + name);
  }

  predicate StagingDir(dir: string) {
    Clean(dir) == dir && dir != "/" && dir != "."
  }

  // Under a clean staging directory other than "/" and ".", a name is refused exactly when
  // it comes down to no components. Otherwise it lands strictly beneath the directory, at
  // or beneath `top`, a direct child of it; the escape branch is never taken.
  lemma TarPathIsExact(dir: string, name: string)
    requires StagingDir(dir)
    ensures var below := Components(name);
      ResolveTarPath(dir, name) ==
        if name == "" then NoName
        else if below == [] then NoTopLevel
        else At(dir + "/" + Slashed(below), dir + "/" + below[0])
    ensures forall i :: 0 <= i < |Components(name)| ==> Plain(Components(name)[i])
    ensures var below := Components(name); below != [] ==>
      (Slashed(below) == below[0] || below[0] + "/" <= Slashed(below))
  {
    ComponentsPlain(name);
    if name != "" {
      var below := Components(name);
      JoinedUnder(dir, below);
      assert Clean("/" + name) == Printed(true, below);
      if below != [] {
        SplitSlashed(below);
        JoinedUnder(dir, [below[0]]);
        JoinExtends(dir, below);
        JoinExtends(dir, [below[0]]);
        assert dir + "/" <= dir + "/" + Slashed(below);
      } else {
        JoinExtends(dir, []);
        assert Split("") == [""];
      }
    }
  }

  lemma JoinedUnder(dir: string, more: seq<string>)
    requires StagingDir(dir)
    ensures Stack(dir) != []
    ensures more != [] ==> Printed(Rooted(dir), Stack(dir) + more) == dir + "/" + Slashed(more)
    ensures more == [] ==> Printed(Rooted(dir), Stack(dir) + more) == dir
  {
    var rooted, stack := Rooted(dir), Stack(dir);
    assert dir == Printed(rooted, stack);
    PrintedUnder(rooted, stack, more);
  }

  lemma PrintedUnder(rooted: bool, stack: seq<string>, more: seq<string>)
    ensures stack == [] ==> Printed(rooted, stack) == "/" || Printed(rooted, stack) == "."
    ensures stack != [] && more != [] ==> Printed(rooted, stack + more) == Printed(rooted, stack) + "/" + Slashed(more)
    ensures more == [] ==> Printed(rooted, stack + more) == Printed(rooted, stack)
  {
    if more == [] {
      assert stack + more == stack;
    } else if stack != [] {
      SlashedConcat(stack, more);
    }
  }

  ghost predicate AcceptsEveryName(dir: string) {
    forall name :: Components(name) != [] ==> ResolveTarPath(dir, name).At?
  }

  ghost predicate AcceptsNoName(dir: string) {
    forall name :: !ResolveTarPath(dir, name).At?
  }

  // Which staging directories `resolveTarPath` works under: under a clean one, or none, every
  // name that comes down to something resolves, and under any other not a single name does.
  lemma WhereTarPathsResolve(dir: string)
    ensures AcceptsEveryName(dir) <==> dir == "" || StagingDir(dir)
    ensures AcceptsNoName(dir) <==> !AcceptsEveryName(dir)
  {
    SinglePlain("a");
    if dir == "" {
      forall name | Components(name) != [] ensures ResolveTarPath(dir, name).At? {
        UnderNoDir(name);
      }
    } else if StagingDir(dir) {
      forall name | Components(name) != [] ensures ResolveTarPath(dir, name).At? {
        NamelessHasNoComponents(name);
        TarPathIsExact(dir, name);
      }
    } else {
      forall name ensures !ResolveTarPath(dir, name).At? {
        UnderUncleanDir(dir, name);
      }
      assert !ResolveTarPath(dir, "a").At?;
    }
  }

  lemma NamelessHasNoComponents(name: string)
    ensures name == "" ==> Components(name) == []
  {
    if name == "" {
      StackPrinted(true, []);
    }
  }

  lemma SinglePlain(part: string)
    requires Plain(part)
    ensures Components(part) == [part]
  {
    StackPrinted(true, [part]);
  }

  lemma UnderNoDir(name: string)
    requires Components(name) != []
    ensures ResolveTarPath("", name).At?
  {
    NamelessHasNoComponents(name);
    ComponentsPlain(name);
    CleanIdempotent("/" + name);
    SplitSlashed(Components(name));
  }

  // Under any other directory a name that comes down to something is an escape.
  lemma UnderUncleanDir(dir: string, name: string)
    requires dir != "" && !StagingDir(dir)
    ensures !ResolveTarPath(dir, name).At?
    ensures Components(name) != [] ==> ResolveTarPath(dir, name) == Escapes
  {
    NamelessHasNoComponents(name);
    if Components(name) == [] {
      assert Clean("/" + name) == Printed(true, []) == "/";
    } else {
      EscapesUncleanDir(dir, name);
    }
  }

  lemma EscapesUncleanDir(dir: string, name: string)
    requires dir != "" && !StagingDir(dir) && name != "" && Components(name) != []
    ensures ResolveTarPath(dir, name) == Escapes
  {
    var rooted, stack, more := Rooted(dir), Stack(dir), Components(name);
    ComponentsPlain(name);
    JoinExtends(dir, more);
    StackSettled(dir);
    SettledExtends(rooted, stack, more);
    var path := Printed(rooted, stack + more);
    assert Clean("/" + name) == Printed(true, more);
    assert Join(dir, Clean("/" + name)) == path;
    hide Clean, Join, Components, Split, Walk;
    StackPrinted(rooted, stack + more);
    assert |stack + more| > |stack|;
    if dir + "/" <= path {
      var rest := path[|dir| + 1..];
      assert path == dir + "/" + rest;
      SplitConcat(dir, rest);
      PrefixIsClean(dir, stack + more, Split(rest));
    }
  }

  lemma SplitPrinted(rooted: bool, stack: seq<string>)
    requires Settled(rooted, stack) && stack != []
    ensures Split(Printed(rooted, stack)) == (if rooted then [""] else []) + stack
  {
    SplitSlashed(stack);
    if rooted {
      assert Printed(true, stack) == "" + "/" + Slashed(stack);
      SplitConcat("", Slashed(stack));
      assert Split("") == [""];
    }
  }

  // A directory that splits into a leading part of a settled path is clean itself.
  lemma PrefixIsClean(dir: string, stack: seq<string>, rest: seq<string>)
    requires dir != "" && rest != [] && stack != [] && Settled(Rooted(dir), stack)
    requires Split(Printed(Rooted(dir), stack)) == Split(dir) + rest
    ensures StagingDir(dir)
  {
    var rooted, parts := Rooted(dir), Split(dir);
    var lead := if rooted then [""] else [];
    SplitPrinted(rooted, stack);
    assert lead + stack == parts + rest;
    SlashedSplit(dir);
    assert |parts| > |lead|;
    var names := stack[..|parts| - |lead|];
    assert parts == lead + names by {
      assert parts == (parts + rest)[..|parts|];
    }
    SplitPrinted(rooted, names);
    SlashedSplit(Printed(rooted, names));
    assert dir == Printed(rooted, names);
    StackPrinted(rooted, names);
    NamesPrintSomething(rooted, names);
  }

  lemma NamesPrintSomething(rooted: bool, names: seq<string>)
    requires Settled(rooted, names) && names != []
    ensures Printed(rooted, names) != "/" && Printed(rooted, names) != "."
  {
    StackPrinted(rooted, names);
    StackPrinted(true, []);
    StackPrinted(false, []);
  }

  // ---------------------------------------------------------------- staging directories

  // `os.MkdirTemp(dir, prefix)`, for the name it draws.
  function MkdirTempPath(dir: string, name: string): string {
    if dir != "" && dir[|dir| - 1] == '/' then dir + name else dir + "/" + name
  }

  // The gateway fallback stages under `os.MkdirTemp(filepath.Dir(output), ...)`. That path
  // is clean, and the archive can be unpacked, exactly when the output's directory is not
  // the working directory. There every entry is refused.
  lemma FallbackNeedsADirectory(output: string, name: string)
    requires Plain(name)
    ensures AcceptsEveryName(MkdirTempPath(Dir(output), name)) <==> Dir(output) != "."
    ensures AcceptsNoName(MkdirTempPath(Dir(output), name)) <==> Dir(output) == "."
  {
    var dir := Dir(output);
    CleanIdempotent(UpToSlash(output));
    WhereTarPathsResolve(MkdirTempPath(dir, name));
    hide AcceptsEveryName, AcceptsNoName, Clean, UpToSlash;
    if dir == "/" {
      ScratchAtTheRoot(name);
    } else if dir == "." {
      ScratchHere(name);
    } else {
      ScratchUnder(dir, name);
    }
  }

  // The staging table is keyed by what `os.MkdirTemp` returned for the claiming download, and a
  // sweep looks a directory up under `filepath.Join(dir, name)`, with the text of its own
  // download's directory. The lookup finds the claim exactly when it is for that name and both
  // texts are the same, other than ".": spelled in two ways, one directory is two.
  lemma SweepsSpellAlike(claimer: string, name: string, sweeper: string, other: string)
    requires Plain(name) && Plain(other)
    ensures MkdirTempPath(Dir(claimer), name) == Join(Dir(sweeper), other) <==>
      Dir(claimer) == Dir(sweeper) && Dir(claimer) != "." && name == other
  {
    var d, e := Dir(claimer), Dir(sweeper);
    DirIsClean(claimer);
    DirIsClean(sweeper);
    hide Clean, UpToSlash, Dir, Join, MkdirTempPath;
    JoinedBelow(e, other);
    if d == "." {
      TempPathIsUnclean(name);
      StackSettled(e);
      SettledExtends(Rooted(e), Stack(e), [other]);
      PrintedIsClean(Rooted(e), Stack(e) + [other]);
    } else {
      TempPathBelow(d, name);
      SamePrinted(d, name, e, other);
    }
  }

  lemma DirIsClean(path: string)
    ensures Clean(Dir(path)) == Dir(path)
  {
    CleanIdempotent(UpToSlash(path));
  }

  lemma JoinedBelow(dir: string, name: string)
    requires Clean(dir) == dir && Plain(name)
    ensures Join(dir, name) == Printed(Rooted(dir), Stack(dir) + [name])
  {
    assert dir != "" by {
      StackSettled(dir);
      StackPrinted(Rooted(dir), Stack(dir));
    }
    JoinExtends(dir, [name]);
  }

  lemma TempPathBelow(dir: string, name: string)
    requires Clean(dir) == dir && dir != "." && Plain(name)
    ensures MkdirTempPath(dir, name) == Printed(Rooted(dir), Stack(dir) + [name])
  {
    if dir == "/" {
      SplitWhole("");
      assert Split("/") == ["", ""] by { SplitConcat("", ""); }
      assert Stack("/") == [];
      assert "/" + name == Printed(true, [name]);
    } else {
      NoTrailingSlash(dir);
      JoinedUnder(dir, [name]);
    }
  }

  lemma TempPathIsUnclean(name: string)
    requires Plain(name)
    ensures Clean(MkdirTempPath(".", name)) != MkdirTempPath(".", name)
  {
    DotSlash(name);
    assert MkdirTempPath(".", name) == "./" + name;
    assert |"./" + name| == |name| + 2;
  }

  lemma PrintedIsClean(rooted: bool, stack: seq<string>)
    requires Settled(rooted, stack)
    ensures Clean(Printed(rooted, stack)) == Printed(rooted, stack)
  {
    StackPrinted(rooted, stack);
  }

  lemma SamePrinted(dir: string, name: string, other: string, last: string)
    requires Clean(dir) == dir && Clean(other) == other && Plain(name) && Plain(last)
    ensures Printed(Rooted(dir), Stack(dir) + [name]) == Printed(Rooted(other), Stack(other) + [last]) <==>
      dir == other && name == last
  {
    StackSettled(dir);
    StackSettled(other);
    SettledExtends(Rooted(dir), Stack(dir), [name]);
    SettledExtends(Rooted(other), Stack(other), [last]);
    StackPrinted(Rooted(dir), Stack(dir) + [name]);
    StackPrinted(Rooted(other), Stack(other) + [last]);
    if Stack(dir) + [name] == Stack(other) + [last] {
      assert Stack(dir) == (Stack(dir) + [name])[..|Stack(dir)|] == Stack(other);
      assert name == (Stack(dir) + [name])[|Stack(dir)|] == last;
    }
  }

  lemma {:induction false} UpToSlashRooted(path: string)
    ensures Rooted(UpToSlash(path)) == Rooted(path)
  {
    if path != "" && path[|path| - 1] != '/' {
      UpToSlashRooted(path[..|path| - 1]);
    }
  }

  // A relative and an absolute path never have the same directory text.
  lemma DirRooted(path: string)
    ensures Rooted(Dir(path)) == Rooted(path)
  {
    UpToSlashRooted(path);
    StackSettled(UpToSlash(path));
    StackPrinted(Rooted(UpToSlash(path)), Stack(UpToSlash(path)));
  }

  // A settled path of more than nothing is a staging directory.
  lemma PrintedIsStagingDir(rooted: bool, stack: seq<string>)
    requires Settled(rooted, stack) && stack != []
    ensures StagingDir(Printed(rooted, stack))
  {
    StackPrinted(rooted, stack);
    NamesPrintSomething(rooted, stack);
  }

  lemma ScratchAtTheRoot(name: string)
    requires Plain(name)
    ensures MkdirTempPath("/", name) != "" && StagingDir(MkdirTempPath("/", name))
  {
    PrintedIsStagingDir(true, [name]);
    assert "/" + name == Printed(true, [name]);
  }

  lemma ScratchHere(name: string)
    requires Plain(name)
    ensures MkdirTempPath(".", name) != "" && !StagingDir(MkdirTempPath(".", name))
  {
    DotSlash(name);
    assert MkdirTempPath(".", name) == "./" + name;
    assert |"./" + name| == |name| + 2;
  }

  lemma ScratchUnder(dir: string, name: string)
    requires StagingDir(dir) && Plain(name)
    ensures MkdirTempPath(dir, name) != "" && StagingDir(MkdirTempPath(dir, name))
  {
    JoinedUnder(dir, [name]);
    NoTrailingSlash(dir);
    StackSettled(dir);
    hide Stack, Clean;
    SettledExtends(Rooted(dir), Stack(dir), [name]);
    PrintedIsStagingDir(Rooted(dir), Stack(dir) + [name]);
  }

  lemma DotSlash(name: string)
    requires Plain(name)
    ensures Clean("./" + name) == name
  {
    assert "./" + name == "." + "/" + name;
    SplitConcat(".", name);
    SplitWhole(".");
    SplitWhole(name);
    assert Split("./" + name) == [".", name];
    assert Walk(false, [], [".", name]) == Walk(false, [], [name]);
  }

  lemma NoTrailingSlash(dir: string)
    requires StagingDir(dir)
    ensures dir != "" && dir[|dir| - 1] != '/'
  {
    StackSettled(dir);
    JoinedUnder(dir, []);
    hide Walk, Split, Settled, Slashed;
    assert dir == Printed(Rooted(dir), Stack(dir));
    LastOfSlashed(Rooted(dir), Stack(dir));
  }

  lemma LastOfSlashed(rooted: bool, stack: seq<string>)
    requires stack != [] && Settled(rooted, stack)
    ensures Printed(rooted, stack) != "" && Printed(rooted, stack)[|Printed(rooted, stack)| - 1] != '/'
  {
    var init, last := stack[..|stack| - 1], stack[|stack| - 1];
    assert last != "" && Unslashed(last);
    assert Slashed([last]) == last;
    if init != [] {
      SlashedConcat(init, [last]);
    }
    assert stack == init + [last];
  }

  // An output given as a bare file name is such a case.
  lemma {:induction false} BareNamesAreInTheWorkingDirectory(output: string)
    requires Unslashed(output)
    ensures Dir(output) == "."
  {
    if output != "" {
      BareNamesAreInTheWorkingDirectory(output[..|output| - 1]);
    }
  }
}
