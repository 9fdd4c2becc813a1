/**
 What the paths of `Paths` mean: where they lead from a directory. `filepath.Clean` keeps that,
 and two paths with the same meaning clean to the same text.
 */
module PathMeaning {
  import opened Paths

  // A directory, as the names on the way to it from the root.
  type Place = seq<string>

  function Step(from: Place, part: string): Place {
    match part
    case "" => from
    case "." => from
    case ".." => if from == [] then [] else from[..|from| - 1]
    case _ => from + [part]
  }

  function Follow(from: Place, parts: seq<string>): Place {
    if parts == [] then from else Step(Follow(from, parts[..|parts| - 1]), parts[|parts| - 1])
  }

  // Where a path leads when the working directory is `from`.
  function Leads(from: Place, path: string): Place {
    Follow(if Rooted(path) then [] else from, Split(path))
  }

  lemma {:induction false} FollowConcat(from: Place, a: seq<string>, b: seq<string>)
    ensures Follow(from, a + b) == Follow(Follow(from, a), b)
  {
    if b == [] {
      assert a + b == a;
    } else {
      assert (a + b)[..|a + b| - 1] == a + b[..|b| - 1];
      FollowConcat(from, a, b[..|b| - 1]);
    }
  }

  lemma FollowOne(from: Place, part: string)
    ensures Follow(from, [part]) == Step(from, part)
  {
    assert Follow(from, []) == from;
  }

  lemma FollowMore(from: Place, stack: seq<string>, part: string)
    ensures Follow(from, stack + [part]) == Step(Follow(from, stack), part)
  {
    assert (stack + [part])[..|stack|] == stack;
  }

  lemma PushedLeads(from: Place, rooted: bool, stack: seq<string>, part: string)
    requires Settled(rooted, stack) && (rooted ==> from == [])
    ensures Follow(from, Pushed(rooted, stack, part)) == Step(Follow(from, stack), part)
  {
    FollowMore(from, stack, part);
    if stack != [] && stack[|stack| - 1] != ".." {
      var init, name := stack[..|stack| - 1], stack[|stack| - 1];
      FollowMore(from, init, name);
      assert stack == init + [name] && Plain(name);
      assert Step(Follow(from, init), name) == Follow(from, init) + [name];
    }
    hide Settled;
  }

  lemma {:induction false} WalkLeads(from: Place, rooted: bool, stack: seq<string>, parts: seq<string>)
    requires Settled(rooted, stack) && (rooted ==> from == []) && forall i :: 0 <= i < |parts| ==> Unslashed(parts[i])
    ensures Follow(from, Walk(rooted, stack, parts)) == Follow(Follow(from, stack), parts)
    decreases |parts|
  {
    if parts != [] {
      var pushed := Pushed(rooted, stack, parts[0]);
      WalkSettles(rooted, stack, [parts[0]]);
      assert Walk(rooted, stack, [parts[0]]) == Walk(rooted, pushed, []) == pushed;
      PushedLeads(from, rooted, stack, parts[0]);
      WalkLeads(from, rooted, pushed, parts[1..]);
      assert parts == [parts[0]] + parts[1..];
      FollowConcat(Follow(from, stack), [parts[0]], parts[1..]);
      FollowOne(Follow(from, stack), parts[0]);
    }
  }

  // A stack leads where its path does.
  lemma StackLeads(from: Place, path: string)
    ensures Leads(from, path) == Follow(if Rooted(path) then [] else from, Stack(path))
  {
    SplitUnslashed(path);
    WalkLeads(if Rooted(path) then [] else from, Rooted(path), [], Split(path));
  }

  // Cleaning a path keeps where it leads, from everywhere.
  lemma CleanLeads(from: Place, path: string)
    ensures Rooted(Clean(path)) == Rooted(path)
    ensures Leads(from, Clean(path)) == Leads(from, path)
  {
    StackSettled(path);
    StackPrinted(Rooted(path), Stack(path));
    StackLeads(from, path);
    StackLeads(from, Clean(path));
  }

  // ---------------------------------------------------------------- one text for each meaning

  // How far a settled relative path climbs before it goes down.
  function Climbs(stack: seq<string>): (n: nat)
    ensures n <= |stack| && (forall i :: 0 <= i < n ==> stack[i] == "..") && (n < |stack| ==> stack[n] != "..")
  {
    if stack == [] || stack[0] != ".." then 0 else 1 + Climbs(stack[1..])
  }

  lemma {:induction false} FollowNames(from: Place, names: seq<string>)
    requires forall i :: 0 <= i < |names| ==> Plain(names[i])
    ensures Follow(from, names) == from + names
  {
    if names != [] {
      FollowNames(from, names[..|names| - 1]);
    }
  }

  lemma {:induction false} FollowClimb(from: Place, ups: seq<string>)
    requires |ups| <= |from| && forall i :: 0 <= i < |ups| ==> ups[i] == ".."
    ensures Follow(from, ups) == from[..|from| - |ups|]
  {
    if ups != [] {
      FollowClimb(from, ups[..|ups| - 1]);
    }
  }

  lemma NamesAfterClimbs(stack: seq<string>)
    requires Settled(false, stack)
    ensures forall i :: 0 <= i < |stack[Climbs(stack)..]| ==> Plain(stack[Climbs(stack)..][i])
  {
    var n := Climbs(stack);
    forall i | n <= i < |stack| ensures Plain(stack[i]) {
      assert n < i ==> !(stack[n] != ".." && stack[i] == "..");
    }
  }

  lemma FollowSettled(from: Place, stack: seq<string>)
    requires Settled(false, stack) && Climbs(stack) <= |from|
    ensures Follow(from, stack) == from[..|from| - Climbs(stack)] + stack[Climbs(stack)..]
  {
    var n := Climbs(stack);
    var ups, names, high := stack[..n], stack[n..], from[..|from| - n];
    NamesAfterClimbs(stack);
    assert forall i :: 0 <= i < |names| ==> Plain(names[i]);
    hide Follow, Settled, Plain, Climbs;
    assert Follow(from, ups) == high by {
      FollowClimb(from, ups);
    }
    assert Follow(high, names) == high + names by {
      FollowNames(high, names);
    }
    assert Follow(from, ups + names) == Follow(high, names) by {
      FollowConcat(from, ups, names);
    }
    assert stack == ups + names;
  }

  function Repeated(part: string, n: nat): (place: Place)
    ensures |place| == n && forall i :: 0 <= i < n ==> place[i] == part
  {
    seq(n, i => part)
  }

  lemma {:induction false} Unused(parts: seq<string>) returns (part: string)
    ensures |part| > 0 && forall i :: 0 <= i < |parts| ==> |parts[i]| < |part|
  {
    part := "a";
    if parts != [] {
      var other := Unused(parts[1..]);
      part := if |other| > |parts[0]| then other else parts[0] + "a";
    }
  }

  predicate Lacks(parts: seq<string>, part: string) {
    forall i :: 0 <= i < |parts| ==> parts[i] != part
  }

  predicate Only(parts: seq<string>, part: string) {
    forall i :: 0 <= i < |parts| ==> parts[i] == part
  }

  lemma Halves(parts: seq<string>, n: nat, part: string)
    requires n <= |parts|
    ensures parts == parts[..n] + parts[n..]
    ensures Lacks(parts, part) ==> Lacks(parts[n..], part)
  {
  }

  lemma PlacesDiffer(from: Place, part: string, n: nat, a: seq<string>, m: nat, b: seq<string>)
    requires n < m <= |from| && Only(from, part) && Lacks(b, part)
    ensures from[..|from| - n] + a != from[..|from| - m] + b
  {
    assert (from[..|from| - n] + a)[|from| - m] == part;
    if b != [] {
      assert (from[..|from| - m] + b)[|from| - m] == b[0];
    } else {
      assert |from[..|from| - m] + b| == |from| - m;
    }
  }

  lemma SameClimbs(a: seq<string>, b: seq<string>)
    requires Climbs(a) == Climbs(b)
    ensures a[..Climbs(a)] == b[..Climbs(a)]
  {
  }

  // Two settled stacks that lead to one place from a deep enough directory of an unused name are
  // the same.
  lemma SettledAreTold(a: seq<string>, b: seq<string>, from: Place, part: string)
    requires Settled(false, a) && Settled(false, b)
    requires Climbs(a) <= |from| && Climbs(b) <= |from| && Only(from, part) && Lacks(a, part) && Lacks(b, part)
    requires Follow(from, a) == Follow(from, b) && Climbs(a) <= Climbs(b)
    ensures a == b
  {
    var n, m := Climbs(a), Climbs(b);
    hide *;
    FollowSettled(from, a);
    FollowSettled(from, b);
    Halves(a, n, part);
    Halves(b, m, part);
    if n < m {
      PlacesDiffer(from, part, n, a[n..], m, b[m..]);
    } else {
      SameClimbs(a, b);
      SameEnd(from[..|from| - n], a[n..], b[n..]);
    }
  }

  lemma SameEnd(start: Place, a: seq<string>, b: seq<string>)
    requires start + a == start + b
    ensures a == b
  {
    assert a == (start + a)[|start|..];
    assert b == (start + b)[|start|..];
  }

  lemma RootedStacksAreTold(s: string, t: string)
    requires Rooted(s) && Rooted(t) && Leads([], s) == Leads([], t)
    ensures Stack(s) == Stack(t)
  {
    StackSettled(s);
    StackSettled(t);
    StackLeads([], s);
    StackLeads([], t);
    FollowNames([], Stack(s));
    FollowNames([], Stack(t));
    assert [] + Stack(s) == Stack(s) && [] + Stack(t) == Stack(t);
  }

  lemma UnusedInBoth(a: seq<string>, b: seq<string>) returns (part: string)
    ensures Lacks(a, part) && Lacks(b, part)
  {
    part := Unused(a + b);
    assert forall i :: 0 <= i < |a| ==> (a + b)[i] == a[i];
    assert forall i :: 0 <= i < |b| ==> (a + b)[|a| + i] == b[i];
  }

  lemma SameLeadsSameStack(s: string, t: string)
    requires Rooted(s) == Rooted(t) && forall from :: Leads(from, s) == Leads(from, t)
    ensures Stack(s) == Stack(t)
  {
    if Rooted(s) {
      RootedStacksAreTold(s, t);
    } else {
      var a, b := Stack(s), Stack(t);
      var part := UnusedInBoth(a, b);
      var from := Repeated(part, Climbs(a) + Climbs(b));
      assert Leads(from, s) == Leads(from, t);
      StackLeads(from, s);
      StackLeads(from, t);
      StackSettled(s);
      StackSettled(t);
      hide Leads, Stack, Settled, Follow;
      if Climbs(a) <= Climbs(b) {
        SettledAreTold(a, b, from, part);
      } else {
        SettledAreTold(b, a, from, part);
      }
    }
  }

  // Two paths clean to the same text exactly when both are absolute or both relative and they
  // lead to the same place from every directory.
  lemma CleanTellsMeanings(s: string, t: string)
    ensures Clean(s) == Clean(t) <==> Rooted(s) == Rooted(t) && forall from :: Leads(from, s) == Leads(from, t)
  {
    if Clean(s) == Clean(t) {
      CleanLeads([], s);
      CleanLeads([], t);
      forall from ensures Leads(from, s) == Leads(from, t) {
        CleanLeads(from, s);
        CleanLeads(from, t);
      }
    } else if Rooted(s) == Rooted(t) && forall from :: Leads(from, s) == Leads(from, t) {
      SameLeadsSameStack(s, t);
    }
  }

  // ---------------------------------------------------------------- what the operations mean

  // What an entry name comes down to is where it leads from the root.
  lemma ComponentsLead(name: string)
    ensures Components(name) == Leads([], "/" + name)
  {
    StackLeads([], "/" + name);
    StackSettled("/" + name);
    FollowNames([], Components(name));
    assert [] + Components(name) == Components(name);
  }

  lemma LeadsOn(from: Place, path: string, more: string)
    requires path != ""
    ensures Leads(from, path + "/" + more) == Follow(Leads(from, path), Split(more))
  {
    SplitConcat(path, more);
    FollowConcat(if Rooted(path) then [] else from, Split(path), Split(more));
  }

  // Joining leads on from where the directory does, and to the name itself without one.
  lemma JoinLeads(from: Place, dir: string, name: string)
    ensures dir != "" ==> Leads(from, Join(dir, name)) == Follow(Leads(from, dir), Split(name))
    ensures dir == "" && name != "" ==> Leads(from, Join(dir, name)) == Leads(from, name)
    ensures dir == "" && name == "" ==> Join(dir, name) == ""
  {
    CleanLeads(from, dir + "/" + name);
    CleanLeads(from, name);
    if dir != "" {
      LeadsOn(from, dir, name);
    }
  }

  lemma {:induction false} UpToSlashOf(path: string, name: string)
    requires Unslashed(name)
    ensures UpToSlash(path + "/" + name) == path + "/"
  {
    var whole := path + "/" + name;
    if name == "" {
      assert whole == path + "/";
    } else {
      assert whole[|whole| - 1] == name[|name| - 1];
      assert whole[..|whole| - 1] == path + "/" + name[..|name| - 1];
      UpToSlashOf(path, name[..|name| - 1]);
    }
  }

  // The directory of a path is where the path leads short of its last component.
  lemma DirLeads(from: Place, path: string, name: string)
    requires Unslashed(name)
    ensures Dir(path + "/" + name) == Clean(path + "/")
    ensures Leads(from, Dir(path + "/" + name)) == (if path == "" then [] else Leads(from, path))
  {
    UpToSlashOf(path, name);
    CleanLeads(from, path + "/");
    assert path + "/" == path + "/" + "";
    SplitConcat(path, "");
    FollowConcat(if Rooted(path + "/") then [] else from, Split(path), Split(""));
    FollowOne(Follow(if Rooted(path + "/") then [] else from, Split(path)), "");
    if path == "" {
      FollowOne([], "");
    }
  }

  lemma ThereAndBack(from: Place, path: string, name: string)
    requires Plain(name) && path != ""
    ensures Leads(from, path + "/" + name + "/..") == Leads(from, path)
  {
    LeadsOn(from, path, name);
    LeadsOn(from, path + "/" + name, "..");
    SplitWhole(name);
    SplitWhole("..");
    hide Leads, Split;
    FollowOne(Leads(from, path), name);
    FollowOne(Leads(from, path) + [name], "..");
    assert path + "/" + name + "/.." == (path + "/" + name) + "/" + "..";
  }

  // A name and then ".." takes the name back, on the way to an entry and in a path.
  lemma DotDotTakesBack(x: string, name: string)
    requires Plain(name)
    ensures Components(x + "/" + name + "/..") == Components(x)
    ensures x != "" ==> Clean(x + "/" + name + "/..") == Clean(x)
  {
    ComponentsLead(x);
    ComponentsLead(x + "/" + name + "/..");
    ThereAndBack([], "/" + x, name);
    assert "/" + (x + "/" + name + "/..") == ("/" + x) + "/" + name + "/..";
    if x != "" {
      assert Rooted(x + "/" + name + "/..") == Rooted(x);
      hide Leads, Clean, Components, Plain;
      forall from ensures Leads(from, x + "/" + name + "/..") == Leads(from, x) {
        ThereAndBack(from, x, name);
      }
      CleanTellsMeanings(x, x + "/" + name + "/..");
    }
  }

  // Climbing out of the root stays there: a leading ".." of an entry name is dropped.
  lemma LeadingDotDotIsDropped(x: string)
    ensures Components("../" + x) == Components(x)
    ensures Clean("/../" + x) == Clean("/" + x)
  {
    assert "/../" + x == "/.." + "/" + x && "/" + ("../" + x) == "/../" + x;
    assert "/.." == "" + "/" + ".." && "/" + x == "" + "/" + x;
    SplitConcat("/..", x);
    SplitConcat("", "..");
    SplitConcat("", x);
    SplitWhole("..");
    SplitWhole("");
    assert Split("/..") == ["", ".."];
    forall from ensures Leads(from, "/../" + x) == Leads(from, "/" + x) {
      FollowConcat([], ["", ".."], Split(x));
      FollowConcat([], [""], [".."]);
      FollowConcat([], [""], Split(x));
      FollowOne([], "");
      FollowOne([], "..");
      assert ["", ".."] == [""] + [".."];
    }
    ComponentsLead(x);
    ComponentsLead("../" + x);
    CleanTellsMeanings("/../" + x, "/" + x);
  }
}
