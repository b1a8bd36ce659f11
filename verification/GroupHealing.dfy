/**
 Giving the content of directories whose group changed back to that group: one recursive
 `chgrp` for each such directory, unless one for a directory of its group above it reaches it.
 */
module GroupHealing {
  datatype Directory = Directory(path: string, group: string)

  predicate LiesUnder(path: string, above: string) {
    above + "/" <= path
  }

  /** What a recursive command on a path reaches. */
  predicate Reaches(command: Directory, path: string) {
    path == command.path || LiesUnder(path, command.path)
  }

  predicate CoversIt(candidate: Directory, directory: Directory) {
    candidate.path != directory.path && candidate.group == directory.group && LiesUnder(directory.path, candidate.path)
  }

  method DirectoryIsCoveredByAncestor(directory: Directory, directories: seq<Directory>) returns (covered: bool)
    ensures covered <==> exists candidate <- directories :: CoversIt(candidate, directory)
  {
    for i := 0 to |directories|
      invariant forall candidate <- directories[..i] :: !CoversIt(candidate, directory)
    {
      var candidate := directories[i];
      if candidate.path == directory.path || candidate.group != directory.group {
        continue;
      }
      if LiesUnder(directory.path, candidate.path) {
        assert CoversIt(candidate, directory);
        return true;
      }
    }
    return false;
  }

  /** The directories that get a command of their own. */
  predicate IsRegrouped(directory: Directory, directories: seq<Directory>, changed: set<string>) {
    directory.group in changed && !exists candidate <- directories :: CoversIt(candidate, directory)
  }

  function Regrouped(directories: seq<Directory>, all: seq<Directory>, changed: set<string>): seq<Directory> {
    if directories == [] then []
    else
      var last := directories[|directories| - 1];
      var before := Regrouped(directories[..|directories| - 1], all, changed);
      if IsRegrouped(last, all, changed) then before + [last] else before
  }

  /** `fails` says which command, counting from zero, fails. */
  method HealChangedGroupContent(directories: seq<Directory>, changed: set<string>, fails: set<nat>)
    returns (commands: seq<Directory>, ok: bool)
    ensures commands <= Regrouped(directories, directories, changed)
    ensures ok ==> commands == Regrouped(directories, directories, changed)
    ensures !ok ==> |commands| > 0 && |commands| - 1 in fails
    ensures ok <==> forall n :: 0 <= n < |commands| ==> n !in fails
  {
    commands := [];
    for i := 0 to |directories|
      invariant commands == Regrouped(directories[..i], directories, changed)
      invariant forall n :: 0 <= n < |commands| ==> n !in fails
    {
      assert directories[..i + 1][..i] == directories[..i];
      RegroupedGrows(directories, directories, changed, i + 1);
      if directories[i].group !in changed {
        continue;
      }
      var covered := DirectoryIsCoveredByAncestor(directories[i], directories);
      if covered {
        continue;
      }
      commands := commands + [directories[i]];
      if |commands| - 1 in fails {
        return commands, false;
      }
    }
    assert directories[..|directories|] == directories;
    return commands, true;
  }

  lemma {:induction false} RegroupedGrows(directories: seq<Directory>, all: seq<Directory>, changed: set<string>,
      k: nat)
    requires k <= |directories|
    ensures Regrouped(directories[..k], all, changed) <= Regrouped(directories, all, changed)
    decreases |directories|
  {
    if k < |directories| {
      var rest := directories[..|directories| - 1];
      RegroupedGrows(rest, all, changed, k);
      assert rest[..k] == directories[..k];
    } else {
      assert directories[..k] == directories;
    }
  }

  lemma {:induction false} RegroupedHolds(directories: seq<Directory>, all: seq<Directory>, changed: set<string>)
    ensures forall d :: d in Regrouped(directories, all, changed) <==> d in directories && IsRegrouped(d, all, changed)
  {
    if directories != [] {
      RegroupedHolds(directories[..|directories| - 1], all, changed);
      assert directories == directories[..|directories| - 1] + [directories[|directories| - 1]];
    }
  }

  /** A re-grouped directory gets a command for each time it is listed, and no other gets one. */
  lemma {:induction false} CommandsPerDirectory(directories: seq<Directory>, all: seq<Directory>, changed: set<string>,
      d: Directory)
    ensures multiset(Regrouped(directories, all, changed))[d] ==
            if IsRegrouped(d, all, changed) then multiset(directories)[d] else 0
  {
    if directories != [] {
      var rest, last := directories[..|directories| - 1], directories[|directories| - 1];
      CommandsPerDirectory(rest, all, changed, d);
      assert directories == rest + [last];
    }
  }

  // ----- paths by their names

  /** The names between the slashes of a path. */
  function Components(path: string): (names: seq<string>)
    ensures names != []
  {
    if path == "" then [""] else WithBefore(path[0], Components(path[1..]))
  }

  function WithBefore(c: char, names: seq<string>): (more: seq<string>)
    requires names != []
    ensures more != []
  {
    if c == '/' then [""] + names else [[c] + names[0]] + names[1..]
  }

  function Slashed(names: seq<string>): string
    requires names != []
  {
    if |names| == 1 then names[0] else names[0] + "/" + Slashed(names[1..])
  }

  lemma {:induction false} SlashedComponents(path: string)
    ensures Slashed(Components(path)) == path
  {
    if path != "" {
      var rest := Components(path[1..]);
      SlashedComponents(path[1..]);
      if path[0] == '/' {
        assert Components(path)[1..] == rest;
      } else {
        assert Components(path)[1..] == rest[1..];
      }
    }
  }

  lemma {:induction false} SlashedConcat(a: seq<string>, b: seq<string>)
    requires a != [] && b != []
    ensures Slashed(a + b) == Slashed(a) + "/" + Slashed(b)
  {
    assert (a + b)[1..] == a[1..] + b;
    if |a| == 1 {
      assert a[1..] + b == b;
    } else {
      SlashedConcat(a[1..], b);
    }
  }

  lemma BeforeConcat(c: char, x: seq<string>, y: seq<string>)
    requires x != []
    ensures WithBefore(c, x + y) == WithBefore(c, x) + y
  {
    assert (x + y)[0] == x[0] && (x + y)[1..] == x[1..] + y;
  }

  lemma {:induction false} ComponentsConcat(a: string, b: string)
    ensures Components(a + "/" + b) == Components(a) + Components(b)
  {
    hide WithBefore;
    var path := a + "/" + b;
    if a == "" {
      assert path[0] == '/' && path[1..] == b;
      SlashBefore(b);
    } else {
      assert path[0] == a[0] && path[1..] == a[1..] + "/" + b;
      ComponentsConcat(a[1..], b);
      BeforeConcat(a[0], Components(a[1..]), Components(b));
    }
  }

  lemma SlashBefore(b: string)
    ensures WithBefore('/', Components(b)) == Components("") + Components(b)
  {
  }

  /** A path lies under another exactly when the other's names are the first of its own, and not all. */
  lemma LiesUnderIff(path: string, above: string)
    ensures LiesUnder(path, above) <==> Components(above) < Components(path)
  {
    hide Components, Slashed;
    SlashedComponents(path);
    SlashedComponents(above);
    if LiesUnder(path, above) {
      var rest := path[|above| + 1..];
      assert path == above + "/" + rest;
      ComponentsConcat(above, rest);
    }
    if Components(above) < Components(path) {
      var rest := Components(path)[|Components(above)|..];
      assert Components(path) == Components(above) + rest;
      SlashedConcat(Components(above), rest);
    }
  }

  lemma ReachesIff(command: Directory, path: string)
    ensures Reaches(command, path) <==> Components(command.path) <= Components(path)
  {
    hide Components, Slashed;
    LiesUnderIff(path, command.path);
    SlashedComponents(path);
    SlashedComponents(command.path);
    var names, all := Components(command.path), Components(path);
    assert names <= all && |names| == |all| ==> names == all;
  }

  /** A name that goes on where another ends does not lie under it. */
  lemma LongerNameIsNotUnder(above: string, more: string)
    requires more != "" && more[0] != '/'
    ensures !LiesUnder(above + more, above)
  {
    assert (above + more)[|above|] == more[0];
    assert (above + "/")[|above|] == '/';
  }

  /** Commands are run for exactly the directories of changed groups that have none of their group above them. */
  lemma CommandsAre(directories: seq<Directory>, changed: set<string>, d: Directory)
    ensures d in Regrouped(directories, directories, changed) <==>
            && d in directories && d.group in changed
            && forall other <- directories :: other.group == d.group ==> !(Components(other.path) < Components(d.path))
  {
    hide Components;
    RegroupedHolds(directories, directories, changed);
    forall other | other in directories
      ensures CoversIt(other, d) <==> other.group == d.group && Components(other.path) < Components(d.path)
    {
      LiesUnderIff(d.path, other.path);
    }
  }

  // ----- everything is reached, nothing by nested commands

  lemma UnderIsTransitive(path: string, middle: string, above: string)
    requires LiesUnder(path, middle) && LiesUnder(middle, above)
    ensures LiesUnder(path, above)
  {
    assert path[..|middle| + 1] == middle + "/";
    assert middle[..|above| + 1] == above + "/";
    assert path[..|above| + 1] == above + "/";
  }

  /** A directory of a changed group is re-grouped, or lies under a re-grouped one of its group. */
  lemma {:induction false} EveryChangedDirectoryIsReached(d: Directory, directories: seq<Directory>,
      changed: set<string>)
    returns (command: Directory)
    requires d in directories && d.group in changed
    ensures command in Regrouped(directories, directories, changed) && command.group == d.group
    ensures Reaches(command, d.path) && Components(command.path) <= Components(d.path)
    decreases |d.path|
  {
    command := d;
    RegroupedHolds(directories, directories, changed);
    if !IsRegrouped(d, directories, changed) {
      var above :| above in directories && CoversIt(above, d);
      command := EveryChangedDirectoryIsReached(above, directories, changed);
      if command.path != above.path {
        UnderIsTransitive(d.path, above.path, command.path);
      }
    }
    ReachesIff(command, d.path);
  }

  /** No re-grouped directory lies under another of its group: no content gets its group by two nested commands. */
  lemma NoRegroupedLiesUnderAnother(c: Directory, d: Directory, directories: seq<Directory>, changed: set<string>)
    requires c in Regrouped(directories, directories, changed) && d in Regrouped(directories, directories, changed)
    requires c.group == d.group
    ensures !LiesUnder(d.path, c.path) && !(Components(c.path) < Components(d.path))
  {
    RegroupedHolds(directories, directories, changed);
    LiesUnderIff(d.path, c.path);
    if LiesUnder(d.path, c.path) {
      assert CoversIt(c, d);
    }
  }

  // ----- what the commands make of a path's group

  /** The group of a path after the commands, the last that reaches it having the say. */
  function GroupAfter(commands: seq<Directory>, path: string, before: string): string {
    if commands == [] then before
    else
      var last := commands[|commands| - 1];
      if Reaches(last, path) then last.group else GroupAfter(commands[..|commands| - 1], path, before)
  }

  predicate GetsACommand(directories: seq<Directory>, changed: set<string>, i: nat, path: string)
    requires i < |directories|
  {
    IsRegrouped(directories[i], directories, changed) && Reaches(directories[i], path)
  }

  /**
   Among the first `n` listed, a re-grouped directory that reaches the path has the say, if none listed
   later does.
   */
  lemma {:induction false} LastReachingDecides(directories: seq<Directory>, changed: set<string>, path: string,
      before: string, n: nat, i: nat)
    returns (j: nat)
    requires i < n <= |directories| && GetsACommand(directories, changed, i, path)
    ensures i <= j < n && GetsACommand(directories, changed, j, path)
    ensures GroupAfter(Regrouped(directories[..n], directories, changed), path, before) == directories[j].group
  {
    assert directories[..n][..n - 1] == directories[..n - 1];
    var earlier := Regrouped(directories[..n - 1], directories, changed);
    if GetsACommand(directories, changed, n - 1, path) {
      j := n - 1;
      assert (earlier + [directories[n - 1]])[|earlier|] == directories[n - 1];
    } else {
      j := LastReachingDecides(directories, changed, path, before, n - 1, i);
      if IsRegrouped(directories[n - 1], directories, changed) {
        assert (earlier + [directories[n - 1]])[..|earlier|] == earlier;
      }
    }
  }

  // ----- the topmost directory of a group at or above another

  /** Paths at or above one path lie one above the other. */
  lemma PathsAboveFormAChain(path: string, a: Directory, b: Directory)
    requires Reaches(a, path) && Reaches(b, path)
    ensures a.path == b.path || LiesUnder(a.path, b.path) || LiesUnder(b.path, a.path)
  {
    assert a.path == path[..|a.path|] && b.path == path[..|b.path|];
    if |a.path| < |b.path| {
      assert path[..|a.path| + 1] == a.path + "/";
      assert b.path[..|a.path| + 1] == path[..|a.path| + 1];
    } else if |b.path| < |a.path| {
      assert path[..|b.path| + 1] == b.path + "/";
      assert a.path[..|b.path| + 1] == path[..|b.path| + 1];
    }
  }

  /** Of the listed directories of its group at or above `d`, the one that has none above it. */
  predicate IsTopmost(top: Directory, d: Directory, directories: seq<Directory>) {
    && top in directories && top.group == d.group && Reaches(top, d.path)
    && forall other <- directories :: other.group == d.group ==> !LiesUnder(top.path, other.path)
  }

  lemma NotUnderItself(path: string)
    ensures !LiesUnder(path, path)
  {
  }

  /** The command for a changed directory's group that reaches it is that of the topmost, and of no other. */
  lemma TopmostIsRegrouped(d: Directory, directories: seq<Directory>, changed: set<string>, e: Directory)
    requires d.group in changed
    ensures IsTopmost(e, d, directories) <==>
            e in directories && e.group == d.group && IsRegrouped(e, directories, changed) && Reaches(e, d.path)
  {
    NotUnderItself(e.path);
    if e in directories && e.group == d.group && IsRegrouped(e, directories, changed) && Reaches(e, d.path) {
      forall other | other in directories && other.group == d.group ensures !LiesUnder(e.path, other.path) {
        NotUnderItself(other.path);
        assert !CoversIt(other, e);
      }
    }
  }

  lemma TopmostIsOne(d: Directory, directories: seq<Directory>, e: Directory, f: Directory)
    requires IsTopmost(e, d, directories) && IsTopmost(f, d, directories)
    ensures e == f
  {
    PathsAboveFormAChain(d.path, e, f);
  }

  /**
   In whatever order directories are listed: a directory of a changed group ends in its group if
   and only if the topmost of its group at or above it is listed, at some place, after every
   re-grouped directory of another group at or above it.
   */
  lemma ChangedDirectoryEndsInItsGroupIff(d: Directory, directories: seq<Directory>, changed: set<string>,
      before: string, top: Directory)
    requires d in directories && d.group in changed && IsTopmost(top, d, directories)
    ensures GroupAfter(Regrouped(directories, directories, changed), d.path, before) == d.group <==>
            exists i: nat :: i < |directories| && directories[i] == top && NoOtherAfter(directories, changed, i, d)
  {
    hide Regrouped, GroupAfter, IsRegrouped, Reaches;
    var n := |directories|;
    assert directories[..n] == directories;
    TopmostIsRegrouped(d, directories, changed, top);
    var k :| 0 <= k < n && directories[k] == top;
    var j := LastReachingDecides(directories, changed, d.path, before, n, k);
    if directories[j].group == d.group {
      j := LastOwn(d, directories, changed, before, j);
      TopmostIsRegrouped(d, directories, changed, directories[j]);
      TopmostIsOne(d, directories, top, directories[j]);
    } else {
      forall i: nat | i < n && directories[i] == top ensures !NoOtherAfter(directories, changed, i, d) {
        var l := LastReachingDecides(directories, changed, d.path, before, n, i);
        assert directories[l].group != d.group && l != i;
      }
    }
  }

  /** Nothing listed after `i` gets a command of another group that reaches `d`. */
  ghost predicate NoOtherAfter(directories: seq<Directory>, changed: set<string>, i: nat, d: Directory) {
    forall j: nat ::
      i < j < |directories| && GetsACommand(directories, changed, j, d.path) ==> directories[j].group == d.group
  }

  /** If the last say is the group's own, some own command comes after all others. */
  lemma {:induction false} LastOwn(d: Directory, directories: seq<Directory>, changed: set<string>, before: string,
      i: nat)
    returns (j: nat)
    requires i < |directories| && GetsACommand(directories, changed, i, d.path) && directories[i].group == d.group
    requires GroupAfter(Regrouped(directories, directories, changed), d.path, before) == d.group
    ensures j < |directories| && GetsACommand(directories, changed, j, d.path) && directories[j].group == d.group
    ensures NoOtherAfter(directories, changed, j, d)
    decreases |directories| - i
  {
    j := i;
    if !NoOtherAfter(directories, changed, i, d) {
      var k: nat :| i < k < |directories| && GetsACommand(directories, changed, k, d.path) &&
                    directories[k].group != d.group;
      assert directories[..|directories|] == directories;
      var l := LastReachingDecides(directories, changed, d.path, before, |directories|, k);
      j := LastOwn(d, directories, changed, before, l);
    }
  }

  // ----- listed from the top down

  /** What lies under another is listed after it. */
  ghost predicate AreListedTopDown(directories: seq<Directory>) {
    forall i, j ::
      0 <= i < |directories| && 0 <= j < |directories| && LiesUnder(directories[j].path, directories[i].path) ==> i < j
  }

  ghost predicate HaveOneGroupPerPath(directories: seq<Directory>) {
    forall a <- directories, b <- directories :: a.path == b.path ==> a.group == b.group
  }

  /** A re-grouped directory of another group lies between the topmost of the group and `d`, or is where `d` is. */
  ghost predicate IsCutOff(d: Directory, top: Directory, directories: seq<Directory>, changed: set<string>) {
    exists e <- directories ::
      IsRegrouped(e, directories, changed) && e.group != d.group && Reaches(e, d.path) && LiesUnder(e.path, top.path)
  }

  /**
   Listed from the top down, one group to a path: a directory of a changed group ends in its
   group if and only if no re-grouped directory of another group lies at or above it and under
   the topmost of its own group.
   */
  lemma TopDownDirectoryEndsInItsGroupIff(d: Directory, directories: seq<Directory>, changed: set<string>,
      before: string, top: Directory)
    requires d in directories && d.group in changed && IsTopmost(top, d, directories)
    requires AreListedTopDown(directories) && HaveOneGroupPerPath(directories)
    ensures GroupAfter(Regrouped(directories, directories, changed), d.path, before) == d.group <==>
            !IsCutOff(d, top, directories, changed)
  {
    hide Regrouped, GroupAfter;
    ChangedDirectoryEndsInItsGroupIff(d, directories, changed, before, top);
    if IsCutOff(d, top, directories, changed) {
      var e :| e in directories && IsRegrouped(e, directories, changed) && e.group != d.group && Reaches(e, d.path) &&
               LiesUnder(e.path, top.path);
      var k :| 0 <= k < |directories| && directories[k] == e;
      assert GetsACommand(directories, changed, k, d.path);
    } else {
      var i :| 0 <= i < |directories| && directories[i] == top;
      forall j: nat | i < j < |directories| && GetsACommand(directories, changed, j, d.path)
        ensures directories[j].group == d.group
      {
        PathsAboveFormAChain(d.path, directories[j], top);
      }
      assert NoOtherAfter(directories, changed, i, d);
    }
  }

  lemma {:induction false} TopmostIsThere(d: Directory, directories: seq<Directory>, changed: set<string>)
    returns (top: Directory)
    requires d in directories && d.group in changed
    ensures IsTopmost(top, d, directories)
  {
    top := EveryChangedDirectoryIsReached(d, directories, changed);
    RegroupedHolds(directories, directories, changed);
    TopmostIsRegrouped(d, directories, changed, top);
  }

  lemma {:induction false} UnreachedPathKeepsItsGroup(commands: seq<Directory>, path: string, before: string)
    requires forall command <- commands :: !Reaches(command, path)
    ensures GroupAfter(commands, path, before) == before
  {
    if commands != [] {
      UnreachedPathKeepsItsGroup(commands[..|commands| - 1], path, before);
    }
  }

  /** With no directory at or under one of another, changed group, every directory ends in its group. */
  lemma UnmixedDirectoriesEndInTheirGroups(d: Directory, directories: seq<Directory>, changed: set<string>)
    requires d in directories
    requires forall e <- directories :: e.group in changed && e.group != d.group ==> !Reaches(e, d.path)
    ensures GroupAfter(Regrouped(directories, directories, changed), d.path, d.group) == d.group
  {
    var commands := Regrouped(directories, directories, changed);
    RegroupedHolds(directories, directories, changed);
    assert forall c <- commands :: c in directories && c.group in changed;
    if d.group in changed {
      var top := TopmostIsThere(d, directories, changed);
      ChangedDirectoryEndsInItsGroupIff(d, directories, changed, d.group, top);
      var i :| 0 <= i < |directories| && directories[i] == top;
      assert NoOtherAfter(directories, changed, i, d);
    } else {
      assert forall c <- commands :: !Reaches(c, d.path);
      UnreachedPathKeepsItsGroup(commands, d.path, d.group);
    }
  }

  const OUTER := Directory("/a", "g")
  const BETWEEN := Directory("/a/b", "h")
  const INNER := Directory("/a/b/c", "g")

  lemma CoversOfTheThree()
    ensures CoversIt(OUTER, INNER) && !CoversIt(BETWEEN, OUTER) && !CoversIt(INNER, OUTER)
    ensures !CoversIt(OUTER, BETWEEN) && !CoversIt(INNER, BETWEEN)
  {
    assert INNER.path[..3] == "/a/" && OUTER.path + "/" == "/a/";
  }

  lemma RegroupedOfTheThree()
    ensures var all, changed := [OUTER, BETWEEN, INNER], {"g", "h"};
            IsRegrouped(OUTER, all, changed) && IsRegrouped(BETWEEN, all, changed) && !IsRegrouped(INNER, all, changed)
  {
    CoversOfTheThree();
    assert !CoversIt(OUTER, OUTER) && !CoversIt(BETWEEN, BETWEEN);
    hide CoversIt;
  }

  lemma CommandsOfTheThree()
    ensures Regrouped([OUTER, BETWEEN, INNER], [OUTER, BETWEEN, INNER], {"g", "h"}) == [OUTER, BETWEEN]
  {
    hide IsRegrouped;
    var all, changed := [OUTER, BETWEEN, INNER], {"g", "h"};
    RegroupedOfTheThree();
    assert [OUTER][..0] == [] && [OUTER, BETWEEN][..1] == [OUTER] && all[..2] == [OUTER, BETWEEN];
    assert Regrouped([OUTER], all, changed) == [OUTER];
    assert Regrouped([OUTER, BETWEEN], all, changed) == [OUTER] + [BETWEEN];
  }

  /** Left to the directory above it, a directory can end in the group of one in between. */
  lemma DirectoryCanEndInAnotherGroup() returns (directories: seq<Directory>, changed: set<string>, d: Directory)
    ensures d in directories && d.group in changed
    ensures GroupAfter(Regrouped(directories, directories, changed), d.path, d.group) != d.group
  {
    hide Regrouped;
    directories, changed, d := [OUTER, BETWEEN, INNER], {"g", "h"}, INNER;
    CommandsOfTheThree();
    assert Reaches(BETWEEN, d.path);
  }
}
