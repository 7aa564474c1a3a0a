/**
 Alias files: a name ending in `.alias.vhd` whose text is the path of a VHD, relative to the
 directory of the alias.
 */
module Aliases {
  import opened Basics

  /** The names from the root of the remote down. */
  type Path = seq<string>

  /** The text of an alias, cut at its slashes; `absolute`: it starts with one. */
  datatype Text = Text(absolute: bool, names: seq<string>)

  const ALIAS_SUFFIX: string := ".alias.vhd"

  predicate HasSuffix(name: string) {
    |name| >= |ALIAS_SUFFIX| && name[|name| - |ALIAS_SUFFIX|..] == ALIAS_SUFFIX
  }

  lemma HasSuffixIff(name: string)
    ensures HasSuffix(name) <==> exists stem: string :: name == stem + ".alias.vhd"
  {
    if HasSuffix(name) {
      var stem := name[..|name| - |ALIAS_SUFFIX|];
      assert name == stem + ".alias.vhd";
    }
    if stem: string :| name == stem + ".alias.vhd" {
      assert name[|name| - |ALIAS_SUFFIX|..] == ALIAS_SUFFIX;
    }
  }

  /** `isVhdAlias`, of a path and of a text. */
  predicate IsAlias(p: Path) {
    p != [] && HasSuffix(p[|p| - 1])
  }

  predicate NamesAlias(t: Text) {
    t.names != [] && HasSuffix(t.names[|t.names| - 1])
  }

  function DirOf(p: Path): Path {
    if p == [] then [] else p[..|p| - 1]
  }

  function Enter(dir: Path, name: string): Path {
    if name == "" || name == "." then dir else if name == ".." then DirOf(dir) else dir + [name]
  }

  /** Going from a directory along some names; nothing is above the root. */
  function Follow(dir: Path, names: seq<string>): Path
    decreases |names|
  {
    if names == [] then dir else Follow(Enter(dir, names[0]), names[1..])
  }

  /** `resolveRelativeFromFile`. */
  function ResolveFrom(file: Path, t: Text): Path {
    Follow(if t.absolute then [] else DirOf(file), t.names)
  }

  /** A file holding the text of an alias, or a VHD, which is a file or a directory. */
  datatype Entry = Link(text: Text) | Vhd(id: nat, isDirectory: bool)

  type Files = map<Path, Entry>

  /** `resolveVhdAlias`; None when it throws. */
  function Resolve(files: Files, p: Path): Option<Path> {
    if !IsAlias(p) then Some(p)
    else if p in files && files[p].Link? && !NamesAlias(files[p].text) then Some(ResolveFrom(p, files[p].text))
    else None
  }

  // ----- the aliases that are created

  function Common(a: Path, b: Path): (n: nat)
    ensures n <= |a| && n <= |b| && a[..n] == b[..n]
  {
    if a == [] || b == [] || a[0] != b[0] then 0
    else
      var n := Common(a[1..], b[1..]);
      assert a[..n + 1] == [a[0]] + a[1..][..n] && b[..n + 1] == [b[0]] + b[1..][..n];
      n + 1
  }

  function Ups(n: nat): seq<string> {
    seq(n, _ => "..")
  }

  /** `path.relative`: up to the common directory, then down. */
  function Relative(dir: Path, target: Path): Text {
    var n := Common(dir, target);
    Text(false, Ups(|dir| - n) + target[n..])
  }

  /** `createAlias`; None when it throws. */
  function CreateAlias(files: Files, alias: Path, target: Path): Option<Files> {
    if !IsAlias(alias) || IsAlias(target) then None
    else Some(files[alias := Link(Relative(DirOf(alias), target))])
  }

  predicate IsName(name: string) {
    name != "" && name != "." && name != ".."
  }

  predicate Normal(p: Path) {
    forall i :: 0 <= i < |p| ==> IsName(p[i])
  }

  /** The directory `n` levels up, or the root. */
  function Above(dir: Path, n: nat): Path {
    if n <= |dir| then dir[..|dir| - n] else []
  }

  /** No longer prefix is common. */
  lemma {:induction false} CommonIsLongest(a: Path, b: Path)
    ensures var n := Common(a, b); n == |a| || n == |b| || a[n] != b[n]
    decreases |a|
  {
    if a != [] && b != [] && a[0] == b[0] {
      CommonIsLongest(a[1..], b[1..]);
    }
  }

  lemma CommonIs(a: Path, b: Path, n: nat)
    requires n <= |a| && n <= |b| && a[..n] == b[..n]
    ensures n <= Common(a, b)
  {
    CommonIsLongest(a, b);
    forall i | 0 <= i < n ensures a[i] == b[i] {
      assert a[..n][i] == b[..n][i];
    }
  }

  /** The text for a target inside the directory of the alias is its names below that directory. */
  lemma InsideNeedsNoUps(dir: Path, names: Path)
    ensures Relative(dir, dir + names) == Text(false, names)
  {
    hide Common;
    assert (dir + names)[..|dir|] == dir == dir[..|dir|];
    CommonIs(dir, dir + names, |dir|);
    assert Ups(0) + (dir + names)[|dir|..] == names;
  }

  // ----- following names

  lemma {:induction false} FollowAppend(dir: Path, a: seq<string>, b: seq<string>)
    ensures Follow(dir, a + b) == Follow(Follow(dir, a), b)
    decreases |a|
  {
    if a == [] {
      assert a + b == b;
    } else {
      var next := Enter(dir, a[0]);
      assert (a + b)[1..] == a[1..] + b && (a + b)[0] == a[0];
      FollowAppend(next, a[1..], b);
    }
  }

  /** Empty names and "." stay, ".." goes up, any other name goes down, from wherever one is. */
  lemma FollowOne(dir: Path, before: seq<string>, name: string, after: seq<string>)
    ensures name == "" || name == "." ==> Follow(dir, before + [name] + after) == Follow(dir, before + after)
    ensures name == ".." && Follow(dir, before) != [] ==>
      var here := Follow(dir, before); Follow(dir, before + [name] + after) == Follow(here[..|here| - 1], after)
    ensures name == ".." && Follow(dir, before) == [] ==> Follow(dir, before + [name] + after) == Follow([], after)
    ensures IsName(name) ==> Follow(dir, before + [name] + after) == Follow(Follow(dir, before) + [name], after)
  {
    var here := Follow(dir, before);
    FollowAppend(dir, before + [name], after);
    FollowAppend(dir, before, [name]);
    FollowAppend(dir, before, after);
    assert [name][1..] == [];
    assert Follow(here, [name]) == Enter(here, name);
  }

  lemma {:induction false} FollowUps(dir: Path, n: nat, names: seq<string>)
    ensures Follow(dir, Ups(n) + names) == Follow(Above(dir, n), names)
  {
    if n == 0 {
      assert Ups(0) + names == names && Above(dir, 0) == dir;
    } else {
      assert (Ups(n) + names)[1..] == Ups(n - 1) + names && (Ups(n) + names)[0] == "..";
      assert Enter(dir, "..") == DirOf(dir);
      FollowUps(DirOf(dir), n - 1, names);
      assert Above(DirOf(dir), n - 1) == Above(dir, n);
    }
  }

  lemma {:induction false} FollowDown(dir: Path, names: Path)
    requires Normal(names)
    ensures Follow(dir, names) == dir + names
    decreases |names|
  {
    if names == [] {
      assert dir + names == dir;
    } else {
      assert IsName(names[0]);
      assert Normal(names[1..]) by {
        assert forall i :: 0 <= i < |names| - 1 ==> names[1..][i] == names[i + 1];
      }
      FollowDown(dir + [names[0]], names[1..]);
      assert dir + [names[0]] + names[1..] == dir + names;
    }
  }

  /**
   A text written for the directory `dir` leads from another directory to the same place
   exactly if going up as far gives the same directory.
   */
  lemma RelativeLeadsIff(dir: Path, other: Path, target: Path)
    requires Normal(target)
    ensures var n := Common(dir, target);
      Follow(other, Relative(dir, target).names) == target <==> Above(other, |dir| - n) == target[..n]
  {
    hide Follow, Common, Above;
    var n := Common(dir, target);
    var top, rest := Above(other, |dir| - n), target[n..];
    FollowUps(other, |dir| - n, rest);
    assert Normal(rest) by {
      assert forall i :: 0 <= i < |rest| ==> rest[i] == target[n + i];
    }
    FollowDown(top, rest);
    assert target == target[..n] + rest;
    SameTop(top, target[..n], rest);
  }

  lemma SameTop(a: Path, b: Path, rest: Path)
    ensures a + rest == b + rest <==> a == b
  {
    if a + rest == b + rest {
      assert |a| == |b|;
      assert a == (a + rest)[..|a|] == (b + rest)[..|b|] == b;
    }
  }

  /**
   An alias is created exactly if its name is one and its target is none; then it resolves to its
   target, and every other file is what it was.
   */
  lemma CreatedAliasResolves(files: Files, alias: Path, target: Path)
    requires Normal(target)
    ensures CreateAlias(files, alias, target).Some? <==> IsAlias(alias) && !IsAlias(target)
    ensures CreateAlias(files, alias, target).Some? ==>
      var after := CreateAlias(files, alias, target).value;
      && Resolve(after, alias) == Some(target)
      && after - {alias} == files - {alias}
  {
    hide HasSuffix, Follow, Common, IsName, NamesAlias, Relative;
    if !IsAlias(alias) || IsAlias(target) {
      return;
    }
    var dir := DirOf(alias);
    RelativeLeadsIff(dir, dir, target);
    RelativeIsNoAlias(dir, target);
    assert !Relative(dir, target).absolute by {
      RelativeIsRelative(dir, target);
    }
    var n := Common(dir, target);
    assert Above(dir, |dir| - n) == dir[..n];
  }

  /** An alias whose text names another alias is refused, wherever that one leads. */
  lemma ChainedAliasIsRefused(files: Files, p: Path, q: Path, dir: Path)
    requires IsAlias(p) && IsAlias(q) && p in files && files[p] == Link(Relative(dir, q))
    requires Common(dir, q) < |q|
    ensures Resolve(files, p).None?
  {
    hide HasSuffix, Common;
  }

  lemma RelativeIsRelative(dir: Path, target: Path)
    ensures !Relative(dir, target).absolute
  {
  }

  lemma RelativeIsNoAlias(dir: Path, target: Path)
    requires !IsAlias(target)
    ensures !NamesAlias(Relative(dir, target))
  {
    hide Common;
    var names, n := Relative(dir, target).names, Common(dir, target);
    if names != [] {
      var last := names[|names| - 1];
      assert n < |target| ==> last == target[|target| - 1];
      assert n == |target| ==> last == Ups(|dir| - n)[|names| - 1] == "..";
    }
  }

  /** Moved together with the directory they are in, an alias and its target still belong to each other. */
  lemma AliasMovesWithDirectory(dir: Path, other: Path, alias: string, moved: string, names: Path)
    requires Normal(names)
    ensures ResolveFrom(other + [moved], Relative(DirOf(dir + [alias]), dir + names)) == other + names
  {
    assert DirOf(dir + [alias]) == dir && DirOf(other + [moved]) == other;
    InsideNeedsNoUps(dir, names);
    FollowDown(other, names);
  }

  /**
   Moved elsewhere, it resolves to the same exactly if as many levels above its new place is the
   directory it shared with its target.
   */
  lemma MovedAliasResolvesIff(alias: Path, moved: Path, target: Path)
    requires Normal(target)
    ensures var n := Common(DirOf(alias), target);
      ResolveFrom(moved, Relative(DirOf(alias), target)) == target
      <==> Above(DirOf(moved), |DirOf(alias)| - n) == target[..n]
  {
    RelativeLeadsIff(DirOf(alias), DirOf(moved), target);
  }
}
