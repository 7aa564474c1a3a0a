/**
 A map whose keys are sequences, kept as a trie that is updated in place.

 `Trie` is the value a tree of nodes stands for; its operations are proved against finite
 maps, and the methods on nodes against the operations.
 */
module MultiKeyMap {
  import opened Basics

  /** An element of a key: an array, which is equal to itself only, or anything else. */
  datatype Key = Atom(name: string) | Array(reference: nat, items: seq<Key>)

  type Path = seq<Key>

  /** `Nothing` is undefined; a subtree is a bare value until it has children. */
  datatype Trie<V> = Nothing | Leaf(value: V) | Branch(own: Option<V>, children: map<Key, Trie<V>>)

  function Child<V>(t: Trie<V>, key: Key): Trie<V> {
    if t.Branch? && key in t.children then t.children[key] else Nothing
  }

  function OwnValue<V>(t: Trie<V>): Option<V> {
    match t
    case Nothing => None
    case Leaf(v) => Some(v)
    case Branch(own, _) => own
  }

  function Bare<V>(value: Option<V>): Trie<V> {
    if value.Some? then Trie.Leaf(value.value) else Nothing
  }

  function Find<V>(t: Trie<V>, p: Path): Option<V>
    decreases |p|
  {
    if p == [] then OwnValue(t) else Find(Child(t, p[0]), p[1..])
  }

  function Put<V>(t: Trie<V>, p: Path, value: Option<V>): Trie<V>
    decreases |p|
  {
    if p == [] then
      if t.Branch? then t.(own := value) else Bare(value)
    else
      var child := Put(Child(t, p[0]), p[1..], value);
      if !t.Branch? then Branch(OwnValue(t), map[p[0] := child])
      else if child.Nothing? && p[0] !in t.children then t
      else t.(children := t.children[p[0] := child])
  }

  function Delete<V>(t: Trie<V>, p: Path): Trie<V>
    decreases |p|
  {
    if p == [] then
      if t.Branch? then t.(own := None) else Nothing
    else if !t.Branch? || Child(t, p[0]).Nothing? then t
    else
      var child := Delete(Child(t, p[0]), p[1..]);
      if !child.Nothing? then t.(children := t.children[p[0] := child])
      else if |t.children| == 1 then Bare(t.own)
      else t.(children := t.children - {p[0]})
  }

  // ----- the finite map

  /** `t` stands for `m`. */
  ghost predicate StandsFor<V(!new)>(t: Trie<V>, m: map<Path, V>) {
    forall p: Path :: Find(t, p) == if p in m then Some(m[p]) else None
  }

  /** Binding a key to undefined is removing it. */
  function Bound<V>(m: map<Path, V>, p: Path, value: Option<V>): map<Path, V> {
    if value.Some? then m[p := value.value] else m - {p}
  }

  lemma {:induction false} FindPut<V>(t: Trie<V>, p: Path, value: Option<V>, q: Path)
    ensures Find(Put(t, p, value), q) == if q == p then value else Find(t, q)
    decreases |p|
  {
    if p != [] && q != [] {
      if p[0] == q[0] {
        assert q == p <==> q[1..] == p[1..] by {
          assert p == [p[0]] + p[1..] && q == [q[0]] + q[1..];
        }
        FindPut(Child(t, p[0]), p[1..], value, q[1..]);
        assert Child(Put(t, p, value), p[0]) == Put(Child(t, p[0]), p[1..], value);
      } else {
        assert Child(Put(t, p, value), q[0]) == Child(t, q[0]);
      }
    } else if p == [] && q != [] {
      assert Child(Put(t, p, value), q[0]) == Child(t, q[0]);
    }
  }

  lemma NothingFound<V>(q: Path)
    ensures Find<V>(Nothing, q) == None
    decreases |q|
  {
    if q != [] {
      NothingFound<V>(q[1..]);
    }
  }

  lemma OnlyChild<V>(t: Trie<V>, key: Key)
    requires t.Branch? && key in t.children && |t.children| == 1
    ensures t.children.Keys == {key}
  {
    var others := t.children.Keys - {key};
    assert |others| == 0;
  }

  lemma {:induction false} FindDelete<V>(t: Trie<V>, p: Path, q: Path)
    ensures Find(Delete(t, p), q) == if q == p then None else Find(t, q)
    decreases |p|
  {
    var r := Delete(t, p);
    if p == [] {
      if q != [] {
        assert Child(r, q[0]) == Child(t, q[0]);
      }
      return;
    }
    var child := Child(t, p[0]);
    if child.Nothing? {
      NothingFound<V>(p[1..]);
      return;
    }
    if q == [] {
      return;
    }
    assert q == p <==> q[0] == p[0] && q[1..] == p[1..] by {
      assert p == [p[0]] + p[1..] && q == [q[0]] + q[1..];
    }
    FindDelete(child, p[1..], q[1..]);
    if Delete(child, p[1..]).Nothing? && |t.children| == 1 {
      OnlyChild(t, p[0]);
    }
    if q[0] == p[0] {
      assert Child(r, p[0]) == Delete(child, p[1..]);
    } else {
      assert Child(r, q[0]) == Child(t, q[0]);
    }
  }

  lemma PutStandsFor<V(!new)>(t: Trie<V>, m: map<Path, V>, p: Path, value: Option<V>)
    requires StandsFor(t, m)
    ensures StandsFor(Put(t, p, value), Bound(m, p, value))
  {
    forall q: Path {
      FindPut(t, p, value, q);
    }
  }

  lemma DeleteStandsFor<V(!new)>(t: Trie<V>, m: map<Path, V>, p: Path)
    requires StandsFor(t, m)
    ensures StandsFor(Delete(t, p), m - {p})
  {
    forall q: Path {
      FindDelete(t, p, q);
    }
  }

  // ----- the shape of the tree

  /** No branch is without children. */
  ghost predicate Pruned<V>(t: Trie<V>) {
    t.Branch? ==> t.children != map[] && forall k :: k in t.children ==> Pruned(t.children[k])
  }

  /** No child is undefined. */
  ghost predicate Tidy<V>(t: Trie<V>) {
    t.Branch? ==> forall k :: k in t.children ==> !t.children[k].Nothing? && Tidy(t.children[k])
  }

  /** Setting a key to undefined can leave an undefined child behind; nothing else can. */
  lemma {:induction false} PutKeepsShape<V>(t: Trie<V>, p: Path, value: Option<V>)
    requires Pruned(t)
    ensures Pruned(Put(t, p, value))
    ensures Tidy(t) && value.Some? ==> Tidy(Put(t, p, value)) && !Put(t, p, value).Nothing?
    decreases |p|
  {
    if p != [] {
      PutKeepsShape(Child(t, p[0]), p[1..], value);
      var r := Put(t, p, value);
      if r != t {
        assert p[0] in r.children;
      }
    }
  }

  lemma {:induction false} DeleteKeepsShape<V>(t: Trie<V>, p: Path)
    requires Pruned(t)
    ensures Pruned(Delete(t, p)) && (Tidy(t) ==> Tidy(Delete(t, p)))
    decreases |p|
  {
    if p != [] && t.Branch? && !Child(t, p[0]).Nothing? {
      DeleteKeepsShape(Child(t, p[0]), p[1..]);
      if t.children - {p[0]} == map[] {
        forall k | k in t.children ensures k == p[0] {
          assert k in t.children - {p[0]} || k == p[0];
        }
        assert t.children.Keys == {p[0]};
      }
      if Delete(Child(t, p[0]), p[1..]) != Nothing {
        assert p[0] in Delete(t, p).children;
      }
    }
  }

  /** A tidy tree holds a binding under every node: once the last key is deleted nothing is left. */
  lemma {:induction false} TidyHasBinding<V>(t: Trie<V>) returns (p: Path)
    requires Pruned(t) && Tidy(t) && !t.Nothing?
    ensures Find(t, p).Some?
    decreases t
  {
    if t.Leaf? {
      p := [];
    } else {
      var k :| k in t.children;
      var q := TidyHasBinding(t.children[k]);
      p := [k] + q;
      assert p[1..] == q;
    }
  }

  lemma EmptyIffNothing<V(!new)>(t: Trie<V>, m: map<Path, V>)
    requires Pruned(t) && Tidy(t) && StandsFor(t, m)
    ensures m == map[] <==> t.Nothing?
  {
    if t.Nothing? {
      forall p | p in m ensures false {
        NothingFound<V>(p);
      }
    } else {
      var p := TidyHasBinding(t);
    }
  }

  // ----- the nodes

  /** `Nothing` is undefined. */
  datatype Tree<V> = Undefined | Plain(value: V) | Inner(node: MapNode<V>)

  ghost function View<V>(t: Tree<V>): Trie<V>
    reads if t.Inner? then {t.node} else {}
  {
    match t
    case Undefined => Nothing
    case Plain(v) => Trie.Leaf(v)
    case Inner(n) => n.view
  }

  ghost function Footprint<V>(t: Tree<V>): set<MapNode<V>>
    reads if t.Inner? then {t.node} else {}
  {
    if t.Inner? then t.node.repr else {}
  }

  ghost predicate IsValid<V>(t: Tree<V>)
    reads if t.Inner? then {t.node} + t.node.repr else {}
  {
    t.Inner? ==> t.node.Valid()
  }

  class MapNode<V> {
    var children: map<Key, Tree<V>>
    var value: Option<V>

    ghost var repr: set<MapNode<V>>
    ghost var view: Trie<V>

    /** Children share nothing. */
    ghost predicate Valid()
      reads this, repr
      decreases repr
    {
      && this in repr
      && view.Branch? && view.own == value && view.children.Keys == children.Keys
      && (forall k :: k in children && children[k].Inner? ==>
            && children[k].node in repr && children[k].node.repr < repr && this !in children[k].node.repr
            && children[k].node.Valid())
      && (forall k :: k in children ==> view.children[k] == View(children[k]))
      && (forall j, k :: j in children && k in children && j != k && children[j].Inner? && children[k].Inner? ==>
            children[j].node.repr !! children[k].node.repr)
    }

    constructor (value: Option<V>, key: Key, child: Tree<V>)
      requires IsValid(child)
      ensures Valid() && repr == {this} + Footprint(child)
      ensures view == Branch(value, map[key := View(child)])
    {
      this.value := value;
      children := map[key := child];
      repr := {this} + Footprint(child);
      view := Branch(value, map[key := View(child)]);
    }

    method SetValue(value: Option<V>)
      requires Valid()
      modifies this
      ensures Valid() && repr == old(repr) && view == old(view).(own := value)
    {
      this.value := value;
      view := view.(own := value);
    }

    ghost predicate ValidExcept(key: Key)
      reads this, repr
    {
      && this in repr
      && view.Branch? && view.own == value && view.children.Keys == children.Keys
      && (forall k :: k in children && k != key && children[k].Inner? ==>
            && children[k].node in repr && children[k].node.repr < repr && this !in children[k].node.repr
            && children[k].node.Valid())
      && (forall k :: k in children && k != key ==> view.children[k] == View(children[k]))
      && (forall j, k :: j in children && k in children && j != k && j != key && k != key
                         && children[j].Inner? && children[k].Inner? ==>
            children[j].node.repr !! children[k].node.repr)
    }

    twostate lemma OthersAreKept(key: Key)
      requires old(ValidExcept(key)) && unchanged(old(repr) - {this})
      requires forall k :: k != key ==> (k in children <==> k in old(children))
      requires old(repr) <= repr
      requires view.Branch? && view.own == value && view.children.Keys == children.Keys
      requires forall k :: k in children && k != key ==>
        children[k] == old(children)[k] && view.children[k] == old(view).children[k]
      ensures ValidExcept(key)
      ensures forall k :: k in children && k != key ==> Footprint(children[k]) == old(Footprint(children[k]))
    {
      forall k | k in children && k != key && children[k].Inner?
        ensures var n := old(children)[k].node; n.Valid() && n.repr == old(n.repr) && n.view == old(n.view)
      {
        assert k in old(children) && old(children)[k].node in old(repr);
      }
    }

    /** Whatever happens below the child under `key`, the rest of the node is as it was. */
    twostate lemma ChildChanged(key: Key)
      requires old(Valid()) && unchanged(this)
      requires unchanged(old(repr - {this} - Footprint(At(this, key))))
      ensures ValidExcept(key)
      ensures forall k :: k in children && k != key ==> Footprint(children[k]) == old(Footprint(children[k]))
    {
      forall k | k in children && k != key && children[k].Inner?
        ensures var n := children[k].node; n.Valid() && n.repr == old(n.repr) && n.view == old(n.view)
      {
        assert children[k].node in old(repr);
      }
    }

    lemma Completed(key: Key)
      requires ValidExcept(key) && key in children && (children[key].Inner? ==> children[key].node.Valid())
        && this !in Footprint(children[key])
      requires Footprint(children[key]) <= repr && view.children[key] == View(children[key])
      requires forall k :: k in children && k != key ==> Footprint(children[k]) !! Footprint(children[key])
      ensures Valid()
    {
    }

    /** The child under `key` has been updated in place. */
    ghost method Refresh(key: Key)
      requires ValidExcept(key) && key in children && (children[key].Inner? ==> children[key].node.Valid())
        && this !in Footprint(children[key])
      requires forall k :: k in children && k != key ==> Footprint(children[k]) !! Footprint(children[key])
      modifies this`repr, this`view
      ensures Valid() && repr == old(repr) + Footprint(children[key])
      ensures view == old(view).(children := old(view).children[key := View(children[key])])
    {
      repr := repr + Footprint(children[key]);
      view := view.(children := view.children[key := View(children[key])]);
      OthersAreKept(key);
      Completed(key);
    }

    method RemoveChild(key: Key)
      requires ValidExcept(key)
      modifies this
      ensures Valid() && repr == old(repr)
      ensures view == old(view).(children := old(view).children - {key})
    {
      children := children - {key};
      view := view.(children := view.children - {key});
      OthersAreKept(key);
    }

    /** Another child is stored under `key`. */
    method SetChild(key: Key, child: Tree<V>)
      requires key in children || child != Undefined
      requires ValidExcept(key) && IsValid(child) && this !in Footprint(child)
      requires forall k :: k in children && k != key ==> Footprint(children[k]) !! Footprint(child)
      modifies this
      ensures Valid() && repr == old(repr) + Footprint(child)
      ensures view == old(view).(children := old(view).children[key := View(child)])
    {
      Store(key, child);
      Completed(key);
    }

    twostate lemma ApartIsKept(child: Tree<V>)
      requires old(IsValid(child)) && this !in old(Footprint(child)) && unchanged(old(Footprint(child)))
      ensures IsValid(child) && Footprint(child) == old(Footprint(child)) && View(child) == old(View(child))
    {
    }

    method Store(key: Key, child: Tree<V>)
      requires key in children || child != Undefined
      requires ValidExcept(key) && IsValid(child) && this !in Footprint(child)
      requires forall k :: k in children && k != key ==> Footprint(children[k]) !! Footprint(child)
      modifies this
      ensures ValidExcept(key) && children == old(children)[key := child] && repr == old(repr) + Footprint(child)
      ensures view == old(view).(children := old(view).children[key := View(child)])
      ensures IsValid(child) && this !in Footprint(child)
      ensures Footprint(child) == old(Footprint(child)) && View(child) == old(View(child))
      ensures forall k :: k in children && k != key ==> Footprint(children[k]) !! Footprint(child)
    {
      children := children[key := child];
      repr := repr + Footprint(child);
      view := view.(children := view.children[key := View(child)]);
      ApartIsKept(child);
      OthersAreKept(key);
    }
  }

  // ----- the recursive operations

  function At<V>(node: MapNode<V>, key: Key): Tree<V>
    reads node
  {
    if key in node.children then node.children[key] else Undefined
  }

  method GetTree<V>(t: Tree<V>, i: nat, keys: Path) returns (r: Option<V>)
    requires i <= |keys| && IsValid(t)
    ensures r == Find(View(t), keys[i..])
    decreases |keys| - i
  {
    if i == |keys| {
      match t
      case Undefined => return None;
      case Plain(v) => return Some(v);
      case Inner(node) => return node.value;
    }
    if !t.Inner? {
      NothingFound<V>(keys[i..][1..]);
      return None;
    }
    r := GetTree(At(t.node, keys[i]), i + 1, keys);
    assert keys[i..][1..] == keys[i + 1..];
  }

  method SetTree<V(==)>(t: Tree<V>, i: nat, keys: Path, value: Option<V>) returns (r: Tree<V>)
    requires i <= |keys| && IsValid(t)
    modifies Footprint(t)
    ensures IsValid(r) && fresh(Footprint(r) - old(Footprint(t)))
    ensures View(r) == Put(old(View(t)), keys[i..], value)
    ensures t.Inner? ==> r == t
    decreases |keys| - i, 1
  {
    if i == |keys| {
      if t.Inner? {
        t.node.SetValue(value);
        return t;
      }
      return if value.Some? then Plain(value.value) else Undefined;
    }
    assert keys[i..][1..] == keys[i + 1..];
    if !t.Inner? {
      var child := SetTree(Undefined, i + 1, keys, value);
      var node := new MapNode(if t.Plain? then Some(t.value) else None, keys[i], child);
      return Inner(node);
    }
    SetBelow(t.node, i, keys, value);
    return t;
  }

  /** What a set below a branch does. */
  lemma PutBelow<V>(t: Trie<V>, p: Path, key: Key, value: Option<V>)
    requires p != [] && p[0] == key && t.Branch?
    ensures var child := Put(Child(t, key), p[1..], value);
      Put(t, p, value) == if child.Nothing? && key !in t.children then t else t.(children := t.children[key := child])
  {
  }

  method SetBelow<V(==)>(node: MapNode<V>, i: nat, keys: Path, value: Option<V>)
    requires i < |keys| && node.Valid()
    modifies node.repr
    ensures node.Valid() && fresh(node.repr - old(node.repr))
    ensures node.view == Put(old(node.view), keys[i..], value)
    decreases |keys| - i, 0
  {
    hide Put, Delete;
    var key := keys[i];
    var child := At(node, key);
    assert keys[i..][1..] == keys[i + 1..];
    assert View(child) == Child(node.view, key);
    PutBelow(node.view, keys[i..], key, value);
    var newChild := SetTree(child, i + 1, keys, value);
    node.ChildChanged(key);
    if newChild != child {
      node.SetChild(key, newChild);
    } else if key in node.children {
      node.Refresh(key);
    }
  }

  method DeleteTree<V(==)>(t: Tree<V>, i: nat, keys: Path) returns (r: Tree<V>)
    requires i <= |keys| && IsValid(t)
    modifies Footprint(t)
    ensures IsValid(r) && Footprint(r) <= old(Footprint(t))
    ensures View(r) == Delete(old(View(t)), keys[i..])
    decreases |keys| - i, 1
  {
    if i == |keys| {
      if t.Inner? {
        t.node.SetValue(None);
        return t;
      }
      return Undefined;
    }
    if !t.Inner? || At(t.node, keys[i]) == Undefined {
      return t;
    }
    r := DelBelow(t.node, i, keys);
  }

  /** What a deletion below a branch does. */
  lemma DeleteBelow<V>(t: Trie<V>, p: Path, key: Key)
    requires p != [] && p[0] == key && t.Branch? && !Child(t, key).Nothing?
    ensures var child := Delete(Child(t, key), p[1..]);
      Delete(t, p) == if !child.Nothing? then t.(children := t.children[key := child])
                      else if |t.children| == 1 then Bare(t.own)
                      else t.(children := t.children - {key})
  {
  }

  method DelBelow<V(==)>(node: MapNode<V>, i: nat, keys: Path) returns (r: Tree<V>)
    requires i < |keys| && node.Valid() && At(node, keys[i]) != Undefined
    modifies node.repr
    ensures IsValid(r) && Footprint(r) <= old(node.repr)
    ensures View(r) == Delete(old(node.view), keys[i..])
    decreases |keys| - i, 0
  {
    hide Delete, Put;
    var key := keys[i];
    var child := At(node, key);
    assert keys[i..][1..] == keys[i + 1..];
    assert View(child) == Child(node.view, key);
    ghost var before := node.view;
    DeleteBelow(before, keys[i..], key);
    var newChild := DeleteTree(child, i + 1, keys);
    node.ChildChanged(key);
    r := WithChild(node, key, newChild);
  }

  /** What is left of a node after a deletion below it: without children it is its value, or nothing. */
  method WithChild<V(==)>(node: MapNode<V>, key: Key, newChild: Tree<V>) returns (r: Tree<V>)
    requires node.ValidExcept(key) && key in node.children
    requires IsValid(newChild) && node !in Footprint(newChild) && Footprint(newChild) <= node.repr
    requires forall k :: k in node.children && k != key ==> Footprint(node.children[k]) !! Footprint(newChild)
    modifies node
    ensures IsValid(r) && Footprint(r) <= old(node.repr)
    ensures View(r) ==
      if View(newChild).Nothing? then
        if |old(node.view.children)| == 1 then Bare(old(node.view.own))
        else old(node.view).(children := old(node.view).children - {key})
      else old(node.view).(children := old(node.view).children[key := View(newChild)])
  {
    assert |node.children| == |node.view.children| by {
      assert |node.children| == |node.children.Keys| && |node.view.children| == |node.view.children.Keys|;
    }
    if newChild == Undefined {
      if |node.children| == 1 {
        return if node.value.Some? then Plain(node.value.value) else Undefined;
      }
      node.RemoveChild(key);
    } else if newChild != node.children[key] {
      node.SetChild(key, newChild);
    } else {
      node.Refresh(key);
    }
    return Inner(node);
  }

  // ----- enumeration

  /** `concat` onto a key: an array is spread. */
  function Spread(k: Key): Path {
    if k.Array? then k.items else [k]
  }

  function Flat(p: Path): Path {
    if p == [] then [] else Spread(p[0]) + Flat(p[1..])
  }

  ghost predicate Distinct(paths: seq<Path>) {
    forall i, j :: 0 <= i < j < |paths| ==> paths[i] != paths[j]
  }

  /** `out` lists the bindings of `t` under `paths`, each after `prefix`. */
  ghost predicate Lists<V>(out: seq<(Path, V)>, t: Trie<V>, prefix: Path, paths: seq<Path>) {
    && |out| == |paths|
    && forall i :: 0 <= i < |out| ==>
         Find(t, paths[i]) == Some(out[i].1) && out[i].0 == prefix + Flat(paths[i])
  }

  function Under(k: Key, paths: seq<Path>): (r: seq<Path>)
    ensures |r| == |paths| && forall i :: 0 <= i < |r| ==> r[i] == [k] + paths[i]
  {
    seq(|paths|, i requires 0 <= i < |paths| => [k] + paths[i])
  }

  /** The bindings under one child, seen from its parent. */
  lemma ChildLists<V>(out: seq<(Path, V)>, t: Trie<V>, k: Key, prefix: Path, paths: seq<Path>)
    requires t.Branch? && k in t.children && Distinct(paths) && Lists(out, t.children[k], prefix + Spread(k), paths)
    requires forall p :: p in paths <==> Find(t.children[k], p).Some?
    ensures Lists(out, t, prefix, Under(k, paths)) && Distinct(Under(k, paths))
    ensures forall p: Path :: p in Under(k, paths) <==> p != [] && p[0] == k && Find(t, p).Some?
  {
    hide Find, Flat, Spread;
    var under := Under(k, paths);
    forall i | 0 <= i < |out|
      ensures Find(t, under[i]) == Some(out[i].1) && out[i].0 == prefix + Flat(under[i])
    {
      FindUnder(t, k, paths[i]);
      FlatUnder(prefix, k, paths[i]);
    }
    UnderAreDistinct(k, paths);
    forall p: Path ensures p in under <==> p != [] && p[0] == k && Find(t, p).Some? {
      UnderHas(k, paths, p);
      if p != [] && p[0] == k {
        FindUnder(t, k, p[1..]);
        assert p == [k] + p[1..];
      }
    }
  }

  lemma FindUnder<V>(t: Trie<V>, k: Key, p: Path)
    requires t.Branch? && k in t.children
    ensures Find(t, [k] + p) == Find(t.children[k], p)
  {
    assert ([k] + p)[1..] == p;
  }

  lemma FlatUnder(prefix: Path, k: Key, p: Path)
    ensures prefix + Spread(k) + Flat(p) == prefix + Flat([k] + p)
  {
    assert ([k] + p)[1..] == p;
    assert Flat([k] + p) == Spread(k) + Flat(p);
    assert prefix + Spread(k) + Flat(p) == prefix + (Spread(k) + Flat(p));
  }

  lemma UnderAreDistinct(k: Key, paths: seq<Path>)
    requires Distinct(paths)
    ensures Distinct(Under(k, paths))
  {
    var under := Under(k, paths);
    forall i, j | 0 <= i < j < |under| ensures under[i] != under[j] {
      assert under[i][1..] == paths[i] && under[j][1..] == paths[j];
    }
  }

  lemma UnderHas(k: Key, paths: seq<Path>, p: Path)
    ensures p in Under(k, paths) <==> p != [] && p[0] == k && p[1..] in paths
  {
    var under := Under(k, paths);
    if i :| 0 <= i < |under| && under[i] == p {
      assert p[1..] == paths[i];
    }
    if p != [] && p[0] == k && p[1..] in paths {
      var i :| 0 <= i < |paths| && paths[i] == p[1..];
      assert under[i] == [k] + p[1..] == p;
    }
  }

  lemma ListsBoth<V>(a: seq<(Path, V)>, p: seq<Path>, b: seq<(Path, V)>, q: seq<Path>, t: Trie<V>, prefix: Path)
    requires Lists(a, t, prefix, p) && Lists(b, t, prefix, q) && Distinct(p) && Distinct(q)
    requires forall x :: x in p ==> x !in q
    ensures Lists(a + b, t, prefix, p + q) && Distinct(p + q)
  {
    forall i, j | 0 <= i < |p| <= j < |p + q| ensures (p + q)[i] != (p + q)[j] {
      assert (p + q)[i] in p && (p + q)[j] == q[j - |p|];
    }
  }

  /** Each binding once; the children are visited in any order. */
  method EntriesTree<V>(t: Tree<V>, key: Path) returns (out: seq<(Path, V)>, ghost paths: seq<Path>)
    requires IsValid(t)
    ensures Lists(out, View(t), key, paths) && Distinct(paths)
    ensures forall p :: p in paths <==> Find(View(t), p).Some?
    decreases View(t)
  {
    out, paths := [], [];
    match t
    case Undefined =>
      forall p ensures Find(View(t), p).None? {
        NothingFound<V>(p);
      }
    case Plain(v) =>
      out, paths := [(key, v)], [[]];
      assert key + Flat([]) == key;
      forall p: Path | p != [] ensures Find(View(t), p).None? {
        NothingFound<V>(p[1..]);
      }
    case Inner(node) =>
      if node.value.Some? {
        out, paths := [(key, node.value.value)], [[]];
        assert key + Flat([]) == key;
      }
      forall p: Path | p != [] && Find(node.view, p).Some? ensures p[0] in node.children {
        NothingFound<V>(p[1..]);
      }
      var left := node.children.Keys;
      while left != {}
        invariant left <= node.children.Keys
        invariant Lists(out, node.view, key, paths) && Distinct(paths)
        invariant forall p: Path :: p in paths <==> Find(node.view, p).Some? && (p == [] || p[0] !in left)
        decreases left
      {
        var k :| k in left;
        var sub, below := EntriesTree(node.children[k], key + Spread(k));
        ChildLists(sub, node.view, k, key, below);
        ListsBoth(out, paths, sub, Under(k, below), node.view, key);
        out, paths, left := out + sub, paths + Under(k, below), left - {k};
      }
  }

  // ----- keys that are arrays

  function Size(k: Key): nat {
    match k
    case Atom(_) => 1
    case Array(_, items) => 1 + Sizes(items)
  }

  function Sizes(p: Path): nat {
    if p == [] then 0 else Size(p[0]) + Sizes(p[1..])
  }

  function Arrays(p: Path): nat {
    if p == [] then 0 else (if p[0].Array? then 1 else 0) + Arrays(p[1..])
  }

  lemma {:induction false} SizesOfBoth(p: Path, q: Path)
    ensures Sizes(p + q) == Sizes(p) + Sizes(q)
  {
    if p == [] {
      assert p + q == q;
    } else {
      assert (p + q)[1..] == p[1..] + q;
      SizesOfBoth(p[1..], q);
    }
  }

  /** Spreading an array loses the array. */
  lemma {:induction false} FlatLosesArrays(p: Path)
    ensures Sizes(Flat(p)) + Arrays(p) == Sizes(p)
  {
    if p != [] {
      FlatLosesArrays(p[1..]);
      SizesOfBoth(Spread(p[0]), Flat(p[1..]));
    }
  }

  lemma {:induction false} FlatOfAtoms(p: Path)
    requires forall k :: k in p ==> k.Atom?
    ensures Flat(p) == p
  {
    if p != [] {
      assert p[0] in p;
      FlatOfAtoms(p[1..]);
      assert p == [p[0]] + p[1..];
    }
  }

  lemma {:induction false} ArrayIsCounted(p: Path, k: Key)
    requires k in p && k.Array?
    ensures Arrays(p) > 0
  {
    if p[0] != k {
      ArrayIsCounted(p[1..], k);
    }
  }

  /** An entry comes out under the key it was set with exactly when no element of that key is an array. */
  lemma EntryKeyIsRightIff(p: Path)
    ensures Flat(p) == p <==> forall k :: k in p ==> k.Atom?
  {
    FlatLosesArrays(p);
    if k :| k in p && k.Array? {
      ArrayIsCounted(p, k);
    } else {
      FlatOfAtoms(p);
    }
  }

  /** Set under `[['a']]`, listed under `['a']`. */
  lemma ArrayKeyIsSpread(reference: nat)
    ensures Flat([Array(reference, [Atom("a")])]) == [Atom("a")] != [Array(reference, [Atom("a")])]
  {
    assert Flat([Array(reference, [Atom("a")])]) == [Atom("a")] + Flat([]);
  }

  class MultiKeyMap<V(==,!new)> {
    var root: Tree<V>
    ghost var contents: map<Path, V>

    ghost predicate Valid()
      reads this, if root.Inner? then {root.node} + root.node.repr else {}
    {
      IsValid(root) && Pruned(View(root)) && StandsFor(View(root), contents)
    }

    constructor ()
      ensures Valid() && contents == map[] && root == Undefined
    {
      root := Undefined;
      contents := map[];
      new;
      forall p: Path {
        NothingFound<V>(p);
      }
    }

    method Get(keys: Path) returns (r: Option<V>)
      requires Valid()
      ensures r == if keys in contents then Some(contents[keys]) else None
    {
      assert keys[0..] == keys;
      r := GetTree(root, 0, keys);
    }

    /** No value at all is undefined: setting it unbinds the key. */
    method Set(keys: Path, value: Option<V>)
      requires Valid()
      modifies this, Footprint(root)
      ensures Valid() && fresh(Footprint(root) - old(Footprint(root)))
      ensures contents == Bound(old(contents), keys, value)
      ensures old(Tidy(View(root))) && value.Some? ==> Tidy(View(root))
    {
      assert keys[0..] == keys;
      PutStandsFor(View(root), contents, keys, value);
      PutKeepsShape(View(root), keys, value);
      root := SetTree(root, 0, keys, value);
      contents := Bound(contents, keys, value);
    }

    method Delete(keys: Path)
      requires Valid()
      modifies this, Footprint(root)
      ensures Valid() && Footprint(root) <= old(Footprint(root))
      ensures contents == old(contents) - {keys}
      ensures old(Tidy(View(root))) ==> Tidy(View(root)) && (root == Undefined <==> contents == map[])
    {
      assert keys[0..] == keys;
      DeleteStandsFor(View(root), contents, keys);
      DeleteKeepsShape(View(root), keys);
      root := DeleteTree(root, 0, keys);
      contents := contents - {keys};
      if Tidy(View(root)) {
        EmptyIffNothing(View(root), contents);
      }
    }

    method Entries() returns (out: seq<(Path, V)>, ghost paths: seq<Path>)
      requires Valid()
      ensures |out| == |paths| && Distinct(paths) && (forall p :: p in paths <==> p in contents)
      ensures forall i :: 0 <= i < |out| ==> paths[i] in contents && out[i] == (Flat(paths[i]), contents[paths[i]])
    {
      out, paths := EntriesTree(root, []);
      forall i | 0 <= i < |out| ensures paths[i] in contents && out[i] == (Flat(paths[i]), contents[paths[i]]) {
        assert Find(View(root), paths[i]) == Some(out[i].1);
        assert [] + Flat(paths[i]) == Flat(paths[i]);
      }
    }
  }
}
