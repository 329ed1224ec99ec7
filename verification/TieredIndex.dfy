/**
 The tiered index at any depth: a tree of fixed-size cell arrays reached by
 div/mod, with entry lists at the leaves. Lists are held by reference, as callers
 keep the pointer that get returns and push onto it later.
 */
module TieredIndex {
  import opened Packets

  /** A reference to an entry list. */
  type Ref = nat

  datatype Tier = Leaf(lists: seq<Option<Ref>>) | Node(tiers: seq<Option<Tier>>)

  /** Level sizes from the root down. */
  ghost predicate Sizes(sizes: seq<nat>) {
    |sizes| >= 1 && forall i :: 0 <= i < |sizes| ==> sizes[i] > 0
  }

  /** Number of keys below a level. */
  function Product(sizes: seq<nat>): nat {
    if sizes == [] then 1 else sizes[0] * Product(sizes[1..])
  }

  lemma {:induction false} ProductPositive(sizes: seq<nat>)
    requires forall i :: 0 <= i < |sizes| ==> sizes[i] > 0
    ensures Product(sizes) > 0
  {
    if sizes != [] {
      ProductPositive(sizes[1..]);
      assert sizes[0] * Product(sizes[1..]) >= 1 * 1;
    }
  }

  lemma Ordered(a: nat, b: nat, p: nat)
    ensures a <= b ==> a * p <= b * p
  {
    if a <= b { assert b * p == a * p + (b - a) * p; }
  }

  /** One div/mod step stays in bounds and loses nothing. */
  lemma SplitKey(key: nat, s: nat, p: nat)
    requires p > 0 && key < s * p
    ensures key / p < s && key % p < p && key == (key / p) * p + key % p
  {
    assert key == (key / p) * p + key % p;
    Ordered(s, key / p, p);
  }

  lemma JoinKey(q: nat, r: nat, s: nat, p: nat)
    requires q < s && r < p
    ensures q * p + r < s * p && (q * p + r) / p == q && (q * p + r) % p == r
  {
    var key := q * p + r;
    Ordered(q + 1, s, p);
    assert key == (key / p) * p + key % p;
    QuotientUnique(q, r, key / p, key % p, p);
  }

  lemma QuotientUnique(q: nat, r: nat, q': nat, r': nat, p: nat)
    requires r < p && r' < p && q * p + r == q' * p + r'
    ensures q == q' && r == r'
  {
    Ordered(q + 1, q', p);
    Ordered(q' + 1, q, p);
  }

  // ----- key paths -----

  function Path(sizes: seq<nat>, key: nat): seq<nat>
    requires Sizes(sizes)
    decreases |sizes|
  {
    if |sizes| == 1 then [key]
    else
      ProductPositive(sizes[1..]);
      var p := Product(sizes[1..]);
      [key / p] + Path(sizes[1..], key % p)
  }

  function KeyOf(path: seq<nat>, sizes: seq<nat>): nat
    requires |path| == |sizes|
  {
    if path == [] then 0 else path[0] * Product(sizes[1..]) + KeyOf(path[1..], sizes[1..])
  }

  ghost predicate PathIn(path: seq<nat>, sizes: seq<nat>) {
    |path| == |sizes| && forall i :: 0 <= i < |path| ==> path[i] < sizes[i]
  }

  /** Every step of a key's path is in bounds, and the path determines the key. */
  lemma {:induction false} KeyOfPath(sizes: seq<nat>, key: nat)
    requires Sizes(sizes) && key < Product(sizes)
    ensures PathIn(Path(sizes, key), sizes) && KeyOf(Path(sizes, key), sizes) == key
    decreases |sizes|
  {
    if |sizes| == 1 {
      assert Product(sizes[1..]) == 1;
      assert KeyOf([key][1..], sizes[1..]) == 0;
    } else {
      var p := Product(sizes[1..]);
      ProductPositive(sizes[1..]);
      SplitKey(key, sizes[0], p);
      KeyOfPath(sizes[1..], key % p);
      assert Path(sizes, key)[1..] == Path(sizes[1..], key % p);
    }
  }

  /** And every in-bounds path is the path of one key. */
  lemma {:induction false} PathOfKey(path: seq<nat>, sizes: seq<nat>)
    requires Sizes(sizes) && PathIn(path, sizes)
    ensures KeyOf(path, sizes) < Product(sizes) && Path(sizes, KeyOf(path, sizes)) == path
    decreases |sizes|
  {
    if |sizes| == 1 {
      assert Product(sizes[1..]) == 1;
      assert KeyOf(path[1..], sizes[1..]) == 0;
      assert path == [path[0]];
    } else {
      var p := Product(sizes[1..]);
      ProductPositive(sizes[1..]);
      PathOfKey(path[1..], sizes[1..]);
      JoinKey(path[0], KeyOf(path[1..], sizes[1..]), sizes[0], p);
      assert path == [path[0]] + path[1..];
    }
  }

  // ----- lookup and creation -----

  ghost predicate Shape(t: Tier, sizes: seq<nat>)
    requires Sizes(sizes)
    decreases |sizes|
  {
    if |sizes| == 1 then t.Leaf? && |t.lists| == sizes[0]
    else
      && t.Node? && |t.tiers| == sizes[0]
      && forall i :: 0 <= i < |t.tiers| && t.tiers[i].Some? ==> Shape(t.tiers[i].value, sizes[1..])
  }

  function EmptyTier(sizes: seq<nat>): (t: Tier)
    requires Sizes(sizes)
    ensures Shape(t, sizes)
  {
    if |sizes| == 1 then Leaf(seq(sizes[0], _ => None)) else Node(seq(sizes[0], _ => None))
  }

  function At(t: Tier, sizes: seq<nat>, key: nat): Option<Ref>
    requires Sizes(sizes) && Shape(t, sizes) && key < Product(sizes)
    decreases |sizes|
  {
    if |sizes| == 1 then
      assert Product(sizes[1..]) == 1;
      t.lists[key]
    else
      ProductPositive(sizes[1..]);
      SplitKey(key, sizes[0], Product(sizes[1..]));
      var p := Product(sizes[1..]);
      match t.tiers[key / p]
      case None => None
      case Some(child) => At(child, sizes[1..], key % p)
  }

  /** The cell at the end of a path. */
  function Descend(t: Tier, path: seq<nat>): Option<Ref> {
    if path == [] then None
    else if t.Leaf? then if path[0] < |t.lists| then t.lists[path[0]] else None
    else if path[0] < |t.tiers| && t.tiers[path[0]].Some? then Descend(t.tiers[path[0]].value, path[1..])
    else None
  }

  /** Lookup ends in the cell that the key's path names, cell by cell. */
  lemma {:induction false} AtFollowsPath(t: Tier, sizes: seq<nat>, key: nat)
    requires Sizes(sizes) && Shape(t, sizes) && key < Product(sizes)
    ensures At(t, sizes, key) == Descend(t, Path(sizes, key))
    decreases |sizes|
  {
    if |sizes| == 1 {
      assert Product(sizes[1..]) == 1;
    } else {
      ProductPositive(sizes[1..]);
      var p := Product(sizes[1..]);
      SplitKey(key, sizes[0], p);
      if t.tiers[key / p].Some? {
        AtFollowsPath(t.tiers[key / p].value, sizes[1..], key % p);
      }
      assert Path(sizes, key)[1..] == Path(sizes[1..], key % p);
    }
  }

  /** get: the tree with every cell on the key's path installed, a new list being ref. */
  function Install(t: Tier, sizes: seq<nat>, key: nat, ref: Ref): (t': Tier)
    requires Sizes(sizes) && Shape(t, sizes) && key < Product(sizes)
    ensures Shape(t', sizes)
    decreases |sizes|
  {
    if |sizes| == 1 then
      assert Product(sizes[1..]) == 1;
      if t.lists[key].Some? then t else Leaf(t.lists[key := Some(ref)])
    else
      ProductPositive(sizes[1..]);
      SplitKey(key, sizes[0], Product(sizes[1..]));
      var p := Product(sizes[1..]);
      var child := if t.tiers[key / p].Some? then t.tiers[key / p].value else EmptyTier(sizes[1..]);
      Node(t.tiers[key / p := Some(Install(child, sizes[1..], key % p, ref))])
  }

  lemma {:induction false} EmptyHasNothing(sizes: seq<nat>, key: nat)
    requires Sizes(sizes) && key < Product(sizes)
    ensures At(EmptyTier(sizes), sizes, key) == None
  {
    if |sizes| > 1 {
      ProductPositive(sizes[1..]);
      SplitKey(key, sizes[0], Product(sizes[1..]));
    } else {
      assert Product(sizes[1..]) == 1;
    }
  }

  /** Installing a key fills that key's cell if it was empty and no other cell. */
  lemma {:induction false} AtInstalled(t: Tier, sizes: seq<nat>, key: nat, ref: Ref, k: nat)
    requires Sizes(sizes) && Shape(t, sizes) && key < Product(sizes) && k < Product(sizes)
    ensures At(Install(t, sizes, key, ref), sizes, k) ==
            if k == key && At(t, sizes, key).None? then Some(ref) else At(t, sizes, k)
    decreases |sizes|
  {
    if |sizes| == 1 {
      assert Product(sizes[1..]) == 1;
    } else {
      var p := Product(sizes[1..]);
      ProductPositive(sizes[1..]);
      SplitKey(key, sizes[0], p);
      SplitKey(k, sizes[0], p);
      var cell := t.tiers[key / p];
      var child := if cell.Some? then cell.value else EmptyTier(sizes[1..]);
      if k / p == key / p {
        AtInstalled(child, sizes[1..], key % p, ref, k % p);
        EmptyHasNothing(sizes[1..], key % p);
        EmptyHasNothing(sizes[1..], k % p);
      }
    }
  }

  // ----- the index as an object -----

  ghost function CellIn(root: Tier, sizes: seq<nat>, key: nat): Option<Ref>
    requires Sizes(sizes) && Shape(root, sizes)
  { if key < Product(sizes) then At(root, sizes, key) else None }

  /** Exactly the keys asked for have a cell, and each has a list of its own. */
  ghost predicate Consistent(sizes: seq<nat>, root: Tier, lists: nat, asked: set<nat>) {
    && Sizes(sizes) && Shape(root, sizes)
    && (forall k: nat :: k in asked <==> CellIn(root, sizes, k).Some?)
    && (forall k :: k in asked ==> CellIn(root, sizes, k).value < lists)
    && (forall k, m :: k in asked && m in asked && CellIn(root, sizes, k) == CellIn(root, sizes, m) ==> k == m)
  }

  /** The map an index stands for. */
  ghost function MapOf(sizes: seq<nat>, root: Tier, lists: seq<seq<nat>>, asked: set<nat>): (m: map<nat, seq<nat>>)
    requires Consistent(sizes, root, |lists|, asked)
    ensures m.Keys == asked
  { map k | k in asked :: lists[CellIn(root, sizes, k).value] }

  lemma CellsAfter(root: Tier, sizes: seq<nat>, key: nat, ref: Ref, k: nat)
    requires Sizes(sizes) && Shape(root, sizes) && key < Product(sizes)
    ensures CellIn(Install(root, sizes, key, ref), sizes, k) ==
            if k == key && CellIn(root, sizes, key).None? then Some(ref) else CellIn(root, sizes, k)
  {
    if k < Product(sizes) { AtInstalled(root, sizes, key, ref, k); }
  }

  lemma EmptyConsistent(sizes: seq<nat>)
    requires Sizes(sizes)
    ensures Consistent(sizes, EmptyTier(sizes), 0, {})
  {
    forall k: nat ensures CellIn(EmptyTier(sizes), sizes, k).None? {
      if k < Product(sizes) { EmptyHasNothing(sizes, k); }
    }
  }

  /** root' is root with a cell for key, referring to ref if it had none. */
  ghost predicate Grown(sizes: seq<nat>, root: Tier, root': Tier, key: nat, ref: Ref)
    requires Sizes(sizes) && Shape(root, sizes) && Shape(root', sizes)
  {
    forall k: nat :: CellIn(root', sizes, k) ==
      if k == key && CellIn(root, sizes, key).None? then Some(ref) else CellIn(root, sizes, k)
  }

  lemma InstallGrows(sizes: seq<nat>, root: Tier, key: nat, ref: Ref)
    requires Sizes(sizes) && Shape(root, sizes) && key < Product(sizes)
    ensures Grown(sizes, root, Install(root, sizes, key, ref), key, ref)
  {
    forall k: nat
      ensures CellIn(Install(root, sizes, key, ref), sizes, k) ==
              if k == key && CellIn(root, sizes, key).None? then Some(ref) else CellIn(root, sizes, k)
    {
      CellsAfter(root, sizes, key, ref, k);
    }
  }

  /** get on a key gives it a list if it had none, and nothing else. */
  lemma GetKeeps(sizes: seq<nat>, root: Tier, root': Tier, lists: seq<seq<nat>>, asked: set<nat>, key: nat)
    requires Consistent(sizes, root, |lists|, asked) && Shape(root', sizes) && Grown(sizes, root, root', key, |lists|)
    ensures var lists' := if key in asked then lists else lists + [[]];
            && Consistent(sizes, root', |lists'|, asked + {key})
            && (forall k :: k in asked ==> CellIn(root', sizes, k) == CellIn(root, sizes, k))
            && MapOf(sizes, root', lists', asked + {key}) ==
               if key in asked then MapOf(sizes, root, lists, asked) else MapOf(sizes, root, lists, asked)[key := []]
  {
  }

  class Index {
    const sizes: seq<nat>
    var root: Tier
    var lists: seq<seq<nat>>
    /** Keys ever passed to get. */
    ghost var asked: set<nat>

    ghost predicate Valid()
      reads this
    { Consistent(sizes, root, |lists|, asked) }

    ghost function Cell(key: nat): Option<Ref>
      requires Sizes(sizes) && Shape(root, sizes)
      reads this
    { CellIn(root, sizes, key) }

    /** The map the index stands for. */
    ghost function Contents(): (m: map<nat, seq<nat>>)
      requires Valid()
      reads this
      ensures m.Keys == asked
    { MapOf(sizes, root, lists, asked) }

    constructor (sizes: seq<nat>)
      requires Sizes(sizes)
      ensures Valid() && this.sizes == sizes && Contents() == map[]
    {
      this.sizes := sizes;
      root := EmptyTier(sizes);
      lists := [];
      asked := {};
      EmptyConsistent(sizes);
    }

    /** Creates the key's list if it has none; every reference handed out before stays good. */
    method Get(key: nat) returns (ref: Ref)
      requires Valid() && key < Product(sizes)
      modifies this
      ensures Valid() && Cell(key) == Some(ref)
      ensures forall k :: k in old(asked) ==> Cell(k) == old(Cell(k))
      ensures Contents() == if key in old(asked) then old(Contents()) else old(Contents())[key := []]
    {
      var missing := At(root, sizes, key).None?;
      assert missing <==> key !in asked by { assert CellIn(root, sizes, key) == At(root, sizes, key); }
      InstallGrows(sizes, root, key, |lists|);
      GetKeeps(sizes, root, Install(root, sizes, key, |lists|), lists, asked, key);
      root := Install(root, sizes, key, |lists|);
      if missing { lists := lists + [[]]; }
      asked := asked + {key};
      assert Valid() && Cell(key).Some?;
      ref := At(root, sizes, key).value;
    }

    /** push_back through a reference obtained earlier. */
    method PushBack(ref: Ref, val: nat, ghost key: nat)
      requires Valid() && key in asked && Cell(key) == Some(ref)
      modifies this`lists
      ensures Valid() && Contents() == old(Contents())[key := old(Contents())[key] + [val]]
    {
      lists := lists[ref := lists[ref] + [val]];
    }

    /** Appends to that key's list and to no other. */
    method AddEntry(key: nat, val: nat)
      requires Valid() && key < Product(sizes)
      modifies this
      ensures Valid() && key in Contents()
      ensures Contents() == old(Contents())[key := (if key in old(Contents()) then old(Contents())[key] else []) + [val]]
    {
      var list := Get(key);
      PushBack(list, val, key);
    }

    /** Null exactly for the keys never passed to get. */
    method Lookup(key: nat) returns (r: Option<seq<nat>>)
      requires Valid() && key < Product(sizes)
      ensures r.Some? <==> key in asked
      ensures r.Some? ==> r.value == Contents()[key]
    {
      var cell := At(root, sizes, key);
      assert cell == Cell(key);
      r := if cell.Some? then Some(lists[cell.value]) else None;
    }
  }
}
