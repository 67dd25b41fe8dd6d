/** The forest construction shared by the org chart and the team hierarchy:
    starting from the items without a parent, every node's children are the items
    whose parent key is that node's key, in input order, built recursively.

    Nothing in the stores prevents a cycle in the parent relation, but the
    recursion starts only from items without a parent, and with unique keys every
    item reached that way lies on a chain back to such a root: the chain cannot
    repeat an item. The builder threads that chain (`path`) through the
    recursion, which is what makes it terminate; items on a cycle, or below a
    parent that is not in the input, are never reached. */
module Forest {
  import opened Wrappers
  import opened Seqs

  datatype Tree<L> = Tree(entry: L, children: seq<Tree<L>>)

  /** `path` is a chain down from a root: its first item has no parent, and each
      further item's parent is the key of the item before it. */
  ghost predicate IsChain<T, K>(xs: seq<T>, key: T -> K, parent: T -> Option<K>, path: seq<T>)
  {
    && (forall i :: 0 <= i < |path| ==> path[i] in xs)
    && (|path| > 0 ==> parent(path[0]).None?)
    && (forall i :: 0 < i < |path| ==> parent(path[i]) == Some(key(path[i - 1])))
  }

  /** `x`'s chain of parents ends at an item without a parent. */
  ghost predicate ReachesRoot<T(!new), K>(xs: seq<T>, key: T -> K, parent: T -> Option<K>, x: T)
  {
    exists path :: IsChain(xs, key, parent, path) && |path| > 0 && path[|path| - 1] == x
  }

  /** The parent key that the children of the end of `path` carry. */
  function Tip<T, K>(path: seq<T>, key: T -> K): (r: Option<K>)
    ensures path != [] ==> r == Some(key(path[|path| - 1]))
  {
    if path == [] then None else Some(key(path[|path| - 1]))
  }

  /** The items whose parent key is `tip`, in input order. */
  function KidsOf<T(==), K(==)>(xs: seq<T>, parent: T -> Option<K>, tip: Option<K>): (r: seq<T>)
    ensures forall i :: 0 <= i < |r| ==> r[i] in xs && parent(r[i]) == tip
    ensures forall x :: x in xs && parent(x) == tip ==> x in r
  {
    Filter(xs, (x: T) => parent(x) == tip)
  }

  ghost function Visited<T>(s: seq<T>): set<T>
  {
    set x | x in s
  }

  /** Items of a chain are pairwise distinct. */
  lemma {:induction false} ChainDistinct<T, K>(xs: seq<T>, key: T -> K, parent: T -> Option<K>, path: seq<T>, i: nat, j: nat)
    requires UniqueKeys(xs, key) && IsChain(xs, key, parent, path) && i < j < |path|
    ensures path[i] != path[j]
  {
    assert parent(path[j]) == Some(key(path[j - 1]));
    if i > 0 {
      ChainDistinct(xs, key, parent, path, i - 1, j - 1);
      var a :| 0 <= a < |xs| && xs[a] == path[i - 1];
      var b :| 0 <= b < |xs| && xs[b] == path[j - 1];
      assert key(path[i - 1]) != key(path[j - 1]);
    }
  }

  /** A child of the end of a chain extends the chain with an item not yet on it. */
  lemma ChainExtend<T, K>(xs: seq<T>, key: T -> K, parent: T -> Option<K>, path: seq<T>, k: T)
    requires UniqueKeys(xs, key) && IsChain(xs, key, parent, path)
    requires k in xs && parent(k) == Tip(path, key)
    ensures IsChain(xs, key, parent, path + [k]) && k !in path
    ensures Visited(xs) - Visited(path + [k]) < Visited(xs) - Visited(path)
  {
    var p := path + [k];
    assert IsChain(xs, key, parent, p);
    forall i | 0 <= i < |path| ensures path[i] != k {
      ChainDistinct(xs, key, parent, p, i, |path|);
    }
    assert Visited(p) == Visited(path) + {k};
  }

  /** The nodes for the children of the end of `path` (`buildTree(parentId)`). */
  function Children<T(==), K(==), L>(xs: seq<T>, key: T -> K, parent: T -> Option<K>, view: T -> L, path: seq<T>): seq<Tree<L>>
    requires UniqueKeys(xs, key) && IsChain(xs, key, parent, path)
    decreases Visited(xs) - Visited(path), 1, 0
  {
    Build(xs, key, parent, view, path, KidsOf(xs, parent, Tip(path, key)))
  }

  /** One node per item of `kids`, each with its own children below it. */
  function Build<T(==), K(==), L>(xs: seq<T>, key: T -> K, parent: T -> Option<K>, view: T -> L, path: seq<T>, kids: seq<T>): seq<Tree<L>>
    requires UniqueKeys(xs, key) && IsChain(xs, key, parent, path)
    requires forall i :: 0 <= i < |kids| ==> kids[i] in xs && parent(kids[i]) == Tip(path, key)
    decreases Visited(xs) - Visited(path), 0, |kids|
  {
    if kids == [] then []
    else
      ChainExtend(xs, key, parent, path, kids[0]);
      [Tree(view(kids[0]), Children(xs, key, parent, view, path + [kids[0]]))]
        + Build(xs, key, parent, view, path, kids[1..])
  }

  /** `buildTree(null)`: the forest under the items without a parent. */
  function BuildForest<T(==), K(==), L>(xs: seq<T>, key: T -> K, parent: T -> Option<K>, view: T -> L): seq<Tree<L>>
    requires UniqueKeys(xs, key)
  {
    Children(xs, key, parent, view, [])
  }

  /** The entries of a forest, depth first, each node before its children. */
  function Flatten<L>(trees: seq<Tree<L>>): seq<L>
    decreases trees
  {
    if trees == [] then [] else [trees[0].entry] + Flatten(trees[0].children) + Flatten(trees[1..])
  }

  /** The forest whose top level holds the items with parent `tip`, in input order, and
      in which every node's children are the items whose parent is that node's key,
      again in input order. */
  ghost predicate Shaped<T, K, L>(xs: seq<T>, key: T -> K, parent: T -> Option<K>, view: T -> L,
                                          trees: seq<Tree<L>>, tip: Option<K>)
    decreases trees
  {
    var kids := KidsOf(xs, parent, tip);
    && |trees| == |kids|
    && forall i :: 0 <= i < |trees| ==>
         && trees[i].entry == view(kids[i])
         && Shaped(xs, key, parent, view, trees[i].children, Some(key(kids[i])))
  }

  /** The builder produces the shaped forest below the end of any chain. */
  lemma {:induction false} ChildrenShaped<T, K, L>(xs: seq<T>, key: T -> K, parent: T -> Option<K>, view: T -> L, path: seq<T>)
    requires UniqueKeys(xs, key) && IsChain(xs, key, parent, path)
    ensures Shaped(xs, key, parent, view, Children(xs, key, parent, view, path), Tip(path, key))
    decreases Visited(xs) - Visited(path), 1, 0
  {
    BuildShaped(xs, key, parent, view, path, KidsOf(xs, parent, Tip(path, key)));
  }

  lemma {:induction false} BuildShaped<T, K, L>(xs: seq<T>, key: T -> K, parent: T -> Option<K>, view: T -> L, path: seq<T>, kids: seq<T>)
    requires UniqueKeys(xs, key) && IsChain(xs, key, parent, path)
    requires forall i :: 0 <= i < |kids| ==> kids[i] in xs && parent(kids[i]) == Tip(path, key)
    ensures var ts := Build(xs, key, parent, view, path, kids);
      && |ts| == |kids|
      && forall i :: 0 <= i < |ts| ==>
           && ts[i].entry == view(kids[i])
           && Shaped(xs, key, parent, view, ts[i].children, Some(key(kids[i])))
    decreases Visited(xs) - Visited(path), 0, |kids|
  {
    if kids != [] {
      ChainExtend(xs, key, parent, path, kids[0]);
      ChildrenShaped(xs, key, parent, view, path + [kids[0]]);
      BuildShaped(xs, key, parent, view, path, kids[1..]);
    }
  }

  /** Roots are the items without a parent, and every node's children are exactly the
      items whose parent is that node's key, each group in input order. */
  lemma ForestShaped<T, K, L>(xs: seq<T>, key: T -> K, parent: T -> Option<K>, view: T -> L)
    requires UniqueKeys(xs, key)
    ensures Shaped(xs, key, parent, view, BuildForest(xs, key, parent, view), None)
  {
    ChildrenShaped(xs, key, parent, view, []);
  }

  /** `v` is the entry of an item at the end of some chain. */
  ghost predicate ViewOfChain<T(!new), K, L>(xs: seq<T>, key: T -> K, parent: T -> Option<K>, view: T -> L, v: L)
  {
    exists path :: IsChain(xs, key, parent, path) && |path| > 0 && v == view(path[|path| - 1])
  }

  lemma {:induction false} ChildrenSound<T(!new), K, L>(xs: seq<T>, key: T -> K, parent: T -> Option<K>, view: T -> L, path: seq<T>)
    requires UniqueKeys(xs, key) && IsChain(xs, key, parent, path)
    ensures forall v :: v in Flatten(Children(xs, key, parent, view, path)) ==> ViewOfChain(xs, key, parent, view, v)
    decreases Visited(xs) - Visited(path), 1, 0
  {
    BuildSound(xs, key, parent, view, path, KidsOf(xs, parent, Tip(path, key)));
  }

  lemma {:induction false} BuildSound<T(!new), K, L>(xs: seq<T>, key: T -> K, parent: T -> Option<K>, view: T -> L, path: seq<T>, kids: seq<T>)
    requires UniqueKeys(xs, key) && IsChain(xs, key, parent, path)
    requires forall i :: 0 <= i < |kids| ==> kids[i] in xs && parent(kids[i]) == Tip(path, key)
    ensures forall v :: v in Flatten(Build(xs, key, parent, view, path, kids)) ==> ViewOfChain(xs, key, parent, view, v)
    decreases Visited(xs) - Visited(path), 0, |kids|
  {
    if kids != [] {
      var k := kids[0];
      ChainExtend(xs, key, parent, path, k);
      var p := path + [k];
      ChildrenSound(xs, key, parent, view, p);
      BuildSound(xs, key, parent, view, path, kids[1..]);
      var head := Tree(view(k), Children(xs, key, parent, view, p));
      var rest := Build(xs, key, parent, view, path, kids[1..]);
      var ts := [head] + rest;
      assert ts[0] == head && ts[1..] == rest;
      assert Flatten(ts) == [view(k)] + Flatten(head.children) + Flatten(rest);
      assert ViewOfChain(xs, key, parent, view, view(k)) by {
        assert p[|p| - 1] == k;
      }
    }
  }

  /** Every node of the forest is built from an item whose parent chain reaches a root. */
  lemma ForestSound<T(!new), K, L>(xs: seq<T>, key: T -> K, parent: T -> Option<K>, view: T -> L, v: L)
    requires UniqueKeys(xs, key)
    requires v in Flatten(BuildForest(xs, key, parent, view))
    ensures exists x :: x in xs && ReachesRoot(xs, key, parent, x) && v == view(x)
  {
    ChildrenSound(xs, key, parent, view, []);
    var path :| IsChain(xs, key, parent, path) && |path| > 0 && v == view(path[|path| - 1]);
    var x := path[|path| - 1];
    assert x in xs && ReachesRoot(xs, key, parent, x);
  }

  /** A forest built from `kids` contains the whole forest below each of them. */
  lemma {:induction false} BuildContains<T, K, L>(xs: seq<T>, key: T -> K, parent: T -> Option<K>, view: T -> L, path: seq<T>, kids: seq<T>, j: nat)
    requires UniqueKeys(xs, key) && IsChain(xs, key, parent, path)
    requires forall i :: 0 <= i < |kids| ==> kids[i] in xs && parent(kids[i]) == Tip(path, key)
    requires j < |kids|
    ensures IsChain(xs, key, parent, path + [kids[j]])
    ensures view(kids[j]) in Flatten(Build(xs, key, parent, view, path, kids))
    ensures forall v :: v in Flatten(Children(xs, key, parent, view, path + [kids[j]]))
                        ==> v in Flatten(Build(xs, key, parent, view, path, kids))
    decreases |kids|
  {
    var k := kids[0];
    ChainExtend(xs, key, parent, path, k);
    ChainExtend(xs, key, parent, path, kids[j]);
    var head := Tree(view(k), Children(xs, key, parent, view, path + [k]));
    var rest := Build(xs, key, parent, view, path, kids[1..]);
    var ts := [head] + rest;
    assert ts[0] == head && ts[1..] == rest;
    assert Flatten(ts) == [view(k)] + Flatten(head.children) + Flatten(rest);
    if j > 0 {
      BuildContains(xs, key, parent, view, path, kids[1..], j - 1);
    }
  }

  /** A prefix of a chain is a chain, and the item after it is one of its end's
      children. */
  lemma ChainPrefix<T, K>(xs: seq<T>, key: T -> K, parent: T -> Option<K>, path: seq<T>, q: seq<T>)
    requires IsChain(xs, key, parent, path + q) && |q| > 0
    ensures IsChain(xs, key, parent, path)
    ensures q[0] in xs && parent(q[0]) == Tip(path, key)
  {
    var c := path + q;
    forall i | 0 <= i < |path| ensures path[i] in xs {
      assert c[i] == path[i];
    }
    forall i | 0 < i < |path| ensures parent(path[i]) == Some(key(path[i - 1])) {
      assert c[i] == path[i] && c[i - 1] == path[i - 1];
    }
    assert q[0] == c[|path|];
    if path != [] {
      assert c[|path| - 1] == path[|path| - 1];
    }
  }

  /** The end of every chain that extends `path` appears below the end of `path`. */
  lemma {:induction false} ChainInChildren<T, K, L>(xs: seq<T>, key: T -> K, parent: T -> Option<K>, view: T -> L, path: seq<T>, q: seq<T>)
    requires UniqueKeys(xs, key) && IsChain(xs, key, parent, path + q) && |q| > 0
    ensures IsChain(xs, key, parent, path)
    ensures view(q[|q| - 1]) in Flatten(Children(xs, key, parent, view, path))
    decreases |q|
  {
    ChainPrefix(xs, key, parent, path, q);
    var kids := KidsOf(xs, parent, Tip(path, key));
    assert q[0] in kids;
    var j :| 0 <= j < |kids| && kids[j] == q[0];
    BuildContains(xs, key, parent, view, path, kids, j);
    if |q| > 1 {
      assert path + q == (path + [q[0]]) + q[1..];
      ChainInChildren(xs, key, parent, view, path + [q[0]], q[1..]);
    }
  }

  /** Every item whose parent chain reaches a root has a node in the forest. */
  lemma ForestComplete<T(!new), K, L>(xs: seq<T>, key: T -> K, parent: T -> Option<K>, view: T -> L, x: T)
    requires UniqueKeys(xs, key) && ReachesRoot(xs, key, parent, x)
    ensures view(x) in Flatten(BuildForest(xs, key, parent, view))
  {
    var path :| IsChain(xs, key, parent, path) && |path| > 0 && path[|path| - 1] == x;
    assert [] + path == path;
    ChainInChildren(xs, key, parent, view, [], path);
  }

  /** An item whose parent key belongs to no item never reaches a root. */
  lemma DanglingParentNeverReachesRoot<T(!new), K, L>(xs: seq<T>, key: T -> K, parent: T -> Option<K>, x: T)
    requires parent(x).Some?
    requires forall y :: y in xs ==> key(y) != parent(x).value
    ensures !ReachesRoot(xs, key, parent, x)
  {
    forall path | IsChain(xs, key, parent, path) && |path| > 0 ensures path[|path| - 1] != x {
      if |path| > 1 {
        assert path[|path| - 2] in xs;
        assert parent(path[|path| - 1]) == Some(key(path[|path| - 2]));
      }
    }
  }

  /** `q` runs downwards through `xs`: each item after the first has the item before
      it as its parent. */
  ghost predicate IsDescent<T, K>(xs: seq<T>, key: T -> K, parent: T -> Option<K>, q: seq<T>)
  {
    && (forall i :: 0 <= i < |q| ==> q[i] in xs)
    && (forall i :: 0 < i < |q| ==> parent(q[i]) == Some(key(q[i - 1])))
  }

  /** Everything below an item that never reaches a root never reaches one either. */
  lemma DescentFromUnreached<T(!new), K>(xs: seq<T>, key: T -> K, parent: T -> Option<K>, q: seq<T>)
    requires UniqueKeys(xs, key) && IsDescent(xs, key, parent, q) && |q| > 0
    requires !ReachesRoot(xs, key, parent, q[0])
    ensures !ReachesRoot(xs, key, parent, q[|q| - 1])
  {
    forall path | IsChain(xs, key, parent, path) && |path| > 0 ensures path[|path| - 1] != q[|q| - 1] {
      NotOnChainBelow(xs, key, parent, q, path);
    }
  }

  lemma {:induction false} NotOnChainBelow<T(!new), K>(xs: seq<T>, key: T -> K, parent: T -> Option<K>, q: seq<T>, path: seq<T>)
    requires UniqueKeys(xs, key) && IsDescent(xs, key, parent, q) && |q| > 0
    requires !ReachesRoot(xs, key, parent, q[0])
    requires IsChain(xs, key, parent, path) && |path| > 0
    ensures path[|path| - 1] != q[|q| - 1]
    decreases |q|
  {
    var n, m := |path|, |q|;
    if m == 1 {
      assert !(IsChain(xs, key, parent, path) && |path| > 0 && path[n - 1] == q[0]);
    } else if n == 1 {
      assert parent(q[m - 1]) == Some(key(q[m - 2]));
    } else {
      var prefix := path[..n - 1];
      assert IsChain(xs, key, parent, prefix);
      assert IsDescent(xs, key, parent, q[..m - 1]);
      NotOnChainBelow(xs, key, parent, q[..m - 1], prefix);
      var y, u := path[n - 2], q[m - 2];
      assert y != u && y in xs && u in xs;
      var a :| 0 <= a < |xs| && xs[a] == y;
      var b :| 0 <= b < |xs| && xs[b] == u;
      assert key(y) != key(u);
      assert parent(path[n - 1]) == Some(key(y));
      assert parent(q[m - 1]) == Some(key(u));
    }
  }

  /** An item that is its own parent never reaches a root. */
  lemma SelfParentNeverReachesRoot<T(!new), K, L>(xs: seq<T>, key: T -> K, parent: T -> Option<K>, x: T)
    requires UniqueKeys(xs, key) && x in xs && parent(x) == Some(key(x))
    ensures !ReachesRoot(xs, key, parent, x)
  {
    forall path | IsChain(xs, key, parent, path) && |path| > 0 ensures path[|path| - 1] != x {
      SelfParentNotOnChain(xs, key, parent, x, path);
    }
  }

  lemma {:induction false} SelfParentNotOnChain<T, K>(xs: seq<T>, key: T -> K, parent: T -> Option<K>, x: T, path: seq<T>)
    requires UniqueKeys(xs, key) && x in xs && parent(x) == Some(key(x))
    requires IsChain(xs, key, parent, path) && |path| > 0
    ensures path[|path| - 1] != x
    decreases |path|
  {
    var n := |path|;
    if n > 1 {
      var prefix := path[..n - 1];
      assert IsChain(xs, key, parent, prefix);
      SelfParentNotOnChain(xs, key, parent, x, prefix);
      var y := path[n - 2];
      assert y != x && y in xs;
      var a :| 0 <= a < |xs| && xs[a] == y;
      var b :| 0 <= b < |xs| && xs[b] == x;
      assert key(y) != key(x);
      assert parent(path[n - 1]) == Some(key(y));
    }
  }
}
