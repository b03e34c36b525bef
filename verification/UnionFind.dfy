/** The path-compressing union-find of the resolver. Roots are chosen by (sort key, index). */
module UnionFinds {
  import opened Types

  /** Strict order of nodes by (sort key, index). */
  predicate Before(keys: seq<Key>, a: nat, b: nat)
    requires a < |keys| && b < |keys|
  {
    keys[a] < keys[b] || (keys[a] == keys[b] && a < b)
  }

  /** The class map after the classes represented by `a` and `b` are represented by `r`. */
  ghost function Joined(root: seq<nat>, a: nat, b: nat, r: nat): (j: seq<nat>)
    ensures |j| == |root|
    ensures forall i | 0 <= i < |root| :: j[i] == if root[i] == a || root[i] == b then r else root[i]
  {
    seq(|root|, i requires 0 <= i < |root| => if root[i] == a || root[i] == b then r else root[i])
  }

  ghost function ClassOf(root: seq<nat>, r: nat): set<nat> {
    set i: nat | i < |root| && root[i] == r
  }

  /** Every representative represents itself and is least in its class. */
  ghost predicate Representatives(root: seq<nat>, keys: seq<Key>) {
    && |root| == |keys|
    && forall i: nat {:trigger root[i]} | i < |root| ::
         root[i] < |root| && root[root[i]] == root[i] && (root[i] != i ==> Before(keys, root[i], i))
  }

  /** Parents strictly decrease in (sort key, index) and stay in the class of their node. */
  ghost predicate Forest(parent: seq<nat>, root: seq<nat>, keys: seq<Key>) {
    && Representatives(root, keys)
    && |parent| == |root|
    && forall i: nat {:trigger parent[i]} | i < |parent| ::
         && parent[i] < |root| && root[parent[i]] == root[i]
         && (parent[i] == i <==> root[i] == i)
         && (parent[i] != i ==> Before(keys, parent[i], i))
  }

  ghost predicate Sized(sizes: seq<nat>, root: seq<nat>) {
    |sizes| == |root| && forall i: nat {:trigger sizes[i]} | i < |root| && root[i] == i ::
      sizes[i] == |ClassOf(root, i)|
  }

  /** The relation every operation of the union-find keeps. */
  ghost function WellShaped(): (seq<nat>, seq<nat>, seq<nat>, seq<Key>) -> bool {
    (parent: seq<nat>, sizes: seq<nat>, root: seq<nat>, keys: seq<Key>) => Forest(parent, root, keys)
      && Sized(sizes, root)
  }

  lemma Compressed(parent: seq<nat>, root: seq<nat>, keys: seq<Key>, node: nat)
    requires Forest(parent, root, keys) && node < |root|
    ensures Forest(parent[node := root[node]], root, keys)
  {
  }

  lemma Linked(parent: seq<nat>, sizes: seq<nat>, root: seq<nat>, keys: seq<Key>, top: nat, child: nat)
    requires Forest(parent, root, keys) && Sized(sizes, root)
    requires top < |root| && child < |root| && root[top] == top && root[child] == child && Before(keys, top, child)
    ensures Forest(parent[child := top], Joined(root, top, child, top), keys)
    ensures Sized(sizes[top := sizes[top] + sizes[child]], Joined(root, top, child, top))
  {
    var joined := Joined(root, top, child, top);
    forall i: nat | i < |root| && root[i] == child ensures i != child ==> Before(keys, child, i) {}
    assert Representatives(joined, keys);
    assert ClassOf(joined, top) == ClassOf(root, top) + ClassOf(root, child);
    assert ClassOf(root, top) !! ClassOf(root, child);
    forall i: nat | i < |root| && joined[i] == i && i != top ensures ClassOf(joined, i) == ClassOf(root, i) {}
  }

  class UnionFind {
    const parent: array<nat>
    const sizes: array<nat>
    ghost const keys: seq<Key>
    /** The representative of every node. */
    ghost var root: seq<nat>

    ghost predicate Valid()
      reads this, parent, sizes
    {
      parent != sizes && WellShaped()(parent[..], sizes[..], root, keys)
    }

    constructor (length: nat, ghost keys: seq<Key>)
      requires length == |keys|
      ensures Valid() && fresh(parent) && fresh(sizes)
      ensures this.keys == keys && root == seq(length, i requires 0 <= i < length => i)
    {
      parent := new nat[length](i => i);
      sizes := new nat[length](i => 1);
      this.keys := keys;
      root := seq(length, i requires 0 <= i < length => i);
      new;
      forall i: nat | i < length ensures ClassOf(root, i) == {i} {}
      assert Forest(parent[..], root, keys) && Sized(sizes[..], root);
    }

    /** Returns the representative and points the whole path at it. */
    method Find(node: nat) returns (r: nat)
      requires Valid() && node < |root|
      modifies parent
      ensures Valid() && r == root[node] && parent[node] == r
      ensures forall i: nat | i < |root| :: parent[i] == old(parent[i]) || parent[i] == root[i]
      decreases keys[node], node
    {
      assert parent[node] == parent[..][node];
      if parent[node] != node {
        var up := Find(parent[node]);
        Compressed(parent[..], root, keys, node);
        ghost var links := parent[..];
        parent[node] := up;
        assert parent[..] == links[node := up];
      }
      r := parent[node];
    }

    /** Hangs one representative below a lesser one. */
    method Link(top: nat, child: nat)
      requires Valid() && top < |root| && child < |root| && root[top] == top && root[child] == child
      requires Before(keys, top, child)
      modifies this`root, parent, sizes
      ensures Valid() && root == Joined(old(root), top, child, top)
    {
      Linked(parent[..], sizes[..], root, keys, top, child);
      ghost var links, counts := parent[..], sizes[..];
      parent[child] := top;
      sizes[top] := sizes[top] + sizes[child];
      assert parent[..] == links[child := top];
      assert sizes[..] == counts[top := counts[top] + counts[child]];
      root := Joined(root, top, child, top);
    }

    /** Joins the classes of `left` and `right` under the lesser of the two representatives. */
    method Union(left: nat, right: nat, sortKeys: seq<Key>) returns (r: nat)
      requires Valid() && left < |root| && right < |root| && sortKeys == keys
      modifies this`root, parent, sizes
      ensures Valid()
      ensures root == Joined(old(root), old(root)[left], old(root)[right], r)
      ensures r == old(root)[left] || r == old(root)[right]
      ensures r != old(root)[left] ==> Before(keys, r, old(root)[left])
      ensures r != old(root)[right] ==> Before(keys, r, old(root)[right])
    {
      var a := Find(left);
      var b := Find(right);
      if a == b {
        assert root == Joined(root, a, b, a);
        return a;
      }
      if sortKeys[a] < sortKeys[b] || (sortKeys[a] == sortKeys[b] && a <= b) {
        Link(a, b);
        r := a;
      } else {
        Link(b, a);
        r := b;
      }
      assert root == Joined(old(root), a, b, r);
    }

    /** The number of nodes in the class of `node`. */
    method Size(node: nat) returns (n: nat)
      requires Valid() && node < |root|
      modifies parent
      ensures Valid()
      ensures n == |ClassOf(root, root[node])|
    {
      var r := Find(node);
      assert sizes[r] == sizes[..][r];
      n := sizes[r];
    }
  }
}
