/**
 * Weighted quick-union over the elements 0 .. count - 1: every element points to a parent, roots
 * point to themselves, and union hangs the root of the smaller tree under the root of the larger.
 *
 * The abstract view is the ghost sequence `root`: root[i] is the representative of i's set, and two
 * elements are in the same set exactly when they have the same representative.
 */
module UnionFind {

  /** The representatives after merging the sets represented by a and b into one represented by w. */
  function Merge(root: seq<int>, a: int, b: int, w: int): (merged: seq<int>)
    ensures |merged| == |root|
  {
    seq(|root|, i requires 0 <= i < |root| => if root[i] == a || root[i] == b then w else root[i])
  }

  /** Merging a with b is merging b with a. */
  lemma MergeSymmetric(root: seq<int>, a: int, b: int, w: int)
    ensures Merge(root, a, b, w) == Merge(root, b, a, w)
  {
  }

  /** x and y are in the same set. */
  predicate Connected(root: seq<int>, x: int, y: int)
    requires 0 <= x < |root| && 0 <= y < |root|
  {
    root[x] == root[y]
  }

  /**
   * Merging the sets of p and q joins exactly those two sets: afterwards x and y are in the same set
   * if and only if they already were, or one was with p and the other with q.
   */
  lemma MergeJoinsExactly(root: seq<int>, p: int, q: int, w: int, x: int, y: int)
    requires 0 <= p < |root| && 0 <= q < |root| && 0 <= x < |root| && 0 <= y < |root|
    requires w == root[p] || w == root[q]
    ensures Connected(Merge(root, root[p], root[q], w), x, y) <==>
      Connected(root, x, y) ||
      (Connected(root, x, p) && Connected(root, y, q)) ||
      (Connected(root, x, q) && Connected(root, y, p))
  {
  }

  class UnionFind {
    /** parent[i] is the next element on the way from i to its root. */
    const parent: array<int>
    /** size[r] weighs the tree rooted at r. */
    const size: array<int>

    /** The representative of each element. */
    ghost var root: seq<int>
    /** Strictly increases from child to parent, so the walk to a root ends. */
    ghost var height: seq<nat>
    /** Bound on every height. */
    ghost var maxHeight: nat

    ghost predicate Valid()
      reads this, parent
    {
      parent != size && parent.Length == size.Length == |root| == |height| &&
      (forall i :: 0 <= i < parent.Length ==> 0 <= parent[i] < parent.Length) &&
      (forall i :: 0 <= i < |root| ==> 0 <= root[i] < parent.Length && parent[root[i]] == root[i]) &&
      (forall i :: 0 <= i < parent.Length ==> root[parent[i]] == root[i]) &&
      (forall i :: 0 <= i < parent.Length && parent[i] == i ==> root[i] == i) &&
      (forall i :: 0 <= i < parent.Length && parent[i] != i ==> height[i] < height[parent[i]]) &&
      (forall i :: 0 <= i < |height| ==> height[i] <= maxHeight)
    }

    /** count singleton sets: every element is its own representative. */
    constructor (count: nat)
      ensures Valid() && fresh(parent) && fresh(size)
      ensures |root| == count
      ensures forall i :: 0 <= i < count ==> root[i] == i
    {
      parent := new int[count];
      size := new int[count];
      root := seq(count, i => i);
      height := seq(count, i => 0);
      maxHeight := 0;
      new;
      var i := 0;
      while i < count
        invariant 0 <= i <= count
        invariant forall j :: 0 <= j < i ==> parent[j] == j
        modifies parent, size
      {
        parent[i] := i;
        size[i] := 1;
        i := i + 1;
      }
    }

    /** The representative of p's set, found by following parent links up to the root. */
    method Find(p: int) returns (r: int)
      requires Valid() && 0 <= p < |root|
      ensures r == root[p]
      ensures 0 <= r < |root| && root[r] == r
    {
      r := p;
      while parent[r] != r
        invariant 0 <= r < parent.Length && root[r] == root[p]
        decreases maxHeight - height[r]
      {
        r := parent[r];
      }
    }

    /**
     * Merges the sets of p and q. The representative of the merged set is one of the two old
     * representatives; every other set keeps its representative.
     */
    method Union(p: int, q: int)
      requires Valid() && 0 <= p < |root| && 0 <= q < |root|
      modifies this, parent, size
      ensures Valid() && |root| == old(|root|)
      ensures root[p] == old(root[p]) || root[p] == old(root[q])
      ensures root == Merge(old(root), old(root[p]), old(root[q]), root[p])
    {
      var rootP := Find(p);
      var rootQ := Find(q);
      if rootP == rootQ {
        assert root == Merge(root, rootP, rootQ, rootP);
        return;
      }
      ghost var before := root;
      if size[rootP] < size[rootQ] {
        Link(rootP, rootQ);
        assert root[p] == rootQ;
      } else {
        Link(rootQ, rootP);
        MergeSymmetric(before, rootQ, rootP, rootP);
        assert root[p] == rootP;
      }
    }

    /** Hangs root `child` under root `top`, which becomes the representative of both sets. */
    method Link(child: int, top: int)
      requires Valid() && 0 <= child < |root| && 0 <= top < |root|
      requires root[child] == child && root[top] == top && child != top
      modifies this, parent, size
      ensures Valid() && |root| == old(|root|)
      ensures root == Merge(old(root), child, top, top)
    {
      ghost var oldRoot := root;
      parent[child] := top;
      size[top] := size[top] + size[child];
      root := Merge(root, child, top, top);
      forall i | 0 <= i < |root|
        ensures 0 <= root[i] < parent.Length && parent[root[i]] == root[i]
      {
        assert root[i] == top || (root[i] == oldRoot[i] && oldRoot[i] != child);
      }
      var h := if height[top] <= height[child] then height[child] + 1 else height[top];
      height := height[top := h];
      maxHeight := if maxHeight < h then h else maxHeight;
    }
  }
}
