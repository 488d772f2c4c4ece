/** The tree of nodes in core: who is whose parent, and the doubly linked list of each directory's children. */
module Trees {
  class TreeNode {
    var parent: TreeNode?
    var child: TreeNode?
    var next: TreeNode?
    var prev: TreeNode?
    const isDirectory: bool
    ghost var kids: seq<TreeNode>

    ghost function Pointers(): Links
      reads this
    {
      Links(parent, child, next, prev, isDirectory, kids)
    }

    constructor (isDirectory: bool)
      ensures Pointers() == Links(null, null, null, null, isDirectory, [])
    {
      this.isDirectory := isDirectory;
      parent, child, next, prev := null, null, null, null;
      kids := [];
    }
  }

  datatype Links = Links(parent: TreeNode?, child: TreeNode?, next: TreeNode?, prev: TreeNode?, isDirectory: bool,
                         kids: seq<TreeNode>)

  type Forest = map<TreeNode, Links>

  function At(kids: seq<TreeNode>, i: int): TreeNode? {
    if 0 <= i < |kids| then kids[i] else null
  }

  /** The i-th child knows its parent and its neighbours. */
  predicate InPlace(f: Forest, d: TreeNode, i: int)
    requires d in f && 0 <= i < |f[d].kids|
  {
    var kids := f[d].kids;
    && kids[i] in f
    && f[kids[i]].parent == d
    && f[kids[i]].prev == At(kids, i - 1)
    && f[kids[i]].next == At(kids, i + 1)
  }

  /** The children of `d` form a well-formed doubly linked list. */
  predicate Siblings(f: Forest, d: TreeNode)
    requires d in f
  {
    var kids := f[d].kids;
    && f[d].child == At(kids, 0)
    && (forall i :: 0 <= i < |kids| ==> InPlace(f, d, i))
    && (forall i, j :: 0 <= i < j < |kids| ==> kids[i] != kids[j])
    && (kids != [] ==> f[d].isDirectory)
  }

  /** A node is among the children of the parent it names; one without a parent is in no list. */
  predicate Listed(f: Forest, n: TreeNode)
    requires n in f
  {
    if f[n].parent == null then f[n].next == null && f[n].prev == null
    else f[n].parent in f && n in f[f[n].parent].kids
  }

  ghost predicate WellLinked(f: Forest) {
    forall n :: n in f ==> Siblings(f, n) && Listed(f, n)
  }

  /** The k-th ancestor. */
  function Up(f: Forest, n: TreeNode?, k: nat): TreeNode? {
    if k == 0 then n
    else if n != null && n in f then Up(f, f[n].parent, k - 1)
    else null
  }

  /** The chain of parents comes to an end. */
  ghost predicate Ends(f: Forest, n: TreeNode?) {
    exists k: nat :: Up(f, n, k) == null
  }

  /** `a` is `n` or one of its ancestors. */
  ghost predicate Above(f: Forest, a: TreeNode, n: TreeNode?) {
    exists k: nat :: Up(f, n, k) == a
  }

  /** The tree: lists are well formed, chains of parents are finite, and only the root and nodes that have been
      unlinked, which have no children, have no parent. */
  ghost predicate Tree(f: Forest, root: TreeNode) {
    && root in f && f[root].parent == null && f[root].isDirectory
    && WellLinked(f)
    && (forall n :: n in f ==> Ends(f, n))
    && (forall n :: n in f && f[n].parent == null && n != root ==> f[n].kids == [])
  }

  lemma ChainUp(f: Forest, n: TreeNode, k: nat)
    requires n in f
    ensures Up(f, n, k + 1) == Up(f, f[n].parent, k)
  {
  }

  /** Going up from an ancestor. */
  lemma {:induction false} UpTwice(f: Forest, n: TreeNode?, j: nat, k: nat)
    ensures Up(f, Up(f, n, j), k) == Up(f, n, j + k)
  {
    if j > 0 && n != null && n in f {
      UpTwice(f, f[n].parent, j - 1, k);
    } else if j > 0 {
      NothingAbove(f, n, j + k);
      NothingAbove(f, null, k);
    }
  }

  lemma NothingAbove(f: Forest, n: TreeNode?, k: nat)
    requires n == null || n !in f
    ensures k > 0 || n == null ==> Up(f, n, k) == null
  {
  }

  /** A node is not its own parent, nor the child of its child. */
  lemma {:induction false} Cyclic(f: Forest, n: TreeNode, c: nat, k: nat)
    requires n in f && c > 0 && Up(f, n, c) == n
    ensures Up(f, n, k) != null
    decreases k
  {
    if k >= c {
      UpTwice(f, n, c, k - c);
      Cyclic(f, n, c, k - c);
    } else if Up(f, n, k) == null {
      UpTwice(f, n, k, c - k);
      NothingAbove(f, null, c - k);
    }
  }

  /** Every node that has a parent has the root above it. */
  lemma {:induction false} RootAbove(f: Forest, root: TreeNode, n: TreeNode, k: nat)
    requires Tree(f, root) && n in f && f[n].parent != null && Up(f, n, k) == null
    ensures Above(f, root, n)
    decreases k
  {
    var p := f[n].parent;
    assert Listed(f, n);
    if f[p].parent == null {
      assert Up(f, n, 1) == Up(f, p, 0) == p;
      assert f[p].kids != [];
    } else {
      RootAbove(f, root, p, k - 1);
      var j: nat :| Up(f, p, j) == root;
      ChainUp(f, n, j);
    }
  }

  // --- attaching ---

  /** A node's links after `node` has been put in front of the children of `dir`. */
  function AttachedAt(f: Forest, node: TreeNode, dir: TreeNode, m: TreeNode): Links
    requires m in f && dir in f
  {
    var l, first := f[m], f[dir].child;
    Links(if m == node then dir else l.parent,
          if m == dir then node else l.child,
          if m == node && first != null then first else l.next,
          if m == first then node else l.prev,
          l.isDirectory,
          if m == dir then [node] + l.kids else l.kids)
  }

  function Attached(f: Forest, node: TreeNode, dir: TreeNode): (f': Forest)
    requires dir in f
    ensures f'.Keys == f.Keys && forall m :: m in f ==> f'[m] == AttachedAt(f, node, dir, m)
  {
    map m | m in f :: AttachedAt(f, node, dir, m)
  }

  /** The first child of a directory is in its place. */
  lemma FirstChild(f: Forest, dir: TreeNode)
    requires dir in f && Siblings(f, dir) && Ends(f, dir)
    ensures var first := f[dir].child;
            if first == null then f[dir].kids == []
            else first in f && first != dir && f[first].parent == dir && f[first].prev == null
                 && f[dir].kids != [] && first == f[dir].kids[0]
  {
    hide Ends;
    if f[dir].child != null {
      assert InPlace(f, dir, 0);
      NotOwnParent(f, dir);
    }
  }

  lemma NotOwnParent(f: Forest, n: TreeNode)
    requires n in f && Ends(f, n)
    ensures f[n].parent != n
  {
    var k: nat :| Up(f, n, k) == null;
    if f[n].parent == n {
      Cyclic(f, n, 1, k);
    }
  }

  /** A node that can be attached to `dir`: it is in no list. */
  ghost predicate Attachable(f: Forest, node: TreeNode, dir: TreeNode) {
    && node in f && dir in f && node != dir && f[dir].isDirectory
    && Siblings(f, dir) && Listed(f, node) && Ends(f, dir) && f[node].parent == null
  }

  /** A child of a directory names it as its parent. */
  lemma KidParent(f: Forest, d: TreeNode, i: nat)
    requires d in f && Siblings(f, d) && i < |f[d].kids|
    ensures f[d].kids[i] in f && f[f[d].kids[i]].parent == d
  {
    assert InPlace(f, d, i);
  }

  lemma AttachedSiblings(f: Forest, node: TreeNode, dir: TreeNode, d: TreeNode)
    requires Attachable(f, node, dir) && d in f && Siblings(f, d)
    ensures Siblings(Attached(f, node, dir), d)
  {
    FirstChild(f, dir);
    hide Ends, Siblings;
    var f', kids := Attached(f, node, dir), f[d].kids;
    SiblingsMean(f, d);
    forall i | 0 <= i < |kids|
      ensures kids[i] != node
    {
      KidParent(f, d, i);
    }
    forall i | 0 <= i < |f'[d].kids|
      ensures InPlace(f', d, i)
    {
      if d == dir {
        AttachedInPlace(f, node, dir, i);
      } else {
        assert InPlace(f, d, i);
        KidParent(f, d, i);
      }
    }
    SiblingsAre(f', d);
  }

  lemma SiblingsMean(f: Forest, d: TreeNode)
    requires d in f && Siblings(f, d)
    ensures var kids := f[d].kids;
            && f[d].child == At(kids, 0) && (kids != [] ==> f[d].isDirectory)
            && (forall i, j :: 0 <= i < j < |kids| ==> kids[i] != kids[j])
    ensures forall i :: 0 <= i < |f[d].kids| ==> InPlace(f, d, i)
  {
  }

  lemma SiblingsAre(f: Forest, d: TreeNode)
    requires d in f
    requires var kids := f[d].kids;
             && f[d].child == At(kids, 0) && (kids != [] ==> f[d].isDirectory)
             && (forall i, j :: 0 <= i < j < |kids| ==> kids[i] != kids[j])
    requires forall i :: 0 <= i < |f[d].kids| ==> InPlace(f, d, i)
    ensures Siblings(f, d)
  {
  }

  lemma AttachedInPlace(f: Forest, node: TreeNode, dir: TreeNode, i: nat)
    requires Attachable(f, node, dir) && i <= |f[dir].kids|
    ensures |Attached(f, node, dir)[dir].kids| == |f[dir].kids| + 1 && InPlace(Attached(f, node, dir), dir, i)
  {
    FirstChild(f, dir);
    hide Ends;
    if i > 0 {
      assert InPlace(f, dir, i - 1);
      KidParent(f, dir, i - 1);
      assert i > 1 ==> f[dir].kids[i - 1] != f[dir].kids[0];
    }
  }

  lemma AttachedListed(f: Forest, node: TreeNode, dir: TreeNode, n: TreeNode)
    requires Attachable(f, node, dir) && n in f && Listed(f, n)
    ensures Listed(Attached(f, node, dir), n)
  {
    FirstChild(f, dir);
    hide Ends, Siblings;
    var f' := Attached(f, node, dir);
    assert f'[dir].kids == [node] + f[dir].kids;
  }

  // --- detaching ---

  /** A list without the first occurrence of an element. */
  function Removed(kids: seq<TreeNode>, x: TreeNode): seq<TreeNode> {
    if kids == [] then [] else if kids[0] == x then kids[1..] else [kids[0]] + Removed(kids[1..], x)
  }

  lemma {:induction false} RemovedAt(kids: seq<TreeNode>, j: nat)
    requires j < |kids| && forall i :: 0 <= i < j ==> kids[i] != kids[j]
    ensures Removed(kids, kids[j]) == kids[..j] + kids[j + 1..]
  {
    if j > 0 {
      assert kids[1..][j - 1] == kids[j];
      assert forall i :: 0 <= i < j - 1 ==> kids[1..][i] == kids[i + 1];
      RemovedAt(kids[1..], j - 1);
    }
  }

  /** A node's links after `node` has been taken out of its parent's list. */
  function DetachedAt(f: Forest, node: TreeNode, m: TreeNode): Links
    requires m in f && node in f
  {
    var l, n := f[m], f[node];
    Links(if m == node then null else l.parent,
          if m == n.parent && n.prev == null then n.next else l.child,
          if m == node then null else if m == n.prev then n.next else l.next,
          if m == node then null else if m == n.next then n.prev else l.prev,
          l.isDirectory,
          if m == n.parent then Removed(l.kids, node) else l.kids)
  }

  /** The first half of that: the neighbours point past the node. */
  function BypassedAt(f: Forest, node: TreeNode, m: TreeNode): Links
    requires m in f && node in f
  {
    var l, n := f[m], f[node];
    Links(l.parent,
          if m == n.parent && n.prev == null then n.next else l.child,
          if m == n.prev then n.next else l.next,
          if m == n.next then n.prev else l.prev,
          l.isDirectory, l.kids)
  }

  function Bypassed(f: Forest, node: TreeNode): (f': Forest)
    requires node in f
    ensures f'.Keys == f.Keys && forall m :: m in f ==> f'[m] == BypassedAt(f, node, m)
  {
    map m | m in f :: BypassedAt(f, node, m)
  }

  lemma AttachedIs(f: Forest, node: TreeNode, dir: TreeNode)
    requires node in f && dir in f
    ensures Attached(f, node, dir).Keys == f.Keys
    ensures forall m :: m in f ==> Attached(f, node, dir)[m] == AttachedAt(f, node, dir, m)
  {
  }

  lemma DetachedIs(f: Forest, node: TreeNode)
    requires node in f
    ensures Detached(f, node).Keys == f.Keys
    ensures forall m :: m in f ==> Detached(f, node)[m] == DetachedAt(f, node, m)
  {
  }

  lemma BypassedIs(f: Forest, node: TreeNode)
    requires node in f
    ensures Bypassed(f, node).Keys == f.Keys
    ensures forall m :: m in f ==> Bypassed(f, node)[m] == BypassedAt(f, node, m)
  {
  }

  /** The second half: the node forgets its place, and its parent the node. */
  function ClearedAt(f: Forest, node: TreeNode, m: TreeNode): Links
    requires m in f && node in f
  {
    var l := f[m];
    Links(if m == node then null else l.parent,
          l.child,
          if m == node then null else l.next,
          if m == node then null else l.prev,
          l.isDirectory,
          if m == f[node].parent then Removed(l.kids, node) else l.kids)
  }

  lemma ClearedDetached(f: Forest, node: TreeNode, m: TreeNode)
    requires Attachee(f, node) && m in f
    ensures ClearedAt(Bypassed(f, node), node, m) == DetachedAt(f, node, m)
  {
  }

  function Detached(f: Forest, node: TreeNode): (f': Forest)
    requires node in f
    ensures f'.Keys == f.Keys && forall m :: m in f ==> f'[m] == DetachedAt(f, node, m)
  {
    map m | m in f :: DetachedAt(f, node, m)
  }

  /** A node in the list of its parent. */
  ghost predicate Attachee(f: Forest, node: TreeNode) {
    && node in f && f[node].parent != null && f[node].parent in f && f[node].parent != node
    && Siblings(f, f[node].parent) && node in f[f[node].parent].kids
  }

  /** Where a node stands in its parent's list, and what the list becomes without it. */
  lemma Standing(f: Forest, node: TreeNode) returns (j: nat)
    requires Attachee(f, node)
    ensures var kids := f[f[node].parent].kids;
            && j < |kids| && kids[j] == node && f[node].prev == At(kids, j - 1) && f[node].next == At(kids, j + 1)
            && Removed(kids, node) == kids[..j] + kids[j + 1..]
            && (forall i :: 0 <= i < |kids| && i != j ==> kids[i] != node)
  {
    var p := f[node].parent;
    j :| 0 <= j < |f[p].kids| && f[p].kids[j] == node;
    assert InPlace(f, p, j);
    RemovedAt(f[p].kids, j);
  }

  lemma DetachedSiblings(f: Forest, node: TreeNode, d: TreeNode)
    requires Attachee(f, node) && d in f && Siblings(f, d)
    ensures Siblings(Detached(f, node), d)
  {
    var j := Standing(f, node);
    SiblingsMean(f, d);
    hide Siblings, Removed;
    var f', kids := Detached(f, node), f[d].kids;
    if d == f[node].parent {
      assert f'[d].kids == kids[..j] + kids[j + 1..];
      forall i | 0 <= i < |f'[d].kids|
        ensures InPlace(f', d, i)
      {
        DetachedInPlace(f, node, j, i);
      }
      assert f'[d].child == At(f'[d].kids, 0);
    } else {
      forall i | 0 <= i < |kids|
        ensures InPlace(f', d, i)
      {
        DetachedElsewhere(f, node, j, d, i);
      }
    }
    SiblingsAre(f', d);
  }

  lemma DetachedElsewhere(f: Forest, node: TreeNode, j: nat, d: TreeNode, i: nat)
    requires Attachee(f, node) && d in f && Siblings(f, d) && d != f[node].parent && i < |f[d].kids|
    requires var kids := f[f[node].parent].kids;
             j < |kids| && kids[j] == node && f[node].prev == At(kids, j - 1) && f[node].next == At(kids, j + 1)
    ensures InPlace(Detached(f, node), d, i)
  {
    var p := f[node].parent;
    assert InPlace(f, d, i);
    KidParent(f, d, i);
    if j > 0 {
      KidParent(f, p, j - 1);
    }
    if j + 1 < |f[p].kids| {
      KidParent(f, p, j + 1);
    }
    hide Siblings, Removed;
  }

  lemma DetachedInPlace(f: Forest, node: TreeNode, j: nat, i: nat)
    requires Attachee(f, node)
    requires var kids := f[f[node].parent].kids;
             && j < |kids| && kids[j] == node && f[node].prev == At(kids, j - 1) && f[node].next == At(kids, j + 1)
             && Removed(kids, node) == kids[..j] + kids[j + 1..]
    requires i < |f[f[node].parent].kids| - 1
    ensures |Detached(f, node)[f[node].parent].kids| == |f[f[node].parent].kids| - 1
    ensures InPlace(Detached(f, node), f[node].parent, i)
  {
    var p := f[node].parent;
    var kids := f[p].kids;
    SiblingsMean(f, p);
    hide Siblings, Removed, At;
    var f', i0 := Detached(f, node), if i < j then i else i + 1;
    var x, kids' := kids[i0], kids[..j] + kids[j + 1..];
    assert InPlace(f, p, i0);
    assert f'[p].kids == kids' && kids'[i] == x;
    Around(kids, j, i);
    assert f'[x].prev == At(kids', i - 1);
    assert f'[x].next == At(kids', i + 1);
  }

  /** The neighbours in a list without its j-th element. */
  lemma Around(kids: seq<TreeNode>, j: nat, i: nat)
    requires j < |kids| && i < |kids| - 1 && forall k, l :: 0 <= k < l < |kids| ==> kids[k] != kids[l]
    ensures var kids', i0 := kids[..j] + kids[j + 1..], if i < j then i else i + 1;
            && At(kids', i - 1) == (if i0 == j + 1 then At(kids, j - 1) else At(kids, i0 - 1))
            && At(kids', i + 1) == (if i0 == j - 1 then At(kids, j + 1) else At(kids, i0 + 1))
            && (kids[i0] == At(kids, j + 1) <==> i0 == j + 1) && (kids[i0] == At(kids, j - 1) <==> i0 == j - 1)
            && kids[i0] != kids[j]
  {
  }

  lemma DetachedListed(f: Forest, node: TreeNode, n: TreeNode)
    requires Attachee(f, node) && n in f && Listed(f, n)
    ensures Listed(Detached(f, node), n)
  {
    hide Siblings, Removed, Attachee, InPlace;
    Neighbours(f, node);
    var j := Standing(f, node);
    var f', p := Detached(f, node), f[node].parent;
    var kids := f[p].kids;
    if n == node {
    } else if f[n].parent == null {
      NotNeighbour(f, node, j, n);
    } else if f[n].parent == p {
      LeftIn(kids, j, n);
    }
  }

  lemma LeftIn(kids: seq<TreeNode>, j: nat, n: TreeNode)
    requires j < |kids| && n in kids && n != kids[j]
    ensures n in kids[..j] + kids[j + 1..]
  {
    var i :| 0 <= i < |kids| && kids[i] == n;
    assert (kids[..j] + kids[j + 1..])[if i < j then i else i - 1] == n;
  }

  lemma NotNeighbour(f: Forest, node: TreeNode, j: nat, n: TreeNode)
    requires Attachee(f, node) && n in f && f[n].parent == null
    requires var kids := f[f[node].parent].kids;
             j < |kids| && f[node].prev == At(kids, j - 1) && f[node].next == At(kids, j + 1)
    ensures n != f[node].prev && n != f[node].next
  {
    var p := f[node].parent;
    if j > 0 {
      KidParent(f, p, j - 1);
    }
    if j + 1 < |f[p].kids| {
      KidParent(f, p, j + 1);
    }
  }

  /** Chains of parents that do not pass the changed node are what they were. */
  lemma {:induction false} UpElsewhere(f: Forest, f': Forest, node: TreeNode, n: TreeNode?, k: nat)
    requires f'.Keys == f.Keys && forall m :: m in f && m != node ==> f'[m].parent == f[m].parent
    requires forall j: nat :: j < k ==> Up(f, n, j) != node
    ensures Up(f', n, k) == Up(f, n, k)
    decreases k
  {
    if k > 0 && n != null && n in f {
      assert Up(f, n, 0) != node;
      forall j: nat | j < k - 1
        ensures Up(f, f[n].parent, j) != node
      {
        ChainUp(f, n, j);
        assert Up(f, n, j + 1) != node;
      }
      UpElsewhere(f, f', node, f[n].parent, k - 1);
    }
  }

  /** Giving a node a parent that is not below it keeps every chain finite. */
  lemma {:induction false} EndsStill(f: Forest, f': Forest, node: TreeNode, n: TreeNode?, k: nat)
    requires f'.Keys == f.Keys && forall m :: m in f && m != node ==> f'[m].parent == f[m].parent
    requires node in f && Ends(f', node)
    requires Up(f, n, k) == null
    ensures Ends(f', n)
    decreases k
  {
    if n == null || n !in f {
      NothingAbove(f', n, 1);
      assert Up(f', n, 1) == null;
    } else if n != node {
      if k == 0 {
        assert false;
      }
      EndsStill(f, f', node, f[n].parent, k - 1);
      var j: nat :| Up(f', f[n].parent, j) == null;
      ChainUp(f', n, j);
    }
  }

  // --- the tree kept ---

  lemma DetachedEnds(f: Forest, f': Forest, node: TreeNode, n: TreeNode)
    requires f'.Keys == f.Keys && forall m :: m in f && m != node ==> f'[m].parent == f[m].parent
    requires node in f && f'[node].parent == null && n in f && Ends(f, n)
    ensures Ends(f', n)
  {
    ChainUp(f', node, 0);
    assert Up(f', node, 1) == null;
    var k: nat :| Up(f, n, k) == null;
    EndsStill(f, f', node, n, k);
  }

  lemma MovedEnds(f: Forest, f': Forest, node: TreeNode, dir: TreeNode, n: TreeNode)
    requires f'.Keys == f.Keys && forall m :: m in f && m != node ==> f'[m].parent == f[m].parent
    requires node in f && f'[node].parent == dir && dir in f && Ends(f, dir) && n in f && Ends(f, n)
    requires !Above(f, node, dir)
    ensures Ends(f', n)
  {
    var j: nat :| Up(f, dir, j) == null;
    UpElsewhere(f, f', node, dir, j);
    ChainUp(f', node, j);
    assert Up(f', node, j + 1) == null;
    var k: nat :| Up(f, n, k) == null;
    EndsStill(f, f', node, n, k);
  }

  lemma TreeKid(f: Forest, root: TreeNode, n: TreeNode)
    requires Tree(f, root) && n in f
    ensures Siblings(f, n) && Listed(f, n) && Ends(f, n)
    ensures f[n].parent != null ==> Attachee(f, n)
  {
    if f[n].parent != null {
      NotOwnParent(f, n);
    }
  }

  /** A directory that is part of the tree. */
  predicate Reached(f: Forest, root: TreeNode, dir: TreeNode) {
    dir in f && f[dir].isDirectory && (dir == root || f[dir].parent != null)
  }

  /** Taking a node without children out of its list keeps the tree. */
  lemma TreeDetached(f: Forest, root: TreeNode, node: TreeNode)
    requires Tree(f, root) && node in f && f[node].parent != null && f[node].kids == []
    ensures Tree(Detached(f, node), root)
  {
    hide Ends, Siblings, Listed, Removed;
    TreeKid(f, root, node);
    var f' := Detached(f, node);
    forall n | n in f'
      ensures Siblings(f', n) && Listed(f', n) && Ends(f', n)
    {
      TreeKid(f, root, n);
      DetachedSiblings(f, node, n);
      DetachedListed(f, node, n);
      DetachedEnds(f, f', node, n);
    }
    hide Tree;
    TreeHas(f, root);
    KidsLeft(f, root, node);
    TreeIs(f', root);
  }

  lemma TreeHas(f: Forest, root: TreeNode)
    requires Tree(f, root)
    ensures root in f && f[root].parent == null && f[root].isDirectory
    ensures forall n :: n in f && f[n].parent == null && n != root ==> f[n].kids == []
  {
  }

  lemma TreeIs(f: Forest, root: TreeNode)
    requires root in f && f[root].parent == null && f[root].isDirectory
    requires forall n :: n in f ==> Siblings(f, n) && Listed(f, n) && Ends(f, n)
    requires forall n :: n in f && f[n].parent == null && n != root ==> f[n].kids == []
    ensures Tree(f, root)
  {
  }

  lemma KidsLeft(f: Forest, root: TreeNode, node: TreeNode)
    requires Tree(f, root) && node in f && f[node].parent != null && Attachee(f, node)
    ensures f[node].parent == root || f[f[node].parent].parent != null
  {
    assert f[f[node].parent].kids != [];
  }

  /** Putting a node that is in no list, and not above `dir`, among its children keeps the tree. */
  lemma TreeAttached(f: Forest, root: TreeNode, node: TreeNode, dir: TreeNode)
    requires Tree(f, root) && node in f && f[node].parent == null && Reached(f, root, dir) && !Above(f, node, dir)
    ensures Tree(Attached(f, node, dir), root)
  {
    hide Ends, Siblings, Listed, Above;
    TreeKid(f, root, node);
    TreeKid(f, root, dir);
    NotAboveItself(f, node, dir);
    RootNotMoved(f, root, node, dir);
    var f' := Attached(f, node, dir);
    forall n | n in f'
      ensures Siblings(f', n) && Listed(f', n) && Ends(f', n)
    {
      TreeKid(f, root, n);
      AttachedSiblings(f, node, dir, n);
      AttachedListed(f, node, dir, n);
      MovedEnds(f, f', node, dir, n);
    }
    hide Tree;
    TreeHas(f, root);
    TreeIs(f', root);
  }

  lemma NotAboveItself(f: Forest, node: TreeNode, dir: TreeNode)
    requires !Above(f, node, dir)
    ensures node != dir
  {
    assert Up(f, dir, 0) == dir;
  }

  /** The root is above every directory of the tree, so it is never moved. */
  lemma RootNotMoved(f: Forest, root: TreeNode, node: TreeNode, dir: TreeNode)
    requires Tree(f, root) && Reached(f, root, dir) && !Above(f, node, dir)
    ensures node != root
  {
    if dir == root {
      assert Up(f, dir, 0) == root;
    } else {
      var k: nat :| Up(f, dir, k) == null;
      RootAbove(f, root, dir, k);
    }
  }

  /** Moving a node, with all that is below it, to a directory that is not below it keeps the tree. */
  lemma TreeMoved(f: Forest, root: TreeNode, node: TreeNode, dir: TreeNode)
    requires Tree(f, root) && node in f && f[node].parent != null && Reached(f, root, dir) && !Above(f, node, dir)
    ensures Tree(Attached(Detached(f, node), node, dir), root)
  {
    hide Ends, Siblings, Listed, Above, Removed;
    TreeKid(f, root, node);
    NotAboveItself(f, node, dir);
    RootNotMoved(f, root, node, dir);
    var f1 := Detached(f, node);
    var f2 := Attached(f1, node, dir);
    MoveReady(f, root, node, dir);
    forall n | n in f2
      ensures Siblings(f2, n) && Listed(f2, n) && Ends(f2, n)
    {
      TreeKid(f, root, n);
      TreeKid(f, root, dir);
      DetachedSiblings(f, node, n);
      DetachedListed(f, node, n);
      AttachedSiblings(f1, node, dir, n);
      AttachedListed(f1, node, dir, n);
      MovedEnds(f, f2, node, dir, n);
    }
    hide Tree;
    TreeHas(f, root);
    KidsLeft(f, root, node);
    TreeIs(f2, root);
  }

  lemma MoveReady(f: Forest, root: TreeNode, node: TreeNode, dir: TreeNode)
    requires Tree(f, root) && node in f && f[node].parent != null && Reached(f, root, dir) && node != dir
    ensures Attachable(Detached(f, node), node, dir)
  {
    hide Ends, Siblings, Listed, Removed;
    TreeKid(f, root, node);
    TreeKid(f, root, dir);
    DetachedSiblings(f, node, dir);
    DetachedListed(f, node, node);
    DetachedEnds(f, Detached(f, node), node, dir);
  }

  /** Whoever is above another node has children. */
  lemma AboveHasKids(f: Forest, root: TreeNode, a: TreeNode, n: TreeNode, k: nat)
    requires Tree(f, root) && a in f && n in f && k > 0 && Up(f, n, k) == a
    ensures f[a].kids != []
  {
    UpTwice(f, n, k - 1, 1);
    var b := Up(f, n, k - 1);
    if b != null && b in f {
      assert Listed(f, b);
    }
  }

  /** Only directories are above others. */
  lemma AboveIsDirectory(f: Forest, root: TreeNode, a: TreeNode, n: TreeNode, k: nat)
    requires Tree(f, root) && a in f && n in f && f[n].isDirectory && Up(f, n, k) == a
    ensures f[a].isDirectory
  {
    if k > 0 {
      AboveHasKids(f, root, a, n, k);
      assert Siblings(f, a);
    }
  }

  datatype Code = Ok | Invalid | IsADirectory | NotADirectory | NotEmpty | NoRoom

  /** All nodes in core. */
  class NodeTree {
    const root: TreeNode
    ghost var nodes: set<TreeNode>

    constructor ()
      ensures Valid() && nodes == {root} && fresh(root)
    {
      var r := new TreeNode(true);
      root := r;
      nodes := {r};
      new;
      assert Up(Snapshot(), root, 1) == null;
    }

    ghost function Snapshot(): Forest
      reads this, nodes
    {
      map n | n in nodes :: n.Pointers()
    }

    ghost predicate Valid()
      reads this, nodes
    {
      Tree(Snapshot(), root)
    }

    /** Puts a node in front of the children of a directory. */
    method TreeAttach(dir: TreeNode, node: TreeNode)
      requires Attachable(Snapshot(), node, dir)
      modifies nodes
      ensures Snapshot() == Attached(old(Snapshot()), node, dir)
    {
      hide Ends, Siblings, Listed, Attached;
      ghost var f := Snapshot();
      AttachedIs(f, node, dir);
      FirstChild(f, dir);
      node.parent := dir;
      if dir.child != null {
        dir.child.prev := node;
        node.next := dir.child;
      }
      dir.child := node;
      dir.kids := [node] + dir.kids;
      forall m | m in nodes
        ensures m.Pointers() == AttachedAt(f, node, dir, m)
      {
        assert f[m] == old(m.Pointers());
      }
      SnapshotIs(Attached(f, node, dir));
    }

    /** Links the neighbours of a node, or its parent and its next neighbour, past it. */
    method Bypass(node: TreeNode)
      requires Attachee(Snapshot(), node)
      modifies nodes
      ensures Snapshot() == Bypassed(old(Snapshot()), node)
    {
      hide Siblings, Removed, Attachee, Bypassed;
      ghost var f := Snapshot();
      Neighbours(f, node);
      BypassedIs(f, node);
      if node.prev != null {
        node.prev.next := node.next;
      } else {
        node.parent.child := node.next;
      }
      if node.next != null {
        node.next.prev := node.prev;
      }
      forall m | m in nodes
        ensures m.Pointers() == BypassedAt(f, node, m)
      {
        assert f[m] == old(m.Pointers());
      }
      SnapshotIs(Bypassed(f, node));
    }

    /** The node forgets its parent and its neighbours, and the parent forgets the node. */
    method Forget(node: TreeNode)
      requires node in nodes && node.parent != null && node.parent in nodes && node.parent != node
      modifies nodes
      ensures Snapshot().Keys == old(Snapshot()).Keys && node in old(Snapshot())
      ensures forall m :: m in nodes ==> m.Pointers() == ClearedAt(old(Snapshot()), node, m)
    {
      hide Removed;
      ghost var f := Snapshot();
      ghost var p := node.parent;
      node.parent := null;
      node.prev := null;
      node.next := null;
      p.kids := Removed(p.kids, node);
      forall m | m in nodes
        ensures m.Pointers() == ClearedAt(f, node, m)
      {
        assert f[m] == old(m.Pointers());
      }
    }

    /** Takes a node out of the list of its parent. */
    method TreeDetach(node: TreeNode)
      requires Attachee(Snapshot(), node)
      modifies nodes
      ensures Snapshot() == Detached(old(Snapshot()), node)
    {
      hide Siblings, Removed, Attachee, Bypassed, Detached;
      ghost var f := Snapshot();
      Neighbours(f, node);
      BypassedIs(f, node);
      DetachedIs(f, node);
      Bypass(node);
      PointersAre(node);
      Forget(node);
      forall m | m in nodes
        ensures m.Pointers() == DetachedAt(f, node, m)
      {
        ClearedDetached(f, node, m);
      }
      SnapshotIs(Detached(f, node));
    }

    /** Makes a node without children the first child of a directory. */
    method Create(dir: TreeNode, isDirectory: bool) returns (node: TreeNode)
      requires Valid() && Reached(Snapshot(), root, dir)
      modifies this, nodes
      ensures Valid() && fresh(node) && nodes == old(nodes) + {node} && node.isDirectory == isDirectory
      ensures Snapshot() == Attached(old(Snapshot())[node := Links(null, null, null, null, isDirectory, [])], node, dir)
    {
      hide Tree, Siblings, Listed, Ends, Above, Reached, Attached;
      ghost var f := Snapshot();
      node := new TreeNode(isDirectory);
      nodes := nodes + {node};
      assert Snapshot() == f[node := node.Pointers()];
      TreeWithNew(f, root, node, node.Pointers(), dir);
      TreeAttached(Snapshot(), root, node, dir);
      AttachReady(Snapshot(), root, node, dir);
      TreeAttach(dir, node);
    }

    /** Takes a file out of the tree. */
    method Unlink(node: TreeNode) returns (code: Code)
      requires Valid() && node in nodes && node.parent != null
      modifies nodes
      ensures code == if node.isDirectory then IsADirectory else Ok
      ensures Valid() && Snapshot() == if code == Ok then Detached(old(Snapshot()), node) else old(Snapshot())
    {
      hide Tree, Siblings, Listed, Ends, Attachee, Detached;
      PointersAre(node);
      if node.isDirectory {
        return IsADirectory;
      }
      TreeKid(Snapshot(), root, node);
      FileHasNone(Snapshot(), node);
      TreeDetached(Snapshot(), root, node);
      TreeDetach(node);
      code := Ok;
    }

    /** Takes an empty directory out of the tree. */
    method Rmdir(node: TreeNode) returns (code: Code)
      requires Valid() && node in nodes && node.parent != null
      modifies nodes
      ensures code == if !node.isDirectory then NotADirectory else if old(node.kids) != [] then NotEmpty else Ok
      ensures Valid() && Snapshot() == if code == Ok then Detached(old(Snapshot()), node) else old(Snapshot())
    {
      hide Tree, Siblings, Listed, Ends, Attachee, Detached;
      PointersAre(node);
      TreeKid(Snapshot(), root, node);
      NoChild(Snapshot(), node);
      if !node.isDirectory {
        return NotADirectory;
      }
      if node.child != null {
        return NotEmpty;
      }
      TreeDetached(Snapshot(), root, node);
      TreeDetach(node);
      code := Ok;
    }

    /** Removes what is in the way of a renamed node, if that is allowed. */
    method MakeWay(node: TreeNode, existing: TreeNode) returns (code: Code)
      requires Valid() && node in nodes && existing in nodes && existing.parent != null
      modifies nodes
      ensures code == WayCode(old(Snapshot()), node, existing)
      ensures Valid() && Snapshot() == if code == Ok then Detached(old(Snapshot()), existing) else old(Snapshot())
    {
      hide Tree, Siblings, Listed, Ends, Attachee, Detached;
      PointersAre(existing);
      TreeKid(Snapshot(), root, existing);
      if existing.isDirectory {
        if node.isDirectory {
          code := Rmdir(existing);
        } else {
          code := NotADirectory;
        }
      } else {
        FileHasNone(Snapshot(), existing);
        if !node.isDirectory {
          code := Unlink(existing);
        } else {
          code := IsADirectory;
        }
      }
    }

    /** The part of a rename that concerns the tree; `room` tells whether a slot for the new entries is found. */
    method Rename(node: TreeNode, dir: TreeNode, existing: TreeNode?, room: bool) returns (code: Code)
      requires Valid() && node in nodes && (node == root || node.parent != null) && Reached(Snapshot(), root, dir)
      requires existing != null ==> existing in nodes && existing.parent == dir
      modifies nodes
      ensures Valid()
      ensures code == RenameCode(old(Snapshot()), node, dir, existing, room)
      ensures Snapshot() == Renamed(old(Snapshot()), node, dir, existing, code)
    {
      hide Tree, Siblings, Listed, Ends, Above, Attachee, Detached, Attached, Reached, Attachable, NodeTree.Snapshot;
      ghost var f := Snapshot();
      KnownNodes();
      ReachedIn(f, root, dir);
      PointersAre(node);
      if node.isDirectory {
        var above := IsAbove(node, dir);
        if above {
          return Invalid;
        }
      } else {
        FileNotAbove(f, root, node, dir);
      }
      RootNotMoved(f, root, node, dir);
      if existing != null && existing != node {
        PointersAre(existing);
        code := MakeWay(node, existing);
        if code != Ok {
          return;
        }
        StillFree(f, root, existing, node, dir);
      }
      if !room {
        return NoRoom;
      }
      PointersAre(node);
      Move(node, dir);
      code := Ok;
    }

    /** Takes a node out of the list of its parent and puts it in front of another directory's. */
    method Move(node: TreeNode, dir: TreeNode)
      requires Valid() && node in nodes && node.parent != null && Reached(Snapshot(), root, dir)
      requires !Above(Snapshot(), node, dir)
      modifies nodes
      ensures Valid() && node in old(Snapshot()) && dir in Detached(old(Snapshot()), node)
      ensures Snapshot() == Attached(Detached(old(Snapshot()), node), node, dir)
    {
      hide Tree, Siblings, Listed, Ends, Above, Attachee, Detached, Attached, Reached, Attachable, NodeTree.Snapshot;
      ghost var f := Snapshot();
      KnownNodes();
      PointersAre(node);
      TreeKid(f, root, node);
      TreeMoved(f, root, node, dir);
      NotAboveItself(f, node, dir);
      MoveReady(f, root, node, dir);
      ReachedIn(f, root, dir);
      TreeDetach(node);
      KnownNodes();
      TreeAttach(dir, node);
    }

    lemma SnapshotIs(f: Forest)
      requires f.Keys == nodes && forall m :: m in nodes ==> m.Pointers() == f[m]
      ensures Snapshot() == f
    {
    }

    lemma KnownNodes()
      ensures Snapshot().Keys == nodes
    {
    }

    lemma PointersAre(n: TreeNode)
      requires n in nodes
      ensures n in Snapshot() && Snapshot()[n] == n.Pointers()
    {
    }

    /** Whether `node` is the directory `dir` or above it. */
    method IsAbove(node: TreeNode, dir: TreeNode) returns (above: bool)
      requires Valid() && dir in nodes
      ensures above <==> Above(Snapshot(), node, dir)
    {
      hide Tree, Siblings, Listed, Ends, Above, Up;
      ghost var f := Snapshot();
      ghost var end := EndOf(f, root, dir);
      var p: TreeNode? := dir;
      ghost var k: nat := 0;
      UpNone(f, dir);
      while p != null
        invariant k <= end && p == Up(f, dir, k)
        invariant forall i: nat :: i < k ==> Up(f, dir, i) != node
        invariant p != null ==> p in nodes
        decreases end - k
      {
        if node == p {
          AboveAt(f, node, dir, k);
          return true;
        }
        UpNext(f, root, dir, k, end);
        p := p.parent;
        k := k + 1;
      }
      NotAbove(f, node, dir, k);
      return false;
    }
  }

  /** Whether what is in the way of a renamed node can be removed: both are files, or both are directories and it is
      empty. */
  function WayCode(f: Forest, node: TreeNode, existing: TreeNode): Code
    requires existing in f
  {
    if existing.isDirectory != node.isDirectory then (if existing.isDirectory then NotADirectory else IsADirectory)
    else if f[existing].kids != [] then NotEmpty else Ok
  }

  /** How a rename ends. */
  ghost function RenameCode(f: Forest, node: TreeNode, dir: TreeNode, existing: TreeNode?, room: bool): Code
    requires existing != null ==> existing in f
  {
    if node.isDirectory && Above(f, node, dir) then Invalid
    else if existing != null && existing != node && WayCode(f, node, existing) != Ok then WayCode(f, node, existing)
    else if room then Ok else NoRoom
  }

  /** What a rename leaves: nothing changed if it was refused; without room, only what was in the way is gone;
      otherwise the node is the first child of its new directory. */
  function Renamed(f: Forest, node: TreeNode, dir: TreeNode, existing: TreeNode?, code: Code): Forest
    requires node in f && dir in f && (existing != null ==> existing in f)
  {
    var cleared := if existing != null && existing != node then Detached(f, existing) else f;
    if code == Ok then Attached(Detached(cleared, node), node, dir)
    else if code == NoRoom then cleared
    else f
  }

  lemma ReachedIn(f: Forest, root: TreeNode, dir: TreeNode)
    requires Reached(f, root, dir)
    ensures dir in f
  {
  }

  lemma FileHasNone(f: Forest, n: TreeNode)
    requires n in f && Siblings(f, n) && !f[n].isDirectory
    ensures f[n].kids == []
  {
  }

  lemma NoChild(f: Forest, n: TreeNode)
    requires n in f && Siblings(f, n)
    ensures f[n].child == null <==> f[n].kids == []
  {
  }

  lemma FileNotAbove(f: Forest, root: TreeNode, node: TreeNode, dir: TreeNode)
    requires Tree(f, root) && node in f && !f[node].isDirectory && Reached(f, root, dir)
    ensures !Above(f, node, dir)
  {
    if Above(f, node, dir) {
      var k: nat :| Up(f, dir, k) == node;
      AboveIsDirectory(f, root, node, dir, k);
    }
  }

  /** Removing a node without children that is not `dir` changes nothing above `dir`. */
  lemma StillFree(f: Forest, root: TreeNode, gone: TreeNode, node: TreeNode, dir: TreeNode)
    requires Tree(f, root) && gone in f && f[gone].parent == dir && f[gone].kids == [] && gone != node
    requires node in f
    requires Reached(f, root, dir) && !Above(f, node, dir)
    ensures Reached(Detached(f, gone), root, dir) && !Above(Detached(f, gone), node, dir)
    ensures node in Detached(f, gone) && Detached(f, gone)[node].parent == f[node].parent
  {
    hide Siblings, Ends, Removed;
    TreeKid(f, root, gone);
    var f' := Detached(f, gone);
    forall k: nat
      ensures Up(f', dir, k) != node
    {
      forall j: nat | j < k
        ensures Up(f, dir, j) != gone
      {
        if Up(f, dir, j) == gone {
          ChildlessNotAbove(f, root, gone, dir, j);
        }
      }
      UpElsewhere(f, f', gone, dir, k);
      assert Up(f, dir, k) == node ==> Above(f, node, dir);
    }
  }

  lemma ChildlessNotAbove(f: Forest, root: TreeNode, a: TreeNode, n: TreeNode, k: nat)
    requires Tree(f, root) && a in f && n in f && f[a].kids == [] && Up(f, n, k) == a
    ensures a == n
  {
    if k > 0 {
      AboveHasKids(f, root, a, n, k);
    }
  }

  /** A new node in no list leaves the tree a tree, and can be attached anywhere in it. */
  lemma TreeWithNew(f: Forest, root: TreeNode, node: TreeNode, l: Links, dir: TreeNode)
    requires Tree(f, root) && node !in f && Reached(f, root, dir)
    requires l == Links(null, null, null, null, l.isDirectory, [])
    ensures var f' := f[node := l]; Tree(f', root) && Reached(f', root, dir) && !Above(f', node, dir)
  {
    hide Ends, Above, Siblings;
    var f' := f[node := l];
    forall n | n in f
      ensures Siblings(f', n) && Listed(f', n) && Ends(f', n) && !Above(f', node, n)
    {
      TreeKid(f, root, n);
      NewSiblings(f, f', node, n);
      NewEnds(f, root, f', node, n);
    }
    NewAlone(f', node);
    hide Tree, Siblings, Listed;
    TreeHas(f, root);
    TreeIs(f', root);
  }

  lemma NewSiblings(f: Forest, f': Forest, node: TreeNode, n: TreeNode)
    requires node !in f && n in f && Siblings(f, n) && f'.Keys == f.Keys + {node}
    requires forall m :: m in f ==> f'[m] == f[m]
    ensures Siblings(f', n)
  {
    forall i | 0 <= i < |f'[n].kids|
      ensures InPlace(f', n, i)
    {
      assert InPlace(f, n, i);
    }
  }

  lemma NewAlone(f: Forest, n: TreeNode)
    requires n in f && f[n].parent == null && f[n].child == null && f[n].next == null && f[n].prev == null
    requires f[n].kids == []
    ensures Siblings(f, n) && Listed(f, n) && Ends(f, n)
  {
    ChainUp(f, n, 0);
    assert Up(f, n, 1) == null;
  }

  lemma NewEnds(f: Forest, root: TreeNode, f': Forest, node: TreeNode, n: TreeNode)
    requires Tree(f, root) && node !in f && n in f && f'.Keys == f.Keys + {node}
    requires forall m :: m in f ==> f'[m] == f[m]
    ensures Ends(f', n) && !Above(f', node, n)
  {
    hide Siblings;
    forall k: nat
      ensures Up(f', n, k) == Up(f, n, k) && Up(f', n, k) != node
    {
      UpInside(f, root, f', node, n, k);
    }
    var end := EndOf(f, root, n);
    assert Up(f', n, end) == null;
  }

  lemma {:induction false} UpInside(f: Forest, root: TreeNode, f': Forest, node: TreeNode, n: TreeNode?, k: nat)
    requires Tree(f, root) && node !in f && (n == null || n in f) && f'.Keys == f.Keys + {node}
    requires forall m :: m in f ==> f'[m] == f[m]
    ensures Up(f', n, k) == Up(f, n, k) && Up(f', n, k) != node
    decreases k
  {
    hide Siblings, Ends;
    if n != null {
      assert Listed(f, n);
      if k > 0 {
        UpInside(f, root, f', node, f[n].parent, k - 1);
      }
    }
  }

  lemma AttachReady(f: Forest, root: TreeNode, node: TreeNode, dir: TreeNode)
    requires Tree(f, root) && node in f && f[node].parent == null && Reached(f, root, dir) && !Above(f, node, dir)
    ensures Attachable(f, node, dir)
  {
    hide Siblings, Listed, Ends, Above;
    TreeKid(f, root, node);
    TreeKid(f, root, dir);
    NotAboveItself(f, node, dir);
  }

  lemma EndOf(f: Forest, root: TreeNode, n: TreeNode) returns (end: nat)
    requires Tree(f, root) && n in f
    ensures Up(f, n, end) == null
  {
    assert Ends(f, n);
    end :| Up(f, n, end) == null;
  }

  lemma UpNone(f: Forest, n: TreeNode)
    ensures Up(f, n, 0) == n
  {
  }

  lemma UpNext(f: Forest, root: TreeNode, n: TreeNode, k: nat, end: nat)
    requires Tree(f, root) && n in f && Up(f, n, k) != null && Up(f, n, k) in f && Up(f, n, end) == null && k <= end
    ensures k < end && Up(f, n, k + 1) == f[Up(f, n, k)].parent
    ensures Up(f, n, k + 1) != null ==> Up(f, n, k + 1) in f
  {
    hide Ends, Siblings;
    UpTwice(f, n, k, 1);
    var m := Up(f, n, k);
    ChainUp(f, m, 0);
    assert Listed(f, m);
  }

  lemma AboveAt(f: Forest, a: TreeNode, n: TreeNode, k: nat)
    requires Up(f, n, k) == a
    ensures Above(f, a, n)
  {
  }

  lemma NotAbove(f: Forest, a: TreeNode, n: TreeNode, k: nat)
    requires Up(f, n, k) == null && forall i: nat :: i < k ==> Up(f, n, i) != a
    ensures !Above(f, a, n)
  {
    forall i: nat
      ensures Up(f, n, i) != a
    {
      if i >= k {
        UpTwice(f, n, k, i - k);
        NothingAbove(f, null, i - k);
      }
    }
  }

  lemma Neighbours(f: Forest, node: TreeNode)
    requires Attachee(f, node)
    ensures node in f && f[node].parent != null && f[node].parent in f && f[node].parent != node
    ensures f[node].prev != null ==> f[node].prev in f && f[node].prev != node
    ensures f[node].next != null ==> f[node].next in f && f[node].next != node
  {
    var j := Standing(f, node);
    var p := f[node].parent;
    if j > 0 {
      KidParent(f, p, j - 1);
    }
    if j + 1 < |f[p].kids| {
      KidParent(f, p, j + 1);
    }
  }
}
