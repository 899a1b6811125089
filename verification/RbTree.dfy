/** Red-black trees with parent pointers, rewritten in place.

    Each node carries ghost coordinates: its place in the in-order sequence, the interval of
    places its subtree covers, and its black height. They make every invariant local to a
    node and its neighbours. */
module RbTree {

  /** A tree node. It is embedded in the object it orders; the two fields of that object
      that the timers use are kept beside the links. */
  class Node {
    var left: Node?
    var right: Node?
    var parent: Node?
    var red: bool

    var timeout: int
    var active: bool

    ghost var pos: int
    ghost var lo: int
    ghost var hi: int
    ghost var bh: int

    constructor ()
      ensures !active
    {
      active := false;
    }
  }

  ghost function Bh(n: Node?): int
    reads (if n == null then {} else {n})`bh
  {
    if n == null then 0 else n.bh
  }

  predicate IsRed(n: Node?)
    reads (if n == null then {} else {n})`red
  {
    n != null && n.red
  }

  class Tree {
    var root: Node?

    // the nodes in the tree, and their in-order sequence
    ghost var nodes: set<Node>
    ghost var order: seq<Node>

    constructor ()
      ensures Valid() && nodes == {} && order == []
    {
      root := null;
      nodes, order := {}, [];
    }

    // ---------------------------------------------------------------- structure

    ghost predicate Placed(n: Node)
      reads this, nodes`pos, nodes`lo, nodes`hi
    {
      n in nodes && 0 <= n.lo <= n.pos < n.hi <= |order| && order[n.pos] == n
    }

    /** The left child covers the places before n. */
    ghost predicate LinkedLeft(n: Node)
      reads this, nodes`left, nodes`parent, nodes`pos, nodes`lo, nodes`hi
    {
      && n in nodes
      && (n.left == null ==> n.lo == n.pos)
      && (n.left != null ==>
            n.left in nodes && n.left.parent == n && n.left.lo == n.lo && n.left.hi == n.pos)
    }

    /** The right child covers the places after n. */
    ghost predicate LinkedRight(n: Node)
      reads this, nodes`right, nodes`parent, nodes`pos, nodes`lo, nodes`hi
    {
      && n in nodes
      && (n.right == null ==> n.hi == n.pos + 1)
      && (n.right != null ==>
            n.right in nodes && n.right.parent == n && n.right.lo == n.pos + 1 && n.right.hi == n.hi)
    }

    ghost predicate LinkedUp(n: Node)
      reads this, nodes`left, nodes`right, nodes`parent, nodes`lo, nodes`hi
    {
      && n in nodes
      && (n.parent == null ==> n == root && n.lo == 0 && n.hi == |order|)
      && (n.parent != null ==> n.parent in nodes && (n.parent.left == n || n.parent.right == n))
    }

    ghost predicate Linked(n: Node)
      reads this, nodes`left, nodes`right, nodes`parent, nodes`pos, nodes`lo, nodes`hi
    {
      Placed(n) && LinkedLeft(n) && LinkedRight(n) && LinkedUp(n)
    }

    ghost predicate AllLinked(s: set<Node>)
      reads this, nodes`left, nodes`right, nodes`parent, nodes`pos, nodes`lo, nodes`hi
    {
      forall n {:trigger Linked(n)} :: n in s ==> Linked(n)
    }

    /** The nodes form one tree whose in-order sequence is `order`. */
    ghost predicate Structure()
      reads this, nodes`left, nodes`right, nodes`parent, nodes`pos, nodes`lo, nodes`hi
    {
      && (root == null ==> order == [])
      && (root != null ==> root in nodes && root.parent == null)
      && (forall i :: 0 <= i < |order| ==> order[i] in nodes && order[i].pos == i)
      && AllLinked(nodes)
    }

    /** The nodes around a node in a well-linked tree are different nodes. */
    lemma Neighbours(n: Node)
      requires Structure() && n in nodes
      ensures Linked(n)
      ensures n.parent != null ==> n.parent in nodes && Linked(n.parent) && n.parent != n
      ensures n.left != null ==> Linked(n.left) && n.left != n && n.left != n.parent
      ensures n.right != null ==> Linked(n.right) && n.right != n && n.right != n.parent && n.right != n.left
    {
      assert Linked(n);
      if n.parent != null { assert Linked(n.parent); }
      if n.left != null { assert Linked(n.left); }
      if n.right != null { assert Linked(n.right); }
    }

    // ---------------------------------------------------------------- rotation

    /** Node's right child takes node's place and node becomes its left child. */
    method RotateLeft(node: Node)
      requires Structure() && node in nodes && node.right != null
      modifies this`root, nodes`left, nodes`right, nodes`parent, nodes`lo, nodes`hi
      ensures RotatedLeft(node)
      ensures Structure()
    {
      Neighbours(node);
      Neighbours(node.right);
      RelinkLeft(node);
      assert MovedLeft(node, root);
      LinkedAfterLeft(node);
    }

    method RelinkLeft(node: Node)
      requires node in nodes && node.right != null && node.right in nodes && node.right != node
      requires node.parent != null ==> node.parent in nodes && node.parent != node && node.parent != node.right
      requires node.right.left != null ==> node.right.left in nodes && node.right.left != node.right
      modifies this`root, nodes`left, nodes`right, nodes`parent, nodes`lo, nodes`hi
      ensures RotatedLeft(node)
    {
      var right, parent := node.right, node.parent;
      node.right := right.left;
      if right.left != null {
        right.left.parent := node;
      }
      right.left := node;
      right.parent := parent;
      if parent != null {
        if node == parent.left {
          parent.left := right;
        } else {
          parent.right := right;
        }
      } else {
        root := right;
      }
      node.parent := right;
      node.hi, right.lo := right.pos, node.lo;
    }

    /** What rotating node to the left does to the tree, and to each node n. */
    twostate predicate RotatedLeft(node: Node)
      reads this, nodes
    {
      && node in old(nodes) && old(node.right) != null
      && nodes == old(nodes) && order == old(order)
      && root == (if old(node.parent) == null then old(node.right) else old(root))
      && (forall n {:trigger MovedLeft(node, n)} :: n in nodes ==> MovedLeft(node, n))
    }

    twostate predicate MovedLeft(node: Node, new n: Node)
      requires node in old(nodes) && n in old(nodes) && old(node.right) != null
      reads n
    {
      var right, parent, middle := old(node.right), old(node.parent), old(node.right.left);
      && n.left == (if n == right then node
                    else if n == parent && old(n.left) == node then right else old(n.left))
      && n.right == (if n == node then middle
                     else if n == parent && old(n.left) != node then right else old(n.right))
      && n.parent == (if n == node then right else if n == right then parent
                      else if n == middle then node else old(n.parent))
      && n.pos == old(n.pos)
      && n.lo == (if n == right then old(node.lo) else old(n.lo))
      && n.hi == (if n == node then old(right.pos) else old(n.hi))
    }

    twostate lemma LinkedAfterLeft(node: Node)
      requires old(Structure()) && RotatedLeft(node)
      ensures AllLinked(nodes)
    {
      forall n {:trigger Linked(n)} | n in nodes
        ensures Linked(n)
      {
        DownAfterLeft(node, n);
        UpAfterLeft(node, n);
      }
    }

    twostate lemma DownAfterLeft(node: Node, new n: Node)
      requires old(Structure()) && RotatedLeft(node) && n in nodes
      ensures Placed(n) && LinkedLeft(n) && LinkedRight(n)
    {
      var right := old(node.right);
      assert old(Linked(node)) && old(Linked(right)) && old(Linked(n));
      assert MovedLeft(node, n);
      if old(n.left) != null { assert old(Linked(n.left)) && MovedLeft(node, old(n.left)); }
      if old(n.right) != null { assert old(Linked(n.right)) && MovedLeft(node, old(n.right)); }
      assert MovedLeft(node, node) && MovedLeft(node, right);
      if old(right.left) != null { assert old(Linked(right.left)) && MovedLeft(node, old(right.left)); }
    }

    twostate lemma UpAfterLeft(node: Node, new n: Node)
      requires old(Structure()) && RotatedLeft(node) && n in nodes
      ensures LinkedUp(n)
    {
      var right := old(node.right);
      assert old(Linked(node)) && old(Linked(right)) && old(Linked(n));
      assert MovedLeft(node, n) && MovedLeft(node, node) && MovedLeft(node, right);
      if old(n.parent) != null { assert old(Linked(n.parent)) && MovedLeft(node, old(n.parent)); }
      if old(node.parent) != null { assert MovedLeft(node, old(node.parent)); }
    }

    /** Node's left child takes node's place and node becomes its right child. */
    method RotateRight(node: Node)
      requires Structure() && node in nodes && node.left != null
      modifies this`root, nodes`right, nodes`left, nodes`parent, nodes`lo, nodes`hi
      ensures RotatedRight(node)
      ensures Structure()
    {
      Neighbours(node);
      Neighbours(node.left);
      RelinkRight(node);
      assert MovedRight(node, root);
      LinkedAfterRight(node);
    }

    method RelinkRight(node: Node)
      requires node in nodes && node.left != null && node.left in nodes && node.left != node
      requires node.parent != null ==> node.parent in nodes && node.parent != node && node.parent != node.left
      requires node.left.right != null ==> node.left.right in nodes && node.left.right != node.left
      modifies this`root, nodes`right, nodes`left, nodes`parent, nodes`lo, nodes`hi
      ensures RotatedRight(node)
    {
      var left, parent := node.left, node.parent;
      node.left := left.right;
      if left.right != null {
        left.right.parent := node;
      }
      left.right := node;
      left.parent := parent;
      if parent != null {
        if node == parent.right {
          parent.right := left;
        } else {
          parent.left := left;
        }
      } else {
        root := left;
      }
      node.parent := left;
      node.lo, left.hi := left.pos + 1, node.hi;
    }

    /** What rotating node to the right does to the tree, and to each node n. */
    twostate predicate RotatedRight(node: Node)
      reads this, nodes
    {
      && node in old(nodes) && old(node.left) != null
      && nodes == old(nodes) && order == old(order)
      && root == (if old(node.parent) == null then old(node.left) else old(root))
      && (forall n {:trigger MovedRight(node, n)} :: n in nodes ==> MovedRight(node, n))
    }

    twostate predicate MovedRight(node: Node, new n: Node)
      requires node in old(nodes) && n in old(nodes) && old(node.left) != null
      reads n
    {
      var left, parent, middle := old(node.left), old(node.parent), old(node.left.right);
      && n.right == (if n == left then node
                    else if n == parent && old(n.right) == node then left else old(n.right))
      && n.left == (if n == node then middle
                     else if n == parent && old(n.right) != node then left else old(n.left))
      && n.parent == (if n == node then left else if n == left then parent
                      else if n == middle then node else old(n.parent))
      && n.pos == old(n.pos)
      && n.hi == (if n == left then old(node.hi) else old(n.hi))
      && n.lo == (if n == node then old(left.pos) + 1 else old(n.lo))
    }

    twostate lemma LinkedAfterRight(node: Node)
      requires old(Structure()) && RotatedRight(node)
      ensures AllLinked(nodes)
    {
      forall n {:trigger Linked(n)} | n in nodes
        ensures Linked(n)
      {
        DownAfterRight(node, n);
        UpAfterRight(node, n);
      }
    }

    twostate lemma DownAfterRight(node: Node, new n: Node)
      requires old(Structure()) && RotatedRight(node) && n in nodes
      ensures Placed(n) && LinkedRight(n) && LinkedLeft(n)
    {
      var left := old(node.left);
      assert old(Linked(node)) && old(Linked(left)) && old(Linked(n));
      assert MovedRight(node, n);
      if old(n.right) != null { assert old(Linked(n.right)) && MovedRight(node, old(n.right)); }
      if old(n.left) != null { assert old(Linked(n.left)) && MovedRight(node, old(n.left)); }
      assert MovedRight(node, node) && MovedRight(node, left);
      if old(left.right) != null { assert old(Linked(left.right)) && MovedRight(node, old(left.right)); }
    }

    twostate lemma UpAfterRight(node: Node, new n: Node)
      requires old(Structure()) && RotatedRight(node) && n in nodes
      ensures LinkedUp(n)
    {
      var left := old(node.left);
      assert old(Linked(node)) && old(Linked(left)) && old(Linked(n));
      assert MovedRight(node, n) && MovedRight(node, node) && MovedRight(node, left);
      if old(n.parent) != null { assert old(Linked(n.parent)) && MovedRight(node, old(n.parent)); }
      if old(node.parent) != null { assert MovedRight(node, old(node.parent)); }
    }

    // ---------------------------------------------------------------- colour

    /** Both subtrees of n have the same black height. */
    ghost predicate Balanced(n: Node)
      reads this`nodes, nodes`left, nodes`right, nodes`red, nodes`bh
    {
      && n in nodes
      && (n.left != null ==> n.left in nodes)
      && (n.right != null ==> n.right in nodes)
      && Bh(n.left) == Bh(n.right) >= 0
      && n.bh == Bh(n.left) + if n.red then 0 else 1
    }

    ghost predicate AllBalanced(s: set<Node>)
      reads this`nodes, nodes`left, nodes`right, nodes`red, nodes`bh
    {
      forall n {:trigger Balanced(n)} :: n in s ==> Balanced(n)
    }

    /** A red node has no red parent. */
    ghost predicate RedOk(n: Node)
      reads this`nodes, nodes`parent, nodes`red
    {
      n in nodes && (n.red && n.parent != null ==> n.parent in nodes && !n.parent.red)
    }

    ghost predicate AllRedOk(s: set<Node>)
      reads this`nodes, nodes`parent, nodes`red
    {
      forall n {:trigger RedOk(n)} :: n in s ==> RedOk(n)
    }

    /** A red-black tree: well linked, balanced, no red node under a red one, black root. */
    ghost predicate Valid()
      reads this, nodes`left, nodes`right, nodes`parent, nodes`red, nodes`pos, nodes`lo, nodes`hi, nodes`bh
    {
      && Structure()
      && AllBalanced(nodes)
      && AllRedOk(nodes)
      && !IsRed(root)
    }

    // ---------------------------------------------------------------- insertion

    /** Valid, except that node is red and may be under a red parent or be the root. */
    ghost predicate ValidExceptRed(node: Node)
      reads this, nodes`left, nodes`right, nodes`parent, nodes`red, nodes`pos, nodes`lo, nodes`hi, nodes`bh
    {
      && Structure()
      && AllBalanced(nodes)
      && AllRedOk(nodes - {node})
      && node in nodes && node.red
      && (IsRed(root) ==> root == node)
    }

    /** Restores the red-black invariants after a red leaf was linked. */
    method InsertColor(node0: Node)
      requires ValidExceptRed(node0)
      modifies this`root, nodes`left, nodes`right, nodes`parent, nodes`red, nodes`lo, nodes`hi, nodes`bh
      ensures Valid() && nodes == old(nodes) && order == old(order)
    {
      var node := node0;
      while IsRed(node.parent)
        invariant ValidExceptRed(node)
        decreases if IsRed(node.parent) then |order| + 1 - (node.hi - node.lo) else 0
      {
        assert Linked(node);
        node := FixRed(node);
        assert Linked(node);
      }
      assert Linked(node);
      BlackenRoot();
    }

    method BlackenRoot()
      requires Structure() && AllBalanced(nodes) && AllRedOk(if root == null then nodes else nodes - {root}) && root != null
      modifies nodes`red, nodes`bh
      ensures Valid()
    {
      ghost var bh := root.bh + if root.red then 1 else 0;
      root.red := false;
      root.bh := bh;
      forall n {:trigger Balanced(n)} | n in nodes
        ensures Balanced(n)
      {
        assert old(Balanced(n)) && Linked(n);
      }
      forall n {:trigger RedOk(n)} | n in nodes
        ensures RedOk(n)
      {
        if n != root { assert old(RedOk(n)); }
      }
    }

    /** One round of the fix-up: recolour and go on at the grandparent, or rotate and be done. */
    method FixRed(node: Node) returns (next: Node)
      requires ValidExceptRed(node) && IsRed(node.parent)
      modifies this`root, nodes`left, nodes`right, nodes`parent, nodes`red, nodes`lo, nodes`hi, nodes`bh
      ensures ValidExceptRed(next)
      ensures IsRed(next.parent) ==> next.hi - next.lo > old(node.hi - node.lo)
    {
      var parent := node.parent;
      assert Linked(node) && Linked(parent) && RedOk(parent);
      var gparent := parent.parent;
      assert Linked(gparent);
      if parent == gparent.left {
        var uncle := gparent.right;
        if IsRed(uncle) {
          Recolour(node, parent, uncle, gparent);
          return gparent;
        }
        next := node;
        if parent.right == node {
          RotateLeft(parent);
          assert MovedLeft(parent, parent) && MovedLeft(parent, node) && MovedLeft(parent, gparent);
          RedMovedLeft(parent);
          next := parent;
          parent := node;
        }
        LiftRight(next, parent, gparent);
      } else {
        var uncle := gparent.left;
        if IsRed(uncle) {
          Recolour(node, parent, uncle, gparent);
          return gparent;
        }
        next := node;
        if parent.left == node {
          RotateRight(parent);
          assert MovedRight(parent, parent) && MovedRight(parent, node) && MovedRight(parent, gparent);
          RedMovedRight(parent);
          next := parent;
          parent := node;
        }
        LiftLeft(next, parent, gparent);
      }
    }

    /** A red uncle: both children of the grandparent turn black, it turns red. */
    method Recolour(node: Node, parent: Node, uncle: Node, gparent: Node)
      requires ValidExceptRed(node) && node.parent == parent && parent.red && parent.parent == gparent
      requires gparent in nodes && uncle.red && uncle != parent
      requires gparent.left == uncle || gparent.right == uncle
      requires gparent.left == parent || gparent.right == parent
      modifies nodes`red, nodes`bh
      ensures ValidExceptRed(gparent)
      ensures gparent.hi - gparent.lo > node.hi - node.lo
    {
      assert Linked(gparent) && Linked(parent) && Linked(node) && Linked(uncle);
      assert RedOk(parent);
      PaintFamily(parent, uncle, gparent);
      assert Recoloured(gparent, gparent) && Recoloured(gparent, root);
      RecolourBalances(gparent);
      RecolourSeparates(gparent, node);
    }

    method PaintFamily(parent: Node, uncle: Node, gparent: Node)
      requires parent in nodes && uncle in nodes && gparent in nodes
      requires parent != uncle && gparent != parent && gparent != uncle
      requires {gparent.left, gparent.right} == {parent, uncle}
      modifies nodes`red, nodes`bh
      ensures forall n {:trigger Recoloured(gparent, n)} :: n in nodes ==> Recoloured(gparent, n)
    {
      uncle.red := false;
      parent.red := false;
      gparent.red := true;
      parent.bh, uncle.bh := parent.bh + 1, uncle.bh + 1;
    }

    /** What the recolouring under gparent does to each node n. */
    twostate predicate Recoloured(gparent: Node, new n: Node)
      requires gparent in old(nodes) && n in old(nodes)
      reads n
    {
      var child := n == old(gparent.left) || n == old(gparent.right);
      && n.red == (if n == gparent then true else if child then false else old(n.red))
      && n.bh == (if child then old(n.bh) + 1 else old(n.bh))
    }

    twostate predicate RecolouredUnder(gparent: Node)
      reads this, nodes
    {
      && nodes == old(nodes) && gparent in nodes
      && Structure() && old(Structure()) && old(AllBalanced(nodes))
      && old(!gparent.red && IsRed(gparent.left) && IsRed(gparent.right))
      && unchanged(nodes`left, nodes`right, nodes`parent, nodes`lo, nodes`hi)
      && (forall n {:trigger Recoloured(gparent, n)} :: n in nodes ==> Recoloured(gparent, n))
    }

    twostate lemma RecolourBalances(gparent: Node)
      requires RecolouredUnder(gparent)
      ensures AllBalanced(nodes)
    {
      assert Recoloured(gparent, gparent) && Linked(gparent);
      forall n {:trigger Balanced(n)} | n in nodes
        ensures Balanced(n)
      {
        assert old(Balanced(n)) && Linked(n) && Recoloured(gparent, n);
        if n.left != null { assert Linked(n.left) && Recoloured(gparent, n.left); }
        if n.right != null { assert Linked(n.right) && Recoloured(gparent, n.right); }
      }
    }

    twostate lemma RecolourSeparates(gparent: Node, new node: Node)
      requires RecolouredUnder(gparent) && node in nodes
      requires old(AllRedOk(nodes - {node}) && node.parent != null && node.parent.parent == gparent)
      ensures AllRedOk(nodes - {gparent})
    {
      assert Linked(gparent) && Linked(node);
      forall n {:trigger RedOk(n)} | n in nodes - {gparent}
        ensures RedOk(n)
      {
        assert Linked(n) && Recoloured(gparent, n);
        if n.parent != null { assert Linked(n.parent) && Recoloured(gparent, n.parent); }
        if n != node { assert old(RedOk(n)); }
      }
    }

    /** Rotating a red parent over its red inner child moves the conflict, no colour. */
    twostate lemma RedMovedLeft(parent: Node)
      requires old(parent in nodes && parent.right != null && ValidExceptRed(parent.right))
      requires old(parent.red && parent.parent != null && !parent.parent.red)
      requires RotatedLeft(parent) && Structure()
      requires forall n :: n in nodes ==> n.red == old(n.red) && n.bh == old(n.bh)
      ensures ValidExceptRed(parent)
    {
      var node := old(parent.right);
      assert old(Linked(parent)) && old(Linked(node)) && old(Balanced(parent)) && old(Balanced(node));
      assert MovedLeft(parent, parent) && MovedLeft(parent, node);
      forall n {:trigger Balanced(n)} | n in nodes
        ensures Balanced(n)
      {
        assert old(Linked(n)) && old(Balanced(n)) && MovedLeft(parent, n) && Linked(n);
      }
      forall n {:trigger RedOk(n)} | n in nodes - {parent}
        ensures RedOk(n)
      {
        assert old(Linked(n)) && MovedLeft(parent, n) && Linked(n);
        if n != node { assert old(RedOk(n)); }
      }
    }

    /** The last case: parent turns black, the grandparent red, and parent goes up. */
    method LiftRight(node: Node, parent: Node, gparent: Node)
      requires ValidExceptRed(node) && node.parent == parent && parent.left == node
      requires parent.parent == gparent && gparent.left == parent && parent in nodes && gparent in nodes
      requires parent.red && !gparent.red && !IsRed(gparent.right)
      modifies this`root, nodes`left, nodes`right, nodes`parent, nodes`red, nodes`lo, nodes`hi, nodes`bh
      ensures ValidExceptRed(node) && node.parent == parent && !parent.red
    {
      assert Linked(gparent) && Linked(parent) && Linked(node);
      assert Balanced(gparent) && Balanced(parent);
      PaintRotateRight(gparent);
      assert LiftedRight(gparent, node) && LiftedRight(gparent, parent);
      LiftRightBalances(gparent, nodes);
      LiftRightSeparates(gparent, node);
    }

    /** The left child of g turns black, g turns red and is rotated to the right. */
    method PaintRotateRight(g: Node)
      requires Structure() && g in nodes && g.left != null
      modifies this`root, nodes`left, nodes`right, nodes`parent, nodes`red, nodes`lo, nodes`hi, nodes`bh
      ensures LiftedRightUnder(g)
    {
      var child := g.left;
      assert Linked(g);
      child.red := false;
      g.red := true;
      child.bh, g.bh := child.bh + 1, g.bh - 1;
      label Painted:
      RotateRight(g);
      forall n {:trigger LiftedRight(g, n)} | n in nodes
        ensures LiftedRight(g, n)
      {
        assert MovedRight@Painted(g, n);
      }
    }

    /** What lifting g's left child does to each node n. */
    twostate predicate LiftedRight(g: Node, new n: Node)
      requires g in old(nodes) && n in old(nodes) && old(g.left) != null
      reads n
    {
      && MovedRight(g, n)
      && n.red == (if n == g then true else if n == old(g.left) then false else old(n.red))
      && n.bh == old(n.bh) + (if n == g then -1 else if n == old(g.left) then 1 else 0)
    }

    twostate predicate LiftedRightUnder(g: Node)
      reads this, nodes
    {
      && nodes == old(nodes) && order == old(order) && g in nodes && old(g.left) != null
      && Structure() && old(Structure())
      && root == (if old(g.parent) == null then old(g.left) else old(root))
      && (forall n {:trigger LiftedRight(g, n)} :: n in nodes ==> LiftedRight(g, n))
    }

    /** Lifting a red child of a black node keeps every node of s balanced. */
    twostate lemma LiftRightBalances(g: Node, new s: set<Node>)
      requires LiftedRightUnder(g) && s <= nodes
      requires old(Balanced(g.left) && g.left.red && !g.red && g.left.bh + 1 == g.bh)
      requires old(AllBalanced(s - {g}))
      requires g in s ==> old(Balanced(g))
      ensures AllBalanced(s)
    {
      var child := old(g.left);
      assert old(Linked(g)) && old(Linked(child));
      assert LiftedRight(g, g) && LiftedRight(g, child);
      forall n {:trigger Balanced(n)} | n in s
        ensures Balanced(n)
      {
        assert old(Linked(n)) && old(Balanced(n)) && LiftedRight(g, n) && Linked(n);
        if n.left != null { assert LiftedRight(g, n.left); }
        if n.right != null { assert LiftedRight(g, n.right); }
      }
    }

    twostate lemma LiftRightSeparates(g: Node, new node: Node?)
      requires LiftedRightUnder(g) && (node != null ==> node in nodes)
      requires old(AllRedOk(if node == null then nodes else nodes - {node}) && g.left.left == node)
      requires old(!g.red && IsRed(g.left) && !IsRed(g.right) && !IsRed(root))
      ensures AllRedOk(nodes) && !IsRed(root)
    {
      assert Linked(g);
      assert LiftedRight(g, root);
      var child := old(g.left);
      assert old(Linked(g)) && old(Linked(child));
      if node != null { assert old(Linked(node)) && LiftedRight(g, node); }
      assert LiftedRight(g, g) && LiftedRight(g, child);
      forall n {:trigger RedOk(n)} | n in nodes
        ensures RedOk(n)
      {
        assert old(Linked(n)) && LiftedRight(g, n) && Linked(n);
        if n.parent != null { assert LiftedRight(g, n.parent); }
        if n != node { assert old(RedOk(n)); }
      }
    }

    /** Rotating a red parent over its red inner child moves the conflict, no colour. */
    twostate lemma RedMovedRight(parent: Node)
      requires old(parent in nodes && parent.left != null && ValidExceptRed(parent.left))
      requires old(parent.red && parent.parent != null && !parent.parent.red)
      requires RotatedRight(parent) && Structure()
      requires forall n :: n in nodes ==> n.red == old(n.red) && n.bh == old(n.bh)
      ensures ValidExceptRed(parent)
    {
      var node := old(parent.left);
      assert old(Linked(parent)) && old(Linked(node)) && old(Balanced(parent)) && old(Balanced(node));
      assert MovedRight(parent, parent) && MovedRight(parent, node);
      forall n {:trigger Balanced(n)} | n in nodes
        ensures Balanced(n)
      {
        assert old(Linked(n)) && old(Balanced(n)) && MovedRight(parent, n) && Linked(n);
      }
      forall n {:trigger RedOk(n)} | n in nodes - {parent}
        ensures RedOk(n)
      {
        assert old(Linked(n)) && MovedRight(parent, n) && Linked(n);
        if n != node { assert old(RedOk(n)); }
      }
    }

    /** The last case: parent turns black, the grandparent red, and parent goes up. */
    method LiftLeft(node: Node, parent: Node, gparent: Node)
      requires ValidExceptRed(node) && node.parent == parent && parent.right == node
      requires parent.parent == gparent && gparent.right == parent && parent in nodes && gparent in nodes
      requires parent.red && !gparent.red && !IsRed(gparent.left)
      modifies this`root, nodes`right, nodes`left, nodes`parent, nodes`red, nodes`lo, nodes`hi, nodes`bh
      ensures ValidExceptRed(node) && node.parent == parent && !parent.red
    {
      assert Linked(gparent) && Linked(parent) && Linked(node);
      assert Balanced(gparent) && Balanced(parent);
      PaintRotateLeft(gparent);
      assert LiftedLeft(gparent, node) && LiftedLeft(gparent, parent);
      LiftLeftBalances(gparent, nodes);
      LiftLeftSeparates(gparent, node);
    }

    /** The right child of g turns black, g turns red and is rotated to the left. */
    method PaintRotateLeft(g: Node)
      requires Structure() && g in nodes && g.right != null
      modifies this`root, nodes`right, nodes`left, nodes`parent, nodes`red, nodes`lo, nodes`hi, nodes`bh
      ensures LiftedLeftUnder(g)
    {
      var child := g.right;
      assert Linked(g);
      child.red := false;
      g.red := true;
      child.bh, g.bh := child.bh + 1, g.bh - 1;
      label Painted:
      RotateLeft(g);
      forall n {:trigger LiftedLeft(g, n)} | n in nodes
        ensures LiftedLeft(g, n)
      {
        assert MovedLeft@Painted(g, n);
      }
    }

    /** What lifting g's right child does to each node n. */
    twostate predicate LiftedLeft(g: Node, new n: Node)
      requires g in old(nodes) && n in old(nodes) && old(g.right) != null
      reads n
    {
      && MovedLeft(g, n)
      && n.red == (if n == g then true else if n == old(g.right) then false else old(n.red))
      && n.bh == old(n.bh) + (if n == g then -1 else if n == old(g.right) then 1 else 0)
    }

    twostate predicate LiftedLeftUnder(g: Node)
      reads this, nodes
    {
      && nodes == old(nodes) && order == old(order) && g in nodes && old(g.right) != null
      && Structure() && old(Structure())
      && root == (if old(g.parent) == null then old(g.right) else old(root))
      && (forall n {:trigger LiftedLeft(g, n)} :: n in nodes ==> LiftedLeft(g, n))
    }

    /** Lifting a red child of a black node keeps every node of s balanced. */
    twostate lemma LiftLeftBalances(g: Node, new s: set<Node>)
      requires LiftedLeftUnder(g) && s <= nodes
      requires old(Balanced(g.right) && g.right.red && !g.red && g.right.bh + 1 == g.bh)
      requires old(AllBalanced(s - {g}))
      requires g in s ==> old(Balanced(g))
      ensures AllBalanced(s)
    {
      var child := old(g.right);
      assert old(Linked(g)) && old(Linked(child));
      assert LiftedLeft(g, g) && LiftedLeft(g, child);
      forall n {:trigger Balanced(n)} | n in s
        ensures Balanced(n)
      {
        assert old(Linked(n)) && old(Balanced(n)) && LiftedLeft(g, n) && Linked(n);
        if n.right != null { assert LiftedLeft(g, n.right); }
        if n.left != null { assert LiftedLeft(g, n.left); }
      }
    }

    twostate lemma LiftLeftSeparates(g: Node, new node: Node?)
      requires LiftedLeftUnder(g) && (node != null ==> node in nodes)
      requires old(AllRedOk(if node == null then nodes else nodes - {node}) && g.right.right == node)
      requires old(!g.red && IsRed(g.right) && !IsRed(g.left) && !IsRed(root))
      ensures AllRedOk(nodes) && !IsRed(root)
    {
      assert Linked(g);
      assert LiftedLeft(g, root);
      var child := old(g.right);
      assert old(Linked(g)) && old(Linked(child));
      if node != null { assert old(Linked(node)) && LiftedLeft(g, node); }
      assert LiftedLeft(g, g) && LiftedLeft(g, child);
      forall n {:trigger RedOk(n)} | n in nodes
        ensures RedOk(n)
      {
        assert old(Linked(n)) && LiftedLeft(g, n) && Linked(n);
        if n.parent != null { assert LiftedLeft(g, n.parent); }
        if n != node { assert old(RedOk(n)); }
      }
    }

    // ---------------------------------------------------------------- removal

    /** The other child of parent. */
    ghost function Sibling(node: Node?, parent: Node): Node?
      reads parent`left, parent`right
    {
      if parent.left == node then parent.right else parent.left
    }

    /** Balanced, except that the side of `node` under `parent` lacks one black node. */
    ghost predicate DeficitAt(node: Node?, parent: Node)
      reads this, nodes
    {
      && Structure()
      && parent in nodes
      && (parent.left == node || parent.right == node)
      && (node != null ==> node in nodes)
      && AllBalanced(nodes - {parent})
      && var other := Sibling(node, parent);
      && other != null && other in nodes
      && Bh(other) == Bh(node) + 1 >= 1
      && parent.bh == Bh(other) + if parent.red then 0 else 1
    }

    /** What the fix-up keeps: a deficit at node, or none when node is the root; the only red
        nodes under red ones are node and its children. */
    ghost predicate Deficient(node: Node?, parent: Node?)
      reads this, nodes
    {
      && Structure()
      && (parent == null ==> node == root && AllBalanced(nodes))
      && (parent != null ==> DeficitAt(node, parent))
      && (forall n {:trigger RedOk(n)} :: n in nodes && n != node && n.parent != node ==> RedOk(n))
      && (node == null ==> AllRedOk(nodes))
      && (IsRed(root) ==> root == node)
    }

    /** A black sibling with black children turns red; the deficit moves to the parent. */
    method TakeBlack(node: Node?, parent: Node, other: Node)
      requires DeficitAt(node, parent) && Sibling(node, parent) == other && AllRedOk(nodes)
      requires !IsRed(node) && !IsRed(root) && !other.red && !IsRed(other.left) && !IsRed(other.right)
      modifies nodes`red, nodes`bh
      ensures Deficient(parent, parent.parent) && parent.red == old(parent.red)
      ensures parent.parent != null ==> parent.parent.hi - parent.parent.lo > parent.hi - parent.lo
    {
      assert Linked(parent) && Linked(other) && Balanced(other);
      PaintTaken(parent, other);
      TookBlack(parent, other);
    }

    method PaintTaken(parent: Node, other: Node)
      requires parent in nodes && other in nodes && parent != other
      modifies nodes`red, nodes`bh
      ensures forall n :: n in nodes ==> n.red == (if n == other then true else old(n.red))
      ensures forall n :: n in nodes ==> n.bh == old(n.bh) - (if n == other || n == parent then 1 else 0)
    {
      other.red := true;
      other.bh, parent.bh := other.bh - 1, parent.bh - 1;
    }

    /** The sibling takes the parent's colour, the parent and the outer child turn black. */
    method PaintSettled(parent: Node, other: Node, nephew: Node)
      requires parent in nodes && other in nodes && nephew in nodes
      requires parent != other && parent != nephew && other != nephew
      modifies nodes`red, nodes`bh
      ensures forall n :: n in nodes ==>
        && n.red == (if n == other then old(parent.red) else if n == parent || n == nephew then false else old(n.red))
        && n.bh == (if n == other then old(parent.bh) else if n == parent then old(other.bh)
                    else if n == nephew then old(n.bh) + 1 else old(n.bh))
    {
      other.bh, parent.bh, nephew.bh := parent.bh, other.bh, nephew.bh + 1;
      other.red := parent.red;
      parent.red := false;
      nephew.red := false;
    }

    /** parent's other child turned red and both lost one black. */
    twostate predicate BlackTaken(parent: Node, new other: Node)
      reads this, nodes
    {
      && old(Structure() && AllBalanced(nodes - {parent}) && AllRedOk(nodes)) && Structure()
      && nodes == old(nodes) && parent in nodes && other in nodes && other.parent == parent && other != parent
      && unchanged(nodes`left, nodes`right, nodes`parent)
      && (forall n :: n in nodes ==> n.red == (if n == other then true else old(n.red)))
      && (forall n :: n in nodes ==> n.bh == old(n.bh) - (if n == other || n == parent then 1 else 0))
      && old(!other.red && !IsRed(other.left) && !IsRed(other.right))
      && Balanced(parent)
    }

    twostate lemma TookBlackBalances(parent: Node, new other: Node)
      requires BlackTaken(parent, other)
      ensures AllBalanced(if parent.parent == null then nodes else nodes - {parent.parent})
    {
      assert Linked(parent) && Linked(other);
      forall n {:trigger Balanced(n)} | n in nodes && n != parent.parent
        ensures Balanced(n)
      {
        assert Linked(n) && (n != parent ==> old(Balanced(n)));
        if n.left != null { assert Linked(n.left); }
        if n.right != null { assert Linked(n.right); }
      }
    }

    twostate lemma TookBlack(parent: Node, new other: Node)
      requires BlackTaken(parent, other) && old(!IsRed(root)) && root == old(root)
      ensures Deficient(parent, parent.parent)
      ensures parent.parent != null ==> parent.parent.hi - parent.parent.lo > parent.hi - parent.lo
    {
      assert Linked(parent) && Linked(other);
      if parent.parent != null { assert Linked(parent.parent) && old(Balanced(parent.parent)); }
      TookBlackBalances(parent, other);
      forall n {:trigger RedOk(n)} | n in nodes && n != parent && n.parent != parent
        ensures RedOk(n)
      {
        assert Linked(n) && old(RedOk(n));
      }
    }

    /** node, on the left, lacks one black: the cases of its sibling. */
    method FixBlackLeft(node: Node?, parent: Node) returns (next: Node?, up: Node?)
      requires DeficitAt(node, parent) && parent.left == node && AllRedOk(nodes)
      requires !IsRed(node) && !IsRed(root)
      modifies this`root, nodes`left, nodes`right, nodes`parent, nodes`red, nodes`lo, nodes`hi, nodes`bh
      ensures Deficient(next, up)
      ensures next == root || IsRed(next) || (up != null && up.hi - up.lo > old(parent.hi - parent.lo))
    {
      Neighbours(parent);
      var other := parent.right;
      if other.red {
        LowerLeft(node, parent);
        other := parent.right;
      }
      Neighbours(other);
      if !IsRed(other.left) && !IsRed(other.right) {
        TakeBlack(node, parent, other);
        next := parent;
        up := parent.parent;
      } else {
        if !IsRed(other.right) {
          TurnNephewRight(node, parent, other);
          other := parent.right;
          Neighbours(other);
        }
        SettleLeft(node, parent);
        next, up := root, null;
      }
    }

    /** A red sibling goes up, so that the sibling is black. */
    method LowerLeft(node: Node?, parent: Node)
      requires DeficitAt(node, parent) && parent.left == node && AllRedOk(nodes)
      requires !IsRed(node) && !IsRed(root) && IsRed(parent.right)
      modifies this`root, nodes`left, nodes`right, nodes`parent, nodes`red, nodes`lo, nodes`hi, nodes`bh
      ensures DeficitAt(node, parent) && parent.left == node && AllRedOk(nodes)
      ensures !IsRed(node) && !IsRed(root) && IsRed(parent) && !IsRed(parent.right)
      ensures parent.parent != null && parent.parent in nodes
      ensures parent.parent.hi - parent.parent.lo == old(parent.hi - parent.lo)
    {
      Neighbours(parent);
      var other := parent.right;
      assert Balanced(other) && RedOk(other) && Linked(other);
      if other.left != null { assert RedOk(other.left) && Linked(other.left) && Balanced(other.left); }
      if other.right != null { assert RedOk(other.right) && Linked(other.right); }
      PaintRotateLeft(parent);
      assert LiftedLeft(parent, parent) && LiftedLeft(parent, other);
      if node != null { assert LiftedLeft(parent, node); }
      if old(other.left) != null { assert LiftedLeft(parent, old(other.left)); }
      LiftLeftBalances(parent, nodes - {parent});
      LiftLeftSeparates(parent, old(other.right));
    }

    /** The sibling's red inner child goes up, so that its outer child is red. */
    method TurnNephewRight(node: Node?, parent: Node, other: Node)
      requires DeficitAt(node, parent) && parent.left == node && parent.right == other && AllRedOk(nodes)
      requires !IsRed(node) && !IsRed(root) && !other.red && IsRed(other.left) && !IsRed(other.right)
      modifies this`root, nodes`left, nodes`right, nodes`parent, nodes`red, nodes`lo, nodes`hi, nodes`bh
      ensures DeficitAt(node, parent) && parent.left == node && AllRedOk(nodes)
      ensures !IsRed(node) && !IsRed(root) && !IsRed(parent.right) && parent.right != null
      ensures parent.right in nodes && IsRed(parent.right.right)
    {
      Neighbours(parent);
      Neighbours(other);
      assert Balanced(other) && Balanced(other.left);
      ghost var nephew := other.left;
      PaintRotateRight(other);
      assert LiftedRight(other, parent) && LiftedRight(other, other) && LiftedRight(other, nephew);
      if node != null { assert LiftedRight(other, node); }
      LiftRightBalances(other, nodes - {parent});
      LiftRightSeparates(other, old(nephew.left));
    }

    /** The sibling takes the parent's place and colour; its red outer child pays the black. */
    method SettleLeft(node: Node?, parent: Node)
      requires DeficitAt(node, parent) && parent.left == node && AllRedOk(nodes)
      requires !IsRed(node) && !IsRed(root) && !IsRed(parent.right) && parent.right.right != null
      requires parent.right.right in nodes && parent.right.right.red
      modifies this`root, nodes`left, nodes`right, nodes`parent, nodes`red, nodes`lo, nodes`hi, nodes`bh
      ensures Structure() && AllBalanced(nodes) && AllRedOk(nodes) && !IsRed(root)
    {
      PaintSettleLeft(parent);
      SettleLeftBalances(parent);
      SettleLeftSeparates(parent);
    }

    method PaintSettleLeft(parent: Node)
      requires Structure() && parent in nodes && parent.right != null && parent.right.right != null
      modifies this`root, nodes`left, nodes`right, nodes`parent, nodes`red, nodes`lo, nodes`hi, nodes`bh
      ensures Structure()
      ensures root == (if old(parent.parent) == null then old(parent.right) else old(root))
      ensures forall n {:trigger SettledLeft(parent, n)} :: n in nodes ==> SettledLeft(parent, n)
    {
      Neighbours(parent);
      Neighbours(parent.right);
      PaintSettled(parent, parent.right, parent.right.right);
      label Painted:
      RotateLeft(parent);
      forall n {:trigger SettledLeft(parent, n)} | n in nodes
        ensures SettledLeft(parent, n)
      {
        assert MovedLeft@Painted(parent, n);
      }
    }

    /** What settling at parent does to each node n. */
    twostate predicate SettledLeft(parent: Node, new n: Node)
      requires parent in old(nodes) && n in old(nodes) && old(parent.right) != null
      reads n
    {
      var other := old(parent.right);
      && MovedLeft(parent, n)
      && n.red == (if n == other then old(parent.red) else if n == parent || n == old(other.right) then false else old(n.red))
      && n.bh == (if n == other then old(parent.bh) else if n == parent then old(other.bh)
                  else if n == old(other.right) then old(n.bh) + 1 else old(n.bh))
    }

    twostate predicate SettledLeftUnder(parent: Node)
      reads this, nodes
    {
      && nodes == old(nodes) && parent in nodes && old(DeficitAt(parent.left, parent) && AllRedOk(nodes))
      && Structure() && old(!IsRed(parent.left) && !IsRed(root) && !IsRed(parent.right))
      && old(parent.right.right) != null && old(parent.right.right) in nodes && old(parent.right.right.red)
      && root == (if old(parent.parent) == null then old(parent.right) else old(root))
      && (forall n {:trigger SettledLeft(parent, n)} :: n in nodes ==> SettledLeft(parent, n))
    }

    twostate lemma SettleLeftBalances(parent: Node)
      requires SettledLeftUnder(parent)
      ensures AllBalanced(nodes)
    {
      var other := old(parent.right);
      var nephew := old(other.right);
      assert old(Linked(parent)) && old(Linked(other)) && old(Linked(nephew)) && old(Balanced(other)) && old(Balanced(nephew));
      assert SettledLeft(parent, parent) && SettledLeft(parent, other) && SettledLeft(parent, nephew);
      if old(other.left) != null { assert SettledLeft(parent, old(other.left)); }
      if old(parent.left) != null { assert SettledLeft(parent, old(parent.left)); }
      assert Balanced(parent) && Balanced(other);
      forall n {:trigger Balanced(n)} | n in nodes
        ensures Balanced(n)
      {
        if n != parent && n != other {
          assert old(Linked(n)) && SettledLeft(parent, n) && Linked(n) && old(Balanced(n));
          if n.left != null { assert SettledLeft(parent, n.left); }
          if n.right != null { assert SettledLeft(parent, n.right); }
        }
      }
    }

    twostate lemma SettleLeftSeparates(parent: Node)
      requires SettledLeftUnder(parent)
      ensures AllRedOk(nodes) && !IsRed(root)
    {
      var other := old(parent.right);
      var nephew := old(other.right);
      assert old(Linked(parent)) && old(Linked(other)) && old(Linked(nephew)) && old(RedOk(parent)) && old(RedOk(nephew));
      assert SettledLeft(parent, parent) && SettledLeft(parent, other) && SettledLeft(parent, nephew) && SettledLeft(parent, root);
      forall n {:trigger RedOk(n)} | n in nodes
        ensures RedOk(n)
      {
        assert old(Linked(n)) && SettledLeft(parent, n) && Linked(n) && old(RedOk(n));
        if n.parent != null { assert SettledLeft(parent, n.parent); }
      }
    }

    /** node, on the right, lacks one black: the cases of its sibling. */
    method FixBlackRight(node: Node?, parent: Node) returns (next: Node?, up: Node?)
      requires DeficitAt(node, parent) && parent.right == node && AllRedOk(nodes)
      requires !IsRed(node) && !IsRed(root)
      modifies this`root, nodes`right, nodes`left, nodes`parent, nodes`red, nodes`lo, nodes`hi, nodes`bh
      ensures Deficient(next, up)
      ensures next == root || IsRed(next) || (up != null && up.hi - up.lo > old(parent.hi - parent.lo))
    {
      Neighbours(parent);
      var other := parent.left;
      if other.red {
        LowerRight(node, parent);
        other := parent.left;
      }
      Neighbours(other);
      if !IsRed(other.right) && !IsRed(other.left) {
        TakeBlack(node, parent, other);
        next := parent;
        up := parent.parent;
      } else {
        if !IsRed(other.left) {
          TurnNephewLeft(node, parent, other);
          other := parent.left;
          Neighbours(other);
        }
        SettleRight(node, parent);
        next, up := root, null;
      }
    }

    /** A red sibling goes up, so that the sibling is black. */
    method LowerRight(node: Node?, parent: Node)
      requires DeficitAt(node, parent) && parent.right == node && AllRedOk(nodes)
      requires !IsRed(node) && !IsRed(root) && IsRed(parent.left)
      modifies this`root, nodes`right, nodes`left, nodes`parent, nodes`red, nodes`lo, nodes`hi, nodes`bh
      ensures DeficitAt(node, parent) && parent.right == node && AllRedOk(nodes)
      ensures !IsRed(node) && !IsRed(root) && IsRed(parent) && !IsRed(parent.left)
      ensures parent.parent != null && parent.parent in nodes
      ensures parent.parent.hi - parent.parent.lo == old(parent.hi - parent.lo)
    {
      Neighbours(parent);
      var other := parent.left;
      assert Balanced(other) && RedOk(other) && Linked(other);
      if other.right != null { assert RedOk(other.right) && Linked(other.right) && Balanced(other.right); }
      if other.left != null { assert RedOk(other.left) && Linked(other.left); }
      PaintRotateRight(parent);
      assert LiftedRight(parent, parent) && LiftedRight(parent, other);
      if node != null { assert LiftedRight(parent, node); }
      if old(other.right) != null { assert LiftedRight(parent, old(other.right)); }
      LiftRightBalances(parent, nodes - {parent});
      LiftRightSeparates(parent, old(other.left));
    }

    /** The sibling's red inner child goes up, so that its outer child is red. */
    method TurnNephewLeft(node: Node?, parent: Node, other: Node)
      requires DeficitAt(node, parent) && parent.right == node && parent.left == other && AllRedOk(nodes)
      requires !IsRed(node) && !IsRed(root) && !other.red && IsRed(other.right) && !IsRed(other.left)
      modifies this`root, nodes`right, nodes`left, nodes`parent, nodes`red, nodes`lo, nodes`hi, nodes`bh
      ensures DeficitAt(node, parent) && parent.right == node && AllRedOk(nodes)
      ensures !IsRed(node) && !IsRed(root) && !IsRed(parent.left) && parent.left != null
      ensures parent.left in nodes && IsRed(parent.left.left)
    {
      Neighbours(parent);
      Neighbours(other);
      assert Balanced(other) && Balanced(other.right);
      ghost var nephew := other.right;
      PaintRotateLeft(other);
      assert LiftedLeft(other, parent) && LiftedLeft(other, other) && LiftedLeft(other, nephew);
      if node != null { assert LiftedLeft(other, node); }
      LiftLeftBalances(other, nodes - {parent});
      LiftLeftSeparates(other, old(nephew.right));
    }

    /** The sibling takes the parent's place and colour; its red outer child pays the black. */
    method SettleRight(node: Node?, parent: Node)
      requires DeficitAt(node, parent) && parent.right == node && AllRedOk(nodes)
      requires !IsRed(node) && !IsRed(root) && !IsRed(parent.left) && parent.left.left != null
      requires parent.left.left in nodes && parent.left.left.red
      modifies this`root, nodes`right, nodes`left, nodes`parent, nodes`red, nodes`lo, nodes`hi, nodes`bh
      ensures Structure() && AllBalanced(nodes) && AllRedOk(nodes) && !IsRed(root)
    {
      PaintSettleRight(parent);
      SettleRightBalances(parent);
      SettleRightSeparates(parent);
    }

    method PaintSettleRight(parent: Node)
      requires Structure() && parent in nodes && parent.left != null && parent.left.left != null
      modifies this`root, nodes`right, nodes`left, nodes`parent, nodes`red, nodes`lo, nodes`hi, nodes`bh
      ensures Structure()
      ensures root == (if old(parent.parent) == null then old(parent.left) else old(root))
      ensures forall n {:trigger SettledRight(parent, n)} :: n in nodes ==> SettledRight(parent, n)
    {
      Neighbours(parent);
      Neighbours(parent.left);
      PaintSettled(parent, parent.left, parent.left.left);
      label Painted:
      RotateRight(parent);
      forall n {:trigger SettledRight(parent, n)} | n in nodes
        ensures SettledRight(parent, n)
      {
        assert MovedRight@Painted(parent, n);
      }
    }

    /** What settling at parent does to each node n. */
    twostate predicate SettledRight(parent: Node, new n: Node)
      requires parent in old(nodes) && n in old(nodes) && old(parent.left) != null
      reads n
    {
      var other := old(parent.left);
      && MovedRight(parent, n)
      && n.red == (if n == other then old(parent.red) else if n == parent || n == old(other.left) then false else old(n.red))
      && n.bh == (if n == other then old(parent.bh) else if n == parent then old(other.bh)
                  else if n == old(other.left) then old(n.bh) + 1 else old(n.bh))
    }

    twostate predicate SettledRightUnder(parent: Node)
      reads this, nodes
    {
      && nodes == old(nodes) && parent in nodes && old(DeficitAt(parent.right, parent) && AllRedOk(nodes))
      && Structure() && old(!IsRed(parent.right) && !IsRed(root) && !IsRed(parent.left))
      && old(parent.left.left) != null && old(parent.left.left) in nodes && old(parent.left.left.red)
      && root == (if old(parent.parent) == null then old(parent.left) else old(root))
      && (forall n {:trigger SettledRight(parent, n)} :: n in nodes ==> SettledRight(parent, n))
    }

    twostate lemma SettleRightBalances(parent: Node)
      requires SettledRightUnder(parent)
      ensures AllBalanced(nodes)
    {
      var other := old(parent.left);
      var nephew := old(other.left);
      assert old(Linked(parent)) && old(Linked(other)) && old(Linked(nephew)) && old(Balanced(other)) && old(Balanced(nephew));
      assert SettledRight(parent, parent) && SettledRight(parent, other) && SettledRight(parent, nephew);
      if old(other.right) != null { assert SettledRight(parent, old(other.right)); }
      if old(parent.right) != null { assert SettledRight(parent, old(parent.right)); }
      assert Balanced(parent) && Balanced(other);
      forall n {:trigger Balanced(n)} | n in nodes
        ensures Balanced(n)
      {
        if n != parent && n != other {
          assert old(Linked(n)) && SettledRight(parent, n) && Linked(n) && old(Balanced(n));
          if n.right != null { assert SettledRight(parent, n.right); }
          if n.left != null { assert SettledRight(parent, n.left); }
        }
      }
    }

    twostate lemma SettleRightSeparates(parent: Node)
      requires SettledRightUnder(parent)
      ensures AllRedOk(nodes) && !IsRed(root)
    {
      var other := old(parent.left);
      var nephew := old(other.left);
      assert old(Linked(parent)) && old(Linked(other)) && old(Linked(nephew)) && old(RedOk(parent)) && old(RedOk(nephew));
      assert SettledRight(parent, parent) && SettledRight(parent, other);
      assert SettledRight(parent, nephew) && SettledRight(parent, root);
      forall n {:trigger RedOk(n)} | n in nodes
        ensures RedOk(n)
      {
        assert old(Linked(n)) && SettledRight(parent, n) && Linked(n) && old(RedOk(n));
        if n.parent != null { assert SettledRight(parent, n.parent); }
      }
    }

    ghost function Size(n: Node?): int
      reads (if n == null then {} else {n})`lo, (if n == null then {} else {n})`hi
    {
      if n == null then 0 else n.hi - n.lo
    }

    /** Restores the red-black invariants after a black node was taken out above node0. */
    method EraseColor(node0: Node?, parent0: Node?)
      requires Deficient(node0, parent0)
      modifies this`root, nodes`left, nodes`right, nodes`parent, nodes`red, nodes`lo, nodes`hi, nodes`bh
      ensures Valid() && nodes == old(nodes) && order == old(order)
    {
      var node, parent := node0, parent0;
      while !IsRed(node) && node != root
        invariant Deficient(node, parent)
        decreases if node == root || IsRed(node) then -1 else |order| - Size(parent)
      {
        assert Linked(parent);
        assert AllRedOk(nodes) by {
          forall n {:trigger RedOk(n)} | n in nodes
            ensures RedOk(n)
          {
            if n != node && n.parent != node { assert RedOk(n); }
          }
        }
        if parent.left == node {
          node, parent := FixBlackLeft(node, parent);
        } else {
          node, parent := FixBlackRight(node, parent);
        }
      }
      assert parent != null ==> Linked(parent);
      if node != null {
        PayBlack(node, parent);
      }
    }

    /** Painting the node that lacks a black makes up for it. */
    method PayBlack(node: Node, ghost parent: Node?)
      requires Deficient(node, parent) && node in nodes && (node.red || node == root)
      modifies nodes`red, nodes`bh
      ensures Valid()
    {
      assert Linked(node);
      if parent != null { assert Linked(parent); }
      ghost var bh := if node.red then node.bh + 1 else node.bh;
      node.red := false;
      node.bh := bh;
      forall n {:trigger Balanced(n)} | n in nodes
        ensures Balanced(n)
      {
        assert Linked(n) && (n != parent ==> old(Balanced(n)));
      }
      forall n {:trigger RedOk(n)} | n in nodes
        ensures RedOk(n)
      {
        if n != node && n.parent != node { assert old(RedOk(n)); }
      }
    }

    /** The in-order sequence without place k. */
    static ghost function Without(s: seq<Node>, k: int): seq<Node>
    {
      if 0 <= k < |s| then s[..k] + s[k + 1..] else s
    }

    /** A coordinate after a place before limit `from` went away. */
    static ghost function Closed(b: int, from: int): int
    {
      if b <= from then b else b - 1
    }

    /** Closes the gap a removed node leaves in the sequence and the coordinates. */
    ghost method ShiftDown(node: Node, k: int, from: int)
      requires node in nodes && 0 <= k < |order|
      modifies this`nodes, this`order, nodes`pos, nodes`lo, nodes`hi
      ensures nodes == old(nodes) - {node} && order == Without(old(order), k)
      ensures forall n :: n in nodes ==>
        && n.pos == (if old(n.pos) < k then old(n.pos) else old(n.pos) - 1)
        && n.lo == Closed(old(n.lo), from) && n.hi == Closed(old(n.hi), from)
    {
      forall n | n in nodes { n.pos := if n.pos < k then n.pos else n.pos - 1; }
      forall n | n in nodes { n.lo := Closed(n.lo, from); }
      forall n | n in nodes { n.hi := Closed(n.hi, from); }
      nodes, order := nodes - {node}, Without(order, k);
    }

    /** Takes out a node with at most one child: the child takes its place. */
    method Splice(node: Node) returns (child: Node?, parent: Node?)
      requires Structure() && node in nodes && (node.left == null || node.right == null)
      modifies this, nodes`left, nodes`right, nodes`parent, nodes`pos, nodes`lo, nodes`hi
      ensures SplicedOut(node) && Structure()
      ensures child == old(if node.left == null then node.right else node.left) && parent == old(node.parent)
    {
      Neighbours(node);
      child := if node.left == null then node.right else node.left;
      parent := node.parent;
      if child != null {
        child.parent := parent;
      }
      if parent != null {
        if parent.left == node {
          parent.left := child;
        } else {
          parent.right := child;
        }
      } else {
        root := child;
      }
      ShiftDown(node, node.pos, node.pos);
      SplicedLinks(node);
    }

    /** What splicing node out does to each other node n. */
    twostate predicate Spliced(node: Node, new n: Node)
      requires node in old(nodes) && n in old(nodes)
      reads n
    {
      var child, parent, k := old(if node.left == null then node.right else node.left), old(node.parent), old(node.pos);
      && n.left == (if n == parent && old(n.left) == node then child else old(n.left))
      && n.right == (if n == parent && old(n.left) != node then child else old(n.right))
      && n.parent == (if n == child then parent else old(n.parent))
      && n.pos == (if old(n.pos) < k then old(n.pos) else old(n.pos) - 1)
      && n.lo == Closed(old(n.lo), k) && n.hi == Closed(old(n.hi), k)
    }

    twostate predicate SplicedOut(node: Node)
      reads this, nodes
    {
      && node in old(nodes) && nodes == old(nodes) - {node}
      && old(Structure() && (node.left == null || node.right == null))
      && order == Without(old(order), old(node.pos))
      && root == (if old(node.parent) == null then old(if node.left == null then node.right else node.left) else old(root))
      && (forall n {:trigger Spliced(node, n)} :: n in nodes ==> Spliced(node, n))
    }

    twostate lemma SplicedLinks(node: Node)
      requires SplicedOut(node)
      ensures Structure()
    {
      assert old(Linked(node));
      if root != null {
        assert old(Linked(root)) && Spliced(node, root);
      }
      forall n {:trigger Linked(n)} | n in nodes
        ensures Linked(n)
      {
        SplicedDown(node, n);
        SplicedUp(node, n);
      }
      forall i | 0 <= i < |order|
        ensures order[i] in nodes && order[i].pos == i
      {
        var n := old(order)[if i < old(node.pos) then i else i + 1];
        assert old(Linked(n)) && Spliced(node, n);
      }
    }

    twostate lemma SplicedDown(node: Node, new n: Node)
      requires SplicedOut(node) && n in nodes
      ensures Placed(n) && LinkedLeft(n) && LinkedRight(n)
    {
      assert old(Linked(node)) && old(Linked(n)) && Spliced(node, n);
      if old(node.left) != null { assert old(Linked(node.left)) && Spliced(node, old(node.left)); }
      if old(node.right) != null { assert old(Linked(node.right)) && Spliced(node, old(node.right)); }
      if old(n.left) != null && old(n.left) != node { assert old(Linked(n.left)) && Spliced(node, old(n.left)); }
      if old(n.right) != null && old(n.right) != node { assert old(Linked(n.right)) && Spliced(node, old(n.right)); }
    }

    twostate lemma SplicedUp(node: Node, new n: Node)
      requires SplicedOut(node) && n in nodes
      ensures LinkedUp(n)
    {
      assert old(Linked(node)) && old(Linked(n)) && Spliced(node, n);
      if old(n.parent) != null {
        assert old(Linked(n.parent));
        if old(n.parent) != node { assert Spliced(node, old(n.parent)); }
      }
      if old(node.parent) != null { assert old(Linked(node.parent)) && Spliced(node, old(node.parent)); }
    }

    /** Goes right once and left as far as possible: to the next place. */
    method Successor(target: Node) returns (node: Node)
      requires Structure() && target in nodes && target.right != null
      ensures node in nodes && node != target && node.left == null && node.pos == target.pos + 1
      ensures node == target.right || (node.parent != null && node.parent != target && node.parent.left == node)
    {
      assert Linked(target) && Linked(target.right);
      node := target.right;
      while node.left != null
        invariant node in nodes && node.lo == target.pos + 1 && node.hi <= target.hi
        invariant node == target.right || (node.parent != null && node.parent.lo == target.pos + 1 && node.parent.left == node)
        decreases node.hi - node.lo
      {
        assert Linked(node) && Linked(node.left);
        node := node.left;
      }
      assert Linked(node);
    }

    /** Takes out a node with two children: its successor takes its place and colour. */
    method Supplant(target: Node, node: Node) returns (child: Node?, parent: Node)
      requires Structure() && target in nodes && target.left != null && target.right != null
      requires node in nodes && node != target && node.left == null && node.pos == target.pos + 1
      requires node == target.right || (node.parent != null && node.parent != target && node.parent.left == node)
      modifies this, nodes`left, nodes`right, nodes`parent, nodes`pos, nodes`lo, nodes`hi, nodes`red, nodes`bh
      ensures Supplanted(target, node)
      ensures child == old(node.right) && parent == (if old(node.parent) == target then node else old(node.parent))
    {
      Neighbours(target);
      Neighbours(node);
      Neighbours(target.right);
      child, parent := Relink(target, node);
      TakePlace(target, node);
      forall n {:trigger SupplantedAt(target, node, n)} | n in nodes
        ensures SupplantedAt(target, node, n)
      {
        assert RelinkedAt(target, node, n);
      }
    }

    /** The node takes over the target's colour and coordinates. */
    method TakePlace(target: Node, node: Node)
      requires target in nodes && node in nodes && node != target && 0 <= target.pos < |order|
      modifies this`nodes, this`order, nodes`red, nodes`pos, nodes`lo, nodes`hi, nodes`bh
      ensures nodes == old(nodes) - {target} && order == Without(old(order), old(target.pos))
      ensures forall n :: n in nodes ==>
        && n.red == (if n == node then old(target.red) else old(n.red))
        && n.bh == (if n == node then old(target.bh) else old(n.bh))
        && n.pos == (if old(n.pos) < old(target.pos) then old(n.pos) else old(n.pos) - 1)
        && n.lo == (if n == node then old(target.lo) else Closed(old(n.lo), old(target.pos) + 1))
        && n.hi == (if n == node then old(target.hi) - 1 else Closed(old(n.hi), old(target.pos) + 1))
    {
      ghost var lo, hi := target.lo, target.hi;
      node.red := target.red;
      node.bh := target.bh;
      ShiftDown(target, target.pos, target.pos + 1);
      node.lo, node.hi := lo, hi - 1;
    }

    method Relink(target: Node, node: Node) returns (child: Node?, parent: Node)
      requires target in nodes && node in nodes && node != target && target.left != null && target.right != null
      requires target.left in nodes && target.right in nodes && target.left != target.right && node.left == null
      requires target.left != target && target.left != node && target.right != target
      requires node.parent != null && node.parent in nodes && node.parent != node && node.parent != target.left
      requires if node.parent == target then node == target.right else node != target.right && node.parent.left == node
      requires target.parent != null ==> target.parent in nodes && target.parent !in {target, node, target.left, target.right}
      requires target.parent != null ==> target.parent != node.parent && target.parent != node.right
      requires node.right != null ==>
        && node.right.parent == node && node.right in nodes
        && node.right !in {target, node, target.left, target.right, node.parent}
      modifies this`root, nodes`left, nodes`right, nodes`parent
      ensures root == (if old(target.parent) == null then node else old(root))
      ensures child == old(node.right) && parent == (if old(node.parent) == target then node else old(node.parent))
      ensures forall n {:trigger RelinkedAt(target, node, n)} :: n in nodes && n != target ==> RelinkedAt(target, node, n)
    {
      if target.parent != null {
        if target.parent.left == target {
          target.parent.left := node;
        } else {
          target.parent.right := node;
        }
      } else {
        root := node;
      }
      child := node.right;
      parent := node.parent;
      if parent == target {
        parent := node;
      } else {
        if child != null {
          child.parent := parent;
        }
        parent.left := child;
        node.right := target.right;
        target.right.parent := node;
      }
      node.parent := target.parent;
      node.left := target.left;
      target.left.parent := node;
    }

    twostate predicate RelinkedAt(target: Node, new node: Node, new n: Node)
      requires target in old(nodes) && node in old(nodes) && n in old(nodes)
      reads n`left, n`right, n`parent
    {
      var top, low, child := old(target.parent), old(node.parent), old(node.right);
      && n.left == (if n == node then old(target.left)
                    else if n == top && old(n.left) == target then node
                    else if n == low && low != target then child else old(n.left))
      && n.right == (if n == node then (if low == target then child else old(target.right))
                     else if n == top && old(n.left) != target then node else old(n.right))
      && n.parent == (if n == node then top
                      else if n == child then (if low == target then node else low)
                      else if n == old(target.left) || n == old(target.right) then node else old(n.parent))
    }

    /** What supplanting target by node does to each other node n. */
    twostate predicate SupplantedAt(target: Node, new node: Node, new n: Node)
      requires target in old(nodes) && node in old(nodes) && n in old(nodes)
      reads n
    {
      var k := old(target.pos);
      && RelinkedAt(target, node, n)
      && n.red == (if n == node then old(target.red) else old(n.red))
      && n.bh == (if n == node then old(target.bh) else old(n.bh))
      && n.pos == (if old(n.pos) < k then old(n.pos) else old(n.pos) - 1)
      && n.lo == (if n == node then old(target.lo) else Closed(old(n.lo), k + 1))
      && n.hi == (if n == node then old(target.hi) - 1 else Closed(old(n.hi), k + 1))
    }

    twostate predicate Supplanted(target: Node, new node: Node)
      reads this, nodes
    {
      && target in old(nodes) && node in old(nodes) && node != target
      && nodes == old(nodes) - {target} && order == Without(old(order), old(target.pos))
      && old(Structure()) && old(target.left != null && target.right != null)
      && old(node.left == null && node.pos == target.pos + 1)
      && old(node == target.right || (node.parent != null && node.parent != target && node.parent.left == node))
      && root == (if old(target.parent) == null then node else old(root))
      && (forall n {:trigger SupplantedAt(target, node, n)} :: n in nodes ==> SupplantedAt(target, node, n))
    }

    twostate lemma SupplantedLinks(target: Node, new node: Node)
      requires Supplanted(target, node)
      ensures Structure()
    {
      assert old(Linked(target)) && old(Linked(node));
      assert old(Linked(root)) && SupplantedAt(target, node, node);
      if root != node { assert SupplantedAt(target, node, root); }
      forall n {:trigger Linked(n)} | n in nodes
        ensures Linked(n)
      {
        SupplantedPlace(target, node, n);
        SupplantedLeft(target, node, n);
        SupplantedRight(target, node, n);
        SupplantedUp(target, node, n);
      }
      forall i | 0 <= i < |order|
        ensures order[i] in nodes && order[i].pos == i
      {
        var n := old(order)[if i < old(target.pos) then i else i + 1];
        assert old(Linked(n)) && SupplantedAt(target, node, n);
      }
    }

    twostate lemma SupplantedPlace(target: Node, new node: Node, new n: Node)
      requires Supplanted(target, node) && n in nodes
      ensures Placed(n)
    {
      assert old(Linked(target)) && old(Linked(node)) && old(Linked(n)) && SupplantedAt(target, node, n);
      assert old(Linked(target.right)) && old(n.pos) != old(target.pos);
    }

    twostate lemma SupplantedLeft(target: Node, new node: Node, new n: Node)
      requires Supplanted(target, node) && n in nodes
      ensures LinkedLeft(n)
    {
      assert old(Linked(target)) && old(Linked(node)) && old(Linked(n)) && SupplantedAt(target, node, n);
      assert SupplantedAt(target, node, node);
      assert old(Linked(target.left)) && SupplantedAt(target, node, old(target.left));
      assert old(Linked(target.right)) && SupplantedAt(target, node, old(target.right));
      if old(node.right) != null { assert old(Linked(node.right)) && SupplantedAt(target, node, old(node.right)); }
      if old(n.left) != null && old(n.left) != target { assert old(Linked(n.left)) && SupplantedAt(target, node, old(n.left)); }
    }

    twostate lemma SupplantedRight(target: Node, new node: Node, new n: Node)
      requires Supplanted(target, node) && n in nodes
      ensures LinkedRight(n)
    {
      assert old(Linked(target)) && old(Linked(node)) && old(Linked(n)) && SupplantedAt(target, node, n);
      assert SupplantedAt(target, node, node);
      assert old(Linked(target.right)) && SupplantedAt(target, node, old(target.right));
      if old(node.right) != null { assert old(Linked(node.right)) && SupplantedAt(target, node, old(node.right)); }
      if old(n.right) != null && old(n.right) != target { assert old(Linked(n.right)) && SupplantedAt(target, node, old(n.right)); }
    }

    twostate lemma SupplantedUp(target: Node, new node: Node, new n: Node)
      requires Supplanted(target, node) && n in nodes
      ensures LinkedUp(n)
    {
      assert old(Linked(target)) && old(Linked(node)) && old(Linked(n)) && SupplantedAt(target, node, n);
      assert SupplantedAt(target, node, node);
      if old(n.parent) != null {
        assert old(Linked(n.parent));
        if old(n.parent) != target { assert SupplantedAt(target, node, old(n.parent)); }
      }
      if old(target.parent) != null { assert old(Linked(target.parent)) && SupplantedAt(target, node, old(target.parent)); }
      if old(node.parent) != target { assert old(Linked(node.parent)) && SupplantedAt(target, node, old(node.parent)); }
    }

    /** Splicing a red node out keeps the tree valid; a black one leaves a deficit. */
    twostate lemma SplicedColours(node: Node, new child: Node?, new parent: Node?)
      requires SplicedOut(node) && Structure() && old(Valid())
      requires forall n :: n in nodes ==> n.red == old(n.red) && n.bh == old(n.bh)
      requires child == old(if node.left == null then node.right else node.left) && parent == old(node.parent)
      ensures if old(node.red) then Valid() else Deficient(child, parent)
    {
      assert old(Linked(node)) && old(Balanced(node)) && old(RedOk(node));
      if child != null { assert old(Linked(child)) && old(RedOk(child)) && Spliced(node, child); }
      if parent != null { assert old(Linked(parent)) && old(Balanced(parent)) && Spliced(node, parent); }
      if root != null { assert Linked(root); }
      SplicedBalances(node, parent);
      forall n {:trigger RedOk(n)} | n in nodes && (n != child || old(node.red))
        ensures RedOk(n)
      {
        assert old(Linked(n)) && old(RedOk(n)) && Spliced(node, n);
      }
    }

    twostate lemma SplicedBalances(node: Node, new parent: Node?)
      requires SplicedOut(node) && Structure() && old(Valid()) && parent == old(node.parent)
      requires forall n :: n in nodes ==> n.red == old(n.red) && n.bh == old(n.bh)
      ensures forall n {:trigger Balanced(n)} :: n in nodes && (n != parent || old(node.red)) ==> Balanced(n)
    {
      assert old(Linked(node)) && old(Balanced(node));
      if parent != null { assert Linked(parent) && old(Balanced(parent)) && Spliced(node, parent); }
      forall n {:trigger Balanced(n)} | n in nodes && (n != parent || old(node.red))
        ensures Balanced(n)
      {
        assert old(Linked(n)) && old(Balanced(n)) && Spliced(node, n);
      }
    }

    twostate lemma SupplantedColours(target: Node, new node: Node, new child: Node?, new parent: Node)
      requires Supplanted(target, node) && Structure() && old(Valid())
      requires child == old(node.right) && parent == (if old(node.parent) == target then node else old(node.parent))
      ensures if old(node.red) then Valid() else Deficient(child, parent)
    {
      assert old(Linked(target)) && old(Balanced(target));
      assert old(Linked(node)) && old(Balanced(node)) && SupplantedAt(target, node, node);
      if child != null { assert old(Linked(child)) && SupplantedAt(target, node, child); }
      assert old(Linked(target.left)) && SupplantedAt(target, node, old(target.left));
      if old(node.parent) != target {
        assert old(Linked(node.parent)) && old(Balanced(node.parent)) && SupplantedAt(target, node, parent);
        if old(node.parent.right) != null { assert SupplantedAt(target, node, old(node.parent.right)); }
      }
      assert Linked(root) && SupplantedAt(target, node, root);
      SupplantedBalances(target, node, child, parent);
      SupplantedSeparates(target, node, child);
    }

    twostate lemma SupplantedSeparates(target: Node, new node: Node, new child: Node?)
      requires Supplanted(target, node) && Structure() && old(Valid()) && child == old(node.right)
      ensures forall n {:trigger RedOk(n)} :: n in nodes && (n != child || old(node.red)) ==> RedOk(n)
    {
      assert old(Linked(target)) && old(RedOk(target)) && old(Linked(node)) && old(RedOk(node));
      if child != null { assert old(Linked(child)) && old(RedOk(child)); }
      forall n {:trigger RedOk(n)} | n in nodes && (n != child || old(node.red))
        ensures RedOk(n)
      {
        assert old(Linked(n)) && old(RedOk(n)) && SupplantedAt(target, node, n) && Linked(n);
        if n.parent != null { assert SupplantedAt(target, node, n.parent); }
      }
    }

    twostate lemma SupplantedBalances(target: Node, new node: Node, new child: Node?, new parent: Node)
      requires Supplanted(target, node) && Structure() && old(Valid())
      requires child == old(node.right) && parent == (if old(node.parent) == target then node else old(node.parent))
      ensures AllBalanced(if old(node.red) then nodes else nodes - {parent})
    {
      assert old(Linked(target)) && old(Balanced(target));
      assert old(Linked(node)) && old(Balanced(node)) && SupplantedAt(target, node, node);
      forall n {:trigger Balanced(n)} | n in nodes && (n != parent || old(node.red))
        ensures Balanced(n)
      {
        assert old(Linked(n)) && old(Balanced(n)) && SupplantedAt(target, node, n);
        if n.left != null { assert SupplantedAt(target, node, n.left); }
        if n.right != null { assert SupplantedAt(target, node, n.right); }
      }
    }

    /** Removes a node: the tree stays a red-black tree and its in-order sequence loses
        exactly that node. */
    method Erase(target: Node)
      requires Valid() && target in nodes
      modifies this, nodes`left, nodes`right, nodes`parent, nodes`red, nodes`pos, nodes`lo, nodes`hi, nodes`bh
      ensures Valid()
      ensures nodes == old(nodes) - {target}
      ensures 0 <= old(target.pos) < |old(order)| && old(order)[old(target.pos)] == target
      ensures order == Without(old(order), old(target.pos))
    {
      assert Linked(target);
      var child, parent, red;
      if target.left == null || target.right == null {
        red := target.red;
        child, parent := Splice(target);
        SplicedColours(target, child, parent);
      } else {
        var node := Successor(target);
        red := node.red;
        label Found:
        child, parent := Supplant(target, node);
        SupplantedLinks@Found(target, node);
        SupplantedColours@Found(target, node, child, parent);
      }
      if !red {
        EraseColor(child, parent);
      }
    }

    // ---------------------------------------------------------------- linking and walking

    /** A coordinate after a place was opened at k, on the right or on the left of limit k. */
    static ghost function Opened(b: int, k: int, toRight: bool): int
    {
      if b < k || (b == k && !toRight) then b else b + 1
    }

    ghost function Slot(parent: Node?, toRight: bool): int
      reads (if parent == null then {} else {parent})`pos
    {
      if parent == null then 0 else if toRight then parent.pos + 1 else parent.pos
    }

    /** Links a red leaf into an empty child slot: it gets that place in the sequence. */
    method LinkNode(node: Node, parent: Node?, toRight: bool)
      requires Valid() && node !in nodes
      requires parent == null ==> root == null
      requires parent != null ==> parent in nodes && (if toRight then parent.right else parent.left) == null
      modifies this, node`left, node`right, node`parent, node`red, node`pos, node`lo, node`hi, node`bh
      modifies nodes`left, nodes`right, nodes`pos, nodes`lo, nodes`hi
      ensures ValidExceptRed(node)
      ensures nodes == old(nodes) + {node}
      ensures 0 <= old(Slot(parent, toRight)) <= |old(order)|
      ensures var k := old(Slot(parent, toRight)); order == old(order)[..k] + [node] + old(order)[k..]
    {
      if parent != null { assert Linked(parent); }
      if root != null { assert Linked(root); }
      ghost var k := Slot(parent, toRight);
      node.parent, node.red := parent, true;
      node.left, node.right := null, null;
      if parent == null {
        root := node;
      } else if toRight {
        parent.right := node;
      } else {
        parent.left := node;
      }
      ShiftUp(node, k, toRight);
      AddedLinks(node, parent, k, toRight);
      AddedColours(node, parent, k, toRight);
    }

    ghost method ShiftUp(node: Node, k: int, toRight: bool)
      requires node !in nodes && 0 <= k <= |order|
      modifies this`nodes, this`order, node`pos, node`lo, node`hi, node`bh, nodes`pos, nodes`lo, nodes`hi
      ensures nodes == old(nodes) + {node} && order == old(order)[..k] + [node] + old(order)[k..]
      ensures node.pos == node.lo == k && node.hi == k + 1 && node.bh == 0
      ensures forall n :: n in old(nodes) ==>
        && n.pos == (if old(n.pos) < k then old(n.pos) else old(n.pos) + 1)
        && n.lo == Opened(old(n.lo), k, toRight) && n.hi == Opened(old(n.hi), k, toRight)
    {
      forall n | n in nodes { n.pos := if n.pos < k then n.pos else n.pos + 1; }
      forall n | n in nodes { n.lo := Opened(n.lo, k, toRight); }
      forall n | n in nodes { n.hi := Opened(n.hi, k, toRight); }
      node.pos, node.lo, node.hi, node.bh := k, k, k + 1, 0;
      nodes, order := nodes + {node}, order[..k] + [node] + order[k..];
    }

    /** What linking a leaf under parent does to each node n that was there. */
    twostate predicate AddedAt(node: Node, new parent: Node?, new k: int, new toRight: bool, new n: Node)
      requires n in old(nodes)
      reads n
    {
      && n.left == (if n == parent && !toRight then node else old(n.left))
      && n.right == (if n == parent && toRight then node else old(n.right))
      && n.parent == old(n.parent) && n.red == old(n.red) && n.bh == old(n.bh)
      && n.pos == (if old(n.pos) < k then old(n.pos) else old(n.pos) + 1)
      && n.lo == Opened(old(n.lo), k, toRight) && n.hi == Opened(old(n.hi), k, toRight)
    }

    twostate predicate Added(node: Node, new parent: Node?, new k: int, new toRight: bool)
      reads this, nodes
    {
      && old(Valid()) && node !in old(nodes) && nodes == old(nodes) + {node}
      && (parent == null ==> old(root) == null && root == node && k == 0)
      && (parent != null ==>
            && parent in old(nodes) && root == old(root)
            && old(if toRight then parent.right else parent.left) == null
            && k == old(Slot(parent, toRight)))
      && 0 <= k <= |old(order)| && order == old(order)[..k] + [node] + old(order)[k..]
      && node.parent == parent && node.red && node.left == node.right == null
      && node.pos == node.lo == k && node.hi == k + 1 && node.bh == 0
      && (forall n {:trigger AddedAt(node, parent, k, toRight, n)} :: n in old(nodes) ==> AddedAt(node, parent, k, toRight, n))
    }

    twostate lemma AddedLinks(node: Node, new parent: Node?, new k: int, new toRight: bool)
      requires Added(node, parent, k, toRight)
      ensures Structure()
    {
      if parent != null { assert old(Linked(parent)) && AddedAt(node, parent, k, toRight, parent); }
      if old(root) != null { assert AddedAt(node, parent, k, toRight, old(root)); }
      forall n {:trigger Linked(n)} | n in nodes
        ensures Linked(n)
      {
        if n != node {
          AddedDown(node, parent, k, toRight, n);
          AddedUp(node, parent, k, toRight, n);
        }
      }
      forall i | 0 <= i < |order|
        ensures order[i] in nodes && order[i].pos == i
      {
        if i != k {
          var n := old(order)[if i < k then i else i - 1];
          assert AddedAt(node, parent, k, toRight, n);
        }
      }
    }

    twostate lemma AddedDown(node: Node, new parent: Node?, new k: int, new toRight: bool, new n: Node)
      requires Added(node, parent, k, toRight) && n in old(nodes)
      ensures Placed(n) && LinkedLeft(n) && LinkedRight(n)
    {
      assert old(Linked(n)) && AddedAt(node, parent, k, toRight, n);
      if parent != null { assert old(Linked(parent)); }
      if old(n.left) != null { assert old(Linked(n.left)) && AddedAt(node, parent, k, toRight, old(n.left)); }
      if old(n.right) != null { assert old(Linked(n.right)) && AddedAt(node, parent, k, toRight, old(n.right)); }
    }

    twostate lemma AddedUp(node: Node, new parent: Node?, new k: int, new toRight: bool, new n: Node)
      requires Added(node, parent, k, toRight) && n in old(nodes)
      ensures LinkedUp(n)
    {
      assert old(Linked(n)) && AddedAt(node, parent, k, toRight, n);
      if parent != null { assert old(Linked(parent)); }
      if old(n.parent) != null { assert old(Linked(n.parent)) && AddedAt(node, parent, k, toRight, old(n.parent)); }
    }

    twostate lemma AddedColours(node: Node, new parent: Node?, new k: int, new toRight: bool)
      requires Added(node, parent, k, toRight) && Structure()
      ensures ValidExceptRed(node)
    {
      if old(root) != null { assert AddedAt(node, parent, k, toRight, old(root)); }
      forall n {:trigger Balanced(n)} | n in nodes
        ensures Balanced(n)
      {
        if n != node {
          assert old(Balanced(n)) && AddedAt(node, parent, k, toRight, n) && Linked(n);
          if old(n.left) != null { assert AddedAt(node, parent, k, toRight, old(n.left)); }
          if old(n.right) != null { assert AddedAt(node, parent, k, toRight, old(n.right)); }
        }
      }
      forall n {:trigger RedOk(n)} | n in nodes - {node}
        ensures RedOk(n)
      {
        assert old(Linked(n)) && old(RedOk(n)) && AddedAt(node, parent, k, toRight, n);
        if old(n.parent) != null { assert AddedAt(node, parent, k, toRight, old(n.parent)); }
      }
    }

    /** The first node in sequence. */
    method First() returns (n: Node?)
      requires Structure()
      ensures n == if order == [] then null else order[0]
    {
      n := root;
      if n == null {
        return;
      }
      assert Linked(root);
      while n.left != null
        invariant n != null && n in nodes && n.lo == 0
        decreases n.hi - n.lo
      {
        assert Linked(n) && Linked(n.left);
        n := n.left;
      }
      assert Linked(n);
    }

    /** The node after `node` in sequence, none after the last. */
    method NextOf(node: Node) returns (next: Node?)
      requires Structure() && node in nodes
      ensures 0 <= node.pos < |order|
      ensures next == if node.pos + 1 == |order| then null else order[node.pos + 1]
    {
      Neighbours(node);
      if node.parent == node {
        return null;
      }
      if node.right != null {
        next := Successor(node);
        assert Linked(next);
        return;
      }
      var n := node;
      next := n.parent;
      while next != null && n == next.right
        invariant n in nodes && next == n.parent && n.hi == node.pos + 1
        decreases |order| - (n.hi - n.lo)
      {
        assert Linked(n) && Linked(next);
        n := next;
        next := n.parent;
      }
      assert Linked(n);
      if next != null { assert Linked(next); }
    }

    // ---------------------------------------------------------------- height

    ghost function Height(n: Node?): nat
      requires Structure() && (n != null ==> n in nodes)
      reads this, nodes
      decreases if n == null then 0 else n.hi - n.lo
    {
      if n == null then 0 else
        assert Linked(n);
        assert n.left != null ==> Linked(n.left);
        assert n.right != null ==> Linked(n.right);
        var l, r := Height(n.left), Height(n.right);
        1 + if l > r then l else r
    }

    /** A subtree is at most twice as high as it is black-high, and holds at least two to the
        black height, minus one, nodes. */
    lemma {:induction false} HeightBound(n: Node?)
      requires Valid() && (n != null ==> n in nodes)
      ensures Bh(n) >= 0
      ensures Height(n) <= 2 * Bh(n) + if IsRed(n) then 1 else 0
      ensures Power(Bh(n)) <= Size(n) + 1
      decreases if n == null then 0 else n.hi - n.lo
    {
      if n != null {
        assert Linked(n) && Balanced(n) && RedOk(n);
        if n.left != null { assert Linked(n.left) && RedOk(n.left); }
        if n.right != null { assert Linked(n.right) && RedOk(n.right); }
        HeightBound(n.left);
        HeightBound(n.right);
      }
    }

    /** Height at most 2 log2(n + 1). */
    lemma LogarithmicHeight()
      requires Valid()
      ensures exists b: nat :: Height(root) <= 2 * b && Power(b) <= |order| + 1
    {
      HeightBound(root);
      if root != null { assert Linked(root); }
      assert Height(root) <= 2 * Bh(root) && Power(Bh(root)) <= |order| + 1;
    }

    static ghost function Power(k: int): nat
    {
      if k <= 0 then 1 else 2 * Power(k - 1)
    }
  }
}
