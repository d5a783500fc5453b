/**
 * `PreorderTraversalSolution`: the preorder traversal written twice, once
 * with an explicit stack of nodes and once recursively; the public method
 * uses the stack version. Both are proved to produce `Preorder`, so they
 * agree on every tree.
 */
module PreorderTraversal {
  import opened TreeCodec
  import opened DemoSolution

  /** The right child of a node, `Nil` for `Nil`. */
  function RightOf(t: Tree): Tree
  {
    if t.Node? then t.right else Nil
  }

  /**
   * The values still owed to the traversal by the nodes on the stack: the
   * right subtree of each, the top of the stack (the last element) first.
   */
  function Pending(stack: seq<Tree>): seq<int>
  {
    if stack == [] then []
    else Preorder(RightOf(stack[|stack| - 1])) + Pending(stack[..|stack| - 1])
  }

  /** Pushing a node owes its right subtree before everything already pending. */
  lemma {:induction false} PendingPush(stack: seq<Tree>, t: Tree)
    ensures Pending(stack + [t]) == Preorder(RightOf(t)) + Pending(stack)
  {
    assert (stack + [t])[..|stack|] == stack;
  }

  /** Recording a node's value and stacking it leaves the same values owed, in the same order. */
  lemma {:induction false} Visit(values: seq<int>, node: Tree, nodes: seq<Tree>, all: seq<int>)
    requires node.Node? && values + Preorder(node) + Pending(nodes) == all
    ensures (values + [node.val]) + Preorder(node.left) + Pending(nodes + [node]) == all
  {
    PendingPush(nodes, node);
  }

  /** Popping a node owes its right subtree next. */
  lemma {:induction false} Pop(values: seq<int>, nodes: seq<Tree>, all: seq<int>)
    requires nodes != [] && values + Pending(nodes) == all
    ensures values + Preorder(RightOf(nodes[|nodes| - 1])) + Pending(nodes[..|nodes| - 1]) == all
  {
  }

  /**
   * `preorderTraversalItr`: push each node and record its value while going
   * down left children; then pop until a popped node has a right child,
   * and start again from it. The values recorded are the preorder.
   */
  method PreorderTraversalItr(root: Tree) returns (values: seq<int>)
    ensures values == Preorder(root)
  {
    values := [];
    var nodes: seq<Tree> := [];
    var node := root;
    while node != Nil
      invariant values + Preorder(node) + Pending(nodes) == Preorder(root)
      invariant node == Nil ==> nodes == []
      invariant |values| <= |Preorder(root)|
      decreases |Preorder(root)| - |values|
    {
      ghost var before := |values|;
      Visit(values, node, nodes, Preorder(root));
      nodes := nodes + [node];
      values := values + [node.val];
      while node.left != Nil
        invariant node.Node? && nodes != [] && nodes[|nodes| - 1] == node
        invariant values + Preorder(node.left) + Pending(nodes) == Preorder(root)
        invariant before < |values| <= |Preorder(root)|
        decreases node
      {
        node := node.left;
        Visit(values, node, nodes, Preorder(root));
        nodes := nodes + [node];
        values := values + [node.val];
      }
      assert values + Pending(nodes) == Preorder(root) by {
        assert Preorder(node.left) == [];
        assert values + [] == values;
      }
      while nodes != []
        invariant node == Nil || (nodes != [] && node == nodes[|nodes| - 1])
        invariant values + Pending(nodes) == Preorder(root)
        invariant before < |values| <= |Preorder(root)|
        decreases |nodes|
      {
        Pop(values, nodes, Preorder(root));
        node := nodes[|nodes| - 1];
        nodes := nodes[..|nodes| - 1];
        node := RightOf(node);
        if node != Nil {
          break;
        }
        assert values + Preorder(node) == values;
      }
    }
  }

  /** `preorderTraversalRec`: the recursive helper on a fresh list. */
  method PreorderTraversalRec(root: Tree) returns (values: seq<int>)
    ensures values == Preorder(root)
  {
    values := PreorderHelper(root, []);
  }

  /** `preorderTraversal`: delegates to the stack version. */
  method Traverse(root: Tree) returns (values: seq<int>)
    ensures values == Preorder(root)
    ensures |values| == Size(root)
  {
    values := PreorderTraversalItr(root);
    PreorderLength(root);
  }
}
