/** `kth_smallest`: an in-order walk of a binary search tree with an explicit
    stack, stopping at the `k`-th node it visits. */
module KthSmallest {

  /** A `TreeNode` or `None`. The walk only reads the tree. */
  datatype Tree = Nil | Node(left: Tree, val: int, right: Tree)

  datatype Option<T> = None | Some(value: T)

  /** The values in in-order: left subtree, node, right subtree. */
  function Inorder(t: Tree): (r: seq<int>)
    ensures t.Node? ==> |r| > 0
  {
    match t
    case Nil => []
    case Node(l, v, r) => Inorder(l) + [v] + Inorder(r)
  }

  /** Every value in `t` is below `x`. */
  predicate AllBelow(t: Tree, x: int)
  {
    match t
    case Nil => true
    case Node(l, v, r) => v < x && AllBelow(l, x) && AllBelow(r, x)
  }

  /** Every value in `t` is above `x`. */
  predicate AllAbove(t: Tree, x: int)
  {
    match t
    case Nil => true
    case Node(l, v, r) => v > x && AllAbove(l, x) && AllAbove(r, x)
  }

  /** A binary search tree: smaller values to the left, larger to the right. */
  predicate IsBst(t: Tree)
  {
    match t
    case Nil => true
    case Node(l, v, r) => AllBelow(l, v) && AllAbove(r, v) && IsBst(l) && IsBst(r)
  }

  predicate Increasing(s: seq<int>)
  {
    forall i, j :: 0 <= i < j < |s| ==> s[i] < s[j]
  }

  lemma {:induction false} BelowInorder(t: Tree, x: int)
    requires AllBelow(t, x)
    ensures forall i :: 0 <= i < |Inorder(t)| ==> Inorder(t)[i] < x
  {
    if t.Node? {
      BelowInorder(t.left, x);
      BelowInorder(t.right, x);
    }
  }

  lemma {:induction false} AboveInorder(t: Tree, x: int)
    requires AllAbove(t, x)
    ensures forall i :: 0 <= i < |Inorder(t)| ==> Inorder(t)[i] > x
  {
    if t.Node? {
      AboveInorder(t.left, x);
      AboveInorder(t.right, x);
    }
  }

  /** The in-order walk of a search tree visits its values in strictly increasing order. */
  lemma {:induction false} BstInorderIncreasing(t: Tree)
    requires IsBst(t)
    ensures Increasing(Inorder(t))
  {
    if t.Node? {
      BstInorderIncreasing(t.left);
      BstInorderIncreasing(t.right);
      BelowInorder(t.left, t.val);
      AboveInorder(t.right, t.val);
      var a, b := Inorder(t.left), Inorder(t.right);
      var s := Inorder(t);
      assert s == a + [t.val] + b;
      forall i, j | 0 <= i < j < |s|
        ensures s[i] < s[j]
      {
        if j < |a| {
          assert s[i] == a[i] && s[j] == a[j];
        } else if i > |a| {
          assert s[i] == b[i - |a| - 1] && s[j] == b[j - |a| - 1];
        } else if i == |a| {
          assert s[j] == b[j - |a| - 1];
        } else if j == |a| {
          assert s[i] == a[i];
        } else {
          assert s[i] == a[i] && s[j] == b[j - |a| - 1];
        }
      }
    }
  }

  /** How many elements of `s` are below `x`. */
  function CountBelow(s: seq<int>, x: int): (n: nat)
    ensures n <= |s|
  {
    if s == [] then 0 else (if s[0] < x then 1 else 0) + CountBelow(s[1..], x)
  }

  /** In a strictly increasing sequence exactly `k - 1` elements lie below the `k`-th. */
  lemma {:induction false} CountBelowIncreasing(s: seq<int>, k: nat)
    requires Increasing(s) && 1 <= k <= |s|
    ensures CountBelow(s, s[k - 1]) == k - 1
  {
    CountBelowPrefix(s, k - 1, s[k - 1]);
  }

  /** Counting from position `i` of an increasing sequence, below its element at `m`. */
  lemma {:induction false} CountBelowPrefix(s: seq<int>, m: nat, x: int)
    requires Increasing(s) && m < |s| && x == s[m]
    ensures CountBelow(s, x) == m
    decreases m
  {
    if m == 0 {
      CountNoneBelow(s, x);
    } else {
      assert s[0] < x;
      assert Increasing(s[1..]) by {
        forall i, j | 0 <= i < j < |s| - 1
          ensures s[1..][i] < s[1..][j]
        {
          assert s[1..][i] == s[i + 1] && s[1..][j] == s[j + 1];
        }
      }
      CountBelowPrefix(s[1..], m - 1, x);
    }
  }

  lemma {:induction false} CountNoneBelow(s: seq<int>, x: int)
    requires forall i :: 0 <= i < |s| ==> s[i] >= x
    ensures CountBelow(s, x) == 0
  {
    if s != [] {
      assert forall i :: 0 <= i < |s| - 1 ==> s[1..][i] == s[i + 1];
      CountNoneBelow(s[1..], x);
    }
  }

  /** What the stacked nodes still contribute, top of the stack first: each
      node's value, then the in-order walk of its right subtree. */
  function StackOrder(stack: seq<Tree>): seq<int>
  {
    if stack == [] then []
    else
      var top := stack[|stack| - 1];
      (if top.Node? then [top.val] + Inorder(top.right) else [])
        + StackOrder(stack[..|stack| - 1])
  }

  /** What is still to be visited: the walk of `current`, then the stack. */
  function Pending(current: Tree, stack: seq<Tree>): seq<int>
  {
    Inorder(current) + StackOrder(stack)
  }

  /** Pushing `current` and moving to its left child leaves the pending values as they were. */
  lemma PushKeeps(current: Tree, stack: seq<Tree>)
    requires current.Node?
    ensures Pending(current.left, stack + [current]) == Pending(current, stack)
  {
    assert (stack + [current])[..|stack|] == stack;
  }

  /** Popping the top node and moving to its right subtree takes exactly the
      top's value off the front of the pending values. */
  lemma PopTakes(stack: seq<Tree>)
    requires stack != [] && stack[|stack| - 1].Node?
    ensures Pending(Nil, stack) ==
      [stack[|stack| - 1].val] + Pending(stack[|stack| - 1].right, stack[..|stack| - 1])
  {
  }

  predicate AllNodes(stack: seq<Tree>)
  {
    forall i :: 0 <= i < |stack| ==> stack[i].Node?
  }

  /** `kth_smallest(root, k)`: the `k`-th value of the in-order walk, or
      `None` when `k` is below 1 or above the number of nodes. Between steps,
      the values popped so far, then the walk of `current`, then what the
      stack still holds make up the whole walk of `root`, and `count` is the
      number of values popped. */
  method KthSmallestValue(root: Tree, k: int) returns (r: Option<int>)
    ensures 1 <= k <= |Inorder(root)| ==> r == Some(Inorder(root)[k - 1])
    ensures !(1 <= k <= |Inorder(root)|) ==> r == None
  {
    var stack: seq<Tree> := [];
    var current := root;
    var count := 0;
    ghost var popped: seq<int> := [];
    while stack != [] || current != Nil
      invariant AllNodes(stack)
      invariant popped + Pending(current, stack) == Inorder(root)
      invariant count == |popped| && (1 <= k ==> count < k)
      decreases |Inorder(root)| - count
    {
      while current != Nil
        invariant AllNodes(stack)
        invariant popped + Pending(current, stack) == Inorder(root)
        invariant stack != [] || current != Nil
        decreases current
      {
        PushKeeps(current, stack);
        stack := stack + [current];
        current := current.left;
      }
      var node := stack[|stack| - 1];
      PopTakes(stack);
      ghost var rest := Pending(node.right, stack[..|stack| - 1]);
      assert (popped + [node.val]) + rest == Inorder(root);
      stack := stack[..|stack| - 1];
      popped := popped + [node.val];
      count := count + 1;
      if count == k {
        assert Inorder(root)[k - 1] == node.val;
        return Some(node.val);
      }
      current := node.right;
    }
    assert popped == Inorder(root) by {
      assert Pending(current, stack) == [];
    }
    r := None;
  }

  /** For a search tree, the value found for `k` has exactly `k - 1` smaller
      values in the tree: it is the `k`-th smallest. */
  lemma KthIsKthSmallest(root: Tree, k: int)
    requires IsBst(root) && 1 <= k <= |Inorder(root)|
    ensures CountBelow(Inorder(root), Inorder(root)[k - 1]) == k - 1
  {
    BstInorderIncreasing(root);
    CountBelowIncreasing(Inorder(root), k);
  }

  /** The tree built by the demo: 5 with left 3 (children 2, with left 1, and
      4) and right 6. */
  function SampleTree(): Tree
  {
    Node(Node(Node(Node(Nil, 1, Nil), 2, Nil), 3, Node(Nil, 4, Nil)), 5, Node(Nil, 6, Nil))
  }

  /** The demo tree is a search tree, and its third smallest value is 3. */
  lemma SampleKth()
    ensures IsBst(SampleTree())
    ensures Inorder(SampleTree()) == [1, 2, 3, 4, 5, 6]
    ensures Inorder(SampleTree())[3 - 1] == 3
  {
  }
}
