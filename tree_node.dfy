/**
 * The LeetCode level-order tree format: `TreeNode.fromArray` builds linked
 * nodes breadth-first from an `Integer[]` whose `null` slots mark missing
 * children, `toArray` walks a tree back into that format, and `parseArray`
 * reads the array literal.
 */
module TreeCodec {
  import opened Wrappers
  import JavaString

  /** The value of a tree: the shape and the values of the linked nodes. */
  datatype Tree = Nil | Node(val: int, left: Tree, right: Tree)

  function Size(t: Tree): nat
  {
    match t
    case Nil => 0
    case Node(_, l, r) => 1 + Size(l) + Size(r)
  }

  /** A binary tree node whose children are assigned in place. */
  class TreeNode {
    const val: int
    var left: TreeNode?
    var right: TreeNode?

    constructor (x: int)
      ensures val == x && left == null && right == null
    {
      val := x;
      left := null;
      right := null;
    }
  }

  // ============================================================
  // The level-order array, slot by slot
  // ============================================================

  /** Slot `c` of the array; a slot past the end reads as null. */
  function Slot(a: seq<Option<int>>, c: nat): Option<int>
  {
    if c < |a| then a[c] else None
  }

  /** The number of non-null slots before position `p`. */
  function Filled(a: seq<Option<int>>, p: nat): (n: nat)
    ensures n <= p
  {
    if p == 0 then 0 else Filled(a, p - 1) + (if Slot(a, p - 1).Some? then 1 else 0)
  }

  lemma {:induction false} FilledMono(a: seq<Option<int>>, p: nat, q: nat)
    requires p <= q
    ensures Filled(a, p) <= Filled(a, q)
    decreases q - p
  {
    if p < q {
      FilledMono(a, p, q - 1);
    }
  }

  /**
   * The `k`-th pass of the `fromArray` loop finds its queue non-empty: every
   * earlier pass did, and more than `k` nodes exist once the slots before
   * `2k+1` are read (the root and one node per non-null slot).
   */
  predicate Runs(a: seq<Option<int>>, k: nat)
  {
    (k == 0 || Runs(a, k - 1)) && k < Filled(a, 2 * k + 1)
  }

  lemma {:induction false} RunsDown(a: seq<Option<int>>, j: nat, k: nat)
    requires j <= k && Runs(a, k)
    ensures Runs(a, j)
    decreases k - j
  {
    if j < k {
      RunsDown(a, j, k - 1);
    }
  }

  /**
   * Slot `c` becomes a node: it is non-null and it is the root slot, or the
   * pass that reads it (pass `(c-1)/2`, left then right) takes place.
   */
  predicate Created(a: seq<Option<int>>, c: nat)
  {
    Slot(a, c).Some? && (c == 0 || Runs(a, (c - 1) / 2))
  }

  /** The node made from a slot is dequeued after every node made from an earlier slot, so its children lie further on. */
  lemma {:induction false} ChildAfter(a: seq<Option<int>>, p: nat)
    requires Created(a, p)
    ensures p < 2 * Filled(a, p) + 1
  {
    if p > 0 {
      var k := (p - 1) / 2;
      FilledMono(a, 2 * k + 1, p);
    }
  }

  /** The subtree rooted at the node made from slot `p`: its children are read from slots `2k+1` and `2k+2`, where `k` is its place in the queue. */
  function Build(a: seq<Option<int>>, p: nat): (t: Tree)
    requires Created(a, p)
    ensures t.Node? && t.val == a[p].value
    decreases |a| - p
  {
    var k := Filled(a, p);
    ChildAfter(a, p);
    Node(a[p].value,
         if Created(a, 2 * k + 1) then Build(a, 2 * k + 1) else Nil,
         if Created(a, 2 * k + 2) then Build(a, 2 * k + 2) else Nil)
  }

  /** The child that the node dequeued as number `k` gets from slot `c` (`2k+1` or `2k+2`). */
  function ChildOf(a: seq<Option<int>>, c: nat): Tree
  {
    if Created(a, c) then Build(a, c) else Nil
  }

  lemma {:induction false} BuildUnfold(a: seq<Option<int>>, p: nat)
    requires Created(a, p)
    ensures Build(a, p) == Node(a[p].value, ChildOf(a, 2 * Filled(a, p) + 1), ChildOf(a, 2 * Filled(a, p) + 2))
  {
  }

  /** What `fromArray` builds, as a tree value. */
  function FromArraySpec(a: seq<Option<int>>): (t: Tree)
  {
    if |a| == 0 || a[0].None? then Nil else Build(a, 0)
  }

  lemma {:induction false} FromArrayNil(a: seq<Option<int>>)
    ensures FromArraySpec(a) == Nil <==> |a| == 0 || a[0].None?
    ensures FromArraySpec(a).Node? ==> FromArraySpec(a).val == a[0].value
  {
  }

  // ============================================================
  // The level-order walk of `toArray`, over a queue of subtrees
  // ============================================================

  /** Each subtree waiting in the queue accounts for its nodes and their null children. */
  function Weight(t: Tree): nat
  {
    match t
    case Nil => 1
    case Node(_, l, r) => 1 + Weight(l) + Weight(r)
  }

  function QWeight(q: seq<Tree>): nat
  {
    if q == [] then 0 else Weight(q[0]) + QWeight(q[1..])
  }

  lemma {:induction false} QWeightAppend(p: seq<Tree>, q: seq<Tree>)
    ensures QWeight(p + q) == QWeight(p) + QWeight(q)
  {
    if p == [] {
      assert p + q == q;
    } else {
      assert (p + q)[1..] == p[1..] + q;
      QWeightAppend(p[1..], q);
    }
  }

  /** One pass of the walk: dequeue the head and, when it is a node, enqueue its two children. */
  function Next(q: seq<Tree>): (q': seq<Tree>)
    requires q != []
    ensures |q'| == if q[0].Node? then |q| + 1 else |q| - 1
  {
    if q[0].Node? then q[1..] + [q[0].left, q[0].right] else q[1..]
  }

  /** Each pass lowers the weight of the queue, so the walk ends. */
  lemma {:induction false} NextWeight(q: seq<Tree>)
    requires q != []
    ensures QWeight(Next(q)) < QWeight(q)
  {
    if q[0].Node? {
      var l, r := q[0].left, q[0].right;
      QWeightAppend(q[1..], [l, r]);
      assert [l, r][1..] == [r];
      assert [r][1..] == [];
      assert QWeight([r]) == Weight(r);
      assert QWeight([l, r]) == Weight(l) + Weight(r);
    }
  }

  function Opt(t: Tree): Option<int>
  {
    if t.Node? then Some(t.val) else None
  }

  /** The entries the walk appends while it empties the queue `q`: a value per node, a null per empty child. */
  function LevelSlots(q: seq<Tree>): seq<Option<int>>
    decreases QWeight(q)
  {
    if q == [] then []
    else
      NextWeight(q);
      [Opt(q[0])] + LevelSlots(Next(q))
  }

  /** The nodes the walk dequeues, in level order. */
  function LevelNodes(q: seq<Tree>): (ns: seq<Tree>)
    ensures forall i :: 0 <= i < |ns| ==> ns[i].Node?
    decreases QWeight(q)
  {
    if q == [] then []
    else
      NextWeight(q);
      (if q[0].Node? then [q[0]] else []) + LevelNodes(Next(q))
  }

  /** Drops the nulls at the end, as the last loop of `toArray` does. */
  function StripNulls(s: seq<Option<int>>): (r: seq<Option<int>>)
    ensures |r| <= |s| && r == s[..|r|]
    ensures r == [] || r[|r| - 1].Some?
    ensures forall i :: |r| <= i < |s| ==> s[i].None?
  {
    if s != [] && s[|s| - 1].None? then StripNulls(s[..|s| - 1]) else s
  }

  /** What `toArray` returns for a tree. */
  function ToArraySpec(t: Tree): seq<Option<int>>
  {
    if t == Nil then [] else StripNulls(LevelSlots([t]))
  }

  // ------------------------------------------------------------ walk facts

  lemma {:induction false} LevelSlotsLength(q: seq<Tree>)
    ensures |LevelSlots(q)| == |q| + 2 * |LevelNodes(q)|
    decreases QWeight(q)
  {
    if q != [] {
      NextWeight(q);
      LevelSlotsLength(Next(q));
    }
  }

  /** The tree that occupies slot `p` of the walk: a queued tree, or a child of the `j`-th dequeued node. */
  function SlotTree(q: seq<Tree>, p: nat): Tree
    requires p < |q| + 2 * |LevelNodes(q)|
  {
    if p < |q| then q[p]
    else
      var j := (p - |q|) / 2;
      if (p - |q|) % 2 == 0 then LevelNodes(q)[j].left else LevelNodes(q)[j].right
  }

  /** After one pass, slot `p` of the walk is slot `p-1` of the rest of the walk. */
  lemma {:induction false} SlotTreeNext(q: seq<Tree>, p: nat)
    requires q != [] && 0 < p < |q| + 2 * |LevelNodes(q)|
    ensures p - 1 < |Next(q)| + 2 * |LevelNodes(Next(q))|
    ensures SlotTree(q, p) == SlotTree(Next(q), p - 1)
  {
    NextWeight(q);
    var q' := Next(q);
    var ns, ns' := LevelNodes(q), LevelNodes(q');
    if q[0].Node? {
      assert ns == [q[0]] + ns';
      if p < |q| {
        assert q'[p - 1] == q[p];
      } else if p == |q| {
        assert q'[p - 1] == q[0].left;
      } else if p == |q| + 1 {
        assert q'[p - 1] == q[0].right;
      } else {
        var d := p - |q|;
        assert p - 1 - |q'| == d - 2;
        assert (d - 2) / 2 == d / 2 - 1 && (d - 2) % 2 == d % 2;
        assert ns[d / 2] == ns'[d / 2 - 1];
      }
    } else {
      assert ns == ns';
      if p < |q| {
        assert q'[p - 1] == q[p];
      } else {
        assert p - 1 - |q'| == p - |q|;
      }
    }
  }

  lemma {:induction false} SlotAt(q: seq<Tree>, p: nat)
    requires p < |LevelSlots(q)|
    ensures p < |q| + 2 * |LevelNodes(q)|
    ensures LevelSlots(q)[p] == Opt(SlotTree(q, p))
    decreases QWeight(q)
  {
    LevelSlotsLength(q);
    if p > 0 {
      NextWeight(q);
      SlotAt(Next(q), p - 1);
      SlotTreeNext(q, p);
    }
  }

  lemma {:induction false} FilledCons(x: Option<int>, s: seq<Option<int>>, p: nat)
    requires p > 0
    ensures Filled([x] + s, p) == (if x.Some? then 1 else 0) + Filled(s, p - 1)
  {
    if p > 1 {
      FilledCons(x, s, p - 1);
    }
  }

  /** A non-null slot of the walk holds the node that is dequeued as number `Filled(s, p)`. */
  lemma {:induction false} FilledAt(q: seq<Tree>, p: nat)
    requires p < |LevelSlots(q)| && LevelSlots(q)[p].Some?
    ensures p < |q| + 2 * |LevelNodes(q)|
    ensures Filled(LevelSlots(q), p) < |LevelNodes(q)|
    ensures LevelNodes(q)[Filled(LevelSlots(q), p)] == SlotTree(q, p)
    decreases QWeight(q)
  {
    SlotAt(q, p);
    if p > 0 {
      var q' := Next(q);
      NextWeight(q);
      FilledAt(q', p - 1);
      FilledCons(Opt(q[0]), LevelSlots(q'), p);
      SlotTreeNext(q, p);
    }
  }

  /** By the time the walk reaches the children of node `k`, at least `k+1` nodes have been written. */
  lemma {:induction false} FilledLower(q: seq<Tree>, k: nat)
    requires k < |LevelNodes(q)|
    ensures Filled(LevelSlots(q), |q| + 2 * k) >= k + 1
    decreases QWeight(q)
  {
    var s := LevelSlots(q);
    var q' := Next(q);
    NextWeight(q);
    if q[0].Node? && k == 0 {
      FilledMono(s, 1, |q|);
    } else {
      var k' := if q[0].Node? then k - 1 else k;
      FilledLower(q', k');
      FilledCons(Opt(q[0]), LevelSlots(q'), |q| + 2 * k);
    }
  }

  // ------------------------------------------------------------ round trip

  lemma {:induction false} WalkRuns(t: Tree, k: nat)
    requires t.Node? && k < |LevelNodes([t])|
    ensures Runs(LevelSlots([t]), k)
  {
    FilledLower([t], k);
    if k > 0 {
      WalkRuns(t, k - 1);
    }
  }

  /** Slot `2k+1+side` of the walk holds child `side` (0 left, 1 right) of the `k`-th dequeued node, and is a created slot when non-null. */
  lemma {:induction false} WalkChild(t: Tree, k: nat, side: nat)
    requires t.Node? && k < |LevelNodes([t])| && side < 2
    ensures 2 * k + 1 + side < |LevelSlots([t])|
    ensures SlotTree([t], 2 * k + 1 + side)
         == if side == 0 then LevelNodes([t])[k].left else LevelNodes([t])[k].right
    ensures LevelSlots([t])[2 * k + 1 + side] == Opt(SlotTree([t], 2 * k + 1 + side))
    ensures LevelSlots([t])[2 * k + 1 + side].Some? ==> Created(LevelSlots([t]), 2 * k + 1 + side)
  {
    LevelSlotsLength([t]);
    var c := 2 * k + 1 + side;
    assert (c - 1) / 2 == k && (c - 1) % 2 == side;
    SlotAt([t], c);
    WalkRuns(t, k);
  }

  /** Reading back the walk of a tree rebuilds, from every non-null slot, the tree that was there. */
  lemma {:induction false} BuildWalk(t: Tree, p: nat)
    requires t.Node?
    requires p < |LevelSlots([t])| && LevelSlots([t])[p].Some?
    requires p == 0 || Runs(LevelSlots([t]), (p - 1) / 2)
    ensures p < 1 + 2 * |LevelNodes([t])| && Build(LevelSlots([t]), p) == SlotTree([t], p)
    decreases |LevelSlots([t])| - p, 1
  {
    var s := LevelSlots([t]);
    var k := Filled(s, p);
    WalkSlot(t, p);
    var n := LevelNodes([t])[k];
    BuildWalkChild(t, k, 0);
    BuildWalkChild(t, k, 1);
    BuildFrom(s, p, k, n);
  }

  /** A non-null slot of the walk that the loop reaches is created, from the `Filled`-th dequeued node. */
  lemma {:induction false} WalkSlot(t: Tree, p: nat)
    requires t.Node?
    requires p < |LevelSlots([t])| && LevelSlots([t])[p].Some?
    requires p == 0 || Runs(LevelSlots([t]), (p - 1) / 2)
    ensures var s := LevelSlots([t]); var k := Filled(s, p);
      k < |LevelNodes([t])| && Created(s, p) && p < 2 * k + 1
      && LevelNodes([t])[k] == SlotTree([t], p) && s[p] == Some(LevelNodes([t])[k].val)
  {
    var s := LevelSlots([t]);
    FilledAt([t], p);
    SlotAt([t], p);
    ChildAfter(s, p);
  }

  /** A created slot whose value and two children agree with a node builds that node. */
  lemma {:induction false} BuildFrom(s: seq<Option<int>>, p: nat, k: nat, n: Tree)
    requires Created(s, p) && n.Node? && s[p] == Some(n.val) && k == Filled(s, p)
    requires ChildOf(s, 2 * k + 1) == n.left && ChildOf(s, 2 * k + 2) == n.right
    ensures Build(s, p) == n
  {
    BuildUnfold(s, p);
  }

  /** The child read from slot `2k+1+side` is child `side` of the `k`-th dequeued node. */
  lemma {:induction false} BuildWalkChild(t: Tree, k: nat, side: nat)
    requires t.Node? && k < |LevelNodes([t])| && side < 2
    ensures 2 * k + 1 + side < |LevelSlots([t])|
    ensures ChildOf(LevelSlots([t]), 2 * k + 1 + side) == if side == 0 then LevelNodes([t])[k].left else LevelNodes([t])[k].right
    decreases |LevelSlots([t])| - (2 * k + 1 + side), 2
  {
    var c := 2 * k + 1 + side;
    WalkChild(t, k, side);
    if LevelSlots([t])[c].Some? {
      BuildWalk(t, c);
    }
  }

  /** Slots past the end read as null, so dropping trailing nulls changes no slot. */
  lemma {:induction false} StripSlots(s: seq<Option<int>>, c: nat)
    ensures Slot(StripNulls(s), c) == Slot(s, c)
  {
  }

  lemma {:induction false} FilledSame(a: seq<Option<int>>, b: seq<Option<int>>, p: nat)
    requires forall c :: Slot(a, c) == Slot(b, c)
    ensures Filled(a, p) == Filled(b, p)
  {
    if p > 0 {
      FilledSame(a, b, p - 1);
    }
  }

  lemma {:induction false} RunsSame(a: seq<Option<int>>, b: seq<Option<int>>, k: nat)
    requires forall c :: Slot(a, c) == Slot(b, c)
    ensures Runs(a, k) == Runs(b, k)
  {
    FilledSame(a, b, 2 * k + 1);
    if k > 0 {
      RunsSame(a, b, k - 1);
    }
  }

  lemma {:induction false} CreatedSame(a: seq<Option<int>>, b: seq<Option<int>>, c: nat)
    requires forall c :: Slot(a, c) == Slot(b, c)
    ensures Created(a, c) == Created(b, c)
  {
    if c > 0 {
      RunsSame(a, b, (c - 1) / 2);
    }
  }

  lemma {:induction false} BuildSame(a: seq<Option<int>>, b: seq<Option<int>>, p: nat)
    requires forall c :: Slot(a, c) == Slot(b, c)
    requires Created(a, p)
    ensures Created(b, p) && Build(a, p) == Build(b, p)
    decreases |a| - p
  {
    CreatedSame(a, b, p);
    var k := Filled(a, p);
    FilledSame(a, b, p);
    ChildAfter(a, p);
    CreatedSame(a, b, 2 * k + 1);
    CreatedSame(a, b, 2 * k + 2);
    if Created(a, 2 * k + 1) {
      BuildSame(a, b, 2 * k + 1);
    }
    if Created(a, 2 * k + 2) {
      BuildSame(a, b, 2 * k + 2);
    }
  }

  /** `fromArray(toArray(t))` rebuilds `t`: same shape, same values. */
  lemma {:induction false} RoundTrip(t: Tree)
    ensures FromArraySpec(ToArraySpec(t)) == t
  {
    if t.Node? {
      var s := LevelSlots([t]);
      var r := StripNulls(s);
      assert s[0] == Some(t.val);
      BuildWalk(t, 0);
      assert r != [] && r[0] == s[0];
      forall c ensures Slot(r, c) == Slot(s, c) {
        StripSlots(s, c);
      }
      BuildSame(s, r, 0);
    }
  }

  /** Hence `toArray ∘ fromArray` is the identity on the arrays that `toArray` produces. */
  lemma {:induction false} ToArrayFromArray(a: seq<Option<int>>, t: Tree)
    requires a == ToArraySpec(t)
    ensures ToArraySpec(FromArraySpec(a)) == a
  {
    RoundTrip(t);
  }

  // ------------------------------------------------------- toArray's shape

  function CountSome(s: seq<Option<int>>): nat
  {
    if s == [] then 0 else (if s[0].Some? then 1 else 0) + CountSome(s[1..])
  }

  function QSize(q: seq<Tree>): nat
  {
    if q == [] then 0 else Size(q[0]) + QSize(q[1..])
  }

  lemma {:induction false} QSizeAppend(p: seq<Tree>, q: seq<Tree>)
    ensures QSize(p + q) == QSize(p) + QSize(q)
  {
    if p == [] {
      assert p + q == q;
    } else {
      assert (p + q)[1..] == p[1..] + q;
      QSizeAppend(p[1..], q);
    }
  }

  lemma {:induction false} CountSomeAppend(s: seq<Option<int>>, t: seq<Option<int>>)
    ensures CountSome(s + t) == CountSome(s) + CountSome(t)
  {
    if s == [] {
      assert s + t == t;
    } else {
      assert (s + t)[1..] == s[1..] + t;
      CountSomeAppend(s[1..], t);
    }
  }

  lemma {:induction false} LevelSlotsCount(q: seq<Tree>)
    ensures CountSome(LevelSlots(q)) == QSize(q)
    decreases QWeight(q)
  {
    if q != [] {
      NextWeight(q);
      LevelSlotsCount(Next(q));
      CountSomeAppend([Opt(q[0])], LevelSlots(Next(q)));
      if q[0].Node? {
        var l, r := q[0].left, q[0].right;
        QSizeAppend(q[1..], [l, r]);
        assert [l, r][1..] == [r];
        assert [r][1..] == [];
        assert QSize([r]) == Size(r);
        assert QSize([l, r]) == Size(l) + Size(r);
      }
    }
  }

  lemma {:induction false} StripCount(s: seq<Option<int>>)
    ensures CountSome(StripNulls(s)) == CountSome(s)
  {
    if s != [] && s[|s| - 1].None? {
      StripCount(s[..|s| - 1]);
      CountSomeAppend(s[..|s| - 1], [s[|s| - 1]]);
      assert s == s[..|s| - 1] + [s[|s| - 1]];
    }
  }

  /** `toArray` writes one value per node, starts with the root's value, and never ends with null. */
  lemma {:induction false} ToArrayShape(t: Tree)
    ensures t == Nil ==> ToArraySpec(t) == []
    ensures CountSome(ToArraySpec(t)) == Size(t)
    ensures t.Node? ==> |ToArraySpec(t)| > 0 && ToArraySpec(t)[0] == Some(t.val)
    ensures ToArraySpec(t) == [] || ToArraySpec(t)[|ToArraySpec(t)| - 1].Some?
  {
    if t.Node? {
      var s := LevelSlots([t]);
      LevelSlotsCount([t]);
      StripCount(s);
      assert s[0] == Some(t.val);
    }
  }

  /** The root value and its missing left child: `[1,null,2,3]` is 1 with right child 2, whose left child is 3. */
  lemma {:induction false} Example()
    ensures FromArraySpec([Some(1), None, Some(2), Some(3)]) == Node(1, Nil, Node(2, Node(3, Nil, Nil), Nil))
  {
    var a := [Some(1), None, Some(2), Some(3)];
    assert Filled(a, 1) == 1 && Filled(a, 2) == 1 && Filled(a, 3) == 2;
    assert Runs(a, 0) && Runs(a, 1);
    assert Filled(a, 5) == 3 && Filled(a, 7) == 3;
    assert Build(a, 3) == Node(3, Nil, Nil);
    assert Build(a, 2) == Node(2, Node(3, Nil, Nil), Nil);
  }

  // ============================================================
  // Linked nodes and their tree value
  // ============================================================

  /** `x` is null or one of the nodes listed after position `i`. */
  predicate Later(nodes: seq<TreeNode>, i: nat, x: TreeNode?)
  {
    x == null || exists j :: i < j < |nodes| && nodes[j] == x
  }

  /** Positions `m` and `n` hold different nodes. */
  predicate Apart(nodes: seq<TreeNode>, m: nat, n: nat)
  {
    m < |nodes| && n < |nodes| && nodes[m] != nodes[n]
  }

  /** No node is listed twice. */
  predicate Distinct(nodes: seq<TreeNode>)
  {
    forall m, n :: 0 <= m < n < |nodes| ==> Apart(nodes, m, n)
  }

  /** A node that is not listed keeps the list free of repeats. */
  lemma {:induction false} DistinctAppend(nodes: seq<TreeNode>, x: TreeNode)
    requires Distinct(nodes) && x !in nodes
    ensures Distinct(nodes + [x])
  {
    forall m, n | 0 <= m < n < |nodes| + 1
      ensures Apart(nodes + [x], m, n)
    {
      if n < |nodes| {
        assert Apart(nodes, m, n);
      }
    }
  }

  /** `nodes` lists linked nodes once each, and every child pointer leads further down the list, so the links form a tree. */
  ghost predicate Wf(nodes: seq<TreeNode>)
    reads nodes
  {
    Distinct(nodes) &&
    (forall i :: 0 <= i < |nodes| ==> Later(nodes, i, nodes[i].left) && Later(nodes, i, nodes[i].right))
  }

  ghost function IndexIn(nodes: seq<TreeNode>, x: TreeNode): (j: nat)
    requires x in nodes
    ensures j < |nodes| && nodes[j] == x
  {
    var j :| 0 <= j < |nodes| && nodes[j] == x; j
  }

  /** The nodes are distinct, so a node's position is determined. */
  lemma {:induction false} IndexInAt(nodes: seq<TreeNode>, j: nat)
    requires Wf(nodes) && j < |nodes|
    ensures IndexIn(nodes, nodes[j]) == j
  {
    var r := IndexIn(nodes, nodes[j]);
    assert r < j ==> Apart(nodes, r, j);
    assert j < r ==> Apart(nodes, j, r);
  }

  lemma {:induction false} LaterIndex(nodes: seq<TreeNode>, i: nat, x: TreeNode)
    requires Wf(nodes) && i < |nodes| && Later(nodes, i, x)
    ensures x in nodes && i < IndexIn(nodes, x)
  {
    var j :| i < j < |nodes| && nodes[j] == x;
    IndexInAt(nodes, j);
  }

  /** The tree value of the linked node `nodes[j]`. */
  ghost function Abs(nodes: seq<TreeNode>, j: nat): (t: Tree)
    requires Wf(nodes) && j < |nodes|
    reads nodes
    ensures t.Node? && t.val == nodes[j].val
    decreases |nodes| - j
  {
    var n := nodes[j];
    Node(n.val,
         if n.left == null then Nil else LaterIndex(nodes, j, n.left); Abs(nodes, IndexIn(nodes, n.left)),
         if n.right == null then Nil else LaterIndex(nodes, j, n.right); Abs(nodes, IndexIn(nodes, n.right)))
  }

  /** The tree value of a node reference, `Nil` for null. */
  ghost function AbsOf(nodes: seq<TreeNode>, x: TreeNode?): (t: Tree)
    requires Wf(nodes) && (x == null || x in nodes)
    reads nodes
    ensures t == Nil <==> x == null
  {
    if x == null then Nil else Abs(nodes, IndexIn(nodes, x))
  }

  /** A node's tree value is its value over the tree values of its two children. */
  lemma {:induction false} AbsNode(nodes: seq<TreeNode>, x: TreeNode)
    requires Wf(nodes) && x in nodes
    ensures x.left == null || x.left in nodes
    ensures x.right == null || x.right in nodes
    ensures AbsOf(nodes, x) == Node(x.val, AbsOf(nodes, x.left), AbsOf(nodes, x.right))
  {
    var j := IndexIn(nodes, x);
    if x.left != null { LaterIndex(nodes, j, x.left); }
    if x.right != null { LaterIndex(nodes, j, x.right); }
  }

  // ============================================================
  // fromArray
  // ============================================================

  /** The node made from slot `c`, once all nodes up to it exist; null when the slot makes none. */
  function ChildNode(a: seq<Option<int>>, nodes: seq<TreeNode>, c: nat): TreeNode?
  {
    if Created(a, c) && Filled(a, c) < |nodes| then nodes[Filled(a, c)] else null
  }

  /**
   * The linked nodes that `fromArray` has finished: node `Filled(a, c)` was
   * made from the created slot `c` and holds its value, and every node
   * points at the nodes made from its two child slots.
   */
  ghost predicate Built(a: seq<Option<int>>, nodes: seq<TreeNode>)
    reads nodes
  {
    (forall c: nat :: Created(a, c) ==> Holds(a, nodes, c)) &&
    (forall m: nat :: m < |nodes| ==> Points(a, nodes, m))
  }

  /** The node made from slot `c` exists and holds the slot's value. */
  ghost predicate Holds(a: seq<Option<int>>, nodes: seq<TreeNode>, c: nat)
  {
    c < |a| && a[c].Some? && Filled(a, c) < |nodes| && nodes[Filled(a, c)].val == a[c].value
  }

  /** Node `m` points at the nodes made from its child slots `2m+1` and `2m+2`. */
  ghost predicate Points(a: seq<Option<int>>, nodes: seq<TreeNode>, m: nat)
    reads nodes`left, nodes`right
  {
    m < |nodes| && nodes[m].left == ChildNode(a, nodes, 2 * m + 1) && nodes[m].right == ChildNode(a, nodes, 2 * m + 2)
  }

  /** The child slots of node `m` that make a node make one after `m`. */
  lemma {:induction false} ChildLater(a: seq<Option<int>>, nodes: seq<TreeNode>, m: nat, c: nat)
    requires c == 2 * m + 1 || c == 2 * m + 2
    ensures Later(nodes, m, ChildNode(a, nodes, c))
  {
    if ChildNode(a, nodes, c) != null {
      assert Runs(a, (c - 1) / 2);
      assert m < Filled(a, 2 * m + 1) <= Filled(a, c);
    }
  }

  lemma {:induction false} AbsBuild(a: seq<Option<int>>, nodes: seq<TreeNode>, c: nat)
    requires Wf(nodes) && Built(a, nodes) && Created(a, c)
    ensures Filled(a, c) < |nodes| && Abs(nodes, Filled(a, c)) == Build(a, c)
    decreases |a| - c, 1
  {
    var m := Filled(a, c);
    assert Holds(a, nodes, c) && Points(a, nodes, m);
    var x := nodes[m];
    assert c < 2 * m + 1 by {
      ChildAfter(a, c);
    }
    AbsBuildChild(a, nodes, c, 2 * m + 1);
    AbsBuildChild(a, nodes, c, 2 * m + 2);
    assert Abs(nodes, m) == Node(x.val, AbsOf(nodes, x.left), AbsOf(nodes, x.right)) by {
      AbsNode(nodes, x);
      IndexInAt(nodes, m);
    }
    BuildFrom(a, c, m, Abs(nodes, m));
  }

  lemma {:induction false} AbsBuildChild(a: seq<Option<int>>, nodes: seq<TreeNode>, p: nat, c: nat)
    requires Wf(nodes) && Built(a, nodes) && Created(a, p)
    requires c == 2 * Filled(a, p) + 1 || c == 2 * Filled(a, p) + 2
    requires p < c
    ensures ChildNode(a, nodes, c) == null || ChildNode(a, nodes, c) in nodes
    ensures AbsOf(nodes, ChildNode(a, nodes, c)) == ChildOf(a, c)
    decreases |a| - p, 0
  {
    if Created(a, c) {
      var f := Filled(a, c);
      assert c < |a|;
      AbsBuild(a, nodes, c);
      IndexInAt(nodes, f);
    }
  }

  lemma {:induction false} FilledEnd(a: seq<Option<int>>, p: nat)
    requires p <= |a| + 1
    ensures Filled(a, p) <= Filled(a, |a|)
  {
    if p <= |a| {
      FilledMono(a, p, |a|);
    }
  }

  /** The child pointer for slot `c` once the slots before `i` are read: the node made from `c` if `c` is one of them, null otherwise. */
  function Linked(a: seq<Option<int>>, nodes: seq<TreeNode>, i: nat, c: nat): TreeNode?
  {
    if c < i then ChildNode(a, nodes, c) else null
  }

  /** Once the slots before `i` are read there is one node per created slot among them, in slot order. */
  ghost predicate Shape(a: seq<Option<int>>, nodes: seq<TreeNode>, i: nat)
  {
    |nodes| == Filled(a, i) &&
    Distinct(nodes) &&
    (forall c: nat :: c < i && Created(a, c) ==> Filled(a, c) < |nodes|)
  }

  /** The state of `fromArray` after the slots before `i`: the nodes of `Shape`, holding their slots' values and linked to the nodes of the slots read so far. */
  ghost predicate Growing(a: seq<Option<int>>, nodes: seq<TreeNode>, i: nat)
    reads nodes
  {
    Shape(a, nodes, i) &&
    (forall c: nat :: c < i && Created(a, c) ==> Holds(a, nodes, c)) &&
    (forall m: nat :: m < |nodes| ==> PointsSoFar(a, nodes, i, m))
  }

  /** Node `m` points at the nodes made from those of its child slots that come before `i`. */
  ghost predicate PointsSoFar(a: seq<Option<int>>, nodes: seq<TreeNode>, i: nat, m: nat)
    reads nodes`left, nodes`right
  {
    m < |nodes| && nodes[m].left == Linked(a, nodes, i, 2 * m + 1) && nodes[m].right == Linked(a, nodes, i, 2 * m + 2)
  }

  /** Reading slot `i` makes a node exactly when the slot is created, and changes no child pointer but the one for slot `i`. */
  lemma {:induction false} ShapeStep(a: seq<Option<int>>, nodes: seq<TreeNode>, i: nat, x: TreeNode)
    requires 0 < i && Shape(a, nodes, i) && Runs(a, (i - 1) / 2)
    requires Created(a, i) ==> x !in nodes
    ensures Created(a, i) <==> i < |a| && a[i].Some?
    ensures Created(a, i) ==> Shape(a, nodes + [x], i + 1) && Filled(a, i) == |nodes|
    ensures !Created(a, i) ==> Shape(a, nodes, i + 1)
    ensures var nodes' := if Created(a, i) then nodes + [x] else nodes;
      forall c: nat :: c != i ==> Linked(a, nodes', i + 1, c) == Linked(a, nodes, i, c)
    ensures Linked(a, if Created(a, i) then nodes + [x] else nodes, i + 1, i) == if Created(a, i) then x else null
  {
    var nodes' := if Created(a, i) then nodes + [x] else nodes;
    if Created(a, i) {
      DistinctAppend(nodes, x);
    }
    forall c: nat | c != i
      ensures Linked(a, nodes', i + 1, c) == Linked(a, nodes, i, c)
    {
      if c < i && Created(a, c) {
        assert Filled(a, c) < |nodes| && nodes'[Filled(a, c)] == nodes[Filled(a, c)];
      }
    }
  }

  /** The node made from slot `i` holds its value, and the earlier nodes keep theirs. */
  lemma {:induction false} HoldsStep(a: seq<Option<int>>, nodes: seq<TreeNode>, i: nat, x: TreeNode)
    requires Created(a, i) && Filled(a, i) == |nodes| && x.val == a[i].value
    requires forall c: nat :: c < i && Created(a, c) ==> Filled(a, c) < |nodes|
    requires forall c: nat :: c < i && Created(a, c) ==> Holds(a, nodes, c)
    ensures forall c: nat :: c < i + 1 && Created(a, c) ==> Holds(a, nodes + [x], c)
  {
    forall c: nat | c < i + 1 && Created(a, c)
      ensures Holds(a, nodes + [x], c)
    {
      if c < i {
        assert Holds(a, nodes, c);
      }
    }
  }

  /** Slot `i` made node `x`: the nodes with `x` appended are laid out, and hold their values, up to slot `j = i + 1`. */
  lemma {:induction false} MadeStep(a: seq<Option<int>>, nodes: seq<TreeNode>, nodes': seq<TreeNode>, i: nat, j: nat, x: TreeNode)
    requires 0 < i && j == i + 1 && Shape(a, nodes, i) && Runs(a, (i - 1) / 2)
    requires i < |a| && a[i].Some? && x.val == a[i].value
    requires x !in nodes && nodes' == nodes + [x]
    requires forall c: nat :: c < i && Created(a, c) ==> Holds(a, nodes, c)
    ensures Shape(a, nodes', j)
    ensures forall c: nat :: c < j && Created(a, c) ==> Holds(a, nodes', c)
    ensures forall c: nat :: c != i ==> Linked(a, nodes', j, c) == Linked(a, nodes, i, c)
    ensures Linked(a, nodes', j, i) == x
  {
    ShapeStep(a, nodes, i, x);
    HoldsStep(a, nodes, i, x);
  }

  lemma {:induction false} SliceAppend(s: seq<TreeNode>, x: TreeNode, j: nat)
    requires j <= |s|
    ensures (s + [x])[j..] == s[j..] + [x] && s <= s + [x]
  {
  }

  lemma {:induction false} HalfSlot(i: nat)
    requires 0 < i
    ensures i % 2 == 1 ==> i == 2 * ((i - 1) / 2) + 1
    ensures i % 2 == 0 ==> i == 2 * ((i - 1) / 2) + 2
  {
  }

  /**
   * One child block of the `fromArray` loop: slot `i` belongs to the node
   * dequeued as number `(i-1)/2`; a non-null slot becomes its left (odd `i`)
   * or right (even `i`) child and joins the queue.
   */
  method ReadSlot(arr: array<Option<int>>, ghost a: seq<Option<int>>, node: TreeNode, i: nat, ghost nodes: seq<TreeNode>)
    returns (child: TreeNode?, next: nat, ghost nodes': seq<TreeNode>)
    requires a == arr[..]
    requires 0 < i && Growing(a, nodes, i)
    requires (i - 1) / 2 < |nodes| && node == nodes[(i - 1) / 2] && Runs(a, (i - 1) / 2)
    modifies node
    ensures next == i + 1 && Growing(a, nodes', next)
    ensures child == null <==> !(i < arr.Length && arr[i].Some?)
    ensures child == null ==> nodes' == nodes
    ensures child != null ==> fresh(child) && nodes' == nodes + [child]
  {
    ghost var k := (i - 1) / 2;
    next := i + 1;
    if !(i < arr.Length && arr[i].Some?) {
      SkipSlot(a, nodes, i, next, node);
      return null, next, nodes;
    }
    child := new TreeNode(arr[i].value);
    nodes' := nodes + [child];
    MadeStep(a, nodes, nodes', i, next, child);
    if i % 2 == 1 {
      node.left := child;
    } else {
      node.right := child;
    }
    forall m: nat | m < |nodes'|
      ensures PointsSoFar(a, nodes', next, m)
    {
      if m == |nodes| {
        assert 2 * m + 1 > i;
      } else {
        assert old(PointsSoFar(a, nodes, i, m));
        if m != k {
          assert nodes[m] != node by {
            if m < k { assert Apart(nodes, m, k); } else { assert Apart(nodes, k, m); }
          }
          assert 2 * m + 1 != i && 2 * m + 2 != i;
        } else {
          HalfSlot(i);
        }
      }
    }
  }

  /** A null slot, or one past the end, makes no node: the nodes so far stay as they are. */
  lemma {:induction false} SkipSlot(a: seq<Option<int>>, nodes: seq<TreeNode>, i: nat, j: nat, node: TreeNode)
    requires 0 < i && j == i + 1 && Growing(a, nodes, i) && Runs(a, (i - 1) / 2)
    requires !(i < |a| && a[i].Some?)
    ensures Growing(a, nodes, j)
  {
    ShapeStep(a, nodes, i, node);
    forall m: nat | m < |nodes|
      ensures PointsSoFar(a, nodes, j, m)
    {
      assert PointsSoFar(a, nodes, i, m);
    }
  }

  /**
   * One pass of the `fromArray` loop: dequeue the next node, then read its
   * left slot and its right slot, enqueueing each child made.
   */
  method Pass(arr: array<Option<int>>, ghost a: seq<Option<int>>, queue: seq<TreeNode>, i: nat, ghost k: nat, ghost nodes: seq<TreeNode>)
    returns (queue': seq<TreeNode>, i': nat, ghost nodes': seq<TreeNode>)
    requires a == arr[..] && i == 2 * k + 1 && Growing(a, nodes, i)
    requires k < |nodes| && queue == nodes[k..] && Runs(a, k)
    modifies set x | x in nodes
    ensures i' == i + 2 && Growing(a, nodes', i')
    ensures nodes <= nodes' && queue' == nodes'[k + 1..]
    ensures forall x :: x in nodes' ==> x in nodes || fresh(x)
  {
    var node := queue[0];
    queue' := queue[1..];
    assert node == nodes[k] && queue' == nodes[k + 1..];
    var child;
    child, i', nodes' := ReadSlot(arr, a, node, i, nodes);
    if child != null {
      queue' := queue' + [child];
      SliceAppend(nodes, child, k + 1);
    }
    assert nodes <= nodes' && queue' == nodes'[k + 1..];
    ghost var mid := nodes';
    child, i', nodes' := ReadSlot(arr, a, node, i', nodes');
    if child != null {
      queue' := queue' + [child];
      SliceAppend(mid, child, k + 1);
      assert mid <= nodes';
    }
    assert mid <= nodes' && queue' == nodes'[k + 1..];
  }

  /** When the `fromArray` loop stops, every created slot has its node and every node its children: the nodes form the tree `Build` describes. */
  lemma {:induction false} Finished(a: seq<Option<int>>, nodes: seq<TreeNode>, i: nat, k: nat)
    requires i == 2 * k + 1 && i <= |a| + 1 && k <= |nodes| && nodes != []
    requires k == 0 || Runs(a, k - 1)
    requires k == |nodes| || i >= |a|
    requires Growing(a, nodes, i) && Created(a, 0)
    ensures Wf(nodes) && AbsOf(nodes, nodes[0]) == Build(a, 0)
  {
    forall c: nat | Created(a, c)
      ensures Holds(a, nodes, c)
    {
      if c >= i {
        RunsDown(a, k, (c - 1) / 2);
      }
    }
    forall m: nat | m < |nodes|
      ensures Points(a, nodes, m)
      ensures Later(nodes, m, nodes[m].left) && Later(nodes, m, nodes[m].right)
    {
      assert PointsSoFar(a, nodes, i, m);
      ChildLater(a, nodes, m, 2 * m + 1);
      ChildLater(a, nodes, m, 2 * m + 2);
    }
    AbsBuild(a, nodes, 0);
    IndexInAt(nodes, 0);
  }

  /**
   * `fromArray`: the root comes from slot 0; each pass dequeues a node and
   * gives it the children made from the next two slots, a null slot making
   * no child but still taking its place. The loop stops when the queue
   * empties or the slots run out.
   */
  method FromArray(arr: array<Option<int>>) returns (root: TreeNode?, ghost nodes: seq<TreeNode>)
    ensures root == null <==> arr.Length == 0 || arr[0].None?
    ensures Wf(nodes) && (root == null || root in nodes)
    ensures AbsOf(nodes, root) == FromArraySpec(arr[..])
    ensures |nodes| <= Filled(arr[..], arr.Length)
    ensures forall x :: x in nodes ==> fresh(x)
  {
    if arr.Length == 0 || arr[0].None? {
      return null, [];
    }
    ghost var a := arr[..];
    root := new TreeNode(arr[0].value);
    nodes := [root];
    var queue: seq<TreeNode> := [root];
    var i := 1;
    ghost var k := 0;
    while queue != [] && i < arr.Length
      invariant i == 2 * k + 1 && i <= |a| + 1
      invariant k <= |nodes| && queue == nodes[k..]
      invariant k == 0 || Runs(a, k - 1)
      invariant nodes != [] && nodes[0] == root
      invariant forall x :: x in nodes ==> fresh(x)
      invariant Growing(a, nodes, i)
      decreases |a| - i
    {
      queue, i, nodes := Pass(arr, a, queue, i, k, nodes);
      k := k + 1;
    }
    FilledEnd(a, i);
    Finished(a, nodes, i, k);
  }

  // ============================================================
  // toArray
  // ============================================================

  /** Every reference in the queue is null or one of the linked nodes. */
  predicate Among(nodes: seq<TreeNode>, q: seq<TreeNode?>)
  {
    forall i :: 0 <= i < |q| ==> q[i] == null || q[i] in nodes
  }

  /** The tree values of the references waiting in the queue. */
  ghost function Trees(nodes: seq<TreeNode>, q: seq<TreeNode?>): (ts: seq<Tree>)
    requires Wf(nodes) && Among(nodes, q)
    reads nodes
    ensures |ts| == |q| && forall i :: 0 <= i < |q| ==> ts[i] == AbsOf(nodes, q[i])
  {
    if q == [] then [] else [AbsOf(nodes, q[0])] + Trees(nodes, q[1..])
  }

  /** Dequeueing a reference and enqueueing its two children is the walk's `Next` on tree values. */
  lemma {:induction false} TreesNext(nodes: seq<TreeNode>, q: seq<TreeNode?>)
    requires Wf(nodes) && Among(nodes, q) && q != []
    ensures q[0] != null ==> Among(nodes, q[1..] + [q[0].left, q[0].right])
    ensures q[0] != null ==> Trees(nodes, q[1..] + [q[0].left, q[0].right]) == Next(Trees(nodes, q))
    ensures q[0] == null ==> Among(nodes, q[1..]) && Trees(nodes, q[1..]) == Next(Trees(nodes, q))
  {
    var x := q[0];
    if x != null {
      AbsNode(nodes, x);
      var q' := q[1..] + [x.left, x.right];
      assert Trees(nodes, q') == Next(Trees(nodes, q));
    } else {
      assert Trees(nodes, q[1..]) == Next(Trees(nodes, q));
    }
  }

  /**
   * `toArray`: a breadth-first walk that writes each node's value and a
   * null for each missing child, then drops the trailing nulls.
   */
  method ToArray(root: TreeNode?, ghost nodes: seq<TreeNode>) returns (result: seq<Option<int>>)
    requires Wf(nodes) && (root == null || root in nodes)
    ensures result == ToArraySpec(AbsOf(nodes, root))
  {
    result := [];
    if root == null {
      return;
    }
    assert AbsOf(nodes, root) != Nil;
    result := LevelWalk(root, nodes);
    result := DropTrailingNulls(result);
  }

  /** The breadth-first loop of `toArray`: each dequeued node's value, or a null for a missing child. */
  method LevelWalk(root: TreeNode, ghost nodes: seq<TreeNode>) returns (result: seq<Option<int>>)
    requires Wf(nodes) && root in nodes
    ensures result == LevelSlots([AbsOf(nodes, root)])
  {
    result := [];
    var queue: seq<TreeNode?> := [root];
    ghost var full := LevelSlots([AbsOf(nodes, root)]);
    assert Trees(nodes, queue) == [AbsOf(nodes, root)];
    while queue != []
      invariant Among(nodes, queue)
      invariant result + LevelSlots(Trees(nodes, queue)) == full
      decreases QWeight(Trees(nodes, queue))
    {
      ghost var ts := Trees(nodes, queue);
      NextWeight(ts);
      TreesNext(nodes, queue);
      var node := queue[0];
      if node != null {
        result := result + [Some(node.val)];
        queue := queue[1..] + [node.left, node.right];
      } else {
        result := result + [None];
        queue := queue[1..];
      }
    }
  }

  /** The trailing-null loop of `toArray`: nulls removed from the end while the last element is null. */
  method DropTrailingNulls(s: seq<Option<int>>) returns (result: seq<Option<int>>)
    ensures result == StripNulls(s)
  {
    result := s;
    while result != [] && result[|result| - 1].None?
      invariant StripNulls(result) == StripNulls(s)
    {
      result := result[..|result| - 1];
    }
  }

  // ============================================================
  // parseArray and toString
  // ============================================================

  /** One element of the array literal: `null` after trimming, or `Integer.parseInt` of the trimmed text. */
  function ParseElement(part: string): Result<Option<int>>
  {
    var p := JavaString.Trim(part);
    if p == "null" then Ok(None)
    else
      match JavaString.ParseInt(p)
      case Ok(n) => Ok(Some(n))
      case Err(e) => Err(e)
  }

  /** The elements parsed in order; the parse succeeds exactly when every element does. */
  function ParseElements(parts: seq<string>): Result<seq<Option<int>>>
  {
    if parts == [] then Ok([])
    else
      match ParseElement(parts[0])
      case Err(e) => Err(e)
      case Ok(x) =>
        match ParseElements(parts[1..])
        case Err(e) => Err(e)
        case Ok(xs) => Ok([x] + xs)
  }

  /** The parse succeeds exactly when every element does, and then holds each element's value in order. */
  lemma {:induction false} ParseElementsOk(parts: seq<string>)
    ensures ParseElements(parts).Ok? <==> forall i :: 0 <= i < |parts| ==> ParseElement(parts[i]).Ok?
    ensures ParseElements(parts).Ok? ==>
      |ParseElements(parts).value| == |parts| &&
      forall i :: 0 <= i < |parts| ==> ParseElement(parts[i]) == Ok(ParseElements(parts).value[i])
  {
    if parts != [] {
      ParseElementsOk(parts[1..]);
      if ParseElement(parts[0]).Ok? && ParseElements(parts[1..]).Ok? {
        var r := ParseElements(parts).value;
        forall i | 0 <= i < |parts|
          ensures ParseElement(parts[i]) == Ok(r[i])
        {
          if i > 0 {
            assert parts[i] == parts[1..][i - 1];
          }
        }
      } else if ParseElement(parts[0]).Ok? {
        var i :| 0 <= i < |parts| - 1 && !ParseElement(parts[1..][i]).Ok?;
        assert parts[1..][i] == parts[i + 1];
      }
    }
  }

  /** The first element that fails decides the exception `parseArray` throws. */
  lemma {:induction false} ParseElementsError(parts: seq<string>, i: nat)
    requires i < |parts| && ParseElement(parts[i]).Err?
    requires forall j :: 0 <= j < i ==> ParseElement(parts[j]).Ok?
    ensures ParseElements(parts) == Err(ParseElement(parts[i]).error)
  {
    if i > 0 {
      var rest := parts[1..];
      assert rest[i - 1] == parts[i];
      assert ParseElement(parts[0]).Ok?;
      TailParses(parts, i);
      ParseElementsError(rest, i - 1);
      ElementsErrorStep(parts);
    }
  }

  lemma {:induction false} TailParses(parts: seq<string>, i: nat)
    requires 0 < i <= |parts| && forall j :: 0 <= j < i ==> ParseElement(parts[j]).Ok?
    ensures forall j :: 0 <= j < i - 1 ==> ParseElement(parts[1..][j]).Ok?
  {
    forall j | 0 <= j < i - 1
      ensures ParseElement(parts[1..][j]).Ok?
    {
      assert parts[1..][j] == parts[j + 1];
    }
  }

  /** After an element that parses, an error in the rest is the error of the whole. */
  lemma {:induction false} ElementsErrorStep(parts: seq<string>)
    requires parts != [] && ParseElement(parts[0]).Ok? && ParseElements(parts[1..]).Err?
    ensures ParseElements(parts) == ParseElements(parts[1..])
  {
  }

  /**
   * `parseArray`: `[]` is the empty array; any other text loses its first
   * and last characters (whatever they are), is split at commas, and each
   * piece is parsed. Text shorter than two characters makes `substring` throw.
   */
  function ParseArraySpec(s: string): Result<seq<Option<int>>>
  {
    if s == "[]" then Ok([])
    else
      match JavaString.Substring(s, 1, |s| - 1)
      case Err(e) => Err(e)
      case Ok(content) => ParseElements(JavaString.Split(content, ','))
  }

  /** `parseArray`, reading the literal into a fresh `Integer[]`. */
  method ParseArray(s: string) returns (r: Result<array<Option<int>>>)
    ensures r.Ok? <==> ParseArraySpec(s).Ok?
    ensures r.Ok? ==> fresh(r.value) && r.value[..] == ParseArraySpec(s).value
    ensures r.Err? ==> r.error == ParseArraySpec(s).error
  {
    if s == "[]" {
      var empty := new Option<int>[0];
      return Ok(empty);
    }
    var content := JavaString.Substring(s, 1, |s| - 1);
    if content.Err? {
      return Err(content.error);
    }
    var parts := JavaString.Split(content.value, ',');
    r := ParseParts(parts);
  }

  /** The loop of `parseArray`: parse each piece into its slot, stopping at the first exception. */
  method ParseParts(parts: seq<string>) returns (r: Result<array<Option<int>>>)
    ensures r.Ok? <==> ParseElements(parts).Ok?
    ensures r.Ok? ==> fresh(r.value) && r.value[..] == ParseElements(parts).value
    ensures r.Err? ==> r.error == ParseElements(parts).error
  {
    var result := new Option<int>[|parts|];
    ghost var done: seq<Option<int>> := [];
    for i := 0 to |parts|
      invariant |done| == i && result[..i] == done
      invariant forall j :: 0 <= j < i ==> ParseElement(parts[j]) == Ok(done[j])
    {
      var part := JavaString.Trim(parts[i]);
      var x: Option<int>;
      if part == "null" {
        x := None;
      } else {
        var n := JavaString.ParseInt(part);
        if n.Err? {
          ParseElementsError(parts, i);
          return Err(n.error);
        }
        x := Some(n.value);
      }
      assert ParseElement(parts[i]) == Ok(x);
      result[i] := x;
      done := done + [x];
    }
    assert result[..] == done;
    ParseElementsOk(parts);
    return Ok(result);
  }

  /** Text too short to hold two brackets makes `substring(1, length - 1)` throw. */
  lemma {:induction false} ParseArrayShort(s: string)
    requires |s| < 2
    ensures ParseArraySpec(s).Err? && ParseArraySpec(s).error.kind == IndexOutOfBounds
  {
  }

  /** How `List.toString` writes one element: the decimal value, or `null`. */
  function ElementString(x: Option<int>): string
  {
    if x.Some? then JavaString.IntToString(x.value) else "null"
  }

  /** The elements as `List.toString` lists them, each after the first preceded by a space. */
  function ListItems(v: seq<Option<int>>): (items: seq<string>)
    ensures |items| == |v|
    ensures forall i :: 0 <= i < |v| ==> items[i] == (if i == 0 then "" else " ") + ElementString(v[i])
  {
    seq(|v|, i requires 0 <= i < |v| => (if i == 0 then "" else " ") + ElementString(v[i]))
  }

  /** `List<Integer>.toString()`: the elements between brackets, separated by `", "`. */
  function ListString(v: seq<Option<int>>): string
  {
    "[" + JavaString.Join(ListItems(v), ',') + "]"
  }

  /** `TreeNode.toString()`: the `toArray` list written out. */
  function TreeString(t: Tree): string
  {
    ListString(ToArraySpec(t))
  }

  /** The values a Java `int` can hold, at every node. */
  predicate IntValues(t: Tree)
  {
    t.Node? ==> JavaString.INT_MIN <= t.val <= JavaString.INT_MAX && IntValues(t.left) && IntValues(t.right)
  }

  predicate IntSlots(v: seq<Option<int>>)
  {
    forall i :: 0 <= i < |v| && v[i].Some? ==> JavaString.INT_MIN <= v[i].value <= JavaString.INT_MAX
  }

  lemma {:induction false} LevelSlotsInt(q: seq<Tree>)
    requires forall i :: 0 <= i < |q| ==> IntValues(q[i])
    ensures IntSlots(LevelSlots(q))
    decreases QWeight(q)
  {
    if q != [] {
      NextWeight(q);
      var q' := Next(q);
      assert forall i :: 0 <= i < |q'| ==> IntValues(q'[i]) by {
        if q[0].Node? {
          assert forall i :: 0 <= i < |q'| ==> q'[i] == if i < |q| - 1 then q[i + 1] else if i == |q| - 1 then q[0].left else q[0].right;
        }
      }
      LevelSlotsInt(q');
      var s := LevelSlots(q);
      assert s == [Opt(q[0])] + LevelSlots(q');
      forall i | 0 <= i < |s| && s[i].Some?
        ensures JavaString.INT_MIN <= s[i].value <= JavaString.INT_MAX
      {
        if i > 0 {
          assert s[i] == LevelSlots(q')[i - 1];
        }
      }
    }
  }

  /** `Integer.toString` writes a sign and digits only, so never a comma, and never starts or ends with a trimmable character. */
  lemma {:induction false} IntStringChars(n: int)
    ensures var e := JavaString.IntToString(n);
      e != [] && ',' !in e && !JavaString.IsTrimmable(e[0]) && !JavaString.IsTrimmable(e[|e| - 1]) && e != "null"
      && forall i :: 0 <= i < |e| ==> e[i] == '-' || JavaString.IsDigit(e[i])
  {
    var e := JavaString.IntToString(n);
    var d := JavaString.NatToString(if n < 0 then -n else n);
    assert e == if n < 0 then "-" + d else d;
    assert JavaString.IsDigit(d[|d| - 1]) && e[|e| - 1] == d[|d| - 1];
    assert forall i :: 0 <= i < |e| ==> e[i] == '-' || JavaString.IsDigit(e[i]);
  }

  /** The text `List.toString` writes for one element holds no comma. */
  lemma {:induction false} ElementNoComma(x: Option<int>, lead: string)
    requires lead == "" || lead == " "
    ensures ',' !in lead + ElementString(x)
  {
    var e := ElementString(x);
    if x.Some? {
      IntStringChars(x.value);
    }
    var p := lead + e;
    forall i | 0 <= i < |p|
      ensures p[i] != ','
    {
      if i >= |lead| {
        assert p[i] == e[i - |lead|];
      }
    }
  }

  /** The text `List.toString` writes for one element parses back to it. */
  lemma {:induction false} ParseElementString(x: Option<int>, lead: string)
    requires lead == "" || lead == " "
    requires x.Some? ==> JavaString.INT_MIN <= x.value <= JavaString.INT_MAX
    ensures ParseElement(lead + ElementString(x)) == Ok(x)
  {
    var e := ElementString(x);
    assert e != [] && !JavaString.IsTrimmable(e[0]) && !JavaString.IsTrimmable(e[|e| - 1]) by {
      if x.Some? {
        IntStringChars(x.value);
      }
    }
    assert JavaString.Trim(lead + e) == e by {
      JavaString.TrimOfTrimmed(e);
      JavaString.TrimLead(lead, e);
    }
    if x.Some? {
      assert e != "null" && JavaString.ParseInt(e) == Ok(x.value) by {
        IntStringChars(x.value);
        JavaString.ParseIntToString(x.value);
      }
    }
  }

  /** Each element `List.toString` writes parses back to it. */
  lemma {:induction false} ParseListItems(v: seq<Option<int>>)
    requires IntSlots(v)
    ensures ParseElements(ListItems(v)) == Ok(v)
  {
    var items := ListItems(v);
    forall i | 0 <= i < |v|
      ensures ParseElement(items[i]) == Ok(v[i])
    {
      ParseElementString(v[i], if i == 0 then "" else " ");
    }
    ParseElementsOk(items);
    var r := ParseElements(items);
    assert r.Ok? && r.value == v;
  }

  /** Splitting the text between the brackets at commas gives back the elements as written. */
  lemma {:induction false} SplitListItems(v: seq<Option<int>>)
    requires v != []
    ensures JavaString.Split(JavaString.Join(ListItems(v), ','), ',') == ListItems(v)
  {
    var items := ListItems(v);
    forall i | 0 <= i < |v|
      ensures ',' !in items[i]
    {
      ElementNoComma(v[i], if i == 0 then "" else " ");
    }
    assert items[|items| - 1] != "";
    JavaString.SplitJoin(items, ',');
  }

  /** A non-empty list is not written `[]`, and `substring(1, length - 1)` takes off exactly its brackets. */
  lemma {:induction false} ListStringContent(v: seq<Option<int>>)
    requires v != []
    ensures ListString(v) != "[]"
    ensures JavaString.Substring(ListString(v), 1, |ListString(v)| - 1) == Ok(JavaString.Join(ListItems(v), ','))
  {
    var items := ListItems(v);
    var s := ListString(v);
    JoinHead(items, ',');
    assert items[0] != "";
    assert s[1..|s| - 1] == JavaString.Join(items, ',');
  }

  /** `parseArray` reads back what `List.toString` writes, for 32-bit values. */
  lemma {:induction false} ParseListString(v: seq<Option<int>>)
    requires IntSlots(v)
    ensures ParseArraySpec(ListString(v)) == Ok(v)
  {
    if v == [] {
      assert ListString(v) == "[]";
    } else {
      ListStringContent(v);
      SplitListItems(v);
      ParseListItems(v);
    }
  }

  /** The separator-joined text starts with its first part. */
  lemma {:induction false} JoinHead(parts: seq<string>, sep: char)
    requires parts != []
    ensures |parts[0]| <= |JavaString.Join(parts, sep)| && JavaString.Join(parts, sep)[..|parts[0]|] == parts[0]
  {
  }

  /**
   * `TreeNode.fromArray(TreeNode.parseArray(t.toString()))` rebuilds `t`:
   * the printed form of a tree of 32-bit values parses back into it.
   */
  lemma {:induction false} TreeStringRoundTrip(t: Tree)
    requires IntValues(t)
    ensures ParseArraySpec(TreeString(t)).Ok?
    ensures FromArraySpec(ParseArraySpec(TreeString(t)).value) == t
  {
    var v := ToArraySpec(t);
    if t.Node? {
      var s := LevelSlots([t]);
      LevelSlotsInt([t]);
      assert IntSlots(v) by {
        forall i | 0 <= i < |v| && v[i].Some?
          ensures JavaString.INT_MIN <= v[i].value <= JavaString.INT_MAX
        {
          assert v[i] == s[i];
        }
      }
    }
    ParseListString(v);
    RoundTrip(t);
  }
}
