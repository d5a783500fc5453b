/**
 * `DemoSolution`, the sample solution the harness is exercised with: a
 * preorder traversal that appends to a shared list, binary search for an
 * insertion point, the staircase search of a sorted matrix, and a
 * duplicate search within a window using a map from value to last index.
 * The same traversal and binary search appear again, unchanged, in the
 * integration test's `TestSolution`, so they are modelled once, here.
 */
module DemoSolution {
  import opened Wrappers
  import opened TreeCodec
  import JavaString

  // ============================================================ preorderTraversal

  /** The values in preorder: each node, then its left subtree, then its right one. */
  function Preorder(t: Tree): seq<int>
  {
    match t
    case Nil => []
    case Node(v, l, r) => [v] + Preorder(l) + Preorder(r)
  }

  /** Each node's value appears once: the traversal is as long as the tree has nodes. */
  lemma {:induction false} PreorderLength(t: Tree)
    ensures |Preorder(t)| == Size(t)
  {
    if t.Node? {
      PreorderLength(t.left);
      PreorderLength(t.right);
    }
  }

  /** The values down the left edge, from the root. */
  function LeftSpine(t: Tree): (r: seq<int>)
    ensures t.Node? ==> r != [] && r[0] == t.val
  {
    match t
    case Nil => []
    case Node(v, l, _) => [v] + LeftSpine(l)
  }

  /** The traversal begins with the root and its whole left edge, top down. */
  lemma {:induction false} LeftSpineFirst(t: Tree)
    ensures |LeftSpine(t)| <= |Preorder(t)| && Preorder(t)[..|LeftSpine(t)|] == LeftSpine(t)
  {
    if t.Node? {
      LeftSpineFirst(t.left);
      var p := Preorder(t);
      assert p == [t.val] + (Preorder(t.left) + Preorder(t.right));
      assert (Preorder(t.left) + Preorder(t.right))[..|LeftSpine(t.left)|] == LeftSpine(t.left);
    }
  }

  /** `preorderHelper`: appends the subtree's values, in preorder, to the shared list. */
  method PreorderHelper(node: Tree, result: seq<int>) returns (out: seq<int>)
    ensures out == result + Preorder(node)
    decreases node
  {
    if node == Nil {
      return result;
    }
    out := result + [node.val];
    out := PreorderHelper(node.left, out);
    out := PreorderHelper(node.right, out);
  }

  /** `preorderTraversal`: the helper run on a fresh list. */
  method PreorderTraversal(root: Tree) returns (result: seq<int>)
    ensures result == Preorder(root)
  {
    result := PreorderHelper(root, []);
  }

  // ============================================================ searchInsert

  predicate Ascending(a: seq<int>)
  {
    forall i, j :: 0 <= i < j < |a| ==> a[i] <= a[j]
  }

  /**
   * `searchInsert`: binary search with the midpoint taken as
   * `left + (right - left) / 2`. On any array the answer is a position in
   * `[0, n]`; on an ascending one it is an index holding the target, or
   * else the place where the target would go: everything before it
   * smaller, everything from it on larger.
   */
  method SearchInsert(nums: array<int>, target: int) returns (r: int)
    ensures 0 <= r <= nums.Length
    ensures Ascending(nums[..]) ==>
      (r < nums.Length && nums[r] == target)
      || ((forall i :: 0 <= i < r ==> nums[i] < target) && (forall i :: r <= i < nums.Length ==> nums[i] > target))
  {
    var left, right := 0, nums.Length - 1;
    while left <= right
      invariant 0 <= left <= right + 1 <= nums.Length
      invariant Ascending(nums[..]) ==> forall i :: 0 <= i < left ==> nums[i] < target
      invariant Ascending(nums[..]) ==> forall i :: right < i < nums.Length ==> nums[i] > target
      decreases right - left
    {
      var mid := left + (right - left) / 2;
      if nums[mid] == target {
        return mid;
      } else if nums[mid] < target {
        left := mid + 1;
      } else {
        right := mid - 1;
      }
    }
    return left;
  }

  // ============================================================ searchMatrix

  /** Every row as long as the first, which is not empty. */
  predicate Rectangular(m: seq<seq<int>>)
  {
    |m| > 0 && |m[0]| > 0 && forall i :: 0 <= i < |m| ==> |m[i]| == |m[0]|
  }

  /** Rows ascending left to right and columns ascending top to bottom. */
  predicate SortedGrid(m: seq<seq<int>>)
    requires Rectangular(m)
  {
    (forall i, j, k :: 0 <= i < |m| && 0 <= j < k < |m[0]| ==> m[i][j] <= m[i][k])
    && (forall i, h, j :: 0 <= i < h < |m| && 0 <= j < |m[0]| ==> m[i][j] <= m[h][j])
  }

  predicate Occurs(m: seq<seq<int>>, target: int)
  {
    exists i, j :: 0 <= i < |m| && 0 <= j < |m[i]| && m[i][j] == target
  }

  /**
   * `searchMatrix`: `false` for a null or empty matrix or an empty first
   * row; otherwise the walk from the top-right corner, left on a larger
   * value and down on a smaller one. A row shorter than the first makes the
   * walk read past its end, which throws.
   */
  method SearchMatrix(matrix: Option<seq<seq<int>>>, target: int) returns (r: Result<bool>)
    ensures matrix.None? || matrix.value == [] || matrix.value[0] == [] ==> r == Ok(false)
    ensures matrix.Some? && Rectangular(matrix.value) ==> r.Ok?
    ensures r.Err? ==> r.error.kind == ArrayIndexOutOfBounds
    ensures r == Ok(true) ==> matrix.Some? && Occurs(matrix.value, target)
    ensures matrix.Some? && Rectangular(matrix.value) && SortedGrid(matrix.value)
            ==> r == Ok(Occurs(matrix.value, target))
  {
    if matrix.None? || |matrix.value| == 0 || |matrix.value[0]| == 0 {
      return Ok(false);
    }
    var m := matrix.value;
    var rows := |m|;
    var cols := |m[0]|;
    var row := 0;
    var col := cols - 1;
    while row < rows && col >= 0
      invariant 0 <= row <= rows && -1 <= col < cols
      invariant Rectangular(m) && SortedGrid(m) ==>
        forall i, j :: 0 <= i < rows && 0 <= j < cols && (i < row || j > col) ==> m[i][j] != target
      decreases rows - row + col
    {
      if col >= |m[row]| {
        return Err(Exc(ArrayIndexOutOfBounds, Some("Index " + JavaString.IntToString(col)
                                                   + " out of bounds for length " + JavaString.IntToString(|m[row]|))));
      }
      var current := m[row][col];
      if current == target {
        return Ok(true);
      } else if current > target {
        col := col - 1;
      } else {
        row := row + 1;
      }
    }
    if Rectangular(m) && SortedGrid(m) {
      assert forall i, j :: 0 <= i < |m| && 0 <= j < |m[i]| ==> m[i][j] != target;
    }
    return Ok(false);
  }

  // ============================================================ containsNearbyDuplicate

  /** Two equal values at most `k` positions apart. */
  predicate NearbyDuplicate(nums: seq<int>, k: int)
  {
    exists i, j :: 0 <= i < j < |nums| && nums[i] == nums[j] && j - i <= k
  }

  /**
   * `containsNearbyDuplicate`: scanning left to right with a map from each
   * value to the last index it was seen at; true exactly when two equal
   * values lie at most `k` apart, hence never when `k <= 0`.
   */
  method ContainsNearbyDuplicate(nums: array<int>, k: int) returns (r: bool)
    ensures r <==> NearbyDuplicate(nums[..], k)
    ensures k <= 0 ==> !r
  {
    var last: map<int, int> := map[];
    for i := 0 to nums.Length
      invariant forall v :: v in last <==> v in nums[..i]
      invariant forall v :: v in last ==>
        0 <= last[v] < i && nums[last[v]] == v && (forall j :: last[v] < j < i ==> nums[j] != v)
      invariant !NearbyDuplicate(nums[..i], k)
    {
      var v := nums[i];
      if v in last && i - last[v] <= k {
        var seen := last[v];
        assert 0 <= seen < i && nums[seen] == v;
        assert nums[..][seen] == nums[..][i];
        return true;
      }
      NoNewDuplicate(nums[..], i, k, last);
      last := last[nums[i] := i];
    }
    assert nums[..nums.Length] == nums[..];
    return false;
  }

  /**
   * When the latest earlier occurrence of the next value is more than `k`
   * behind (or there is none), extending the scanned prefix by it adds no
   * nearby duplicate.
   */
  lemma {:induction false} NoNewDuplicate(s: seq<int>, i: int, k: int, last: map<int, int>)
    requires 0 <= i < |s|
    requires forall v :: v in last <==> v in s[..i]
    requires forall v :: v in last ==>
      0 <= last[v] < i && s[last[v]] == v && (forall j :: last[v] < j < i ==> s[j] != v)
    requires !NearbyDuplicate(s[..i], k)
    requires !(s[i] in last && i - last[s[i]] <= k)
    ensures !NearbyDuplicate(s[..i + 1], k)
  {
    var t := s[..i + 1];
    forall a, b | 0 <= a < b < |t| && t[a] == t[b]
      ensures b - a > k
    {
      if b < i {
        assert s[..i][a] == t[a] && s[..i][b] == t[b];
      } else {
        assert s[..i][a] == s[i];
        assert s[i] in last;
      }
    }
  }
}
