/**
 * `binarySearch` of utils/search.ts: halves `[left, right]` until the two cross or the
 * middle element equals the key; returns that index, or `left` (the insertion point).
 */
module Search {

  predicate Sorted(a: seq<int>)
  {
    forall i, j :: 0 <= i < j < |a| ==> a[i] <= a[j]
  }

  /** `r` splits `a` into elements below `num` and elements above it. */
  predicate InsertionPoint(a: seq<int>, num: int, r: nat)
  {
    r <= |a| &&
    (forall j :: 0 <= j < r ==> a[j] < num) &&
    (forall j :: r <= j < |a| ==> a[j] > num)
  }

  /** What the search answers from the window `[left, right]` on (one round per call). */
  function Bisect(arr: seq<int>, num: int, left: nat, right: int): nat
    requires left <= right + 1 <= |arr|
    decreases right + 1 - left
  {
    if left > right then left
    else
      var mid := (left + right) / 2;
      if arr[mid] < num then Bisect(arr, num, mid + 1, right)
      else if arr[mid] > num then Bisect(arr, num, left, mid - 1)
      else mid
  }

  /** `binarySearch(arr, num)` */
  function BinarySearchOf(arr: seq<int>, num: int): nat
  {
    Bisect(arr, num, 0, |arr| - 1)
  }

  /** `r` is an exact hit, or lies between a smaller and a larger neighbour. */
  predicate Settled(arr: seq<int>, num: int, r: nat)
  {
    r <= |arr| &&
    ((r < |arr| && arr[r] == num) || ((0 < r ==> arr[r - 1] < num) && (r < |arr| ==> num < arr[r])))
  }

  /** On any array: an exact hit, or a position between a smaller and a larger neighbour. */
  lemma {:induction false} BisectLocal(arr: seq<int>, num: int, left: nat, right: int)
    requires left <= right + 1 <= |arr|
    requires 0 < left ==> arr[left - 1] < num
    requires right + 1 < |arr| ==> num < arr[right + 1]
    ensures Settled(arr, num, Bisect(arr, num, left, right))
    decreases right + 1 - left
  {
    if left <= right {
      var mid := (left + right) / 2;
      assert left <= mid <= right;
      if arr[mid] < num {
        BisectLocal(arr, num, mid + 1, right);
        assert Bisect(arr, num, left, right) == Bisect(arr, num, mid + 1, right);
      } else if arr[mid] > num {
        BisectLocal(arr, num, left, mid - 1);
        assert Bisect(arr, num, left, right) == Bisect(arr, num, left, mid - 1);
      }
    }
  }

  /** `r` is an exact hit or the insertion point. */
  predicate Answer(arr: seq<int>, num: int, r: nat)
  {
    (r < |arr| && arr[r] == num) || InsertionPoint(arr, num, r)
  }

  /** In a sorted array, a position between a smaller and a larger neighbour is the insertion point. */
  lemma SettledSorted(arr: seq<int>, num: int, r: nat)
    requires Sorted(arr) && Settled(arr, num, r)
    ensures Answer(arr, num, r)
  {
    if !(r < |arr| && arr[r] == num) {
      forall j | 0 <= j < r ensures arr[j] < num {
        assert arr[j] <= arr[r - 1];
      }
      forall j | r <= j < |arr| ensures arr[j] > num {
        assert arr[r] <= arr[j];
      }
    }
  }

  /**
   * The result is an exact hit or sits between a smaller and a larger neighbour, on any
   * array; on a sorted one it is an exact hit or the insertion point, and a present key is
   * always found.
   */
  lemma BinarySearchFinds(arr: seq<int>, num: int)
    ensures var r := BinarySearchOf(arr, num);
      Settled(arr, num, r) &&
      (Sorted(arr) ==> (r < |arr| && arr[r] == num) || InsertionPoint(arr, num, r)) &&
      (Sorted(arr) && num in arr ==> r < |arr| && arr[r] == num)
  {
    var r := BinarySearchOf(arr, num);
    BisectLocal(arr, num, 0, |arr| - 1);
    if Sorted(arr) {
      SettledSorted(arr, num, r);
    }
  }

  method BinarySearch(arr: seq<int>, num: int) returns (r: nat)
    ensures r == BinarySearchOf(arr, num)
  {
    var left, right := 0, |arr| - 1;
    while left <= right
      invariant 0 <= left <= right + 1 <= |arr|
      invariant Bisect(arr, num, left, right) == BinarySearchOf(arr, num)
      decreases right - left
    {
      var mid := (left + right) / 2;
      if arr[mid] < num {
        left := mid + 1;
      } else if arr[mid] > num {
        right := mid - 1;
      } else {
        return mid;
      }
    }
    r := left;
  }
}
