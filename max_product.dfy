/** `max_product_subarray`: one left-to-right scan keeping the largest and
    the smallest product of a slice that ends at the current element. */
module MaxProduct {

  /** The product of the elements of `s`; the empty product is 1. */
  function Product(s: seq<int>): int
  {
    if s == [] then 1 else Product(s[..|s| - 1]) * s[|s| - 1]
  }

  /** Extending a slice on the right multiplies its product by the new element. */
  lemma ProductSnoc(s: seq<int>, i: nat, j: nat)
    requires i <= j < |s|
    ensures Product(s[i..j + 1]) == Product(s[i..j]) * s[j]
  {
    assert s[i..j + 1][..j - i] == s[i..j];
  }

  lemma ProductSingle(s: seq<int>, j: nat)
    requires j < |s|
    ensures Product(s[j..j + 1]) == s[j]
  {
    ProductSnoc(s, j, j);
  }

  /** `m` is the largest product of a non-empty contiguous slice of `nums`. */
  ghost predicate IsMaxProduct(nums: seq<int>, m: int)
  {
    && (exists i, j :: 0 <= i < j <= |nums| && Product(nums[i..j]) == m)
    && (forall i, j :: 0 <= i < j <= |nums| ==> Product(nums[i..j]) <= m)
  }

  /** Multiplying by a non-negative number keeps an order, by a negative one reverses it. */
  lemma MulOrder(a: int, b: int, x: int)
    requires a <= b
    ensures x >= 0 ==> a * x <= b * x
    ensures x < 0 ==> b * x <= a * x
  {
    if x >= 0 {
      assert b * x - a * x == (b - a) * x;
    } else {
      assert a * x - b * x == (b - a) * (-x);
    }
  }

  /** Every non-empty slice ending just before `j` has a product between `lo` and `hi`. */
  ghost predicate Between(nums: seq<int>, j: nat, lo: int, hi: int)
    requires j <= |nums|
  {
    forall k :: 0 <= k < j ==> lo <= Product(nums[k..j]) <= hi
  }

  /** Every slice ending at `i` is the element alone or a slice ending at
      `i - 1` extended by it, so its product lies between the element and the
      old extremes times the element; a negative element swaps which old
      extreme gives the new largest product. */
  lemma Extend(nums: seq<int>, i: nat, hi: int, lo: int)
    requires 0 < i < |nums| && Between(nums, i, lo, hi)
    ensures Between(nums, i + 1,
      Smaller(nums[i], if nums[i] < 0 then hi * nums[i] else lo * nums[i]),
      Larger(nums[i], if nums[i] < 0 then lo * nums[i] else hi * nums[i]))
  {
    var x := nums[i];
    var l := Smaller(x, if x < 0 then hi * x else lo * x);
    var h := Larger(x, if x < 0 then lo * x else hi * x);
    var j := i + 1;
    forall k | 0 <= k < j
      ensures l <= Product(nums[k..j]) <= h
    {
      ProductSnoc(nums, k, i);
      if k < i {
        var p := Product(nums[k..i]);
        MulOrder(lo, p, x);
        MulOrder(p, hi, x);
      } else {
        assert nums[k..i] == [];
      }
    }
  }

  function Larger(a: int, b: int): int { if a >= b then a else b }

  function Smaller(a: int, b: int): int { if a <= b then a else b }

  /** No non-empty slice of the first `j` elements has a product above `m`. */
  ghost predicate Bounded(nums: seq<int>, j: nat, m: int)
    requires j <= |nums|
  {
    forall a, b :: 0 <= a < b <= j ==> Product(nums[a..b]) <= m
  }

  /** Slices of the first `i + 1` elements either end before `i + 1` or at it. */
  lemma ExtendBound(nums: seq<int>, i: nat, m: int, lo: int, hi: int, m': int)
    requires 0 < i < |nums| && Bounded(nums, i, m) && Between(nums, i + 1, lo, hi)
    requires m <= m' && hi <= m'
    ensures Bounded(nums, i + 1, m')
  {
    var j := i + 1;
    forall a, b | 0 <= a < b <= j
      ensures Product(nums[a..b]) <= m'
    {
      if b == j {
        assert lo <= Product(nums[a..j]) <= hi;
      }
    }
  }

  /** What the source does when `nums` is empty: `nums[0]` raises. */
  datatype Outcome = IndexError | Max(value: int)

  /** `max_product_subarray(nums)`. After the element at `i`, `hi` and `lo`
      are the largest and the smallest product of a slice ending at `i`, and
      `best` the largest product of any slice seen so far. */
  method MaxProductSubarray(nums: seq<int>) returns (r: Outcome)
    ensures nums == [] <==> r == IndexError
    ensures r.Max? ==> IsMaxProduct(nums, r.value)
    ensures r.Max? ==> forall k :: 0 <= k < |nums| ==> nums[k] <= r.value
    ensures |nums| == 1 ==> r == Max(nums[0])
  {
    if |nums| == 0 {
      return IndexError;
    }
    var best, hi, lo := nums[0], nums[0], nums[0];
    ghost var bi, bj, hk, lk := 0, 1, 0, 0;
    ProductSingle(nums, 0);
    for i := 1 to |nums|
      invariant hk < i && Product(nums[hk..i]) == hi
      invariant lk < i && Product(nums[lk..i]) == lo
      invariant Between(nums, i, lo, hi)
      invariant 0 <= bi < bj <= i && Product(nums[bi..bj]) == best
      invariant Bounded(nums, i, best)
    {
      var x := nums[i];
      Extend(nums, i, hi, lo);
      ProductSingle(nums, i);
      ProductSnoc(nums, hk, i);
      ProductSnoc(nums, lk, i);
      if x < 0 {
        hi, lo := lo, hi;
        hk, lk := lk, hk;
      }
      if x >= hi * x {
        hi, hk := x, i;
      } else {
        hi := hi * x;
      }
      if x <= lo * x {
        lo, lk := x, i;
      } else {
        lo := lo * x;
      }
      ExtendBound(nums, i, best, lo, hi, if hi > best then hi else best);
      if hi > best {
        best, bi, bj := hi, hk, i + 1;
      }
    }
    r := Max(best);
    forall k | 0 <= k < |nums|
      ensures nums[k] <= best
    {
      ProductSingle(nums, k);
    }
  }

  /** A slice has only one largest product. */
  lemma MaxProductUnique(nums: seq<int>, a: int, b: int)
    requires IsMaxProduct(nums, a) && IsMaxProduct(nums, b)
    ensures a == b
  {
    var i, j :| 0 <= i < j <= |nums| && Product(nums[i..j]) == a;
    var i', j' :| 0 <= i' < j' <= |nums| && Product(nums[i'..j']) == b;
  }

  /** The sample `[2, 3, -2, 4]`: its largest slice product is 6, from `[2, 3]`. */
  lemma SampleMaxProduct()
    ensures IsMaxProduct([2, 3, -2, 4], 6)
  {
    var s := [2, 3, -2, 4];
    assert Product(s[0..2]) == 6 by {
      assert s[0..2] == [2, 3];
      assert [2, 3][..1] == [2];
    }
    forall i, j | 0 <= i < j <= |s|
      ensures Product(s[i..j]) <= 6
    {
      ProductsOfSample(i, j);
    }
  }

  lemma ProductsOfSample(i: nat, j: nat)
    requires i < j <= 4
    ensures Product([2, 3, -2, 4][i..j]) <= 6
  {
    var s := [2, 3, -2, 4];
    ProductSingle(s, 0);
    ProductSingle(s, 1);
    ProductSingle(s, 2);
    ProductSingle(s, 3);
    if j == i + 1 {
    } else if i == 0 {
      ProductSnoc(s, 0, 1);
      if j > 2 { ProductSnoc(s, 0, 2); }
      if j > 3 { ProductSnoc(s, 0, 3); }
    } else if i == 1 {
      ProductSnoc(s, 1, 2);
      if j > 3 { ProductSnoc(s, 1, 3); }
    } else {
      ProductSnoc(s, 2, 3);
    }
  }
}
