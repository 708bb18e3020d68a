/** Cyclic rotation of slot vectors, and the rotate-and-add reduction. */
module Slots {
  import opened Modular

  /** A signed rotation distance brought into [0, n), with C++ remainders. */
  function NormRot(d: int, n: nat): int
    requires n > 0
  {
    TruncRem(TruncRem(d, n) + n, n)
  }

  lemma {:induction false} NormIsRemainder(d: int, n: nat)
    requires n > 0
    ensures NormRot(d, n) == d % n
  {
    ModIsRemainder(d, n);
    var r, m := TruncRem(d, n), n as int;
    assert -m < r < m by {
      if d < 0 {
        assert -d == n * (-d / n) + -d % n;
        assert n * TruncDiv(d, n) == -(n * (-d / n));
      }
    }
    DivUnique(r + n, n, if r < 0 then 0 else 1, if r < 0 then r + n else r);
  }

  /** Left rotation: slot i takes slot (i + d) mod n. */
  function Rotate<T>(v: seq<T>, d: int): (r: seq<T>)
    requires v != []
  {
    seq(|v|, i requires 0 <= i < |v| => v[(i + NormRot(d, |v|)) % |v|])
  }

  lemma {:induction false} RotateAt<T>(v: seq<T>, d: int, i: nat)
    requires i < |v|
    ensures |Rotate(v, d)| == |v| && Rotate(v, d)[i] == v[(i + d) % |v|]
  {
    hide NormRot;
    RotatedIndex(i, d, |v|);
  }

  lemma {:induction false} RotatedIndex(i: int, d: int, n: nat)
    requires n > 0
    ensures (i + NormRot(d, n)) % n == (i + d) % n
  {
    hide NormRot;
    NormIsRemainder(d, n);
    ModAdd(d, i, n);
  }

  lemma {:induction false} ModAdd(x: int, y: int, n: int)
    requires n > 0
    ensures (x % n + y) % n == (x + y) % n
  {
    var k := x / n;
    var r, l := (x % n + y) % n, (x % n + y) / n;
    assert x + y == n * (k + l) + r by { assert n * (k + l) == n * k + n * l; }
    DivUnique(x + y, n, k + l, r);
  }

  /** One step of the reduction: every slot adds the slot k places to its right. */
  function AddRot(v: seq<int>, k: int): (r: seq<int>)
    requires v != []
  {
    seq(|v|, i requires 0 <= i < |v| => v[i] + Rotate(v, k)[i])
  }

  /** The whole reduction: k, k/2, ..., 1. */
  function Reduced(v: seq<int>, k: nat): (r: seq<int>)
    requires v != []
    decreases k
  {
    if k == 0 then v else Reduced(AddRot(v, k), k / 2)
  }

  function Total(v: seq<int>): int {
    if v == [] then 0 else Total(v[..|v| - 1]) + v[|v| - 1]
  }

  /** The sum of `count` slots starting at i, k apart, around the ring. */
  function StrideSum(v: seq<int>, i: int, k: int, count: nat): int
    requires v != []
  {
    if count == 0 then 0 else StrideSum(v, i, k, count - 1) + v[(i + (count - 1) * k) % |v|]
  }

  predicate PowerOfTwo(n: nat)
    decreases n
  {
    n == 1 || (n > 1 && n % 2 == 0 && PowerOfTwo(n / 2))
  }

  /** Only the position modulo n matters. */
  lemma {:induction false} StrideSumWraps(v: seq<int>, i: int, k: int, count: nat)
    requires v != []
    ensures StrideSum(v, i % |v|, k, count) == StrideSum(v, i, k, count)
  {
    if count > 0 {
      StrideSumWraps(v, i, k, count - 1);
      ModAdd(i, (count - 1) * k, |v|);
    }
  }

  lemma StrideSumNext(v: seq<int>, i: int, k: int, count: nat)
    requires v != [] && count > 0
    ensures StrideSum(v, i, k, count) == StrideSum(v, i, k, count - 1) + v[(i + (count - 1) * k) % |v|]
  {
  }

  lemma Strides(k: int, j: int)
    ensures j * (2 * k) == (2 * j) * k && j * (2 * k) + k == (2 * j + 1) * k
  {
  }

  /** Even and odd multiples of k: two sums with stride 2k make one with stride k. */
  lemma {:induction false} StrideSumSplits(v: seq<int>, i: int, k: int, count: nat)
    requires v != []
    ensures StrideSum(v, i, 2 * k, count) + StrideSum(v, i + k, 2 * k, count) == StrideSum(v, i, k, 2 * count)
  {
    if count == 0 {
      assert StrideSum(v, i, k, 0) == 0;
    } else {
      hide StrideSum;
      var j := count - 1;
      var even, odd := i + j * (2 * k), i + k + j * (2 * k);
      StrideSumSplits(v, i, k, j);
      StrideSumNext(v, i, 2 * k, count);
      StrideSumNext(v, i + k, 2 * k, count);
      Strides(k, j);
      StrideSumNext(v, i, k, 2 * j + 1);
      StrideSumNext(v, i, k, 2 * j + 2);
      assert even == i + (2 * j) * k && odd == i + (2 * j + 1) * k;
    }
  }

  /** Every slot of `w` holds the sum of the slots of `v` k apart, starting at its own. */
  ghost predicate HoldsStride(v: seq<int>, w: seq<int>, k: int, count: nat)
    requires v != []
  {
    |w| == |v| && forall i :: 0 <= i < |v| ==> w[i] == StrideSum(v, i, k, count)
  }

  lemma {:induction false} AddRotAt(v: seq<int>, k: int, i: nat)
    requires i < |v|
    ensures |AddRot(v, k)| == |v| && AddRot(v, k)[i] == v[i] + v[(i + k) % |v|]
  {
    RotateAt(v, k, i);
  }

  lemma {:induction false} HalfStrideAt(v: seq<int>, w: seq<int>, k: nat, count: nat, i: nat)
    requires i < |v| && HoldsStride(v, w, 2 * k, count)
    ensures i < |w| && |AddRot(w, k)| == |v| && AddRot(w, k)[i] == StrideSum(v, i, k, 2 * count)
  {
    hide AddRot; hide StrideSum;
    AddRotAt(w, k, i);
    StrideSumWraps(v, i + k, 2 * k, count);
    StrideSumSplits(v, i, k, count);
  }

  lemma {:induction false} HalfStride(v: seq<int>, w: seq<int>, k: nat, count: nat)
    requires v != [] && HoldsStride(v, w, 2 * k, count)
    ensures w != [] && HoldsStride(v, AddRot(w, k), k, 2 * count)
  {
    hide AddRot; hide StrideSum;
    HalfStrideAt(v, w, k, count, 0);
    forall i | 0 <= i < |v| ensures AddRot(w, k)[i] == StrideSum(v, i, k, 2 * count) {
      HalfStrideAt(v, w, k, count, i);
    }
  }

  lemma {:induction false} ReducedStride(v: seq<int>, w: seq<int>, k: nat, count: nat)
    requires v != [] && PowerOfTwo(k) && HoldsStride(v, w, 2 * k, count)
    ensures HoldsStride(v, Reduced(w, k), 1, 2 * k * count)
    decreases k
  {
    HalfStride(v, w, k, count);
    hide HoldsStride; hide AddRot;
    if k > 1 {
      assert k == 2 * (k / 2);
      ReducedStride(v, AddRot(w, k), k / 2, 2 * count);
      assert 2 * (k / 2) * (2 * count) == 2 * k * count;
    } else {
      assert Reduced(AddRot(w, 1), 0) == AddRot(w, 1);
    }
  }

  /** Going once around the ring from any slot sums everything. */
  lemma {:induction false} OnceAround(v: seq<int>, i: nat)
    requires v != []
    ensures StrideSum(v, i, 1, |v|) == Total(v)
    decreases i
  {
    if i == 0 {
      FromStart(v, |v|);
      assert v[..|v|] == v;
    } else {
      OnceAround(v, i - 1);
      Shift(v, i - 1, |v|);
      ModAdd(|v|, i - 1, |v|);
      DivUnique(|v|, |v|, 1, 0);
    }
  }

  lemma {:induction false} FromStart(v: seq<int>, count: nat)
    requires v != [] && count <= |v|
    ensures StrideSum(v, 0, 1, count) == Total(v[..count])
  {
    if count > 0 {
      FromStart(v, count - 1);
      assert v[..count][..count - 1] == v[..count - 1];
      InRing(count - 1, |v|);
      hide Total;
      TotalSnoc(v, count);
    }
  }

  lemma InRing(j: nat, n: nat)
    requires j < n
    ensures (0 + j * 1) % n == j && (j + 0 * n) % n == j
  {
  }

  lemma TotalSnoc(v: seq<int>, count: nat)
    requires 0 < count <= |v|
    ensures Total(v[..count]) == Total(v[..count - 1]) + v[count - 1]
  {
    assert v[..count][..count - 1] == v[..count - 1];
  }

  lemma {:induction false} Shift(v: seq<int>, i: int, count: nat)
    requires v != []
    ensures StrideSum(v, i + 1, 1, count) + v[i % |v|] == StrideSum(v, i, 1, count) + v[(i + count) % |v|]
  {
    if count > 0 {
      Shift(v, i, count - 1);
    }
  }

  /** For every power of two n the halving reduction leaves the sum of all slots in every slot. */
  lemma {:induction false} ReductionSumsAll(v: seq<int>, i: nat)
    requires PowerOfTwo(|v|) && i < |v|
    ensures |Reduced(v, |v| / 2)| == |v| && Reduced(v, |v| / 2)[i] == Total(v)
  {
    hide Rotate; hide StrideSum; hide AddRot;
    var n := |v|;
    if n == 1 {
      assert v[..1] == v && v[..0] == [];
    } else {
      StrideOfItself(v);
      hide Total; hide Reduced;
      ReducedStride(v, v, n / 2, 1);
      OnceAround(v, i);
    }
  }

  lemma {:induction false} StrideOfItself(v: seq<int>)
    requires v != []
    ensures HoldsStride(v, v, |v|, 1)
  {
    forall j | 0 <= j < |v| ensures v[j] == StrideSum(v, j, |v|, 1) {
      assert StrideSum(v, j, |v|, 0) == 0;
      InRing(j, |v|);
    }
  }
}
