/**
  The Merkle tree of RFC 9162: tree hash, inclusion paths and consistency paths, which the
  program computes by recursion over the split at the largest power of two.
 */
module Merkle {
  import opened Bytes

  function LeafInput(data: Bytes): Bytes { [0] + data }

  function LeafHash(H: Hash, data: Bytes): Digest { H(LeafInput(data)) }

  function NodeInput(left: Digest, right: Digest): Bytes { [1] + left + right }

  function NodeHash(H: Hash, left: Digest, right: Digest): Digest { H(NodeInput(left, right)) }

  lemma NodeInputInjective(l1: Digest, r1: Digest, l2: Digest, r2: Digest)
    requires NodeInput(l1, r1) == NodeInput(l2, r2)
    ensures l1 == l2 && r1 == r2
  {
    var a, b := NodeInput(l1, r1), NodeInput(l2, r2);
    assert l1 == a[1..33] && l2 == b[1..33];
    assert r1 == a[33..] && r2 == b[33..];
  }

  // ---- the split -----------------------------------------------------------------------

  ghost predicate IsPowerOfTwo(n: nat) {
    n == 1 || (n > 1 && n % 2 == 0 && IsPowerOfTwo(n / 2))
  }

  /** The largest power of two below `n`. Halving `n` (rounding up) halves its split. */
  function Split(n: nat): (k: nat)
    requires n >= 2
    ensures k < n <= 2 * k
  {
    if n == 2 then 1 else 2 * Split((n + 1) / 2)
  }

  lemma {:induction false} SplitPowerOfTwo(n: nat)
    requires n >= 2
    ensures IsPowerOfTwo(Split(n))
  {
    if n > 2 {
      SplitPowerOfTwo((n + 1) / 2);
    }
  }

  lemma {:induction false} SplitUnique(n: nat, k: nat)
    requires n >= 2 && IsPowerOfTwo(k) && k < n <= 2 * k
    ensures k == Split(n)
  {
    if n > 2 {
      SplitUnique((n + 1) / 2, k / 2);
    }
  }

  /** The program's search loop finds that split; for `n < 2` it answers 1. */
  method LargestPowerOfTwoBelow(n: nat) returns (k: nat)
    ensures n >= 2 ==> k == Split(n)
    ensures n < 2 ==> k == 1
  {
    k := 1;
    while k * 2 < n
      invariant IsPowerOfTwo(k)
      invariant k == 1 || k < n
      decreases n - k
    {
      k := k * 2;
    }
    if n >= 2 {
      SplitUnique(n, k);
    }
  }

  // ---- tree hash and proofs --------------------------------------------------------------

  function Mth(H: Hash, leaves: seq<Digest>): Digest {
    if |leaves| == 0 then H([])
    else if |leaves| == 1 then leaves[0]
    else var k := Split(|leaves|); NodeHash(H, Mth(H, leaves[..k]), Mth(H, leaves[k..]))
  }

  function InclusionPath(H: Hash, m: nat, leaves: seq<Digest>): seq<Digest>
    requires m < |leaves|
    decreases |leaves|
  {
    if |leaves| <= 1 then []
    else
      var k := Split(|leaves|);
      if m < k then InclusionPath(H, m, leaves[..k]) + [Mth(H, leaves[k..])]
      else InclusionPath(H, m - k, leaves[k..]) + [Mth(H, leaves[..k])]
  }

  function Subproof(H: Hash, m: nat, leaves: seq<Digest>, b: bool): seq<Digest>
    requires 0 < m <= |leaves|
    decreases |leaves|
  {
    if m == |leaves| then if b then [] else [Mth(H, leaves)]
    else
      var k := Split(|leaves|);
      if m <= k then Subproof(H, m, leaves[..k], b) + [Mth(H, leaves[k..])]
      else Subproof(H, m - k, leaves[k..], false) + [Mth(H, leaves[..k])]
  }

  function ConsistencyPath(H: Hash, m: nat, leaves: seq<Digest>): seq<Digest>
    requires m <= |leaves|
  {
    if m == 0 || m == |leaves| then [] else Subproof(H, m, leaves, true)
  }

  // ---- what was hashed -------------------------------------------------------------------

  /** The node inputs hashed while computing `Mth(H, leaves)`. */
  ghost function TreeInputs(H: Hash, leaves: seq<Digest>): set<Bytes> {
    if |leaves| <= 1 then {}
    else
      var k := Split(|leaves|);
      {NodeInput(Mth(H, leaves[..k]), Mth(H, leaves[k..]))}
      + TreeInputs(H, leaves[..k]) + TreeInputs(H, leaves[k..])
  }

  lemma MthOfSplit(H: Hash, leaves: seq<Digest>, k: nat)
    requires |leaves| >= 2 && k == Split(|leaves|)
    ensures Mth(H, leaves) == NodeHash(H, Mth(H, leaves[..k]), Mth(H, leaves[k..]))
    ensures leaves == leaves[..k] + leaves[k..]
  {
  }

  /** Two lists of one length with one root are the same list. */
  lemma {:induction false} MthInjective(H: Hash, a: seq<Digest>, b: seq<Digest>)
    requires |a| == |b| && Mth(H, a) == Mth(H, b)
    requires CollisionFree(H, TreeInputs(H, a) + TreeInputs(H, b))
    ensures a == b
    decreases |a|
  {
    if |a| >= 2 {
      var k := Split(|a|);
      MthOfSplit(H, a, k);
      MthOfSplit(H, b, k);
      NodeInputInjective(Mth(H, a[..k]), Mth(H, a[k..]), Mth(H, b[..k]), Mth(H, b[k..]));
      MthInjective(H, a[..k], b[..k]);
      MthInjective(H, a[k..], b[k..]);
    }
  }

  /** Hashed as leaves. */
  ghost function LeavesOf(H: Hash, data: seq<Bytes>): seq<Digest> {
    seq(|data|, i requires 0 <= i < |data| => LeafHash(H, data[i]))
  }

  /** Everything hashed for the root over `data`. */
  ghost function DataInputs(H: Hash, data: seq<Bytes>): set<Bytes> {
    {TopInput(H, data)} + (set d | d in data :: LeafInput(d)) + TreeInputs(H, LeavesOf(H, data))
  }

  /** What is hashed last: nothing, a leaf, or a node. */
  ghost function TopInput(H: Hash, data: seq<Bytes>): Bytes {
    if data == [] then [] else if |data| == 1 then LeafInput(data[0])
    else
      var k := Split(|data|);
      NodeInput(Mth(H, LeavesOf(H, data[..k])), Mth(H, LeavesOf(H, data[k..])))
  }

  lemma HalvesOfLeaves(H: Hash, data: seq<Bytes>, k: nat)
    requires k <= |data|
    ensures LeavesOf(H, data)[..k] == LeavesOf(H, data[..k]) && LeavesOf(H, data)[k..] == LeavesOf(H, data[k..])
  {
  }

  lemma TopIsRoot(H: Hash, data: seq<Bytes>)
    ensures Mth(H, LeavesOf(H, data)) == H(TopInput(H, data))
  {
    if |data| >= 2 {
      hide LeavesOf;
      LeavesCount(H, data);
      MthOfSplit(H, LeavesOf(H, data), Split(|data|));
      HalvesOfLeaves(H, data, Split(|data|));
    }
  }

  lemma LeavesCount(H: Hash, data: seq<Bytes>)
    ensures |LeavesOf(H, data)| == |data|
  {
  }

  lemma HalfInputs(H: Hash, data: seq<Bytes>)
    requires |data| >= 2
    ensures var k := Split(|data|);
            DataInputs(H, data[..k]) <= DataInputs(H, data) && DataInputs(H, data[k..]) <= DataInputs(H, data)
  {
    hide LeavesOf, TopInput, LeafInput, Mth;
    var k := Split(|data|);
    LeavesCount(H, data);
    HalvesOfLeaves(H, data, k);
    TopIsHashed(H, data[..k]);
    TopIsHashed(H, data[k..]);
    assert forall d | d in data[..k] || d in data[k..] :: d in data;
  }

  lemma TopIsHashed(H: Hash, data: seq<Bytes>)
    requires data != []
    ensures TopInput(H, data) in (set d | d in data :: LeafInput(d)) + TreeInputs(H, LeavesOf(H, data))
  {
    if |data| >= 2 {
      LeavesCount(H, data);
      HalvesOfLeaves(H, data, Split(|data|));
      hide LeavesOf, LeafInput;
    } else {
      assert data[0] in data;
    }
  }

  /** Leaves and nodes are hashed apart, so one root means one list of data, of whatever sizes. */
  lemma {:induction false} RootDecidesData(H: Hash, a: seq<Bytes>, b: seq<Bytes>)
    requires Mth(H, LeavesOf(H, a)) == Mth(H, LeavesOf(H, b))
    requires CollisionFree(H, DataInputs(H, a) + DataInputs(H, b))
    ensures a == b
    decreases |a|
  {
    hide *;
    SameTop(H, a, b);
    SameKind(H, a, b);
    if |a| >= 2 {
      var k, l := SameHalves(H, a, b);
      RootDecidesData(H, a[..k], b[..l]);
      RootDecidesData(H, a[k..], b[l..]);
      assert a == a[..k] + a[k..] && b == b[..l] + b[l..];
    }
  }

  lemma SameTop(H: Hash, a: seq<Bytes>, b: seq<Bytes>)
    requires Mth(H, LeavesOf(H, a)) == Mth(H, LeavesOf(H, b))
    requires CollisionFree(H, DataInputs(H, a) + DataInputs(H, b))
    ensures TopInput(H, a) == TopInput(H, b)
  {
    hide LeavesOf, TopInput;
    TopIsRoot(H, a);
    TopIsRoot(H, b);
  }

  /** The first byte tells a leaf from a node. */
  lemma SameKind(H: Hash, a: seq<Bytes>, b: seq<Bytes>)
    requires TopInput(H, a) == TopInput(H, b)
    ensures |a| >= 2 <==> |b| >= 2
    ensures |a| < 2 ==> a == b
  {
    hide Mth, LeavesOf, Split;
    FirstByte(H, a);
    FirstByte(H, b);
    if |a| == 1 && |b| == 1 {
      assert LeafInput(a[0])[1..] == a[0] && LeafInput(b[0])[1..] == b[0];
    }
  }

  lemma FirstByte(H: Hash, data: seq<Bytes>)
    ensures data == [] <==> TopInput(H, data) == []
    ensures data != [] ==> TopInput(H, data)[..1] == [if |data| == 1 then 0 else 1]
  {
    hide Mth, LeavesOf, Split;
  }

  lemma SameHalves(H: Hash, a: seq<Bytes>, b: seq<Bytes>) returns (k: nat, l: nat)
    requires |a| >= 2 && |b| >= 2 && TopInput(H, a) == TopInput(H, b)
    requires CollisionFree(H, DataInputs(H, a) + DataInputs(H, b))
    ensures 0 < k < |a| && 0 < l < |b|
    ensures Mth(H, LeavesOf(H, a[..k])) == Mth(H, LeavesOf(H, b[..l]))
    ensures Mth(H, LeavesOf(H, a[k..])) == Mth(H, LeavesOf(H, b[l..]))
    ensures CollisionFree(H, DataInputs(H, a[..k]) + DataInputs(H, b[..l]))
    ensures CollisionFree(H, DataInputs(H, a[k..]) + DataInputs(H, b[l..]))
  {
    hide DataInputs, LeavesOf, Mth, NodeInput;
    k, l := Split(|a|), Split(|b|);
    HalfInputs(H, a);
    HalfInputs(H, b);
    NodeInputInjective(Mth(H, LeavesOf(H, a[..k])), Mth(H, LeavesOf(H, a[k..])), Mth(H, LeavesOf(H, b[..l])),
                       Mth(H, LeavesOf(H, b[l..])));
  }

  /** A prefix longer than the split has the same split, so its root has the same left half. */
  lemma PrefixRoot(H: Hash, leaves: seq<Digest>, m: nat, k: nat)
    requires |leaves| >= 2 && k == Split(|leaves|) && k < m <= |leaves|
    ensures Mth(H, leaves[..m]) == NodeHash(H, Mth(H, leaves[..k]), Mth(H, leaves[k..][..m - k]))
  {
    SplitPowerOfTwo(|leaves|);
    SplitUnique(m, k);
    MthOfSplit(H, leaves[..m], k);
    PrefixHalves(leaves, m, k);
  }

  lemma PrefixHalves(leaves: seq<Digest>, m: nat, k: nat)
    requires k < m <= |leaves|
    ensures leaves[..m][..k] == leaves[..k] && leaves[..m][k..] == leaves[k..][..m - k]
  {
  }

  /** The size of the half of an `n`-leaf tree that holds leaf `m`. */
  ghost function HalfSize(m: nat, n: nat): (size: nat)
    requires m < n && n >= 2
    ensures 0 < size < n
  {
    if m < Split(n) then Split(n) else n - Split(n)
  }

  lemma HalfBitLength(m: nat, n: nat)
    requires m < n && n >= 2
    ensures 1 + BitLength(HalfSize(m, n) - 1) <= BitLength(n - 1)
  {
    var k := Split(n);
    SplitPowerOfTwo(n);
    PowerOfTwoBitLength(k, n - 1);
    BitLengthMonotone(n - k - 1, k - 1);
  }

  lemma InclusionHalf(H: Hash, m: nat, leaves: seq<Digest>) returns (j: nat, half: seq<Digest>)
    requires 2 <= |leaves| && m < |leaves|
    ensures |half| == HalfSize(m, |leaves|) && j < |half|
    ensures |InclusionPath(H, m, leaves)| == 1 + |InclusionPath(H, j, half)|
  {
    var k := Split(|leaves|);
    if m < k {
      j, half := m, leaves[..k];
    } else {
      j, half := m - k, leaves[k..];
    }
  }

  /** No inclusion path is longer than the bit length of `n - 1`. */
  lemma {:induction false} InclusionPathLength(H: Hash, m: nat, leaves: seq<Digest>)
    requires m < |leaves|
    ensures |InclusionPath(H, m, leaves)| <= BitLength(|leaves| - 1)
    decreases |leaves|
  {
    if |leaves| >= 2 {
      var j, half := InclusionHalf(H, m, leaves);
      InclusionPathLength(H, j, half);
      HalfBitLength(m, |leaves|);
    }
  }

  lemma {:induction false} BitLengthMonotone(a: nat, b: nat)
    requires a <= b
    ensures BitLength(a) <= BitLength(b)
  {
    if a > 0 {
      BitLengthMonotone(a / 2, b / 2);
    }
  }

  lemma {:induction false} PowerOfTwoBitLength(k: nat, n: nat)
    requires IsPowerOfTwo(k) && k <= n < 2 * k
    ensures BitLength(n) == BitLength(k - 1) + 1
  {
    if k > 1 {
      PowerOfTwoBitLength(k / 2, n / 2);
      assert (k - 1) / 2 == k / 2 - 1;
    }
  }
}
