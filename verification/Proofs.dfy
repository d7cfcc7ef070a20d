/**
  What an RFC 9162 proof proves, read from the root down.

  The verifiers of the program walk a proof from the leaf up by shifting two indices. The
  functions here fold the same proof along the recursive splits of the tree; module `Verifiers`
  proves that the loops compute them.
 */
module Proofs {
  import opened Bytes
  import opened Options
  import opened Merkle

  /** The root of the leaves up to a position, and the root of all of them. */
  datatype Roots = Roots(before: Digest, after: Digest)

  /** One step up: `c` is the sibling on the right (which only the new tree has) or on the left. */
  function Join(H: Hash, onRight: bool, r: Option<Roots>, c: Digest): Option<Roots> {
    match r
    case None => None
    case Some(t) =>
      if onRight then Some(Roots(t.before, NodeHash(H, t.after, c)))
      else Some(Roots(NodeHash(H, c, t.before), NodeHash(H, c, t.after)))
  }

  /** Folds `path` from position `i` of an `n`-leaf tree up to the root. */
  function Climb(H: Hash, i: nat, n: nat, r: Roots, path: seq<Digest>): Option<Roots>
    requires i < n
    decreases n
  {
    if n == 1 then if path == [] then Some(r) else None
    else if path == [] then None
    else
      var k, c, rest := Split(n), path[|path| - 1], path[..|path| - 1];
      if i < k then Join(H, true, Climb(H, i, k, r, rest), c)
      else Join(H, false, Climb(H, i - k, n - k, r, rest), c)
  }

  /**
    Folds a consistency path between sizes `m` and `n`. With `b` set the old root itself is the
    starting node; otherwise the first path element is.
   */
  function Reconstruct(H: Hash, m: nat, n: nat, b: bool, r0: Digest, path: seq<Digest>): Option<Roots>
    requires 0 < m <= n
    decreases n
  {
    if m == n then
      if b then if path == [] then Some(Roots(r0, r0)) else None
      else if |path| == 1 then Some(Roots(path[0], path[0])) else None
    else if path == [] then None
    else
      var k, c, rest := Split(n), path[|path| - 1], path[..|path| - 1];
      if m <= k then Join(H, true, Reconstruct(H, m, k, b, r0, rest), c)
      else Join(H, false, Reconstruct(H, m - k, n - k, false, r0, rest), c)
  }

  /** The position in a tree of `p` (a power of two) leaves that the low bits of `i` spell. */
  function LowBits(i: int, p: nat): (position: nat)
    ensures p >= 1 ==> position < p
    decreases p
  {
    if p <= 1 then 0 else 2 * LowBits(i / 2, p / 2) + i % 2
  }

  /** Where the verifier starts: a negative index is read by its low bits in a full tree. */
  function StartPosition(i: int, n: nat): (p: (nat, nat))
    requires i < n && n > 0
    ensures p.0 < p.1
  {
    if i >= 0 then (i, n) else var full := if n == 1 then 1 else 2 * Split(n); (LowBits(i, full), full)
  }

  function InclusionAccepts(H: Hash, i: int, n: nat, leaf: Digest, proof: seq<Digest>, root: Digest): bool {
    i < n && n > 0 &&
    var (position, size) := StartPosition(i, n);
    var top := Climb(H, position, size, Roots(leaf, leaf), proof);
    top.Some? && top.value.after == root
  }

  function ConsistencyAccepts(H: Hash, first: nat, second: nat, firstRoot: Digest, secondRoot: Digest,
                              proof: seq<Digest>): bool {
    if first > second then false
    else if first == second then firstRoot == secondRoot && proof == []
    else if first == 0 then proof == []
    else Reconstruct(H, first, second, true, firstRoot, proof) == Some(Roots(firstRoot, secondRoot))
  }

  // ---- what a verification hashes ----------------------------------------------------------

  ghost function JoinInput(onRight: bool, r: Option<Roots>, c: Digest): set<Bytes> {
    match r
    case None => {}
    case Some(t) => {if onRight then NodeInput(t.after, c) else NodeInput(c, t.after)}
  }

  /** The node inputs on the way to the new root. */
  ghost function ClimbInputs(H: Hash, i: nat, n: nat, r: Roots, path: seq<Digest>): set<Bytes>
    requires i < n
    decreases n
  {
    if n == 1 || path == [] then {}
    else
      var k, c, rest := Split(n), path[|path| - 1], path[..|path| - 1];
      if i < k then JoinInput(true, Climb(H, i, k, r, rest), c) + ClimbInputs(H, i, k, r, rest)
      else JoinInput(false, Climb(H, i - k, n - k, r, rest), c) + ClimbInputs(H, i - k, n - k, r, rest)
  }

  ghost function ReconstructInputs(H: Hash, m: nat, n: nat, b: bool, r0: Digest, path: seq<Digest>): set<Bytes>
    requires 0 < m <= n
    decreases n
  {
    if m == n || path == [] then {}
    else
      var k, c, rest := Split(n), path[|path| - 1], path[..|path| - 1];
      if m <= k then JoinInput(true, Reconstruct(H, m, k, b, r0, rest), c) + ReconstructInputs(H, m, k, b, r0, rest)
      else JoinInput(false, Reconstruct(H, m - k, n - k, false, r0, rest), c)
           + ReconstructInputs(H, m - k, n - k, false, r0, rest)
  }

  // ---- inclusion is exact -------------------------------------------------------------------

  /** The root over two halves, the second half standing on the side named. */
  ghost function NodeOver(onRight: bool, half: Digest, other: Digest): Bytes {
    if onRight then NodeInput(half, other) else NodeInput(other, half)
  }

  /** The top split of everything an inclusion proof touches; `other` stands on the right or left. */
  lemma InclusionSplit(H: Hash, i: nat, leaves: seq<Digest>, r: Roots, path: seq<Digest>)
    returns (j: nat, half: seq<Digest>, other: seq<Digest>, onRight: bool, rest: seq<Digest>, c: Digest)
    requires |leaves| >= 2 && i < |leaves| && path != []
    ensures j < |half| < |leaves| && half[j] == leaves[i] && path == rest + [c]
    ensures Climb(H, i, |leaves|, r, path) == Join(H, onRight, Climb(H, j, |half|, r, rest), c)
    ensures InclusionPath(H, i, leaves) == InclusionPath(H, j, half) + [Mth(H, other)]
    ensures Mth(H, leaves) == H(NodeOver(onRight, Mth(H, half), Mth(H, other)))
    ensures NodeOver(onRight, Mth(H, half), Mth(H, other)) in TreeInputs(H, leaves)
    ensures TreeInputs(H, half) <= TreeInputs(H, leaves)
    ensures ClimbInputs(H, j, |half|, r, rest) <= ClimbInputs(H, i, |leaves|, r, path)
    ensures JoinInput(onRight, Climb(H, j, |half|, r, rest), c) <= ClimbInputs(H, i, |leaves|, r, path)
  {
    hide Split;
    var k := Split(|leaves|);
    c, rest, onRight := path[|path| - 1], path[..|path| - 1], i < k;
    if onRight {
      j, half, other := i, leaves[..k], leaves[k..];
    } else {
      j, half, other := i - k, leaves[k..], leaves[..k];
    }
  }

  lemma {:induction false} InclusionComplete(H: Hash, i: nat, leaves: seq<Digest>, r: Roots)
    requires i < |leaves| && r.after == leaves[i]
    ensures var top := Climb(H, i, |leaves|, r, InclusionPath(H, i, leaves));
            top.Some? && top.value.after == Mth(H, leaves)
    decreases |leaves|
  {
    if |leaves| >= 2 {
      var path := InclusionPath(H, i, leaves);
      var j, half, other, onRight, rest, c := InclusionSplit(H, i, leaves, r, path);
      assert rest == path[..|path| - 1] == InclusionPath(H, j, half) && c == path[|path| - 1];
      InclusionComplete(H, j, half, r);
    }
  }

  lemma {:induction false} InclusionSound(H: Hash, i: nat, leaves: seq<Digest>, r: Roots, path: seq<Digest>)
    requires i < |leaves|
    requires var top := Climb(H, i, |leaves|, r, path); top.Some? && top.value.after == Mth(H, leaves)
    requires CollisionFree(H, TreeInputs(H, leaves) + ClimbInputs(H, i, |leaves|, r, path))
    ensures r.after == leaves[i] && path == InclusionPath(H, i, leaves)
    decreases |leaves|
  {
    if |leaves| >= 2 {
      var j, half, other, onRight, rest, c := InclusionSplit(H, i, leaves, r, path);
      var t := Climb(H, j, |half|, r, rest).value.after;
      NodeOverInjective(onRight, t, c, Mth(H, half), Mth(H, other));
      InclusionSound(H, j, half, r, rest);
    }
  }

  lemma NodeOverInjective(onRight: bool, h1: Digest, o1: Digest, h2: Digest, o2: Digest)
    requires NodeOver(onRight, h1, o1) == NodeOver(onRight, h2, o2)
    ensures h1 == h2 && o1 == o2
  {
    if onRight {
      NodeInputInjective(h1, o1, h2, o2);
    } else {
      NodeInputInjective(o1, h1, o2, h2);
    }
  }

  /** An accepted inclusion proof is the one path of the one leaf, and that path is accepted. */
  lemma InclusionExact(H: Hash, i: nat, leaves: seq<Digest>, x: Digest, proof: seq<Digest>)
    requires i < |leaves|
    requires CollisionFree(H, TreeInputs(H, leaves) + ClimbInputs(H, i, |leaves|, Roots(x, x), proof))
    ensures InclusionAccepts(H, i, |leaves|, x, proof, Mth(H, leaves))
            <==> x == leaves[i] && proof == InclusionPath(H, i, leaves)
  {
    if InclusionAccepts(H, i, |leaves|, x, proof, Mth(H, leaves)) {
      InclusionSound(H, i, leaves, Roots(x, x), proof);
    }
    InclusionComplete(H, i, leaves, Roots(leaves[i], leaves[i]));
  }

  lemma {:induction false} PowersApart(k: nat, half: nat)
    requires IsPowerOfTwo(k) && IsPowerOfTwo(half) && k < 2 * half
    ensures k <= half
  {
    if k > 1 && half > 1 {
      PowersApart(k / 2, half / 2);
    }
  }

  /** From any position of a full tree some path climbs to the root of some `m` leaves. */
  lemma {:induction false} ClimbReaches(H: Hash, p: nat, size: nat, m: nat)
    returns (leaves: seq<Digest>, x: Digest, proof: seq<Digest>)
    requires p < size && IsPowerOfTwo(size) && 1 <= m <= size
    ensures |leaves| == m
    ensures var top := Climb(H, p, size, Roots(x, x), proof); top.Some? && top.value.after == Mth(H, leaves)
    decreases size
  {
    hide NodeHash;
    var zero: Digest := seq(32, _ => 0);
    if size == 1 {
      leaves, x, proof := [zero], zero, [];
    } else {
      var half := size / 2;
      SplitUnique(size, half);
      var low := p < half;
      var k := if m == 1 then 1 else Split(m);
      if m > 1 {
        SplitPowerOfTwo(m);
      }
      PowersApart(k, half);
      var inner, rest;
      inner, x, rest := ClimbReaches(H, if low then p else p - half, half, if low || m == 1 then k else m - k);
      var other := seq(if low then m - k else k, _ => zero);
      var c := Mth(H, other);
      proof := rest + [c];
      assert proof[..|rest|] == rest;
      if m == 1 {
        leaves := [Climb(H, p, size, Roots(x, x), proof).value.after];
      } else if low {
        leaves := inner + other;
        assert leaves[..k] == inner && leaves[k..] == other;
      } else {
        leaves := other + inner;
        assert leaves[..k] == other && leaves[k..] == inner;
      }
    }
  }

  /** Below 0 no index is refused: for every size some leaf is accepted there, though no such leaf exists. */
  lemma NegativeIndexAccepted(H: Hash, i: int, n: nat) returns (leaves: seq<Digest>, x: Digest, proof: seq<Digest>)
    requires i < 0 && n >= 1
    ensures |leaves| == n && InclusionAccepts(H, i, n, x, proof, Mth(H, leaves))
  {
    var (p, size) := StartPosition(i, n);
    if n > 1 {
      SplitPowerOfTwo(n);
    }
    leaves, x, proof := ClimbReaches(H, p, size, n);
  }

  /** The smallest case: -1 is accepted wherever the last leaf of two is. */
  lemma MinusOneAccepted(H: Hash, a: Digest, b: Digest)
    ensures InclusionAccepts(H, -1, 2, b, [a], Mth(H, [a, b]))
  {
  }

  // ---- consistency is exact ------------------------------------------------------------------

  lemma ConsistencySplit(H: Hash, m: nat, leaves: seq<Digest>, b: bool, r0: Digest, path: seq<Digest>)
    returns (m': nat, half: seq<Digest>, other: seq<Digest>, onRight: bool, b': bool, rest: seq<Digest>, c: Digest)
    requires 0 < m < |leaves| && path != []
    ensures 0 < m' <= |half| < |leaves| && path == rest + [c] && (b' ==> b && onRight)
    ensures Reconstruct(H, m, |leaves|, b, r0, path) == Join(H, onRight, Reconstruct(H, m', |half|, b', r0, rest), c)
    ensures Subproof(H, m, leaves, b) == Subproof(H, m', half, b') + [Mth(H, other)]
    ensures Mth(H, leaves) == H(NodeOver(onRight, Mth(H, half), Mth(H, other)))
    ensures NodeOver(onRight, Mth(H, half), Mth(H, other)) in TreeInputs(H, leaves)
    ensures Mth(H, leaves[..m]) ==
            if onRight then Mth(H, half[..m']) else NodeHash(H, Mth(H, other), Mth(H, half[..m']))
    ensures TreeInputs(H, half) <= TreeInputs(H, leaves)
    ensures ReconstructInputs(H, m', |half|, b', r0, rest) <= ReconstructInputs(H, m, |leaves|, b, r0, path)
    ensures JoinInput(onRight, Reconstruct(H, m', |half|, b', r0, rest), c)
            <= ReconstructInputs(H, m, |leaves|, b, r0, path)
  {
    hide Split;
    var k := Split(|leaves|);
    c, rest, onRight := path[|path| - 1], path[..|path| - 1], m <= k;
    if onRight {
      m', half, other, b' := m, leaves[..k], leaves[k..], b;
      assert leaves[..k][..m] == leaves[..m];
    } else {
      m', half, other, b' := m - k, leaves[k..], leaves[..k], false;
      PrefixRoot(H, leaves, m, k);
    }
  }

  lemma {:induction false} ConsistencyComplete(H: Hash, m: nat, leaves: seq<Digest>, b: bool, r0: Digest)
    requires 0 < m <= |leaves|
    requires b ==> r0 == Mth(H, leaves[..m])
    ensures Reconstruct(H, m, |leaves|, b, r0, Subproof(H, m, leaves, b))
            == Some(Roots(Mth(H, leaves[..m]), Mth(H, leaves)))
    decreases |leaves|
  {
    if m == |leaves| {
      assert leaves[..m] == leaves;
    } else {
      var path := Subproof(H, m, leaves, b);
      var m', half, other, onRight, b', rest, c := ConsistencySplit(H, m, leaves, b, r0, path);
      assert rest == path[..|path| - 1] == Subproof(H, m', half, b') && c == path[|path| - 1];
      ConsistencyComplete(H, m', half, b', r0);
    }
  }

  lemma {:induction false} ConsistencySound(H: Hash, m: nat, leaves: seq<Digest>, b: bool, r0: Digest,
                                            path: seq<Digest>)
    requires 0 < m <= |leaves|
    requires var top := Reconstruct(H, m, |leaves|, b, r0, path); top.Some? && top.value.after == Mth(H, leaves)
    requires CollisionFree(H, TreeInputs(H, leaves) + ReconstructInputs(H, m, |leaves|, b, r0, path))
    ensures Reconstruct(H, m, |leaves|, b, r0, path).value.before == Mth(H, leaves[..m])
    ensures path == Subproof(H, m, leaves, b)
    decreases |leaves|
  {
    if m == |leaves| {
      assert leaves[..m] == leaves;
    } else {
      var m', half, other, onRight, b', rest, c := ConsistencySplit(H, m, leaves, b, r0, path);
      var t := Reconstruct(H, m', |half|, b', r0, rest).value.after;
      NodeOverInjective(onRight, t, c, Mth(H, half), Mth(H, other));
      ConsistencySound(H, m', half, b', r0, rest);
    }
  }

  /** The generated path is accepted for every pair of sizes, the edge sizes included. */
  lemma ConsistencyPathAccepted(H: Hash, m: nat, leaves: seq<Digest>)
    requires m <= |leaves|
    ensures ConsistencyAccepts(H, m, |leaves|, Mth(H, leaves[..m]), Mth(H, leaves), ConsistencyPath(H, m, leaves))
  {
    if m == |leaves| {
      assert leaves[..m] == leaves;
    } else if m > 0 {
      ConsistencyComplete(H, m, leaves, true, Mth(H, leaves[..m]));
    }
  }

  /** The strings whose collision alone could let a consistency proof lie about `leaves`. */
  ghost function ConsistencyInputs(H: Hash, m: nat, leaves: seq<Digest>, root: Digest, proof: seq<Digest>): set<Bytes> {
    TreeInputs(H, leaves)
    + if 0 < m <= |leaves| then ReconstructInputs(H, m, |leaves|, true, root, proof) else {}
  }

  /** From size 1 up, acceptance means the old root is the root of the prefix. */
  lemma ConsistencyExact(H: Hash, m: nat, leaves: seq<Digest>, root: Digest, proof: seq<Digest>)
    requires 0 < m <= |leaves|
    requires CollisionFree(H, ConsistencyInputs(H, m, leaves, root, proof))
    ensures ConsistencyAccepts(H, m, |leaves|, root, Mth(H, leaves), proof)
            <==> root == Mth(H, leaves[..m]) && proof == ConsistencyPath(H, m, leaves)
  {
    if m == |leaves| {
      assert leaves[..m] == leaves;
    } else if ConsistencyAccepts(H, m, |leaves|, root, Mth(H, leaves), proof) {
      ConsistencySound(H, m, leaves, true, root, proof);
    }
    ConsistencyPathAccepted(H, m, leaves);
  }

  /** Size 0 carries no promise: any first root is accepted with the empty proof. */
  lemma EmptyPrefixAccepted(H: Hash, n: nat, r1: Digest, r2: Digest, proof: seq<Digest>)
    requires n > 0
    ensures ConsistencyAccepts(H, 0, n, r1, r2, proof) <==> proof == []
  {
  }
}
