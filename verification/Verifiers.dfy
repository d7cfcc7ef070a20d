/**
  The two verification loops. They walk a proof from the leaf to the root with shifting indices
  `fn` and `sn`; each is proved to compute the recursive fold of module `Proofs`. The link is one
  level at a time: pairing up neighbouring leaves halves the position and the size of the tree,
  uses up the first proof element, and promotes a leaf without a right neighbour.
 */
module Verifiers {
  import opened Bytes
  import opened Options
  import opened Merkle
  import opened Proofs

  // ---- one level up ---------------------------------------------------------------------------

  function HashLeft(H: Hash, c: Digest, r: Roots): Roots {
    Roots(NodeHash(H, c, r.before), NodeHash(H, c, r.after))
  }

  function HashRight(H: Hash, r: Roots, c: Digest): Roots {
    Roots(r.before, NodeHash(H, r.after, c))
  }

  /** Position `i` of `n` leaves has no right neighbour to pair with. */
  predicate Lone(i: nat, n: nat) {
    i % 2 == 0 && i + 1 == n
  }

  lemma SplitOfPairs(n: nat)
    requires n > 2
    ensures Split(n) == 2 * Split((n + 1) / 2)
  {
  }

  lemma PairedHalf(i: nat, n: nat) returns (j: nat, size: nat, onRight: bool)
    requires n > 2 && i < n
    ensures j < size < n && Lone(j, size) == Lone(i, n) && j % 2 == i % 2
    ensures onRight == (i < Split(n)) == (i / 2 < Split((n + 1) / 2))
    ensures (j, size) == if onRight then (i, Split(n)) else (i - Split(n), n - Split(n))
    ensures (j / 2, (size + 1) / 2) ==
            if onRight then (i / 2, Split((n + 1) / 2))
            else (i / 2 - Split((n + 1) / 2), (n + 1) / 2 - Split((n + 1) / 2))
  {
    hide Split;
    SplitOfPairs(n);
    var k := Split(n);
    onRight := i < k;
    if onRight {
      j, size := i, k;
    } else {
      j, size := i - k, n - k;
    }
  }

  lemma ClimbTop(H: Hash, i: nat, n: nat, j: nat, size: nat, onRight: bool, r: Roots, path: seq<Digest>)
    requires n >= 2 && i < n && path != [] && j < size
    requires onRight == (i < Split(n))
    requires (j, size) == if onRight then (i, Split(n)) else (i - Split(n), n - Split(n))
    ensures Climb(H, i, n, r, path) ==
            Join(H, onRight, Climb(H, j, size, r, path[..|path| - 1]), path[|path| - 1])
  {
  }

  /** Above two leaves, a tree and the tree of its pairs split alike. */
  lemma PairedSplit(H: Hash, i: nat, n: nat, r: Roots, path: seq<Digest>, r': Roots, path': seq<Digest>)
    returns (j: nat, size: nat, onRight: bool)
    requires n > 2 && i < n && path != [] && path' != []
    ensures j < size < n && Lone(j, size) == Lone(i, n) && j % 2 == i % 2
    ensures Climb(H, i, n, r, path) ==
            Join(H, onRight, Climb(H, j, size, r, path[..|path| - 1]), path[|path| - 1])
    ensures Climb(H, i / 2, (n + 1) / 2, r', path') ==
            Join(H, onRight, Climb(H, j / 2, (size + 1) / 2, r', path'[..|path'| - 1]), path'[|path'| - 1])
  {
    j, size, onRight := PairedHalf(i, n);
    ClimbTop(H, i, n, j, size, onRight, r, path);
    ClimbTop(H, i / 2, (n + 1) / 2, j / 2, (size + 1) / 2, onRight, r', path');
  }

  lemma {:induction false} PromoteLone(H: Hash, i: nat, n: nat, r: Roots, path: seq<Digest>)
    requires n >= 2 && i < n && Lone(i, n)
    ensures Climb(H, i, n, r, path) == Climb(H, i / 2, (n + 1) / 2, r, path)
    decreases n
  {
    if path != [] {
      var j, size, onRight := PairedSplit(H, i, n, r, path, r, path);
      if size >= 2 {
        PromoteLone(H, j, size, r, path[..|path| - 1]);
      }
    }
  }

  lemma {:induction false} PairUp(H: Hash, i: nat, n: nat, r: Roots, path: seq<Digest>)
    requires n >= 2 && i < n && !Lone(i, n) && path != []
    ensures Climb(H, i, n, r, path) ==
            Climb(H, i / 2, (n + 1) / 2, if i % 2 == 1 then HashLeft(H, path[0], r) else HashRight(H, r, path[0]),
                  path[1..])
    decreases n
  {
    var r' := if i % 2 == 1 then HashLeft(H, path[0], r) else HashRight(H, r, path[0]);
    if n == 2 {
      PairOfTwo(H, i, r, path);
    } else if |path| > 1 {
      var j, size, onRight := PairedSplit(H, i, n, r, path, r', path[1..]);
      var rest := path[..|path| - 1];
      assert path[1..][..|path| - 2] == rest[1..];
      PairUp(H, j, size, r, rest);
    } else {
      var j, size, onRight := PairedSplit(H, i, n, r, path, r, path);
      assert size >= 2;
    }
  }

  lemma PairOfTwo(H: Hash, i: nat, r: Roots, path: seq<Digest>)
    requires i < 2 && path != []
    ensures Climb(H, i, 2, r, path) ==
            Climb(H, 0, 1, if i == 1 then HashLeft(H, path[0], r) else HashRight(H, r, path[0]), path[1..])
  {
    assert Split(2) == 1;
  }

  // ---- inclusion --------------------------------------------------------------------------------

  lemma {:induction false} AfterIgnoresBefore(H: Hash, i: nat, n: nat, r1: Roots, r2: Roots, path: seq<Digest>)
    requires i < n && r1.after == r2.after
    ensures var t1, t2 := Climb(H, i, n, r1, path), Climb(H, i, n, r2, path);
            t1.Some? == t2.Some? && (t1.Some? ==> t1.value.after == t2.value.after)
    decreases n
  {
    if n >= 2 && path != [] {
      var k, rest := Split(n), path[..|path| - 1];
      if i < k {
        AfterIgnoresBefore(H, i, k, r1, r2, rest);
      } else {
        AfterIgnoresBefore(H, i - k, n - k, r1, r2, rest);
      }
    }
  }

  lemma StartOfPairs(i: int, n: nat)
    requires i < n && n >= 2
    ensures var (p, size) := StartPosition(i, n);
            size >= 2 && StartPosition(i / 2, (n + 1) / 2) == (p / 2, (size + 1) / 2) && p % 2 == i % 2
            && Lone(p, size) == (i >= 0 && Lone(i, n))
  {
  }

  lemma AcceptPromoted(H: Hash, i: int, n: nat, x: Digest, path: seq<Digest>, root: Digest)
    requires 0 <= i < n && n >= 2 && Lone(i, n)
    ensures InclusionAccepts(H, i, n, x, path, root) == InclusionAccepts(H, i / 2, (n + 1) / 2, x, path, root)
  {
    PromoteLone(H, i, n, Roots(x, x), path);
  }

  lemma AcceptPaired(H: Hash, i: int, n: nat, x: Digest, path: seq<Digest>, root: Digest)
    requires i < n && n != 1 && path != [] && (i >= 0 ==> !Lone(i, n))
    ensures var x' := if i % 2 == 1 then NodeHash(H, path[0], x) else NodeHash(H, x, path[0]);
            InclusionAccepts(H, i, n, x, path, root)
            == InclusionAccepts(H, i / 2, (n + 1) / 2, x', path[1..], root)
  {
    if n >= 2 {
      var x' := if i % 2 == 1 then NodeHash(H, path[0], x) else NodeHash(H, x, path[0]);
      var (p, size) := StartPosition(i, n);
      StartOfPairs(i, n);
      PairUp(H, p, size, Roots(x, x), path);
      var b := if i % 2 == 1 then x' else x;
      AfterIgnoresBefore(H, p / 2, (size + 1) / 2, Roots(b, x'), Roots(x', x'), path[1..]);
    }
  }

  lemma AcceptAtRoot(H: Hash, i: int, n: nat, x: Digest, path: seq<Digest>, root: Digest)
    requires n <= 1 || path == [] || i >= n
    ensures InclusionAccepts(H, i, n, x, path, root) == (i < n == 1 && path == [] && x == root)
  {
  }

  method VerifyInclusion(H: Hash, leafIndex: int, treeSize: nat, leaf: Digest, proof: seq<Digest>, root: Digest)
    returns (ok: bool)
    ensures ok == InclusionAccepts(H, leafIndex, treeSize, leaf, proof, root)
  {
    hide InclusionAccepts;
    if leafIndex >= treeSize {
      AcceptAtRoot(H, leafIndex, treeSize, leaf, proof, root);
      return false;
    }
    var fn, sn, r := leafIndex, treeSize - 1, leaf;
    ghost var answer := InclusionAccepts(H, leafIndex, treeSize, leaf, proof, root);
    ghost var path := proof;  // the elements still to come
    for j := 0 to |proof|
      invariant -1 <= sn && fn <= sn
      invariant path == proof[j..]
      invariant InclusionAccepts(H, fn, sn + 1, r, path, root) == answer
    {
      ghost var x := r;
      if sn == 0 {
        AcceptAtRoot(H, fn, 1, r, path, root);
        return false;
      }
      var p := proof[j];
      if fn % 2 == 1 || fn == sn {
        r := NodeHash(H, p, r);
        if fn % 2 != 1 {
          while fn != 0 && fn % 2 != 1
            invariant fn == sn && fn > 0
            invariant InclusionAccepts(H, fn, sn + 1, x, path, root) == answer
          {
            AcceptPromoted(H, fn, sn + 1, x, path, root);
            fn, sn := fn / 2, sn / 2;
          }
        }
      } else {
        r := NodeHash(H, r, p);
      }
      AcceptPaired(H, fn, sn + 1, x, path, root);
      fn, sn, path := fn / 2, sn / 2, path[1..];
    }
    AcceptAtRoot(H, fn, sn + 1, r, [], root);
    return sn == 0 && r == root;
  }

  // ---- consistency --------------------------------------------------------------------------------

  /** Bitwise and. */
  function BitAnd(a: nat, b: nat): nat {
    if a == 0 || b == 0 then 0 else 2 * BitAnd(a / 2, b / 2) + if a % 2 == 1 && b % 2 == 1 then 1 else 0
  }

  lemma {:induction false} BitAndSelf(a: nat)
    ensures BitAnd(a, a) == a
  {
    if a > 0 {
      BitAndSelf(a / 2);
    }
  }

  lemma {:induction false} PowerOfTwoTest(n: nat)
    requires n > 0
    ensures BitAnd(n, n - 1) == 0 <==> IsPowerOfTwo(n)
  {
    if n % 2 == 1 {
      BitAndSelf(n / 2);
      assert (n - 1) / 2 == n / 2;
    } else {
      PowerOfTwoTest(n / 2);
      assert (n - 1) / 2 == n / 2 - 1;
    }
  }

  lemma {:induction false} PowerBelowSplit(m: nat, n: nat)
    requires IsPowerOfTwo(m) && m < n
    ensures m <= Split(n)
  {
    if m > 1 {
      PowerBelowSplit(m / 2, (n + 1) / 2);
    }
  }

  lemma ReconstructTop(H: Hash, m: nat, n: nat, b: bool, r0: Digest, path: seq<Digest>)
    returns (m': nat, size: nat, onRight: bool)
    requires 0 < m < n && path != []
    ensures 0 < m' <= size < n && onRight == (m <= Split(n))
    ensures (m', size) == if onRight then (m, Split(n)) else (m - Split(n), n - Split(n))
    ensures IsPowerOfTwo(m) ==> onRight
    ensures onRight ==> IsPowerOfTwo(size)
    ensures Reconstruct(H, m, n, b, r0, path) ==
            Join(H, onRight, Reconstruct(H, m', size, b && onRight, r0, path[..|path| - 1]), path[|path| - 1])
  {
    onRight := m <= Split(n);
    if IsPowerOfTwo(m) {
      PowerBelowSplit(m, n);
    }
    if onRight {
      m', size := m, Split(n);
      SplitPowerOfTwo(n);
    } else {
      m', size := m - Split(n), n - Split(n);
    }
  }

  /** The full path: the old root stands in front when the old tree is a whole subtree of the new. */
  ghost function FullPath(m: nat, r0: Digest, proof: seq<Digest>): seq<Digest> {
    if IsPowerOfTwo(m) then [r0] + proof else proof
  }

  lemma {:induction false} PrependOldRoot(H: Hash, m: nat, n: nat, r0: Digest, proof: seq<Digest>)
    requires 0 < m <= n && (m == n ==> IsPowerOfTwo(m))
    ensures Reconstruct(H, m, n, true, r0, proof) == Reconstruct(H, m, n, false, r0, FullPath(m, r0, proof))
    decreases n
  {
    if m < n && proof != [] {
      hide Split;
      var full, rest := FullPath(m, r0, proof), proof[..|proof| - 1];
      assert full[..|full| - 1] == FullPath(m, r0, rest) && full[|full| - 1] == proof[|proof| - 1];
      var m', size, onRight := ReconstructTop(H, m, n, true, r0, proof);
      var _, _, _ := ReconstructTop(H, m, n, false, r0, full);
      if onRight {
        PrependOldRoot(H, m, size, r0, rest);
      }
    } else if m < n {
      var full := FullPath(m, r0, proof);
      if full != [] {
        var m', size, onRight := ReconstructTop(H, m, n, false, r0, full);
      }
    }
  }

  lemma HalvedHalf(m: nat, n: nat)
    requires 0 < m < n && m % 2 == 0
    ensures m / 2 < (n + 1) / 2 && Split(n) == 2 * Split((n + 1) / 2)
    ensures (m <= Split(n)) == (m / 2 <= Split((n + 1) / 2))
    ensures Split((n + 1) / 2) == (Split(n) + 1) / 2
    ensures m > Split(n) ==> (m - Split(n)) / 2 == m / 2 - Split((n + 1) / 2)
    ensures (n - Split(n) + 1) / 2 == (n + 1) / 2 - Split((n + 1) / 2)
  {
    hide Split;
    SplitOfPairs(n);
  }

  /** Two even sizes: the pairs of leaves have the same proof. */
  lemma {:induction false} HalveSizes(H: Hash, m: nat, n: nat, r0: Digest, path: seq<Digest>)
    requires 0 < m < n && m % 2 == 0
    ensures m / 2 < (n + 1) / 2
    ensures Reconstruct(H, m, n, false, r0, path) == Reconstruct(H, m / 2, (n + 1) / 2, false, r0, path)
    decreases n
  {
    hide Split;
    HalvedHalf(m, n);
    if path != [] {
      var m', size, onRight := ReconstructTop(H, m, n, false, r0, path);
      var _, _, _ := ReconstructTop(H, m / 2, (n + 1) / 2, false, r0, path);
      if m' < size {
        HalveSizes(H, m', size, r0, path[..|path| - 1]);
      }
    }
  }

  /** The half of the tree an odd size ends in is left by that size unless it is a single leaf. */
  lemma OddHalf(m: nat, n: nat)
    requires 0 < m < n && m % 2 == 1
    ensures m <= Split(n) <==> m - 1 < Split(n)
    ensures m == Split(n) ==> Split(n) == 1
    ensures m > Split(n) ==> (m - Split(n)) % 2 == 1
  {
    hide Split;
    if n > 2 {
      SplitOfPairs(n);
      OddMinusEven(m, Split((n + 1) / 2));
    }
  }

  lemma {:induction false} OddMinusEven(m: nat, k: nat)
    requires m % 2 == 1
    ensures m != 2 * k && (m - 2 * k) % 2 == 1
  {
    if k > 0 {
      OddMinusEven(m, k - 1);
    }
  }

  lemma ClimbAtRoot(H: Hash, i: nat, n: nat, r: Roots, path: seq<Digest>)
    requires i < n && (n == 1 || path == [])
    ensures Climb(H, i, n, r, path) == if n == 1 && path == [] then Some(r) else None
  {
  }

  /** An odd old size: its last leaf is the start of both roots. */
  lemma {:induction false} StartAtLeaf(H: Hash, m: nat, n: nat, r0: Digest, path: seq<Digest>)
    requires 0 < m < n && m % 2 == 1 && path != []
    ensures Reconstruct(H, m, n, false, r0, path) == Climb(H, m - 1, n, Roots(path[0], path[0]), path[1..])
    decreases n
  {
    hide Split, NodeHash, IsPowerOfTwo, Climb;
    var m', size, onRight := ReconstructTop(H, m, n, false, r0, path);
    OddHalf(m, n);
    var rest := path[..|path| - 1];
    if |path| > 1 {
      assert path[1..][..|path| - 2] == rest[1..] && path[1..][|path| - 2] == path[|path| - 1];
      ClimbTop(H, m - 1, n, m' - 1, size, onRight, Roots(path[0], path[0]), path[1..]);
      if m' < size {
        StartAtLeaf(H, m', size, r0, rest);
      } else {
        ClimbAtRoot(H, 0, 1, Roots(path[0], path[0]), rest[1..]);
      }
    } else {
      ClimbAtRoot(H, m - 1, n, Roots(path[0], path[0]), []);
    }
  }

  /** The loop's starting values stand for the whole proof. */
  lemma StartOfConsistency(H: Hash, first: nat, second: nat, firstRoot: Digest, proof: seq<Digest>)
    requires 0 < first < second && proof != []
    ensures Reconstruct(H, first, second, true, firstRoot, proof) ==
            Reconstruct(H, first, second, false, firstRoot,
                        if BitAnd(first, first - 1) == 0 then [firstRoot] + proof else proof)
  {
    PowerOfTwoTest(first);
    PrependOldRoot(H, first, second, firstRoot, proof);
  }

  lemma NeedsProof(H: Hash, m: nat, n: nat, r0: Digest)
    requires 0 < m < n
    ensures Reconstruct(H, m, n, true, r0, []) == None
  {
  }

  method VerifyConsistency(H: Hash, first: nat, second: nat, firstRoot: Digest, secondRoot: Digest,
                           proof: seq<Digest>)
    returns (ok: bool)
    ensures ok == ConsistencyAccepts(H, first, second, firstRoot, secondRoot, proof)
  {
    hide Climb, Reconstruct, BitAnd, NodeHash;
    if first > second {
      return false;
    }
    if first == second {
      return firstRoot == secondRoot && proof == [];
    }
    if first == 0 {
      return proof == [];
    }
    if proof == [] {
      NeedsProof(H, first, second, firstRoot);
      return false;
    }
    var path := proof;
    if BitAnd(first, first - 1) == 0 {
      path := [firstRoot] + path;
    }
    ghost var top := Reconstruct(H, first, second, false, firstRoot, path);
    StartOfConsistency(H, first, second, firstRoot, proof);
    var fn, sn := first - 1, second - 1;
    while fn % 2 == 1
      invariant 0 <= fn < sn
      invariant Reconstruct(H, fn + 1, sn + 1, false, firstRoot, path) == top
      decreases fn
    {
      HalveSizes(H, fn + 1, sn + 1, firstRoot, path);
      fn, sn := fn / 2, sn / 2;
    }
    var fr, sr := path[0], path[0];
    StartAtLeaf(H, fn + 1, sn + 1, firstRoot, path);
    ghost var rest := path[1..];  // the elements still to come
    for j := 1 to |path|
      invariant 0 <= fn <= sn
      invariant rest == path[j..]
      invariant Climb(H, fn, sn + 1, Roots(fr, sr), rest) == top
    {
      ghost var r := Roots(fr, sr);
      if sn == 0 {
        ClimbAtRoot(H, fn, 1, r, rest);
        return false;
      }
      var c := path[j];
      if fn % 2 == 1 || fn == sn {
        fr := NodeHash(H, c, fr);
        sr := NodeHash(H, c, sr);
        if fn % 2 != 1 {
          while fn != 0 && fn % 2 != 1
            invariant fn == sn && fn > 0
            invariant Climb(H, fn, sn + 1, r, rest) == top
          {
            PromoteLone(H, fn, sn + 1, r, rest);
            fn, sn := fn / 2, sn / 2;
          }
        }
      } else {
        sr := NodeHash(H, sr, c);
      }
      PairUp(H, fn, sn + 1, r, rest);
      fn, sn, rest := fn / 2, sn / 2, rest[1..];
    }
    ClimbAtRoot(H, fn, sn + 1, Roots(fr, sr), rest);
    return fr == firstRoot && sr == secondRoot && sn == 0;
  }
}
