/** The streaming gate: chunks of a streamed answer chained by hash up to the root M signed. */
module Streaming {
  import opened Bytes

  const MAX_INDEX := 0xFFFF_FFFF

  /** A hex digest argument: left out, not a digest, or one. */
  datatype Expected = Absent | Malformed | Given(digest: Digest)

  datatype Call = Feed(index: int, chunk: Bytes, expected: Expected) | Finish(final: Expected)

  /** What the gate remembers between calls. */
  datatype State = State(chainHash: Digest, nextIndex: nat, failed: bool, finalized: bool) {
    predicate Open() { !failed && !finalized }
  }

  function Link(previous: Digest, index: nat, chunk: Bytes): Bytes { previous + ToBigEndian(index, 4) + chunk }

  predicate Succeeds(H: Hash, root: Digest, s: State, call: Call) {
    s.Open() &&
    match call
    case Feed(index, chunk, expected) =>
      1 <= index == s.nextIndex <= MAX_INDEX
      && (expected == Absent || expected == Given(H(Link(s.chainHash, index, chunk))))
    case Finish(final) => final == Given(root) && s.chainHash == root
  }

  /** A call that succeeds moves on; any other call to an open gate closes it for good. */
  function Step(H: Hash, root: Digest, s: State, call: Call): State {
    if !Succeeds(H, root, s, call) then s.(failed := s.failed || s.Open())
    else if call.Feed? then s.(chainHash := H(Link(s.chainHash, call.index, call.chunk)), nextIndex := s.nextIndex + 1)
    else s.(finalized := true)
  }

  class StreamingGate {
    const H: Hash
    const expectedRoot: Digest
    var chainHash: Digest
    var nextIndex: nat
    var failed: bool
    var finalized: bool

    function Now(): State
      reads this
    {
      State(chainHash, nextIndex, failed, finalized)
    }

    /** `seed` is the request hash followed by the nonce. */
    constructor (H: Hash, expectedRoot: Digest, seed: Bytes)
      ensures this.H == H && this.expectedRoot == expectedRoot && Now() == Start(H, seed)
    {
      this.H, this.expectedRoot := H, expectedRoot;
      chainHash, nextIndex, failed, finalized := H(seed), 1, false, false;
    }

    method FeedChunk(index: int, chunk: Bytes, expected: Expected) returns (ok: bool)
      modifies this
      ensures ok == Succeeds(H, expectedRoot, old(Now()), Feed(index, chunk, expected))
      ensures Now() == Step(H, expectedRoot, old(Now()), Feed(index, chunk, expected))
    {
      if failed || finalized {
        return false;
      }
      if !(1 <= index <= MAX_INDEX) {
        failed := true;
        return false;
      }
      if index != nextIndex {
        failed := true;
        return false;
      }
      var candidate := H(Link(chainHash, index, chunk));
      if expected != Absent {
        if expected.Malformed? {
          failed := true;
          return false;
        }
        if candidate != expected.digest {
          failed := true;
          return false;
        }
      }
      chainHash := candidate;
      nextIndex := nextIndex + 1;
      return true;
    }

    method Finalize(final: Expected) returns (ok: bool)
      modifies this
      ensures ok == Succeeds(H, expectedRoot, old(Now()), Finish(final))
      ensures Now() == Step(H, expectedRoot, old(Now()), Finish(final))
    {
      if failed || finalized {
        return false;
      }
      if !final.Given? {
        failed := true;
        return false;
      }
      if final.digest != expectedRoot {
        failed := true;
        return false;
      }
      if chainHash != final.digest {
        failed := true;
        return false;
      }
      finalized := true;
      return true;
    }
  }

  // ---- runs ------------------------------------------------------------------------------------------

  function Start(H: Hash, seed: Bytes): State { State(H(seed), 1, false, false) }

  function Run(H: Hash, root: Digest, seed: Bytes, calls: seq<Call>): State {
    if calls == [] then Start(H, seed)
    else Step(H, root, Run(H, root, seed, calls[..|calls| - 1]), calls[|calls| - 1])
  }

  predicate SucceedsAt(H: Hash, root: Digest, seed: Bytes, calls: seq<Call>, i: nat)
    requires i < |calls|
  {
    Succeeds(H, root, Run(H, root, seed, calls[..i]), calls[i])
  }

  /** The chunks of the calls that succeeded. */
  function Accepted(H: Hash, root: Digest, seed: Bytes, calls: seq<Call>): seq<Bytes> {
    if calls == [] then []
    else
      var before, last := calls[..|calls| - 1], calls[|calls| - 1];
      var accepted := Accepted(H, root, seed, before);
      if last.Feed? && Succeeds(H, root, Run(H, root, seed, before), last) then accepted + [last.chunk] else accepted
  }

  /** The chain hash M signs for a list of chunks, numbered from 1. */
  function Chain(H: Hash, seed: Bytes, chunks: seq<Bytes>): Digest { H(ChainInput(H, seed, chunks)) }

  /** What is hashed last. */
  function ChainInput(H: Hash, seed: Bytes, chunks: seq<Bytes>): Bytes {
    if chunks == [] then seed
    else Link(H(ChainInput(H, seed, chunks[..|chunks| - 1])), |chunks|, chunks[|chunks| - 1])
  }

  ghost function ChainInputs(H: Hash, seed: Bytes, chunks: seq<Bytes>): set<Bytes> {
    {ChainInput(H, seed, chunks)}
    + if chunks == [] then {} else ChainInputs(H, seed, chunks[..|chunks| - 1])
  }

  /** After any calls, the gate holds the chain over exactly the accepted chunks, which are numbered 1, 2, ... */
  lemma {:induction false} HoldsChainOfAccepted(H: Hash, root: Digest, seed: Bytes, calls: seq<Call>)
    ensures var s, accepted := Run(H, root, seed, calls), Accepted(H, root, seed, calls);
            s.chainHash == Chain(H, seed, accepted) && s.nextIndex == |accepted| + 1 && |accepted| <= MAX_INDEX
            && (s.finalized ==> s.chainHash == root) && !(s.failed && s.finalized)
  {
    hide Link, ChainInput;
    if calls != [] {
      var before, last := calls[..|calls| - 1], calls[|calls| - 1];
      HoldsChainOfAccepted(H, root, seed, before);
      if last.Feed? {
        ChainGrows(H, seed, Accepted(H, root, seed, before), last.chunk);
      }
    } else {
      EmptyChain(H, seed);
    }
  }

  lemma EmptyChain(H: Hash, seed: Bytes)
    ensures Chain(H, seed, []) == H(seed)
  {
  }

  lemma ChainGrows(H: Hash, seed: Bytes, chunks: seq<Bytes>, chunk: Bytes)
    ensures Chain(H, seed, chunks + [chunk]) == H(Link(Chain(H, seed, chunks), |chunks| + 1, chunk))
  {
    assert (chunks + [chunk])[..|chunks|] == chunks;
  }

  /** Nothing succeeds after a failure or a finalization. */
  lemma StopsForGood(H: Hash, root: Digest, seed: Bytes, calls: seq<Call>, i: nat, j: nat)
    requires i < j < |calls|
    requires !SucceedsAt(H, root, seed, calls, i) || calls[i].Finish?
    ensures !SucceedsAt(H, root, seed, calls, j)
  {
    StaysClosed(H, root, seed, calls, i, j);
  }

  lemma {:induction false} StaysClosed(H: Hash, root: Digest, seed: Bytes, calls: seq<Call>, i: nat, j: nat)
    requires i < j <= |calls|
    requires !SucceedsAt(H, root, seed, calls, i) || calls[i].Finish?
    ensures !Run(H, root, seed, calls[..j]).Open()
    decreases j
  {
    assert calls[..j][..j - 1] == calls[..j - 1];
    if i < j - 1 {
      StaysClosed(H, root, seed, calls, i, j - 1);
    }
  }

  lemma LinkInjective(p1: Digest, i1: nat, c1: Bytes, p2: Digest, i2: nat, c2: Bytes)
    requires i1 <= MAX_INDEX && i2 <= MAX_INDEX && Link(p1, i1, c1) == Link(p2, i2, c2)
    ensures p1 == p2 && i1 == i2 && c1 == c2
  {
    var a, b := Link(p1, i1, c1), Link(p2, i2, c2);
    assert p1 == a[..32] && p2 == b[..32];
    assert ToBigEndian(i1, 4) == a[32..36] && ToBigEndian(i2, 4) == b[32..36];
    assert c1 == a[36..] && c2 == b[36..];
    assert Power256(4) == 256 * 256 * Power256(2);
    BigEndianRoundTrip(i1, 4);
    BigEndianRoundTrip(i2, 4);
  }

  /**
    Two chunk lists with one chain hash are the same list, unless one of them is empty and the seed is
    itself what the other hashes last. The program's seed is any text, so that case is not excluded.
   */
  lemma {:induction false} ChainInjective(H: Hash, seed: Bytes, a: seq<Bytes>, b: seq<Bytes>)
    requires |a| <= MAX_INDEX && |b| <= MAX_INDEX && Chain(H, seed, a) == Chain(H, seed, b)
    requires CollisionFree(H, ChainInputs(H, seed, a) + ChainInputs(H, seed, b))
    ensures a == b
            || (a == [] && seed == ChainInput(H, seed, b))
            || (b == [] && seed == ChainInput(H, seed, a))
  {
    if a != [] && b != [] {
      var a', b' := a[..|a| - 1], b[..|b| - 1];
      LinkInjective(H(ChainInput(H, seed, a')), |a|, a[|a| - 1], H(ChainInput(H, seed, b')), |b|, b[|b| - 1]);
      ChainInjective(H, seed, a', b');
      assert a == a' + [a[|a| - 1]] && b == b' + [b[|b| - 1]];
    }
  }

  /**
    A finalized gate whose root is that of a signed chunk list was fed exactly that list, or one of the two
    lists is empty and the other is not. That takes a seed that begins with a digest computed from itself:
    the seed is what hashing the other list ends with.
   */
  lemma FinalizedMeansSigned(H: Hash, root: Digest, seed: Bytes, calls: seq<Call>, signed: seq<Bytes>)
    requires Run(H, root, seed, calls).finalized && root == Chain(H, seed, signed) && |signed| <= MAX_INDEX
    requires CollisionFree(H, ChainInputs(H, seed, signed) + ChainInputs(H, seed, Accepted(H, root, seed, calls)))
    ensures var fed := Accepted(H, root, seed, calls);
            (fed == signed <==> (fed == [] <==> signed == []))
            && (fed != signed ==> seed == ChainInput(H, seed, if fed == [] then signed else fed))
  {
    hide Run, Accepted, ChainInput, ChainInputs, Link;
    HoldsChainOfAccepted(H, root, seed, calls);
    ChainInjective(H, seed, Accepted(H, root, seed, calls), signed);
  }

  /** A gate that was fed nothing passes for a list exactly when that list is empty or the seed is of this kind. */
  lemma EmptyStreamPasses(H: Hash, seed: Bytes, signed: seq<Bytes>)
    requires CollisionFree(H, {seed} + ChainInputs(H, seed, signed))
    ensures var root := Chain(H, seed, signed);
            Run(H, root, seed, [Finish(Given(root))]).finalized <==> signed == [] || seed == ChainInput(H, seed, signed)
  {
    var call := Finish(Given(Chain(H, seed, signed)));
    assert [call][..0] == [];
    assert Run(H, Chain(H, seed, signed), seed, []) == Start(H, seed);
  }

  /** For some hash functions there are such seeds, so nothing follows for an empty list without looking at the seed. */
  lemma SelfReferentialSeed() returns (H: Hash, seed: Bytes, signed: seq<Bytes>)
    ensures signed != [] && CollisionFree(H, {seed} + ChainInputs(H, seed, signed))
    ensures var root := Chain(H, seed, signed); Run(H, root, seed, [Finish(Given(root))]).finalized
  {
    var zeros: Digest := seq(32, _ => 0);
    H := _ => zeros;
    signed := [[]];
    seed := Link(zeros, 1, []);
    assert signed[..0] == [];
    assert ChainInput(H, seed, []) == seed && ChainInput(H, seed, signed) == seed;
    assert ChainInputs(H, seed, []) == {seed} && ChainInputs(H, seed, signed) == {seed};
    EmptyStreamPasses(H, seed, signed);
  }

  function FeedAll(chunks: seq<Bytes>): seq<Call> {
    seq(|chunks|, i requires 0 <= i < |chunks| => Feed(i + 1, chunks[i], Absent))
  }

  /** Conversely a gate that is fed the signed list in order, and finalized with its root, succeeds. */
  lemma {:induction false} SignedStreamPasses(H: Hash, seed: Bytes, signed: seq<Bytes>, n: nat)
    requires n <= |signed| <= MAX_INDEX
    ensures var root := Chain(H, seed, signed);
            Run(H, root, seed, FeedAll(signed)[..n]) == State(Chain(H, seed, signed[..n]), n + 1, false, false)
            && (n == |signed| ==> Run(H, root, seed, FeedAll(signed) + [Finish(Given(root))]).finalized)
  {
    var root, calls := Chain(H, seed, signed), FeedAll(signed);
    if n > 0 {
      SignedStreamPasses(H, seed, signed, n - 1);
      assert calls[..n][..n - 1] == calls[..n - 1] && signed[..n][..n - 1] == signed[..n - 1];
    }
    if n == |signed| {
      assert calls[..n] == calls && signed[..n] == signed;
      assert (calls + [Finish(Given(root))])[..n] == calls;
    }
  }
}
