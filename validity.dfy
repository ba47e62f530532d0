/** The chain-validity predicate: genesis checks, then for every later block
    hash linkage, index contiguity, seal and proof-of-work. */
module ChainValidity {
  import opened Blocks
  import opened ProofOfWork

  /** The genesis block has index 0, passes its seal check and has no transactions. */
  predicate GenesisOk(d: Digests, b: Block) {
    b.index == 0 && CheckSeal(d, b) && |b.transactions| == 0
  }

  /** `b` may follow `prev` at position `i`: it points at `prev`'s hash, its
      index is its position, it is sealed, and its proof is accepted after
      `prev`'s proof and hash. */
  predicate Links(d: Digests, prev: Block, b: Block, i: int) {
    && b.previousHash == prev.hash
    && b.index == i
    && CheckSeal(d, b)
    && CheckProofOfWork(d, prev.proof, b.proof, prev.hash)
  }

  predicate LinkOk(d: Digests, c: seq<Block>, i: int)
    requires 1 <= i < |c|
  {
    Links(d, c[i - 1], c[i], i)
  }

  /** A valid chain is non-empty, starts with a proper genesis block and links
      every later block to the one before it. */
  predicate ValidChain(d: Digests, c: seq<Block>) {
    && |c| > 0
    && GenesisOk(d, c[0])
    && forall i :: 1 <= i < |c| ==> LinkOk(d, c, i)
  }

  /** The engine's check, block by block, returning false at the first
      violation. The source reads `chain[0]` unguarded, so an empty chain is
      not accepted as input (it throws there). */
  method CheckChainValidity(d: Digests, chain: seq<Block>) returns (ok: bool)
    requires |chain| > 0
    ensures ok == ValidChain(d, chain)
  {
    if chain[0].index != 0 {
      return false;
    }
    if !CheckSeal(d, chain[0]) {
      return false;
    }
    if |chain[0].transactions| != 0 {
      return false;
    }
    var i := 1;
    while i < |chain|
      invariant 1 <= i <= |chain|
      invariant forall j :: 1 <= j < i ==> LinkOk(d, chain, j)
    {
      if chain[i].previousHash != chain[i - 1].hash {
        assert !LinkOk(d, chain, i);
        return false;
      }
      if chain[i].index != i {
        assert !LinkOk(d, chain, i);
        return false;
      }
      if !CheckSeal(d, chain[i]) {
        assert !LinkOk(d, chain, i);
        return false;
      }
      if !CheckProofOfWork(d, chain[i - 1].proof, chain[i].proof, chain[i - 1].hash) {
        assert !LinkOk(d, chain, i);
        return false;
      }
      i := i + 1;
    }
    return true;
  }

  /** In a valid chain every block's index is its position. */
  lemma IndexIsPosition(d: Digests, c: seq<Block>, i: nat)
    requires ValidChain(d, c) && i < |c|
    ensures c[i].index == i
  {
    if i > 0 {
      assert LinkOk(d, c, i);
    }
  }

  /** The chain made of the genesis block alone is valid. */
  lemma GenesisChainValid(d: Digests, timestamp: string)
    ensures ValidChain(d, [GenesisBlock(d, timestamp)])
  {
  }

  /** Appending a block that links to the last one keeps a chain valid. */
  lemma AppendKeepsValid(d: Digests, c: seq<Block>, b: Block)
    requires ValidChain(d, c)
    requires Links(d, c[|c| - 1], b, |c|)
    ensures ValidChain(d, c + [b])
  {
    var e := c + [b];
    forall i | 1 <= i < |e|
      ensures LinkOk(d, e, i)
    {
      if i < |c| {
        assert LinkOk(d, c, i);
        assert e[i - 1] == c[i - 1] && e[i] == c[i];
      }
    }
  }

  /** Every non-empty prefix of a valid chain is valid. */
  lemma PrefixValid(d: Digests, c: seq<Block>, k: nat)
    requires ValidChain(d, c) && 1 <= k <= |c|
    ensures ValidChain(d, c[..k])
  {
    var p := c[..k];
    forall i | 1 <= i < k
      ensures LinkOk(d, p, i)
    {
      assert LinkOk(d, c, i);
    }
  }

  /** Replacing a block by one with different sealed fields but the old hash
      is detected, whenever the digest tells the two apart. */
  lemma TamperedContentDetected(d: Digests, c: seq<Block>, k: nat, t: Block)
    requires ValidChain(d, c) && k < |c|
    requires t.hash == c[k].hash
    requires Digest(d, t) != Digest(d, c[k])
    ensures !ValidChain(d, c[k := t])
  {
    if k > 0 {
      assert LinkOk(d, c, k);
      assert !LinkOk(d, c[k := t], k);
    }
  }

  /** A block whose index is changed makes the chain invalid, whatever the
      digest: the index is compared with the block's position. */
  lemma ChangedIndexDetected(d: Digests, c: seq<Block>, k: nat, t: Block)
    requires ValidChain(d, c) && k < |c|
    requires t.index != c[k].index
    ensures !ValidChain(d, c[k := t])
  {
    IndexIsPosition(d, c, k);
    if k > 0 {
      assert !LinkOk(d, c[k := t], k);
    }
  }

  /** A block past the genesis whose previous hash is changed makes the chain
      invalid, whatever the digest: it no longer points at its predecessor. */
  lemma ChangedPreviousHashDetected(d: Digests, c: seq<Block>, k: nat, t: Block)
    requires ValidChain(d, c) && 0 < k < |c|
    requires t.previousHash != c[k].previousHash
    ensures !ValidChain(d, c[k := t])
  {
    assert LinkOk(d, c, k);
    assert !LinkOk(d, c[k := t], k);
  }

  /** Replacing a block that has a successor by one with another hash breaks
      the successor's link. */
  lemma ChangedHashDetected(d: Digests, c: seq<Block>, k: nat, t: Block)
    requires ValidChain(d, c) && k + 1 < |c|
    requires t.hash != c[k].hash
    ensures !ValidChain(d, c[k := t])
  {
    assert LinkOk(d, c, k + 1);
    assert !LinkOk(d, c[k := t], k + 1);
  }

  /** Nothing protects the last block: its transactions can be replaced and
      the block resealed, and the chain stays valid. */
  lemma TipCanBeRewritten(d: Digests, c: seq<Block>, txs: seq<Transaction>)
    requires ValidChain(d, c) && |c| >= 2
    ensures ValidChain(d, c[|c| - 1 := Seal(d, c[|c| - 1].(transactions := txs))])
  {
    var n := |c| - 1;
    var t := Seal(d, c[n].(transactions := txs));
    assert LinkOk(d, c, n);
    PrefixValid(d, c, n);
    AppendKeepsValid(d, c[..n], t);
    assert c[..n] + [t] == c[n := t];
  }
}
