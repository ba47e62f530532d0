/** The consensus engine: a node's chain, its pool of pending transactions,
    its peers and its identity, with the append, mining and
    conflict-resolution operations that change them. */
module Engine {
  import opened Wrappers
  import opened Blocks
  import opened ProofOfWork
  import opened ChainValidity
  import opened Conflicts

  /** Sender of the reward transaction a miner credits itself. */
  const MinedSender: string := "mined"
  /** Amount of the mining reward. */
  const MiningReward: int := 100

  /** Local invariant violations raised while appending a block. */
  datatype AddBlockError = BlockSealCheckingFailed | BlockProofCheckingFailed

  /** Conflict resolution is abandoned as a whole when a reply cannot be read
      as JSON; `peer` is the position of the first such reply. */
  datatype ResolveError = UnreadableReply(peer: nat)

  class Blockchain {
    var chain: seq<Block>
    var pendingTransactions: seq<Transaction>
    var peers: seq<string>
    const peerUUID: string
    const digests: Digests

    /** The chain is never empty and always passes the validity check. */
    ghost predicate Valid()
      reads this
    {
      ValidChain(digests, chain)
    }

    /** A fresh engine holds the genesis block alone and an empty pool. */
    constructor (peerUUID: string, digests: Digests, timestamp: string)
      ensures Valid()
      ensures chain == [GenesisBlock(digests, timestamp)]
      ensures pendingTransactions == [] && peers == []
      ensures this.peerUUID == peerUUID && this.digests == digests
    {
      this.peerUUID := peerUUID;
      this.digests := digests;
      chain := [];
      pendingTransactions := [];
      peers := [];
      new;
      var r := AddBlock(GenesisProof, timestamp);
      assert r.Success?;
    }

    method AddPeer(peer: string)
      requires Valid()
      modifies this
      ensures Valid()
      ensures peers == old(peers) + [peer]
      ensures chain == old(chain) && pendingTransactions == old(pendingTransactions)
    {
      peers := peers + [peer];
    }

    /** The last block of the chain: its index is the chain's length minus
        one. */
    function LastBlock(): (b: Block)
      reads this
      requires Valid()
      ensures b in chain
      ensures b.index == |chain| - 1
    {
      IndexIsPosition(digests, chain, |chain| - 1);
      chain[|chain| - 1]
    }

    /** Builds the next block from the pending pool, seals it, re-checks its
        seal and (past the genesis block) its proof, then appends it and
        empties the pool. On a failed check nothing changes. */
    method AddBlock(proof: int, timestamp: string) returns (r: Result<Block, AddBlockError>)
      modifies this
      ensures peers == old(peers)
      ensures r.Success? <==>
        old(chain) == [] ||
        CheckProofOfWork(digests, old(chain)[|old(chain)| - 1].proof, proof, old(chain)[|old(chain)| - 1].hash)
      ensures r.Success? ==>
        && r.value.index == |old(chain)|
        && r.value.timestamp == timestamp
        && r.value.transactions == old(pendingTransactions)
        && r.value.previousHash == (if old(chain) == [] then GenesisPreviousHash else old(chain)[|old(chain)| - 1].hash)
        && r.value.proof == proof
        && CheckSeal(digests, r.value)
        && chain == old(chain) + [r.value]
        && pendingTransactions == []
      ensures r.Failure? ==>
        && r.error == BlockProofCheckingFailed
        && chain == old(chain)
        && pendingTransactions == old(pendingTransactions)
      ensures r.Success? && old(ValidChain(digests, chain)) ==> ValidChain(digests, chain)
      ensures r.Success? && old(chain == [] && pendingTransactions == []) ==> ValidChain(digests, chain)
    {
      var previousHash := if |chain| > 0 then chain[|chain| - 1].hash else GenesisPreviousHash;
      var block := Seal(digests, Block(|chain|, timestamp, pendingTransactions, previousHash, proof, UnsealedHash));
      if !CheckSeal(digests, block) {
        return Failure(BlockSealCheckingFailed);
      }
      if block.index != 0 && !CheckProofOfWork(digests, chain[|chain| - 1].proof, block.proof, chain[|chain| - 1].hash) {
        return Failure(BlockProofCheckingFailed);
      }
      if |chain| > 0 && ValidChain(digests, chain) {
        AppendKeepsValid(digests, chain, block);
      }
      chain := chain + [block];
      pendingTransactions := [];
      return Success(block);
    }

    /** Queues a transaction for the next block and returns the index that
        block will have. */
    method AddTransaction(t: Transaction) returns (next: int)
      requires Valid()
      modifies this
      ensures Valid()
      ensures pendingTransactions == old(pendingTransactions) + [t]
      ensures chain == old(chain) && peers == old(peers)
      ensures next == |chain|
    {
      pendingTransactions := pendingTransactions + [t];
      next := LastBlock().index + 1;
    }

    /** A proof can be found after the last block. */
    ghost predicate Minable()
      reads this
      requires Valid()
    {
      exists p: nat :: CheckProofOfWork(digests, LastBlock().proof, p, LastBlock().hash)
    }

    /** Searches for the least proof after the last block, credits the reward
        to this node and appends the new block, which carries the pool
        followed by the reward. The chain stays valid. */
    method Mine(timestamp: string) returns (block: Block)
      requires Valid()
      requires Minable()
      modifies this
      ensures Valid()
      ensures chain == old(chain) + [block]
      ensures pendingTransactions == [] && peers == old(peers)
      ensures block.index == |old(chain)|
      ensures block.timestamp == timestamp
      ensures block.previousHash == old(LastBlock()).hash
      ensures block.transactions == old(pendingTransactions) + [Transaction(MinedSender, peerUUID, MiningReward)]
      ensures CheckSeal(digests, block)
      ensures CheckProofOfWork(digests, old(LastBlock()).proof, block.proof, old(LastBlock()).hash)
      ensures block.proof >= 0
      ensures forall q: nat :: q < block.proof ==> !CheckProofOfWork(digests, old(LastBlock()).proof, q, old(LastBlock()).hash)
    {
      var last := LastBlock();
      ghost var oldChain, oldPool := chain, pendingTransactions;
      var proof := GenerateProofOfWork(digests, last);
      var reward := Transaction(MinedSender, peerUUID, MiningReward);
      var _ := AddTransaction(reward);
      assert chain == oldChain && last == chain[|chain| - 1];
      assert pendingTransactions == oldPool + [reward];
      var r := AddBlock(proof, timestamp);
      assert r.Success?;
      block := r.value;
    }

    /** Folds the peers' replies into a best candidate and adopts it.
        Every reply must be a parsed payload: the first one that is not makes
        the whole call fail with the chain untouched. Otherwise the adopted
        payload is the one `Winner` picks, the call returns whether there was
        one, and the chain becomes that payload's blocks. */
    method ResolveConflicts(replies: seq<PeerReply>) returns (r: Result<bool, ResolveError>)
      requires Valid()
      requires |replies| == |peers|
      modifies this`chain
      ensures Valid()
      ensures pendingTransactions == old(pendingTransactions) && peers == old(peers)
      ensures r.Success? <==> AllJson(replies)
      ensures r.Failure? ==>
        && r.error.peer < |replies|
        && !replies[r.error.peer].Json?
        && AllJson(replies[..r.error.peer])
        && chain == old(chain)
      ensures r.Success? ==>
        var w := Winner(digests, |old(chain)|, PayloadsOf(replies));
        && r.value == w.Some?
        && chain == (if w.Some? then PayloadsOf(replies)[w.value].chain else old(chain))
    {
      var localLength := |chain|;
      var newChain: Option<seq<Block>> := None;
      ghost var best: Option<nat> := None;
      ghost var seen: seq<Payload> := [];
      var i := 0;
      while i < |replies|
        invariant 0 <= i <= |replies|
        invariant chain == old(chain)
        invariant AllJson(replies[..i])
        invariant |seen| == i && forall j :: 0 <= j < i ==> seen[j] == replies[j].payload
        invariant best == Winner(digests, localLength, seen)
        invariant newChain == if best.Some? then Some(seen[best.value].chain) else None
      {
        if !replies[i].Json? {
          return Failure(UnreadableReply(i));
        }
        var data := replies[i].payload;
        if && data.hasChain && data.hasChainLength
           && data.chainLength > localLength
           && (newChain.None? || data.chainLength > |newChain.value|)
           && |data.chain| > 0
        {
          var ok := CheckChainValidity(digests, data.chain);
          if ok {
            newChain := Some(data.chain);
            best := Some(i);
          }
        }
        assert (seen + [data])[..i] == seen;
        seen := seen + [data];
        i := i + 1;
      }
      assert replies[..i] == replies;
      assert seen == PayloadsOf(replies);
      if newChain.Some? {
        chain := newChain.value;
        return Success(true);
      }
      return Success(false);
    }
  }
}
