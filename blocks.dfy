/** Transactions, blocks and block sealing.
    The block digest (SHA-256 over a canonical serialisation of the block's
    fields) and the proof-of-work digest are not modelled: they are the two
    fields of a `Digests` value that every operation receives, so everything
    proved here holds whatever those digests are. */
module Blocks {

  datatype Transaction = Transaction(sender: string, recipient: string, amount: int)

  /** A block as the engine sees it. `hash` is "" until the block is sealed. */
  datatype Block = Block(
    index: int,
    timestamp: string,
    transactions: seq<Transaction>,
    previousHash: string,
    proof: int,
    hash: string)

  /** The two digests the engine relies on: `block` over the fields
      (index, timestamp, transactions, previousHash, proof) of a block, and
      `pow` over the proof-of-work input string. */
  datatype Digests = Digests(
    block: (int, string, seq<Transaction>, string, int) -> string,
    pow: string -> string)

  /** Hash of a block that has not been sealed yet. */
  const UnsealedHash: string := ""
  /** Placeholder previous hash of the genesis block. */
  const GenesisPreviousHash: string := "1"
  /** The "free" proof of the genesis block, which needs no search. */
  const GenesisProof: int := 100

  /** The digest of a block's sealed fields; `hash` itself is not part of it. */
  function Digest(d: Digests, b: Block): string {
    d.block(b.index, b.timestamp, b.transactions, b.previousHash, b.proof)
  }

  /** A block passes its seal check when its stored hash is the digest of its
      fields, that is, exactly when resealing it would change nothing. */
  predicate CheckSeal(d: Digests, b: Block): (ok: bool)
    ensures ok <==> b.(hash := Digest(d, b)) == b
  {
    b.hash == Digest(d, b)
  }

  /** Sealing stores the digest as the hash: the result passes its seal
      check and differs from `b` in nothing but `hash`. */
  function Seal(d: Digests, b: Block): (s: Block)
    ensures CheckSeal(d, s)
    ensures s.(hash := b.hash) == b
  {
    b.(hash := Digest(d, b))
  }

  /** The block the engine creates on construction. */
  function GenesisBlock(d: Digests, timestamp: string): Block {
    Seal(d, Block(0, timestamp, [], GenesisPreviousHash, GenesisProof, UnsealedHash))
  }

  /** Sealing is deterministic: blocks with the same sealed fields get the same
      hash, and sealing twice changes nothing. */
  lemma SealDeterministic(d: Digests, a: Block, b: Block)
    requires a.(hash := UnsealedHash) == b.(hash := UnsealedHash)
    ensures Seal(d, a).hash == Seal(d, b).hash
    ensures Seal(d, Seal(d, a)) == Seal(d, a)
  {
  }

  /** Changing a sealed block's fields while keeping its hash fails the seal
      check, whenever the digest tells the old fields from the new ones. */
  lemma TamperedBlockFailsSeal(d: Digests, b: Block, t: Block)
    requires CheckSeal(d, b)
    requires t.hash == b.hash
    requires Digest(d, t) != Digest(d, b)
    ensures !CheckSeal(d, t)
  {
  }
}
