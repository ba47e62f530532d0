# Consensus core of a proof-of-work blockchain node

A Dafny model of the `Blockchain` class in `blockchain.ts`: the engine a node
uses to keep a chain of hash-sealed blocks, queue pending transactions, mine
new blocks by brute-force proof-of-work, and reconcile its chain with peers
by the longest-valid-chain rule.

The model is split by component:

- `blocks.dfy` (module `Blocks`): `Transaction` and `Block` values, sealing
  and the seal check. The two digests the engine depends on (the block
  digest and SHA-256 for proof-of-work) are the fields of a `Digests` value
  passed to every operation, so every property below holds for any digest.
- `pow.dfy` (module `ProofOfWork`): the proof-of-work input string (decimal
  rendering of both proofs followed by the previous hash), the predicate
  "digest starts with `Difficulty` zeros" (`Difficulty` is 4), and the search
  for the least accepted proof, as a loop.
- `validity.dfy` (module `ChainValidity`): the chain-validity predicate
  `ValidChain`, the engine's block-by-block check `CheckChainValidity`
  (a loop proved equal to the predicate), and lemmas about appending,
  prefixes and tampering.
- `conflicts.dfy` (module `Conflicts`): peer replies and the "best candidate
  so far" fold `Winner` that conflict resolution performs.
- `blockchain.dfy` (module `Engine`): the class `Blockchain` with fields
  `chain`, `pendingTransactions`, `peers`, `peerUUID` and the digests, its
  invariant `Valid()` (the chain passes the validity check), and the methods
  that change it.
- `wrappers.dfy` (module `Wrappers`): `Option` and `Result`.

## Model

| member | source | states |
|---|---|---|
| `Blocks.CheckSeal` | blockchain.ts:129-130 | a block passes the seal check exactly when its stored hash is the digest of its other fields, so resealing it would change nothing |
| `Blocks.Seal` | blockchain.ts:127-130 | a sealed block passes its seal check and differs from the unsealed one only in its hash |
| `Blocks.SealDeterministic` | blockchain.ts:127-130 | blocks with equal fields get equal hashes, and sealing a sealed block changes nothing |
| `Blocks.TamperedBlockFailsSeal` | blockchain.ts:58-60 | a block whose fields changed but whose hash did not fails the seal check, whenever the digest separates old and new fields |
| `ProofOfWork.Decimal` | blockchain.ts:172 | a number renders as a non-empty string of digits with no leading zero |
| `ProofOfWork.DecimalRoundTrip` | blockchain.ts:172 | reading the rendered digits back gives the number |
| `ProofOfWork.DecimalInjective` | blockchain.ts:172 | different numbers render differently |
| `ProofOfWork.PowInput` | blockchain.ts:172 | the input starts with the previous proof in decimal and ends with the previous hash; for non-negative proofs everything before the hash is decimal digits |
| `ProofOfWork.CheckProofOfWork` | blockchain.ts:171-176 | a proof is accepted exactly when the proof-of-work digest of the previous proof, the proof and the previous hash, written in decimal and concatenated, starts with `Difficulty` (4) zeros |
| `ProofOfWork.PowInputHasNoSeparator` | blockchain.ts:171-176 | the pairs (1, 23) and (12, 3) give the same proof-of-work input, so they are accepted or rejected together |
| `ProofOfWork.GenerateProofOfWork` | blockchain.ts:154-168 | the search returns a proof accepted after the given block, and no smaller non-negative proof is accepted |
| `ChainValidity.CheckChainValidity` | blockchain.ts:30-68 | returns true exactly when the genesis block has index 0, a valid seal and no transactions, and every later block points at its predecessor's hash, has its position as index, is sealed, and has a proof accepted after its predecessor's proof and hash |
| `ChainValidity.IndexIsPosition` | blockchain.ts:54-56 | in a valid chain every block's index is its position |
| `ChainValidity.GenesisChainValid` | blockchain.ts:117-136 | the chain holding only the genesis block is valid |
| `ChainValidity.AppendKeepsValid` | blockchain.ts:129-134 | appending a block that links to the last one, with the next index, a valid seal and an accepted proof, keeps the chain valid |
| `ChainValidity.PrefixValid` | blockchain.ts:48-67 | every non-empty prefix of a valid chain is valid |
| `ChainValidity.TamperedContentDetected` | blockchain.ts:58-60 | changing any block's index, timestamp, transactions, previous hash or proof while keeping its hash makes the chain invalid, whenever the digest separates old and new fields |
| `ChainValidity.ChangedIndexDetected` | blockchain.ts:35-36 | changing any block's index makes the chain invalid, whatever the digest |
| `ChainValidity.ChangedPreviousHashDetected` | blockchain.ts:51-52 | changing the previous hash of any block past the genesis makes the chain invalid, whatever the digest |
| `ChainValidity.ChangedHashDetected` | blockchain.ts:49-52 | changing the hash of any block that has a successor makes the chain invalid |
| `ChainValidity.TipCanBeRewritten` | blockchain.ts:48-67 | the last block's transactions can be replaced and the block resealed without the chain becoming invalid |
| `Conflicts.Winner` | blockchain.ts:86-102 | the adopted reply, if any, is one that has both properties, claims more blocks than the local chain and carries a valid chain |
| `Conflicts.WinnerNoneIff` | blockchain.ts:86-113 | nothing is adopted exactly when no reply is eligible |
| `Conflicts.WinnerNotOutclaimed` | blockchain.ts:88-89 | no eligible reply after the adopted one claims more than the adopted chain's length; a tie keeps the first seen |
| `Conflicts.HonestWinnerIsFirstLongest` | blockchain.ts:86-102 | when every reply's claimed length is its real length, the adopted chain is the longest eligible one and every eligible one before it is strictly shorter |
| `Conflicts.ShorterChainCanBeAdopted` | blockchain.ts:88-89 | a reply claiming one more block than the local chain but carrying only a genesis block is adopted, although its chain is shorter than the local one |
| `Engine.Blockchain.constructor` | blockchain.ts:13-20 | a new engine holds the genesis block alone (index 0, no transactions, previous hash "1", proof 100, sealed), an empty pool and no peers, and its chain is valid |
| `Engine.Blockchain.AddPeer` | blockchain.ts:22-24 | the peer is appended to the peer list and nothing else changes |
| `Engine.Blockchain.LastBlock` | blockchain.ts:149-151 | the last block is in the chain and its index is the chain length minus one |
| `Engine.Blockchain.AddBlock` | blockchain.ts:117-139 | on success exactly one block is appended, with the old length as index, the old last hash (or "1") as previous hash, the old pool as transactions and a valid seal, and the pool is emptied; it fails, changing nothing, exactly when a non-genesis proof is not accepted; appending keeps a valid chain valid |
| `Engine.Blockchain.AddTransaction` | blockchain.ts:142-146 | the transaction is appended to the pool, the chain is unchanged, and the result is the index the next block will have |
| `Engine.Blockchain.Mine` | blockchain.ts:180-198 | the chain grows by one block holding the old pool followed by the reward ("mined", this node, 100), carrying the least accepted proof; the pool is emptied and the chain stays valid |
| `Engine.Blockchain.ResolveConflicts` | blockchain.ts:71-114 | if some reply is not a parsed payload the call fails at the first one and the chain is unchanged; otherwise it returns whether `Winner` picked a reply and the chain becomes that reply's blocks or stays as it was; the chain stays valid |

## Where the code and its own comments disagree

The model follows the code in each case.

- The comment at blockchain.ts:104 says that invalid or shorter chains are
  ignored. A reply's chain is judged shorter by the length the peer claims,
  not by the number of blocks it sends, and the code never compares the two
  (blockchain.ts:88). `ShorterChainCanBeAdopted` shows the consequence: a
  valid one-block chain whose peer claims one block more than the local
  chain replaces a longer local chain.
- The comment at blockchain.ts:79 says that peers that do not respond are
  ignored. In the code a failed fetch is replaced by the error object
  (blockchain.ts:79), and `.json()` is then called on it outside the `try`
  (blockchain.ts:83). That call throws. So one unreachable peer, or one body
  that is not JSON, makes the whole of `resolveConflicts` fail before the
  chain is assigned (blockchain.ts:108-109), and the chain is left as it was.
  `ResolveConflicts` returns `UnreadableReply` with the position of the
  first such reply.

## Left out

- HTTP fetches, `Promise.all` and async/await in `resolveConflicts`
  (blockchain.ts:71-83): the replies are an input sequence, one per peer, in
  peer order.
- JSON decoding and `Block.fromObject`: replies arrive as structured
  payloads. A `chain` property that is not an array, or a `chainLength` that
  is not a number, is not modelled.
- `block.ts` and `transaction.ts` are not part of this model: `Block` and
  `Transaction` are datatypes with the fields the engine uses, and the block
  digest over them (and its canonical serialisation) is abstract.
- SHA-256 from `sha.js` (blockchain.ts:173): the proof-of-work digest is an
  abstract function of the input string.
- `new Date().toISOString()` (blockchain.ts:121): the timestamp is a
  parameter of `AddBlock` and `Mine` and of the constructor.
- The getters (`peers`, `chain`, `peerUUID`, `pendingTransactions`): the
  class fields are read directly.
- Number rendering: JavaScript writes very large numbers in exponent
  notation and non-integers with a fraction; proofs, indices and amounts are
  integers here and always render in plain decimal.
- Engine.Blockchain.Mine: requires that some proof is accepted after the last block (`Minable`), because the source's search never ends otherwise; non-termination is not modelled.
- ProofOfWork.GenerateProofOfWork: requires that some accepted proof exists, for the same reason.
- Engine.Blockchain.LastBlock and Engine.Blockchain.AddTransaction: require the class invariant, whose non-empty chain is what keeps `lastBlock()` from returning `undefined`.
- Aliasing: the source's new block shares the old pool array, and the pool
  is then reassigned to a new array, so modelling both as values loses nothing
  observable by the engine; aliasing by callers that keep references to
  blocks or to the pool is not modelled.
- Cancellation of a mining search superseded by a chain swap: the source
  has none.
