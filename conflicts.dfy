/** The longest-valid-chain selection rule of conflict resolution, as a fold
    over the peers' replies that picks the "best candidate so far". */
module Conflicts {
  import opened Wrappers
  import opened Blocks
  import opened ChainValidity

  /** A parsed peer reply: whether each of the two properties is present, the
      length the peer claims and the blocks it sent. Nothing ties the claimed
      length to the number of blocks. */
  datatype Payload = Payload(
    hasChain: bool,
    hasChainLength: bool,
    chainLength: int,
    chain: seq<Block>)

  /** What came back from one peer: no response at all, a body that is not
      JSON, or a parsed payload. */
  datatype PeerReply = Unreachable | NotJson | Json(payload: Payload)

  /** A payload that would be adopted were there no earlier candidate: both
      properties present, a claimed length above the local one, and blocks
      forming a valid (hence non-empty) chain. */
  predicate Eligible(d: Digests, localLen: nat, p: Payload) {
    && p.hasChain
    && p.hasChainLength
    && p.chainLength > localLen
    && ValidChain(d, p.chain)
  }

  /** The position of the adopted payload among `ps`, processed in order: a
      payload replaces the current candidate only when it is eligible and its
      claimed length exceeds the candidate's actual number of blocks. */
  function Winner(d: Digests, localLen: nat, ps: seq<Payload>): (w: Option<nat>)
    ensures w.Some? ==> w.value < |ps| && Eligible(d, localLen, ps[w.value])
    decreases |ps|
  {
    if ps == [] then None
    else
      var best := Winner(d, localLen, ps[..|ps| - 1]);
      var j := |ps| - 1;
      if Eligible(d, localLen, ps[j]) && (best.None? || ps[j].chainLength > |ps[best.value].chain|)
      then Some(j)
      else best
  }

  /** No payload is adopted exactly when none is eligible. */
  lemma {:induction false} WinnerNoneIff(d: Digests, localLen: nat, ps: seq<Payload>)
    ensures Winner(d, localLen, ps).None? <==> forall j :: 0 <= j < |ps| ==> !Eligible(d, localLen, ps[j])
    decreases |ps|
  {
    if ps != [] {
      var pre := ps[..|ps| - 1];
      WinnerNoneIff(d, localLen, pre);
      assert forall j :: 0 <= j < |pre| ==> pre[j] == ps[j];
    }
  }

  /** No eligible payload after the adopted one claims more than the adopted
      chain's length: a later claim equal to it (a tie) does not displace it. */
  lemma {:induction false} WinnerNotOutclaimed(d: Digests, localLen: nat, ps: seq<Payload>)
    ensures var w := Winner(d, localLen, ps);
      w.Some? ==> forall j :: w.value < j < |ps| && Eligible(d, localLen, ps[j]) ==>
                    ps[j].chainLength <= |ps[w.value].chain|
    decreases |ps|
  {
    if ps != [] {
      var pre := ps[..|ps| - 1];
      WinnerNotOutclaimed(d, localLen, pre);
      assert forall j :: 0 <= j < |pre| ==> pre[j] == ps[j];
    }
  }

  /** Peers whose claimed length is their real number of blocks. */
  predicate Honest(ps: seq<Payload>) {
    forall j :: 0 <= j < |ps| ==> ps[j].chainLength == |ps[j].chain|
  }

  /** When every peer tells the truth about its length, the adopted chain is
      the longest eligible one, and every eligible chain seen before it is
      strictly shorter (ties go to the first seen). */
  lemma {:induction false} HonestWinnerIsFirstLongest(d: Digests, localLen: nat, ps: seq<Payload>)
    requires Honest(ps)
    ensures var w := Winner(d, localLen, ps);
      w.Some? ==>
        && (forall j :: 0 <= j < |ps| && Eligible(d, localLen, ps[j]) ==>
              |ps[j].chain| <= |ps[w.value].chain|)
        && (forall j :: 0 <= j < w.value && Eligible(d, localLen, ps[j]) ==>
              |ps[j].chain| < |ps[w.value].chain|)
    decreases |ps|
  {
    if ps != [] {
      var pre := ps[..|ps| - 1];
      assert forall j :: 0 <= j < |pre| ==> pre[j] == ps[j];
      HonestWinnerIsFirstLongest(d, localLen, pre);
      WinnerNoneIff(d, localLen, pre);
    }
  }

  /** The claimed length is trusted: a peer that claims one block more than
      the local chain but sends only a genesis block has its one-block chain
      adopted, replacing a longer local chain. */
  lemma ShorterChainCanBeAdopted(d: Digests, localLen: nat, timestamp: string)
    requires localLen >= 2
    ensures var ps := [Payload(true, true, localLen + 1, [GenesisBlock(d, timestamp)])];
      Winner(d, localLen, ps) == Some(0) && |ps[0].chain| < localLen
  {
  }

  predicate AllJson(rs: seq<PeerReply>) {
    forall j :: 0 <= j < |rs| ==> rs[j].Json?
  }

  function PayloadsOf(rs: seq<PeerReply>): seq<Payload>
    requires AllJson(rs)
  {
    seq(|rs|, j requires 0 <= j < |rs| => rs[j].payload)
  }
}
