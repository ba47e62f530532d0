/** The proof-of-work predicate and the brute-force search for a proof. */
module ProofOfWork {
  import opened Blocks

  /** Number of leading '0' characters the hex digest must start with. */
  const Difficulty: nat := 4

  predicate IsDigit(c: char) {
    '0' <= c <= '9'
  }

  function DigitChar(k: nat): (c: char)
    requires k < 10
    ensures IsDigit(c)
  {
    ('0' as int + k) as char
  }

  function DigitValue(c: char): (k: nat)
    requires IsDigit(c)
    ensures k < 10 && DigitChar(k) == c
  {
    c as int - '0' as int
  }

  /** Decimal rendering of a non-negative integer, as a template literal
      renders a JavaScript number: digits only, no leading zero. */
  function Decimal(n: nat): (s: string)
    ensures |s| > 0
    ensures forall i :: 0 <= i < |s| ==> IsDigit(s[i])
    ensures s[0] == '0' ==> n == 0
    decreases n
  {
    if n < 10 then [DigitChar(n)] else Decimal(n / 10) + [DigitChar(n % 10)]
  }

  /** The value of a string of decimal digits; the partner of `Decimal`. */
  function DecimalValue(s: string): nat
    requires forall i :: 0 <= i < |s| ==> IsDigit(s[i])
  {
    if s == [] then 0 else 10 * DecimalValue(s[..|s| - 1]) + DigitValue(s[|s| - 1])
  }

  lemma {:induction false} DecimalRoundTrip(n: nat)
    ensures DecimalValue(Decimal(n)) == n
    decreases n
  {
    if n >= 10 {
      var s := Decimal(n);
      assert s[..|s| - 1] == Decimal(n / 10);
      DecimalRoundTrip(n / 10);
    }
  }

  /** Different numbers render differently. */
  lemma DecimalInjective(a: nat, b: nat)
    requires a != b
    ensures Decimal(a) != Decimal(b)
  {
    DecimalRoundTrip(a);
    DecimalRoundTrip(b);
  }

  /** Rendering of any integer, with a leading '-' for negatives. */
  function IntDecimal(x: int): string {
    if x < 0 then "-" + Decimal(-x) else Decimal(x)
  }

  /** The string the proof-of-work digest is taken over: the previous proof,
      the candidate proof and the previous hash, concatenated. */
  function PowInput(lastProof: int, proof: int, lastHash: string): (s: string)
    ensures |s| == |IntDecimal(lastProof)| + |IntDecimal(proof)| + |lastHash|
    ensures s[..|IntDecimal(lastProof)|] == IntDecimal(lastProof)
    ensures s[|s| - |lastHash|..] == lastHash
    ensures lastProof >= 0 && proof >= 0 ==>
      forall i :: 0 <= i < |s| - |lastHash| ==> IsDigit(s[i])
  {
    IntDecimal(lastProof) + IntDecimal(proof) + lastHash
  }

  function ZeroRun(n: nat): string {
    seq(n, _ => '0')
  }

  /** A proof is accepted when the digest of its input starts with
      `Difficulty` zeros. */
  predicate CheckProofOfWork(d: Digests, lastProof: int, proof: int, lastHash: string): (ok: bool)
    ensures ok <==>
      var h := d.pow(PowInput(lastProof, proof, lastHash));
      |h| >= Difficulty && forall i :: 0 <= i < Difficulty ==> h[i] == '0'
  {
    ZeroRun(Difficulty) <= d.pow(PowInput(lastProof, proof, lastHash))
  }

  /** The concatenation has no separator, so two different (previous proof,
      proof) pairs share one input and are accepted or rejected together. */
  lemma PowInputHasNoSeparator(d: Digests, lastHash: string)
    ensures PowInput(1, 23, lastHash) == PowInput(12, 3, lastHash)
    ensures CheckProofOfWork(d, 1, 23, lastHash) <==> CheckProofOfWork(d, 12, 3, lastHash)
  {
  }

  /** Brute-force search from 0 upwards for a proof accepted after `last`.
      The result is the least accepted proof. A proof is required to exist:
      without one the search never ends. */
  method GenerateProofOfWork(d: Digests, last: Block) returns (proof: nat)
    requires exists p: nat :: CheckProofOfWork(d, last.proof, p, last.hash)
    ensures CheckProofOfWork(d, last.proof, proof, last.hash)
    ensures forall q: nat :: q < proof ==> !CheckProofOfWork(d, last.proof, q, last.hash)
  {
    ghost var w: nat :| CheckProofOfWork(d, last.proof, w, last.hash);
    proof := 0;
    while !CheckProofOfWork(d, last.proof, proof, last.hash)
      invariant proof <= w
      invariant forall q: nat :: q < proof ==> !CheckProofOfWork(d, last.proof, q, last.hash)
      decreases w - proof
    {
      proof := proof + 1;
    }
  }
}
