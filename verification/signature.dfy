/**
 * Well-formedness of an Electrum-style recoverable signature (v, r, s), as
 * the `Transaction` class comment defines it, over the secp256k1 curve
 * (SEC 2, section 2.4.1).
 */
module Signature {

  /** The secp256k1 field prime p. */
  const P: nat := 0xFFFF_FFFF_FFFF_FFFF_FFFF_FFFF_FFFF_FFFF_FFFF_FFFF_FFFF_FFFF_FFFF_FFFE_FFFF_FC2F

  /** The order n of the secp256k1 base point. */
  const N: nat := 0xFFFF_FFFF_FFFF_FFFF_FFFF_FFFF_FFFF_FFFE_BAAE_DCE6_AF48_A03B_BFD2_5E8C_D036_4141

  /**
   * Condition (i) of a valid transaction: 0 <= v <= 3, 0 <= r < P,
   * 0 <= s < N, and r < P - N when v >= 2.
   */
  predicate WellFormed(v: int, r: int, s: int)
  {
    && 0 <= v <= 3
    && 0 <= r < P
    && 0 <= s < N
    && (v >= 2 ==> r < P - N)
  }

  /** P - N is positive and far smaller than P, so the v >= 2 bound is a real restriction. */
  lemma HighRangeIsNarrower()
    ensures 0 < P - N < N < P
    ensures P - N == 0x1_4551_2319_50B7_5FC4_402D_A172_2FC9_BAEE
  {
  }

  /** For v >= 2 the condition on r is r < P - N; for v < 2 it is r < P. */
  lemma WellFormedByRecoveryId(v: int, r: int, s: int)
    requires 0 <= v <= 3 && 0 <= s < N && 0 <= r
    ensures v < 2 ==> (WellFormed(v, r, s) <==> r < P)
    ensures v >= 2 ==> (WellFormed(v, r, s) <==> r < P - N)
  {
  }

  /** The boundary cases: v = 4 is rejected whatever r and s are. */
  lemma RecoveryIdFourRejected(r: int, s: int)
    ensures !WellFormed(4, r, s)
  {
  }

  /** v = 2 with r at or above P - N is rejected even though r < P. */
  lemma HighRecoveryIdNeedsSmallR(r: int, s: int)
    requires P - N <= r
    ensures !WellFormed(2, r, s) && !WellFormed(3, r, s)
  {
  }

  /** v = 0 with r < P and s < N is accepted, even when r >= P - N. */
  lemma LowRecoveryIdAccepted(r: int, s: int)
    requires 0 <= r < P && 0 <= s < N
    ensures WellFormed(0, r, s) && WellFormed(1, r, s)
  {
  }
}
