/** The base-comparison tables: the 2-bit packing of ASCII bases used to
    compare read and reference, and the 2-bit packing of BAM 4-bit codes. */
module Bases {
  import opened Common

  const A: Byte := 65
  const C: Byte := 67
  const G: Byte := 71
  const T: Byte := 84
  const Dash: Byte := 45

  /** The code for anything that is neither a nucleotide nor a dash. */
  const Unknown: nat := 4

  /** Upper-case letters sit 32 below their lower-case forms. */
  const CaseGap: nat := 32

  /** `pack_2bit`: A, C, G, T in either case pack to 0, 1, 2, 3, the dash
      to 5, and every other byte to 4. */
  function Pack2Bit(b: Byte): (code: nat)
    ensures code <= 5
  {
    if b == A || b == A + CaseGap then 0
    else if b == C || b == C + CaseGap then 1
    else if b == G || b == G + CaseGap then 2
    else if b == T || b == T + CaseGap then 3
    else if b == Dash then 5
    else Unknown
  }

  /** A nucleotide letter in either case. */
  predicate IsNucleotide(b: Byte)
  {
    b in {A, C, G, T, A + CaseGap, C + CaseGap, G + CaseGap, T + CaseGap}
  }

  /** Folds a lower-case letter onto its upper-case form. */
  function Upper(b: Byte): Byte
  {
    if 97 <= b <= 122 then b - CaseGap else b
  }

  /** The code is a 2-bit nucleotide exactly for the eight nucleotide letters,
      and the four upper-case letters get distinct codes in order. */
  lemma Pack2BitNucleotides(b: Byte)
    ensures Pack2Bit(b) < 4 <==> IsNucleotide(b)
    ensures Pack2Bit(A) == 0 && Pack2Bit(C) == 1 && Pack2Bit(G) == 2 && Pack2Bit(T) == 3
    ensures Pack2Bit(Dash) == 5
    ensures !IsNucleotide(b) && b != Dash ==> Pack2Bit(b) == Unknown
  {
  }

  /** Upper- and lower-case forms of a byte in 64..95 pack alike. */
  lemma Pack2BitCaseInsensitive(b: Byte)
    requires 64 <= b <= 95
    ensures Pack2Bit(b) == Pack2Bit(b + CaseGap)
  {
  }

  /** When the scanner sees two bases as equal: the same nucleotide ignoring
      case, two dashes, or two bytes that are neither. In particular two
      ambiguity codes such as `N` and `N`, or `N` and `R`, compare equal. */
  lemma Pack2BitEquality(b: Byte, d: Byte)
    ensures Pack2Bit(b) == Pack2Bit(d) <==>
      || (IsNucleotide(b) && IsNucleotide(d) && Upper(b) == Upper(d))
      || (b == Dash && d == Dash)
      || (!IsNucleotide(b) && b != Dash && !IsNucleotide(d) && d != Dash)
  {
  }

  /** `nyb_to_2bit`: the BAM 4-bit codes 1, 2, 4, 8 (A, C, G, T) pack to
      0, 1, 2, 3 and every other code to 4. */
  function Nyb2Bit(n: nat): (code: nat)
    requires n < 16
    ensures code <= 4
  {
    if n == 1 then 0
    else if n == 2 then 1
    else if n == 4 then 2
    else if n == 8 then 3
    else Unknown
  }

  /** The letters of the BAM 4-bit base codes (section 4.2 of the SAM/BAM
      Format Specification). */
  const Nt16Letters: string := "=ACMGRSVTWYHKDBN"

  function Nt16Byte(n: nat): Byte
    requires n < 16
  {
    Nt16Letters[n] as int
  }

  /** Packing a 4-bit code directly agrees with decoding it to its letter and
      packing the letter. */
  lemma Nyb2BitAgreesWithPack2Bit(n: nat)
    requires n < 16
    ensures Nyb2Bit(n) == Pack2Bit(Nt16Byte(n))
  {
  }
}
