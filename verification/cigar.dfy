/** CIGAR operations as a read record lists them, and how far each one moves
    the scanner's read and reference cursors. */
module Cigar {

  /** The nine operations `MIDNSHP=X`, in their BAM numbering. */
  datatype OpKind =
    | Match        // M
    | Ins          // I
    | Del          // D
    | Skip         // N
    | SoftClip     // S
    | HardClip     // H
    | Pad          // P
    | SeqMatch     // =
    | SeqMismatch  // X

  /** One run-length-encoded CIGAR element. */
  datatype CigarOp = CigarOp(kind: OpKind, len: nat)

  /** The operation letters, indexed by BAM operation code. */
  const OpLetters: string := "MIDNSHP=X"

  /** The letter a CIGAR string uses for the operation. */
  function Letter(k: OpKind): char
  {
    match k
    case Match => 'M'
    case Ins => 'I'
    case Del => 'D'
    case Skip => 'N'
    case SoftClip => 'S'
    case HardClip => 'H'
    case Pad => 'P'
    case SeqMatch => '='
    case SeqMismatch => 'X'
  }

  /** The BAM operation code (section 4.2 of the SAM/BAM Format
      Specification): the position of the letter in `MIDNSHP=X`. */
  function RawType(k: OpKind): (code: nat)
    ensures code < |OpLetters| && OpLetters[code] == Letter(k)
  {
    match k
    case Match => 0
    case Ins => 1
    case Del => 2
    case Skip => 3
    case SoftClip => 4
    case HardClip => 5
    case Pad => 6
    case SeqMatch => 7
    case SeqMismatch => 8
  }

  /** Distinct operations have distinct codes and letters. */
  lemma RawTypeInjective(a: OpKind, b: OpKind)
    ensures RawType(a) == RawType(b) <==> a == b
    ensures Letter(a) == Letter(b) <==> a == b
  {
  }

  /** Operations after which the scanner's read cursor has moved. */
  predicate MovesRead(k: OpKind)
  {
    k == Match || k == SoftClip || k == Ins
  }

  /** Operations after which the scanner's reference cursor has moved.
      Soft clips move it because the reference slice includes the clipped
      flanks. */
  predicate MovesRef(k: OpKind)
  {
    k == Match || k == SoftClip || k == Del || k == Skip
  }

  /** Operations the scanner handles at all; the others leave every cursor
      where it was. */
  predicate Handled(k: OpKind)
  {
    MovesRead(k) || MovesRef(k)
  }

  /** The SAM notions of consuming query and reference bases. */
  predicate ConsumesQuery(k: OpKind)
  {
    k == Match || k == Ins || k == SoftClip || k == SeqMatch || k == SeqMismatch
  }

  predicate ConsumesReference(k: OpKind)
  {
    k == Match || k == Del || k == Skip || k == SeqMatch || k == SeqMismatch
  }

  /** The scanner's cursors follow SAM's consumption rules except that `=`
      and `X` move nothing, and a soft clip also moves the reference cursor. */
  lemma CursorRulesAgainstSam(k: OpKind)
    ensures MovesRead(k) <==> ConsumesQuery(k) && k != SeqMatch && k != SeqMismatch
    ensures MovesRef(k) <==> (ConsumesReference(k) && k != SeqMatch && k != SeqMismatch) || k == SoftClip
    ensures !Handled(k) <==> k in {HardClip, Pad, SeqMatch, SeqMismatch}
  {
  }

  /** Total length of the operations that move the read cursor. */
  function ReadSpan(ops: seq<CigarOp>): nat
  {
    if |ops| == 0 then 0
    else (if MovesRead(ops[0].kind) then ops[0].len else 0) + ReadSpan(ops[1..])
  }

  /** Total length of the operations that move the reference cursor. */
  function RefSpan(ops: seq<CigarOp>): nat
  {
    if |ops| == 0 then 0
    else (if MovesRef(ops[0].kind) then ops[0].len else 0) + RefSpan(ops[1..])
  }
}
