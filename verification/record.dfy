/** The parts of an aligned read record the core looks at, the read filter,
    and the edit-distance-zero test. */
module BamRecord {
  import opened Common
  import opened Cigar

  /** An aligned read: its contig, its start counting soft-clipped bases
      (negative when the read overhangs the contig start), its CIGAR, its
      bases, its FLAG word, its mapping quality and its optional NM tag. */
  datatype Read = Read(
    chrId: int,
    posWithSClips: int,
    cigar: seq<CigarOp>,
    sequence: seq<Byte>,
    flag: bv16,
    mapq: Byte,
    nm: Option<I32>)

  /** FLAG bits (section 1.4 of the SAM Format Specification). */
  const FlagUnmapped: bv16 := 0x4
  const FlagSecondary: bv16 := 0x100
  const FlagQcFail: bv16 := 0x200
  const FlagDuplicate: bv16 := 0x400
  const FlagSupplementary: bv16 := 0x800

  /** The mask the filter tests for a non-primary record. */
  const NotPrimaryMask: bv16 := 0x900

  predicate Unmapped(r: Read) { r.flag & FlagUnmapped != 0 }
  predicate QcFail(r: Read) { r.flag & FlagQcFail != 0 }
  predicate Duplicate(r: Read) { r.flag & FlagDuplicate != 0 }
  predicate Secondary(r: Read) { r.flag & FlagSecondary != 0 }
  predicate Supplementary(r: Read) { r.flag & FlagSupplementary != 0 }

  /** `filter_read`: true when the read is to be skipped. The conditions are
      tested in the order `filter_read` tests them, and the first that
      fires decides. */
  function FilterRead(r: Read): (skip: bool)
  {
    if r.flag & FlagUnmapped != 0 then true
    else if r.flag & FlagQcFail != 0 then true
    else if r.flag & FlagDuplicate != 0 then true
    else if r.flag & NotPrimaryMask != 0 then true
    else if r.mapq == 0 then true
    else false
  }

  /** The filter skips a read exactly when it is unmapped, fails vendor QC,
      is a duplicate, is secondary, is supplementary, or has MAPQ 0. */
  lemma FilterReadIff(r: Read)
    ensures FilterRead(r) <==>
      Unmapped(r) || QcFail(r) || Duplicate(r) || Secondary(r) || Supplementary(r) || r.mapq == 0
  {
    assert r.flag & NotPrimaryMask != 0 <==> Secondary(r) || Supplementary(r);
  }

  /** Each exclusion condition alone is enough, whatever the other bits say. */
  lemma FilterEachConditionSuffices(r: Read)
    ensures Unmapped(r) ==> FilterRead(r)
    ensures QcFail(r) ==> FilterRead(r)
    ensures Duplicate(r) ==> FilterRead(r)
    ensures Secondary(r) ==> FilterRead(r)
    ensures Supplementary(r) ==> FilterRead(r)
    ensures r.mapq == 0 ==> FilterRead(r)
  {
    FilterReadIff(r);
  }

  /** `EDz`: the edit distance is zero. A read without an NM tag counts as
      edit-distance zero, to be conservative. */
  function EDz(r: Read): (zero: bool)
    ensures r.nm.None? ==> zero
    ensures r.nm.Some? ==> (zero <==> r.nm.value == 0)
  {
    match r.nm
    case None => true
    case Some(nm) => nm == 0
  }
}
