/** Worked examples of the scanner on small reads. */
module Scenarios {
  import opened Common
  import opened EventCodec
  import opened Cigar
  import opened Bases
  import opened BamRecord
  import opened Scanner

  /** A mapped, primary, MAPQ-60 read on contig 0 with no NM tag. */
  function SimpleRead(pos: int, cigar: seq<CigarOp>, bases: seq<Byte>): Read
  {
    Read(0, pos, cigar, bases, 0, 60, None)
  }

  /** One column of an `M` run: a mismatch puts its event in front of the
      rest of the run, a match adds nothing. */
  lemma MatchColumn(start: int, read: seq<Byte>, ref: seq<Byte>, c: Cursor, n: nat, rest: seq<Event>)
    requires 0 < n && c.readPos + n <= |read| && c.refPos + n <= |ref|
    requires MatchRun(start, read, ref, Along(c, 1), n - 1) == rest
    ensures Mismatch(read, ref, c) ==>
      MatchRun(start, read, ref, c, n) == [EventAt(start, c, PackCig(MismatchCode, 1))] + rest
    ensures !Mismatch(read, ref, c) ==> MatchRun(start, read, ref, c, n) == rest
  {
  }

  /** A one-element list in front of a three-element list. */
  lemma Prepend<T>(x: T, a: T, b: T, c: T)
    ensures [x] + [a, b, c] == [x, a, b, c]
  {
  }

  /** One CIGAR element of a scan: its events in front of the rest. */
  lemma ScanHead(start: int, read: seq<Byte>, ref: seq<Byte>, c: Cursor, ops: seq<CigarOp>, rest: seq<Event>)
    requires 0 < |ops| && FitsFrom(read, ref, c, ops)
    requires Scan(start, read, ref, Next(c, ops[0]), ops[1..]) == rest
    ensures Scan(start, read, ref, c, ops) == OpEvents(start, read, ref, c, ops[0]) + rest
  {
  }

  /** The column loop over reference `ACGTA` and read `ACGAA`. */
  lemma SingleMismatchColumns(read: seq<Byte>, ref: seq<Byte>)
    requires ref == [A, C, G, T, A] && read == [A, C, G, A, A]
    ensures MatchRun(100, read, ref, Cursor(0, 0, 0), 5) == [Event(103, 3, 3, PackCig(MismatchCode, 1))]
  {
    var e := Event(103, 3, 3, PackCig(MismatchCode, 1));
    MatchColumn(100, read, ref, Cursor(4, 4, 4), 1, []);
    assert Pack2Bit(ref[4]) == Pack2Bit(read[4]);
    MatchColumn(100, read, ref, Cursor(3, 3, 3), 2, []);
    assert Pack2Bit(ref[3]) != Pack2Bit(read[3]);
    MatchColumn(100, read, ref, Cursor(2, 2, 2), 3, [e]);
    assert Pack2Bit(ref[2]) == Pack2Bit(read[2]);
    MatchColumn(100, read, ref, Cursor(1, 1, 1), 4, [e]);
    assert Pack2Bit(ref[1]) == Pack2Bit(read[1]);
    MatchColumn(100, read, ref, Cursor(0, 0, 0), 5, [e]);
    assert Pack2Bit(ref[0]) == Pack2Bit(read[0]);
  }

  lemma SingleMismatchFits(ops: seq<CigarOp>, read: seq<Byte>, ref: seq<Byte>)
    requires ops == [CigarOp(Match, 5)]
    requires ref == [A, C, G, T, A] && read == [A, C, G, A, A]
    ensures FitsFrom(read, ref, Cursor(0, 0, 0), ops)
  {
    assert ops[1..] == [];
    assert ReadSpan(ops[1..]) == 0 && RefSpan(ops[1..]) == 0;
  }

  lemma SingleMismatchScan(ops: seq<CigarOp>, read: seq<Byte>, ref: seq<Byte>)
    requires ops == [CigarOp(Match, 5)]
    requires ref == [A, C, G, T, A] && read == [A, C, G, A, A]
    requires FitsFrom(read, ref, Cursor(0, 0, 0), ops)
    ensures Scan(100, read, ref, Cursor(0, 0, 0), ops) == [Event(103, 3, 3, PackCig(MismatchCode, 1))]
  {
    assert ops[1..] == [];
    SingleMismatchColumns(read, ref);
    assert Next(Cursor(0, 0, 0), ops[0]) == Cursor(5, 5, 5);
    assert Scan(100, read, ref, Cursor(5, 5, 5), ops[1..]) == [];
    ScanHead(100, read, ref, Cursor(0, 0, 0), ops, []);
  }

  /** `5M` at 100, reference `ACGTA`, read `ACGAA`: exactly one event, a
      mismatch at reference 103, read offset 3. */
  lemma SingleMismatch(ops: seq<CigarOp>, read: seq<Byte>, ref: seq<Byte>)
    requires ops == [CigarOp(Match, 5)]
    requires ref == [A, C, G, T, A] && read == [A, C, G, A, A]
    ensures Fits(SimpleRead(100, ops, read), ref)
    ensures NonrefPos(SimpleRead(100, ops, read), ref) == [Event(103, 3, 3, PackCig(MismatchCode, 1))]
  {
    SingleMismatchFits(ops, read, ref);
    SingleMismatchScan(ops, read, ref);
    assert Origin == Cursor(0, 0, 0);
  }

  /** The same bases under `3=1X1=`: the scanner has no case for `=` or `X`,
      so the mismatch goes unreported. */
  lemma SequenceMatchOpsReportNothing(read: seq<Byte>, ref: seq<Byte>)
    requires ref == [A, C, G, T, A] && read == [A, C, G, A, A]
    ensures NonrefPos(SimpleRead(100, [CigarOp(SeqMatch, 3), CigarOp(SeqMismatch, 1), CigarOp(SeqMatch, 1)], read), ref)
         == []
  {
    var ops := [CigarOp(SeqMatch, 3), CigarOp(SeqMismatch, 1), CigarOp(SeqMatch, 1)];
    var c := Origin;
    ScanHead(100, read, ref, c, ops[2..], []);
    assert ops[1..][1..] == ops[2..];
    ScanHead(100, read, ref, c, ops[1..], []);
    ScanHead(100, read, ref, c, ops, []);
  }

  /** The two `M` runs of `3S4M2D3M` over the bases below: one mismatch in
      each. */
  lemma ClipMatchDeleteMatchColumns(read: seq<Byte>, ref: seq<Byte>)
    requires read == [C, C, C, A, C, G, T, T, T, T]
    requires ref == [G, G, G, A, C, C, T, A, A, T, A, T]
    ensures MatchRun(100, read, ref, Cursor(3, 3, 3), 4) == [Event(105, 5, 5, PackCig(MismatchCode, 1))]
    ensures MatchRun(100, read, ref, Cursor(7, 9, 9), 3) == [Event(110, 8, 10, PackCig(MismatchCode, 1))]
  {
    var e2 := Event(105, 5, 5, PackCig(MismatchCode, 1));
    var e4 := Event(110, 8, 10, PackCig(MismatchCode, 1));
    MatchColumn(100, read, ref, Cursor(9, 11, 11), 1, []);
    assert Pack2Bit(ref[11]) == Pack2Bit(read[9]);
    MatchColumn(100, read, ref, Cursor(8, 10, 10), 2, []);
    assert Pack2Bit(ref[10]) != Pack2Bit(read[8]);
    MatchColumn(100, read, ref, Cursor(7, 9, 9), 3, [e4]);
    assert Pack2Bit(ref[9]) == Pack2Bit(read[7]);
    MatchColumn(100, read, ref, Cursor(6, 6, 6), 1, []);
    assert Pack2Bit(ref[6]) == Pack2Bit(read[6]);
    MatchColumn(100, read, ref, Cursor(5, 5, 5), 2, []);
    assert Pack2Bit(ref[5]) != Pack2Bit(read[5]);
    MatchColumn(100, read, ref, Cursor(4, 4, 4), 3, [e2]);
    assert Pack2Bit(ref[4]) == Pack2Bit(read[4]);
    MatchColumn(100, read, ref, Cursor(3, 3, 3), 4, [e2]);
    assert Pack2Bit(ref[3]) == Pack2Bit(read[3]);
  }

  /** The scan of the final `3M` from its first column. */
  lemma ClipMatchDeleteMatchLast(read: seq<Byte>, ref: seq<Byte>)
    requires |read| == 10 && |ref| == 12
    requires MatchRun(100, read, ref, Cursor(7, 9, 9), 3) == [Event(110, 8, 10, PackCig(MismatchCode, 1))]
    ensures FitsFrom(read, ref, Cursor(7, 9, 9), [CigarOp(Match, 3)])
    ensures Scan(100, read, ref, Cursor(7, 9, 9), [CigarOp(Match, 3)])
         == [Event(110, 8, 10, PackCig(MismatchCode, 1))]
  {
    var ops := [CigarOp(Match, 3)];
    assert ops[1..] == [];
    assert ReadSpan(ops) == 3 && RefSpan(ops) == 3;
    ScanHead(100, read, ref, Cursor(7, 9, 9), ops, []);
  }

  /** The scan of `2D3M` from the end of the `4M` run. */
  lemma ClipMatchDeleteMatchTail(read: seq<Byte>, ref: seq<Byte>)
    requires |read| == 10 && |ref| == 12
    requires MatchRun(100, read, ref, Cursor(7, 9, 9), 3) == [Event(110, 8, 10, PackCig(MismatchCode, 1))]
    ensures FitsFrom(read, ref, Cursor(7, 7, 7), [CigarOp(Del, 2), CigarOp(Match, 3)])
    ensures Scan(100, read, ref, Cursor(7, 7, 7), [CigarOp(Del, 2), CigarOp(Match, 3)])
         == [Event(107, 7, 7, PackCig(2, 2)), Event(110, 8, 10, PackCig(MismatchCode, 1))]
  {
    var ops := [CigarOp(Del, 2), CigarOp(Match, 3)];
    ClipMatchDeleteMatchLast(read, ref);
    assert ops[1..] == [CigarOp(Match, 3)];
    assert ReadSpan(ops) == 3 && RefSpan(ops) == 5;
    ScanHead(100, read, ref, Cursor(7, 7, 7), ops, [Event(110, 8, 10, PackCig(MismatchCode, 1))]);
  }

  /** The scan of `4M2D3M` from the end of the soft clip. */
  lemma ClipMatchDeleteMatchBody(read: seq<Byte>, ref: seq<Byte>)
    requires |read| == 10 && |ref| == 12
    requires MatchRun(100, read, ref, Cursor(3, 3, 3), 4) == [Event(105, 5, 5, PackCig(MismatchCode, 1))]
    requires MatchRun(100, read, ref, Cursor(7, 9, 9), 3) == [Event(110, 8, 10, PackCig(MismatchCode, 1))]
    ensures FitsFrom(read, ref, Cursor(3, 3, 3), [CigarOp(Match, 4), CigarOp(Del, 2), CigarOp(Match, 3)])
    ensures Scan(100, read, ref, Cursor(3, 3, 3), [CigarOp(Match, 4), CigarOp(Del, 2), CigarOp(Match, 3)])
         == [ Event(105, 5, 5, PackCig(MismatchCode, 1)),
              Event(107, 7, 7, PackCig(2, 2)),
              Event(110, 8, 10, PackCig(MismatchCode, 1)) ]
  {
    var ops := [CigarOp(Match, 4), CigarOp(Del, 2), CigarOp(Match, 3)];
    ClipMatchDeleteMatchTail(read, ref);
    assert ops[1..] == [CigarOp(Del, 2), CigarOp(Match, 3)];
    assert ReadSpan(ops) == 7 && RefSpan(ops) == 9;
    ScanHead(100, read, ref, Cursor(3, 3, 3), ops,
      [Event(107, 7, 7, PackCig(2, 2)), Event(110, 8, 10, PackCig(MismatchCode, 1))]);
  }

  /** A CIGAR that opens with a soft clip of `n`: the clip's event, at the
      origin, in front of whatever the rest reports from `n` columns on. */
  lemma SoftClipThen(start: int, read: seq<Byte>, ref: seq<Byte>, n: nat, ops: seq<CigarOp>, rest: seq<Event>)
    requires 0 < |ops| && ops[0] == CigarOp(SoftClip, n)
    requires FitsFrom(read, ref, Cursor(n, n, n), ops[1..])
    requires Scan(start, read, ref, Cursor(n, n, n), ops[1..]) == rest
    ensures FitsFrom(read, ref, Cursor(0, 0, 0), ops)
    ensures Scan(start, read, ref, Cursor(0, 0, 0), ops)
         == [EventAt(start, Cursor(0, 0, 0), PackCig(SoftClipCode, n))] + rest
  {
    assert Next(Cursor(0, 0, 0), ops[0]) == Cursor(n, n, n);
    ScanHead(start, read, ref, Cursor(0, 0, 0), ops, rest);
  }

  /** The whole scan of `3S4M2D3M`, given what its two `M` runs report. */
  lemma ClipMatchDeleteMatchEvents(ops: seq<CigarOp>, read: seq<Byte>, ref: seq<Byte>)
    requires ops == [CigarOp(SoftClip, 3), CigarOp(Match, 4), CigarOp(Del, 2), CigarOp(Match, 3)]
    requires |read| == 10 && |ref| == 12
    requires MatchRun(100, read, ref, Cursor(3, 3, 3), 4) == [Event(105, 5, 5, PackCig(MismatchCode, 1))]
    requires MatchRun(100, read, ref, Cursor(7, 9, 9), 3) == [Event(110, 8, 10, PackCig(MismatchCode, 1))]
    ensures FitsFrom(read, ref, Cursor(0, 0, 0), ops)
    ensures Scan(100, read, ref, Cursor(0, 0, 0), ops)
         == [ Event(100, 0, 0, PackCig(SoftClipCode, 3)),
              Event(105, 5, 5, PackCig(MismatchCode, 1)),
              Event(107, 7, 7, PackCig(2, 2)),
              Event(110, 8, 10, PackCig(MismatchCode, 1)) ]
  {
    var e1 := Event(100, 0, 0, PackCig(SoftClipCode, 3));
    var rest := [ Event(105, 5, 5, PackCig(MismatchCode, 1)),
                  Event(107, 7, 7, PackCig(2, 2)),
                  Event(110, 8, 10, PackCig(MismatchCode, 1)) ];
    ClipMatchDeleteMatchBody(read, ref);
    assert ops[1..] == [CigarOp(Match, 4), CigarOp(Del, 2), CigarOp(Match, 3)];
    SoftClipThen(100, read, ref, 3, ops, rest);
    assert EventAt(100, Cursor(0, 0, 0), PackCig(SoftClipCode, 3)) == e1;
    Prepend(e1, rest[0], rest[1], rest[2]);
  }

  /** `3S4M2D3M` at 100: the soft clip, the one mismatch of the `4M` run,
      the deletion, and the one mismatch of the final `3M` run, in that order
      and at strictly increasing reference positions. */
  lemma ClipMatchDeleteMatch(ops: seq<CigarOp>, read: seq<Byte>, ref: seq<Byte>)
    requires ops == [CigarOp(SoftClip, 3), CigarOp(Match, 4), CigarOp(Del, 2), CigarOp(Match, 3)]
    requires read == [C, C, C, A, C, G, T, T, T, T]
    requires ref == [G, G, G, A, C, C, T, A, A, T, A, T]
    ensures Fits(SimpleRead(100, ops, read), ref)
    ensures NonrefPos(SimpleRead(100, ops, read), ref)
         == [ Event(100, 0, 0, PackCig(SoftClipCode, 3)),
              Event(105, 5, 5, PackCig(MismatchCode, 1)),
              Event(107, 7, 7, PackCig(2, 2)),
              Event(110, 8, 10, PackCig(MismatchCode, 1)) ]
  {
    ClipMatchDeleteMatchColumns(read, ref);
    ClipMatchDeleteMatchEvents(ops, read, ref);
    assert Origin == Cursor(0, 0, 0);
  }
}
