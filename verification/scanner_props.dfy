/** What the scanner's output says about the alignment: which columns of an
    `M` run are reported, what one event per other run carries, ordering of
    the whole output, and worked examples. */
module ScannerProps {
  import opened Common
  import opened EventCodec
  import opened Cigar
  import opened BamRecord
  import opened Scanner

  /** `e` is the mismatch event of some column of the `n`-column `M` run
      starting at `c`, and that column does mismatch. */
  predicate IsColumnEvent(start: int, read: seq<Byte>, ref: seq<Byte>, c: Cursor, n: nat, e: Event)
    requires c.readPos + n <= |read| && c.refPos + n <= |ref|
  {
    var i := e.refPos - start - c.refPos;
    && 0 <= i < n
    && Mismatch(read, ref, Along(c, i))
    && e == EventAt(start, Along(c, i), PackCig(MismatchCode, 1))
  }

  /** A column event of the run after the first column is a column event
      of the whole run, one column further in. */
  lemma ColumnEventShift(start: int, read: seq<Byte>, ref: seq<Byte>, c: Cursor, n: nat, e: Event)
    requires 0 < n && c.readPos + n <= |read| && c.refPos + n <= |ref|
    requires IsColumnEvent(start, read, ref, Along(c, 1), n - 1, e)
    ensures IsColumnEvent(start, read, ref, c, n, e)
    ensures start + c.refPos < e.refPos
  {
    var i := e.refPos - start - c.refPos - 1;
    assert Along(Along(c, 1), i) == Along(c, i + 1);
  }

  /** Every event of an `M` run is the event of a mismatching column of the
      run, recorded at that column's cursors with the word for a length-1
      mismatch. */
  lemma {:induction false} MatchRunSound(start: int, read: seq<Byte>, ref: seq<Byte>, c: Cursor, n: nat)
    requires c.readPos + n <= |read| && c.refPos + n <= |ref|
    ensures forall k :: 0 <= k < |MatchRun(start, read, ref, c, n)| ==>
      IsColumnEvent(start, read, ref, c, n, MatchRun(start, read, ref, c, n)[k])
    decreases n
  {
    if n > 0 {
      var evs := MatchRun(start, read, ref, c, n);
      var c1 := Along(c, 1);
      var rest := MatchRun(start, read, ref, c1, n - 1);
      MatchRunSound(start, read, ref, c1, n - 1);
      var here := if Mismatch(read, ref, c) then [EventAt(start, c, PackCig(MismatchCode, 1))] else [];
      assert evs == here + rest;
      forall k | 0 <= k < |evs|
        ensures IsColumnEvent(start, read, ref, c, n, evs[k])
      {
        if k >= |here| {
          assert evs[k] == rest[k - |here|];
          ColumnEventShift(start, read, ref, c, n, rest[k - |here|]);
        } else {
          assert Along(c, 0) == c;
        }
      }
    }
  }

  /** Every mismatching column of an `M` run is reported. */
  lemma {:induction false} MatchRunComplete(start: int, read: seq<Byte>, ref: seq<Byte>, c: Cursor, n: nat, i: nat)
    requires c.readPos + n <= |read| && c.refPos + n <= |ref|
    requires i < n && Mismatch(read, ref, Along(c, i))
    ensures EventAt(start, Along(c, i), PackCig(MismatchCode, 1)) in MatchRun(start, read, ref, c, n)
    decreases n
  {
    var c1 := Along(c, 1);
    var here := if Mismatch(read, ref, c) then [EventAt(start, c, PackCig(MismatchCode, 1))] else [];
    assert MatchRun(start, read, ref, c, n) == here + MatchRun(start, read, ref, c1, n - 1);
    if i == 0 {
      assert Along(c, 0) == c;
    } else {
      assert Along(c, i) == Along(c1, i - 1);
      MatchRunComplete(start, read, ref, c1, n - 1, i - 1);
    }
  }

  /** Every event of the `m` columns of an `M` run that follow its first
      column lies strictly beyond that first column. */
  lemma RestBeyondFirst(start: int, read: seq<Byte>, ref: seq<Byte>, c: Cursor, m: nat)
    requires c.readPos + m + 1 <= |read| && c.refPos + m + 1 <= |ref|
    ensures forall k :: 0 <= k < |MatchRun(start, read, ref, Along(c, 1), m)| ==>
      start + c.refPos < MatchRun(start, read, ref, Along(c, 1), m)[k].refPos
  {
    var rest := MatchRun(start, read, ref, Along(c, 1), m);
    MatchRunSound(start, read, ref, Along(c, 1), m);
    forall k | 0 <= k < |rest|
      ensures start + c.refPos < rest[k].refPos
    {
      ColumnEventShift(start, read, ref, c, m + 1, rest[k]);
    }
  }

  /** The events of an `M` run are in strictly increasing reference order,
      so no column is reported twice. */
  lemma {:induction false} MatchRunIncreasing(start: int, read: seq<Byte>, ref: seq<Byte>, c: Cursor, n: nat)
    requires c.readPos + n <= |read| && c.refPos + n <= |ref|
    ensures forall k1, k2 :: 0 <= k1 < k2 < |MatchRun(start, read, ref, c, n)| ==>
      MatchRun(start, read, ref, c, n)[k1].refPos < MatchRun(start, read, ref, c, n)[k2].refPos
    decreases n
  {
    if n > 0 {
      var evs := MatchRun(start, read, ref, c, n);
      var rest := MatchRun(start, read, ref, Along(c, 1), n - 1);
      MatchRunIncreasing(start, read, ref, Along(c, 1), n - 1);
      RestBeyondFirst(start, read, ref, c, n - 1);
      var here := if Mismatch(read, ref, c) then [EventAt(start, c, PackCig(MismatchCode, 1))] else [];
      assert evs == here + rest;
      forall k1, k2 | 0 <= k1 < k2 < |evs|
        ensures evs[k1].refPos < evs[k2].refPos
      {
        assert evs[k2] == rest[k2 - |here|];
        if k1 >= |here| {
          assert evs[k1] == rest[k1 - |here|];
        }
      }
    }
  }

  /** The operation code a non-`M` run is reported under: its BAM code for
      `I`, `D` and `N`, and 3 for `S`. */
  function RunCode(k: OpKind): nat
  {
    match k
    case Ins => 1
    case Del => 2
    case Skip => 3
    case SoftClip => 3
    case _ => 0
  }

  /** `S`, `D`, `N` and `I` each report one event at the run's starting
      cursors carrying the run's code and clamped length; `H`, `P`, `=` and
      `X` report nothing and move no cursor. */
  lemma RunEvent(start: int, read: seq<Byte>, ref: seq<Byte>, c: Cursor, op: CigarOp)
    requires op.kind != Match
    requires c.readPos + (if MovesRead(op.kind) then op.len else 0) <= |read|
    requires c.refPos + (if MovesRef(op.kind) then op.len else 0) <= |ref|
    ensures Handled(op.kind) ==>
      var evs := OpEvents(start, read, ref, c, op);
      && |evs| == 1
      && evs[0].refPos == start + c.refPos
      && evs[0].readPos == Saturate16(c.readPos)
      && evs[0].jointPos == Saturate16(c.jointPos)
      && evs[0].Op() == RunCode(op.kind)
      && evs[0].Len() == Min(op.len, MaxOpLen)
    ensures !Handled(op.kind) ==> OpEvents(start, read, ref, c, op) == [] && Next(c, op) == c
  {
  }

  /** A soft clip and a skip of the same length at the same cursors yield the
      same event: code 3 is shared. */
  lemma SoftClipLooksLikeSkip(start: int, read: seq<Byte>, ref: seq<Byte>, c: Cursor, n: nat)
    requires c.readPos + n <= |read| && c.refPos + n <= |ref|
    ensures OpEvents(start, read, ref, c, CigarOp(SoftClip, n)) == OpEvents(start, read, ref, c, CigarOp(Skip, n))
  {
  }

  /** Event `a` comes no later than `b` on all three axes. */
  predicate Ordered(a: Event, b: Event)
  {
    a.refPos <= b.refPos && a.readPos <= b.readPos && a.jointPos <= b.jointPos
  }

  predicate Sorted(evs: seq<Event>)
  {
    forall i, j :: 0 <= i < j < |evs| ==> Ordered(evs[i], evs[j])
  }

  /** `e` lies at or after cursor `lo`. */
  predicate AtOrAfter(start: int, e: Event, lo: Cursor)
  {
    start + lo.refPos <= e.refPos && Saturate16(lo.readPos) <= e.readPos && Saturate16(lo.jointPos) <= e.jointPos
  }

  /** `e` lies at or before cursor `hi`. */
  predicate AtOrBefore(start: int, e: Event, hi: Cursor)
  {
    e.refPos <= start + hi.refPos && e.readPos <= Saturate16(hi.readPos) && e.jointPos <= Saturate16(hi.jointPos)
  }

  lemma SortedConcat(start: int, a: seq<Event>, b: seq<Event>, mid: Cursor)
    requires Sorted(a) && Sorted(b)
    requires forall e :: e in a ==> AtOrBefore(start, e, mid)
    requires forall e :: e in b ==> AtOrAfter(start, e, mid)
    ensures Sorted(a + b)
  {
    forall i, j | 0 <= i < j < |a + b|
      ensures Ordered((a + b)[i], (a + b)[j])
    {
      if j < |a| {
      } else if i >= |a| {
        assert (a + b)[i] == b[i - |a|] && (a + b)[j] == b[j - |a|];
      } else {
        assert (a + b)[i] in a && (a + b)[j] in b;
      }
    }
  }

  /** Column events of one run are ordered as their columns are. */
  lemma ColumnEventsOrdered(start: int, read: seq<Byte>, ref: seq<Byte>, c: Cursor, n: nat, a: Event, b: Event)
    requires c.readPos + n <= |read| && c.refPos + n <= |ref|
    requires IsColumnEvent(start, read, ref, c, n, a) && IsColumnEvent(start, read, ref, c, n, b)
    requires a.refPos <= b.refPos
    ensures Ordered(a, b)
  {
    var i, j := a.refPos - start - c.refPos, b.refPos - start - c.refPos;
    assert a == EventAt(start, Along(c, i), PackCig(MismatchCode, 1));
    assert b == EventAt(start, Along(c, j), PackCig(MismatchCode, 1));
    Saturate16Monotone(c.readPos + i, c.readPos + j);
    Saturate16Monotone(c.jointPos + i, c.jointPos + j);
  }

  /** A column event of a run lies between the run's first and last cursors. */
  lemma ColumnEventWithin(start: int, read: seq<Byte>, ref: seq<Byte>, c: Cursor, n: nat, e: Event)
    requires c.readPos + n <= |read| && c.refPos + n <= |ref|
    requires IsColumnEvent(start, read, ref, c, n, e)
    ensures AtOrAfter(start, e, c) && AtOrBefore(start, e, Along(c, n))
  {
    var i := e.refPos - start - c.refPos;
    assert e == EventAt(start, Along(c, i), PackCig(MismatchCode, 1));
    Saturate16Monotone(c.readPos, c.readPos + i);
    Saturate16Monotone(c.jointPos, c.jointPos + i);
    Saturate16Monotone(c.readPos + i, c.readPos + n);
    Saturate16Monotone(c.jointPos + i, c.jointPos + n);
  }

  /** The events of an `M` run are sorted and lie between the run's first
      and last cursors. */
  lemma MatchRunSortedWithin(start: int, read: seq<Byte>, ref: seq<Byte>, c: Cursor, n: nat)
    requires c.readPos + n <= |read| && c.refPos + n <= |ref|
    ensures Sorted(MatchRun(start, read, ref, c, n))
    ensures forall e :: e in MatchRun(start, read, ref, c, n) ==>
      AtOrAfter(start, e, c) && AtOrBefore(start, e, Along(c, n))
  {
    var evs := MatchRun(start, read, ref, c, n);
    MatchRunSound(start, read, ref, c, n);
    MatchRunIncreasing(start, read, ref, c, n);
    forall e | e in evs
      ensures AtOrAfter(start, e, c) && AtOrBefore(start, e, Along(c, n))
    {
      var k :| 0 <= k < |evs| && evs[k] == e;
      ColumnEventWithin(start, read, ref, c, n, evs[k]);
    }
    forall i, j | 0 <= i < j < |evs|
      ensures Ordered(evs[i], evs[j])
    {
      ColumnEventsOrdered(start, read, ref, c, n, evs[i], evs[j]);
    }
  }

  /** The events of one CIGAR element are sorted and lie between the cursors
      before and after it. */
  lemma OpEventsSortedWithin(start: int, read: seq<Byte>, ref: seq<Byte>, c: Cursor, op: CigarOp)
    requires c.readPos + (if MovesRead(op.kind) then op.len else 0) <= |read|
    requires c.refPos + (if MovesRef(op.kind) then op.len else 0) <= |ref|
    ensures Sorted(OpEvents(start, read, ref, c, op))
    ensures forall e :: e in OpEvents(start, read, ref, c, op) ==>
      AtOrAfter(start, e, c) && AtOrBefore(start, e, Next(c, op))
  {
    if op.kind == Match {
      MatchRunSortedWithin(start, read, ref, c, op.len);
    }
  }

  /** Every event of a scan from `c` lies at or after `c`, and the events are
      sorted on reference position, read offset and joint offset. */
  lemma {:induction false} ScanSorted(start: int, read: seq<Byte>, ref: seq<Byte>, c: Cursor, ops: seq<CigarOp>)
    requires FitsFrom(read, ref, c, ops)
    ensures Sorted(Scan(start, read, ref, c, ops))
    ensures forall e :: e in Scan(start, read, ref, c, ops) ==> AtOrAfter(start, e, c)
    decreases |ops|
  {
    if |ops| > 0 {
      var d := Next(c, ops[0]);
      var here := OpEvents(start, read, ref, c, ops[0]);
      var rest := Scan(start, read, ref, d, ops[1..]);
      OpEventsSortedWithin(start, read, ref, c, ops[0]);
      ScanSorted(start, read, ref, d, ops[1..]);
      SortedConcat(start, here, rest, d);
      assert Scan(start, read, ref, c, ops) == here + rest;
      forall e | e in rest
        ensures AtOrAfter(start, e, c)
      {
        assert AtOrAfter(start, e, d);
      }
    }
  }

  /** Across a read's output, reference positions, read offsets and joint
      offsets never decrease. */
  lemma NonrefPosSorted(r: Read, ror: seq<Byte>)
    requires r.posWithSClips < 0 || Fits(r, ror)
    ensures Sorted(NonrefPos(r, ror))
  {
    if r.posWithSClips >= 0 {
      ScanSorted(r.posWithSClips, r.sequence, ror, Origin, r.cigar);
    }
  }

  /** An element the scanner does not handle, at the head of a scan, can be
      dropped without changing the output. */
  lemma UnhandledOpIgnored(start: int, read: seq<Byte>, ref: seq<Byte>, c: Cursor, ops: seq<CigarOp>)
    requires |ops| > 0 && !Handled(ops[0].kind)
    requires FitsFrom(read, ref, c, ops)
    ensures FitsFrom(read, ref, c, ops[1..])
    ensures Scan(start, read, ref, c, ops) == Scan(start, read, ref, c, ops[1..])
  {
  }

  /** Two CIGAR lists with the same head whose tails scan alike from the
      cursor after the head scan alike. */
  lemma SameHead(start: int, read: seq<Byte>, ref: seq<Byte>, c: Cursor, ops: seq<CigarOp>, ops': seq<CigarOp>)
    requires 0 < |ops| && 0 < |ops'| && ops'[0] == ops[0]
    requires FitsFrom(read, ref, c, ops)
    requires FitsFrom(read, ref, Next(c, ops[0]), ops'[1..])
    requires Scan(start, read, ref, Next(c, ops[0]), ops[1..]) == Scan(start, read, ref, Next(c, ops[0]), ops'[1..])
    ensures FitsFrom(read, ref, c, ops')
    ensures Scan(start, read, ref, c, ops) == Scan(start, read, ref, c, ops')
  {
  }

  /** Elements the scanner does not handle can be dropped from anywhere in
      the CIGAR without changing the output. */
  lemma {:induction false} UnhandledAnywhere(start: int, read: seq<Byte>, ref: seq<Byte>, c: Cursor,
                                             ops: seq<CigarOp>, k: nat)
    requires k < |ops| && !Handled(ops[k].kind)
    requires FitsFrom(read, ref, c, ops)
    ensures FitsFrom(read, ref, c, ops[..k] + ops[k + 1..])
    ensures Scan(start, read, ref, c, ops) == Scan(start, read, ref, c, ops[..k] + ops[k + 1..])
    decreases k
  {
    if k == 0 {
      assert ops[..0] + ops[1..] == ops[1..];
      UnhandledOpIgnored(start, read, ref, c, ops);
    } else {
      var shorter := ops[..k] + ops[k + 1..];
      assert FitsFrom(read, ref, Next(c, ops[0]), ops[1..]);
      UnhandledAnywhere(start, read, ref, Next(c, ops[0]), ops[1..], k - 1);
      assert shorter[0] == ops[0] && shorter[1..] == ops[1..][..k - 1] + ops[1..][k..];
      SameHead(start, read, ref, c, ops, shorter);
    }
  }

}
