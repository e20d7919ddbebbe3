/** The CIGAR-driven reference-diff scanner (`nonref_pos`): walks a read's
    CIGAR with a read cursor, a reference cursor and a joint-alignment cursor,
    and emits one event per mismatching aligned column and one per soft clip,
    deletion, skip or insertion run. */
module Scanner {
  import opened Common
  import opened EventCodec
  import opened Cigar
  import opened Bases
  import opened BamRecord

  /** Offsets into the read, into the reference slice, and along the joint
      read/reference alignment. */
  datatype Cursor = Cursor(readPos: nat, refPos: nat, jointPos: nat)

  const Origin: Cursor := Cursor(0, 0, 0)

  /** Operation codes of the packed word. A soft clip shares code 3 with the
      skip; the two are told apart by where they sit in the CIGAR. */
  const MismatchCode: nat := 0
  const SoftClipCode: nat := 3

  /** The cursor `i` columns further along all three axes. */
  function Along(c: Cursor, i: nat): Cursor
  {
    Cursor(c.readPos + i, c.refPos + i, c.jointPos + i)
  }

  /** The event recorded at cursor `c` of a read whose clipped start is
      `start`: absolute reference position, saturated offsets, CIGAR word. */
  function EventAt(start: int, c: Cursor, cig: U16): Event
  {
    Event(start + c.refPos, Saturate16(c.readPos), Saturate16(c.jointPos), cig)
  }

  /** The bases under cursor `c` differ once packed. */
  predicate Mismatch(read: seq<Byte>, ref: seq<Byte>, c: Cursor)
    requires c.readPos < |read| && c.refPos < |ref|
  {
    Pack2Bit(ref[c.refPos]) != Pack2Bit(read[c.readPos])
  }

  /** The cursor after one CIGAR element. */
  function Next(c: Cursor, op: CigarOp): (d: Cursor)
    ensures d.readPos == c.readPos + (if MovesRead(op.kind) then op.len else 0)
    ensures d.refPos == c.refPos + (if MovesRef(op.kind) then op.len else 0)
    ensures d.jointPos == c.jointPos + (if Handled(op.kind) then op.len else 0)
  {
    match op.kind
    case Match => Along(c, op.len)
    case SoftClip => Along(c, op.len)
    case Del => Cursor(c.readPos, c.refPos + op.len, c.jointPos + op.len)
    case Skip => Cursor(c.readPos, c.refPos + op.len, c.jointPos + op.len)
    case Ins => Cursor(c.readPos + op.len, c.refPos, c.jointPos + op.len)
    case _ => c
  }

  /** The column loop of an `M` run of `n` columns starting at cursor `c`. */
  function MatchRun(start: int, read: seq<Byte>, ref: seq<Byte>, c: Cursor, n: nat): seq<Event>
    requires c.readPos + n <= |read| && c.refPos + n <= |ref|
    decreases n
  {
    if n == 0 then []
    else
      var here := if Mismatch(read, ref, c) then [EventAt(start, c, PackCig(MismatchCode, 1))] else [];
      here + MatchRun(start, read, ref, Along(c, 1), n - 1)
  }

  /** The events of one CIGAR element, by the `switch` on its letter;
      `H`, `P`, `=` and `X` have no case and emit nothing. */
  function OpEvents(start: int, read: seq<Byte>, ref: seq<Byte>, c: Cursor, op: CigarOp): (evs: seq<Event>)
    requires c.readPos + (if MovesRead(op.kind) then op.len else 0) <= |read|
    requires c.refPos + (if MovesRef(op.kind) then op.len else 0) <= |ref|
  {
    match op.kind
    case Match => MatchRun(start, read, ref, c, op.len)
    case SoftClip => [EventAt(start, c, PackCig(SoftClipCode, op.len))]
    case Del => [EventAt(start, c, PackCig(RawType(op.kind), op.len))]
    case Skip => [EventAt(start, c, PackCig(RawType(op.kind), op.len))]
    case Ins => [EventAt(start, c, PackCig(RawType(op.kind), op.len))]
    case _ => []
  }

  /** The read and reference are long enough for `ops` scanned from `c`. */
  predicate FitsFrom(read: seq<Byte>, ref: seq<Byte>, c: Cursor, ops: seq<CigarOp>)
  {
    c.readPos + ReadSpan(ops) <= |read| && c.refPos + RefSpan(ops) <= |ref|
  }

  /** The events of a CIGAR list scanned from cursor `c`, in order. */
  function Scan(start: int, read: seq<Byte>, ref: seq<Byte>, c: Cursor, ops: seq<CigarOp>): seq<Event>
    requires FitsFrom(read, ref, c, ops)
    decreases |ops|
  {
    if |ops| == 0 then []
    else OpEvents(start, read, ref, c, ops[0]) + Scan(start, read, ref, Next(c, ops[0]), ops[1..])
  }

  /** The read's CIGAR fits its sequence and the reference slice. */
  predicate Fits(r: Read, ror: seq<Byte>)
  {
    FitsFrom(r.sequence, ror, Origin, r.cigar)
  }

  /** `nonref_pos`: the events of read `r` against the reference slice `ror`
      that starts at the read's clipped start. A read overhanging the contig
      start yields nothing, whatever its CIGAR. */
  function NonrefPos(r: Read, ror: seq<Byte>): (evs: seq<Event>)
    requires r.posWithSClips < 0 || Fits(r, ror)
    ensures r.posWithSClips < 0 ==> evs == []
  {
    if r.posWithSClips < 0 then []
    else Scan(r.posWithSClips, r.sequence, ror, Origin, r.cigar)
  }

  /** Unfolding of the span sums at an index of the CIGAR list. */
  lemma {:induction false} SpanStep(ops: seq<CigarOp>, k: nat)
    requires k < |ops|
    ensures ReadSpan(ops[k..]) == (if MovesRead(ops[k].kind) then ops[k].len else 0) + ReadSpan(ops[k + 1..])
    ensures RefSpan(ops[k..]) == (if MovesRef(ops[k].kind) then ops[k].len else 0) + RefSpan(ops[k + 1..])
  {
    assert ops[k..][1..] == ops[k + 1..];
  }

  /** One step of `Scan` at index `k` of the CIGAR list. */
  lemma ScanAt(start: int, read: seq<Byte>, ref: seq<Byte>, c: Cursor, ops: seq<CigarOp>, k: nat)
    requires k < |ops|
    requires FitsFrom(read, ref, c, ops[k..])
    ensures FitsFrom(read, ref, Next(c, ops[k]), ops[k + 1..])
    ensures Scan(start, read, ref, c, ops[k..])
         == OpEvents(start, read, ref, c, ops[k]) + Scan(start, read, ref, Next(c, ops[k]), ops[k + 1..])
  {
    SpanStep(ops, k);
    assert ops[k..][1..] == ops[k + 1..];
  }

  /** The column loop of an `M` run as written: compare, record a mismatch,
      advance all three cursors. */
  method MatchLoop(start: int, readseq: seq<Byte>, ror: seq<Byte>, c0: Cursor, n: nat)
    returns (events: seq<Event>, c: Cursor)
    requires c0.readPos + n <= |readseq| && c0.refPos + n <= |ror|
    ensures events == MatchRun(start, readseq, ror, c0, n)
    ensures c == Along(c0, n)
  {
    events := [];
    var readpos: nat, refpos: nat, jointpos: nat := c0.readPos, c0.refPos, c0.jointPos;
    var i := 0;
    while i < n
      invariant 0 <= i <= n
      invariant Cursor(readpos, refpos, jointpos) == Along(c0, i)
      invariant events + MatchRun(start, readseq, ror, Along(c0, i), n - i) == MatchRun(start, readseq, ror, c0, n)
      decreases n - i
    {
      if Pack2Bit(ror[refpos]) != Pack2Bit(readseq[readpos]) {
        events := events + [Event(start + refpos, Saturate16(readpos), Saturate16(jointpos), PackCig(MismatchCode, 1))];
      }
      readpos := readpos + 1;
      refpos := refpos + 1;
      jointpos := jointpos + 1;
      i := i + 1;
    }
    c := Cursor(readpos, refpos, jointpos);
  }

  /** One case of the `switch` in `nonref_pos`: the events of one CIGAR
      element and the cursors after it. */
  method OpStep(start: int, readseq: seq<Byte>, ror: seq<Byte>, c0: Cursor, op: CigarOp)
    returns (here: seq<Event>, c: Cursor)
    requires c0.readPos + (if MovesRead(op.kind) then op.len else 0) <= |readseq|
    requires c0.refPos + (if MovesRef(op.kind) then op.len else 0) <= |ror|
    ensures here == OpEvents(start, readseq, ror, c0, op)
    ensures c == Next(c0, op)
  {
    var readpos, refpos, jointpos := c0.readPos, c0.refPos, c0.jointPos;
    match op.kind {
      case Match =>
        here, c := MatchLoop(start, readseq, ror, c0, op.len);
        return;
      case SoftClip =>
        here := [Event(start + refpos, Saturate16(readpos), Saturate16(jointpos), PackCig(SoftClipCode, op.len))];
        readpos := readpos + op.len;
        refpos := refpos + op.len;
        jointpos := jointpos + op.len;
      case Del =>
        here := [Event(start + refpos, Saturate16(readpos), Saturate16(jointpos), PackCig(RawType(op.kind), op.len))];
        refpos := refpos + op.len;
        jointpos := jointpos + op.len;
      case Skip =>
        here := [Event(start + refpos, Saturate16(readpos), Saturate16(jointpos), PackCig(RawType(op.kind), op.len))];
        refpos := refpos + op.len;
        jointpos := jointpos + op.len;
      case Ins =>
        here := [Event(start + refpos, Saturate16(readpos), Saturate16(jointpos), PackCig(RawType(op.kind), op.len))];
        readpos := readpos + op.len;
        jointpos := jointpos + op.len;
      case _ =>
        here := [];
    }
    c := Cursor(readpos, refpos, jointpos);
  }

  /** The loop of `nonref_pos` as written: cursors start at zero and each
      CIGAR element appends its events. It computes exactly the events
      `NonrefPos` describes. */
  method NonrefPosLoop(r: Read, ror: seq<Byte>) returns (output: seq<Event>)
    requires r.posWithSClips < 0 || Fits(r, ror)
    ensures output == NonrefPos(r, ror)
  {
    output := [];
    if r.posWithSClips < 0 {
      return;
    }
    var start := r.posWithSClips;
    var cigar := r.cigar;
    var c := Origin;
    var k := 0;
    assert cigar[0..] == cigar;
    while k < |cigar|
      invariant 0 <= k <= |cigar|
      invariant FitsFrom(r.sequence, ror, c, cigar[k..])
      invariant output + Scan(start, r.sequence, ror, c, cigar[k..]) == NonrefPos(r, ror)
      decreases |cigar| - k
    {
      ScanAt(start, r.sequence, ror, c, cigar, k);
      ghost var rest := Scan(start, r.sequence, ror, Next(c, cigar[k]), cigar[k + 1..]);
      var here;
      here, c := OpStep(start, r.sequence, ror, c, cigar[k]);
      assert output + (here + rest) == (output + here) + rest;
      output := output + here;
      k := k + 1;
    }
  }
}
