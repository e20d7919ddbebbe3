/** The default read loop (`walk()`): pull every record, report status every
    100 000 records, skip filtered reads, hand the rest to the per-read hook,
    and stop right after the hook first returns false. Also the genome
    position successor `increment_pos`. */
module Walker {
  import opened Common
  import opened BamRecord

  /** `print_status` is called whenever the record counter, before it is
      incremented, is a multiple of this. */
  const StatusInterval: nat := 100000

  /** The observable effect of one walk: the final record counter, how many
      records were pulled from the stream, the reads handed to the hook in
      order, the counter values at which `print_status` was called, and
      whether the hook stopped the loop. */
  datatype WalkTrace = WalkTrace(nReads: nat, pulled: nat, hooked: seq<Read>, statusAt: seq<nat>, stoppedEarly: bool)

  /** A walk over `stream` with the hook `apply`, starting from record counter
      `nReads`. */
  function Walk(stream: seq<Read>, apply: Read -> bool, nReads: nat): (t: WalkTrace)
    ensures t.nReads == nReads + t.pulled
    ensures t.pulled <= |stream|
    ensures !t.stoppedEarly ==> t.pulled == |stream|
    ensures t.stoppedEarly ==> 0 < t.pulled && 0 < |t.hooked|
    decreases |stream|
  {
    if |stream| == 0 then WalkTrace(nReads, 0, [], [], false)
    else
      var r := stream[0];
      var status := if nReads % StatusInterval == 0 then [nReads] else [];
      if FilterRead(r) then
        var t := Walk(stream[1..], apply, nReads + 1);
        t.(pulled := t.pulled + 1, statusAt := status + t.statusAt)
      else if !apply(r) then
        WalkTrace(nReads + 1, 1, [r], status, true)
      else
        var t := Walk(stream[1..], apply, nReads + 1);
        t.(pulled := t.pulled + 1, hooked := [r] + t.hooked, statusAt := status + t.statusAt)
  }

  /** The stream the filter lets through, in order. */
  function Kept(stream: seq<Read>): seq<Read>
  {
    if |stream| == 0 then []
    else (if FilterRead(stream[0]) then [] else [stream[0]]) + Kept(stream[1..])
  }

  /** The hook sees exactly the unfiltered stream among those pulled, in
      stream order. */
  lemma {:induction false} WalkHooksKeptReads(stream: seq<Read>, apply: Read -> bool, nReads: nat)
    ensures Walk(stream, apply, nReads).hooked == Kept(stream[..Walk(stream, apply, nReads).pulled])
    decreases |stream|
  {
    if |stream| > 0 {
      var t := Walk(stream, apply, nReads);
      var r := stream[0];
      var rest := Walk(stream[1..], apply, nReads + 1);
      if FilterRead(r) || apply(r) {
        WalkHooksKeptReads(stream[1..], apply, nReads + 1);
        assert stream[..t.pulled][1..] == stream[1..][..rest.pulled];
      } else {
        assert stream[..1][1..] == [];
      }
    } else {
      assert stream[..0] == [];
    }
  }

  /** The loop stops right after the first unfiltered read the hook rejects:
      every earlier read was filtered or accepted, and if the loop ran to the
      end of the stream no read was rejected. */
  lemma {:induction false} WalkStopsAtFirstRejection(stream: seq<Read>, apply: Read -> bool, nReads: nat)
    ensures var t := Walk(stream, apply, nReads);
      && (forall i :: 0 <= i < t.pulled - 1 ==> FilterRead(stream[i]) || apply(stream[i]))
      && (t.stoppedEarly <==> 0 < t.pulled && !FilterRead(stream[t.pulled - 1]) && !apply(stream[t.pulled - 1]))
      && (!t.stoppedEarly ==> forall i :: 0 <= i < |stream| ==> FilterRead(stream[i]) || apply(stream[i]))
    decreases |stream|
  {
    if |stream| > 0 {
      var t := Walk(stream, apply, nReads);
      var r := stream[0];
      if FilterRead(r) || apply(r) {
        var rest := Walk(stream[1..], apply, nReads + 1);
        WalkStopsAtFirstRejection(stream[1..], apply, nReads + 1);
        assert t.pulled == rest.pulled + 1;
        forall i | 0 <= i < t.pulled - 1
          ensures FilterRead(stream[i]) || apply(stream[i])
        {
          if i > 0 {
            assert stream[i] == stream[1..][i - 1];
          }
        }
        if rest.pulled > 0 {
          assert stream[t.pulled - 1] == stream[1..][rest.pulled - 1];
        }
        if !t.stoppedEarly {
          forall i | 0 <= i < |stream|
            ensures FilterRead(stream[i]) || apply(stream[i])
          {
            if i > 0 {
              assert stream[i] == stream[1..][i - 1];
            }
          }
        }
      }
    }
  }

  /** `statusAt` lists, in increasing order, the counter values in
      `[lo, lo + count)` that are multiples of the interval. */
  ghost predicate Cadence(statusAt: seq<nat>, lo: nat, count: nat)
  {
    && (forall k :: k in statusAt <==> lo <= k < lo + count && k % StatusInterval == 0)
    && (forall i, j :: 0 <= i < j < |statusAt| ==> statusAt[i] < statusAt[j])
  }

  /** The status calls of a walk that started at counter `nReads`. */
  ghost predicate StatusCadence(t: WalkTrace, nReads: nat)
  {
    Cadence(t.statusAt, nReads, t.pulled)
  }

  /** One more counter value in front keeps the cadence. */
  lemma CadenceCons(statusAt: seq<nat>, lo: nat, count: nat)
    requires Cadence(statusAt, lo + 1, count)
    ensures Cadence((if lo % StatusInterval == 0 then [lo] else []) + statusAt, lo, count + 1)
  {
    var status := if lo % StatusInterval == 0 then [lo] else [];
    var s := status + statusAt;
    forall k
      ensures k in s <==> lo <= k < lo + count + 1 && k % StatusInterval == 0
    {
      assert k in s <==> k in status || k in statusAt;
    }
    forall i, j | 0 <= i < j < |s|
      ensures s[i] < s[j]
    {
      assert s[j] == statusAt[j - |status|];
      if i >= |status| {
        assert s[i] == statusAt[i - |status|];
      } else {
        assert statusAt[j - |status|] in statusAt;
      }
    }
  }

  /** `print_status` is called once for each counter value in the walk's
      range that is a multiple of the interval, in increasing order. */
  lemma {:induction false} WalkStatusCadence(stream: seq<Read>, apply: Read -> bool, nReads: nat)
    ensures StatusCadence(Walk(stream, apply, nReads), nReads)
    decreases |stream|
  {
    if |stream| > 0 {
      var r := stream[0];
      if FilterRead(r) || apply(r) {
        var rest := Walk(stream[1..], apply, nReads + 1);
        WalkStatusCadence(stream[1..], apply, nReads + 1);
        CadenceCons(rest.statusAt, nReads, rest.pulled);
      } else {
        CadenceCons([], nReads, 0);
      }
    }
  }

  /** The status calls that print a line: at counter 0 the call only starts
      the clock. */
  function Reports(statusAt: seq<nat>): seq<nat>
  {
    if |statusAt| == 0 then []
    else (if statusAt[0] > 0 then [statusAt[0]] else []) + Reports(statusAt[1..])
  }

  /** The multiples of the interval below 250 000. */
  lemma MultiplesBelowQuarterMillion(k: nat)
    requires k < 250000 && k % StatusInterval == 0
    ensures k == 0 || k == 100000 || k == 200000
  {
    assert k == StatusInterval * (k / StatusInterval);
  }

  /** In an increasing sequence drawn from 0, 100 000 and 200 000, the
      `i`-th element is at least `i` intervals. */
  lemma {:induction false} StatusCallsSpaced(s: seq<nat>, i: nat)
    requires forall k :: k in s ==> k == 0 || k == 100000 || k == 200000
    requires forall i, j :: 0 <= i < j < |s| ==> s[i] < s[j]
    requires i < |s|
    ensures s[i] >= StatusInterval * i
    decreases i
  {
    assert s[i] in s;
    if i > 0 {
      StatusCallsSpaced(s, i - 1);
    }
  }

  /** The only increasing sequence holding exactly 0, 100 000 and 200 000. */
  lemma ThreeStatusCalls(s: seq<nat>)
    requires forall k :: k in s <==> k == 0 || k == 100000 || k == 200000
    requires forall i, j :: 0 <= i < j < |s| ==> s[i] < s[j]
    ensures s == [0, 100000, 200000]
  {
    assert 0 in s && 100000 in s && 200000 in s;
    var i0 :| 0 <= i0 < |s| && s[i0] == 0;
    var i1 :| 0 <= i1 < |s| && s[i1] == 100000;
    var i2 :| 0 <= i2 < |s| && s[i2] == 200000;
    StatusCallsSpaced(s, |s| - 1);
    assert s[|s| - 1] in s;
    assert |s| == 3;
    assert s[0] in s && s[1] in s && s[2] in s;
  }

  /** A fresh walk over 250 000 reads whose hook never stops: the counter
      ends at 250 000, `print_status` is called at 0, 100 000 and 200 000,
      and two of those calls print a report. */
  lemma QuarterMillionReads(stream: seq<Read>, apply: Read -> bool)
    requires |stream| == 250000
    requires forall r :: apply(r)
    ensures Walk(stream, apply, 0).nReads == 250000
    ensures Walk(stream, apply, 0).statusAt == [0, 100000, 200000]
    ensures |Reports(Walk(stream, apply, 0).statusAt)| == 2
  {
    var t := Walk(stream, apply, 0);
    WalkStopsAtFirstRejection(stream, apply, 0);
    assert !t.stoppedEarly;
    WalkStatusCadence(stream, apply, 0);
    forall k
      ensures k in t.statusAt <==> k == 0 || k == 100000 || k == 200000
    {
      if k in t.statusAt {
        MultiplesBelowQuarterMillion(k);
      }
    }
    ThreeStatusCalls(t.statusAt);
    var s := t.statusAt;
    assert s[1..] == [100000, 200000] && s[1..][1..] == [200000] && s[1..][1..][1..] == [];
    assert Reports(s[1..][1..]) == [200000];
    assert Reports(s[1..]) == [100000, 200000];
  }

  /** The pieces of a walk cut at some read: the first part's trace
      followed by the walk over the rest. */
  function Glue(a: WalkTrace, b: WalkTrace): WalkTrace
  {
    WalkTrace(b.nReads, a.pulled + b.pulled, a.hooked + b.hooked, a.statusAt + b.statusAt, b.stoppedEarly)
  }

  /** Glueing is associative. */
  lemma GlueAssoc(a: WalkTrace, b: WalkTrace, c: WalkTrace)
    ensures Glue(Glue(a, b), c) == Glue(a, Glue(b, c))
  {
    assert (a.hooked + b.hooked) + c.hooked == a.hooked + (b.hooked + c.hooked);
    assert (a.statusAt + b.statusAt) + c.statusAt == a.statusAt + (b.statusAt + c.statusAt);
  }

  /** What one turn of the loop adds to the trace when it does not stop. */
  function Step(r: Read, nReads: nat): WalkTrace
  {
    WalkTrace(nReads + 1, 1, if FilterRead(r) then [] else [r],
              if nReads % StatusInterval == 0 then [nReads] else [], false)
  }

  /** One turn of the walk, split off the front. */
  lemma WalkUnfold(stream: seq<Read>, apply: Read -> bool, nReads: nat)
    requires |stream| > 0
    ensures FilterRead(stream[0]) || apply(stream[0]) ==>
      Walk(stream, apply, nReads) == Glue(Step(stream[0], nReads), Walk(stream[1..], apply, nReads + 1))
    ensures !FilterRead(stream[0]) && !apply(stream[0]) ==>
      Walk(stream, apply, nReads) == Glue(Step(stream[0], nReads), WalkTrace(nReads + 1, 0, [], [], true))
  {
    var rest := Walk(stream[1..], apply, nReads + 1);
    var status := if nReads % StatusInterval == 0 then [nReads] else [];
    assert status + [] == status;
    assert [stream[0]] + [] == [stream[0]];
    assert [] + rest.hooked == rest.hooked;
  }

  /** The loop invariant of `walk()` carried over one read that does not
      stop the walk, in terms of the loop's updated variables. */
  lemma Advance(stream: seq<Read>, apply: Read -> bool, n0: nat, i: nat, nReads: nat,
                hooked: seq<Read>, statusAt: seq<nat>, hooked': seq<Read>, statusAt': seq<nat>)
    requires i < |stream|
    requires FilterRead(stream[i]) || apply(stream[i])
    requires Glue(WalkTrace(nReads, i, hooked, statusAt, false), Walk(stream[i..], apply, nReads)) == Walk(stream, apply, n0)
    requires hooked' == hooked + Step(stream[i], nReads).hooked
    requires statusAt' == statusAt + Step(stream[i], nReads).statusAt
    ensures Glue(WalkTrace(nReads + 1, i + 1, hooked', statusAt', false), Walk(stream[i + 1..], apply, nReads + 1))
      == Walk(stream, apply, n0)
  {
    var before := WalkTrace(nReads, i, hooked, statusAt, false);
    assert stream[i..][0] == stream[i] && stream[i..][1..] == stream[i + 1..];
    WalkUnfold(stream[i..], apply, nReads);
    GlueAssoc(before, Step(stream[i], nReads), Walk(stream[i + 1..], apply, nReads + 1));
  }

  /** The loop invariant of `walk()` at the read that stops the walk. */
  lemma Stop(stream: seq<Read>, apply: Read -> bool, n0: nat, i: nat, nReads: nat,
             hooked: seq<Read>, statusAt: seq<nat>, hooked': seq<Read>, statusAt': seq<nat>)
    requires i < |stream|
    requires !FilterRead(stream[i]) && !apply(stream[i])
    requires Glue(WalkTrace(nReads, i, hooked, statusAt, false), Walk(stream[i..], apply, nReads)) == Walk(stream, apply, n0)
    requires hooked' == hooked + Step(stream[i], nReads).hooked
    requires statusAt' == statusAt + Step(stream[i], nReads).statusAt
    ensures WalkTrace(nReads + 1, i + 1, hooked', statusAt', true) == Walk(stream, apply, n0)
  {
    var before := WalkTrace(nReads, i, hooked, statusAt, false);
    assert stream[i..][0] == stream[i];
    WalkUnfold(stream[i..], apply, nReads);
    GlueAssoc(before, Step(stream[i], nReads), WalkTrace(nReads + 1, 0, [], [], true));
    assert hooked' + [] == hooked' && statusAt' + [] == statusAt';
  }

  /** One pass of the loop of `walk()` as written, on the `i`-th record:
      note a status call when the count is a multiple of the interval,
      count the record, `continue` past a filtered read, hand the rest to
      the hook, and report a `break` when it returns false. */
  method Turn(stream: seq<Read>, apply: Read -> bool, n0: nat, i: nat, nReads: nat,
              hooked: seq<Read>, statusAt: seq<nat>)
    returns (nReads': nat, hooked': seq<Read>, statusAt': seq<nat>, stop: bool)
    requires i < |stream|
    requires Glue(WalkTrace(nReads, i, hooked, statusAt, false), Walk(stream[i..], apply, nReads)) == Walk(stream, apply, n0)
    ensures nReads' == nReads + 1
    ensures !stop ==> Glue(WalkTrace(nReads', i + 1, hooked', statusAt', false), Walk(stream[i + 1..], apply, nReads'))
                      == Walk(stream, apply, n0)
    ensures stop ==> WalkTrace(nReads', i + 1, hooked', statusAt', true) == Walk(stream, apply, n0)
  {
    var r := stream[i];
    statusAt' := statusAt;
    if nReads % StatusInterval == 0 {
      statusAt' := statusAt' + [nReads];
    } else {
      assert statusAt' == statusAt + [];
    }
    nReads' := nReads + 1;
    hooked', stop := hooked, false;
    if FilterRead(r) {
      assert hooked' == hooked + [];
      Advance(stream, apply, n0, i, nReads, hooked, statusAt, hooked', statusAt');
      return;
    }
    hooked' := hooked' + [r];
    if !apply(r) {
      stop := true;
      Stop(stream, apply, n0, i, nReads, hooked, statusAt, hooked', statusAt');
      return;
    }
    Advance(stream, apply, n0, i, nReads, hooked, statusAt, hooked', statusAt');
  }

  /** The loop of `walk()` as written: a `while` over the stream, one
      `Turn` per record, leaving the loop when a turn reports the `break`.
      It does what `Walk` describes. */
  method WalkLoop(stream: seq<Read>, apply: Read -> bool, n0: nat) returns (t: WalkTrace)
    ensures t == Walk(stream, apply, n0)
  {
    var nReads := n0;
    var hooked: seq<Read> := [];
    var statusAt: seq<nat> := [];
    var i := 0;
    assert stream[0..] == stream;
    while i < |stream|
      invariant 0 <= i <= |stream|
      invariant nReads == n0 + i
      invariant Glue(WalkTrace(nReads, i, hooked, statusAt, false), Walk(stream[i..], apply, nReads)) == Walk(stream, apply, n0)
      decreases |stream| - i
    {
      var stop;
      nReads, hooked, statusAt, stop := Turn(stream, apply, n0, i, nReads, hooked, statusAt);
      i := i + 1;
      if stop {
        t := WalkTrace(nReads, i, hooked, statusAt, true);
        return;
      }
    }
    assert stream[i..] == [];
    t := WalkTrace(nReads, i, hooked, statusAt, false);
  }

  /** A signed 32-bit value read as unsigned, as C does when comparing it
      with an unsigned 32-bit value: the value modulo 2^32. */
  function ToU32(x: int): (u: U32)
    ensures 0 <= x < 0x1_0000_0000 ==> u == x
    ensures -0x1_0000_0000 <= x < 0 ==> u == x + 0x1_0000_0000
  {
    x % 0x1_0000_0000
  }

  /** `increment_pos`: the next (contig, position) after `(chr, pos)`, where
      `lens[chr]` is the contig length the header reports. The comparison
      is unsigned and the contig index is 16-bit. */
  function IncrementPos(lens: seq<I32>, chr: U16, pos: U32): (next: (U16, U32))
    requires chr < |lens|
    ensures next == (chr, pos + 1) || next == ((chr + 1) % 0x1_0000, 0)
  {
    if pos >= ToU32(lens[chr] as int - 1) then ((chr + 1) % 0x1_0000, 0)
    else (chr, pos + 1)
  }

  /** Within a non-empty contig, the successor is the next position, or
      position 0 of the next contig after the last one. The position never
      wraps. */
  lemma IncrementPosSuccessor(lens: seq<I32>, chr: U16, pos: U32)
    requires chr < |lens| && 0 < lens[chr] && pos < lens[chr]
    ensures pos + 1 < lens[chr] ==> IncrementPos(lens, chr, pos) == (chr, pos + 1)
    ensures pos + 1 == lens[chr] ==> IncrementPos(lens, chr, pos) == ((chr + 1) % 0x1_0000, 0)
  {
  }

  /** The offset of a contig's first base in the concatenated genome. */
  function ContigStart(lens: seq<I32>, chr: nat): int
    requires chr <= |lens|
  {
    if chr == 0 then 0 else ContigStart(lens, chr - 1) + lens[chr - 1]
  }

  /** `(chr, pos)` names a base of the genome. */
  predicate ValidPos(lens: seq<I32>, chr: int, pos: int)
  {
    0 <= chr < |lens| && 0 <= pos < lens[chr]
  }

  /** On a genome of non-empty contigs, stepping from any base but the last
      reaches a base, and exactly the next one of the concatenated genome. */
  lemma IncrementPosIsNextBase(lens: seq<I32>, chr: U16, pos: U32)
    requires |lens| <= 0x1_0000
    requires forall i :: 0 <= i < |lens| ==> 0 < lens[i]
    requires ValidPos(lens, chr, pos)
    requires chr + 1 < |lens| || pos + 1 < lens[chr]
    ensures ValidPos(lens, IncrementPos(lens, chr, pos).0, IncrementPos(lens, chr, pos).1)
    ensures ContigStart(lens, IncrementPos(lens, chr, pos).0) + IncrementPos(lens, chr, pos).1
         == ContigStart(lens, chr) + pos + 1
  {
    IncrementPosSuccessor(lens, chr, pos);
    if pos + 1 == lens[chr] {
      var next := chr + 1;
      assert next < |lens| && next < 0x1_0000;
      assert IncrementPos(lens, chr, pos) == (next, 0);
      assert ContigStart(lens, next) == ContigStart(lens, chr) + lens[chr];
    } else {
      assert IncrementPos(lens, chr, pos) == (chr, pos + 1);
    }
  }

  /** A contig the header reports as empty is not skipped: the unsigned
      comparison against `0 - 1` fails and the position is incremented on
      that contig. */
  lemma EmptyContigNotSkipped(lens: seq<I32>, chr: U16, pos: U32)
    requires chr < |lens| && lens[chr] == 0 && pos < 0xFFFF_FFFF
    ensures IncrementPos(lens, chr, pos) == (chr, pos + 1)
  {
  }
}
