# walker core in Dafny

A model of the core of `walker`, a C++ library for walking the aligned reads of a BAM
file. For each read it reports where the read disagrees with the reference. The model
covers the following parts:

- **`nonref_pos`, the scanner.** It walks a read's CIGAR with three cursors (read
  offset, reference offset, joint read/reference offset). From that walk it produces
  one *event* for each mismatching column of an `M` run, and one event for each `S`,
  `D`, `N` or `I` run. An event holds:
  - the absolute reference position;
  - the read and joint offsets, each saturated at 0xFFFF;
  - a 16-bit CIGAR word, built by `PACK_CIG`, with a 2-bit operation code and a
    14-bit length clamped at 0x3FFF.
- **The base tables.** `pack_2bit` packs ASCII bases to 2-bit codes; the scanner
  compares bases through it. `nyb_to_2bit` packs BAM 4-bit codes.
- **The read filter and `EDz`.** `filter_read` skips unmapped, QC-fail, duplicate,
  secondary, supplementary and MAPQ-0 reads. `EDz` tests for edit distance zero.
- **The `walk()` loop.** It counts records, calls `print_status` every 100 000
  records, skips filtered reads, hands the rest to the user hook, and stops when the
  hook returns false.
- **`increment_pos`.** It steps a (contig, position) cursor.
- **`static_circbuf` and `pos_cache`.**
  - `static_circbuf` is a fixed array of `S` slots (default 1000) in which position
    `p` lives in slot `p % S`.
  - `pos_cache` is a direct-mapped cache built on that buffer. Each slot is tagged
    with the position it holds. A lookup hits only when the tag matches, and a later
    position that maps to the same slot evicts the earlier one.

Modules:

| file | module | contents |
|---|---|---|
| common.dfy | `Common` | fixed-width integer ranges, `Option`, `CLAMPH` |
| codec.dfy | `EventCodec` | `PACK_CIG`, offset saturation, the event record |
| cigar.dfy | `Cigar` | CIGAR operations, BAM codes, cursor movement |
| bases.dfy | `Bases` | `pack_2bit`, `nyb_to_2bit` |
| record.dfy | `BamRecord` | the read record, `filter_read`, `EDz` |
| scanner.dfy | `Scanner` | `nonref_pos` as a function and as the loop written in C++ |
| scanner_props.dfy | `ScannerProps` | soundness, completeness and order of the scanner's output |
| scenarios.dfy | `Scenarios` | worked reads, with the scanner's output for each proved |
| walk.dfy | `Walker` | `walk()`, the status cadence, `increment_pos` |
| circbuf.dfy | `CircularBuffer` | `static_circbuf` |
| poscache.dfy | `PositionCache` | `pileup`, `pos_cache` |

Two behaviours of the code worth knowing before reading the model:

- **Comparing ambiguous bases.** `pack_2bit` maps every byte other than `ACGTacgt`
  and `-` to 4, so when the scanner compares bases `N` equals `N` and `N` equals `R`.
  `Bases.Pack2BitEquality` states exactly when two bytes compare equal.
- **Buffer capacity.** The capacity `S` of `static_circbuf` is any positive number,
  defaulting to 1000, and position `p` lives in slot `p % S`. The model takes any
  positive capacity and sets `CircularBuffer.DefaultSize` to 1000.

## Model

| member | source | states |
|---|---|---|
| Common.Clamp | walker.cpp:7 | `CLAMPH` never exceeds `high`; it returns `x` exactly when `x <= high`, and `high` otherwise |
| EventCodec.Saturate16 | walker.cpp:98-99 | an offset stored in an event never exceeds the true offset. It equals the true offset exactly when that fits 16 bits, and otherwise it is 0xFFFF (it does not wrap) |
| EventCodec.Saturate16Monotone | walker.cpp:98-99 | saturation preserves the order of offsets |
| EventCodec.PackCig | walker.cpp:9 | the packed word's operation field gives back the code, and its length field gives back the length clamped at 0x3FFF |
| EventCodec.UnpackRepack | walker.cpp:9 | every 16-bit word is the packing of its own code and length, so unpacking and then packing is the identity |
| EventCodec.PackCigInjective | walker.cpp:9 | two packed words are equal if and only if their codes and their clamped lengths are equal |
| EventCodec.BitsAreArithmetic | walker.cpp:9 | on 16-bit words, the macro's shift/or equals multiply/add, and `>>14` and `&0x3FFF` equal division and remainder by 0x4000 |
| Cigar.RawType | walker.cpp:133 | an operation's BAM code indexes its letter in `MIDNSHP=X` |
| Cigar.RawTypeInjective | walker.cpp:133 | distinct operations have distinct BAM codes and distinct letters |
| Cigar.CursorRulesAgainstSam | walker.cpp:80-153 | the cursors follow SAM's query/reference consumption rules, except that `S` also moves the reference cursor, and `=`, `X`, `H` and `P` move nothing (the switch has no case for them) |
| Bases.Pack2Bit | walker.hpp:16-33 | every byte packs to a code of at most 5 |
| Bases.Pack2BitNucleotides | walker.hpp:16-33 | a byte packs below 4 if and only if it is a nucleotide letter in either case; A, C, G, T pack to 0 to 3, `-` packs to 5, and every other byte packs to 4 |
| Bases.Pack2BitCaseInsensitive | walker.hpp:21-24 | upper- and lower-case forms pack alike |
| Bases.Pack2BitEquality | walker.cpp:95 | the scanner sees two bases as equal if and only if they are the same nucleotide ignoring case, or both are `-`, or neither is a nucleotide or `-` |
| Bases.Nyb2Bit | walker.hpp:37-40 | every 4-bit code packs to a code of at most 4 |
| Bases.Nyb2BitAgreesWithPack2Bit | walker.hpp:37-40 | packing a 4-bit code directly gives the same result as decoding it to its letter and packing the letter with `pack_2bit` |
| BamRecord.FilterReadIff | walker.cpp:202-219 | a read is skipped if and only if it is unmapped, QC-fail, duplicate, secondary (0x100), supplementary (0x800) or MAPQ 0 |
| BamRecord.FilterRead | walker.cpp:202-219 | no contract of its own; characterised by `BamRecord.FilterReadIff` and `BamRecord.FilterEachConditionSuffices` |
| BamRecord.FilterEachConditionSuffices | walker.cpp:202-219 | each exclusion condition alone skips the read, whatever the other bits say |
| BamRecord.EDz | walker.cpp:38-41 | a missing NM tag counts as edit distance zero; otherwise the result is true exactly when NM is 0 |
| Scanner.Next | walker.cpp:80-153 | after a CIGAR element, the read cursor has moved by the length for `M`, `S` and `I`, the reference cursor for `M`, `S`, `D` and `N`, and the joint cursor for all of these |
| Scanner.MatchRun | walker.cpp:94-106 | no contract of its own; characterised by `ScannerProps.MatchRunSound`, `ScannerProps.MatchRunComplete`, `ScannerProps.MatchRunIncreasing` and `Scanner.MatchLoop` |
| Scanner.OpEvents | walker.cpp:80-152 | no contract of its own; characterised by `ScannerProps.RunEvent`, `ScannerProps.OpEventsSortedWithin` and `Scanner.OpStep` |
| Scanner.Scan | walker.cpp:80-153 | no contract of its own; characterised by `Scanner.ScanAt`, `ScannerProps.ScanSorted`, `ScannerProps.UnhandledAnywhere` and `Scanner.NonrefPosLoop` |
| Scanner.NonrefPos | walker.cpp:61 | a read that overhangs the contig start yields no events, whatever its CIGAR |
| Scanner.MatchLoop | walker.cpp:94-106 | the column loop of an `M` run produces exactly the run's events, and leaves every cursor advanced by the run length |
| Scanner.OpStep | walker.cpp:80-152 | one case of the switch produces exactly that element's events and the cursors after it |
| Scanner.NonrefPosLoop | walker.cpp:43-156 | the C++ loop over the CIGAR, with its mutable cursors, computes exactly the element-by-element scan |
| ScannerProps.MatchRunSound | walker.cpp:94-101 | every event of an `M` run belongs to a column of the run whose packed bases differ. It is recorded at that column's cursors and carries the word for a length-1 mismatch |
| ScannerProps.MatchRunComplete | walker.cpp:94-101 | every mismatching column of an `M` run is reported |
| ScannerProps.MatchRunIncreasing | walker.cpp:94-105 | an `M` run's events have strictly increasing reference positions, so no column is reported twice |
| ScannerProps.RunEvent | walker.cpp:113-151 | `S`, `D`, `N` and `I` each report exactly one event. It sits at the run's starting cursors, with the run's code (S as 3) and the clamped length. `H`, `P`, `=` and `X` report nothing and move no cursor |
| ScannerProps.SoftClipLooksLikeSkip | walker.cpp:44-52 | a soft clip and a skip of the same length at the same cursors produce the same event |
| ScannerProps.MatchRunSortedWithin | walker.cpp:94-106 | an `M` run's events are ordered on all three axes and lie between the run's first and last cursors |
| ScannerProps.OpEventsSortedWithin | walker.cpp:80-152 | one element's events are ordered and lie between the cursors before and after that element |
| ScannerProps.ScanSorted | walker.cpp:80-153 | a scan's events are ordered on reference position, read offset and joint offset, and none lies before the starting cursor |
| ScannerProps.NonrefPosSorted | walker.cpp:43-156 | a read's output never goes backwards on any of the three axes |
| ScannerProps.UnhandledOpIgnored | walker.cpp:80-153 | dropping an `H`, `P`, `=` or `X` element at the head of a scan, from any cursor, does not change the output |
| ScannerProps.UnhandledAnywhere | walker.cpp:80-153 | dropping an `H`, `P`, `=` or `X` element at any index of the CIGAR, from any cursor, does not change the output |
| Scenarios.SingleMismatch | walker.cpp:84-107 | `5M` at 100 over reference `ACGTA` and read `ACGAA` gives one mismatch event, at 103, with offsets 3 |
| Scenarios.SoftClipThen | walker.cpp:113-124 | a CIGAR that opens with a soft clip of `n` reports the clip at the origin, then whatever the rest reports from `n` columns on |
| Scenarios.SequenceMatchOpsReportNothing | walker.cpp:80-153 | `3=1X1=` reports nothing, even with a mismatching base under the `X` |
| Scenarios.ClipMatchDeleteMatch | walker.cpp:43-156 | `3S4M2D3M` at 100 gives four events, at strictly increasing reference positions: the clip, the `4M` mismatch, the deletion, and the `3M` mismatch |
| Walker.Walk | walker.cpp:161-173 | the counter advances once per record pulled. The walk pulls the whole stream unless the hook stops it, and it stops only after handing at least one read to the hook |
| Walker.WalkHooksKeptReads | walker.cpp:168-171 | the hook sees exactly the unfiltered reads among those pulled, in stream order |
| Walker.WalkStopsAtFirstRejection | walker.cpp:171 | the walk stops right after the first unfiltered read the hook rejects. If it reached the end of the stream, no read was rejected |
| Walker.WalkStatusCadence | walker.cpp:164-165 | `print_status` is called exactly at the counter values of the walk that are multiples of 100 000, in increasing order |
| Walker.QuarterMillionReads | walker.cpp:221-225 | 250 000 reads give status calls at 0, 100 000 and 200 000. Only the last two print, because the call at 0 just starts the clock |
| Walker.Turn | walker.cpp:164-171 | one pass of the loop keeps its invariant: the trace so far, followed by the walk of the records not yet pulled, is the whole walk. On the `break`, the trace so far is the whole walk, and the counter has advanced by one either way |
| Walker.WalkLoop | walker.cpp:161-173 | the `while` loop over the stream, leaving at the `break`, computes exactly the walk's trace |
| Walker.ToU32 | walker.cpp:196 | converting a signed value for the unsigned comparison keeps a value already in range, and adds 2^32 to a negative one |
| Walker.IncrementPos | walker.cpp:194-200 | the cursor either advances by one within its contig or moves to position 0 of the next contig (16-bit index); `Walker.IncrementPosSuccessor` and `Walker.IncrementPosIsNextBase` say which |
| Walker.IncrementPosSuccessor | walker.cpp:194-200 | within a non-empty contig the position advances by one; after the contig's last base the cursor moves to position 0 of the next contig |
| Walker.IncrementPosIsNextBase | walker.cpp:194-200 | on a genome of non-empty contigs, stepping from any base but the last reaches a valid base, and that base is exactly the next one in the concatenated genome |
| Walker.EmptyContigNotSkipped | walker.cpp:196 | on a contig of length 0 the unsigned comparison against `0 - 1` never fires, so the cursor stays on that contig |
| CircularBuffer.New | circbuf.hpp:37 | a fresh buffer has the requested capacity, and every position reads the default value |
| CircularBuffer.At | circbuf.hpp:25-27 | no contract of its own; characterised by `CircularBuffer.New`, `CircularBuffer.Insert` and `CircularBuffer.Del` |
| CircularBuffer.Insert | circbuf.hpp:29-31 | every position of the written slot reads the new value; every other position and slot keeps its value; capacity is unchanged |
| CircularBuffer.Del | circbuf.hpp:33-35 | the slot reads the default value again; every other slot and the capacity are unchanged |
| CircularBuffer.LastInsertWins | circbuf.hpp:29-31 | a later insert into the same slot completely hides an earlier one |
| CircularBuffer.InsertsCommute | circbuf.hpp:29-31 | inserts into different slots commute |
| CircularBuffer.DelIsInsertZero | circbuf.hpp:33-35 | deleting is the same as inserting the default value |
| PositionCache.Insert | poscache.hpp:21-23 | after an insert the cache contains the position, and `at` returns the stored value |
| PositionCache.Contains | poscache.hpp:17-19 | no contract of its own; characterised by `PositionCache.InsertLookup`, `PositionCache.SharedSlotExclusive` and `PositionCache.NewCacheHoldsOnlyZero` |
| PositionCache.At | poscache.hpp:25-27 | when the cache contains the position, `at` returns what the cache maps it to |
| PositionCache.Del | circbuf.hpp:33-35 | after a delete the cache contains the position if and only if it is 0 (the default tag) |
| PositionCache.StaleRead | poscache.hpp:25-27 | `at` does not check the tag. Positions sharing a slot read the same contents, so after an insert a colliding position the cache does not contain still reads the inserted value |
| PositionCache.SetAt | poscache.hpp:25-27 | a write through the reference `at` returns puts the value in the slot without touching its tag: which positions the cache contains does not change, `at` of that position reads the value, and on a contained position it is the same as `insert` |
| PositionCache.SetAtMissOverwritesOwner | poscache.hpp:25-27 | a write through `at(q)` when the cache does not contain `q` replaces the contents of the position that holds the slot, and `q` stays a miss |
| PositionCache.DefaultCacheEvicts | circbuf.hpp:22-31 | in a cache of the default 1000 slots, inserting position `p + 1000` evicts `p` |
| PositionCache.InsertLookup | poscache.hpp:17-23 | read as a partial map, an insert binds its own position, evicts every other position of the same slot, and leaves every other slot as it was |
| PositionCache.InsertAllLookup | poscache.hpp:17-27 | after any run of inserts, a lookup is decided by the last insert into that slot: a hit exactly when it was for the same position, and the earlier state when no insert touched the slot |
| PositionCache.NewCacheHoldsOnlyZero | poscache.hpp:8-12 | a fresh cache contains only position 0, with the default contents, because an empty slot's tag cannot be told apart from a real position 0 |
| PositionCache.DelFrame | circbuf.hpp:33-35 | a delete leaves the lookups of other slots unchanged |
| PositionCache.SharedSlotExclusive | poscache.hpp:17-19 | two positions that share a slot are never both contained |

## Left out

- The walker constructor, destructor and output-file handling (`set_output_file`, `close_output_file`). These only open and close files.
- The BAM reader and the reference index are not modelled. The record stream is a sequence; the hook is a function parameter; the reference slice `ror` is a parameter.
- The `walk(region)` overloads. They only set a region on the reader before the same loop, or exit.
- The body of `print_status`. It reads a clock and prints rates. The model records the counter values at which it is called and, through `Walker.Reports`, which of those calls print.
- The `n_reads_proc` counters. Nothing in the core files changes them.
- Argument parsing is not part of this model.
- The references that `at` returns are modelled as one read (`At`) or one write through them (`PositionCache.SetAt`). A reference held across later calls, which would alias whatever the slot then holds, is not modelled.
- Scanner.NonrefPos: it requires the whole CIGAR's read and reference spans, counting `S`, `D`, `N` and `I` runs as well as `M` runs, to fit the read's bases and the reference slice. Only the `M` runs index the strings, unchecked, where reading past the end is undefined behaviour and cannot be modelled. The `S`, `D`, `N` and `I` cases read no base, so the requires also rules out inputs the C++ handles with defined behaviour: a trailing `S`, `D`, `N` or `I` run that reaches past the end of either string, such as `2M3S` over a 5-base read and a 2-base slice. The model says nothing about those reads.
- Scanner.NonrefPos: the event's reference position is an unbounded integer. The header declares `nonref_pos` as returning `uint64_t` words, while walker.cpp returns a record type whose declaration is not part of this model.
- Scanner.NonrefPos: the read, reference and joint cursors are unbounded. The C++ keeps them in `int`, which would overflow only past 2^31 bases.
- Bases.Pack2Bit: bytes are taken as unsigned. The C++ indexes the table with plain `char`, which is signed on common platforms, so a byte of 128 or more would read before the table.
- EventCodec.PackCig: it requires a code below 4. The scanner only passes 0 to 3, and a larger code would overflow the 16-bit word in the C++.
- Walker.Walk: the record counter is unbounded. Its declaration is not part of this model, so wrap-around is not modelled.
- Walker.IncrementPos: contig lengths are signed 32-bit and the comparison is unsigned, as in the C++. The case where a length is -2^31 and `len - 1` overflows is not modelled separately. There, `ToU32` takes the mathematical difference modulo 2^32.
- `increment_pos` does not check that the contig index stays in range (the C++ says so in a comment). The model requires the index to name a contig and wraps the 16-bit increment.
- Nothing tells a soft clip (code 3) apart from a reference skip (code 3) in an event. The C++ relies on clips occurring only at the ends of a CIGAR, and the model does not check that CIGARs have this shape. `ScannerProps.SoftClipLooksLikeSkip` states the collision.
