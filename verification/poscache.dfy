/** `pos_cache<T>`: a direct-mapped cache of per-position pileups on top
    of the circular buffer, which the C++ instantiates with its default of
    `CircularBuffer.DefaultSize` slots. Each slot holds a `pileup`, i.e. the position it
    was filled for and the contents. A lookup is a hit only when the stored
    position equals the one asked for, so a later position that maps to
    the same slot evicts the earlier one. */
module PositionCache {
  import opened Common
  import CircularBuffer

  /** `pileup<T>`: a tagged slot. */
  datatype Pileup<T> = Pileup(pos: U64, contents: T)

  type PosCache<T> = CircularBuffer.CircBuf<Pileup<T>>

  /** The value-initialised pileup: position 0 and default contents. */
  function Empty<T>(zero: T): Pileup<T> { Pileup(0, zero) }

  /** A freshly constructed cache. */
  function NewCache<T>(size: nat, zero: T): (c: PosCache<T>)
    requires size > 0
    ensures |c.slots| == size
  {
    CircularBuffer.New(size, Empty(zero))
  }

  /** `contains(pos)`: the slot for `pos` was last filled for `pos` itself. */
  predicate Contains<T>(c: PosCache<T>, pos: U64)
    requires |c.slots| > 0
  {
    CircularBuffer.At(c, pos).pos == pos
  }

  /** `insert(pos, val)`: store `val` tagged with `pos`. */
  function Insert<T>(c: PosCache<T>, pos: U64, val: T): (c': PosCache<T>)
    requires |c.slots| > 0
    ensures |c'.slots| == |c.slots|
    ensures Contains(c', pos) && At(c', pos) == val
  {
    CircularBuffer.Insert(c, pos, Pileup(pos, val))
  }

  /** `at(pos)`: the contents of `pos`'s slot, whether or not the tag
      matches; the caller is expected to ask `contains` first. */
  function At<T>(c: PosCache<T>, pos: U64): (val: T)
    requires |c.slots| > 0
    ensures Contains(c, pos) ==> Lookup(c, pos) == Some(val)
  {
    CircularBuffer.At(c, pos).contents
  }

  /** The inherited `del(pos)`: reset the slot to the empty pileup. */
  function Del<T>(c: PosCache<T>, pos: U64, zero: T): (c': PosCache<T>)
    requires |c.slots| > 0
    ensures |c'.slots| == |c.slots|
    ensures Contains(c', pos) <==> pos == 0
  {
    CircularBuffer.Del(c, pos, Empty(zero))
  }

  /** The cache read as a partial map: a hit gives the contents, a miss
      gives nothing. */
  function Lookup<T>(c: PosCache<T>, pos: U64): Option<T>
    requires |c.slots| > 0
  {
    var p := CircularBuffer.At(c, pos);
    if p.pos == pos then Some(p.contents) else None
  }

  /** As a partial map, `insert` binds `pos`, evicts every other position
      of the same slot, and leaves every other slot's binding as it was. */
  lemma InsertLookup<T>(c: PosCache<T>, pos: U64, val: T, q: U64)
    requires |c.slots| > 0
    ensures q == pos ==> Lookup(Insert(c, pos, val), q) == Some(val)
    ensures q != pos && q % |c.slots| == pos % |c.slots| ==> Lookup(Insert(c, pos, val), q) == None
    ensures q % |c.slots| != pos % |c.slots| ==> Lookup(Insert(c, pos, val), q) == Lookup(c, q)
  {
  }

  /** A fresh cache holds only position 0, with the default contents: the
      tag of an unfilled slot is indistinguishable from a real position 0. */
  lemma NewCacheHoldsOnlyZero<T>(size: nat, zero: T, pos: U64)
    requires size > 0
    ensures Contains(NewCache(size, zero), pos) <==> pos == 0
    ensures Lookup(NewCache(size, zero), pos) == if pos == 0 then Some(zero) else None
  {
  }

  /** `del` affects only its own slot. */
  lemma DelFrame<T>(c: PosCache<T>, pos: U64, zero: T, q: U64)
    requires |c.slots| > 0 && q % |c.slots| != pos % |c.slots|
    ensures Lookup(Del(c, pos, zero), q) == Lookup(c, q)
  {
  }

  /** Two positions sharing a slot are never both present. */
  lemma SharedSlotExclusive<T>(c: PosCache<T>, p: U64, q: U64)
    requires |c.slots| > 0 && p != q && p % |c.slots| == q % |c.slots|
    ensures !(Contains(c, p) && Contains(c, q))
  {
  }

  /** `at` does not check the tag: positions sharing a slot read the same
      contents, so after an insert a colliding position that the cache does
      not contain still reads the inserted value. */
  lemma StaleRead<T>(c: PosCache<T>, pos: U64, val: T, q: U64)
    requires |c.slots| > 0 && q % |c.slots| == pos % |c.slots|
    ensures At(c, q) == At(c, pos)
    ensures At(Insert(c, pos, val), q) == val
    ensures q != pos ==> !Contains(Insert(c, pos, val), q)
  {
  }

  /** Writing through the reference that `at(pos)` returns: the slot's
      contents change and its tag stays, whichever position it holds. */
  function SetAt<T>(c: PosCache<T>, pos: U64, val: T): (c': PosCache<T>)
    requires |c.slots| > 0
    ensures |c'.slots| == |c.slots|
    ensures forall q: U64 :: Contains(c', q) <==> Contains(c, q)
    ensures At(c', pos) == val
    ensures Contains(c, pos) ==> c' == Insert(c, pos, val)
  {
    CircularBuffer.Insert(c, pos, Pileup(CircularBuffer.At(c, pos).pos, val))
  }

  /** A write through `at(q)` for a position the cache does not contain
      lands in the pileup of the position that does hold the slot: that
      position now maps to the written value, and `q` is still a miss. */
  lemma SetAtMissOverwritesOwner<T>(c: PosCache<T>, q: U64, val: T, owner: U64)
    requires |c.slots| > 0 && !Contains(c, q)
    requires Contains(c, owner) && owner % |c.slots| == q % |c.slots|
    ensures Lookup(SetAt(c, q, val), owner) == Some(val)
    ensures Lookup(SetAt(c, q, val), q) == None
  {
  }

  /** In a cache of the default size, positions `DefaultSize` apart share
      a slot, so inserting the later one evicts the earlier one. */
  lemma DefaultCacheEvicts<T>(zero: T, p: U64, v: T, w: T)
    requires p + CircularBuffer.DefaultSize < 0x1_0000_0000_0000_0000
    ensures var c := Insert(Insert(NewCache(CircularBuffer.DefaultSize, zero), p, v),
                            p + CircularBuffer.DefaultSize, w);
            Lookup(c, p) == None && Lookup(c, p + CircularBuffer.DefaultSize) == Some(w)
  {
  }

  /** A run of `insert` calls, in order. */
  function InsertAll<T>(c: PosCache<T>, writes: seq<(U64, T)>): (c': PosCache<T>)
    requires |c.slots| > 0
    ensures |c'.slots| == |c.slots|
    decreases |writes|
  {
    if |writes| == 0 then c
    else
      var last := writes[|writes| - 1];
      Insert(InsertAll(c, writes[..|writes| - 1]), last.0, last.1)
  }

  /** The last of `writes` that went to the slot of `q` in a cache of
      `size` slots, if any. */
  function LastWrite<T>(writes: seq<(U64, T)>, size: nat, q: U64): Option<(U64, T)>
    requires size > 0
    decreases |writes|
  {
    if |writes| == 0 then None
    else if writes[|writes| - 1].0 % size == q % size then Some(writes[|writes| - 1])
    else LastWrite(writes[..|writes| - 1], size, q)
  }

  /** After a run of inserts, a lookup is decided by the last insert into
      the slot asked about: a hit exactly when that insert was for the same
      position, and the cache's earlier state when no insert touched the
      slot. */
  lemma {:induction false} InsertAllLookup<T>(c: PosCache<T>, writes: seq<(U64, T)>, q: U64)
    requires |c.slots| > 0
    ensures Lookup(InsertAll(c, writes), q) ==
      match LastWrite(writes, |c.slots|, q)
      case None => Lookup(c, q)
      case Some(w) => if w.0 == q then Some(w.1) else None
    decreases |writes|
  {
    if |writes| > 0 {
      var prefix := writes[..|writes| - 1];
      var last := writes[|writes| - 1];
      InsertAllLookup(c, prefix, q);
      InsertLookup(InsertAll(c, prefix), last.0, last.1, q);
    }
  }
}
