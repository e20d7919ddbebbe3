/** `static_circbuf<T, S>`: a fixed array of `S` slots in which position
    `pos` lives in slot `pos % S`. The modulus is a plain remainder, so `S`
    need not be a power of two. */
module CircularBuffer {
  import opened Common

  /** The default number of slots. */
  const DefaultSize: nat := 1000

  /** The slots of a buffer; the capacity `S` is the number of slots. */
  datatype CircBuf<T> = CircBuf(slots: seq<T>)

  /** The slot position `pos` maps to. */
  function Slot<T>(b: CircBuf<T>, pos: U64): (i: nat)
    requires |b.slots| > 0
    ensures i < |b.slots|
  {
    pos % |b.slots|
  }

  /** The buffer as constructed: every slot holds the value-initialised `zero`. */
  function New<T>(size: nat, zero: T): (b: CircBuf<T>)
    requires size > 0
    ensures |b.slots| == size
    ensures forall pos: U64 :: At(b, pos) == zero
  {
    CircBuf(seq(size, _ => zero))
  }

  /** `at(pos)`: the value in position `pos`'s slot. */
  function At<T>(b: CircBuf<T>, pos: U64): T
    requires |b.slots| > 0
  {
    b.slots[Slot(b, pos)]
  }

  /** `insert(pos, val)`: overwrite position `pos`'s slot. Every position
      sharing the slot now reads `val`; every other slot is untouched; the
      capacity does not change. */
  function Insert<T>(b: CircBuf<T>, pos: U64, val: T): (b': CircBuf<T>)
    requires |b.slots| > 0
    ensures |b'.slots| == |b.slots|
    ensures forall q: U64 :: q % |b.slots| == pos % |b.slots| ==> At(b', q) == val
    ensures forall q: U64 :: q % |b.slots| != pos % |b.slots| ==> At(b', q) == At(b, q)
    ensures forall i :: 0 <= i < |b.slots| && i != Slot(b, pos) ==> b'.slots[i] == b.slots[i]
  {
    CircBuf(b.slots[Slot(b, pos) := val])
  }

  /** `del(pos)`: reset position `pos`'s slot to the value-initialised
      `zero`, leaving every other slot and the capacity as they were. */
  function Del<T>(b: CircBuf<T>, pos: U64, zero: T): (b': CircBuf<T>)
    requires |b.slots| > 0
    ensures |b'.slots| == |b.slots|
    ensures At(b', pos) == zero
    ensures forall i :: 0 <= i < |b.slots| && i != Slot(b, pos) ==> b'.slots[i] == b.slots[i]
  {
    CircBuf(b.slots[Slot(b, pos) := zero])
  }

  /** A later insert into the same slot hides an earlier one completely. */
  lemma LastInsertWins<T>(b: CircBuf<T>, p: U64, v: T, q: U64, w: T)
    requires |b.slots| > 0 && p % |b.slots| == q % |b.slots|
    ensures Insert(Insert(b, p, v), q, w) == Insert(b, q, w)
  {
  }

  /** Inserts into different slots commute. */
  lemma InsertsCommute<T>(b: CircBuf<T>, p: U64, v: T, q: U64, w: T)
    requires |b.slots| > 0 && p % |b.slots| != q % |b.slots|
    ensures Insert(Insert(b, p, v), q, w) == Insert(Insert(b, q, w), p, v)
  {
    assert Insert(Insert(b, p, v), q, w).slots == Insert(Insert(b, q, w), p, v).slots;
  }

  /** Deleting is inserting the default value. */
  lemma DelIsInsertZero<T>(b: CircBuf<T>, pos: U64, zero: T)
    requires |b.slots| > 0
    ensures Del(b, pos, zero) == Insert(b, pos, zero)
  {
  }
}
