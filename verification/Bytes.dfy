/** Byte strings and the small helpers that several components share. */
module Bytes {

  type Byte = b: int | 0 <= b < 256
  type Bytes = seq<Byte>

  datatype Option<+T> = None | Some(value: T)

  function Min(a: int, b: int): int {
    if a <= b then a else b
  }

  function Max(a: int, b: int): int {
    if a >= b then a else b
  }

  /** The concatenation of a list of chunks. */
  function Concat(chunks: seq<Bytes>): Bytes {
    if chunks == [] then [] else chunks[0] + Concat(chunks[1..])
  }

  lemma {:induction false} ConcatAppend(chunks: seq<Bytes>, last: Bytes)
    ensures Concat(chunks + [last]) == Concat(chunks) + last
  {
    if chunks == [] {
      assert Concat([last]) == last + Concat([]);
    } else {
      assert (chunks + [last])[1..] == chunks[1..] + [last];
      ConcatAppend(chunks[1..], last);
    }
  }

  /** `part` is what `whole` holds from `offset` on. */
  predicate SliceAt(whole: Bytes, offset: nat, part: Bytes) {
    offset + |part| <= |whole| && part == whole[offset..offset + |part|]
  }

  lemma SliceOfLonger(whole: Bytes, longer: Bytes, offset: nat, part: Bytes)
    requires SliceAt(whole, offset, part) && whole <= longer
    ensures SliceAt(longer, offset, part)
  {
    assert longer[..|whole|] == whole;
  }
}
