/** One 4-bit field of a 32-bit word, addressed by its shift. */
module Words {

  predicate FieldShift(s: bv6) { s <= 28 && s & 3 == 0 }

  function Field(word: bv32, s: bv6): (q: bv32)
    requires FieldShift(s)
    ensures q <= 15
  {
    (word >> s) & 0xF
  }

  function WithField(word: bv32, s: bv6, q: bv32): bv32
    requires FieldShift(s)
  {
    (word & !((0xF as bv32) << s)) | (q << s)
  }

  /** Writing a field leaves the new value there and every other field as it was. */
  lemma FieldWritten(word: bv32, s: bv6, q: bv32, t: bv6)
    requires FieldShift(s) && FieldShift(t) && q <= 15
    ensures Field(WithField(word, s, q), t) == if s == t then q else Field(word, t)
  {
  }

  lemma ZeroFields(s: bv6)
    requires FieldShift(s)
    ensures Field(0, s) == 0
  {
  }
}

/** Eight 4-bit codes to a 32-bit word, low nibble first: code i sits in word i/8, bits 4(i%8) up. */
module Nibbles {
  import opened Words

  function Shift(i: nat): (s: bv6)
    ensures FieldShift(s)
    ensures s as int == 4 * (i % 8)
  {
    (4 * (i % 8)) as bv6
  }

  /** The code at index i of a packed array. */
  function Int4Nibble(packed: seq<bv32>, i: nat): (q: bv32)
    requires i / 8 < |packed|
    ensures q <= 15
  {
    Field(packed[i / 8], Shift(i))
  }

  /** Writes one code in place: its own nibble reads back as the code, every other one as before. */
  method SetNibble(packed: array<bv32>, i: nat, q: bv32)
    requires i / 8 < packed.Length && q <= 15
    modifies packed
    ensures Int4Nibble(packed[..], i) == q
    ensures forall j: nat :: j / 8 < packed.Length && j != i ==>
            Int4Nibble(packed[..], j) == old(Int4Nibble(packed[..], j))
  {
    ghost var was := packed[..];
    packed[i / 8] := WithField(packed[i / 8], Shift(i), q);
    forall j: nat | j / 8 < packed.Length
      ensures Int4Nibble(packed[..], j) == if j == i then q else Int4Nibble(was, j)
    {
      NibbleWritten(was[i / 8], i, q, j);
      assert i % 8 == j % 8 && i / 8 == j / 8 ==> i == j;
    }
  }

  lemma NibbleWritten(word: bv32, i: nat, q: bv32, j: nat)
    requires q <= 15
    ensures Field(WithField(word, Shift(i), q), Shift(j)) == if i % 8 == j % 8 then q else Field(word, Shift(j))
  {
    FieldWritten(word, Shift(i), q, Shift(j));
    ShiftsDiffer(i, j);
  }

  /** Different indices of one word have different shifts. */
  lemma ShiftsDiffer(i: nat, j: nat)
    ensures Shift(i) == Shift(j) <==> i % 8 == j % 8
  {
    assert (Shift(i) as int) == 4 * (i % 8);
    assert (Shift(j) as int) == 4 * (j % 8);
  }
}
