/** The hash functions of codes/quickhash.h on machine words. */
module HashFunctions {

  // `hash & (table_size - 1)`, the last step of all of them.
  function Masked(h: bv32, tableSize: bv32): bv32 {
    h & (tableSize - 1)
  }

  // The place is one of the table, whatever the size, a power of two or not.
  lemma MaskedInRange(h: bv32, tableSize: bv32)
    requires tableSize >= 1
    ensures Masked(h, tableSize) < tableSize
  {
    AndBelow(h, tableSize - 1);
    NextBack(tableSize);
  }

  lemma AndBelow(h: bv32, m: bv32)
    ensures m != 0xFFFF_FFFF ==> h & m < m + 1
  {
  }

  lemma NextBack(n: bv32)
    requires n >= 1
    ensures n - 1 != 0xFFFF_FFFF && (n - 1) + 1 == n
  {
  }

  // One turn of quickhash_string_hash; c is the character as it is added.
  function Mix(h: bv32, c: bv32): bv32 {
    var x := (h << 4) + c;
    var g := x & 0xF0;
    if g != 0 then (x ^ (g >> 24)) ^ g else x
  }

  function StringHash(s: seq<bv32>): bv32 {
    if s == [] then 0 else Mix(StringHash(s[..|s| - 1]), s[|s| - 1])
  }

  // The body of its loop.
  method MixIn(h0: bv32, c: bv32) returns (h: bv32)
    ensures h == Mix(h0, c)
  {
    h := (h0 << 4) + c;
    var g := h & 0xF0;
    if g != 0 {
      h := h ^ (g >> 24);
      h := h ^ g;
    }
  }

  method HashString(s: seq<bv32>) returns (h: bv32)
    ensures h == StringHash(s)
  {
    h := 0;
    for i := 0 to |s|
      invariant h == StringHash(s[..i])
    {
      HashNext(s, i);
      h := MixIn(h, s[i]);
    }
    assert s[..|s|] == s;
  }

  lemma HashNext(s: seq<bv32>, i: nat)
    requires i < |s|
    ensures StringHash([]) == 0 && StringHash(s[..i + 1]) == Mix(StringHash(s[..i]), s[i])
  {
    assert s[..i + 1][..i] == s[..i];
  }

  lemma MixLowByte(h: bv32, c: bv32)
    ensures Mix(h, c) & 0xFF == c & 0xF
  {
  }

  // What one turn does: the character is added to the digits of the hash in base sixteen,
  // moved up by one place, and then the second digit is cleared; the shift of the test
  // bits by 24 never has an effect.
  lemma MixExact(h: bv32, c: bv32)
    ensures Mix(h, c) == ((h << 4) + c) & 0xFFFF_FF0F
    ensures (((h << 4) + c) & 0xF0) >> 24 == 0
  {
    AllButSecond((h << 4) + c);
  }

  lemma AllButSecond(x: bv32)
    ensures (x & 0xF0) >> 24 == 0 && x ^ (x & 0xF0) == x & 0xFFFF_FF0F
  {
  }

  // The test mask 0xF0 clears the second nibble at every character: for a table of up to
  // 256 places only the last character decides, and only by its lowest four bits.
  lemma LastCharacterDecides(s: seq<bv32>, tableSize: bv32)
    requires s != [] && 1 <= tableSize <= 256
    ensures Masked(StringHash(s), tableSize) == Masked(s[|s| - 1] & 0xF, tableSize)
  {
    MixLowByte(StringHash(s[..|s| - 1]), s[|s| - 1]);
    LowByte(StringHash(s), s[|s| - 1] & 0xF, tableSize);
  }

  lemma LowByte(x: bv32, y: bv32, tableSize: bv32)
    requires x & 0xFF == y & 0xFF && 1 <= tableSize <= 256
    ensures Masked(x, tableSize) == Masked(y, tableSize)
  {
    assert tableSize - 1 <= 255;
    assert (tableSize - 1) & 0xFF == tableSize - 1;
    assert x & (tableSize - 1) == (x & 0xFF) & (tableSize - 1);
    assert y & (tableSize - 1) == (y & 0xFF) & (tableSize - 1);
  }
}
