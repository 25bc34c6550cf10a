/** Names of integer arrays: comparison ignoring case, and the hash that goes with it. */
module Names {

  /** The bytes of a C string, without the terminating zero. */
  type Name = seq<bv8>

  function ToLower(c: bv8): bv8 { if 65 <= c <= 90 then c + 32 else c }

  /** Two names are the same table name exactly when they fold to the same bytes (strcasecmp == 0). */
  function Fold(s: Name): (f: Name)
    ensures |f| == |s| && forall i :: 0 <= i < |s| ==> f[i] == ToLower(s[i])
  {
    seq(|s|, i requires 0 <= i < |s| => ToLower(s[i]))
  }

  predicate Same(s: Name, t: Name) { Fold(s) == Fold(t) }

  /** char is signed: a byte above 127 is sign-extended. */
  function Promote(c: bv8): bv32 { if c < 128 then c as bv32 else (c as bv32) | 0xFFFF_FF00 }

  function HashStep(h: bv32, c: bv8): bv32 { (h << 3) ^ h ^ Promote(ToLower(c)) }

  function HashFrom(h: bv32, s: Name): bv32
    decreases |s|
  {
    if s == [] then h else HashFrom(HashStep(h, s[0]), s[1..])
  }

  const DELETED: bv32 := 0xFFFF_FFFF

  function Finish(h: bv32): (r: bv32)
    ensures r != DELETED
  {
    if h == 0 then 1 else h & 0x7FFF_FFFF
  }

  function StrHash(s: Name): (r: bv32)
    ensures r != DELETED
  {
    Finish(HashFrom(0, s))
  }

  /** One byte is the other one's upper or lower case: "A" is 65, "Z" is 90, and the lower case is 32 higher. */
  predicate SameLetter(c: bv8, d: bv8) {
    c == d || (65 <= c <= 90 && d == c + 32) || (65 <= d <= 90 && c == d + 32)
  }

  /** Two names are the same exactly when they agree letter by letter, ignoring case. */
  lemma SameIgnoringCase(s: Name, t: Name)
    ensures Same(s, t) <==> |s| == |t| && forall i :: 0 <= i < |s| ==> SameLetter(s[i], t[i])
  {
    if |s| == |t| {
      forall i | 0 <= i < |s| ensures Fold(s)[i] == Fold(t)[i] <==> SameLetter(s[i], t[i]) {
        LowerMeets(s[i], t[i]);
      }
    }
  }

  lemma LowerMeets(c: bv8, d: bv8)
    ensures ToLower(c) == ToLower(d) <==> SameLetter(c, d)
  {
  }

  lemma LowerIsIdempotent(c: bv8)
    ensures ToLower(ToLower(c)) == ToLower(c)
  {
  }

  lemma {:induction false} HashOfFold(h: bv32, s: Name)
    ensures HashFrom(h, s) == HashFrom(h, Fold(s))
    decreases |s|
  {
    if s != [] {
      LowerIsIdempotent(s[0]);
      assert Fold(s)[1..] == Fold(s[1..]);
      HashOfFold(HashStep(h, s[0]), s[1..]);
    }
  }

  /** Names that differ only in case hash alike. */
  lemma SameHash(s: Name, t: Name)
    requires Same(s, t)
    ensures StrHash(s) == StrHash(t)
  {
    HashOfFold(0, s);
    HashOfFold(0, t);
  }

  /** Four values of the hash: the empty name, "a", "ab", and one byte above 127. */
  lemma HashSamples()
    ensures StrHash([]) == 1 && StrHash([97]) == 97 && StrHash([97, 98]) == 779 && StrHash([65, 66]) == 779
    ensures StrHash([0xE9]) == 0x7FFF_FFE9
  {
    assert HashFrom(0, [97, 98]) == HashFrom(97, [97, 98][1..]) == 779;
    assert HashFrom(0, [65, 66]) == HashFrom(97, [65, 66][1..]) == 779;
  }

  lemma {:induction false} HashSplit(h: bv32, s: Name, t: Name)
    ensures HashFrom(h, s + t) == HashFrom(HashFrom(h, s), t)
    decreases |s|
  {
    if s == [] {
      assert s + t == t;
    } else {
      assert (s + t)[1..] == s[1..] + t;
      HashSplit(HashStep(h, s[0]), s[1..], t);
    }
  }

  /** strHash. */
  method ComputeHash(s: Name) returns (r: bv32)
    ensures r == StrHash(s)
  {
    var h: bv32 := 0;
    var i := 0;
    while i < |s|
      invariant 0 <= i <= |s| && h == HashFrom(0, s[..i])
    {
      assert s[..i + 1] == s[..i] + [s[i]];
      HashSplit(0, s[..i], [s[i]]);
      h := HashStep(h, s[i]);
      i := i + 1;
    }
    assert s[..i] == s;
    r := if h == 0 then 1 else h & 0x7FFF_FFFF;
  }
}
