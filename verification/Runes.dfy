/** A Go loop over the code points of a string. */
module Runes {
  import opened GoBytes

  const REPLACEMENT := 0xFFFD

  predicate Continues(s: Bytes, i: nat) {
    i < |s| && 0x80 <= s[i] <= 0xBF
  }

  /** The two-byte code point that `s` starts with. */
  predicate StartsTwo(s: Bytes) {
    |s| >= 2 && 0xC2 <= s[0] <= 0xDF && Continues(s, 1)
  }

  /** The three-byte code point; overlong forms and surrogates are none. */
  predicate StartsThree(s: Bytes) {
    && |s| >= 3 && 0xE0 <= s[0] <= 0xEF && Continues(s, 1) && Continues(s, 2)
    && (s[0] == 0xE0 ==> s[1] >= 0xA0) && (s[0] == 0xED ==> s[1] <= 0x9F)
  }

  /** The four-byte code point; overlong forms and those beyond U+10FFFF are none. */
  predicate StartsFour(s: Bytes) {
    && |s| >= 4 && 0xF0 <= s[0] <= 0xF4 && Continues(s, 1) && Continues(s, 2) && Continues(s, 3)
    && (s[0] == 0xF0 ==> s[1] >= 0x90) && (s[0] == 0xF4 ==> s[1] <= 0x8F)
  }

  /** How many bytes the first code point takes; a byte that starts none counts alone. */
  function Width(s: Bytes): (w: nat)
    requires s != []
    ensures 1 <= w <= |s|
  {
    if StartsTwo(s) then 2 else if StartsThree(s) then 3 else if StartsFour(s) then 4 else 1
  }

  /** The first code point. */
  function Rune(s: Bytes): (r: int)
    requires s != []
    ensures 0 <= r < 0x11_0000
    ensures s[0] < 0x80 ==> r == s[0] as int && Width(s) == 1
  {
    if StartsTwo(s) then (s[0] as int - 0xC0) * 0x40 + (s[1] as int - 0x80)
    else if StartsThree(s) then
      ((s[0] as int - 0xE0) * 0x40 + (s[1] as int - 0x80)) * 0x40 + (s[2] as int - 0x80)
    else if StartsFour(s) then
      (((s[0] as int - 0xF0) * 0x40 + (s[1] as int - 0x80)) * 0x40 + (s[2] as int - 0x80)) * 0x40
      + (s[3] as int - 0x80)
    else if s[0] < 0x80 then s[0] as int
    else REPLACEMENT
  }

  /** The first code point cut down to its low byte, as a conversion to byte does. */
  function LowByte(s: Bytes): (b: byte)
    requires s != []
    ensures s[0] < 0x80 ==> b == s[0]
  {
    (Rune(s) % 256) as byte
  }

  function LowBytes(s: Bytes): (b: Bytes)
    ensures |b| <= |s|
  {
    if s == [] then [] else [LowByte(s)] + LowBytes(s[Width(s)..])
  }

  lemma {:induction false} AsciiIsItself(s: Bytes)
    requires forall i :: 0 <= i < |s| ==> s[i] < 0x80
    ensures LowBytes(s) == s
  {
    if s != [] {
      assert Width(s) == 1;
      AsciiIsItself(s[1..]);
      assert [s[0]] + s[1..] == s;
    }
  }

  // ---- what a code point is --------------------------------------------------------------------------

  /** A code point that has a UTF-8 form: the surrogates have none. */
  predicate IsScalar(r: int) {
    0 <= r < 0xD800 || 0xE000 <= r < 0x11_0000
  }

  /** The UTF-8 form of a code point. */
  function Utf8(r: int): (b: Bytes)
    requires IsScalar(r)
  {
    if r < 0x80 then [r as byte]
    else if r < 0x800 then [(0xC0 + r / 0x40) as byte, (0x80 + r % 0x40) as byte]
    else if r < 0x1_0000 then
      [(0xE0 + r / 0x1000) as byte, (0x80 + r / 0x40 % 0x40) as byte, (0x80 + r % 0x40) as byte]
    else
      [(0xF0 + r / 0x4_0000) as byte, (0x80 + r / 0x1000 % 0x40) as byte, (0x80 + r / 0x40 % 0x40) as byte,
       (0x80 + r % 0x40) as byte]
  }

  /** A number in parts of six bits, and back. */
  lemma Parts(r: nat)
    ensures r == r / 0x40 * 0x40 + r % 0x40
    ensures r == (r / 0x1000 * 0x40 + r / 0x40 % 0x40) * 0x40 + r % 0x40
    ensures r == ((r / 0x4_0000 * 0x40 + r / 0x1000 % 0x40) * 0x40 + r / 0x40 % 0x40) * 0x40 + r % 0x40
  {
    var q := r / 0x40;
    var p := q / 0x40;
    Nested(r);
    assert q == p * 0x40 + q % 0x40;
    assert p == p / 0x40 * 0x40 + p % 0x40;
  }

  lemma Nested(r: nat)
    ensures r / 0x1000 == r / 0x40 / 0x40 && r / 0x4_0000 == r / 0x40 / 0x40 / 0x40
  {
  }

  lemma PartsOf(a: nat, b: nat, c: nat, d: nat)
    requires b < 0x40 && c < 0x40 && d < 0x40
    ensures var r := a * 0x40 + b; r / 0x40 == a && r % 0x40 == b
    ensures var r := (a * 0x40 + b) * 0x40 + c; r / 0x1000 == a && r / 0x40 % 0x40 == b && r % 0x40 == c
    ensures var r := ((a * 0x40 + b) * 0x40 + c) * 0x40 + d;
            r / 0x4_0000 == a && r / 0x1000 % 0x40 == b && r / 0x40 % 0x40 == c && r % 0x40 == d
  {
  }

  /** Reading undoes writing, whatever follows. */
  lemma ReadsWhatIsWritten(r: int, tail: Bytes)
    requires IsScalar(r)
    ensures Rune(Utf8(r) + tail) == r && Width(Utf8(r) + tail) == |Utf8(r)|
  {
    Parts(r);
    if r < 0x80 {
    } else if r < 0x800 {
      ReadsTwo(r, Utf8(r) + tail);
    } else if r < 0x1_0000 {
      ReadsThree(r, Utf8(r) + tail);
    } else {
      ReadsFour(r, Utf8(r) + tail);
    }
  }

  lemma ReadsTwo(r: int, s: Bytes)
    requires 0x80 <= r < 0x800 && Utf8(r) <= s
    ensures StartsTwo(s) && Rune(s) == r
  {
    assert s[0] == Utf8(r)[0] && s[1] == Utf8(r)[1];
    Parts(r);
  }

  lemma ReadsThree(r: int, s: Bytes)
    requires 0x800 <= r < 0x1_0000 && IsScalar(r) && Utf8(r) <= s
    ensures StartsThree(s) && !StartsTwo(s) && Rune(s) == r
  {
    assert s[0] == Utf8(r)[0] && s[1] == Utf8(r)[1] && s[2] == Utf8(r)[2];
    Parts(r);
  }

  lemma ReadsFour(r: int, s: Bytes)
    requires 0x1_0000 <= r < 0x11_0000 && Utf8(r) <= s
    ensures StartsFour(s) && !StartsTwo(s) && !StartsThree(s) && Rune(s) == r
  {
    assert s[0] == Utf8(r)[0] && s[1] == Utf8(r)[1] && s[2] == Utf8(r)[2] && s[3] == Utf8(r)[3];
    Parts(r);
  }

  /** And what is read was written so, or is a byte that starts no code point, read as U+FFFD. */
  lemma ReadsOnlyWhatIsWritten(s: Bytes)
    requires s != []
    ensures || (IsScalar(Rune(s)) && Utf8(Rune(s)) == s[..Width(s)])
            || (Rune(s) == 0xFFFD && Width(s) == 1 && forall r :: IsScalar(r) ==> !(Utf8(r) <= s))
  {
    if StartsTwo(s) {
      WroteTwo(s);
    } else if StartsThree(s) {
      WroteThree(s);
    } else if StartsFour(s) {
      WroteFour(s);
    } else if s[0] >= 0x80 {
      forall r | IsScalar(r) ensures !(Utf8(r) <= s) {
        if Utf8(r) <= s {
          StartsAsWritten(r, s);
        }
      }
    }
  }

  lemma WroteTwo(s: Bytes)
    requires StartsTwo(s)
    ensures IsScalar(Rune(s)) && Utf8(Rune(s)) == s[..2]
  {
    PartsOf(s[0] as int - 0xC0, s[1] as int - 0x80, 0, 0);
  }

  lemma WroteThree(s: Bytes)
    requires StartsThree(s) && !StartsTwo(s)
    ensures IsScalar(Rune(s)) && Utf8(Rune(s)) == s[..3]
  {
    PartsOf(s[0] as int - 0xE0, s[1] as int - 0x80, s[2] as int - 0x80, 0);
  }

  lemma WroteFour(s: Bytes)
    requires StartsFour(s) && !StartsTwo(s) && !StartsThree(s)
    ensures IsScalar(Rune(s)) && Utf8(Rune(s)) == s[..4]
  {
    PartsOf(s[0] as int - 0xF0, s[1] as int - 0x80, s[2] as int - 0x80, s[3] as int - 0x80);
  }

  lemma StartsAsWritten(r: int, s: Bytes)
    requires IsScalar(r) && Utf8(r) <= s
    ensures StartsTwo(s) || StartsThree(s) || StartsFour(s) || s[0] < 0x80
  {
    if r < 0x80 {
      assert s[0] == Utf8(r)[0];
    } else if r < 0x800 {
      ReadsTwo(r, s);
    } else if r < 0x1_0000 {
      ReadsThree(r, s);
    } else {
      ReadsFour(r, s);
    }
  }

  /** The code points with the Unicode property White_Space. */
  predicate IsSpace(r: int) {
    || 9 <= r <= 13 || r == 0x20 || r == 0x85 || r == 0xA0 || r == 0x1680 || 0x2000 <= r <= 0x200A
    || r == 0x2028 || r == 0x2029 || r == 0x202F || r == 0x205F || r == 0x3000
  }

  /** Trimming takes off just these code points at the start of a text. */
  lemma LeadingSpaceIs(s: Bytes)
    requires s != []
    ensures LeadingSpace(s) == if IsSpace(Rune(s)) then Width(s) else 0
  {
  }

  /** And at its end: there is one to take off exactly if the text ends in the UTF-8 form of one. */
  lemma TrailingSpaceIs(s: Bytes, r: int)
    requires IsSpace(r) && |Utf8(r)| <= |s| && s[|s| - |Utf8(r)|..] == Utf8(r)
    ensures TrailingSpace(s) == |Utf8(r)|
  {
    var n, k := |Utf8(r)|, |s|;
    assert forall i :: 0 <= i < n ==> s[k - n + i] == Utf8(r)[i];
  }

  lemma TrailingSpaceIsSpace(s: Bytes)
    requires TrailingSpace(s) > 0
    ensures var t := s[|s| - TrailingSpace(s)..]; IsSpace(Rune(t)) && Width(t) == |t|
  {
    var t := s[|s| - TrailingSpace(s)..];
    assert forall i :: 0 <= i < |t| ==> t[i] == s[|s| - |t| + i];
  }
}
