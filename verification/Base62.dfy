/** The base-62 number format of torrent tokens: Encode62 and Decode62. */
module Base62 {
  import opened GoBytes
  import opened Positional
  import opened Runes

  /** The alphabet's symbol for a base-62 digit: 0-9, then A-Z, then a-z. */
  function Symbol(d: nat): byte
    requires d < 62
  {
    if d < 10 then (48 + d) as byte else if d < 36 then (55 + d) as byte else (61 + d) as byte
  }

  /** bytes.IndexByte on the alphabet: the digit a byte stands for, or -1. */
  function IndexOf(c: byte): (d: int)
    ensures -1 <= d < 62
    ensures d >= 0 ==> Symbol(d) == c
  {
    if 48 <= c <= 57 then c as int - 48
    else if 65 <= c <= 90 then c as int - 55
    else if 97 <= c <= 122 then c as int - 61
    else -1
  }

  /** The symbol of digit 0. */
  const ZERO: byte := 48

  predicate IsBase62(s: Bytes) {
    forall i :: 0 <= i < |s| ==> IndexOf(s[i]) >= 0
  }

  function Nats(b: Bytes): (d: Digits)
    ensures |d| == |b| && InBase(d, 256)
    ensures forall i :: 0 <= i < |b| ==> d[i] == b[i] as nat
  {
    seq(|b|, i requires 0 <= i < |b| => b[i] as nat)
  }

  function ToBytes(d: Digits): (b: Bytes)
    requires InBase(d, 256)
    ensures Nats(b) == d
  {
    seq(|d|, i requires 0 <= i < |d| => d[i] as byte)
  }

  lemma NatsInjective(a: Bytes, b: Bytes)
    requires Nats(a) == Nats(b)
    ensures a == b
  {
    forall i | 0 <= i < |a| ensures a[i] == b[i] {
      assert Nats(a)[i] == Nats(b)[i];
    }
  }

  function Symbols(d: Digits): (s: Bytes)
    requires InBase(d, 62)
    ensures |s| == |d|
    ensures forall i :: 0 <= i < |d| ==> s[i] == Symbol(d[i])
  {
    seq(|d|, i requires 0 <= i < |d| => Symbol(d[i]))
  }

  function Indices(s: Bytes): (d: Digits)
    requires IsBase62(s)
    ensures |d| == |s| && InBase(d, 62)
    ensures forall i :: 0 <= i < |s| ==> d[i] == IndexOf(s[i])
  {
    seq(|s|, i requires 0 <= i < |s| => IndexOf(s[i]))
  }

  /** The base-62 numeral of a byte string read as a big-endian number. */
  function Encode(b: Bytes): (s: Bytes)
    ensures IsBase62(s)
    ensures s != [] ==> IndexOf(s[0]) != 0
  {
    var d := DigitsOf(ValueOf(Nats(b), 256), 62);
    assert forall i :: 0 <= i < |d| ==> IndexOf(Symbol(d[i])) == d[i];
    Symbols(d)
  }

  /** The running value of the decoding loop; a byte outside the alphabet counts as -1. */
  function Accumulate(s: Bytes): int {
    if s == [] then 0 else Accumulate(s[..|s| - 1]) * 62 + IndexOf(s[|s| - 1])
  }

  function Magnitude(x: int): nat {
    if x < 0 then -x else x
  }

  /** The shortest big-endian bytes of the decoded number's magnitude. The loop goes over code points
      and looks up the low byte of each. */
  function Decode(s: Bytes): (b: Bytes)
    ensures b != [] ==> b[0] != 0
  {
    ToBytes(DigitsOf(Magnitude(Accumulate(LowBytes(s))), 256))
  }

  // ---- the two loops ------------------------------------------------------------------

  function Reversed(s: Bytes): (r: Bytes)
    ensures |r| == |s|
    ensures forall i :: 0 <= i < |s| ==> r[i] == s[|s| - 1 - i]
  {
    seq(|s|, i requires 0 <= i < |s| => s[|s| - 1 - i])
  }

  method ReverseInPlace(res: array<byte>)
    modifies res
    ensures res[..] == Reversed(old(res[..]))
  {
    var i, j := 0, res.Length - 1;
    while i < j
      invariant 0 <= i <= j + 1 <= res.Length && i + j == res.Length - 1
      invariant forall k :: 0 <= k < i || j < k < res.Length ==> res[k] == old(res[res.Length - 1 - k])
      invariant forall k :: i <= k <= j ==> res[k] == old(res[k])
    {
      res[i], res[j] := res[j], res[i];
      i, j := i + 1, j - 1;
    }
  }

  method Encode62(b: Bytes) returns (s: Bytes)
    ensures s == Encode(b)
  {
    var x := ValueOf(Nats(b), 256);
    ghost var all := DigitsOf(x, 62);
    var res: Bytes := [];
    while x > 0
      invariant |res| <= |all| && DigitsOf(x, 62) == all[..|all| - |res|]
      invariant forall i :: 0 <= i < |res| ==> res[i] == Symbol(all[|all| - 1 - i])
      decreases x
    {
      QuotientShrinks(x, 62);
      ghost var front := DigitsOf(x / 62, 62);
      assert DigitsOf(x, 62) == front + [x % 62];
      res := res + [Symbol(x % 62)];
      x := x / 62;
    }
    var buffer := new byte[|res|](i requires 0 <= i < |res| => res[i]);
    assert buffer[..] == res;
    ReverseInPlace(buffer);
    s := buffer[..];
    assert s == Symbols(all);
  }

  method Decode62(s: Bytes) returns (b: Bytes)
    ensures b == Decode(s)
  {
    var res := Number(s);
    b := ToBytes(DigitsOf(Magnitude(res), 256));
  }

  /** The decoding loop over the code points. */
  method Number(s: Bytes) returns (res: int)
    ensures res == Accumulate(LowBytes(s))
  {
    res := 0;
    var i := 0;
    while i < |s|
      invariant 0 <= i <= |s| && ReadOn(s, i, res) == ReadOn(s, 0, 0)
    {
      var rest := s[i..];
      res := res * 62;
      res := res + IndexOf(LowByte(rest));
      i := i + Width(rest);
    }
    ReadsAll(s);
  }

  lemma ReadsAll(s: Bytes)
    ensures ReadOn(s, 0, 0) == Accumulate(LowBytes(s))
  {
    ReadOnContinues(s, 0, 0);
    AccumulateContinues([], LowBytes(s));
    assert s[0..] == s && [] + LowBytes(s) == LowBytes(s);
  }

  /** The value at the end of a loop that has come to position `i` with value `x`. */
  function ReadOn(s: Bytes, i: nat, x: int): int
    requires i <= |s|
    decreases |s| - i
  {
    if i == |s| then x else ReadOn(s, i + Width(s[i..]), x * 62 + IndexOf(LowByte(s[i..])))
  }

  /** The same over the low bytes that are still to come. */
  function Continued(x: int, more: Bytes): int
    decreases |more|
  {
    if more == [] then x else Continued(x * 62 + IndexOf(more[0]), more[1..])
  }

  lemma {:induction false} ReadOnContinues(s: Bytes, i: nat, x: int)
    requires i <= |s|
    ensures ReadOn(s, i, x) == Continued(x, LowBytes(s[i..]))
    decreases |s| - i
  {
    if i < |s| {
      var rest := s[i..];
      ReadOnContinues(s, i + Width(rest), x * 62 + IndexOf(LowByte(rest)));
      assert rest[Width(rest)..] == s[i + Width(rest)..];
    }
  }

  lemma {:induction false} AccumulateContinues(read: Bytes, more: Bytes)
    ensures Continued(Accumulate(read), more) == Accumulate(read + more)
    decreases |more|
  {
    if more == [] {
      assert read + more == read;
    } else {
      var next := read + [more[0]];
      assert next[..|read|] == read;
      AccumulateContinues(next, more[1..]);
      assert next + more[1..] == read + more;
    }
  }

  /** The place of a character in the alphabet: the digits, then the capital letters, then the small
      ones; -1 for any other. */
  function Place(c: char): int {
    if '0' <= c <= '9' then c as int - '0' as int
    else if 'A' <= c <= 'Z' then 10 + (c as int - 'A' as int)
    else if 'a' <= c <= 'z' then 36 + (c as int - 'a' as int)
    else -1
  }

  lemma SymbolHasPlace(d: nat, c: byte)
    ensures d < 62 ==> Place(Symbol(d) as char) == d
    ensures IndexOf(c) == Place(c as char)
  {
  }

  /** The numbers that a numeral and a byte string stand for, the most significant first. */
  function Number62(s: Bytes): int {
    if s == [] then 0 else Number62(s[..|s| - 1]) * 62 + Place(s[|s| - 1] as char)
  }

  function Number256(b: Bytes): nat {
    if b == [] then 0 else Number256(b[..|b| - 1]) * 256 + b[|b| - 1] as nat
  }

  lemma {:induction false} NumberIsValue(b: Bytes)
    ensures Number256(b) == ValueOf(Nats(b), 256)
  {
    if b != [] {
      NumberIsValue(b[..|b| - 1]);
      assert Nats(b)[..|b| - 1] == Nats(b[..|b| - 1]);
    }
  }

  lemma {:induction false} NumberIsAccumulated(s: Bytes)
    ensures Number62(s) == Accumulate(s)
  {
    if s != [] {
      NumberIsAccumulated(s[..|s| - 1]);
      SymbolHasPlace(0, s[|s| - 1]);
    }
  }

  /** An encoding stands for the same number as the bytes, and a decoding for the magnitude of what the
      code points' low bytes stand for. */
  lemma KeepsTheNumber(b: Bytes, s: Bytes)
    ensures Number62(Encode(b)) == Number256(b)
    ensures var n := Number62(LowBytes(s)); Number256(Decode(s)) == if n < 0 then -n else n
  {
    var v := ValueOf(Nats(b), 256);
    IndicesOfSymbols(DigitsOf(v, 62));
    AccumulateValue(Encode(b));
    ValueOfDigits(v, 62);
    NumberIsValue(b);
    NumberIsAccumulated(Encode(b));
    NumberIsAccumulated(LowBytes(s));
    NumberIsValue(Decode(s));
    ValueOfDigits(Magnitude(Accumulate(LowBytes(s))), 256);
  }

  // ---- inverse laws ---------------------------------------------------------------------

  function StripZeroBytes(b: Bytes): Bytes {
    if b == [] || b[0] != 0 then b else StripZeroBytes(b[1..])
  }

  lemma {:induction false} StripZeroBytesNats(b: Bytes)
    ensures Nats(StripZeroBytes(b)) == StripZeros(Nats(b))
  {
    if b != [] && b[0] == 0 {
      StripZeroBytesNats(b[1..]);
      assert Nats(b)[1..] == Nats(b[1..]);
    }
  }

  lemma {:induction false} AccumulateValue(s: Bytes)
    requires IsBase62(s)
    ensures Accumulate(s) == ValueOf(Indices(s), 62)
  {
    if s != [] {
      AccumulateValue(s[..|s| - 1]);
      assert Indices(s)[..|s| - 1] == Indices(s[..|s| - 1]);
    }
  }

  lemma IndicesOfSymbols(d: Digits)
    requires InBase(d, 62)
    ensures IsBase62(Symbols(d)) && Indices(Symbols(d)) == d
  {
    assert forall i :: 0 <= i < |d| ==> IndexOf(Symbol(d[i])) == d[i];
  }

  lemma DecodeBase62(s: Bytes)
    requires IsBase62(s)
    ensures Decode(s) == ToBytes(DigitsOf(ValueOf(Indices(s), 62), 256))
  {
    assert forall i :: 0 <= i < |s| ==> IndexOf(s[i]) >= 0 ==> s[i] < 0x80;
    AsciiIsItself(s);
    AccumulateValue(s);
  }

  /** Encoding keeps the number: decoding reads back exactly the bytes without leading zeros. */
  lemma DecodeEncode(b: Bytes)
    ensures Decode(Encode(b)) == StripZeroBytes(b)
  {
    var v := ValueOf(Nats(b), 256);
    IndicesOfSymbols(DigitsOf(v, 62));
    DecodeBase62(Encode(b));
    ValueOfDigits(v, 62);
    DigitsOfValue(Nats(b), 256);
    StripZeroBytesNats(b);
    NatsInjective(Decode(Encode(b)), StripZeroBytes(b));
  }

  lemma EncodeDecodeBase62(s: Bytes)
    requires IsBase62(s)
    ensures InBase(StripZeros(Indices(s)), 62)
    ensures Encode(Decode(s)) == Symbols(StripZeros(Indices(s)))
  {
    StripZerosInBase(Indices(s), 62);
    var v := ValueOf(Indices(s), 62);
    DecodeBase62(s);
    ValueOfDigits(v, 256);
    DigitsOfValue(Indices(s), 62);
  }

  /** A token survives decoding and encoding exactly when it is base 62 and has no leading '0'. */
  lemma EncodeDecode(s: Bytes)
    ensures Encode(Decode(s)) == s <==> IsBase62(s) && (s == [] || s[0] != ZERO)
  {
    if IsBase62(s) && (s == [] || s[0] != ZERO) {
      EncodeDecodeBase62(s);
      assert Symbols(Indices(s)) == s;
    }
  }
}
