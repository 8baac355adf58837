/** The tag-length-value fields of a torrent token: Field.write and ReadField. */
module Fields {
  import opened GoBytes
  import opened Int64
  import opened Positional
  import Base62

  datatype Field = Field(tag: int, value: Bytes)

  const TAG_SIZE := 4

  /** Only the size field is written in binary. */
  predicate IsBinary(tag: int) {
    tag == TAG_SIZE
  }

  // ---- decimal text of 64-bit integers -----------------------------------------------------

  const MINUS: byte := 45
  const PLUS: byte := 43
  const DIGIT0: byte := 48

  predicate AllDigits(s: Bytes) {
    forall i :: 0 <= i < |s| ==> 48 <= s[i] <= 57
  }

  function DigitValues(s: Bytes): (d: Digits)
    requires AllDigits(s)
    ensures |d| == |s| && InBase(d, 10)
    ensures forall i :: 0 <= i < |s| ==> d[i] == s[i] as int - 48
  {
    seq(|s|, i requires 0 <= i < |s| => s[i] as int - 48)
  }

  function DigitSymbols(d: Digits): (s: Bytes)
    requires InBase(d, 10)
    ensures AllDigits(s) && DigitValues(s) == d
  {
    seq(|d|, i requires 0 <= i < |d| => (d[i] + 48) as byte)
  }

  function Decimal(n: nat): (s: Bytes)
    ensures s != [] && AllDigits(s)
  {
    if n == 0 then [DIGIT0] else DigitSymbols(DigitsOf(n, 10))
  }

  /** strconv.FormatInt in base 10. */
  function FormatInt(n: int): (s: Bytes)
    ensures s != []
  {
    if n < 0 then [MINUS] + Decimal(-n) else Decimal(n)
  }

  /** The number that a non-empty digit string denotes. */
  function Unsigned(digits: Bytes): Option<nat> {
    if digits == [] || !AllDigits(digits) then None else Some(ValueOf(DigitValues(digits), 10))
  }

  function Signed(negative: bool, u: int): (r: Option<int>)
    requires u >= 0
    ensures r.Some? ==> InInt64(r.value)
  {
    if negative then (if u > TWO63 then None else Some(-u))
    else if u >= TWO63 then None else Some(u)
  }

  /** strconv.ParseInt in base 10 with 64 bits; None is a syntax or range error. */
  function ParseInt(s: Bytes): (r: Option<int>)
    ensures r.Some? ==> InInt64(r.value)
  {
    if s == [] then None
    else
      var digits := if s[0] == MINUS || s[0] == PLUS then s[1..] else s;
      var u := Unsigned(digits);
      if u == None then None else Signed(s[0] == MINUS, u.value)
  }

  /** A text is a number if, after one sign at most, it is some decimal digits and nothing else, and the
      value they have in base ten, negated after a minus, fits 64 bits. */
  lemma ParseIntIs(s: Bytes)
    ensures var digits := if s != [] && (s[0] == 45 || s[0] == 43) then s[1..] else s;
            if digits == [] || exists i :: 0 <= i < |digits| && !(48 <= digits[i] <= 57) then ParseInt(s) == None
            else
              var u: int := ValueOf(seq(|digits|, i requires 0 <= i < |digits| => Digit(digits[i])), 10);
              var n := if s[0] == 45 then -u else u;
              ParseInt(s) == if -0x8000_0000_0000_0000 <= n < 0x8000_0000_0000_0000 then Some(n) else None
  {
    var digits := if s != [] && (s[0] == 45 || s[0] == 43) then s[1..] else s;
    if digits != [] && AllDigits(digits) {
      DigitsAgree(digits);
    }
  }

  lemma DigitsAgree(s: Bytes)
    requires AllDigits(s)
    ensures DigitValues(s) == seq(|s|, i requires 0 <= i < |s| => Digit(s[i]))
  {
  }

  function Digit(c: byte): nat {
    if c >= 48 then c as nat - 48 else 0
  }

  /** The text that FormatInt itself would print. */
  predicate Canonical(s: Bytes) {
    var n := ParseInt(s);
    n.Some? && FormatInt(n.value) == s
  }

  lemma DecimalValue(n: nat)
    ensures Unsigned(Decimal(n)) == Some(n)
  {
    if n == 0 {
      var d := DigitValues([DIGIT0]);
      assert ValueOf(d[..0], 10) == 0;
    } else {
      ValueOfDigits(n, 10);
    }
  }

  lemma ParseSigned(negative: bool, digits: Bytes)
    requires digits != [] && AllDigits(digits)
    ensures ParseInt(if negative then [MINUS] + digits else digits) == Signed(negative, Unsigned(digits).value)
  {
    assert ([MINUS] + digits)[1..] == digits;
    assert digits[0] != MINUS && digits[0] != PLUS;
  }

  /** Printing a 64-bit integer and parsing it back is the identity, so its text is canonical. */
  lemma ParseFormat(n: int)
    requires InInt64(n)
    ensures ParseInt(FormatInt(n)) == Some(n)
    ensures Canonical(FormatInt(n))
  {
    var u := if n < 0 then -n else n;
    DecimalValue(u);
    ParseSigned(n < 0, Decimal(u));
  }

  // ---- little-endian words -----------------------------------------------------------------

  function Word(n: nat, size: nat): (b: Bytes)
    ensures |b| == size
  {
    var d := ToLittle(n, size);
    assert |Base62.Nats(Base62.ToBytes(d))| == size;
    Base62.ToBytes(d)
  }

  function WordValue(b: Bytes): nat {
    FromLittle(Base62.Nats(b))
  }

  lemma PowersOf256()
    ensures Power256(2) == 0x10000
    ensures Power256(8) == TWO64
  {
    assert Power256(1) == 256;
    assert Power256(3) == 0x100_0000;
    assert Power256(4) == 0x1_0000_0000;
    assert Power256(5) == 0x100_0000_0000;
    assert Power256(6) == 0x1_0000_0000_0000;
    assert Power256(7) == 0x100_0000_0000_0000;
  }

  lemma WordRoundTrip(n: nat, size: nat)
    requires n < Power256(size)
    ensures WordValue(Word(n, size)) == n
  {
    LittleRoundTrip(n, size);
  }

  /** The two's-complement 8-byte form of a 64-bit integer. */
  function Int64Bytes(n: int): (b: Bytes)
    requires InInt64(n)
    ensures |b| == 8
  {
    Word(if n < 0 then n + TWO64 else n, 8)
  }

  function Int64Value(b: Bytes): (n: int)
    requires |b| == 8
    ensures InInt64(n)
  {
    var u := WordValue(b);
    WordBound(b);
    if u >= TWO63 then u - TWO64 else u
  }

  lemma WordBound(b: Bytes)
    requires |b| == 8
    ensures WordValue(b) < TWO64
  {
    FromLittleBound(Base62.Nats(b));
    PowersOf256();
  }

  lemma Int64RoundTrip(n: int)
    requires InInt64(n)
    ensures Int64Value(Int64Bytes(n)) == n
  {
    PowersOf256();
    WordRoundTrip(if n < 0 then n + TWO64 else n, 8);
  }

  // ---- writing -------------------------------------------------------------------------------

  /** The field as it is meant to travel: its value trimmed. */
  function Normal(f: Field): Field {
    f.(value := TrimSpace(f.value))
  }

  /** Fields with an empty value, and size fields spelled "0", are not written. */
  predicate Kept(f: Field) {
    var v := TrimSpace(f.value);
    v != [] && !(IsBinary(f.tag) && v == [DIGIT0])
  }

  function TextRecord(tag: byte, v: Bytes): Bytes {
    [tag] + Word(|v| % 0x10000, 2) + v
  }

  function SizeRecord(tag: byte, n: int): Bytes
    requires InInt64(n)
  {
    if n == 0 then [tag] else [tag] + Int64Bytes(n)
  }

  /** The record of a trimmed value; None when it is no 64-bit number. The tag keeps its low byte
      and a text length its low 16 bits, as Go's conversions do. */
  function Record(tag: int, v: Bytes): Option<Bytes> {
    var low := (tag % 256) as byte;
    if IsBinary(tag) then
      match ParseInt(v)
      case None => None
      case Some(n) => Some(SizeRecord(low, n))
    else Some(TextRecord(low, v))
  }

  /** The bytes Field.write emits; None when it reports an error. */
  function Written(f: Field): Option<Bytes> {
    if Kept(f) then Record(f.tag, TrimSpace(f.value)) else Some([])
  }

  /** Nothing is written for an empty value and for a size of "0", and for no other field. */
  lemma NothingWrittenIff(f: Field)
    ensures Written(f) == Some([]) <==> TrimSpace(f.value) == [] || (f.tag == 4 && TrimSpace(f.value) == [48])
  {
  }

  /** A text's record byte by byte: the low byte of the tag, two bytes of the length, the least
      significant first, and the text. */
  lemma TextLayout(tag: int, v: Bytes)
    requires tag != 4
    ensures Record(tag, v) == Some([(tag % 256) as byte, (|v| % 256) as byte, (|v| / 256 % 256) as byte] + v)
  {
    var t, n := (tag % 256) as byte, |v|;
    LengthBytes(n);
    assert [t] + [(n % 256) as byte, (n / 256 % 256) as byte] == [t, (n % 256) as byte, (n / 256 % 256) as byte];
  }

  lemma LengthBytes(n: nat)
    ensures Word(n % 0x10000, 2) == [(n % 256) as byte, (n / 256 % 256) as byte]
  {
    var m := n % 0x10000;
    WordAt(m, 2);
    assert Power256(0) == 1 && Power256(1) == 256;
    assert m % 256 == n % 256 && m / 256 % 256 == n / 256 % 256;
  }

  /** A size's record: an error if the value is no number, the tag alone if it is zero, and else the tag
      and the bytes of the number. */
  lemma SizeLayout(v: Bytes, n: Option<int>)
    requires ParseInt(v) == n
    ensures Record(4, v) == if n == None then None else if n.value == 0 then Some([4])
                            else Some([4] + Int64Bytes(n.value))
  {
  }

  /** Those bytes: eight, of the two's complement, the least significant first. */
  lemma Int64At(n: int)
    requires InInt64(n)
    ensures |Int64Bytes(n)| == 8
    ensures forall i :: 0 <= i < 8 ==>
              Int64Bytes(n)[i] as int == (if n < 0 then n + 0x1_0000_0000_0000_0000 else n) / Power256(i) % 256
  {
    WordAt(if n < 0 then n + TWO64 else n, 8);
  }

  lemma WordAt(n: nat, size: nat)
    ensures |Word(n, size)| == size
    ensures forall i :: 0 <= i < size ==> Word(n, size)[i] as int == n / Power256(i) % 256
  {
    forall i | 0 <= i < size ensures Word(n, size)[i] as int == n / Power256(i) % 256 {
      LittleAt(n, size, i);
      assert Base62.Nats(Word(n, size))[i] == ToLittle(n, size)[i];
    }
  }

  class ByteSink {
    var data: Bytes

    constructor ()
      ensures data == []
    {
      data := [];
    }

    method Write(b: Bytes)
      modifies this
      ensures data == old(data) + b
    {
      data := data + b;
    }
  }

  /** The part of Field.write that emits the record of a trimmed, non-empty value. */
  method WriteRecord(tag: int, value: Bytes, writer: ByteSink) returns (ok: bool)
    modifies writer
    ensures ok == Record(tag, value).Some?
    ensures ok ==> writer.data == old(writer.data) + Record(tag, value).value
  {
    var low := (tag % 256) as byte;
    ghost var before := writer.data;
    writer.Write([low]);
    if IsBinary(tag) {
      var parsed := ParseInt(value);
      if parsed == None {
        return false;
      }
      if parsed.value == 0 {
        return true;
      }
      writer.Write(Int64Bytes(parsed.value));
      Appended(before, [low], Int64Bytes(parsed.value));
      return true;
    }
    var word := Word(|value| % 0x10000, 2);
    writer.Write(word);
    writer.Write(value);
    Appended(before, [low], word);
    Appended(before, [low] + word, value);
    return true;
  }

  lemma Appended(a: Bytes, b: Bytes, c: Bytes)
    ensures a + b + c == a + (b + c)
  {
  }

  method WriteField(f: Field, writer: ByteSink) returns (ok: bool)
    modifies writer
    ensures ok == Written(f).Some?
    ensures ok ==> writer.data == old(writer.data) + Written(f).value
    ensures ok && writer.data == old(writer.data) <==>
              TrimSpace(f.value) == [] || (f.tag == 4 && TrimSpace(f.value) == [48])
  {
    NothingWrittenIff(f);
    var value := TrimSpace(f.value);
    if |value| == 0 {
      return true;
    }
    if IsBinary(f.tag) && value == [DIGIT0] {
      return true;
    }
    ok := WriteRecord(f.tag, value, writer);
  }

  // ---- reading -------------------------------------------------------------------------------

  datatype Parse = End | Failed | Got(field: Field, rest: Bytes)

  /** One ReadField call on the bytes still to come. With `eager` the reader announces the end of
      the stream together with the last byte, which io.Reader permits. */
  function ParseField(rest: Bytes, eager: bool): (p: Parse)
    ensures p.Got? ==> |p.rest| < |rest|
  {
    if rest == [] || (eager && |rest| == 1) then End
    else
      var tag, body := rest[0] as int, rest[1..];
      if IsBinary(tag) then
        if |body| < 8 then Failed
        else Got(Field(tag, FormatInt(Int64Value(body[..8]))), body[8..])
      else if |body| < 2 then Failed
      else
        var length := WordValue(body[..2]);
        if |body| < 2 + length then Failed
        else Got(Field(tag, body[2..2 + length]), body[2 + length..])
  }

  /** When a stream is at its end, when it breaks off, and where a text lies in it. */
  lemma ParseLayout(rest: Bytes, eager: bool)
    ensures ParseField(rest, eager) == End <==> rest == [] || (eager && |rest| == 1)
    ensures ParseField(rest, eager) == Failed <==>
              && |rest| >= (if eager then 2 else 1)
              && if rest[0] == 4 then |rest| < 9
                 else |rest| < 3 || |rest| < 3 + rest[1] as int + 256 * rest[2] as int
    ensures ParseField(rest, eager).Got? && rest[0] != 4 ==>
              var n := rest[1] as int + 256 * rest[2] as int;
              ParseField(rest, eager) == Got(Field(rest[0] as int, rest[3..3 + n]), rest[3 + n..])
    ensures ParseField(rest, eager).Got? && rest[0] == 4 ==>
              ParseField(rest, eager).rest == rest[9..] && ParseField(rest, eager).field.tag == 4
  {
    if |rest| >= 3 {
      TwoBytes(rest[1..][..2]);
      assert rest[1..][0] == rest[1] && rest[1..][1] == rest[2];
      var n := rest[1] as int + 256 * rest[2] as int;
      if |rest| >= 3 + n {
        assert rest[1..][2..2 + n] == rest[3..3 + n] && rest[1..][2 + n..] == rest[3 + n..];
      }
    }
    if |rest| >= 9 {
      assert rest[1..][8..] == rest[9..];
    }
  }

  lemma TwoBytes(b: Bytes)
    requires |b| == 2
    ensures WordValue(b) == b[0] as int + 256 * b[1] as int
  {
    var d := Base62.Nats(b);
    assert d[1..][1..] == [];
    assert FromLittle(d[1..]) == d[1];
  }

  class ByteSource {
    var rest: Bytes
    const eager: bool

    constructor (data: Bytes, eager: bool)
      ensures rest == data && this.eager == eager
    {
      rest := data;
      this.eager := eager;
    }

    /** One byte by Read: how many bytes arrived, and whether the end was announced with them. */
    method ReadByte() returns (n: nat, b: byte, eof: bool)
      modifies this
      ensures n == if old(rest) == [] then 0 else 1
      ensures n == 1 ==> b == old(rest)[0] && rest == old(rest)[1..]
      ensures n == 0 ==> b == 0 && rest == []
      ensures eof == (old(rest) == [] || (eager && |old(rest)| == 1))
    {
      if rest == [] {
        return 0, 0, true;
      }
      n, b, eof := 1, rest[0], eager && |rest| == 1;
      rest := rest[1..];
    }

    /** io.ReadFull: all the bytes asked for, or an error. */
    method ReadFull(n: nat) returns (ok: bool, data: Bytes)
      modifies this
      ensures ok == (n <= |old(rest)|)
      ensures ok ==> data == old(rest)[..n] && rest == old(rest)[n..]
    {
      if |rest| < n {
        return false, [];
      }
      ok, data := true, rest[..n];
      rest := rest[n..];
    }
  }

  datatype FieldResult = NoField | FieldError | Read(field: Field)

  method ReadField(reader: ByteSource) returns (r: FieldResult)
    modifies reader
    ensures match ParseField(old(reader.rest), reader.eager)
            case End => r == NoField
            case Failed => r == FieldError
            case Got(f, rest) => r == Read(f) && reader.rest == rest
  {
    var _, b, eof := reader.ReadByte();
    if eof {
      return NoField;
    }
    var tag := b as int;
    if IsBinary(tag) {
      var ok, word := reader.ReadFull(8);
      if !ok {
        return FieldError;
      }
      return Read(Field(tag, FormatInt(Int64Value(word))));
    }
    var ok, word := reader.ReadFull(2);
    if !ok {
      return FieldError;
    }
    ghost var body := old(reader.rest)[1..];
    var length := WordValue(word);
    var value;
    ok, value := reader.ReadFull(length);
    if !ok {
      return FieldError;
    }
    assert value == body[2..2 + length] && reader.rest == body[2 + length..];
    return Read(Field(tag, value));
  }

  // ---- one field there and back ---------------------------------------------------------------

  /** Values the record of a tag can represent. */
  predicate Representable(tag: int, v: Bytes) {
    0 <= tag < 256 && (if IsBinary(tag) then Canonical(v) else |v| < 0x10000)
  }

  /** What a field must satisfy to survive the trip: a one-byte tag, and a value whose form the
      writer can represent. */
  predicate Encodable(f: Field) {
    Representable(f.tag, TrimSpace(f.value))
  }

  lemma CanonicalNonzero(v: Bytes)
    requires Canonical(v) && v != [DIGIT0]
    ensures ParseInt(v).value != 0
  {
    assert FormatInt(0) == [DIGIT0];
  }

  lemma SizeRoundTrip(n: int, tail: Bytes, eager: bool)
    requires InInt64(n) && n != 0
    ensures ParseField(SizeRecord(TAG_SIZE as byte, n) + tail, eager) == Got(Field(TAG_SIZE, FormatInt(n)), tail)
  {
    var all := SizeRecord(TAG_SIZE as byte, n) + tail;
    assert all[1..] == Int64Bytes(n) + tail;
    assert all[1..][..8] == Int64Bytes(n);
    assert all[1..][8..] == tail;
    Int64RoundTrip(n);
  }

  lemma TextRoundTrip(tag: byte, v: Bytes, tail: Bytes, eager: bool)
    requires !IsBinary(tag as int) && |v| < 0x10000
    ensures ParseField(TextRecord(tag, v) + tail, eager) == Got(Field(tag as int, v), tail)
  {
    LengthBytes(|v|);
    var lo, hi := (|v| % 256) as byte, (|v| / 256 % 256) as byte;
    assert |v| == lo as int + 256 * hi as int;
    var all := TextRecord(tag, v) + tail;
    TextParts(tag, lo, hi, v, tail);
    ParseLayout(all, eager);
  }

  lemma TextParts(tag: byte, lo: byte, hi: byte, v: Bytes, tail: Bytes)
    ensures var all := [tag] + [lo, hi] + v + tail;
            && |all| == 3 + |v| + |tail| && all[0] == tag && all[1] == lo && all[2] == hi
            && all[3..3 + |v|] == v && all[3 + |v|..] == tail
  {
  }

  lemma RecordOf(tag: int, v: Bytes)
    requires Representable(tag, v)
    ensures Record(tag, v) == if IsBinary(tag) then Some(SizeRecord(tag as byte, ParseInt(v).value))
                              else Some(TextRecord(tag as byte, v))
  {
    assert tag % 256 == tag;
  }

  lemma RecordRoundTrip(tag: int, v: Bytes, tail: Bytes, eager: bool)
    requires Representable(tag, v) && (IsBinary(tag) ==> v != [DIGIT0])
    ensures Record(tag, v).Some?
    ensures ParseField(Record(tag, v).value + tail, eager) == Got(Field(tag, v), tail)
  {
    RecordOf(tag, v);
    if IsBinary(tag) {
      var n := ParseInt(v).value;
      CanonicalNonzero(v);
      SizeRoundTrip(n, tail, eager);
      assert FormatInt(n) == v;
    } else {
      TextRoundTrip(tag as byte, v, tail, eager);
    }
  }

  /** An encodable field is read back trimmed, whatever follows it in the stream. */
  lemma FieldRoundTrip(f: Field, tail: Bytes, eager: bool)
    requires Kept(f) && Encodable(f)
    ensures Written(f).Some?
    ensures ParseField(Written(f).value + tail, eager) == Got(Normal(f), tail)
  {
    RecordRoundTrip(f.tag, TrimSpace(f.value), tail, eager);
  }

  /** Every field the reader can produce has a one-byte tag, a short text or a canonical number. */
  lemma ParsedShape(rest: Bytes, eager: bool)
    ensures var p := ParseField(rest, eager);
            p.Got? ==> Representable(p.field.tag, p.field.value)
  {
    var p := ParseField(rest, eager);
    if p.Got? {
      var body := rest[1..];
      if IsBinary(p.field.tag) {
        ParseFormat(Int64Value(body[..8]));
      } else {
        FromLittleBound(Base62.Nats(body[..2]));
        PowersOf256();
      }
    }
  }
}
