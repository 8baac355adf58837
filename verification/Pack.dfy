/** Torrent tokens: Pack turns a hash with fields into a base-62 token, Unpack turns it back. */
module Pack {
  import opened GoBytes
  import opened Base62
  import Positional
  import opened Fields

  datatype TorrsHash = TorrsHash(hash: Bytes, fields: seq<Field>)

  /** The compression library, seen only through its two directions. */
  datatype Zlib = Zlib(compress: Bytes -> Bytes, decompress: Bytes -> Option<Bytes>) {
    /** Decompression undoes compression, and a compressed stream opens with a non-zero byte
        (section 2.2 of RFC 1950). */
    ghost predicate Valid() {
      forall d {:trigger compress(d)} ::
        decompress(compress(d)) == Some(d) && compress(d) != [] && compress(d)[0] != 0
    }
  }

  const HASH_SIZE := 20

  // ---- hexadecimal text ---------------------------------------------------------------------

  function Nibble(d: int): byte
    requires 0 <= d < 16
  {
    if d < 10 then (48 + d) as byte else (87 + d) as byte
  }

  function NibbleValue(c: byte): (d: int)
    ensures -1 <= d < 16
  {
    if 48 <= c <= 57 then c as int - 48
    else if 97 <= c <= 102 then c as int - 87
    else if 65 <= c <= 70 then c as int - 55
    else -1
  }

  function EncodeHex(b: Bytes): (s: Bytes)
    ensures |s| == 2 * |b|
  {
    if b == [] then []
    else [Nibble(b[0] as int / 16), Nibble(b[0] as int % 16)] + EncodeHex(b[1..])
  }

  /** hex.DecodeString; None for an odd length or a byte that is no hexadecimal digit. */
  function DecodeHex(s: Bytes): (b: Option<Bytes>)
    ensures b.Some? ==> |s| == 2 * |b.value|
  {
    if s == [] then Some([])
    else if |s| == 1 || NibbleValue(s[0]) < 0 || NibbleValue(s[1]) < 0 then None
    else
      var tail := DecodeHex(s[2..]);
      if tail == None then None
      else Some([(NibbleValue(s[0]) * 16 + NibbleValue(s[1])) as byte] + tail.value)
  }

  function LowerByte(c: byte): byte {
    if 65 <= c <= 90 then c + 32 else c
  }

  function Lower(s: Bytes): (t: Bytes)
    ensures |t| == |s| && forall i :: 0 <= i < |s| ==> t[i] == LowerByte(s[i])
  {
    seq(|s|, i requires 0 <= i < |s| => LowerByte(s[i]))
  }

  lemma {:induction false} HexLowers(s: Bytes)
    requires DecodeHex(s).Some?
    ensures EncodeHex(DecodeHex(s).value) == Lower(s)
  {
    if s != [] {
      HexLowers(s[2..]);
      LowerTwo(s);
      TwoDigits(s[0], s[1]);
      var b := DecodeHex(s).value;
      assert b[1..] == DecodeHex(s[2..]).value;
    }
  }

  lemma TwoDigits(c: byte, d: byte)
    requires NibbleValue(c) >= 0 && NibbleValue(d) >= 0
    ensures var n := NibbleValue(c) * 16 + NibbleValue(d);
            Nibble(n / 16) == LowerByte(c) && Nibble(n % 16) == LowerByte(d)
  {
  }

  lemma LowerTwo(s: Bytes)
    requires |s| >= 2
    ensures Lower(s) == [LowerByte(s[0]), LowerByte(s[1])] + Lower(s[2..])
  {
  }

  // ---- the whole field list -------------------------------------------------------------------

  function WriteAll(fields: seq<Field>): Option<Bytes> {
    if fields == [] then Some([])
    else Append(Written(fields[0]), WriteAll(fields[1..]))
  }

  /** Output of two writers in turn; an error of either is an error of both. */
  function Append(first: Option<Bytes>, more: Option<Bytes>): Option<Bytes> {
    if first == None || more == None then None else Some(first.value + more.value)
  }

  datatype Contents = Contents(fields: seq<Field>, failed: bool)

  function ReadAll(rest: Bytes, eager: bool): Contents
    decreases |rest|
  {
    match ParseField(rest, eager)
    case End => Contents([], false)
    case Failed => Contents([], true)
    case Got(f, tail) => Prepend([f], ReadAll(tail, eager))
  }

  function Prepend(fields: seq<Field>, more: Contents): Contents {
    more.(fields := fields + more.fields)
  }

  lemma PrependAssociates(a: seq<Field>, b: seq<Field>, more: Contents)
    ensures Prepend(a, Prepend(b, more)) == Prepend(a + b, more)
  {
    assert a + (b + more.fields) == a + b + more.fields;
  }

  /** The field list a reader should get: kept fields in order, trimmed. */
  function NormalFields(fields: seq<Field>): seq<Field> {
    if fields == [] then []
    else (if Kept(fields[0]) then [Normal(fields[0])] else []) + NormalFields(fields[1..])
  }

  function NormalHash(h: TorrsHash): TorrsHash {
    TorrsHash(Lower(TrimSpace(h.hash)), NormalFields(h.fields))
  }

  // ---- Pack and Unpack ------------------------------------------------------------------------

  /** The bytes handed to the compressor; None when pack reports an error. */
  function RawBytes(h: TorrsHash): Option<Bytes> {
    var hash, fields := DecodeHex(TrimSpace(h.hash)), WriteAll(h.fields);
    if hash == None || fields == None then None else Some(hash.value + fields.value)
  }

  function Token(h: TorrsHash, z: Zlib): Option<Bytes> {
    var raw := RawBytes(h);
    if raw == None then None else Some(Encode(z.compress(raw.value)))
  }

  /** Unpack answers nothing, or a hash whose field list may have broken off with an error. */
  datatype Unpacked = BadToken | Broken(partial: TorrsHash) | Complete(whole: TorrsHash)

  function FromRaw(raw: Bytes, eager: bool): Unpacked {
    if |raw| < HASH_SIZE then BadToken
    else
      var c := ReadAll(raw[HASH_SIZE..], eager);
      var h := TorrsHash(EncodeHex(raw[..HASH_SIZE]), c.fields);
      if c.failed then Broken(h) else Complete(h)
  }

  function FromToken(token: Bytes, z: Zlib, eager: bool): Unpacked {
    var raw := z.decompress(Decode(TrimSpace(token)));
    if raw == None then BadToken else FromRaw(raw.value, eager)
  }

  method WriteFields(fields: seq<Field>, writer: ByteSink) returns (ok: bool)
    modifies writer
    ensures ok == WriteAll(fields).Some?
    ensures ok ==> writer.data == old(writer.data) + WriteAll(fields).value
  {
    ghost var goal := Append(Some(writer.data), WriteAll(fields));
    assert fields[0..] == fields;
    for i := 0 to |fields|
      invariant Append(Some(writer.data), WriteAll(fields[i..])) == goal
    {
      WriteStep(fields, i, writer.data);
      ok := WriteField(fields[i], writer);
      if !ok {
        return;
      }
    }
    assert fields[|fields|..] == [];
    AppendNothing(Some(writer.data));
    return true;
  }

  lemma WriteStep(fields: seq<Field>, i: nat, written: Bytes)
    requires i < |fields|
    ensures var record := Written(fields[i]);
            Append(Some(written), WriteAll(fields[i..])) ==
            if record == None then None
            else Append(Some(written + record.value), WriteAll(fields[i + 1..]))
  {
    var record, more := Written(fields[i]), WriteAll(fields[i + 1..]);
    assert fields[i..][1..] == fields[i + 1..];
    assert WriteAll(fields[i..]) == Append(record, more);
    if record.Some? {
      AppendAssociates(written, record.value, more);
    }
  }

  lemma AppendNothing(more: Option<Bytes>)
    ensures Append(Some([]), more) == more
    ensures Append(more, Some([])) == more
  {
    if more.Some? {
      assert [] + more.value == more.value == more.value + [];
    }
  }

  lemma AppendAssociates(a: Bytes, b: Bytes, more: Option<Bytes>)
    ensures Append(Some(a), Append(Some(b), more)) == Append(Some(a + b), more)
  {
    if more.Some? {
      assert a + (b + more.value) == a + b + more.value;
    }
  }

  method Pack(h: TorrsHash, z: Zlib) returns (token: Option<Bytes>)
    ensures token == Token(h, z)
  {
    var hashBytes := DecodeHex(TrimSpace(h.hash));
    if hashBytes == None {
      return None;
    }
    var writer := new ByteSink();
    writer.Write(hashBytes.value);
    assert writer.data == hashBytes.value;
    var ok := WriteFields(h.fields, writer);
    if !ok {
      return None;
    }
    assert RawBytes(h) == Some(writer.data);
    var text := Encode62(z.compress(writer.data));
    return Some(text);
  }

  method ReadFields(reader: ByteSource) returns (c: Contents)
    modifies reader
    ensures c == ReadAll(old(reader.rest), reader.eager)
  {
    var fields: seq<Field> := [];
    ghost var all := ReadAll(reader.rest, reader.eager);
    while true
      invariant all == Prepend(fields, ReadAll(reader.rest, reader.eager))
      decreases |reader.rest|
    {
      ghost var next := ParseField(reader.rest, reader.eager);
      var field := ReadField(reader);
      match field {
        case NoField => return Contents(fields, false);
        case FieldError => return Contents(fields, true);
        case Read(f) =>
          PrependAssociates(fields, [f], ReadAll(next.rest, reader.eager));
          fields := fields + [f];
      }
    }
  }

  method Unpack(token: Bytes, z: Zlib, eager: bool) returns (u: Unpacked)
    ensures u == FromToken(token, z, eager)
  {
    var data := Decode62(TrimSpace(token));
    var raw := z.decompress(data);
    if raw == None {
      return BadToken;
    }
    var reader := new ByteSource(raw.value, eager);
    var ok, hashBuf := reader.ReadFull(HASH_SIZE);
    if !ok {
      return BadToken;
    }
    var c := ReadFields(reader);
    var th := TorrsHash(EncodeHex(hashBuf), c.fields);
    return if c.failed then Broken(th) else Complete(th);
  }

  // ---- the round trip ---------------------------------------------------------------------------

  ghost predicate AllEncodable(fields: seq<Field>) {
    forall i :: 0 <= i < |fields| && Kept(fields[i]) ==> Encodable(fields[i])
  }

  lemma {:induction false} ReadWhatWasWritten(fields: seq<Field>, eager: bool)
    requires AllEncodable(fields)
    ensures WriteAll(fields).Some?
    ensures ReadAll(WriteAll(fields).value, eager) == Contents(NormalFields(fields), false)
  {
    if fields != [] {
      ReadWhatWasWritten(fields[1..], eager);
      var tail := WriteAll(fields[1..]).value;
      if Kept(fields[0]) {
        FieldRoundTrip(fields[0], tail, eager);
      } else {
        assert WriteAll(fields).value == tail;
      }
    }
  }

  lemma {:induction false} ReadFieldsShape(rest: Bytes, eager: bool)
    ensures forall f :: f in ReadAll(rest, eager).fields ==> Representable(f.tag, f.value)
    decreases |rest|
  {
    ParsedShape(rest, eager);
    match ParseField(rest, eager)
    case Got(f, tail) => ReadFieldsShape(tail, eager);
    case _ =>
  }

  lemma {:induction false} NormalFieldsMember(fields: seq<Field>, i: nat)
    requires i < |fields| && Kept(fields[i])
    ensures Normal(fields[i]) in NormalFields(fields)
  {
    if i > 0 {
      NormalFieldsMember(fields[1..], i - 1);
    }
  }

  lemma EncodedIsTrimmed(b: Bytes)
    ensures TrimSpace(Encode(b)) == Encode(b)
  {
    var s := Encode(b);
    assert forall i :: 0 <= i < |s| ==> 48 <= s[i] <= 122 by {
      forall i | 0 <= i < |s| ensures 48 <= s[i] <= 122 {
        assert IndexOf(s[i]) >= 0;
      }
    }
    assert IsTrimmed(s);
  }

  /** The base-62 text and the compression are transparent: Unpack sees the bytes Pack wrote. */
  lemma TokenCarriesRaw(h: TorrsHash, z: Zlib, eager: bool)
    requires z.Valid() && Token(h, z).Some?
    ensures FromToken(Token(h, z).value, z, eager) == FromRaw(RawBytes(h).value, eager)
  {
    var c := z.compress(RawBytes(h).value);
    EncodedIsTrimmed(c);
    DecodeEncode(c);
    assert StripZeroBytes(c) == c;
  }

  /** The hashes whose tokens are faithful; all of it can be checked before packing. */
  ghost predicate Packable(h: TorrsHash) {
    var hash := DecodeHex(TrimSpace(h.hash));
    hash.Some? && |hash.value| == HASH_SIZE && AllEncodable(h.fields)
  }

  ghost predicate Survives(h: TorrsHash, z: Zlib, eager: bool) {
    Token(h, z).Some? && FromToken(Token(h, z).value, z, eager) == Complete(NormalHash(h))
  }

  lemma PackableSurvives(h: TorrsHash, z: Zlib, eager: bool)
    requires z.Valid() && Packable(h)
    ensures Survives(h, z, eager)
  {
    var hash := DecodeHex(TrimSpace(h.hash)).value;
    ReadWhatWasWritten(h.fields, eager);
    TokenCarriesRaw(h, z, eager);
    var raw := RawBytes(h).value;
    assert raw[..HASH_SIZE] == hash && raw[HASH_SIZE..] == WriteAll(h.fields).value;
    HexLowers(TrimSpace(h.hash));
  }

  lemma ReadBack(h: TorrsHash, raw: Bytes, eager: bool)
    requires FromRaw(raw, eager) == Complete(NormalHash(h))
    ensures |raw| >= HASH_SIZE && |TrimSpace(h.hash)| == 2 * HASH_SIZE
    ensures ReadAll(raw[HASH_SIZE..], eager).fields == NormalFields(h.fields)
  {
    assert |Lower(TrimSpace(h.hash))| == |EncodeHex(raw[..HASH_SIZE])|;
  }

  lemma SurvivorIsPackable(h: TorrsHash, z: Zlib, eager: bool)
    requires z.Valid() && Survives(h, z, eager)
    ensures Packable(h)
  {
    TokenCarriesRaw(h, z, eager);
    var raw := RawBytes(h).value;
    ReadBack(h, raw, eager);
    ReadFieldsShape(raw[HASH_SIZE..], eager);
    forall i | 0 <= i < |h.fields| && Kept(h.fields[i]) ensures Encodable(h.fields[i]) {
      NormalFieldsMember(h.fields, i);
    }
  }

  /** Packing and unpacking gives back the hash in lower case and the kept fields, trimmed and in
      order, exactly when the hash is 20 bytes long and every kept field is encodable. */
  lemma PackUnpack(h: TorrsHash, z: Zlib, eager: bool)
    requires z.Valid()
    ensures Survives(h, z, eager) <==> Packable(h)
  {
    if Packable(h) {
      PackableSurvives(h, z, eager);
    }
    if Survives(h, z, eager) {
      SurvivorIsPackable(h, z, eager);
    }
  }

  /** The hexadecimal digits: lower case when written, either case when read, and nothing else. */
  lemma HexDigitIs(d: nat, c: byte)
    requires d < 16
    ensures Nibble(d) as int == "0123456789abcdef"[d] as int
    ensures NibbleValue(c) == d <==>
              c as int == "0123456789abcdef"[d] as int || c as int == "0123456789ABCDEF"[d] as int
  {
  }

  /** Each byte is two digits, the more significant first. */
  lemma {:induction false} HexAt(s: Bytes, i: nat)
    requires DecodeHex(s).Some? && i < |DecodeHex(s).value|
    ensures 0 <= NibbleValue(s[2 * i]) && 0 <= NibbleValue(s[2 * i + 1])
    ensures DecodeHex(s).value[i] as int == 16 * NibbleValue(s[2 * i]) + NibbleValue(s[2 * i + 1])
  {
    if i > 0 {
      HexAt(s[2..], i - 1);
    }
  }

  /** White space around a token, a hash or a value makes no difference. */
  lemma MayBePadded(token: Bytes, h: TorrsHash, f: Field, z: Zlib, eager: bool)
    ensures FromToken(token, z, eager) == FromToken(TrimSpace(token), z, eager)
    ensures Token(h, z) == Token(h.(hash := TrimSpace(h.hash)), z)
    ensures Written(f) == Written(f.(value := TrimSpace(f.value)))
  {
    assert TrimSpace(TrimSpace(token)) == TrimSpace(token);
    assert TrimSpace(TrimSpace(h.hash)) == TrimSpace(h.hash);
    assert TrimSpace(TrimSpace(f.value)) == TrimSpace(f.value);
  }

  /** Text without a code point of white space at either end, which is not empty. */
  predicate Solid(v: Bytes) {
    v != [] && TrimSpace(v) == v
  }

  lemma {:induction false} SolidFieldsAreKept(fields: seq<Field>)
    requires forall i :: 0 <= i < |fields| ==>
               Solid(fields[i].value) && !(fields[i].tag == 4 && fields[i].value == [48])
    ensures NormalFields(fields) == fields
  {
    if fields != [] {
      SolidFieldsAreKept(fields[1..]);
      assert fields == [fields[0]] + fields[1..];
    }
  }

  lemma {:induction false} HexTextDecodes(s: Bytes)
    requires |s| % 2 == 0
    requires forall i :: 0 <= i < |s| ==> 48 <= s[i] <= 57 || 97 <= s[i] <= 102
    ensures DecodeHex(s).Some?
  {
    if s != [] {
      HexTextDecodes(s[2..]);
    }
  }

  /** The round trip without normalising: forty lower-case hexadecimal digits, and any list of fields
      with one-byte tags, texts of less than 65536 bytes without outer white space, and sizes that are
      64-bit integers other than zero as they are printed, come back from their token as they were. */
  lemma ExactlyAsItWas(hash: Bytes, fields: seq<Field>, z: Zlib, eager: bool)
    requires z.Valid() && |hash| == 40
    requires forall i :: 0 <= i < |hash| ==> 48 <= hash[i] <= 57 || 97 <= hash[i] <= 102
    requires forall i :: 0 <= i < |fields| ==>
               var f := fields[i];
               && Solid(f.value) && 0 <= f.tag < 256
               && (f.tag != 4 ==> |f.value| < 65536)
               && (f.tag == 4 ==>
                     && f.value != [48] && ParseInt(f.value).Some?
                     && FormatInt(ParseInt(f.value).value) == f.value)
    ensures var h := TorrsHash(hash, fields);
            Token(h, z).Some? && FromToken(Token(h, z).value, z, eager) == Complete(h)
  {
    var h := TorrsHash(hash, fields);
    PrintingIsTrimmed(hash);
    HexTextDecodes(hash);
    SolidFieldsAreKept(fields);
    assert Lower(hash) == hash;
    forall i | 0 <= i < |fields| && Kept(fields[i]) ensures Encodable(fields[i]) {
    }
    PackUnpack(h, z, eager);
  }

  // ---- what Unpack delivers ----------------------------------------------------------------------

  lemma {:induction false} HexRoundTrip(b: Bytes)
    ensures DecodeHex(EncodeHex(b)) == Some(b)
  {
    if b != [] {
      var s := EncodeHex(b);
      HexRoundTrip(b[1..]);
      assert s[2..] == EncodeHex(b[1..]);
      assert b == [b[0]] + b[1..];
    }
  }

  lemma {:induction false} HexIsAscii(b: Bytes)
    ensures forall i :: 0 <= i < |EncodeHex(b)| ==> 48 <= EncodeHex(b)[i] < 128
  {
    if b != [] {
      HexIsAscii(b[1..]);
    }
  }

  /** Text of printing ASCII bytes carries no white space. */
  lemma PrintingIsTrimmed(s: Bytes)
    requires forall i :: 0 <= i < |s| ==> 33 <= s[i] < 128
    ensures TrimSpace(s) == s
  {
    assert IsTrimmed(s);
  }

  lemma DeliveredFieldIsEncodable(f: Field)
    requires Representable(f.tag, f.value)
    ensures Encodable(f)
  {
    if IsBinary(f.tag) {
      var n := ParseInt(f.value).value;
      var digits := Decimal(if n < 0 then -n else n);
      assert f.value == if n < 0 then [MINUS] + digits else digits;
      PrintingIsTrimmed(f.value);
    }
  }

  /** What Unpack delivers in full can be packed again, and comes back: the other direction of the
      round trip. */
  lemma DeliveredSurvives(token: Bytes, z: Zlib, eager: bool)
    requires z.Valid() && FromToken(token, z, eager).Complete?
    ensures var h := FromToken(token, z, eager).whole; Packable(h) && Survives(h, z, eager)
  {
    var raw := z.decompress(Decode(TrimSpace(token))).value;
    DeliveredIsPackable(raw, eager);
    PackUnpack(FromRaw(raw, eager).whole, z, eager);
  }

  lemma DeliveredIsPackable(raw: Bytes, eager: bool)
    requires FromRaw(raw, eager).Complete?
    ensures Packable(FromRaw(raw, eager).whole)
  {
    var hash, h := raw[..HASH_SIZE], FromRaw(raw, eager).whole;
    HexRoundTrip(hash);
    HexIsAscii(hash);
    PrintingIsTrimmed(EncodeHex(hash));
    ReadFieldsShape(raw[HASH_SIZE..], eager);
    forall i | 0 <= i < |h.fields| ensures Encodable(h.fields[i]) {
      assert h.fields[i] in h.fields;
      DeliveredFieldIsEncodable(h.fields[i]);
    }
  }

  // ---- a size that breaks the trip -----------------------------------------------------------------

  lemma DoubleZeroRecord()
    ensures Written(Field(TAG_SIZE, [DIGIT0, DIGIT0])) == Some([TAG_SIZE as byte])
  {
    var text := [DIGIT0, DIGIT0];
    assert IsTrimmed(text);
    var d := DigitValues(text);
    assert Positional.ValueOf(d, 10) == 0 by {
      assert d[..1][..0] == [];
      assert Positional.ValueOf(d[..1], 10) == 0;
    }
    assert ParseInt(text) == Some(0);
  }

  /** A size field spelled "00" is not dropped, and breaks the token: the writer leaves a lone tag that
      the reader takes for the start of a number. If the decompressor announces the end of the stream
      apart from the last byte, Unpack reports an error; if it announces it together with the last
      byte, Unpack succeeds and the field is silently lost. Either way the trip fails. */
  lemma DoubleZeroSizeBreaks(hash: Bytes, z: Zlib, eager: bool)
    requires z.Valid() && DecodeHex(TrimSpace(hash)).Some? && |DecodeHex(TrimSpace(hash)).value| == HASH_SIZE
    ensures var h := TorrsHash(hash, [Field(TAG_SIZE, [DIGIT0, DIGIT0])]);
            var bare := TorrsHash(Lower(TrimSpace(hash)), []);
            && Token(h, z).Some?
            && FromToken(Token(h, z).value, z, eager) == (if eager then Complete(bare) else Broken(bare))
            && !Survives(h, z, eager)
  {
    var f := Field(TAG_SIZE, [DIGIT0, DIGIT0]);
    var h := TorrsHash(hash, [f]);
    DoubleZeroRecord();
    LoneRecord(f);
    TokenCarriesRaw(h, z, eager);
    HexLowers(TrimSpace(hash));
    LoneTag(DecodeHex(TrimSpace(hash)).value, eager);
    DoubleZeroIsKept();
  }

  lemma LoneTag(hash: Bytes, eager: bool)
    requires |hash| == HASH_SIZE
    ensures var bare := TorrsHash(EncodeHex(hash), []);
            FromRaw(hash + [TAG_SIZE as byte], eager) == if eager then Complete(bare) else Broken(bare)
  {
    var raw := hash + [TAG_SIZE as byte];
    assert raw[..HASH_SIZE] == hash && raw[HASH_SIZE..] == [TAG_SIZE as byte];
    assert ReadAll(raw[HASH_SIZE..], eager) == Contents([], !eager);
  }

  /** Records are written one after the other, in the order of the list. */
  lemma {:induction false} WriteAllConcat(a: seq<Field>, b: seq<Field>)
    ensures WriteAll(a + b) == Append(WriteAll(a), WriteAll(b))
  {
    if a == [] {
      assert a + b == b;
      AppendNothing(WriteAll(b));
    } else {
      WriteAllConcat(a[1..], b);
      FirstOfBoth(a, b);
      AppendsAssociate(Written(a[0]), WriteAll(a[1..]), WriteAll(b));
    }
  }

  lemma FirstOfBoth(a: seq<Field>, b: seq<Field>)
    requires a != []
    ensures WriteAll(a + b) == Append(Written(a[0]), WriteAll(a[1..] + b))
  {
    HeadAndTail(a, b);
  }

  lemma HeadAndTail(a: seq<Field>, b: seq<Field>)
    requires a != []
    ensures a + b != [] && (a + b)[0] == a[0] && (a + b)[1..] == a[1..] + b
  {
  }

  lemma AppendsAssociate(a: Option<Bytes>, b: Option<Bytes>, c: Option<Bytes>)
    ensures Append(a, Append(b, c)) == Append(Append(a, b), c)
  {
    if a.Some? && b.Some? {
      AppendAssociates(a.value, b.value, c);
    }
  }

  lemma LoneRecord(f: Field)
    ensures WriteAll([f]) == Written(f)
  {
    assert [f][1..] == [];
    assert WriteAll([]) == Some([]);
    AppendNothing(Written(f));
  }

  lemma DoubleZeroIsKept()
    ensures |NormalFields([Field(TAG_SIZE, [DIGIT0, DIGIT0])])| == 1
  {
    var f := Field(TAG_SIZE, [DIGIT0, DIGIT0]);
    assert IsTrimmed(f.value);
    assert [f][1..] == [];
  }
}
