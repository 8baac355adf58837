/** Byte strings, as the Go code handles them, and white-space trimming on them. */
module GoBytes {

  newtype byte = x: int | 0 <= x < 256

  type Bytes = seq<byte>

  datatype Option<+T> = None | Some(value: T)

  /** Three bytes that encode one of the wide white-space code points (U+1680, U+2000-U+200A,
      U+2028, U+2029, U+202F, U+205F, U+3000) in UTF-8. */
  predicate WideSpace(a: byte, b: byte, c: byte) {
    || (a == 0xE1 && b == 0x9A && c == 0x80)
    || (a == 0xE2 && b == 0x80 && (0x80 <= c <= 0x8A || c == 0xA8 || c == 0xA9 || c == 0xAF))
    || (a == 0xE2 && b == 0x81 && c == 0x9F)
    || (a == 0xE3 && b == 0x80 && c == 0x80)
  }

  predicate NarrowSpace(a: byte) {
    9 <= a <= 13 || a == 32
  }

  predicate Latin1Space(a: byte, b: byte) {
    a == 0xC2 && (b == 0x85 || b == 0xA0)
  }

  /** The length of the white-space code point that `s` starts with, or 0. */
  function LeadingSpace(s: Bytes): (n: nat)
    ensures n <= |s| && n <= 3
  {
    if |s| >= 1 && NarrowSpace(s[0]) then 1
    else if |s| >= 2 && Latin1Space(s[0], s[1]) then 2
    else if |s| >= 3 && WideSpace(s[0], s[1], s[2]) then 3
    else 0
  }

  /** The length of the white-space code point that `s` ends with, or 0. */
  function TrailingSpace(s: Bytes): (n: nat)
    ensures n <= |s| && n <= 3
  {
    var k := |s|;
    if k >= 1 && NarrowSpace(s[k - 1]) then 1
    else if k >= 2 && Latin1Space(s[k - 2], s[k - 1]) then 2
    else if k >= 3 && WideSpace(s[k - 3], s[k - 2], s[k - 1]) then 3
    else 0
  }

  predicate IsTrimmed(s: Bytes) {
    LeadingSpace(s) == 0 && TrailingSpace(s) == 0
  }

  function TrimLeft(s: Bytes): (t: Bytes)
    ensures LeadingSpace(t) == 0 && |t| <= |s|
    ensures LeadingSpace(s) == 0 ==> t == s
    decreases |s|
  {
    if LeadingSpace(s) == 0 then s else TrimLeft(s[LeadingSpace(s)..])
  }

  function TrimRight(s: Bytes): (t: Bytes)
    ensures TrailingSpace(t) == 0 && t <= s
    ensures TrailingSpace(s) == 0 ==> t == s
    decreases |s|
  {
    if TrailingSpace(s) == 0 then s else TrimRight(s[..|s| - TrailingSpace(s)])
  }

  /** strings.TrimSpace: the result carries no outer white space, and trimming is idempotent. */
  function TrimSpace(s: Bytes): (t: Bytes)
    ensures IsTrimmed(t) && |t| <= |s|
    ensures IsTrimmed(s) ==> t == s
  {
    TrimRight(TrimLeft(s))
  }

  /** A run of white-space code points, read from its start. */
  predicate Blank(s: Bytes)
    decreases |s|
  {
    s == [] || (LeadingSpace(s) > 0 && Blank(s[LeadingSpace(s)..]))
  }

  /** The same, read from its end. */
  predicate BlankBack(s: Bytes)
    decreases |s|
  {
    s == [] || (TrailingSpace(s) > 0 && BlankBack(s[..|s| - TrailingSpace(s)]))
  }

  lemma BlankCons(s: Bytes, rest: Bytes)
    requires LeadingSpace(s) > 0 && Blank(rest)
    ensures Blank(s[..LeadingSpace(s)] + rest)
  {
    var n := LeadingSpace(s);
    var a := s[..n] + rest;
    assert a[..n] == s[..n];
    assert a[0] == s[0] && (n >= 2 ==> a[1] == s[1]) && (n >= 3 ==> a[2] == s[2]);
    assert LeadingSpace(a) == n;
    assert a[n..] == rest;
  }

  lemma BlankSnoc(s: Bytes, rest: Bytes)
    requires TrailingSpace(s) > 0 && BlankBack(rest)
    ensures BlankBack(rest + s[|s| - TrailingSpace(s)..])
  {
    var n, k := TrailingSpace(s), |s|;
    var b := rest + s[k - n..];
    var m := |b|;
    assert b[m - 1] == s[k - 1] && (n >= 2 ==> b[m - 2] == s[k - 2]) && (n >= 3 ==> b[m - 3] == s[k - 3]);
    assert TrailingSpace(b) == n;
    assert b[..m - n] == rest;
  }

  lemma LeftStep(s: Bytes, t: Bytes, k: nat)
    requires LeadingSpace(s) > 0 && k <= |s| - LeadingSpace(s)
    requires var rest := s[LeadingSpace(s)..]; t == rest[k..] && Blank(rest[..k])
    ensures var m := LeadingSpace(s) + k; t == s[m..] && Blank(s[..m])
  {
    var n := LeadingSpace(s);
    BlankCons(s, s[n..][..k]);
    assert s[..n + k] == s[..n] + s[n..][..k];
  }

  lemma {:induction false} TrimLeftDropsBlank(s: Bytes) returns (k: nat)
    ensures k <= |s| && TrimLeft(s) == s[k..] && Blank(s[..k])
    decreases |s|
  {
    var n := LeadingSpace(s);
    k := 0;
    if n > 0 {
      k := TrimLeftDropsBlank(s[n..]);
      LeftStep(s, TrimLeft(s), k);
      k := n + k;
    }
  }

  lemma RightStep(s: Bytes, k: nat)
    requires TrailingSpace(s) > 0 && k <= |s| - TrailingSpace(s)
    requires var front := s[..|s| - TrailingSpace(s)]; BlankBack(front[k..])
    ensures BlankBack(s[k..])
  {
    var m := |s| - TrailingSpace(s);
    BlankSnoc(s, s[..m][k..]);
    Split(s, k, m);
  }

  lemma Split(s: Bytes, k: nat, m: nat)
    requires k <= m <= |s|
    ensures s[k..] == s[..m][k..] + s[m..]
  {
  }

  lemma {:induction false} TrimRightDropsBlank(s: Bytes)
    ensures BlankBack(s[|TrimRight(s)|..])
    decreases |s|
  {
    var n := TrailingSpace(s);
    if n > 0 {
      TrimRightDropsBlank(s[..|s| - n]);
      RightStep(s, |TrimRight(s)|);
    }
  }

  /** Trimming takes white space off both ends and leaves what is between them. */
  lemma TrimSpaceDropsBlanks(s: Bytes)
    ensures exists i, j :: 0 <= i <= j <= |s| && TrimSpace(s) == s[i..j] && Blank(s[..i]) && BlankBack(s[j..])
  {
    var i := TrimLeftDropsBlank(s);
    TrimRightDropsBlank(s[i..]);
    var j := i + |TrimSpace(s)|;
    Middle(s, i, |TrimSpace(s)|);
    assert TrimSpace(s) == s[i..j];
  }

  lemma Middle(s: Bytes, i: nat, n: nat)
    requires i + n <= |s|
    ensures s[i..][..n] == s[i..i + n] && s[i..][n..] == s[i + n..]
  {
  }
}
