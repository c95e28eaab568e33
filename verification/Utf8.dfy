/** UTF-8 text as Rust's `str` holds it: bytes that encode some sequence of
    characters (section 3 of RFC 3629), with the boundary test that
    guards every slice. */
module Utf8 {
  newtype byte = x: int | 0 <= x < 256

  function EncodeChar(c: char): (r: seq<byte>)
    ensures 1 <= |r| <= 4 && !IsContinuation(r[0])
    ensures forall i :: 1 <= i < |r| ==> IsContinuation(r[i])
  {
    var v := c as int;
    if v < 0x80 then [v as byte]
    else if v < 0x800 then [(0xC0 + v / 0x40) as byte, Continuation(v)]
    else if v < 0x1_0000 then [(0xE0 + v / 0x1000) as byte, Continuation(v / 0x40), Continuation(v)]
    else [(0xF0 + v / 0x4_0000) as byte, Continuation(v / 0x1000), Continuation(v / 0x40), Continuation(v)]
  }

  function Continuation(v: nat): (b: byte)
    ensures IsContinuation(b)
  {
    (0x80 + v % 0x40) as byte
  }

  predicate IsContinuation(b: byte) { 0x80 <= b < 0xC0 }

  function Encode(s: string): seq<byte> {
    if s == [] then [] else EncodeChar(s[0]) + Encode(s[1..])
  }

  /** Reading the first character back, by its lead byte. */
  function DecodeFirst(t: seq<byte>): int
    requires t != []
  {
    var lead := t[0] as int;
    if lead < 0x80 then lead
    else if lead < 0xE0 && |t| >= 2 then (lead - 0xC0) * 0x40 + (t[1] as int - 0x80)
    else if lead < 0xF0 && |t| >= 3 then (lead - 0xE0) * 0x1000 + (t[1] as int - 0x80) * 0x40 + (t[2] as int - 0x80)
    else if |t| >= 4 then
      (lead - 0xF0) * 0x4_0000 + (t[1] as int - 0x80) * 0x1000 + (t[2] as int - 0x80) * 0x40 + (t[3] as int - 0x80)
    else -1
  }

  /** A character's bytes: they read back, as few as the value allows, and all
      but the first are in the range no first byte is in. */
  lemma CharReadsBack(c: char)
    ensures DecodeFirst(EncodeChar(c)) == c as int
    ensures |EncodeChar(c)| == (if c as int < 0x80 then 1 else if c as int < 0x800 then 2 else if c as int < 0x1_0000 then 3 else 4)
    ensures forall i :: 0 <= i < |EncodeChar(c)| ==> (i > 0 <==> 0x80 <= EncodeChar(c)[i] <= 0xBF)
  {
    SixBits(c as int);
    SixBits(c as int / 0x40);
    SixBits(c as int / 0x1000);
    Shifts(c as int);
  }

  lemma SixBits(v: nat)
    ensures Continuation(v) as int == 0x80 + v % 0x40 && v == v / 0x40 * 0x40 + v % 0x40
    ensures forall b: byte :: IsContinuation(b) <==> b as int / 0x40 == 2
  {
  }

  lemma Shifts(v: nat)
    ensures v / 0x40 / 0x40 == v / 0x1000 && v / 0x1000 / 0x40 == v / 0x4_0000
  {
  }

  /** A text's bytes are its characters' bytes, one after the other, and any
      text's bytes are valid. */
  lemma {:induction false} TextIsEncoded(s: string, i: nat)
    requires i < |s|
    ensures Encode(s) == Encode(s[..i]) + EncodeChar(s[i]) + Encode(s[i + 1..])
    ensures Valid(Encode(s)) && Encode("") == []
  {
    assert s == s[..i] + ([s[i]] + s[i + 1..]);
    EncodeConcat(s[..i], [s[i]] + s[i + 1..]);
    assert ([s[i]] + s[i + 1..])[1..] == s[i + 1..];
  }

  /** `str::is_char_boundary`. */
  predicate IsCharBoundary(t: seq<byte>, i: nat) {
    i == 0 || i == |t| || (i < |t| && !IsContinuation(t[i]))
  }

  ghost predicate Valid(t: seq<byte>) {
    exists s :: Encode(s) == t
  }

  lemma {:induction false} EncodeConcat(a: string, b: string)
    ensures Encode(a + b) == Encode(a) + Encode(b)
  {
    if a == [] {
      assert a + b == b;
    } else {
      EncodeConcat(a[1..], b);
      assert (a + b)[0] == a[0] && (a + b)[1..] == a[1..] + b;
    }
  }

  lemma ValidConcat(t: seq<byte>, u: seq<byte>)
    requires Valid(t) && Valid(u)
    ensures Valid(t + u)
  {
    var a :| Encode(a) == t;
    var b :| Encode(b) == u;
    EncodeConcat(a, b);
  }

  lemma {:induction false} BoundaryIndex(s: string, i: nat) returns (k: nat)
    requires i <= |Encode(s)| && IsCharBoundary(Encode(s), i)
    ensures k <= |s| && |Encode(s[..k])| == i
  {
    if i == 0 {
      return 0;
    }
    var head, rest := EncodeChar(s[0]), Encode(s[1..]);
    assert i >= |head|;
    k := BoundaryIndex(s[1..], i - |head|);
    k := k + 1;
    assert s[..k][1..] == s[1..][..k - 1];
  }

  /** A boundary falls between two characters, never inside one. */
  lemma BoundaryBetweenCharacters(s: string, i: nat) returns (k: nat)
    requires i <= |Encode(s)| && IsCharBoundary(Encode(s), i)
    ensures k <= |s| && Encode(s[..k]) == Encode(s)[..i] && Encode(s[k..]) == Encode(s)[i..]
  {
    k := BoundaryIndex(s, i);
    EncodeConcat(s[..k], s[k..]);
    assert s[..k] + s[k..] == s;
  }

  /** And wherever one character ends is a boundary. */
  lemma CharactersEndAtBoundaries(s: string, k: nat)
    requires k <= |s|
    ensures |Encode(s[..k])| <= |Encode(s)| && IsCharBoundary(Encode(s), |Encode(s[..k])|)
  {
    EncodeConcat(s[..k], s[k..]);
    assert s[..k] + s[k..] == s;
    if k < |s| {
      assert Encode(s)[|Encode(s[..k])|] == Encode(s[k..])[0] == EncodeChar(s[k])[0];
    }
  }

  /** Slicing valid text at boundaries gives valid text. */
  lemma ValidSlice(t: seq<byte>, lo: nat, hi: nat)
    requires Valid(t) && lo <= hi <= |t| && IsCharBoundary(t, lo) && IsCharBoundary(t, hi)
    ensures Valid(t[lo..hi])
  {
    var s :| Encode(s) == t;
    var k := BoundaryBetweenCharacters(s, hi);
    var head := s[..k];
    assert t[..hi][lo..] == t[lo..hi];
    var j := BoundaryBetweenCharacters(head, lo);
  }

  /** Where a valid suffix starts is a boundary. */
  lemma ValidSuffixBoundary(t: seq<byte>, i: nat)
    requires i <= |t| && Valid(t[i..])
    ensures IsCharBoundary(t, i)
  {
    var s :| Encode(s) == t[i..];
    if i < |t| {
      assert t[i] == t[i..][0] == EncodeChar(s[0])[0];
    }
  }
}
