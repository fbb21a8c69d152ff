/** Cutting text to a number of bytes without cutting a character: truncateUTF8. */
module Text {

  newtype byte = x: int | 0 <= x < 256

  type Bytes = seq<byte>

  predicate Continues(s: Bytes, i: nat) {
    i < |s| && 0x80 <= s[i] <= 0xBF
  }

  /** The length of the well-formed UTF-8 character at the start (RFC 3629, section 4), or 0. */
  function Width(s: Bytes): (w: nat)
    ensures w <= 4 && w <= |s|
  {
    if s == [] then 0
    else if s[0] <= 0x7F then 1
    else if 0xC2 <= s[0] <= 0xDF then if Continues(s, 1) then 2 else 0
    else if 0xE0 <= s[0] <= 0xEF then
      if Continues(s, 1) && Continues(s, 2) && (s[0] == 0xE0 ==> s[1] >= 0xA0) && (s[0] == 0xED ==> s[1] <= 0x9F) then 3 else 0
    else if 0xF0 <= s[0] <= 0xF4 then
      if Continues(s, 1) && Continues(s, 2) && Continues(s, 3) && (s[0] == 0xF0 ==> s[1] >= 0x90) && (s[0] == 0xF4 ==> s[1] <= 0x8F)
      then 4 else 0
    else 0
  }

  /** What a character may be (RFC 3629, section 3): a code point that is no surrogate. */
  predicate IsScalar(cp: nat) {
    cp <= 0x10FFFF && !(0xD800 <= cp <= 0xDFFF)
  }

  /** The bytes of a character, by the table in section 3 of RFC 3629. */
  function Encoded(cp: nat): Bytes
    requires IsScalar(cp)
  {
    if cp < 0x80 then [cp as byte]
    else if cp < 0x800 then [(0xC0 + cp / 0x40) as byte, Tail(cp)]
    else if cp < 0x10000 then [(0xE0 + cp / 0x40 / 0x40) as byte, Tail(cp / 0x40), Tail(cp)]
    else [(0xF0 + cp / 0x40 / 0x40 / 0x40) as byte, Tail(cp / 0x40 / 0x40), Tail(cp / 0x40), Tail(cp)]
  }

  /** A continuation byte with the last six bits. */
  function Tail(n: nat): byte {
    (0x80 + n % 0x40) as byte
  }

  /** A well-formed character is the encoding of a character, in the shortest form; */
  lemma CharacterIsEncoded(s: Bytes) returns (cp: nat)
    requires Width(s) > 0
    ensures IsScalar(cp) && Encoded(cp) == s[..Width(s)]
  {
    var w := Width(s);
    if w == 1 {
      cp := s[0] as nat;
    } else if w == 2 {
      cp := Joined(s[0] as nat - 0xC0, s[1]);
    } else if w == 3 {
      cp := Joined(s[0] as nat - 0xE0, s[1]);
      cp := Joined(cp, s[2]);
    } else {
      cp := Joined(s[0] as nat - 0xF0, s[1]);
      cp := Joined(cp, s[2]);
      cp := Joined(cp, s[3]);
    }
  }

  /** Six more bits. */
  lemma Joined(high: nat, b: byte) returns (n: nat)
    requires 0x80 <= b <= 0xBF
    ensures n == high * 0x40 + Bits(b) && n / 0x40 == high && Tail(n) == b
  {
    n := high * 0x40 + Bits(b);
  }

  function Bits(b: byte): nat
    requires b >= 0x80
  {
    b as nat - 0x80
  }

  /** and every encoding is well-formed, whatever follows it. */
  lemma EncodedIsCharacter(cp: nat, rest: Bytes)
    requires IsScalar(cp)
    ensures Width(Encoded(cp) + rest) == |Encoded(cp)|
  {}

  predicate ValidUTF8(s: Bytes) {
    s == [] || (Width(s) > 0 && ValidUTF8(s[Width(s)..]))
  }

  lemma PrefixWidth(s: Bytes, n: nat)
    requires 0 < Width(s) <= n <= |s|
    ensures Width(s[..n]) == Width(s)
  {}

  /** Every position of well-formed text is at most three bytes after a character boundary. */
  lemma {:induction false} BoundaryIsNear(s: Bytes, n: nat) returns (e: nat)
    requires ValidUTF8(s) && n <= |s|
    ensures e <= n <= e + 3 && ValidUTF8(s[..e])
    decreases |s|
  {
    var w := Width(s);
    if n == 0 || w > n {
      e := 0;
    } else {
      e := BoundaryIsNear(s[w..], n - w);
      e := w + e;
      PrefixWidth(s, e);
      assert s[..e][w..] == s[w..][..e - w];
    }
  }

  /** The text itself if it fits, and otherwise the longest well-formed prefix that does. */
  ghost predicate IsCut(value: Bytes, maxBytes: int, r: Bytes) {
    && r <= value && (maxBytes <= 0 ==> r == []) && (maxBytes > 0 ==> |r| <= maxBytes)
    && (|value| <= maxBytes ==> r == value)
    && (0 < maxBytes < |value| ==> ValidUTF8(r) && forall e | |r| < e <= maxBytes :: !ValidUTF8(value[..e]))
  }

  lemma CutIsUnique(value: Bytes, maxBytes: int, r: Bytes, q: Bytes)
    requires IsCut(value, maxBytes, r) && IsCut(value, maxBytes, q)
    ensures r == q
  {
    assert r == value[..|r|] && q == value[..|q|];
  }

  /** The longest well-formed prefix that fits; of well-formed text at most three bytes more than needed are cut. */
  method TruncateUTF8(value: Bytes, maxBytes: int) returns (r: Bytes)
    ensures IsCut(value, maxBytes, r)
    ensures 0 < maxBytes < |value| && ValidUTF8(value) ==> |r| + 3 >= maxBytes
  {
    if maxBytes <= 0 { return []; }
    if |value| <= maxBytes { return value; }
    var end := maxBytes;
    while end > 0 && !ValidUTF8(value[..end])
      invariant 0 <= end <= maxBytes && forall e | end < e <= maxBytes :: !ValidUTF8(value[..e])
    {
      end := end - 1;
    }
    r := value[..end];
    if ValidUTF8(value) {
      var near := BoundaryIsNear(value, maxBytes);
    }
  }
}
