/**
 * The conversions between bytes and base64url text (apps/portal-api/public/encoding.js), built on
 * the platform's `btoa` and `atob`.
 */
module Base64Url {
  import opened Common

  type Byte = n: int | 0 <= n < 256

  /** Six bits, the value of one base64 character. */
  type Sextet = n: int | 0 <= n < 64

  const PLUS: CodeUnit := 0x2B
  const SLASH: CodeUnit := 0x2F
  const MINUS: CodeUnit := 0x2D
  const UNDERSCORE: CodeUnit := 0x5F
  const EQUALS: CodeUnit := 0x3D

  // ---------------------------------------------------------------------------
  // Regrouping bits, section 4 of RFC 4648
  // ---------------------------------------------------------------------------

  // The four sextets of three bytes.
  function Sextet1(x: nat): Sextet requires x < 256 { x / 4 }
  function Sextet2(x: nat, y: nat): Sextet requires x < 256 && y < 256 { x % 4 * 16 + y / 16 }
  function Sextet3(y: nat, z: nat): Sextet requires y < 256 && z < 256 { y % 16 * 4 + z / 64 }
  function Sextet4(z: nat): Sextet requires z < 256 { z % 64 }

  // The three bytes of four sextets.
  function Byte1(p: nat, q: nat): Byte requires p < 64 && q < 64 { p * 4 + q / 16 }
  function Byte2(q: nat, r: nat): Byte requires q < 64 && r < 64 { q % 16 * 16 + r / 4 }
  function Byte3(r: nat, s: nat): Byte requires r < 64 && s < 64 { r % 4 * 64 + s }

  function SextetsOf(b: seq<Byte>): seq<Sextet> {
    if |b| == 0 then []
    else if |b| == 1 then [Sextet1(b[0]), Sextet2(b[0], 0)]
    else if |b| == 2 then [Sextet1(b[0]), Sextet2(b[0], b[1]), Sextet3(b[1], 0)]
    else [Sextet1(b[0]), Sextet2(b[0], b[1]), Sextet3(b[1], b[2]), Sextet4(b[2])] + SextetsOf(b[3..])
  }

  /** Eight bits at a time; bits left over at the end are discarded. */
  function BytesOf(v: seq<Sextet>): seq<Byte> {
    if |v| < 2 then []
    else if |v| == 2 then [Byte1(v[0], v[1])]
    else if |v| == 3 then [Byte1(v[0], v[1]), Byte2(v[1], v[2])]
    else [Byte1(v[0], v[1]), Byte2(v[1], v[2]), Byte3(v[2], v[3])] + BytesOf(v[4..])
  }

  /** The bits of the last character that belong to no byte are zero, section 3.5 of RFC 4648. */
  ghost predicate ZeroTail(v: seq<Sextet>) {
    if |v| % 4 == 2 then v[|v| - 1] % 16 == 0
    else if |v| % 4 == 3 then v[|v| - 1] % 4 == 0
    else true
  }

  lemma BytesRegroup(x: Byte, y: Byte, z: Byte)
    ensures Byte1(Sextet1(x), Sextet2(x, y)) == x
    ensures Byte2(Sextet2(x, y), Sextet3(y, z)) == y
    ensures Byte3(Sextet3(y, z), Sextet4(z)) == z
  {}

  lemma SextetsRegroup(p: Sextet, q: Sextet, r: Sextet, s: Sextet)
    ensures Sextet1(Byte1(p, q)) == p
    ensures Sextet2(Byte1(p, q), Byte2(q, r)) == q
    ensures Sextet3(Byte2(q, r), Byte3(r, s)) == r
    ensures Sextet4(Byte3(r, s)) == s
    ensures q % 16 == 0 ==> Sextet2(Byte1(p, q), 0) == q
    ensures r % 4 == 0 ==> Sextet3(Byte2(q, r), 0) == r
  {}

  lemma {:induction false} SextetCount(b: seq<Byte>)
    ensures |SextetsOf(b)| == |b| / 3 * 4 + (if |b| % 3 == 0 then 0 else |b| % 3 + 1)
  {
    if |b| >= 3 {
      SextetCount(b[3..]);
      assert |b[3..]| / 3 == |b| / 3 - 1;
    }
  }

  lemma NoLoneCharacter(b: seq<Byte>)
    ensures |SextetsOf(b)| % 4 != 1
  {
    SextetCount(b);
  }

  /** Sextets carry their bytes. */
  lemma {:induction false} SextetsCarryBytes(b: seq<Byte>)
    ensures BytesOf(SextetsOf(b)) == b
  {
    if |b| >= 3 {
      SextetsCarryBytes(b[3..]);
      BytesRegroup(b[0], b[1], b[2]);
      GroupOfSextets(Sextet1(b[0]), Sextet2(b[0], b[1]), Sextet3(b[1], b[2]), Sextet4(b[2]), SextetsOf(b[3..]));
      assert b == [b[0], b[1], b[2]] + b[3..];
    } else if |b| == 2 {
      BytesRegroup(b[0], b[1], 0);
      assert b == [b[0], b[1]];
    } else if |b| == 1 {
      OneRegroups(b[0]);
      assert b == [b[0]];
    }
  }

  lemma OneRegroups(x: Byte)
    ensures Byte1(Sextet1(x), Sextet2(x, 0)) == x
  {}

  lemma GroupOfSextets(p: Sextet, q: Sextet, r: Sextet, s: Sextet, rest: seq<Sextet>)
    ensures BytesOf([p, q, r, s] + rest) == [Byte1(p, q), Byte2(q, r), Byte3(r, s)] + BytesOf(rest)
  {
    var v := [p, q, r, s] + rest;
    assert v[4..] == rest;
    assert v[0] == p && v[1] == q && v[2] == r && v[3] == s;
  }

  /** No stray bit is left at the end. */
  lemma {:induction false} SextetsEndInZeros(b: seq<Byte>)
    ensures ZeroTail(SextetsOf(b))
  {
    if |b| >= 3 {
      SextetsEndInZeros(b[3..]);
      ZeroTailOfGroup([Sextet1(b[0]), Sextet2(b[0], b[1]), Sextet3(b[1], b[2]), Sextet4(b[2])], SextetsOf(b[3..]));
    }
  }

  lemma ZeroTailOfGroup(group: seq<Sextet>, rest: seq<Sextet>)
    requires |group| == 4
    ensures ZeroTail(group + rest) <==> ZeroTail(rest)
  {
    var v := group + rest;
    assert |v| % 4 == |rest| % 4;
    if rest != [] { assert v[|v| - 1] == rest[|rest| - 1]; }
  }

  /** With a zero tail, bytes carry their sextets too. */
  lemma {:induction false} BytesCarrySextets(v: seq<Sextet>)
    requires |v| % 4 != 1 && ZeroTail(v)
    ensures SextetsOf(BytesOf(v)) == v
  {
    if |v| >= 4 {
      BytesCarrySextets(v[4..]);
      SextetsRegroup(v[0], v[1], v[2], v[3]);
      assert BytesOf(v)[3..] == BytesOf(v[4..]);
      assert v == [v[0], v[1], v[2], v[3]] + v[4..];
    } else if |v| == 3 {
      SextetsRegroup(v[0], v[1], v[2], 0);
    } else if |v| == 2 {
      SextetsRegroup(v[0], v[1], 0, 0);
    }
  }

  // ---------------------------------------------------------------------------
  // The base64 alphabet
  // ---------------------------------------------------------------------------

  function CharOf(value: Sextet): CodeUnit {
    if value < 26 then 0x41 + value
    else if value < 52 then 0x61 + value - 26
    else if value < 62 then 0x30 + value - 52
    else if value == 62 then PLUS
    else SLASH
  }

  predicate InAlphabet(c: CodeUnit) {
    0x41 <= c <= 0x5A || 0x61 <= c <= 0x7A || 0x30 <= c <= 0x39 || c == PLUS || c == SLASH
  }

  function ValueOf(c: CodeUnit): Sextet
    requires InAlphabet(c)
  {
    if 0x41 <= c <= 0x5A then c - 0x41
    else if 0x61 <= c <= 0x7A then c - 0x61 + 26
    else if 0x30 <= c <= 0x39 then c - 0x30 + 52
    else if c == PLUS then 62
    else 63
  }

  predicate Alphabetic(s: Text) {
    forall i :: 0 <= i < |s| ==> InAlphabet(s[i])
  }

  function Chars(v: seq<Sextet>): (s: Text)
    ensures |s| == |v| && Alphabetic(s)
  {
    seq(|v|, i requires 0 <= i < |v| => CharOf(v[i]))
  }

  function Values(s: Text): (v: seq<Sextet>)
    requires Alphabetic(s)
    ensures |v| == |s|
  {
    seq(|s|, i requires 0 <= i < |s| => ValueOf(s[i]))
  }

  lemma AlphabetInverts(v: seq<Sextet>, s: Text)
    ensures Values(Chars(v)) == v
    ensures Alphabetic(s) ==> Chars(Values(s)) == s
  {}

  // ---------------------------------------------------------------------------
  // btoa and atob
  // ---------------------------------------------------------------------------

  function Repeat(c: CodeUnit, n: nat): Text { seq(n, _ => c) }

  function Btoa(b: seq<Byte>): Text {
    Chars(SextetsOf(b)) + Repeat(EQUALS, (3 - |b| % 3) % 3)
  }

  predicate IsAsciiWhitespace(c: CodeUnit) { c == 0x09 || c == 0x0A || c == 0x0C || c == 0x0D || c == 0x20 }

  function WithoutWhitespace(s: Text): Text {
    if s == [] then []
    else (if IsAsciiWhitespace(s[0]) then [] else [s[0]]) + WithoutWhitespace(s[1..])
  }

  /** One or two equals signs are dropped from the end of a text of a multiple of four. */
  function WithoutPadding(s: Text): Text {
    var n := |s|;
    if n > 0 && n % 4 == 0 && s[n - 1] == EQUALS then
      if s[n - 2] == EQUALS then s[..n - 2] else s[..n - 1]
    else s
  }

  /** The forgiving decoder of the Infra standard: no bytes for an impossible length or character. */
  function Atob(s: Text): Option<seq<Byte>> {
    var data := WithoutPadding(WithoutWhitespace(s));
    if |data| % 4 == 1 || !Alphabetic(data) then None else Some(BytesOf(Values(data)))
  }

  // ---------------------------------------------------------------------------
  // The two conversions
  // ---------------------------------------------------------------------------

  function Replace(s: Text, from: CodeUnit, to: CodeUnit): (r: Text)
    ensures |r| == |s|
    ensures forall i :: 0 <= i < |s| ==> r[i] == if s[i] == from then to else s[i]
  {
    seq(|s|, i requires 0 <= i < |s| => if s[i] == from then to else s[i])
  }

  function StripTrailing(s: Text, c: CodeUnit): Text {
    if s != [] && s[|s| - 1] == c then StripTrailing(s[..|s| - 1], c) else s
  }

  function FromUrlAlphabet(s: Text): Text { Replace(Replace(s, MINUS, PLUS), UNDERSCORE, SLASH) }

  function ToUrlAlphabet(s: Text): Text { Replace(Replace(s, PLUS, MINUS), SLASH, UNDERSCORE) }

  function Decoded(value: Text): Option<seq<Byte>> {
    var padded := FromUrlAlphabet(value);
    Atob(padded + Repeat(EQUALS, (4 - |padded| % 4) % 4))
  }

  function Encoded(bytes: seq<Byte>): Text {
    StripTrailing(ToUrlAlphabet(Btoa(bytes)), EQUALS)
  }

  /** base64url text to a new buffer; an `atob` that throws gives none. */
  method FromBase64Url(value: Text) returns (buffer: Option<array<Byte>>)
    ensures buffer.None? <==> Decoded(value).None?
    ensures buffer.Some? ==> fresh(buffer.value) && buffer.value[..] == Decoded(value).value
  {
    var padded := FromUrlAlphabet(value);
    var decoded := Atob(padded + Repeat(EQUALS, (4 - |padded| % 4) % 4));
    if decoded.None? { return None; }
    var bytes := BufferOf(decoded.value);
    return Some(bytes);
  }

  /** `Uint8Array` of the units of a binary string. */
  method BufferOf(binary: seq<Byte>) returns (bytes: array<Byte>)
    ensures fresh(bytes) && bytes[..] == binary
  {
    bytes := new Byte[|binary|];
    for index := 0 to |binary|
      invariant bytes[..index] == binary[..index]
    {
      bytes[index] := binary[index];
    }
  }

  /** A buffer to base64url text without padding. */
  method ToBase64Url(buffer: array<Byte>) returns (value: Text)
    ensures value == Encoded(buffer[..])
  {
    var binary: seq<Byte> := [];
    for index := 0 to buffer.Length
      invariant binary == buffer[..index]
    {
      binary := binary + [buffer[index]];
    }
    assert binary == buffer[..];
    value := StripTrailing(ToUrlAlphabet(Btoa(binary)), EQUALS);
  }

  // ---------------------------------------------------------------------------
  // Padding comes off and goes back on
  // ---------------------------------------------------------------------------

  lemma {:induction false} NoWhitespace(s: Text)
    requires forall i :: 0 <= i < |s| ==> !IsAsciiWhitespace(s[i])
    ensures WithoutWhitespace(s) == s
  {
    if s != [] { NoWhitespace(s[1..]); }
  }

  /** `atob` of re-padded characters is the bytes they carry. */
  lemma AtobPadded(s: Text)
    requires Alphabetic(s) && |s| % 4 != 1
    ensures Atob(s + Repeat(EQUALS, (4 - |s| % 4) % 4)) == Some(BytesOf(Values(s)))
  {
    var n := (4 - |s| % 4) % 4;
    var padded := s + Repeat(EQUALS, n);
    NoWhitespace(padded);
    PaddingComesOff(s, n);
  }

  lemma PaddingComesOff(s: Text, n: nat)
    requires Alphabetic(s) && n <= 2 && (|s| + n) % 4 == 0
    ensures WithoutPadding(s + Repeat(EQUALS, n)) == s
  {
    var padded := s + Repeat(EQUALS, n);
    assert padded[..|s|] == s;
    if |s| > 0 { assert InAlphabet(padded[|s| - 1]); }
  }

  lemma {:induction false} StripRepeated(s: Text, n: nat)
    requires s == [] || s[|s| - 1] != EQUALS
    ensures StripTrailing(s + Repeat(EQUALS, n), EQUALS) == s
  {
    if n == 0 {
      assert s + Repeat(EQUALS, 0) == s;
    } else {
      StripRepeated(s, n - 1);
      assert (s + Repeat(EQUALS, n))[..|s| + n - 1] == s + Repeat(EQUALS, n - 1);
    }
  }

  lemma EncodedIsUnpadded(b: seq<Byte>)
    ensures Encoded(b) == ToUrlAlphabet(Chars(SextetsOf(b)))
  {
    var chars, n := Chars(SextetsOf(b)), (3 - |b| % 3) % 3;
    var url := ToUrlAlphabet(chars);
    assert ToUrlAlphabet(Btoa(b)) == url + Repeat(EQUALS, n);
    assert url != [] ==> InAlphabet(chars[|url| - 1]);
    StripRepeated(url, n);
  }

  lemma UrlAlphabetInverts(s: Text)
    requires Alphabetic(s)
    ensures FromUrlAlphabet(ToUrlAlphabet(s)) == s
  {
    forall i | 0 <= i < |s| ensures FromUrlAlphabet(ToUrlAlphabet(s))[i] == s[i] {
      assert InAlphabet(s[i]);
    }
  }

  // ---------------------------------------------------------------------------
  // Each conversion undoes the other
  // ---------------------------------------------------------------------------

  lemma DecodedChars(chars: Text)
    requires Alphabetic(chars) && |chars| % 4 != 1
    ensures Decoded(ToUrlAlphabet(chars)) == Some(BytesOf(Values(chars)))
  {
    UrlAlphabetInverts(chars);
    AtobPadded(chars);
  }

  /** The base64url alphabet, section 5 of RFC 4648. */
  ghost function UrlCharacter(v: Sextet): CodeUnit {
    if v < 26 then 0x41 + v
    else if v < 52 then 0x61 + (v - 26)
    else if v < 62 then 0x30 + (v - 52)
    else if v == 62 then 0x2D
    else 0x5F
  }

  /** Every character is the alphabet's for its six bits, and the six bits come in the order of the bytes. */
  lemma EncodedCharacters(b: seq<Byte>)
    ensures |Encoded(b)| == |SextetsOf(b)|
    ensures forall i :: 0 <= i < |Encoded(b)| ==> Encoded(b)[i] == UrlCharacter(SextetsOf(b)[i])
  {
    EncodedIsUnpadded(b);
  }

  lemma BitsInOrder(x: Byte, y: Byte, z: Byte)
    ensures var v: seq<int> := SextetsOf([x, y, z]);
      |v| == 4 && ((v[0] * 64 + v[1]) * 64 + v[2]) * 64 + v[3] == (x * 256 + y) * 256 + z
  {
    assert [x, y, z][3..] == [];
  }

  /** The two characters that are not base64's: three bytes of all 62, three of all 63. */
  lemma HyphenAndUnderscore()
    ensures Encoded([0xFB, 0xEF, 0xBE]) == [0x2D, 0x2D, 0x2D, 0x2D]
    ensures Encoded([0xFF, 0xFF, 0xFF]) == [0x5F, 0x5F, 0x5F, 0x5F]
  {
    AllAlike([0xFB, 0xEF, 0xBE], 62);
    AllAlike([0xFF, 0xFF, 0xFF], 63);
  }

  lemma AllAlike(b: seq<Byte>, v: Sextet)
    requires |b| == 3
    requires Sextet1(b[0]) == Sextet2(b[0], b[1]) == Sextet3(b[1], b[2]) == Sextet4(b[2]) == v
    ensures Encoded(b) == [UrlCharacter(v), UrlCharacter(v), UrlCharacter(v), UrlCharacter(v)]
  {
    EncodedCharacters(b);
    assert b[3..] == [] && SextetsOf(b) == [v, v, v, v];
  }

  /** The decoder takes the other base64 alphabet as well, and padding. */
  lemma StandardAlphabetToo(s: Text, t: Text)
    requires |s| == |t|
    requires forall i :: 0 <= i < |s| ==>
      t[i] == s[i] || (s[i] == 0x2D && t[i] == 0x2B) || (s[i] == 0x5F && t[i] == 0x2F)
    ensures Decoded(s) == Decoded(t)
  {
    assert FromUrlAlphabet(s) == FromUrlAlphabet(t);
  }

  /** The white space the decoder skips. */
  lemma SkippedUnits(c: CodeUnit)
    ensures WithoutWhitespace([c]) == if c in [0x09, 0x0A, 0x0C, 0x0D, 0x20] then [] else [c]
  {
    assert [c][1..] == [];
  }

  /** Six bits make no byte: a character on its own is refused, with white space behind it as well. */
  lemma LoneCharacterIsRefused(c: CodeUnit)
    requires c !in [0x09, 0x0A, 0x0C, 0x0D, 0x20]
    ensures Decoded([c, 0x20, 0x20, 0x20]).None?
  {
    WholeNeedsNoPadding([c, 0x20, 0x20, 0x20]);
    var d := if c == 0x2D then 0x2B else if c == 0x5F then 0x2F else c;
    assert FromUrlAlphabet([c, 0x20, 0x20, 0x20]) == [d, 0x20, 0x20, 0x20];
    OnlyFirst(d);
  }

  lemma OnlyFirst(d: CodeUnit)
    requires !IsAsciiWhitespace(d)
    ensures WithoutWhitespace([d, 0x20, 0x20, 0x20]) == [d]
  {
    assert [d, 0x20, 0x20, 0x20][1..] == [0x20, 0x20, 0x20];
    assert [0x20, 0x20, 0x20][1..] == [0x20, 0x20];
    assert [0x20, 0x20][1..] == [0x20];
    assert [0x20][1..] == [];
  }

  lemma PaddingIsTaken(b: seq<Byte>)
    ensures Decoded(Encoded(b) + Repeat(0x3D, Missing(|Encoded(b)|))) == Some(b)
  {
    var chars := Chars(SextetsOf(b));
    EncodedIsUnpadded(b);
    NoLoneCharacter(b);
    SextetsCarryBytes(b);
    AlphabetInverts(SextetsOf(b), []);
    PaddedDecodes(chars, ToUrlAlphabet(chars) + Repeat(0x3D, Missing(|chars|)));
  }

  /** How many units a length lacks to a multiple of four. */
  ghost function Missing(length: nat): (n: nat)
    ensures (length + n) % 4 == 0 && n < 4
  {
    (4 - length % 4) % 4
  }

  lemma PaddedDecodes(chars: Text, value: Text)
    requires Alphabetic(chars) && |chars| % 4 != 1
    requires value == ToUrlAlphabet(chars) + Repeat(0x3D, Missing(|chars|))
    ensures Decoded(value) == Some(BytesOf(Values(chars)))
  {
    UrlAlphabetInverts(chars);
    PaddingStays(ToUrlAlphabet(chars), Missing(|chars|));
    AtobPadded(chars);
    WholeNeedsNoPadding(value);
  }

  lemma WholeNeedsNoPadding(value: Text)
    requires |value| % 4 == 0
    ensures Decoded(value) == Atob(FromUrlAlphabet(value))
  {
    var padded := FromUrlAlphabet(value);
    NothingRepeated(padded, EQUALS, (4 - |padded| % 4) % 4);
  }

  lemma NothingRepeated(s: Text, c: CodeUnit, n: nat)
    requires n == 0
    ensures s + Repeat(c, n) == s
  {}

  lemma PaddingStays(s: Text, n: nat)
    ensures FromUrlAlphabet(s + Repeat(0x3D, n)) == FromUrlAlphabet(s) + Repeat(0x3D, n)
  {
  }

  /** Every byte sequence survives the trip through text. */
  lemma BytesSurviveTransport(b: seq<Byte>)
    ensures Decoded(Encoded(b)) == Some(b)
  {
    EncodedIsUnpadded(b);
    NoLoneCharacter(b);
    SextetsCarryBytes(b);
    AlphabetInverts(SextetsOf(b), []);
    DecodedChars(Chars(SextetsOf(b)));
  }

  ghost predicate InUrlAlphabet(c: CodeUnit) {
    c == MINUS || c == UNDERSCORE || (InAlphabet(c) && c != PLUS && c != SLASH)
  }

  /** Unpadded text in the url alphabet, of a possible length, with zero trailing bits. */
  ghost predicate Canonical(s: Text) {
    && (forall i :: 0 <= i < |s| ==> InUrlAlphabet(s[i]))
    && |s| % 4 != 1
    && Alphabetic(FromUrlAlphabet(s))
    && ZeroTail(Values(FromUrlAlphabet(s)))
  }

  /** The output never holds `+`, `/` or `=`, and its trailing bits are zero. */
  lemma EncodedIsCanonical(b: seq<Byte>)
    ensures Canonical(Encoded(b))
    ensures PLUS !in Encoded(b) && SLASH !in Encoded(b) && EQUALS !in Encoded(b)
  {
    EncodedIsUnpadded(b);
    NoLoneCharacter(b);
    SextetsEndInZeros(b);
    AlphabetInverts(SextetsOf(b), []);
    UrlCharacters(Chars(SextetsOf(b)));
    UrlAlphabetInverts(Chars(SextetsOf(b)));
  }

  lemma UrlCharacters(chars: Text)
    requires Alphabetic(chars)
    ensures var url := ToUrlAlphabet(chars);
      && (forall i :: 0 <= i < |url| ==> InUrlAlphabet(url[i]))
      && PLUS !in url && SLASH !in url && EQUALS !in url
  {
    forall i | 0 <= i < |chars|
      ensures var c := ToUrlAlphabet(chars)[i]; InUrlAlphabet(c) && c != EQUALS
    {
      assert InAlphabet(chars[i]);
    }
  }

  /** Text survives the trip through bytes exactly when it is canonical. */
  lemma TextSurvivesExactlyWhenCanonical(s: Text)
    ensures Decoded(s).Some? && Encoded(Decoded(s).value) == s <==> Canonical(s)
  {
    if Canonical(s) {
      CanonicalTextSurvives(s);
    }
    if Decoded(s).Some? { EncodedIsCanonical(Decoded(s).value); }
  }

  lemma CanonicalTextSurvives(s: Text)
    requires Canonical(s)
    ensures Decoded(s).Some? && Encoded(Decoded(s).value) == s
  {
    var chars := FromUrlAlphabet(s);
    UrlTextInverts(s);
    DecodedChars(chars);
    AlphabetInverts([], chars);
    BytesCarrySextets(Values(chars));
    EncodedIsUnpadded(BytesOf(Values(chars)));
  }

  lemma UrlTextInverts(s: Text)
    requires forall i :: 0 <= i < |s| ==> InUrlAlphabet(s[i])
    ensures ToUrlAlphabet(FromUrlAlphabet(s)) == s
  {
    forall i | 0 <= i < |s| ensures ToUrlAlphabet(FromUrlAlphabet(s))[i] == s[i] {
      assert InUrlAlphabet(s[i]);
    }
  }
}
