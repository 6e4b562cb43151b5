/** Opaque pagination cursors: the decimal text of an offset in base64url (section 5 of RFC 4648). */
module Cursors {
  import opened Decimal
  import opened Options

  type Byte = b: nat | b < 256

  // ---- base64url ----

  type Six = v: nat | v < 64

  function Symbol(v: Six): char {
    if v < 26 then 'A' + v as char
    else if v < 52 then 'a' + (v - 26) as char
    else if v < 62 then '0' + (v - 52) as char
    else if v == 62 then '-' else '_'
  }

  function Sextet(c: char): Option<Six> {
    if 'A' <= c <= 'Z' then Some((c - 'A') as nat)
    else if 'a' <= c <= 'z' then Some((c - 'a') as nat + 26)
    else if '0' <= c <= '9' then Some((c - '0') as nat + 52)
    else if c == '-' then Some(62)
    else if c == '_' then Some(63)
    else None
  }

  /** The four symbols of three bytes. */
  function Group(b0: Byte, b1: Byte, b2: Byte): string {
    [Symbol(b0 / 4), Symbol(b0 % 4 * 16 + b1 / 16), Symbol(b1 % 16 * 4 + b2 / 64), Symbol(b2 % 64)]
  }

  function Encode(b: seq<Byte>): string {
    if |b| == 0 then ""
    else if |b| == 1 then Group(b[0], 0, 0)[..2] + "=="
    else if |b| == 2 then Group(b[0], b[1], 0)[..3] + "="
    else Group(b[0], b[1], b[2]) + Encode(b[3..])
  }

  /** Decoding ignores line breaks, wants full groups of four, and padding only at the end. */
  function DecodeGroups(s: string): Option<seq<Byte>> {
    if s == "" then Some([])
    else if |s| < 4 then None
    else
      var v0, v1, v2, v3 := Sextet(s[0]), Sextet(s[1]), Sextet(s[2]), Sextet(s[3]);
      if v0.None? || v1.None? then None
      else
        var b0 := FirstByte(v0.value, v1.value);
        if |s| == 4 && s[2] == '=' && s[3] == '=' then Some([b0])
        else if v2.None? then None
        else
          var b1 := SecondByte(v1.value, v2.value);
          if |s| == 4 && s[3] == '=' then Some([b0, b1])
          else if v3.None? then None
          else
            var b2 := ThirdByte(v2.value, v3.value);
            match DecodeGroups(s[4..])
            case None => None
            case Some(rest) => Some([b0, b1, b2] + rest)
  }

  function WithoutLineBreaks(s: string): string {
    if s == "" then "" else (if s[0] == '\r' || s[0] == '\n' then "" else [s[0]]) + WithoutLineBreaks(s[1..])
  }

  function Decode(s: string): Option<seq<Byte>> { DecodeGroups(WithoutLineBreaks(s)) }

  function FirstByte(v0: Six, v1: Six): Byte { v0 * 4 + v1 / 16 }
  function SecondByte(v1: Six, v2: Six): Byte { v1 % 16 * 16 + v2 / 4 }
  function ThirdByte(v2: Six, v3: Six): Byte { v2 % 4 * 64 + v3 }

  lemma SextetOfSymbol(v: Six)
    ensures Sextet(Symbol(v)) == Some(v)
  {}

  /** Four symbols hold three bytes. */
  predicate Holds(g: string, b0: Byte, b1: Byte, b2: Byte) {
    && |g| == 4
    && (forall i | 0 <= i < 4 :: Sextet(g[i]).Some?)
    && FirstByte(Sextet(g[0]).value, Sextet(g[1]).value) == b0
    && SecondByte(Sextet(g[1]).value, Sextet(g[2]).value) == b1
    && ThirdByte(Sextet(g[2]).value, Sextet(g[3]).value) == b2
  }

  lemma GroupHoldsBytes(b0: Byte, b1: Byte, b2: Byte)
    ensures Holds(Group(b0, b1, b2), b0, b1, b2)
  {
    SextetOfSymbol(b0 / 4);
    SextetOfSymbol(b0 % 4 * 16 + b1 / 16);
    SextetOfSymbol(b1 % 16 * 4 + b2 / 64);
    SextetOfSymbol(b2 % 64);
  }

  /** What a group decodes to when it is padded, and when another follows. */
  lemma DecodeGroup(g: string, b0: Byte, b1: Byte, b2: Byte, rest: string)
    requires Holds(g, b0, b1, b2)
    ensures DecodeGroups(g[..2] + "==") == Some([b0])
    ensures DecodeGroups(g[..3] + "=") == Some([b0, b1])
    ensures DecodeGroups(rest).Some? ==> DecodeGroups(g + rest) == Some([b0, b1, b2] + DecodeGroups(rest).value)
  {
    assert (g + rest)[4..] == rest;
    assert g[3] != '=' by { assert Sextet(g[3]).Some?; }
  }

  lemma DecodeOne(b0: Byte)
    ensures DecodeGroups(Group(b0, 0, 0)[..2] + "==") == Some([b0])
  {
    GroupHoldsBytes(b0, 0, 0);
    DecodeGroup(Group(b0, 0, 0), b0, 0, 0, "");
  }

  lemma DecodeTwo(b0: Byte, b1: Byte)
    ensures DecodeGroups(Group(b0, b1, 0)[..3] + "=") == Some([b0, b1])
  {
    GroupHoldsBytes(b0, b1, 0);
    DecodeGroup(Group(b0, b1, 0), b0, b1, 0, "");
  }

  lemma DecodeThree(b0: Byte, b1: Byte, b2: Byte, rest: string, bytes: seq<Byte>)
    requires DecodeGroups(rest) == Some(bytes)
    ensures DecodeGroups(Group(b0, b1, b2) + rest) == Some([b0, b1, b2] + bytes)
  {
    GroupHoldsBytes(b0, b1, b2);
    DecodeGroup(Group(b0, b1, b2), b0, b1, b2, rest);
  }

  lemma DecodeLong(s: string, b: seq<Byte>, rest: string)
    requires |b| > 2 && s == Group(b[0], b[1], b[2]) + rest && DecodeGroups(rest) == Some(b[3..])
    ensures DecodeGroups(s) == Some(b)
  {
    DecodeThree(b[0], b[1], b[2], rest, b[3..]);
    assert b == [b[0], b[1], b[2]] + b[3..];
  }

  lemma DecodeShort(s: string, b: seq<Byte>)
    requires |b| == 1 ==> s == Group(b[0], 0, 0)[..2] + "=="
    requires |b| == 2 ==> s == Group(b[0], b[1], 0)[..3] + "="
    requires 0 < |b| <= 2
    ensures DecodeGroups(s) == Some(b)
  {
    if |b| == 1 {
      DecodeOne(b[0]);
      assert b == [b[0]];
    } else {
      DecodeTwo(b[0], b[1]);
      assert b == [b[0], b[1]];
    }
  }

  lemma {:induction false} DecodeGroupsOfEncode(b: seq<Byte>)
    ensures DecodeGroups(Encode(b)) == Some(b)
  {
    if |b| > 2 {
      DecodeGroupsOfEncode(b[3..]);
      DecodeLong(Encode(b), b, Encode(b[3..]));
    } else if |b| > 0 {
      DecodeShort(Encode(b), b);
    }
  }

  lemma {:induction false} EncodeHasNoLineBreaks(b: seq<Byte>)
    ensures forall c | c in Encode(b) :: c != '\r' && c != '\n'
  {
    if |b| > 2 { EncodeHasNoLineBreaks(b[3..]); }
  }

  lemma {:induction false} NothingToStrip(s: string)
    requires forall c | c in s :: c != '\r' && c != '\n'
    ensures WithoutLineBreaks(s) == s
  {
    if s != "" {
      assert s[0] in s && forall c | c in s[1..] :: c in s;
      NothingToStrip(s[1..]);
      assert s == [s[0]] + s[1..];
    }
  }

  /** base64url decoding undoes encoding, for every byte string. */
  lemma DecodeOfEncode(b: seq<Byte>)
    ensures Decode(Encode(b)) == Some(b)
  {
    EncodeHasNoLineBreaks(b);
    NothingToStrip(Encode(b));
    DecodeGroupsOfEncode(b);
  }

  /** Only whole groups of four decode, of alphabet symbols but for padding in the last two places. */
  lemma {:induction false} OnlyWholeGroups(s: string)
    requires DecodeGroups(s).Some?
    ensures |s| % 4 == 0
    ensures forall i | 0 <= i < |s| :: Sextet(s[i]).Some? || (s[i] == '=' && i >= |s| - 2)
  {
    if |s| > 4 {
      RestDecodes(s);
      OnlyWholeGroups(s[4..]);
      forall i | 4 <= i < |s| ensures Sextet(s[i]).Some? || (s[i] == '=' && i >= |s| - 2) {
        if i >= 4 { assert s[i] == s[4..][i - 4]; }
      }
    }
  }

  lemma RestDecodes(s: string)
    requires |s| > 4 && DecodeGroups(s).Some?
    ensures DecodeGroups(s[4..]).Some?
    ensures Sextet(s[0]).Some? && Sextet(s[1]).Some? && Sextet(s[2]).Some? && Sextet(s[3]).Some?
  {}

  /** The test vectors of section 10 of RFC 4648, and the two symbols that tell its section 5 from section 4. */
  lemma KnownEncodings()
    ensures Encode([]) == "" && Encode(Bytes("f")) == "Zg==" && Encode(Bytes("fo")) == "Zm8="
    ensures Encode(Bytes("foo")) == "Zm9v" && Encode(Bytes("foob")) == "Zm9vYg=="
    ensures Encode([251, 255]) == "-_8="
  {
    assert Bytes("f") == [102] && Bytes("fo") == [102, 111] && Bytes("foo") == [102, 111, 111];
    assert Bytes("foob") == [102, 111, 111, 98] && Bytes("foob")[3..] == [98];
    assert Encode([102, 111, 111][3..]) == "";
  }

  // ---- Cursors ----

  function Bytes(s: string): seq<Byte>
    requires forall c | c in s :: c < 128 as char
  {
    seq<Byte>(|s|, i requires 0 <= i < |s| => assert s[i] in s; s[i] as Byte)
  }

  function Text(b: seq<Byte>): string { seq(|b|, i requires 0 <= i < |b| => b[i] as char) }

  function EncodeCursor(offset: int): string {
    ItoaIsAscii(offset);
    Encode(Bytes(Itoa(offset)))
  }

  function DecodeCursor(cursor: string): int {
    match Decode(cursor)
    case None => 0
    case Some(b) => var n := Atoi(Text(b)); if n < 0 then 0 else n
  }

  lemma ItoaIsAscii(n: int)
    ensures forall c | c in Itoa(n) :: c < 128 as char
  {
    ValueOfDigits(if n < 0 then -n else n);
  }

  /** Every offset that fits an int comes back from its cursor, negative ones as 0. */
  lemma CursorRoundTrip(offset: int)
    ensures DecodeCursor(EncodeCursor(offset))
         == if offset < 0 then 0 else if offset > MAX_INT64 then MAX_INT64 else offset
  {
    ItoaIsAscii(offset);
    var s := Itoa(offset);
    DecodeOfEncode(Bytes(s));
    assert Text(Bytes(s)) == s;
    AtoiOfItoa(offset);
  }

  /** Whatever a caller sends as a cursor, the offset is a nonnegative int. */
  lemma DecodeCursorInRange(cursor: string)
    ensures 0 <= DecodeCursor(cursor) <= MAX_INT64
    ensures DecodeCursor(cursor) > 0 ==>
      Decode(cursor).Some? && Atoi(Text(Decode(cursor).value)) == DecodeCursor(cursor)
  {}
}
