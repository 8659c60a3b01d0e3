/** Which escapes there are, and which bytes are text: what decoding accepts and what it leaves alone. */
module CredentialsText {
  import opened Options
  import opened Strings
  import opened Credentials

  // -------------------------------------------------------------------------------- escapes

  const UPPER: Bytes := [0x30, 0x31, 0x32, 0x33, 0x34, 0x35, 0x36, 0x37, 0x38, 0x39, 0x41, 0x42, 0x43, 0x44, 0x45, 0x46]
  const LOWER: Bytes := [0x30, 0x31, 0x32, 0x33, 0x34, 0x35, 0x36, 0x37, 0x38, 0x39, 0x61, 0x62, 0x63, 0x64, 0x65, 0x66]

  lemma DigitsAreRead(value: nat)
    requires value < 16
    ensures HexValue(UPPER[value]) == Some(value) && HexValue(LOWER[value]) == Some(value)
  {
  }

  lemma OnlyDigitsAreRead(b: Byte)
    ensures HexValue(b).Some? <==> b in UPPER || b in LOWER
  {
    var found := HexValue(b);
    if found.Some? {
      DigitsAreRead(found.value);
      assert b == UPPER[found.value] || b == LOWER[found.value];
    }
    if b in UPPER {
      var i :| 0 <= i < |UPPER| && UPPER[i] == b;
      DigitsAreRead(i);
    }
    if b in LOWER {
      var i :| 0 <= i < |LOWER| && LOWER[i] == b;
      DigitsAreRead(i);
    }
  }

  /** Every byte's escape is read as the byte, its digits in either case and mixed, wherever it stands. */
  lemma EscapesAreRead(byte: Byte, high: Byte, low: Byte, rest: Bytes)
    requires high in {UPPER[byte / 16], LOWER[byte / 16]} && low in {UPPER[byte % 16], LOWER[byte % 16]}
    ensures Unescaped([PERCENT, high, low] + rest) == [byte] + Unescaped(rest)
  {
    DigitsAreRead(byte / 16);
    DigitsAreRead(byte % 16);
    assert ([PERCENT, high, low] + rest)[3..] == rest;
  }

  /** A percent sign that two such digits do not follow stays, and what follows it is read by itself. */
  lemma OthersAreKept(first: Byte, rest: Bytes)
    requires first != PERCENT || |rest| < 2 || HexValue(rest[0]).None? || HexValue(rest[1]).None?
    ensures Unescaped([first] + rest) == [first] + Unescaped(rest)
  {
    assert ([first] + rest)[1..] == rest;
  }

  /** The bytes a URL is given as they are: letters, digits and the marks outside the set. */
  predicate Unreserved(b: Byte) {
    || 0x30 <= b <= 0x39 || 0x41 <= b <= 0x5A || 0x61 <= b <= 0x7A
    || b in {0x21, 0x24, 0x26, 0x27, 0x28, 0x29, 0x2A, 0x2B, 0x2C, 0x2D, 0x2E, 0x5F, 0x7E}
  }

  lemma SetOrNot(b: Byte)
    ensures Unreserved(b) <==> b != PERCENT && !InUserinfoSet(b)
  {
  }

  lemma DigitIsUpper(value: nat)
    requires value < 16
    ensures Credentials.HexDigit(value) == UPPER[value]
  {
  }

  /** What a byte of a user name or a password becomes in a URL. */
  lemma WrittenAsItIs(b: Byte)
    ensures Written([b]) == (if Unreserved(b) then [b] else [PERCENT, UPPER[b / 16], UPPER[b % 16]])
  {
    hide InUserinfoSet, Unreserved, HexDigit, EscapeUserinfo, EscapePercent, Written;
    WrittenCons([b]);
    assert [b][1..] == [];
    NothingWritten();
    SetOrNot(b);
    DigitIsUpper(b / 16);
    DigitIsUpper(b % 16);
    PercentDigits();
    assert Written([b]) == WrittenByte(b) + [];
  }

  lemma PercentDigits()
    ensures UPPER[PERCENT / 16] == 0x32 && UPPER[PERCENT % 16] == 0x35
  {
  }

  // ----------------------------------------------------------------------------------- text

  /** A Unicode scalar value. */
  type Scalar = c: nat | c < 0xD800 || 0xE000 <= c < 0x11_0000

  /** Its UTF-8 form (section 3 of RFC 3629). */
  function Encoded(c: Scalar): (bytes: Bytes)
    ensures 1 <= |bytes| <= 4
  {
    if c < 0x80 then [c]
    else if c < 0x800 then [0xC0 + c / 0x40, 0x80 + c % 0x40]
    else if c < 0x1_0000 then [0xE0 + c / 0x1000, 0x80 + c / 0x40 % 0x40, 0x80 + c % 0x40]
    else [0xF0 + c / 0x4_0000, 0x80 + c / 0x1000 % 0x40, 0x80 + c / 0x40 % 0x40, 0x80 + c % 0x40]
  }

  function EncodedAll(scalars: seq<Scalar>): Bytes {
    if scalars == [] then [] else Encoded(scalars[0]) + EncodedAll(scalars[1..])
  }

  lemma EncodedIsAChar(c: Scalar, rest: Bytes)
    ensures CharLength(Encoded(c) + rest) == |Encoded(c)|
  {
  }

  function Two(a: int, b: int): int {
    (a - 0xC0) * 0x40 + (b - 0x80)
  }

  function Three(a: int, b: int, c: int): int {
    (a - 0xE0) * 0x1000 + (b - 0x80) * 0x40 + (c - 0x80)
  }

  function Four(a: int, b: int, c: int, d: int): int {
    (a - 0xF0) * 0x4_0000 + (b - 0x80) * 0x1000 + (c - 0x80) * 0x40 + (d - 0x80)
  }

  /** The first character's value. */
  function Decode(text: Bytes): Scalar
    requires text != [] && CharLength(text) > 0
  {
    var length := CharLength(text);
    if length == 1 then text[0]
    else if length == 2 then Two(text[0], text[1])
    else if length == 3 then Three(text[0], text[1], text[2])
    else Four(text[0], text[1], text[2], text[3])
  }

  lemma TwoEncodes(a: Byte, b: Byte)
    requires 0xC2 <= a <= 0xDF && Continues(b)
    ensures Encoded(Two(a, b)) == [a, b]
  {
    var c := Two(a, b);
    assert c / 0x40 == a - 0xC0 && c % 0x40 == b - 0x80;
  }

  lemma ThreeEncodes(a: Byte, b: Byte, c: Byte)
    requires 0xE0 <= a <= 0xEF && Continues(b) && Continues(c)
    requires (a == 0xE0 ==> b >= 0xA0) && (a == 0xED ==> b <= 0x9F)
    ensures var s := Three(a, b, c); 0x800 <= s < 0x1_0000 && (s < 0xD800 || 0xE000 <= s) && Encoded(s) == [a, b, c]
  {
    var s := Three(a, b, c);
    assert s / 0x40 == (a - 0xE0) * 0x40 + (b - 0x80) && s % 0x40 == c - 0x80;
    assert s / 0x1000 == a - 0xE0 && s / 0x40 % 0x40 == b - 0x80;
  }

  lemma FourEncodes(a: Byte, b: Byte, c: Byte, d: Byte)
    requires 0xF0 <= a <= 0xF4 && Continues(b) && Continues(c) && Continues(d)
    requires (a == 0xF0 ==> b >= 0x90) && (a == 0xF4 ==> b <= 0x8F)
    ensures var s := Four(a, b, c, d); 0x1_0000 <= s < 0x11_0000 && Encoded(s) == [a, b, c, d]
  {
    var s := Four(a, b, c, d);
    assert s / 0x40 == (a - 0xF0) * 0x1000 + (b - 0x80) * 0x40 + (c - 0x80) && s % 0x40 == d - 0x80;
    assert s / 0x1000 == (a - 0xF0) * 0x40 + (b - 0x80) && s / 0x40 % 0x40 == c - 0x80;
    assert s / 0x4_0000 == a - 0xF0 && s / 0x1000 % 0x40 == b - 0x80;
  }

  lemma DecodeEncodes(text: Bytes)
    requires text != [] && CharLength(text) > 0
    ensures Encoded(Decode(text)) == text[..CharLength(text)]
  {
    hide Two, Three, Four, Encoded;
    var length := CharLength(text);
    if length == 1 {
      assert Encoded(text[0]) == [text[0]] by { OneEncodes(text[0]); }
    } else if length == 2 {
      TwoEncodes(text[0], text[1]);
    } else if length == 3 {
      ThreeEncodes(text[0], text[1], text[2]);
    } else {
      FourEncodes(text[0], text[1], text[2], text[3]);
    }
  }

  lemma OneEncodes(a: Byte)
    requires a <= 0x7F
    ensures Encoded(a) == [a]
  {
  }

  function DecodeAll(text: Bytes): seq<Scalar>
    requires ValidUtf8(text)
  {
    if text == [] then [] else [Decode(text)] + DecodeAll(text[CharLength(text)..])
  }

  lemma {:induction false} DecodedIsText(text: Bytes)
    requires ValidUtf8(text)
    ensures EncodedAll(DecodeAll(text)) == text
  {
    if text != [] {
      hide Encoded, Decode, CharLength;
      var rest := text[CharLength(text)..];
      DecodeEncodes(text);
      DecodedIsText(rest);
      assert DecodeAll(text)[1..] == DecodeAll(rest);
      assert text == text[..CharLength(text)] + rest;
    }
  }

  lemma {:induction false} EncodedIsValid(scalars: seq<Scalar>)
    ensures ValidUtf8(EncodedAll(scalars))
  {
    if scalars != [] {
      hide Encoded, CharLength;
      var rest := EncodedAll(scalars[1..]);
      EncodedIsAChar(scalars[0], rest);
      EncodedIsValid(scalars[1..]);
      assert (Encoded(scalars[0]) + rest)[|Encoded(scalars[0])|..] == rest;
    }
  }

  /** Bytes are text exactly when some scalar values are written so. */
  lemma Utf8IsEncodedScalars(text: Bytes)
    ensures ValidUtf8(text) <==> exists scalars: seq<Scalar> :: EncodedAll(scalars) == text
  {
    if ValidUtf8(text) {
      DecodedIsText(text);
    }
    if scalars: seq<Scalar> :| EncodedAll(scalars) == text {
      EncodedIsValid(scalars);
    }
  }

  /** Decoding gives text for text: the bytes of the escapes where they are some, else the input. */
  lemma DecodedIsExactly(text: Bytes)
    ensures Decoded(text) ==
            if exists scalars: seq<Scalar> :: EncodedAll(scalars) == Unescaped(text) then Unescaped(text) else text
  {
    Utf8IsEncodedScalars(Unescaped(text));
    if PERCENT !in text {
      UnescapePlain(text);
    }
  }

  // ------------------------------------------------------------------------------ authorities

  lemma ReplacementIsText(text: Bytes)
    ensures HoldsReplacement(text) <==> exists before, after :: text == before + Encoded(0xFFFD) + after
  {
    assert Encoded(0xFFFD) == [0xEF, 0xBF, 0xBD];
    if i :| 0 <= i && i + 2 < |text| && text[i] == 0xEF && text[i + 1] == 0xBF && text[i + 2] == 0xBD {
      assert text == text[..i] + Encoded(0xFFFD) + text[i + 3..];
    }
    if before, after :| text == before + Encoded(0xFFFD) + after {
      var i := |before|;
      assert text[i] == 0xEF && text[i + 1] == 0xBF && text[i + 2] == 0xBD;
    }
  }

  predicate IsKept(text: Bytes) {
    forall i :: 0 <= i < |text| ==> text[i] !in {0x23, 0x2F, 0x3F}
  }

  predicate IsTail(text: Bytes) {
    text == [] || text[0] in {0x23, 0x2F, 0x3F}
  }

  /**
   An address is refused exactly when an `@` stands behind where it is cut, when nothing is left
   to be a host, or when it holds U+FFFD, anywhere in front of the cut.
   */
  lemma RefusedExactlyWhen(kept: Bytes, tail: Bytes)
    requires IsKept(kept) && IsTail(tail)
    ensures ParseAuthority(kept + tail).None? <==>
            || AT in tail || kept == [] || kept[|kept| - 1] == AT
            || exists before, after :: kept == before + Encoded(0xFFFD) + after
  {
    hide AuthorityEnd, HoldsReplacement, ParseUserinfo, FindLast, Encoded;
    TailIsDropped(kept, tail);
    CutBeforeTail(kept, []);
    ReplacementIsText(kept);
    assert kept + [] == kept && kept[..|kept|] == kept && kept[|kept|..] == [];
    var at := FindLast(kept, AT);
    if at.Some? && at.value + 1 < |kept| {
      assert kept[|kept| - 1] == kept[at.value + 1..][|kept| - at.value - 2];
    }
  }

  /**
   Otherwise the last `@` ends the credentials and their first colon, if they have one, ends the
   user name; both are decoded by themselves, and the host part is kept as it is.
   */
  lemma PartsAreRead(user: Bytes, password: Option<Bytes>, hostPort: Bytes, tail: Bytes)
    requires COLON !in user && AT !in hostPort && IsTail(tail)
    requires IsKept(user + (if password.Some? then [COLON] + password.value else []) + [AT] + hostPort)
    ensures var before := user + if password.Some? then [COLON] + password.value else [];
            var read := ParseAuthority(before + [AT] + hostPort + tail);
            read.Some? ==>
              read.value == Authority(Some(Auth(Decoded(user),
                                                if password.Some? then Some(Decoded(password.value)) else None)),
                                      hostPort)
    ensures var read := ParseAuthority(hostPort + tail); read.Some? ==> read.value == Authority(None, hostPort)
  {
    hide AuthorityEnd, HoldsReplacement, Decoded, FindLast, ParseUserinfo, ParseAuthority;
    var before := user + if password.Some? then [COLON] + password.value else [];
    KeptAtTheAt(before, hostPort);
    KeptIsSplit(before + [AT] + hostPort, tail);
    KeptIsSplit(hostPort, tail);
    UserinfoIsSplit(user, password);
  }

  lemma KeptAtTheAt(before: Bytes, hostPort: Bytes)
    requires AT !in hostPort
    ensures var kept := before + [AT] + hostPort;
            && FindLast(kept, AT) == Some(|before|) && FindLast(hostPort, AT) == None
            && kept[|before| + 1..] == hostPort && kept[..|before|] == before
            && (IsKept(kept) ==> IsKept(hostPort))
  {
    var kept := before + [AT] + hostPort;
    FoundLast(before, AT, hostPort);
    assert forall i :: 0 <= i < |hostPort| ==> hostPort[i] == kept[|before| + 1 + i];
  }

  lemma UserinfoIsSplit(user: Bytes, password: Option<Bytes>)
    requires COLON !in user
    ensures ParseUserinfo(user + if password.Some? then [COLON] + password.value else []) ==
            Auth(Decoded(user), if password.Some? then Some(Decoded(password.value)) else None)
  {
    hide Decoded, FindFirst;
    if password.Some? {
      var before := user + [COLON] + password.value;
      FoundFirst(user, COLON, password.value);
      assert before == user + ([COLON] + password.value);
      assert before[..|user|] == user && before[|user| + 1..] == password.value;
    } else {
      assert user + [] == user;
    }
  }

  lemma KeptIsSplit(kept: Bytes, tail: Bytes)
    requires IsKept(kept) && IsTail(tail)
    ensures var read, at := ParseAuthority(kept + tail), FindLast(kept, AT);
            read.Some? ==>
              read.value == if at.Some? then Authority(Some(ParseUserinfo(kept[..at.value])), kept[at.value + 1..])
                            else Authority(None, kept)
  {
    hide AuthorityEnd, HoldsReplacement, ParseUserinfo, FindLast;
    TailIsDropped(kept, tail);
    CutBeforeTail(kept, []);
    assert kept + [] == kept && kept[..|kept|] == kept && kept[|kept|..] == [];
  }
}
