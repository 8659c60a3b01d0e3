/**
 Credentials into a proxy URL and out of an address again. Text is its UTF-8 bytes, which is
 what both the escaping and the splitting look at.
 */
module Credentials {
  import opened Options
  import opened Strings

  type Bytes = seq<Byte>

  datatype Auth = Auth(username: Bytes, password: Option<Bytes>)

  const PERCENT: Byte := 0x25
  const COLON: Byte := 0x3A
  const AT: Byte := 0x40

  // ------------------------------------------------------------------------------- escaping

  /** The userinfo percent-encode set (section 1.3 of the WHATWG URL Standard). */
  predicate InUserinfoSet(b: Byte) {
    || b <= 0x20 || b >= 0x7F
    || b in {0x22, 0x23, 0x2F, 0x3A, 0x3B, 0x3C, 0x3D, 0x3E, 0x3F, 0x40, 0x5B, 0x5C, 0x5D, 0x5E, 0x60, 0x7B, 0x7C, 0x7D}
  }

  /** An upper-case hexadecimal digit. */
  function HexDigit(value: nat): (digit: Byte)
    requires value < 16
    ensures HexValue(digit) == Some(value) && !InUserinfoSet(digit) && digit != PERCENT
  {
    if value < 10 then 0x30 + value else 0x41 + (value - 10)
  }

  function HexValue(b: Byte): (value: Option<nat>)
    ensures value.Some? ==> value.value < 16
  {
    if 0x30 <= b <= 0x39 then Some(b - 0x30)
    else if 0x41 <= b <= 0x46 then Some(b - 0x41 + 10)
    else if 0x61 <= b <= 0x66 then Some(b - 0x61 + 10)
    else None
  }

  function Escaped(b: Byte): Bytes {
    [PERCENT, HexDigit(b / 16), HexDigit(b % 16)]
  }

  /** Every `%` written as its own escape, before anything else is escaped. */
  function EscapePercent(text: Bytes): Bytes {
    if text == [] then []
    else (if text[0] == PERCENT then [PERCENT, 0x32, 0x35] else [text[0]]) + EscapePercent(text[1..])
  }

  /** What the URL's setters do: every byte of the set written as an escape. */
  function EscapeUserinfo(text: Bytes): Bytes {
    if text == [] then []
    else (if InUserinfoSet(text[0]) then Escaped(text[0]) else [text[0]]) + EscapeUserinfo(text[1..])
  }

  function Written(text: Bytes): Bytes {
    EscapeUserinfo(EscapePercent(text))
  }

  /** The userinfo a URL is given, its `@` included: nothing for no user name and no password. */
  function Userinfo(auth: Auth): Bytes {
    if auth.password.Some? && auth.password.value != [] then
      Written(auth.username) + [COLON] + Written(auth.password.value) + [AT]
    else if auth.username != [] then
      Written(auth.username) + [AT]
    else
      []
  }

  // ------------------------------------------------------------------------------- decoding

  predicate Continues(b: Byte) {
    0x80 <= b <= 0xBF
  }

  /** How many bytes the first character takes, or 0 when the text does not start with one. */
  function CharLength(text: Bytes): (length: nat)
    requires text != []
    ensures length <= |text|
  {
    var a := text[0];
    if a <= 0x7F then 1
    else if |text| >= 2 && 0xC2 <= a <= 0xDF && Continues(text[1]) then 2
    else if |text| >= 3 && 0xE0 <= a <= 0xEF && Continues(text[1]) && Continues(text[2])
            && (a == 0xE0 ==> text[1] >= 0xA0) && (a == 0xED ==> text[1] <= 0x9F) then 3
    else if |text| >= 4 && 0xF0 <= a <= 0xF4 && Continues(text[1]) && Continues(text[2]) && Continues(text[3])
            && (a == 0xF0 ==> text[1] >= 0x90) && (a == 0xF4 ==> text[1] <= 0x8F) then 4
    else 0
  }

  predicate ValidUtf8(text: Bytes) {
    text == [] || (CharLength(text) > 0 && ValidUtf8(text[CharLength(text)..]))
  }

  predicate IsEscape(text: Bytes) {
    |text| > 2 && text[0] == PERCENT && HexValue(text[1]).Some? && HexValue(text[2]).Some?
  }

  function EscapeValue(text: Bytes): Byte
    requires IsEscape(text)
  {
    HexValue(text[1]).value * 16 + HexValue(text[2]).value
  }

  /** Every well-formed escape replaced by its byte, everything else passed through. */
  function Unescaped(text: Bytes): Bytes {
    if text == [] then []
    else if IsEscape(text) then [EscapeValue(text)] + Unescaped(text[3..])
    else [text[0]] + Unescaped(text[1..])
  }

  /** The unescaped text, or the text as it was when that would not be valid UTF-8. */
  function Decoded(text: Bytes): Bytes {
    if PERCENT !in text then text
    else if ValidUtf8(Unescaped(text)) then Unescaped(text)
    else text
  }

  /** What is unescaped next, and how far that reaches. */
  lemma UnescapedAt(text: Bytes, i: nat)
    requires i < |text|
    ensures IsEscape(text[i..]) ==>
              && i + 3 <= |text|
              && Unescaped(text[i..]) == [EscapeValue(text[i..])] + Unescaped(text[i + 3..])
    ensures !IsEscape(text[i..]) ==> Unescaped(text[i..]) == [text[i]] + Unescaped(text[i + 1..])
  {
    hide HexValue;
    var rest := text[i..];
    assert rest[1..] == text[i + 1..];
    if IsEscape(rest) {
      assert rest[3..] == text[i + 3..];
    }
  }

  lemma NothingEscaped()
    ensures Unescaped([]) == []
  {
  }

  lemma Appended(out: Bytes, b: Byte, rest: Bytes)
    ensures out + ([b] + rest) == (out + [b]) + rest
  {
  }

  method PercentDecode(input: Bytes) returns (decoded: Bytes)
    ensures decoded == Decoded(input)
  {
    if PERCENT !in input {
      return input;
    }
    hide Unescaped, HexValue, ValidUtf8;
    var out: Bytes := [];
    var i := 0;
    assert input[0..] == input;
    while i < |input|
      invariant 0 <= i <= |input|
      invariant out + Unescaped(input[i..]) == Unescaped(input)
    {
      UnescapedAt(input, i);
      if input[i] == PERCENT && i + 2 < |input| {
        var hi, lo := HexValue(input[i + 1]), HexValue(input[i + 2]);
        if hi.Some? && lo.Some? {
          Appended(out, hi.value * 16 + lo.value, Unescaped(input[i + 3..]));
          out := out + [hi.value * 16 + lo.value];
          i := i + 3;
          continue;
        }
      }
      Appended(out, input[i], Unescaped(input[i + 1..]));
      out := out + [input[i]];
      i := i + 1;
    }
    assert input[i..] == [] && Unescaped([]) == [] by { NothingEscaped(); }
    assert out == Unescaped(input);
    decoded := if ValidUtf8(out) then out else input;
  }

  // ----------------------------------------------------------------------------- splitting

  /** A literal `:` separates the password; an escaped one is part of the user name. */
  function ParseUserinfo(userinfo: Bytes): Auth {
    var colon := FindFirst(userinfo, COLON);
    if colon.Some? then
      Auth(Decoded(userinfo[..colon.value]), Some(Decoded(userinfo[colon.value + 1..])))
    else
      Auth(Decoded(userinfo), None)
  }

  predicate EndsAuthority(b: Byte) {
    b == 0x2F || b == 0x3F || b == 0x23
  }

  /** Where the path, query or fragment starts, or the length. */
  function AuthorityEnd(text: Bytes): (cut: nat)
    ensures cut <= |text|
    ensures forall i :: 0 <= i < cut ==> !EndsAuthority(text[i])
    ensures cut < |text| ==> EndsAuthority(text[cut])
  {
    if text == [] || EndsAuthority(text[0]) then 0
    else
      var rest := AuthorityEnd(text[1..]);
      assert forall i :: 1 <= i < rest + 1 ==> text[i] == text[1..][i - 1];
      rest + 1
  }

  /** U+FFFD, what a lossy conversion leaves behind. */
  predicate HoldsReplacement(text: Bytes) {
    exists i :: 0 <= i && i + 2 < |text| && text[i] == 0xEF && text[i + 1] == 0xBF && text[i + 2] == 0xBD
  }

  datatype Authority = Authority(auth: Option<Auth>, hostPort: Bytes)

  /** What follows the scheme: cut, refused if credentials seem to have been cut, split at the last `@`. */
  function ParseAuthority(rest: Bytes): Option<Authority> {
    var cut := AuthorityEnd(rest);
    var kept, dropped := rest[..cut], rest[cut..];
    if AT in dropped || HoldsReplacement(kept) then None
    else
      var at := FindLast(kept, AT);
      var hostPort := if at.Some? then kept[at.value + 1..] else kept;
      if hostPort == [] then None
      else Some(Authority(if at.Some? then Some(ParseUserinfo(kept[..at.value])) else None, hostPort))
  }

  // -------------------------------------------------------------------------- round trip

  /** Both escapings in one pass over the text. */
  function WrittenByte(b: Byte): Bytes {
    if b == PERCENT then [PERCENT, 0x32, 0x35] else if InUserinfoSet(b) then Escaped(b) else [b]
  }

  lemma {:induction false} EscapeConcat(a: Bytes, b: Bytes)
    ensures EscapeUserinfo(a + b) == EscapeUserinfo(a) + EscapeUserinfo(b)
  {
    if a == [] {
      assert a + b == b;
    } else {
      assert (a + b)[1..] == a[1..] + b;
      EscapeConcat(a[1..], b);
    }
  }

  lemma WrittenCons(text: Bytes)
    requires text != []
    ensures Written(text) == WrittenByte(text[0]) + Written(text[1..])
  {
    var head := if text[0] == PERCENT then [PERCENT, 0x32, 0x35] else [text[0]];
    EscapeConcat(head, EscapePercent(text[1..]));
    if text[0] == PERCENT {
      assert EscapeUserinfo([0x35]) == [0x35] by { assert [0x35 as Byte][1..] == []; }
      assert EscapeUserinfo([0x32, 0x35]) == [0x32, 0x35] by { assert [0x32 as Byte, 0x35][1..] == [0x35]; }
      assert head[1..] == [0x32, 0x35];
      assert EscapeUserinfo(head) == head;
    } else {
      assert head[1..] == [];
    }
  }

  /** Nothing written can end the authority or split it. */
  lemma {:induction false} WrittenIsPlain(text: Bytes)
    ensures forall i :: 0 <= i < |Written(text)| ==> !InUserinfoSet(Written(text)[i])
  {
    if text != [] {
      WrittenCons(text);
      WrittenIsPlain(text[1..]);
    }
  }

  lemma NothingWritten()
    ensures Written([]) == [] == Unescaped([])
  {
  }

  lemma UnescapeByte(b: Byte, rest: Bytes)
    ensures Unescaped(WrittenByte(b) + rest) == [b] + Unescaped(rest)
  {
    var head := WrittenByte(b);
    if |head| == 3 {
      assert (head + rest)[3..] == rest;
      assert HexValue(0x32) == Some(2) && HexValue(0x35) == Some(5);
    } else {
      assert (head + rest)[1..] == rest;
    }
  }

  /** Undoing the escapes of what was written gives back the text, byte for byte. */
  lemma {:induction false} UnescapeWritten(text: Bytes)
    ensures Unescaped(Written(text)) == text
  {
    hide Written, WrittenByte, Unescaped;
    if text == [] {
      assert Written(text) == [] == Unescaped([]) by { NothingWritten(); }
    } else {
      WrittenCons(text);
      UnescapeWritten(text[1..]);
      UnescapeByte(text[0], Written(text[1..]));
      assert [text[0]] + text[1..] == text;
    }
  }

  /** Text without an escape in it comes through as it is. */
  lemma {:induction false} UnescapePlain(text: Bytes)
    requires PERCENT !in text
    ensures Unescaped(text) == text
  {
    if text != [] {
      UnescapePlain(text[1..]);
    }
  }

  lemma DecodeWritten(text: Bytes)
    requires ValidUtf8(text)
    ensures Decoded(Written(text)) == text
  {
    UnescapeWritten(text);
    if PERCENT !in Written(text) {
      UnescapePlain(Written(text));
    }
  }

  /** The part of a userinfo before its `@`. */
  function BeforeAt(auth: Auth): Bytes {
    if auth.password.Some? && auth.password.value != [] then
      Written(auth.username) + [COLON] + Written(auth.password.value)
    else
      Written(auth.username)
  }

  /** What reading the userinfo back gives: an empty password is not written, so it is absent. */
  function ReadBack(auth: Auth): Option<Auth> {
    if auth.password.Some? && auth.password.value != [] then Some(auth)
    else if auth.username != [] then Some(Auth(auth.username, None))
    else None
  }

  lemma ParseBeforeAt(auth: Auth)
    requires ValidUtf8(auth.username) && (auth.password.Some? ==> ValidUtf8(auth.password.value))
    requires ReadBack(auth).Some?
    ensures ParseUserinfo(BeforeAt(auth)) == ReadBack(auth).value
  {
    hide Decoded, Written;
    WrittenIsPlain(auth.username);
    DecodeWritten(auth.username);
    if auth.password.Some? && auth.password.value != [] {
      DecodeWritten(auth.password.value);
      var before, after := Written(auth.username), Written(auth.password.value);
      FoundFirst(before, COLON, after);
      assert (before + [COLON] + after)[..|before|] == before;
      assert (before + [COLON] + after)[|before| + 1..] == after;
    }
  }

  lemma BeforeAtIsPlain(auth: Auth)
    ensures forall i :: 0 <= i < |BeforeAt(auth)| ==>
              BeforeAt(auth)[i] < 0x7F && BeforeAt(auth)[i] != AT && !EndsAuthority(BeforeAt(auth)[i])
  {
    WrittenIsPlain(auth.username);
    if auth.password.Some? {
      WrittenIsPlain(auth.password.value);
    }
  }

  lemma PlainHost(before: Bytes, hostPort: Bytes)
    requires forall i :: 0 <= i < |before| ==> before[i] < 0x7F && !EndsAuthority(before[i])
    requires forall i :: 0 <= i < |hostPort| ==> !EndsAuthority(hostPort[i])
    requires !HoldsReplacement(hostPort)
    ensures AuthorityEnd(before + hostPort) == |before + hostPort|
    ensures !HoldsReplacement(before + hostPort)
  {
    var text := before + hostPort;
    assert forall i :: 0 <= i < |before| ==> text[i] == before[i];
    assert forall i :: |before| <= i < |text| ==> text[i] == hostPort[i - |before|];
  }

  /** The cut stands in front of the tail, which opens with what ends an authority. */
  lemma {:induction false} CutBeforeTail(kept: Bytes, tail: Bytes)
    requires forall i :: 0 <= i < |kept| ==> !EndsAuthority(kept[i])
    requires tail != [] ==> EndsAuthority(tail[0])
    ensures AuthorityEnd(kept + tail) == |kept|
    decreases kept
  {
    if kept != [] {
      assert (kept + tail)[1..] == kept[1..] + tail;
      CutBeforeTail(kept[1..], tail);
    }
  }

  /** A tail is cut off and dropped, unless it holds an `@`. */
  lemma TailIsDropped(kept: Bytes, tail: Bytes)
    requires forall i :: 0 <= i < |kept| ==> !EndsAuthority(kept[i])
    requires tail != [] ==> EndsAuthority(tail[0])
    ensures ParseAuthority(kept + tail) == if AT in tail then None else ParseAuthority(kept)
  {
    hide AuthorityEnd, HoldsReplacement, ParseUserinfo;
    CutBeforeTail(kept, tail);
    CutBeforeTail(kept, []);
    assert kept + [] == kept;
    assert (kept + tail)[..|kept|] == kept && (kept + tail)[|kept|..] == tail;
    assert kept[..|kept|] == kept && kept[|kept|..] == [];
  }

  /**
   Credentials written into a URL in front of its host are read back as they were, whatever path,
   query or fragment follows, and a tail that holds an `@` refuses the whole. Only an empty
   password comes back as none, and no user name with no password as no credentials.
   */
  lemma CredentialsRoundTrip(auth: Auth, hostPort: Bytes, tail: Bytes)
    requires ValidUtf8(auth.username) && (auth.password.Some? ==> ValidUtf8(auth.password.value))
    requires hostPort != [] && AT !in hostPort && !HoldsReplacement(hostPort)
    requires forall i :: 0 <= i < |hostPort| ==> !EndsAuthority(hostPort[i])
    requires tail != [] ==> EndsAuthority(tail[0])
    ensures ParseAuthority(Userinfo(auth) + hostPort + tail) ==
              if AT in tail then None else Some(Authority(ReadBack(auth), hostPort))
  {
    hide ParseAuthority, ReadBack, Userinfo;
    AuthorityRoundTrip(auth, hostPort);
    UserinfoIsPlain(auth);
    TailIsDropped(Userinfo(auth) + hostPort, tail);
  }

  lemma UserinfoIsPlain(auth: Auth)
    ensures forall i :: 0 <= i < |Userinfo(auth)| ==> !EndsAuthority(Userinfo(auth)[i])
  {
    hide Written;
    BeforeAtIsPlain(auth);
    assert Userinfo(auth) == if ReadBack(auth).Some? then BeforeAt(auth) + [AT] else [];
  }

  lemma AuthorityRoundTrip(auth: Auth, hostPort: Bytes)
    requires ValidUtf8(auth.username) && (auth.password.Some? ==> ValidUtf8(auth.password.value))
    requires hostPort != [] && AT !in hostPort && !HoldsReplacement(hostPort)
    requires forall i :: 0 <= i < |hostPort| ==> !EndsAuthority(hostPort[i])
    ensures ParseAuthority(Userinfo(auth) + hostPort) == Some(Authority(ReadBack(auth), hostPort))
  {
    hide Written, ParseUserinfo, AuthorityEnd, HoldsReplacement, FindLast;
    if ReadBack(auth).Some? {
      assert Userinfo(auth) == BeforeAt(auth) + [AT];
      BeforeAtIsPlain(auth);
      PlainHost(BeforeAt(auth) + [AT], hostPort);
      SplitAtTheAt(BeforeAt(auth), hostPort);
      ParseBeforeAt(auth);
    } else {
      PlainHost([], hostPort);
      assert [] + hostPort == hostPort;
      assert hostPort[..|hostPort|] == hostPort && hostPort[|hostPort|..] == [];
    }
  }

  lemma SplitAtTheAt(before: Bytes, hostPort: Bytes)
    requires hostPort != [] && AT !in hostPort
    requires AuthorityEnd(before + [AT] + hostPort) == |before + [AT] + hostPort|
    requires !HoldsReplacement(before + [AT] + hostPort)
    ensures ParseAuthority(before + [AT] + hostPort) == Some(Authority(Some(ParseUserinfo(before)), hostPort))
  {
    hide ParseUserinfo, AuthorityEnd, HoldsReplacement, FindLast;
    var rest := before + [AT] + hostPort;
    FoundLast(before, AT, hostPort);
    assert rest[..|rest|] == rest && rest[|rest|..] == [];
    assert rest[..|before|] == before && rest[|before| + 1..] == hostPort;
  }

  /** Which credentials come back from the URL unchanged. */
  lemma SurvivesExactlyWhen(auth: Auth, hostPort: Bytes, tail: Bytes)
    requires ValidUtf8(auth.username) && (auth.password.Some? ==> ValidUtf8(auth.password.value))
    requires hostPort != [] && AT !in hostPort && !HoldsReplacement(hostPort)
    requires forall i :: 0 <= i < |hostPort| ==> !EndsAuthority(hostPort[i])
    requires tail != [] ==> EndsAuthority(tail[0])
    ensures ParseAuthority(Userinfo(auth) + hostPort + tail) == Some(Authority(Some(auth), hostPort)) <==>
            AT !in tail && auth.password != Some([]) && (auth.username != [] || auth.password.Some?)
  {
    hide ParseAuthority, Userinfo, ValidUtf8, HoldsReplacement;
    CredentialsRoundTrip(auth, hostPort, tail);
  }
}
