/**
 One set of readers that keeps the laws: four decimal octets for IPv4, eight groups of
 hexadecimal digits for IPv6 (section 2.2 of RFC 4291, form 1), a block's prefix length in
 decimal, and names left as they are.
 */
module PlainReaders {
  import opened Options
  import opened Strings
  import opened Decimals
  import opened BypassAddress
  import opened BypassPatterns
  import opened BypassParse
  import opened BypassRoundTrip

  // ------------------------------------------------------------------------- a number's text

  /** A numeral as text, and back. */
  datatype Numerals = Numerals(write: nat -> string, read: string -> Option<nat>)

  function DecimalNumber(text: string): Option<nat> {
    if text != "" && AllDigits(text) then Some(DecimalValue(text)) else None
  }

  predicate IsHexDigit(c: char) {
    IsDigit(c) || 'a' <= c <= 'f'
  }

  function HexDigitValue(c: char): nat
    requires IsHexDigit(c)
  {
    if IsDigit(c) then (c - '0') as nat else (c - 'a') as nat + 10
  }

  function HexDigit(value: nat): (c: char)
    requires value < 16
    ensures IsHexDigit(c) && HexDigitValue(c) == value
  {
    if value < 10 then '0' + value as char else 'a' + (value - 10) as char
  }

  function Hex(n: nat): (text: string)
    ensures text != "" && forall i :: 0 <= i < |text| ==> IsHexDigit(text[i])
  {
    (if n < 16 then "" else Hex(n / 16)) + [HexDigit(n % 16)]
  }

  function HexValue(text: string): nat
    requires forall i :: 0 <= i < |text| ==> IsHexDigit(text[i])
  {
    if text == "" then 0 else 16 * HexValue(text[..|text| - 1]) + HexDigitValue(text[|text| - 1])
  }

  function HexNumber(text: string): Option<nat> {
    if text != "" && forall i :: 0 <= i < |text| ==> IsHexDigit(text[i]) then Some(HexValue(text)) else None
  }

  lemma {:induction false} HexRoundTrip(n: nat)
    ensures HexValue(Hex(n)) == n
  {
    var text := Hex(n);
    if n < 16 {
      assert text[..|text| - 1] == "";
    } else {
      HexRoundTrip(n / 16);
      assert text[..|text| - 1] == Hex(n / 16);
    }
  }

  const DECIMAL: Numerals := Numerals(Decimal, DecimalNumber)
  const HEXADECIMAL: Numerals := Numerals(Hex, HexNumber)

  // ------------------------------------------------------------------------ groups of digits

  /** Four groups of eight bits, or eight groups of sixteen. */
  datatype Family = Four | Six

  function Above(n: nat, family: Family): nat {
    if family.Four? then n / 0x100 else n / 0x1_0000
  }

  function Last(n: nat, family: Family): nat {
    if family.Four? then n % 0x100 else n % 0x1_0000
  }

  function Shifted(n: nat, family: Family): nat {
    if family.Four? then n * 0x100 else n * 0x1_0000
  }

  /** The last `count` groups of the number. */
  function Groups(n: nat, count: nat, family: Family): (groups: seq<nat>)
    ensures |groups| == count
  {
    if count == 0 then [] else Groups(Above(n, family), count - 1, family) + [Last(n, family)]
  }

  function FromGroups(groups: seq<nat>, family: Family): nat {
    if groups == [] then 0 else Shifted(FromGroups(groups[..|groups| - 1], family), family) + groups[|groups| - 1]
  }

  /** How many numbers that many groups write. */
  function Limit(count: nat, family: Family): nat {
    if count == 0 then 1 else Shifted(Limit(count - 1, family), family)
  }

  lemma {:induction false} GroupsRoundTrip(n: nat, count: nat, family: Family)
    requires n < Limit(count, family)
    ensures FromGroups(Groups(n, count, family), family) == n
  {
    if count > 0 {
      var groups := Groups(n, count, family);
      GroupsRoundTrip(Above(n, family), count - 1, family);
      assert groups[..|groups| - 1] == Groups(Above(n, family), count - 1, family);
    }
  }

  // --------------------------------------------------------------------------- groups as text

  function Spelled(groups: seq<nat>, separator: char, numerals: Numerals): string {
    if groups == [] then ""
    else if |groups| == 1 then numerals.write(groups[0])
    else numerals.write(groups[0]) + [separator] + Spelled(groups[1..], separator, numerals)
  }

  function ReadGroups(text: string, separator: char, numerals: Numerals): Option<seq<nat>>
    decreases |text|
  {
    var at := FindFirst(text, separator);
    var first := numerals.read(if at.Some? then text[..at.value] else text);
    if first.None? then None
    else if at.None? then Some([first.value])
    else
      var rest := ReadGroups(text[at.value + 1..], separator, numerals);
      if rest.Some? then Some([first.value] + rest.value) else None
  }

  /** Numerals that are read as what was written, in a few characters other than the separator. */
  ghost predicate Readable(numerals: Numerals, separator: char) {
    forall n :: Written(numerals, separator, n)
  }

  ghost predicate Written(numerals: Numerals, separator: char, n: nat) {
    var text := numerals.write(n);
    && numerals.read(text) == Some(n) && text != ""
    && forall i :: 0 <= i < |text| ==> IsHexDigit(text[i]) && text[i] != separator
  }

  lemma {:induction false} SpelledRoundTrip(groups: seq<nat>, separator: char, numerals: Numerals)
    requires groups != [] && Readable(numerals, separator)
    ensures ReadGroups(Spelled(groups, separator, numerals), separator, numerals) == Some(groups)
    decreases groups
  {
    hide Written;
    WrittenNumber(numerals, separator, groups[0]);
    var first := numerals.write(groups[0]);
    if |groups| > 1 {
      var rest := Spelled(groups[1..], separator, numerals);
      FoundFirst(first, separator, rest);
      var text := first + [separator] + rest;
      assert text[..|first|] == first && text[|first| + 1..] == rest;
      SpelledRoundTrip(groups[1..], separator, numerals);
      assert [groups[0]] + groups[1..] == groups;
    } else {
      assert FindFirst(first, separator).None?;
      assert groups == [groups[0]];
    }
  }

  lemma WrittenNumber(numerals: Numerals, separator: char, n: nat)
    requires Readable(numerals, separator)
    ensures var text := numerals.write(n);
            && numerals.read(text) == Some(n) && text != "" && separator !in text
            && forall i :: 0 <= i < |text| ==> IsHexDigit(text[i])
  {
    assert Written(numerals, separator, n);
  }

  /** A spelling: hexadecimal digits and separators, a digit at both ends, no two separators in a row. */
  predicate Neat(text: string, separator: char) {
    && text != ""
    && (forall i :: 0 <= i < |text| ==> IsHexDigit(text[i]) || text[i] == separator)
    && IsHexDigit(text[0]) && IsHexDigit(text[|text| - 1])
    && (forall i :: 0 <= i < |text| - 1 ==> IsHexDigit(text[i]) || IsHexDigit(text[i + 1]))
  }

  lemma {:induction false} SpelledIsNeat(groups: seq<nat>, separator: char, numerals: Numerals)
    requires groups != [] && Readable(numerals, separator)
    ensures Neat(Spelled(groups, separator, numerals), separator)
    decreases groups
  {
    WrittenNumber(numerals, separator, groups[0]);
    if |groups| > 1 {
      SpelledIsNeat(groups[1..], separator, numerals);
    }
  }

  lemma DecimalIsReadable()
    ensures Readable(DECIMAL, '.')
  {
    forall n ensures Written(DECIMAL, '.', n) {
      DecimalRoundTrip(n);
    }
  }

  lemma HexIsReadable()
    ensures Readable(HEXADECIMAL, ':')
  {
    forall n ensures Written(HEXADECIMAL, ':', n) {
      HexRoundTrip(n);
    }
  }

  // ------------------------------------------------------------------------------ addresses

  function SpellAddress(address: Address): string {
    match address
    case V4(bits) => Spelled(Groups(bits, 4, Four), '.', DECIMAL)
    case V6(bits) => Spelled(Groups(bits, 8, Six), ':', HEXADECIMAL)
  }

  /** The address the text would be the spelling of. */
  function Candidate(text: string): Option<Address> {
    var four, six := ReadGroups(text, '.', DECIMAL), ReadGroups(text, ':', HEXADECIMAL);
    if four.Some? && |four.value| == 4 && FromGroups(four.value, Four) < 0x1_0000_0000 then
      Some(V4(FromGroups(four.value, Four)))
    else if && six.Some? && |six.value| == 8
            && FromGroups(six.value, Six) < 0x1_0000_0000_0000_0000_0000_0000_0000_0000 then
      Some(V6(FromGroups(six.value, Six)))
    else None
  }

  function ReadAddress(text: string): Option<Address> {
    var address := Candidate(text);
    if address.Some? && SpellAddress(address.value) == text then address else None
  }

  function ReadPrefixed(text: string): Option<Net> {
    var slash := FindFirst(text, '/');
    if slash.None? then None
    else
      var address, prefix := ReadAddress(text[..slash.value]), DecimalNumber(text[slash.value + 1..]);
      match (address, prefix)
      case (Some(V4(addr)), Some(length)) => if length <= 32 then Some(Net4(addr, length)) else None
      case (Some(V6(addr)), Some(length)) => if length <= 128 then Some(Net6(addr, length)) else None
      case _ => None
  }

  /** What stands behind the last dot, the root's dot aside. */
  function LastLabel(text: string): string {
    var name := StripDot(text);
    var dot := FindLast(name, '.');
    if dot.Some? then name[dot.value + 1..] else name
  }

  /** A name whose last label is a number is an address or nothing. */
  function ReadHost(text: string): Reading {
    var address := ReadAddress(text);
    if address.Some? then Addressed(address.value)
    else if text == "" || ':' in text || AllDigits(LastLabel(text)) then Unreadable
    else Named
  }

  function NoNames(text: string): Option<string> {
    None
  }

  const PLAIN: Readers := Readers(SpellAddress, ReadAddress, ReadPrefixed, ReadHost, NoNames)

  lemma LimitOfFour()
    ensures Limit(4, Four) == 0x1_0000_0000
  {
    assert Limit(2, Four) == 0x1_0000;
  }

  lemma LimitOfSix()
    ensures Limit(8, Six) == 0x1_0000_0000_0000_0000_0000_0000_0000_0000
  {
    assert Limit(2, Six) == 0x1_0000_0000;
    assert Limit(4, Six) == 0x1_0000_0000_0000_0000;
    assert Limit(6, Six) == 0x1_0000_0000_0000_0000_0000_0000;
  }

  lemma NeatAddress(text: string, separator: char)
    requires Neat(text, separator) && (separator == '.' || separator == ':')
    ensures AddressText(text) && HostChars(text)
    ensures separator == '.' ==> ':' !in text
  {
  }

  lemma SeveralColons(first: string, second: string, rest: string)
    requires ':' !in first
    ensures ManyColons(first + ":" + (second + ":" + rest))
  {
    var text := first + ":" + (second + ":" + rest);
    FoundFirst(first, ':', second + ":" + rest);
    assert text == first + [':'] + (second + ":" + rest);
    assert text[|first| + 1 + |second|] == ':';
    var last := FindLast(text, ':');
    assert last.Some? && last.value >= |first| + 1 + |second|;
  }

  lemma SpelledHasManyColons(groups: seq<nat>)
    requires |groups| >= 3
    ensures ManyColons(Spelled(groups, ':', HEXADECIMAL))
  {
    HexIsReadable();
    WrittenNumber(HEXADECIMAL, ':', groups[0]);
    assert groups[1..][1..] == groups[2..];
    SeveralColons(Hex(groups[0]), Hex(groups[1]), Spelled(groups[2..], ':', HEXADECIMAL));
    assert Spelled(groups[1..], ':', HEXADECIMAL) == Hex(groups[1]) + ":" + Spelled(groups[2..], ':', HEXADECIMAL);
  }

  lemma FourIsRead(bits: Word32)
    ensures Candidate(SpellAddress(V4(bits))) == Some(V4(bits))
  {
    DecimalIsReadable();
    LimitOfFour();
    SpelledRoundTrip(Groups(bits, 4, Four), '.', DECIMAL);
    GroupsRoundTrip(bits, 4, Four);
  }

  lemma FourSpells(bits: Word32)
    ensures Spells(PLAIN, V4(bits))
  {
    hide Spelled, Groups, Candidate, Neat, AddressText, HostChars;
    FourIsRead(bits);
    DecimalIsReadable();
    SpelledIsNeat(Groups(bits, 4, Four), '.', DECIMAL);
    NeatAddress(SpellAddress(V4(bits)), '.');
  }

  /** A spelling with colons and no dot does not read as four groups. */
  lemma NoDotNotFour(text: string)
    requires '.' !in text
    ensures var four := ReadGroups(text, '.', DECIMAL); four.Some? ==> |four.value| == 1
  {
    assert FindFirst(text, '.').None?;
  }

  lemma SixIsRead(bits: Word128)
    ensures Candidate(SpellAddress(V6(bits))) == Some(V6(bits))
  {
    hide Groups, FromGroups, Spelled, ReadGroups;
    HexIsReadable();
    LimitOfSix();
    var groups := Groups(bits, 8, Six);
    SpelledRoundTrip(groups, ':', HEXADECIMAL);
    GroupsRoundTrip(bits, 8, Six);
    SpelledIsNeat(groups, ':', HEXADECIMAL);
    NeatHasNoDot(SpellAddress(V6(bits)));
    NoDotNotFour(SpellAddress(V6(bits)));
  }

  lemma NeatHasNoDot(text: string)
    requires Neat(text, ':')
    ensures '.' !in text
  {
  }

  lemma SixSpells(bits: Word128)
    ensures Spells(PLAIN, V6(bits))
  {
    hide Spelled, Groups, Candidate, Neat, AddressText, HostChars, OneColon;
    SixIsRead(bits);
    HexIsReadable();
    SpelledIsNeat(Groups(bits, 8, Six), ':', HEXADECIMAL);
    NeatAddress(SpellAddress(V6(bits)), ':');
    SpelledHasManyColons(Groups(bits, 8, Six));
  }

  lemma AddressSpells(address: Address)
    ensures Spells(PLAIN, address)
  {
    match address
    case V4(bits) => FourSpells(bits);
    case V6(bits) => SixSpells(bits);
  }

  lemma NetIsRead(net: Net)
    ensures PLAIN.block(PrintNet(PLAIN, net)) == Some(net)
  {
    hide SpellAddress, ReadAddress, Decimal, HasEmptyLabel, OneColon;
    var address := SpellAddress(NetAddress(net));
    var length := if net.Net4? then net.prefix4 else net.prefix6;
    AddressSpells(NetAddress(net));
    AddressChars(address);
    FoundFirst(address, '/', Decimal(length));
    var text := address + ['/'] + Decimal(length);
    assert PrintNet(PLAIN, net) == text && text[..|address|] == address && text[|address| + 1..] == Decimal(length);
    DecimalRoundTrip(length);
  }

  lemma TextReads(text: string)
    ensures Reads(PLAIN, text)
  {
    hide SpellAddress, Candidate, HasEmptyLabel, OneColon;
    if ReadAddress(text).Some? {
      AddressSpells(ReadAddress(text).value);
    }
  }

  /** The laws hold of these readers. */
  lemma PlainIsLawful()
    ensures Lawful(PLAIN)
  {
    forall address ensures Spells(PLAIN, address) { AddressSpells(address); }
    forall net ensures PLAIN.block(PrintNet(PLAIN, net)) == Some(net) { NetIsRead(net); }
    forall text ensures Reads(PLAIN, text) { TextReads(text); }
  }

  /** With these readers the round trip needs nothing assumed. */
  lemma PlainRoundTrip(entry: string)
    ensures var parsed := ParseEntry(PLAIN, entry);
            parsed.Rule? ==>
              ParseEntry(PLAIN, Print(PLAIN, parsed.pattern)) ==
                Rule(if parsed.pattern == EVERY_NAME then All else parsed.pattern)
  {
    hide Lawful, ParseEntry, Print;
    PlainIsLawful();
    RoundTrip(PLAIN, entry);
  }
}
