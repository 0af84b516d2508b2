// Base64 with padding (section 4 of RFC 4648) and base64url without it (sections 5 and 3.2).
module Base64 {
  import opened Common

  type Byte = b: int | 0 <= b < 256 witness 0

  type Digit = v: int | 0 <= v < 64 witness 0

  // ----- The alphabets -----

  function DigitChar(v: Digit, urlSafe: bool): char {
    if v < 26 then 'A' + v as char
    else if v < 52 then 'a' + (v - 26) as char
    else if v < 62 then '0' + (v - 52) as char
    else if v == 62 then (if urlSafe then '-' else '+')
    else (if urlSafe then '_' else '/')
  }

  // The decoder translates '-' and '_' to '+' and '/' first, so the url-safe form accepts both.
  function CharDigit(c: char, urlSafe: bool): Option<Digit> {
    if 'A' <= c <= 'Z' then Some(c as int - 'A' as int)
    else if 'a' <= c <= 'z' then Some(c as int - 'a' as int + 26)
    else if '0' <= c <= '9' then Some(c as int - '0' as int + 52)
    else if c == '+' || (urlSafe && c == '-') then Some(62)
    else if c == '/' || (urlSafe && c == '_') then Some(63)
    else None
  }

  lemma DigitRoundTrip(v: Digit, urlSafe: bool)
    ensures CharDigit(DigitChar(v, urlSafe), urlSafe) == Some(v)
    ensures DigitChar(v, urlSafe) != '=' && DigitChar(v, urlSafe) != ':'
    ensures DigitChar(v, urlSafe) < 128 as char
  {
  }

  // ----- The printer -----

  // The digits of one to three bytes, most significant first.
  function GroupDigits(group: seq<Byte>): (digits: seq<Digit>)
    requires 1 <= |group| <= 3
    ensures |digits| == |group| + 1
  {
    if |group| == 1 then [group[0] / 4, (group[0] % 4) * 16]
    else if |group| == 2 then [group[0] / 4, (group[0] % 4) * 16 + group[1] / 16, (group[1] % 16) * 4]
    else [group[0] / 4, (group[0] % 4) * 16 + group[1] / 16, (group[1] % 16) * 4 + group[2] / 64, group[2] % 64]
  }

  function Text(digits: seq<Digit>, urlSafe: bool): (text: string)
    ensures |text| == |digits|
  {
    seq(|digits|, i requires 0 <= i < |digits| => DigitChar(digits[i], urlSafe))
  }

  // The significant characters, without padding.
  function Characters(bytes: seq<Byte>, urlSafe: bool): string {
    if bytes == [] then ""
    else if |bytes| <= 3 then Text(GroupDigits(bytes), urlSafe)
    else Text(GroupDigits(bytes[..3]), urlSafe) + Characters(bytes[3..], urlSafe)
  }

  function Equals(n: nat): (padding: string)
    ensures |padding| == n && forall i :: 0 <= i < n ==> padding[i] == '='
  {
    if n == 0 then "" else "=" + Equals(n - 1)
  }

  // How many '=' bring a length up to a multiple of four.
  function PaddingFor(length: nat): nat {
    (4 - length % 4) % 4
  }

  function Encode(bytes: seq<Byte>, urlSafe: bool): string {
    Characters(bytes, urlSafe) + Equals(PaddingFor(|Characters(bytes, urlSafe)|))
  }

  // ----- The strict parser -----

  function Digits(text: string, urlSafe: bool): Option<seq<Digit>> {
    if text == "" then Some([])
    else
      var first := CharDigit(text[0], urlSafe);
      var rest := Digits(text[1..], urlSafe);
      if first.Some? && rest.Some? then Some([first.value] + rest.value) else None
  }

  // The bytes of two to four digits; unused low bits are not checked.
  function GroupBytes(digits: seq<Digit>): (group: seq<Byte>)
    requires 2 <= |digits| <= 4
    ensures |group| == |digits| - 1
  {
    var a: int, b: int := digits[0], digits[1];
    if |digits| == 2 then [a * 4 + b / 16]
    else
      var c: int := digits[2];
      if |digits| == 3 then [a * 4 + b / 16, (b % 16) * 16 + c / 4]
      else
        var d: int := digits[3];
        [a * 4 + b / 16, (b % 16) * 16 + c / 4, (c % 4) * 64 + d]
  }

  // How many characters of a final group are significant: its '=' may only be the last one or two.
  function Significant(group: string): nat
    requires |group| == 4
  {
    if group[3] != '=' then 4 else if group[2] != '=' then 3 else 2
  }

  function DecodeGroup(text: string, urlSafe: bool): Option<seq<Byte>>
    requires 2 <= |text| <= 4
  {
    var digits := Digits(text, urlSafe);
    if digits.Some? && 2 <= |digits.value| <= 4 then Some(GroupBytes(digits.value)) else None
  }

  function Decode(text: string, urlSafe: bool): Option<seq<Byte>> {
    if text == "" then Some([])
    else if |text| < 4 then None
    else if |text| == 4 then DecodeGroup(text[..Significant(text)], urlSafe)
    else
      var first := DecodeGroup(text[..4], urlSafe);
      var rest := Decode(text[4..], urlSafe);
      if first.Some? && rest.Some? then Some(first.value + rest.value) else None
  }

  // ----- Round trips -----

  lemma GroupRoundTrip(group: seq<Byte>)
    requires 1 <= |group| <= 3
    ensures GroupBytes(GroupDigits(group)) == group
  {
    HighBits(group[0]);
    if |group| >= 2 { MiddleBits(group[0], group[1]); }
    if |group| == 3 { LowBits(group[1], group[2]); }
  }

  lemma HighBits(a: Byte)
    ensures (a / 4) * 4 + ((a % 4) * 16) / 16 == a
  {
  }

  lemma MiddleBits(a: Byte, b: Byte)
    ensures (a / 4) * 4 + ((a % 4) * 16 + b / 16) / 16 == a
    ensures (((a % 4) * 16 + b / 16) % 16) * 16 + ((b % 16) * 4) / 4 == b
  {
  }

  lemma LowBits(b: Byte, c: Byte)
    ensures ((b % 16) * 4 + c / 64) / 4 == b % 16
    ensures (((b % 16) * 4 + c / 64) % 4) * 64 + c % 64 == c
  {
  }

  lemma {:induction false} TextRoundTrip(digits: seq<Digit>, urlSafe: bool)
    ensures Digits(Text(digits, urlSafe), urlSafe) == Some(digits)
  {
    if digits != [] {
      TextRoundTrip(digits[1..], urlSafe);
      DigitRoundTrip(digits[0], urlSafe);
      assert Text(digits, urlSafe)[1..] == Text(digits[1..], urlSafe);
      assert digits == [digits[0]] + digits[1..];
    }
  }

  lemma GroupTextRoundTrip(group: seq<Byte>, urlSafe: bool)
    requires 1 <= |group| <= 3
    ensures DecodeGroup(Text(GroupDigits(group), urlSafe), urlSafe) == Some(group)
  {
    TextRoundTrip(GroupDigits(group), urlSafe);
    GroupRoundTrip(group);
  }

  // n bytes take ceil(4n/3) significant characters, all printable ASCII, none of them '=' or ':'.
  lemma {:induction false} CharactersShape(bytes: seq<Byte>, urlSafe: bool)
    ensures |Characters(bytes, urlSafe)| == (4 * |bytes| + 2) / 3
    ensures forall i :: 0 <= i < |Characters(bytes, urlSafe)| ==>
              var c := Characters(bytes, urlSafe)[i]; c != '=' && c != ':' && c < 128 as char
    decreases |bytes|
  {
    if bytes != [] {
      var group := if |bytes| <= 3 then bytes else bytes[..3];
      var digits := GroupDigits(group);
      forall i | 0 <= i < |digits| ensures var c := Text(digits, urlSafe)[i]; c != '=' && c != ':' && c < 128 as char {
        DigitRoundTrip(digits[i], urlSafe);
      }
      if |bytes| > 3 { CharactersShape(bytes[3..], urlSafe); }
    }
  }

  lemma LastGroupDecodes(bytes: seq<Byte>, urlSafe: bool)
    requires 1 <= |bytes| <= 3
    ensures Decode(Encode(bytes, urlSafe), urlSafe) == Some(bytes)
  {
    hide GroupDigits, DecodeGroup;
    CharactersShape(bytes, urlSafe);
    var text, all := Text(GroupDigits(bytes), urlSafe), Encode(bytes, urlSafe);
    GroupTextRoundTrip(bytes, urlSafe);
    assert |text| == |bytes| + 1 && all == text + Equals(3 - |bytes|);
    assert forall i :: 0 <= i < |text| ==> all[i] == text[i];
    assert Significant(all) == |text| && all[..|text|] == text;
  }

  // Decoding the printed form gives the bytes back.
  lemma {:induction false} EncodeDecode(bytes: seq<Byte>, urlSafe: bool)
    ensures Decode(Encode(bytes, urlSafe), urlSafe) == Some(bytes)
    decreases |bytes|
  {
    hide Text, GroupDigits, DecodeGroup;
    CharactersShape(bytes, urlSafe);
    if bytes == [] {
      assert Encode(bytes, urlSafe) == "";
    } else if |bytes| <= 3 {
      LastGroupDecodes(bytes, urlSafe);
    } else {
      hide Encode, Characters;
      FirstGroupSplits(bytes, urlSafe);
      GroupTextRoundTrip(bytes[..3], urlSafe);
      EncodeDecode(bytes[3..], urlSafe);
      assert bytes == bytes[..3] + bytes[3..];
    }
  }

  lemma FirstGroupSplits(bytes: seq<Byte>, urlSafe: bool)
    requires |bytes| > 3
    ensures var all := Encode(bytes, urlSafe);
            |all| > 4 && all[..4] == Text(GroupDigits(bytes[..3]), urlSafe) && all[4..] == Encode(bytes[3..], urlSafe)
  {
    hide GroupDigits, Equals, Text;
    var head, rest := Text(GroupDigits(bytes[..3]), urlSafe), Characters(bytes[3..], urlSafe);
    assert Characters(bytes, urlSafe) == head + rest && |head| == 4;
    hide Characters;
    assert PaddingFor(|head + rest|) == PaddingFor(|rest|);
    CharactersShape(bytes[3..], urlSafe);
    HeadAndTail(head, rest, Equals(PaddingFor(|rest|)));
  }

  lemma HeadAndTail(head: string, rest: string, padding: string)
    requires |head| == 4
    ensures ((head + rest) + padding)[..4] == head && ((head + rest) + padding)[4..] == rest + padding
  {
  }

  // ----- `_b64url` and `_b64url_decode` -----

  function StripEquals(text: string): string {
    if text != "" && text[|text| - 1] == '=' then StripEquals(text[..|text| - 1]) else text
  }

  function UrlEncode(bytes: seq<Byte>): string {
    StripEquals(Encode(bytes, true))
  }

  function UrlDecode(text: string): Option<seq<Byte>> {
    Decode(text + Equals(PaddingFor(|text|)), true)
  }

  lemma {:induction false} StripsPadding(text: string, n: nat)
    requires forall i :: 0 <= i < |text| ==> text[i] != '='
    ensures StripEquals(text + Equals(n)) == text
  {
    if n > 0 {
      EqualsSnoc(n);
      var padded := text + Equals(n);
      assert padded[..|padded| - 1] == text + Equals(n - 1);
      StripsPadding(text, n - 1);
    } else {
      assert text + Equals(0) == text;
    }
  }

  lemma {:induction false} EqualsSnoc(n: nat)
    requires n > 0
    ensures Equals(n) == Equals(n - 1) + "="
  {
    if n > 1 { EqualsSnoc(n - 1); }
  }

  // Every byte string survives, and takes ceil(4n/3) characters, none of them '=' or ':'.
  lemma UrlRoundTrip(bytes: seq<Byte>)
    ensures UrlDecode(UrlEncode(bytes)) == Some(bytes)
    ensures |UrlEncode(bytes)| == (4 * |bytes| + 2) / 3
    ensures forall i :: 0 <= i < |UrlEncode(bytes)| ==>
              UrlEncode(bytes)[i] != '=' && UrlEncode(bytes)[i] != ':' && UrlEncode(bytes)[i] < 128 as char
  {
    CharactersShape(bytes, true);
    StripsPadding(Characters(bytes, true), PaddingFor(|Characters(bytes, true)|));
    EncodeDecode(bytes, true);
  }

  // ----- How many spellings a value has -----

  // The url-safe decoder reads '+' as '-' and '/' as '_'.
  function Respelled(text: string): (r: string)
    ensures |r| == |text|
  {
    seq(|text|, i requires 0 <= i < |text| => if text[i] == '+' then '-' else if text[i] == '/' then '_' else text[i])
  }

  lemma {:induction false} DigitsRespelled(text: string)
    requires Digits(text, true).Some?
    ensures |Digits(text, true).value| == |text| && Respelled(text) == Text(Digits(text, true).value, true)
  {
    if text != "" {
      DigitsRespelled(text[1..]);
      var rest := Digits(text[1..], true).value;
      assert Respelled(text)[1..] == Respelled(text[1..]);
      assert Text([CharDigit(text[0], true).value] + rest, true)[1..] == Text(rest, true);
      assert Respelled(text) == [Respelled(text)[0]] + Respelled(text)[1..];
    }
  }

  lemma DigitsOfGroup(digits: seq<Digit>)
    requires |digits| == 4
    ensures GroupDigits(GroupBytes(digits)) == digits
  {
    var a: int, b: int, c: int, d: int := digits[0], digits[1], digits[2], digits[3];
    assert (a * 4 + b / 16) / 4 == a && (a * 4 + b / 16) % 4 == b / 16;
    assert ((b % 16) * 16 + c / 4) / 16 == b % 16 && ((b % 16) * 16 + c / 4) % 16 == c / 4;
    assert ((c % 4) * 64 + d) / 64 == c % 4 && ((c % 4) * 64 + d) % 64 == d;
  }

  lemma GroupRespelled(text: string)
    requires |text| == 4 && DecodeGroup(text, true).Some?
    ensures |DecodeGroup(text, true).value| == 3
    ensures Respelled(text) == Text(GroupDigits(DecodeGroup(text, true).value), true)
  {
    DigitsRespelled(text);
    DigitsOfGroup(Digits(text, true).value);
  }

  lemma {:induction false} DecodedLength(text: string)
    requires Decode(text, true).Some?
    ensures |text| % 4 == 0 && (text != "" && text[|text| - 1] == '=' ==> |Decode(text, true).value| % 3 != 0)
    decreases |text|
  {
    hide Digits, GroupBytes;
    if |text| == 4 {
      GroupLength(text[..Significant(text)]);
    } else if text != "" {
      DecodedLength(text[4..]);
      GroupLength(text[..4]);
    }
  }

  lemma GroupLength(text: string)
    requires 2 <= |text| <= 4 && DecodeGroup(text, true).Some?
    ensures |DecodeGroup(text, true).value| == |text| - 1
  {
    DigitsRespelled(text);
  }

  // Whole groups of three bytes have one spelling, up to the two characters the decoder translates.
  lemma {:induction false} WholeGroupsRespelled(text: string)
    requires Decode(text, true).Some? && |Decode(text, true).value| % 3 == 0
    ensures Respelled(text) == Characters(Decode(text, true).value, true)
    decreases |text|
  {
    hide Digits, GroupBytes, GroupDigits, Text, DecodeGroup;
    if |text| == 4 {
      GroupLength(text[..Significant(text)]);
      assert text[..4] == text;
      GroupRespelled(text);
    } else if text != "" {
      var rest := Decode(text[4..], true).value;
      GroupRespelled(text[..4]);
      WholeGroupsRespelled(text[4..]);
      assert Respelled(text) == Respelled(text[..4]) + Respelled(text[4..]);
      NotEmpty(text[4..]);
      CharactersOfGroups(DecodeGroup(text[..4], true).value, rest);
    }
  }

  lemma NotEmpty(text: string)
    requires text != "" && Decode(text, true).Some?
    ensures Decode(text, true).value != []
  {
  }

  lemma CharactersOfGroups(group: seq<Byte>, rest: seq<Byte>)
    requires |group| == 3 && rest != []
    ensures Characters(group + rest, true) == Text(GroupDigits(group), true) + Characters(rest, true)
  {
    hide Text, GroupDigits;
    assert (group + rest)[..3] == group && (group + rest)[3..] == rest;
  }

  lemma PaddingOf(text: string)
    ensures PaddingFor(|text|) == 0 <==> |text| % 4 == 0
    ensures PaddingFor(|text|) == 0 ==> text + Equals(PaddingFor(|text|)) == text
    ensures var padded := text + Equals(PaddingFor(|text|));
            PaddingFor(|text|) > 0 ==> padded != "" && padded[|padded| - 1] == '='
  {
    hide Equals;
  }

  lemma UrlDecodeIs(text: string)
    ensures UrlDecode(text) == Decode(text + Equals(PaddingFor(|text|)), true)
  {
    hide Decode, Equals, PaddingFor;
  }

  lemma WholeLength(n: nat)
    requires n % 3 == 0
    ensures ((4 * n + 2) / 3) % 4 == 0
  {
    var groups := n / 3;
    assert n == 3 * groups && (4 * n + 2) / 3 == 4 * groups;
  }

  lemma WholeEncoding(bytes: seq<Byte>)
    requires |bytes| % 3 == 0
    ensures UrlEncode(bytes) == Characters(bytes, true) && |UrlEncode(bytes)| % 4 == 0
  {
    hide *;
    WholeLength(|bytes|);
    CharactersShape(bytes, true);
    StripsPadding(Characters(bytes, true), PaddingFor(|Characters(bytes, true)|));
    EncodedIsPadded(bytes);
  }

  // An unpadded text decodes to whole groups exactly when, respelled, it is their own encoding.
  lemma UrlSpellings(text: string, bytes: seq<Byte>)
    requires |bytes| % 3 == 0
    ensures UrlDecode(text) == Some(bytes) <==> Respelled(text) == UrlEncode(bytes)
  {
    hide *;
    WholeEncoding(bytes);
    PaddingOf(text);
    UrlDecodeIs(text);
    if UrlDecode(text) == Some(bytes) {
      DecodedLength(text + Equals(PaddingFor(|text|)));
      WholeGroupsRespelled(text);
    }
    if Respelled(text) == UrlEncode(bytes) {
      UrlRoundTrip(bytes);
      SameDecoding(text);
      PaddingOf(UrlEncode(bytes));
      UrlDecodeIs(UrlEncode(bytes));
    }
  }

  lemma EncodedIsPadded(bytes: seq<Byte>)
    ensures UrlEncode(bytes) == StripEquals(Characters(bytes, true) + Equals(PaddingFor(|Characters(bytes, true)|)))
  {
  }

  lemma {:induction false} SameDigits(text: string)
    ensures Digits(Respelled(text), true) == Digits(text, true)
  {
    if text != "" {
      SameDigits(text[1..]);
      assert Respelled(text)[1..] == Respelled(text[1..]);
    }
  }

  lemma SameGroup(text: string)
    requires 2 <= |text| <= 4
    ensures DecodeGroup(Respelled(text), true) == DecodeGroup(text, true)
  {
    SameDigits(text);
  }

  // Respelling does not change what a text decodes to.
  lemma {:induction false} SameDecoding(text: string)
    ensures Decode(Respelled(text), true) == Decode(text, true)
    decreases |text|
  {
    hide DecodeGroup, Digits;
    var other := Respelled(text);
    if |text| == 4 {
      var n := Significant(text);
      assert Significant(other) == n && other[..n] == Respelled(text[..n]);
      SameGroup(text[..n]);
    } else if |text| > 4 {
      SameGroup(text[..4]);
      SameDecoding(text[4..]);
      assert other[..4] == Respelled(text[..4]) && other[4..] == Respelled(text[4..]);
    }
  }

  // ----- What each character stands for -----

  // Tables 1 and 2 of RFC 4648.
  const UPPER := "ABCDEFGHIJKLMNOPQRSTUVWXYZ"
  const LOWER := "abcdefghijklmnopqrstuvwxyz"
  const DECIMAL := "0123456789"

  predicate Stands(v: Digit, urlSafe: bool, c: char) {
    && (v < 26 ==> c == UPPER[v]) && (26 <= v < 52 ==> c == LOWER[v - 26]) && (52 <= v < 62 ==> c == DECIMAL[v - 52])
    && (v == 62 ==> c == if urlSafe then '-' else '+') && (v == 63 ==> c == if urlSafe then '_' else '/')
  }

  lemma DigitStands(v: Digit, urlSafe: bool)
    ensures Stands(v, urlSafe, DigitChar(v, urlSafe))
  {
  }

  function ByteAt(bytes: seq<Byte>, i: nat): int {
    if i < |bytes| then bytes[i] else 0
  }

  function DigitAt(digits: seq<Digit>, i: nat): int {
    if i < |digits| then digits[i] else 0
  }

  // Group j of the digits and of the bytes spell the same number, in base 64 and in base 256.
  ghost predicate SameNumber(digits: seq<Digit>, bytes: seq<Byte>, j: nat) {
    262144 * DigitAt(digits, 4 * j) + 4096 * DigitAt(digits, 4 * j + 1) + 64 * DigitAt(digits, 4 * j + 2)
    + DigitAt(digits, 4 * j + 3)
    == 65536 * ByteAt(bytes, 3 * j) + 256 * ByteAt(bytes, 3 * j + 1) + ByteAt(bytes, 3 * j + 2)
  }

  lemma GroupSpells(group: seq<Byte>)
    requires 1 <= |group| <= 3
    ensures SameNumber(GroupDigits(group), group, 0)
  {
  }

  lemma SpellsOn(group: seq<Byte>, bytes: seq<Byte>, head: seq<Digit>, rest: seq<Digit>)
    requires |head| == 4 && |group| == 3 && SameNumber(head, group, 0)
    requires forall j: nat :: SameNumber(rest, bytes, j)
    ensures forall j: nat :: SameNumber(head + rest, group + bytes, j)
  {
    forall j: nat ensures SameNumber(head + rest, group + bytes, j) {
      if j > 0 {
        assert SameNumber(rest, bytes, j - 1);
      }
    }
  }

  lemma NothingAfter(digits: seq<Digit>, bytes: seq<Byte>)
    requires |digits| <= 4 && |bytes| <= 3 && SameNumber(digits, bytes, 0)
    ensures forall j: nat :: SameNumber(digits, bytes, j)
  {
  }

  // The characters, read in the alphabet, spell group by group what the bytes spell.
  lemma {:induction false} CharactersSpell(bytes: seq<Byte>, urlSafe: bool) returns (digits: seq<Digit>)
    ensures |digits| == |Characters(bytes, urlSafe)|
    ensures forall k :: 0 <= k < |digits| ==> Stands(digits[k], urlSafe, Characters(bytes, urlSafe)[k])
    ensures forall j: nat :: SameNumber(digits, bytes, j)
    decreases |bytes|
  {
    hide Stands, DigitChar, GroupDigits, SameNumber;
    if bytes == [] {
      digits := [];
      NothingSpelled();
    } else {
      var group := if |bytes| <= 3 then bytes else bytes[..3];
      digits := GroupDigits(group);
      GroupSpells(group);
      forall v: Digit ensures Stands(v, urlSafe, DigitChar(v, urlSafe)) { DigitStands(v, urlSafe); }
      if |bytes| <= 3 {
        NothingAfter(digits, bytes);
      } else {
        var rest := CharactersSpell(bytes[3..], urlSafe);
        SpellsOn(group, bytes[3..], digits, rest);
        digits := digits + rest;
        assert group + bytes[3..] == bytes;
      }
    }
  }

  lemma NothingSpelled()
    ensures forall j: nat :: SameNumber([], [], j)
  {
  }
}
