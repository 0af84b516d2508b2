// The authenticated callback text of one Telegram button: version, action, decision key, MAC.
module CallbackCodec {
  import opened Common
  import opened Governance
  import opened Base64

  const CALLBACK_VERSION := "1"
  const CALLBACK_MAX_BYTES := 64
  const CALLBACK_MAC_BYTES := 9
  const DECISION_KEY_BYTES := 12

  // SHA-256 and HMAC-SHA-256 under the codec's key, as functions of their text, and the owner the
  // callbacks are bound to.
  datatype Codec = Codec(sha256: string -> seq<Byte>, hmac: string -> seq<Byte>, chatId: string, userId: string)

  ghost predicate Proper(codec: Codec) {
    (forall text :: |codec.sha256(text)| == 32) && (forall text :: |codec.hmac(text)| == 32)
  }

  function ActionCode(action: Action): string {
    match action
    case Yes => "Y"
    case No => "N"
    case Defer => "D"
    case MoreInfo => "M"
  }

  function CodeAction(code: string): Option<Action> {
    if code == "Y" then Some(Yes)
    else if code == "N" then Some(No)
    else if code == "D" then Some(Defer)
    else if code == "M" then Some(MoreInfo)
    else None
  }

  function Utf8Length(text: string): nat {
    if text == "" then 0
    else
      var c := text[0] as int;
      (if c < 0x80 then 1 else if c < 0x800 then 2 else if c < 0x10000 then 3 else 4) + Utf8Length(text[1..])
  }

  // `text.split(":")`
  function Split(text: string): (parts: seq<string>)
    ensures parts != []
  {
    if text == "" then [""]
    else
      var rest := Split(text[1..]);
      if text[0] == ':' then [""] + rest else [[text[0]] + rest[0]] + rest[1..]
  }

  function Take(bytes: seq<Byte>, n: nat): seq<Byte> {
    if n <= |bytes| then bytes[..n] else bytes
  }

  function DecisionKey(codec: Codec, decisionId: string): string {
    UrlEncode(Take(codec.sha256(decisionId), DECISION_KEY_BYTES))
  }

  function Bound(codec: Codec, body: string): string {
    body + "|" + codec.chatId + "|" + codec.userId
  }

  function Mac(codec: Codec, body: string): seq<Byte> {
    Take(codec.hmac(Bound(codec, body)), CALLBACK_MAC_BYTES)
  }

  function Body(version: string, code: string, key: string): string {
    version + ":" + code + ":" + key
  }

  // None stands for "callback data exceeds Bot API limit".
  function Encode(codec: Codec, decisionId: string, action: Action): Option<string> {
    var body := Body(CALLBACK_VERSION, ActionCode(action), DecisionKey(codec, decisionId));
    var encoded := body + ":" + UrlEncode(Mac(codec, body));
    if 1 <= Utf8Length(encoded) <= CALLBACK_MAX_BYTES then Some(encoded) else None
  }

  datatype DecodeError = BadLength | BadData | BadSignature | NotAuthentic

  function Decode(codec: Codec, value: string): Result<(string, Action), DecodeError> {
    if !(1 <= Utf8Length(value) <= CALLBACK_MAX_BYTES) then Err(BadLength)
    else
      var parts := Split(value);
      if |parts| != 4 || parts[0] != CALLBACK_VERSION || CodeAction(parts[1]).None? then Err(BadData)
      else
        var supplied := UrlDecode(parts[3]);
        if supplied.None? then Err(BadSignature)
        else if supplied.value != Mac(codec, Body(parts[0], parts[1], parts[2])) then Err(NotAuthentic)
        else Ok((parts[2], CodeAction(parts[1]).value))
  }

  // ----- Splitting what was joined -----

  lemma {:induction false} SplitPlain(text: string)
    requires forall i :: 0 <= i < |text| ==> text[i] != ':'
    ensures Split(text) == [text]
  {
    if text != "" {
      SplitPlain(text[1..]);
      assert [text[0]] + text[1..] == text;
    }
  }

  lemma {:induction false} SplitJoined(first: string, rest: string)
    requires forall i :: 0 <= i < |first| ==> first[i] != ':'
    ensures Split(first + ":" + rest) == [first] + Split(rest)
  {
    var all := first + ":" + rest;
    if first == "" {
      assert all[1..] == rest;
    } else {
      SplitJoined(first[1..], rest);
      assert all[1..] == first[1..] + ":" + rest;
      assert [first[0]] + first[1..] == first;
    }
  }

  lemma {:induction false} AsciiLength(text: string)
    requires forall i :: 0 <= i < |text| ==> text[i] < 128 as char
    ensures Utf8Length(text) == |text|
  {
    if text != "" { AsciiLength(text[1..]); }
  }

  lemma KeyAndMacShape(codec: Codec, decisionId: string, body: string)
    requires Proper(codec)
    ensures var key, mac := DecisionKey(codec, decisionId), UrlEncode(Mac(codec, body));
            && |key| == 16 && |mac| == 12 && UrlDecode(mac) == Some(Mac(codec, body))
            && (forall i :: 0 <= i < |key| ==> key[i] != ':' && key[i] < 128 as char)
            && (forall i :: 0 <= i < |mac| ==> mac[i] != ':' && mac[i] < 128 as char)
  {
    hide UrlEncode, UrlDecode;
    UrlRoundTrip(Take(codec.sha256(decisionId), DECISION_KEY_BYTES));
    UrlRoundTrip(Mac(codec, body));
  }

  // A button's text is always 33 bytes, well under the limit, and decodes to its decision and action.
  lemma EncodeDecode(codec: Codec, decisionId: string, action: Action)
    requires Proper(codec)
    ensures var encoded := Encode(codec, decisionId, action);
            && encoded.Some? && |encoded.value| == 33 && Utf8Length(encoded.value) == 33
            && Decode(codec, encoded.value) == Ok((DecisionKey(codec, decisionId), action))
  {
    hide UrlEncode, UrlDecode, Mac, DecisionKey, Utf8Length;
    var code, key := ActionCode(action), DecisionKey(codec, decisionId);
    var body := Body(CALLBACK_VERSION, code, key);
    KeyAndMacShape(codec, decisionId, body);
    var mac := UrlEncode(Mac(codec, body));
    assert |code| == 1 && code[0] != ':' && code[0] < 128 as char;
    FourParts(code, key, mac);
    assert body + ":" + mac == Joined(code, key, mac);
    AsciiLength(body + ":" + mac);
  }

  // The text written out: the version 1, one letter for the action, sixteen characters of the decision's
  // digest and twelve of the authentication code over them, the chat and the user.
  lemma EncodedText(codec: Codec, decisionId: string, action: Action)
    requires Proper(codec)
    ensures var letter :=
              if action == Yes then "Y" else if action == No then "N" else if action == Defer then "D" else "M";
            var key := UrlEncode(codec.sha256(decisionId)[..12]);
            var body := "1:" + letter + ":" + key;
            var mac := UrlEncode(codec.hmac(body + "|" + codec.chatId + "|" + codec.userId)[..9]);
            && |key| == 16 && |mac| == 12
            && Encode(codec, decisionId, action) == Some(body + ":" + mac) && DecisionKey(codec, decisionId) == key
  {
    hide UrlEncode, Utf8Length, Decode;
    EncodeDecode(codec, decisionId, action);
    var code, key := ActionCode(action), DecisionKey(codec, decisionId);
    var body := "1" + ":" + code + ":" + key;
    KeyAndMacShape(codec, decisionId, body);
    assert "1" + ":" == "1:";
    assert Bound(codec, body) == body + "|" + codec.chatId + "|" + codec.userId;
  }

  function Joined(code: string, key: string, mac: string): string {
    "1" + ":" + (code + ":" + (key + ":" + mac))
  }

  lemma FourParts(code: string, key: string, mac: string)
    requires forall i :: 0 <= i < |code| ==> code[i] != ':'
    requires forall i :: 0 <= i < |key| ==> key[i] != ':'
    requires forall i :: 0 <= i < |mac| ==> mac[i] != ':'
    ensures Split(Joined(code, key, mac)) == ["1", code, key, mac]
  {
    SplitJoined("1", code + ":" + (key + ":" + mac));
    SplitJoined(code, key + ":" + mac);
    SplitJoined(key, mac);
    SplitPlain(mac);
  }

  // A value decodes to a key and an action exactly when it is short enough, has the four parts of
  // this version, and its MAC part is the MAC of its own version, action and key.
  lemma DecodedIsAuthentic(codec: Codec, value: string, key: string, action: Action)
    ensures Decode(codec, value) == Ok((key, action)) <==>
              && 1 <= Utf8Length(value) <= CALLBACK_MAX_BYTES
              && exists code, mac ::
                   && Split(value) == [CALLBACK_VERSION, code, key, mac]
                   && CodeAction(code) == Some(action)
                   && UrlDecode(mac) == Some(Mac(codec, Body(CALLBACK_VERSION, code, key)))
  {
    hide UrlDecode, Mac, Utf8Length;
    var parts := Split(value);
    if Decode(codec, value) == Ok((key, action)) {
      assert parts == [CALLBACK_VERSION, parts[1], key, parts[3]];
    }
  }

  // The width of a character in UTF-8 (section 3 of RFC 3629), and the length of a text as their sum.
  lemma {:induction false} Utf8Widths(c: char, a: string, b: string)
    ensures Utf8Length("") == 0 && Utf8Length(a + b) == Utf8Length(a) + Utf8Length(b)
    ensures Utf8Length([c]) == 1 <==> c as int <= 0x7F
    ensures Utf8Length([c]) == 2 <==> 0x80 <= c as int <= 0x7FF
    ensures Utf8Length([c]) == 3 <==> 0x800 <= c as int <= 0xFFFF
    ensures Utf8Length([c]) == 4 <==> 0x10000 <= c as int
    decreases |a|
  {
    if a == "" {
      assert a + b == b;
    } else {
      Utf8Widths(c, a[1..], b);
      assert (a + b)[1..] == a[1..] + b;
    }
  }

  // What is refused as too long or empty, as malformed, as badly encoded, and as not authentic.
  lemma RefusalsExactly(codec: Codec, value: string)
    ensures var refused, parts := Decode(codec, value), Split(value);
            var fits := value != "" && Utf8Length(value) <= 64;
            var formed := |parts| == 4 && parts[0] == "1" && parts[1] in {"Y", "N", "D", "M"};
            && (refused == Err(BadLength) <==> !fits)
            && (refused == Err(BadData) <==> fits && !formed)
            && (refused == Err(BadSignature) <==> fits && formed && UrlDecode(parts[3]).None?)
            && (refused == Err(NotAuthentic)
                <==> && fits && formed && UrlDecode(parts[3]).Some?
                     && UrlDecode(parts[3]) != Some(Mac(codec, "1:" + parts[1] + ":" + parts[2])))
  {
    hide UrlDecode, Mac, Split;
    assert "1" + ":" == "1:";
  }

  // ----- Which texts name a decision -----

  function Rejoined(parts: seq<string>): string
    requires parts != []
  {
    if |parts| == 1 then parts[0] else parts[0] + ":" + Rejoined(parts[1..])
  }

  lemma {:induction false} SplitRejoins(text: string)
    ensures Rejoined(Split(text)) == text
  {
    if text != "" {
      SplitRejoins(text[1..]);
      var rest := Split(text[1..]);
      assert [text[0]] + text[1..] == text;
      if text[0] == ':' {
        assert ([""] + rest)[1..] == rest;
      } else {
        var parts := [[text[0]] + rest[0]] + rest[1..];
        assert parts[1..] == rest[1..];
      }
    }
  }

  lemma CodeOfAction(code: string, action: Action)
    ensures CodeAction(code) == Some(action) <==> code == ActionCode(action)
  {
    assert "Y"[0] == 'Y' && "N"[0] == 'N' && "D"[0] == 'D' && "M"[0] == 'M';
  }

  // The text before the MAC of a button: version, action and key, with their separators.
  function Head(codec: Codec, decisionId: string, action: Action): string {
    Body(CALLBACK_VERSION, ActionCode(action), DecisionKey(codec, decisionId)) + ":"
  }

  // A text names a decision and an action exactly when it is that button's own text, up to another
  // spelling of the same MAC: nothing else is accepted for it.
  lemma AcceptedTextsExactly(codec: Codec, decisionId: string, action: Action, value: string)
    requires Proper(codec)
    ensures Encode(codec, decisionId, action).Some?
    ensures var head, button := Head(codec, decisionId, action), Encode(codec, decisionId, action).value;
            && |head| == 21 && |button| == 33 && button[..21] == head
            && (Decode(codec, value) == Ok((DecisionKey(codec, decisionId), action)) <==>
                  |value| == 33 && value[..21] == head && Respelled(value[21..]) == button[21..])
  {
    hide UrlEncode, UrlDecode, Mac, DecisionKey, Utf8Length, Split, ActionCode, CodeAction, Decode, Encode;
    var head, code, key := Head(codec, decisionId, action), ActionCode(action), DecisionKey(codec, decisionId);
    var body := Body(CALLBACK_VERSION, code, key);
    EncodeDecode(codec, decisionId, action);
    ButtonParts(codec, decisionId, action);
    var mac := UrlEncode(Mac(codec, body));
    if Decode(codec, value) == Ok((key, action)) {
      AcceptedParts(codec, value, key, action);
      var spelling :| value == head + spelling && UrlDecode(spelling) == Some(Mac(codec, body));
      MacSpelling(codec, body, spelling);
      assert value[21..] == spelling;
    }
    if |value| == 33 && value[..21] == head && Respelled(value[21..]) == mac {
      assert value == head + value[21..];
      MacSpelling(codec, body, value[21..]);
      SpelledIsAccepted(codec, decisionId, action, value[21..]);
    }
  }

  lemma ButtonParts(codec: Codec, decisionId: string, action: Action)
    requires Proper(codec)
    ensures var head, button := Head(codec, decisionId, action), Encode(codec, decisionId, action);
            var body := Body(CALLBACK_VERSION, ActionCode(action), DecisionKey(codec, decisionId));
            && |head| == 21 && button.Some? && button.value == head + UrlEncode(Mac(codec, body))
            && button.value[..21] == head && button.value[21..] == UrlEncode(Mac(codec, body))
  {
    hide UrlEncode, UrlDecode, Mac, DecisionKey, Utf8Length;
    EncodeDecode(codec, decisionId, action);
    KeyAndMacShape(codec, decisionId, "");
    assert |ActionCode(action)| == 1;
  }

  // The MAC is nine bytes, so its spellings differ from its own encoding only where the decoder
  // translates.
  lemma MacSpelling(codec: Codec, body: string, spelling: string)
    requires Proper(codec)
    ensures UrlDecode(spelling) == Some(Mac(codec, body)) <==> Respelled(spelling) == UrlEncode(Mac(codec, body))
    ensures Respelled(spelling) == UrlEncode(Mac(codec, body)) ==> |spelling| == 12
  {
    hide UrlEncode, UrlDecode;
    UrlSpellings(spelling, Mac(codec, body));
    UrlRoundTrip(Mac(codec, body));
  }

  lemma AcceptedParts(codec: Codec, value: string, key: string, action: Action)
    requires Decode(codec, value) == Ok((key, action))
    ensures exists spelling ::
              && value == Body(CALLBACK_VERSION, ActionCode(action), key) + ":" + spelling
              && UrlDecode(spelling) == Some(Mac(codec, Body(CALLBACK_VERSION, ActionCode(action), key)))
  {
    hide UrlDecode, Mac, Utf8Length, Split, ActionCode, CodeAction, Decode;
    DecodedIsAuthentic(codec, value, key, action);
    var code, spelling :|
      && Split(value) == [CALLBACK_VERSION, code, key, spelling]
      && CodeAction(code) == Some(action)
      && UrlDecode(spelling) == Some(Mac(codec, Body(CALLBACK_VERSION, code, key)));
    CodeOfAction(code, action);
    SplitRejoins(value);
    FourRejoined(CALLBACK_VERSION, code, key, spelling);
  }

  lemma FourRejoined(a: string, b: string, c: string, d: string)
    ensures Rejoined([a, b, c, d]) == Body(a, b, c) + ":" + d
  {
    assert [a, b, c, d][1..] == [b, c, d] && [b, c, d][1..] == [c, d] && [c, d][1..] == [d];
    assert Rejoined([d]) == d;
    assert Rejoined([c, d]) == c + ":" + d;
    assert Rejoined([b, c, d]) == b + ":" + (c + ":" + d);
    assert Rejoined([a, b, c, d]) == a + ":" + (b + ":" + (c + ":" + d));
  }

  lemma SpelledIsAccepted(codec: Codec, decisionId: string, action: Action, spelling: string)
    requires Proper(codec)
    requires var body := Body(CALLBACK_VERSION, ActionCode(action), DecisionKey(codec, decisionId));
             Respelled(spelling) == UrlEncode(Mac(codec, body))
    ensures Decode(codec, Head(codec, decisionId, action) + spelling) == Ok((DecisionKey(codec, decisionId), action))
  {
    hide UrlEncode, UrlDecode, Mac, DecisionKey, Utf8Length, Split, CodeAction;
    var code, key := ActionCode(action), DecisionKey(codec, decisionId);
    var body := Body(CALLBACK_VERSION, code, key);
    KeyAndMacShape(codec, decisionId, body);
    MacSpelling(codec, body, spelling);
    var mac := UrlEncode(Mac(codec, body));
    forall i | 0 <= i < |spelling| ensures spelling[i] != ':' && spelling[i] < 128 as char {
      assert mac[i] == Respelled(spelling)[i];
    }
    assert |code| == 1 && code[0] != ':' && code[0] < 128 as char;
    FourParts(code, key, spelling);
    CodeOfAction(code, action);
    var value := Head(codec, decisionId, action) + spelling;
    assert value == Joined(code, key, spelling);
    AsciiLength(value);
    DecodedIsAuthentic(codec, value, key, action);
  }
}
