/** Finding a check-in in a packet: ExtractFromPacket and its helpers in internal/checkins/service.go. */
module Extraction {
  import opened Wrappers
  import opened Text
  import opened Hex

  datatype Candidate = Candidate(username: string, displayName: string, message: string)

  datatype Json = JsonString(text: string) | JsonOther

  /** The library functions the extraction is built on, left uninterpreted. */
  datatype Library = Library(
    fold: CaseMap,                                       // unicode.ToLower
    parseObject: seq<byte> -> Option<map<string, Json>>, // json.Unmarshal into a map
    runes: seq<byte> -> string,                          // the characters of string(raw)
    utf8: seq<byte> -> Option<string>,                   // the same, if utf8.Valid
    keyHash: seq<byte> -> byte,                          // first byte of SHA-256
    mac: (seq<byte>, seq<byte>) -> seq<byte>,            // HMAC-SHA-256 under the padded key, first two bytes
    decrypt: (seq<byte>, seq<byte>) -> seq<byte>)        // AES-128 in ECB mode

  // ----- Usernames -----

  predicate IsWordChar(c: char) {
    'A' <= c <= 'Z' || 'a' <= c <= 'z' || '0' <= c <= '9' || c == '_'
  }

  function FirstWord(s: string): (w: string)
    ensures w <= s
    ensures forall c | c in w :: IsWordChar(c)
    ensures s != [] && IsWordChar(s[0]) ==> w != []
  {
    if s != [] && IsWordChar(s[0]) then [s[0]] + FirstWord(s[1..]) else []
  }

  /** The matches of [A-Za-z0-9_]+, leftmost and longest. */
  function Words(s: string): (ws: seq<string>)
    ensures forall w | w in ws :: w != [] && forall c | c in w :: IsWordChar(c) && c in s
    decreases |s|
  {
    if s == [] then []
    else if IsWordChar(s[0]) then
      var w := FirstWord(s);
      [w] + Words(s[|w|..])
    else Words(s[1..])
  }

  function NormalizeUsername(fold: CaseMap, input: string): string {
    var parts := Words(Lower(fold, Trim(input)));
    if parts == [] then "anonymous" else Join(parts, "_")
  }

  predicate IsUsernameChar(c: char) {
    'a' <= c <= 'z' || '0' <= c <= '9' || c == '_'
  }

  /** A non-empty name over [a-z0-9_]. */
  predicate IsUsername(u: string) {
    u != "" && forall c | c in u :: IsUsernameChar(c)
  }

  lemma {:induction false} JoinUsername(parts: seq<string>)
    requires parts != [] && forall w | w in parts :: IsUsername(w)
    ensures IsUsername(Join(parts, "_"))
  {
    assert parts[0] in parts;
    if |parts| > 1 {
      JoinUsername(parts[1..]);
    }
  }

  lemma LoweredWordChar(fold: CaseMap, s: string, c: char)
    requires LowerMap(fold) && c in Lower(fold, s) && IsWordChar(c)
    ensures IsUsernameChar(c)
  {
  }

  lemma NormalizedIsUsername(fold: CaseMap, input: string)
    requires LowerMap(fold)
    ensures IsUsername(NormalizeUsername(fold, input))
  {
    var clean := Lower(fold, Trim(input));
    var parts := Words(clean);
    forall w | w in parts ensures IsUsername(w) {
      forall c | c in w ensures IsUsernameChar(c) {
        LoweredWordChar(fold, Trim(input), c);
      }
    }
    if parts != [] {
      JoinUsername(parts);
    }
  }

  lemma {:induction false} WholeWord(s: string)
    requires forall c | c in s :: IsWordChar(c)
    ensures FirstWord(s) == s
  {
    if s != [] {
      WholeWord(s[1..]);
    }
  }

  lemma LowerFixed(fold: CaseMap, u: string)
    requires LowerMap(fold) && forall c | c in u :: IsUsernameChar(c)
    ensures Lower(fold, u) == u
  {
    forall i | 0 <= i < |u| ensures Lower(fold, u)[i] == u[i] {
      assert u[i] in u;
      assert fold(u[i]) == AsciiLower(u[i]);
    }
  }

  lemma UsernameIsOneWord(u: string)
    requires IsUsername(u)
    ensures Trim(u) == u && Words(u) == [u]
  {
    forall c | c in u ensures !IsSpace(c) && IsWordChar(c) {}
    assert u[0] in u && u[|u| - 1] in u;
    TrimFixed(u);
    WholeWord(u);
    assert u[|u|..] == [];
  }

  /** Usernames are exactly the fixed points: normalising twice changes nothing. */
  lemma UsernameIsFixed(fold: CaseMap, u: string)
    requires LowerMap(fold)
    ensures NormalizeUsername(fold, u) == u <==> IsUsername(u)
  {
    NormalizedIsUsername(fold, u);
    if IsUsername(u) {
      UsernameIsOneWord(u);
      LowerFixed(fold, u);
    }
  }

  // ----- Messages -----

  predicate Contains(s: string, part: string) {
    part <= s || (s != "" && Contains(s[1..], part))
  }

  predicate HasTag(fold: CaseMap, message: string) {
    Contains(Lower(fold, message), "#meshmonday")
  }

  /** strings.Index(text, ": "), or the length of the text when there is none. */
  function SeparatorIndex(text: string): (i: nat)
    ensures i <= |text|
    ensures i < |text| ==> i + 2 <= |text| && text[i..i + 2] == ": "
  {
    if |text| < 2 then |text|
    else if text[0] == ':' && text[1] == ' ' then 0
    else
      var i := SeparatorIndex(text[1..]);
      assert i + 1 < |text| ==> text[1..][i..i + 2] == text[i + 1..i + 3];
      i + 1
  }

  /** The UTF-8 length of a text, in which the source measures positions. */
  function ByteLength(s: string): nat {
    if s == [] then 0
    else
      ByteLength(s[1..])
      + if s[0] < '\U{80}' then 1 else if s[0] < '\U{800}' then 2 else if s[0] < '\U{10000}' then 3 else 4
  }

  predicate CanBeSender(sender: string) {
    sender != "" && '[' !in sender && ']' !in sender && ':' !in sender
  }

  /** parseSenderAndMessage: "sender: message" when the part before the first ": " can be a name. */
  function ParseSenderAndMessage(raw: string): (string, string) {
    SplitSender(Trim(raw))
  }

  predicate SplitsAt(text: string, i: nat)
    requires i <= |text|
  {
    0 < i < |text| && ByteLength(text[..i]) < 80 && CanBeSender(Trim(text[..i]))
  }

  function SplitSender(text: string): (string, string) {
    var i := SeparatorIndex(text);
    if SplitsAt(text, i) then (Trim(text[..i]), Trim(text[i + 2..])) else ("", text)
  }

  function ParseCandidate(fold: CaseMap, text: string): Option<Candidate> {
    var (display, message) := ParseSenderAndMessage(text);
    if display == "" || !HasTag(fold, message) then None
    else Some(Candidate(NormalizeUsername(fold, display), display, message))
  }

  function SanitizeText(value: string): string {
    var text := Trim(value);
    if |text| > 280 then Trim(text[..280]) else text
  }

  /** The first of the keys that holds a string with something in it, trimmed. */
  function StringValueSpec(body: map<string, Json>, keys: seq<string>): string {
    if keys == [] then ""
    else if keys[0] in body && body[keys[0]].JsonString? && Trim(body[keys[0]].text) != ""
    then Trim(body[keys[0]].text)
    else StringValueSpec(body, keys[1..])
  }

  method StringValue(body: map<string, Json>, keys: seq<string>) returns (value: string)
    ensures value == StringValueSpec(body, keys)
  {
    for i := 0 to |keys|
      invariant StringValueSpec(body, keys) == StringValueSpec(body, keys[i..])
    {
      if keys[i] in body {
        var v := body[keys[i]];
        if v.JsonString? && Trim(v.text) != "" {
          return Trim(v.text);
        }
      }
    }
    return "";
  }

  // ----- Encrypted group text -----

  /** The bytes before the first zero. */
  function UntilZero(raw: seq<byte>): seq<byte> {
    if raw == [] || raw[0] == 0 then [] else [raw[0]] + UntilZero(raw[1..])
  }

  /** The scan loop of decodeNullTerminatedUTF8. */
  method NullTerminated(raw: seq<byte>) returns (content: seq<byte>)
    ensures content == UntilZero(raw)
  {
    var end := |raw|;
    for i := 0 to |raw|
      invariant end == |raw|
      invariant UntilZero(raw) == raw[..i] + UntilZero(raw[i..])
    {
      if raw[i] == 0 {
        end := i;
        break;
      }
      assert raw[i..][1..] == raw[i + 1..];
      assert raw[..i + 1] == raw[..i] + [raw[i]];
    }
    content := raw[..end];
    assert UntilZero(raw[end..]) == [];
  }

  function DecodeContent(lib: Library, content: seq<byte>): string {
    match lib.utf8(content)
    case None => ""
    case Some(text) => Trim(text)
  }

  /** What one channel key makes of a group text: None when the loop goes on to the next key. */
  function TryKey(lib: Library, keyHex: string, payload: seq<byte>): Option<string>
    requires |payload| >= 3
  {
    var key := Hex.Decode(Trim(keyHex));
    var ciphertext := payload[3..];
    if || key.None? || |key.value| != 16
       || lib.keyHash(key.value) != payload[0]
       || lib.mac(key.value, ciphertext) != payload[1..3]
    then None
    else
      var plaintext := lib.decrypt(key.value, ciphertext);
      if |plaintext| < 5 then None
      else
        var text := DecodeContent(lib, UntilZero(plaintext[5..]));
        if text == "" then None else Some(text)
  }

  predicate IsGroupText(payload: seq<byte>) {
    |payload| > 3 && (|payload| - 3) % 16 == 0
  }

  /** The first result there is, trying the keys in order. */
  function FirstSome<K, T>(attempt: K -> Option<T>, keys: seq<K>): Option<T> {
    if keys == [] then None
    else if attempt(keys[0]).Some? then attempt(keys[0])
    else FirstSome(attempt, keys[1..])
  }

  function FirstText(lib: Library, keys: seq<string>, payload: seq<byte>): Option<string>
    requires |payload| >= 3
  {
    FirstSome((k: string) => TryKey(lib, k, payload), keys)
  }

  /** The key loop of decryptGroupTextPayload. */
  method TryKeys(lib: Library, keys: seq<string>, payload: seq<byte>) returns (text: Option<string>)
    requires |payload| >= 3
    ensures text == FirstText(lib, keys, payload)
  {
    ghost var attempt := (k: string) => TryKey(lib, k, payload);
    for i := 0 to |keys|
      invariant FirstSome(attempt, keys) == FirstSome(attempt, keys[i..])
    {
      text := TryKey(lib, keys[i], payload);
      if text.Some? {
        return;
      }
      assert keys[i..][1..] == keys[i + 1..];
    }
    return None;
  }

  /** The key order decides: the result is the one of the first key, i, that has any. */
  lemma {:induction false} FirstKeyWins<K, T>(attempt: K -> Option<T>, keys: seq<K>) returns (i: nat)
    ensures i <= |keys| && forall j | 0 <= j < i :: attempt(keys[j]).None?
    ensures FirstSome(attempt, keys) == if i < |keys| then attempt(keys[i]) else None
    ensures i < |keys| ==> FirstSome(attempt, keys).Some?
  {
    i := 0;
    if keys != [] && attempt(keys[0]).None? {
      var rest := FirstKeyWins(attempt, keys[1..]);
      i := rest + 1;
      forall j | 0 <= j < i ensures attempt(keys[j]).None? {
        assert j > 0 ==> keys[j] == keys[1..][j - 1];
      }
    }
  }

  function DecryptGroupText(lib: Library, payloadHex: string, keys: seq<string>): Option<(string, string)> {
    match Hex.Decode(Trim(payloadHex))
    case None => None
    case Some(payload) =>
      if !IsGroupText(payload) then None
      else
        match FirstText(lib, keys, payload)
        case None => None
        case Some(text) =>
          var (sender, message) := ParseSenderAndMessage(text);
          Some((sender, if message == "" then text else message))
  }

  // ----- Extraction -----

  const GROUP_TEXT := 5

  const NAME_KEYS := ["username", "sender", "name"]
  const MESSAGE_KEYS := ["message", "text", "body"]

  function JsonCandidate(fold: CaseMap, name: string, message: string): Option<Candidate> {
    if name != "" && message != "" && HasTag(fold, message)
    then Some(Candidate(NormalizeUsername(fold, name), Trim(name), Trim(message)))
    else None
  }

  function TextCandidate(fold: CaseMap, text: string): Option<Candidate> {
    if text == "" then None else ParseCandidate(fold, text)
  }

  function ExtractFromPayload(lib: Library, payloadHex: string): Option<Candidate> {
    match Hex.Decode(Trim(payloadHex))
    case None => None
    case Some(raw) =>
      var body := lib.parseObject(raw);
      var name := if body.Some? then StringValueSpec(body.value, NAME_KEYS) else "";
      var message := if body.Some? then StringValueSpec(body.value, MESSAGE_KEYS) else "";
      var json := JsonCandidate(lib.fold, name, message);
      if json.Some? then json else TextCandidate(lib.fold, SanitizeText(lib.runes(raw)))
  }

  /** What is made of a decrypted text. */
  function GroupCandidate(fold: CaseMap, sender: string, message: string): Option<Candidate> {
    if sender == "" then ParseCandidate(fold, Trim(message))
    else if !HasTag(fold, Trim(message)) then None
    else Some(Candidate(NormalizeUsername(fold, sender), Trim(sender), Trim(message)))
  }

  function ExtractFromPacket(lib: Library, payloadType: nat, payloadHex: string, keys: seq<string>)
    : Option<Candidate>
  {
    var group := if payloadType == GROUP_TEXT then DecryptGroupText(lib, payloadHex, keys) else None;
    if group.Some? && (group.value.0 != "" || Trim(group.value.1) != "")
    then GroupCandidate(lib.fold, group.value.0, group.value.1)
    else ExtractFromPayload(lib, payloadHex)
  }

  /** What every accepted candidate has, whichever path found it. */
  ghost predicate Acceptable(fold: CaseMap, c: Candidate) {
    && c.displayName != "" && Trimmed(c.displayName)
    && Trimmed(c.message) && HasTag(fold, c.message)
    && IsUsername(c.username) && NormalizeUsername(fold, c.username) == c.username
    && c.username == NormalizeUsername(fold, c.displayName)
  }

  lemma {:induction false} FirstSeparator(head: string, tail: string)
    requires ':' !in head
    ensures SeparatorIndex(head + ": " + tail) == |head|
  {
    var text := head + ": " + tail;
    if head == "" {
      assert text[0] == ':' && text[1] == ' ';
    } else {
      assert text[0] == head[0] && head[0] in head;
      FirstSeparator(head[1..], tail);
      assert text[1..] == head[1..] + ": " + tail;
    }
  }

  /** What a sender writes is what is read back: a short trimmed name without brackets or colons,
      a colon and a blank, and a trimmed message. */
  lemma SenderRoundTrip(sender: string, message: string)
    requires CanBeSender(sender) && Trimmed(sender) && ByteLength(sender) < 80
    requires message != "" && Trimmed(message)
    ensures ParseSenderAndMessage(sender + ": " + message) == (sender, message)
  {
    var text := sender + ": " + message;
    assert text[0] == sender[0] && text[|text| - 1] == message[|message| - 1];
    TrimFixed(text);
    FirstSeparator(sender, message);
    assert text[..|sender|] == sender && text[|sender| + 2..] == message;
    TrimFixed(sender);
    TrimFixed(message);
  }

  lemma SplitTrimmed(text: string)
    requires Trimmed(text)
    ensures Trimmed(SplitSender(text).0) && Trimmed(SplitSender(text).1)
  {
    var i := SeparatorIndex(text);
    if SplitsAt(text, i) {
      var head, tail := text[..i], text[i + 2..];
      TrimIsTrimmed(head);
      TrimIsTrimmed(tail);
      assert SplitSender(text) == (Trim(head), Trim(tail));
    }
  }

  lemma SenderTrimmed(raw: string)
    ensures Trimmed(ParseSenderAndMessage(raw).0) && Trimmed(ParseSenderAndMessage(raw).1)
  {
    TrimIsTrimmed(raw);
    SplitTrimmed(Trim(raw));
  }

  lemma {:induction false} StringValueTrimmed(body: map<string, Json>, keys: seq<string>)
    ensures Trimmed(StringValueSpec(body, keys))
  {
    if keys != [] {
      StringValueTrimmed(body, keys[1..]);
      if keys[0] in body && body[keys[0]].JsonString? {
        TrimIsTrimmed(body[keys[0]].text);
      }
    }
  }

  lemma NamedCandidate(fold: CaseMap, name: string, message: string)
    requires LowerMap(fold) && name != "" && Trimmed(name) && Trimmed(message) && HasTag(fold, message)
    ensures Acceptable(fold, Candidate(NormalizeUsername(fold, name), name, message))
  {
    NormalizedIsUsername(fold, name);
    UsernameIsFixed(fold, NormalizeUsername(fold, name));
  }

  lemma ParsedIsAcceptable(fold: CaseMap, text: string)
    requires LowerMap(fold) && ParseCandidate(fold, text).Some?
    ensures Acceptable(fold, ParseCandidate(fold, text).value)
  {
    SenderTrimmed(text);
    var (display, message) := ParseSenderAndMessage(text);
    NamedCandidate(fold, display, message);
  }

  lemma JsonIsAcceptable(fold: CaseMap, name: string, message: string)
    requires LowerMap(fold) && Trimmed(name) && Trimmed(message)
    requires JsonCandidate(fold, name, message).Some?
    ensures Acceptable(fold, JsonCandidate(fold, name, message).value)
  {
    TrimFixed(name);
    TrimFixed(message);
    NamedCandidate(fold, name, message);
  }

  lemma PayloadCandidateIsAcceptable(lib: Library, payloadHex: string)
    requires LowerMap(lib.fold) && ExtractFromPayload(lib, payloadHex).Some?
    ensures Acceptable(lib.fold, ExtractFromPayload(lib, payloadHex).value)
  {
    var raw := Hex.Decode(Trim(payloadHex)).value;
    var body, text := lib.parseObject(raw), SanitizeText(lib.runes(raw));
    var name := if body.Some? then StringValueSpec(body.value, NAME_KEYS) else "";
    var message := if body.Some? then StringValueSpec(body.value, MESSAGE_KEYS) else "";
    if JsonCandidate(lib.fold, name, message).Some? {
      StringValueTrimmed(body.value, NAME_KEYS);
      StringValueTrimmed(body.value, MESSAGE_KEYS);
      JsonIsAcceptable(lib.fold, name, message);
    } else {
      ParsedIsAcceptable(lib.fold, text);
    }
  }

  lemma GroupIsAcceptable(fold: CaseMap, sender: string, message: string)
    requires LowerMap(fold) && Trimmed(sender) && GroupCandidate(fold, sender, message).Some?
    ensures Acceptable(fold, GroupCandidate(fold, sender, message).value)
  {
    if sender == "" {
      ParsedIsAcceptable(fold, Trim(message));
    } else {
      TrimFixed(sender);
      TrimIsTrimmed(message);
      NamedCandidate(fold, sender, Trim(message));
    }
  }

  lemma DecryptedSenderTrimmed(lib: Library, payloadHex: string, keys: seq<string>)
    ensures var group := DecryptGroupText(lib, payloadHex, keys); group.Some? ==> Trimmed(group.value.0)
  {
    if DecryptGroupText(lib, payloadHex, keys).Some? {
      SenderTrimmed(FirstText(lib, keys, Hex.Decode(Trim(payloadHex)).value).value);
    }
  }

  lemma CandidateIsAcceptable(lib: Library, payloadType: nat, payloadHex: string, keys: seq<string>)
    requires LowerMap(lib.fold)
    requires ExtractFromPacket(lib, payloadType, payloadHex, keys).Some?
    ensures Acceptable(lib.fold, ExtractFromPacket(lib, payloadType, payloadHex, keys).value)
  {
    var group := if payloadType == GROUP_TEXT then DecryptGroupText(lib, payloadHex, keys) else None;
    if group.Some? && (group.value.0 != "" || Trim(group.value.1) != "") {
      DecryptedSenderTrimmed(lib, payloadHex, keys);
      GroupIsAcceptable(lib.fold, group.value.0, group.value.1);
    } else {
      PayloadCandidateIsAcceptable(lib, payloadHex);
    }
  }
}
