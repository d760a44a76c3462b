/** What ExtractFromPacket reads, path by path, in terms of the bytes and texts a sender put there
(internal/checkins/service.go). */
module Reading {
  import opened Wrappers
  import opened Text
  import opened Hex
  import opened Extraction

  // ----- The tag -----

  const TAG := "#meshmonday"

  predicate PartAt(s: string, part: string, i: int) {
    0 <= i && i + |part| <= |s| && s[i..i + |part|] == part
  }

  lemma PartShifts(s: string, part: string, i: int)
    requires s != ""
    ensures PartAt(s[1..], part, i) <==> i >= 0 && PartAt(s, part, i + 1)
  {
    if 0 <= i && i + 1 + |part| <= |s| {
      assert s[1..][i..i + |part|] == s[i + 1..i + 1 + |part|];
    }
  }

  lemma {:induction false} ContainsIff(s: string, part: string)
    ensures Contains(s, part) <==> exists i :: PartAt(s, part, i)
  {
    assert part <= s <==> PartAt(s, part, 0);
    if s != "" {
      ContainsIff(s[1..], part);
      if i :| PartAt(s[1..], part, i) {
        PartShifts(s, part, i);
      }
      if i :| PartAt(s, part, i) && i > 0 {
        PartShifts(s, part, i - 1);
      }
    }
  }

  /** The tag occurs in the message, whatever its case. */
  ghost predicate Tagged(fold: CaseMap, message: string) {
    exists i :: TagAt(fold, message, i)
  }

  predicate TagAt(fold: CaseMap, message: string, i: int) {
    0 <= i && i + 11 <= |message| && forall k :: 0 <= k < 11 ==> fold(message[i + k]) == TAG[k]
  }

  lemma HasTagIff(fold: CaseMap, message: string)
    ensures HasTag(fold, message) <==> Tagged(fold, message)
  {
    ContainsIff(Lower(fold, message), TAG);
    forall i ensures PartAt(Lower(fold, message), TAG, i) <==> TagAt(fold, message, i) {
      TagAtIff(fold, message, i);
    }
  }

  lemma TagAtIff(fold: CaseMap, message: string, i: int)
    ensures PartAt(Lower(fold, message), TAG, i) <==> TagAt(fold, message, i)
  {
    var lower := Lower(fold, message);
    if 0 <= i && i + 11 <= |message| {
      var window := lower[i..i + 11];
      assert forall k :: 0 <= k < 11 ==> window[k] == fold(message[i + k]);
    }
  }

  // ----- The sender -----

  /** The text does not contain a colon and a blank. */
  predicate Unseparated(s: string) {
    forall i :: 0 <= i && i + 2 <= |s| ==> !(s[i] == ':' && s[i + 1] == ' ')
  }

  /** The part before the first colon and blank names a sender: it is shorter than 80 bytes, and once
      trimmed it is something, without brackets and colons. */
  predicate Names(head: string) {
    && ByteLength(head) < 80
    && Trim(head) != "" && '[' !in Trim(head) && ']' !in Trim(head) && ':' !in Trim(head)
  }

  lemma UnseparatedTail(head: string)
    requires head != "" && Unseparated(head + ":")
    ensures Unseparated(head[1..] + ":") && !(head[0] == ':' && (head + ":")[1] == ' ')
  {
    var a, b := head + ":", head[1..] + ":";
    assert forall i :: 0 <= i < |b| ==> b[i] == a[i + 1];
    assert a[0] == head[0] && 0 + 2 <= |a|;
  }

  lemma {:induction false} SeparatorFound(head: string, tail: string)
    requires Unseparated(head + ":")
    ensures SeparatorIndex(head + ": " + tail) == |head|
  {
    var text := head + ": " + tail;
    if head == "" {
      assert text[0] == ':' && text[1] == ' ';
    } else {
      UnseparatedTail(head);
      assert text[0] == head[0] && text[1] == (head + ":")[1];
      SeparatorFound(head[1..], tail);
      assert text[1..] == head[1..] + ": " + tail;
    }
  }

  lemma {:induction false} NoSeparator(text: string)
    requires Unseparated(text)
    ensures SeparatorIndex(text) == |text|
  {
    if |text| >= 2 {
      assert forall i :: 0 <= i < |text| - 1 ==> text[1..][i] == text[i + 1];
      NoSeparator(text[1..]);
    }
  }

  lemma Around(head: string, tail: string)
    ensures var text := head + ": " + tail; text[..|head|] == head && text[|head| + 2..] == tail
  {
  }

  lemma SplitIf(head: string, tail: string)
    requires Unseparated(head + ":")
    ensures SplitSender(head + ": " + tail) ==
            if Names(head) then (Trim(head), Trim(tail)) else ("", head + ": " + tail)
  {
    SeparatorFound(head, tail);
    Around(head, tail);
    TrimBlank("");
  }

  /** A text is split at its first colon and blank if a sender comes before it. */
  lemma SenderIs(head: string, tail: string)
    requires Unseparated(head + ":") && Trimmed(head + ": " + tail)
    ensures ParseSenderAndMessage(head + ": " + tail) ==
            if Names(head) then (Trim(head), Trim(tail)) else ("", head + ": " + tail)
  {
    TrimFixed(head + ": " + tail);
    SplitIf(head, tail);
  }

  lemma NoSender(text: string)
    requires Unseparated(text) && Trimmed(text)
    ensures ParseSenderAndMessage(text) == ("", text)
  {
    TrimFixed(text);
    NoSeparator(text);
  }

  /** An ASCII text has a byte for each character. */
  lemma {:induction false} AsciiBytes(s: string)
    requires forall i | 0 <= i < |s| :: s[i] < '\U{80}'
    ensures ByteLength(s) == |s|
  {
    if s != [] {
      AsciiBytes(s[1..]);
    }
  }

  // ----- Usernames -----

  /** No character is part of a word once lowered. */
  predicate Wordless(fold: CaseMap, s: string) {
    forall i :: 0 <= i < |s| ==> !IsWordChar(fold(s[i]))
  }

  lemma {:induction false} NoWords(s: string)
    requires forall c | c in s :: !IsWordChar(c)
    ensures Words(s) == []
  {
    if s != [] {
      NoWords(s[1..]);
    }
  }

  /** A name without any word is anonymous. */
  lemma NamelessIsAnonymous(fold: CaseMap, input: string)
    requires Wordless(fold, input)
    ensures NormalizeUsername(fold, input) == "anonymous"
  {
    var lower := Lower(fold, Trim(input));
    TrimIsPart(input);
    forall c | c in lower ensures !IsWordChar(c) {
      var i :| 0 <= i < |lower| && lower[i] == c;
      assert Trim(input)[i] in input;
      var k :| 0 <= k < |input| && input[k] == Trim(input)[i];
    }
    NoWords(lower);
  }

  lemma TrimIsPart(s: string)
    ensures forall c | c in Trim(s) :: c in s
  {
    var left := TrimLeft(s);
    forall c | c in Trim(s) ensures c in s {
      var i :| 0 <= i < |Trim(s)| && Trim(s)[i] == c;
      assert left[i] == c;
      assert s[|s| - |left| + i] == c;
    }
  }

  lemma {:induction false} FirstWordIs(word: string, rest: string)
    requires (forall c | c in word :: IsWordChar(c)) && (rest != [] ==> !IsWordChar(rest[0]))
    ensures FirstWord(word + rest) == word
  {
    if word == [] {
      assert word + rest == rest;
    } else {
      assert (word + rest)[1..] == word[1..] + rest;
      FirstWordIs(word[1..], rest);
    }
  }

  lemma NextWord(word: string, between: char, tail: string)
    requires !IsWordChar(between) && IsUsername(word)
    ensures Words(word + [between] + tail) == [word] + Words(tail)
  {
    var rest := [between] + tail;
    assert word + [between] + tail == word + rest;
    assert (word + rest)[0] == word[0] && word[0] in word;
    FirstWordIs(word, rest);
    assert (word + rest)[|word|..] == rest && rest[1..] == tail;
  }

  /** Words with one other character between them. */
  lemma {:induction false} WordsOfJoin(words: seq<string>, between: char)
    requires !IsWordChar(between) && forall w | w in words :: IsUsername(w)
    ensures Words(Join(words, [between])) == words
  {
    if |words| == 1 {
      UsernameIsOneWord(words[0]);
    } else if |words| > 1 {
      var word, tail := words[0], Join(words[1..], [between]);
      var text := word + [between] + tail;
      assert word in words && words == [word] + words[1..];
      NextWord(word, between, tail);
      WordsOfJoin(words[1..], between);
    }
  }

  lemma LowerIsSame(fold: CaseMap, text: string, between: char)
    requires LowerMap(fold) && fold(between) == between
    requires forall c | c in text :: IsUsernameChar(c) || c == between
    ensures Lower(fold, text) == text
  {
    forall i | 0 <= i < |text| ensures Lower(fold, text)[i] == text[i] {
      assert text[i] in text;
      assert IsUsernameChar(text[i]) ==> fold(text[i]) == AsciiLower(text[i]);
    }
  }

  /** The words of a name are joined with underscores. */
  lemma NameIsJoined(fold: CaseMap, words: seq<string>, between: char)
    requires LowerMap(fold) && words != [] && forall w | w in words :: IsUsername(w)
    requires !IsWordChar(between) && fold(between) == between
    ensures NormalizeUsername(fold, Join(words, [between])) == Join(words, "_")
  {
    var text := Join(words, [between]);
    JoinChars(words, between);
    JoinTrimmed(words, between);
    TrimFixed(text);
    LowerIsSame(fold, text, between);
    WordsOfJoin(words, between);
  }

  lemma {:induction false} JoinChars(words: seq<string>, between: char)
    requires words != [] && forall w | w in words :: IsUsername(w)
    ensures Join(words, [between]) != ""
    ensures forall c | c in Join(words, [between]) :: IsUsernameChar(c) || c == between
  {
    assert words[0] in words;
    if |words| > 1 {
      JoinChars(words[1..], between);
    }
  }

  lemma {:induction false} JoinTrimmed(words: seq<string>, between: char)
    requires words != [] && forall w | w in words :: IsUsername(w)
    ensures var text := Join(words, [between]); Trimmed(text) && text != ""
  {
    var first := words[0];
    assert first in words;
    assert first[0] in first && first[|first| - 1] in first;
    if |words| > 1 {
      JoinTrimmed(words[1..], between);
      var tail := Join(words[1..], [between]);
      var text := first + [between] + tail;
      assert text[|text| - 1] == tail[|tail| - 1];
    }
  }

  // ----- JSON bodies and plain text -----

  /** The body has a text with something in it under the key. */
  predicate Speaks(body: map<string, Json>, key: string) {
    key in body && body[key].JsonString? && Trim(body[key].text) != ""
  }

  predicate SilentKeys(body: map<string, Json>, keys: seq<string>, i: nat)
    requires i <= |keys|
  {
    forall j :: 0 <= j < i ==> !Speaks(body, keys[j])
  }

  lemma SilentTail(body: map<string, Json>, keys: seq<string>, i: nat)
    requires 0 < i <= |keys| && SilentKeys(body, keys, i)
    ensures !Speaks(body, keys[0]) && SilentKeys(body, keys[1..], i - 1)
  {
    assert forall j :: 0 <= j < i - 1 ==> keys[1..][j] == keys[j + 1];
  }

  lemma StringValueSkips(body: map<string, Json>, keys: seq<string>)
    requires keys != []
    ensures StringValueSpec(body, keys) ==
            if Speaks(body, keys[0]) then Trim(body[keys[0]].text) else StringValueSpec(body, keys[1..])
  {
  }

  lemma {:induction false} SkipsSilent(body: map<string, Json>, keys: seq<string>, i: nat)
    requires i <= |keys| && SilentKeys(body, keys, i)
    ensures StringValueSpec(body, keys) == StringValueSpec(body, keys[i..])
  {
    if i == 0 {
      assert keys[0..] == keys;
    } else {
      SilentTail(body, keys, i);
      StringValueSkips(body, keys);
      SkipsSilent(body, keys[1..], i - 1);
      assert keys[1..][i - 1..] == keys[i..];
    }
  }

  /** The first of the keys under which the body speaks decides. */
  lemma FirstSpeaks(body: map<string, Json>, keys: seq<string>, i: nat)
    requires i <= |keys| && SilentKeys(body, keys, i)
    ensures i == |keys| ==> StringValueSpec(body, keys) == ""
    ensures i < |keys| && Speaks(body, keys[i]) ==> StringValueSpec(body, keys) == Trim(body[keys[i]].text)
  {
    SkipsSilent(body, keys, i);
    if i < |keys| {
      StringValueSkips(body, keys[i..]);
    }
  }

  const NAMES := ["username", "sender", "name"]
  const MESSAGES := ["message", "text", "body"]

  lemma KeysInOrder()
    ensures NAME_KEYS == NAMES && MESSAGE_KEYS == MESSAGES
  {
  }

  predicate FirstAt(body: map<string, Json>, keys: seq<string>, i: nat)
    requires i < |keys|
  {
    Speaks(body, keys[i]) && SilentKeys(body, keys, i)
  }

  /** What a JSON object says under the two lists of keys. */
  lemma JsonSays(lib: Library, payloadHex: string, raw: seq<byte>, body: map<string, Json>,
                 name: string, message: string)
    requires Hex.Decode(Trim(payloadHex)) == Some(raw) && lib.parseObject(raw) == Some(body)
    requires name == StringValueSpec(body, NAME_KEYS) && message == StringValueSpec(body, MESSAGE_KEYS)
    requires name != "" && message != "" && HasTag(lib.fold, message)
    ensures ExtractFromPayload(lib, payloadHex) ==
            Some(Candidate(NormalizeUsername(lib.fold, name), Trim(name), Trim(message)))
  {
  }

  /** A payload that is a JSON object with a name and a tagged message. */
  lemma JsonIsRead(lib: Library, payloadHex: string, raw: seq<byte>, body: map<string, Json>, i: nat, j: nat)
    requires Hex.Decode(Trim(payloadHex)) == Some(raw) && lib.parseObject(raw) == Some(body)
    requires i < 3 && FirstAt(body, NAMES, i) && j < 3 && FirstAt(body, MESSAGES, j)
    requires Tagged(lib.fold, Trim(body[MESSAGES[j]].text))
    ensures var name, message := Trim(body[NAMES[i]].text), Trim(body[MESSAGES[j]].text);
            ExtractFromPayload(lib, payloadHex) == Some(Candidate(NormalizeUsername(lib.fold, name), name, message))
  {
    var name, message := Trim(body[NAMES[i]].text), Trim(body[MESSAGES[j]].text);
    KeysInOrder();
    FirstSpeaks(body, NAMES, i);
    FirstSpeaks(body, MESSAGES, j);
    HasTagIff(lib.fold, message);
    TrimTwice(body[NAMES[i]].text);
    TrimTwice(body[MESSAGES[j]].text);
    JsonSays(lib, payloadHex, raw, body, name, message);
  }

  lemma TrimTwice(s: string)
    ensures Trim(Trim(s)) == Trim(s)
  {
    TrimIsTrimmed(s);
    TrimFixed(Trim(s));
  }

  /** A body says nothing under the keys, or not the tag. */
  ghost predicate NoJsonCheckin(fold: CaseMap, body: map<string, Json>) {
    || SilentKeys(body, NAMES, 3)
    || SilentKeys(body, MESSAGES, 3)
    || (exists j: nat :: j < 3 && FirstAt(body, MESSAGES, j)
                         && !Tagged(fold, Trim(body[MESSAGES[j]].text)))
  }

  /** What is read of a text: its sender's check-in, if it has a sender and the message the tag. */
  function ReadText(fold: CaseMap, text: string): Option<Candidate> {
    var (sender, message) := ParseSenderAndMessage(text);
    if sender != "" && HasTag(fold, message) then Some(Candidate(NormalizeUsername(fold, sender), sender, message))
    else None
  }

  lemma ReadTextIsParse(fold: CaseMap, text: string)
    ensures ReadText(fold, text) == ParseCandidate(fold, text)
    ensures text == "" ==> ReadText(fold, text) == None
  {
    TrimBlank("");
  }

  lemma NoJsonSays(lib: Library, payloadHex: string, raw: seq<byte>)
    requires Hex.Decode(Trim(payloadHex)) == Some(raw)
    requires lib.parseObject(raw).Some? ==>
               var body := lib.parseObject(raw).value;
               var name, message := StringValueSpec(body, NAME_KEYS), StringValueSpec(body, MESSAGE_KEYS);
               name == "" || message == "" || !HasTag(lib.fold, message)
    ensures var text := SanitizeText(lib.runes(raw));
            ExtractFromPayload(lib, payloadHex) == if text == "" then None else ParseCandidate(lib.fold, text)
  {
  }

  /** Any other payload is read as text, of no more than 280 characters. */
  lemma PlainTextIsRead(lib: Library, payloadHex: string, raw: seq<byte>)
    requires Hex.Decode(Trim(payloadHex)) == Some(raw)
    requires lib.parseObject(raw).Some? ==> NoJsonCheckin(lib.fold, lib.parseObject(raw).value)
    ensures var text := Trim(lib.runes(raw));
            ExtractFromPayload(lib, payloadHex) ==
            ReadText(lib.fold, if |text| <= 280 then text else Trim(text[..280]))
  {
    if lib.parseObject(raw).Some? {
      NoJsonName(lib.fold, lib.parseObject(raw).value);
    }
    NoJsonSays(lib, payloadHex, raw);
    ReadTextIsParse(lib.fold, SanitizeText(lib.runes(raw)));
  }

  lemma NoJsonName(fold: CaseMap, body: map<string, Json>)
    requires NoJsonCheckin(fold, body)
    ensures var name, message := StringValueSpec(body, NAME_KEYS), StringValueSpec(body, MESSAGE_KEYS);
            name == "" || message == "" || !HasTag(fold, message)
  {
    KeysInOrder();
    if SilentKeys(body, NAMES, 3) {
      FirstSpeaks(body, NAMES, 3);
    } else if SilentKeys(body, MESSAGES, 3) {
      FirstSpeaks(body, MESSAGES, 3);
    } else {
      var j: nat :| j < 3 && FirstAt(body, MESSAGES, j) && !Tagged(fold, Trim(body[MESSAGES[j]].text));
      FirstSpeaks(body, MESSAGES, j);
      HasTagIff(fold, Trim(body[MESSAGES[j]].text));
    }
  }

  lemma UnreadableIsNothing(lib: Library, payloadHex: string)
    requires Hex.Decode(Trim(payloadHex)) == None
    ensures ExtractFromPayload(lib, payloadHex) == None
  {
  }

  // ----- Encrypted group texts -----

  /** A payload of one hash byte, two bytes of a MAC, and whole blocks of sixteen bytes. */
  predicate GroupPayload(payload: seq<byte>) {
    |payload| >= 19 && (|payload| - 3) % 16 == 0
  }

  /** The listed key is this one, of sixteen bytes, and hash byte and MAC are those it gives. */
  predicate Fits(lib: Library, listed: string, key: seq<byte>, payload: seq<byte>)
    requires GroupPayload(payload)
  {
    && Hex.Decode(Trim(listed)) == Some(key) && |key| == 16
    && lib.keyHash(key) == payload[0]
    && lib.mac(key, payload[3..]) == [payload[1], payload[2]]
  }

  /** Five bytes, then the content, which ends at the first zero byte or the end. */
  ghost predicate Frames(plaintext: seq<byte>, content: seq<byte>) {
    0 !in content && exists lead, rest :: FramedBy(plaintext, lead, content, rest)
  }

  predicate FramedBy(plaintext: seq<byte>, lead: seq<byte>, content: seq<byte>, rest: seq<byte>) {
    |lead| == 5 && (rest == [] || rest[0] == 0) && plaintext == lead + content + rest
  }

  /** The text is what a fitting key decrypts the payload to. */
  ghost predicate Says(lib: Library, listed: string, payload: seq<byte>, text: string)
    requires GroupPayload(payload)
  {
    text != "" && exists key, content, said ::
      && Fits(lib, listed, key, payload)
      && Frames(lib.decrypt(key, payload[3..]), content)
      && lib.utf8(content) == Some(said) && Trim(said) == text
  }

  lemma {:induction false} UntilZeroIs(content: seq<byte>, rest: seq<byte>)
    requires 0 !in content && (rest == [] || rest[0] == 0)
    ensures UntilZero(content + rest) == content
  {
    if content == [] {
      assert content + rest == rest;
    } else {
      assert (content + rest)[0] == content[0] && content[0] in content;
      assert (content + rest)[1..] == content[1..] + rest;
      UntilZeroIs(content[1..], rest);
      assert content == [content[0]] + content[1..];
    }
  }

  lemma {:induction false} UntilZeroFrames(raw: seq<byte>)
    ensures 0 !in UntilZero(raw) && UntilZero(raw) <= raw
    ensures raw[|UntilZero(raw)|..] != [] ==> raw[|UntilZero(raw)|..][0] == 0
  {
    if raw != [] && raw[0] != 0 {
      UntilZeroFrames(raw[1..]);
    }
  }

  lemma FramedIsUntilZero(plaintext: seq<byte>, lead: seq<byte>, content: seq<byte>, rest: seq<byte>)
    requires 0 !in content && FramedBy(plaintext, lead, content, rest)
    ensures |plaintext| >= 5 && content == UntilZero(plaintext[5..])
  {
    assert plaintext[5..] == content + rest;
    UntilZeroIs(content, rest);
  }

  lemma UntilZeroIsFramed(plaintext: seq<byte>)
    requires |plaintext| >= 5
    ensures Frames(plaintext, UntilZero(plaintext[5..]))
  {
    var content := UntilZero(plaintext[5..]);
    UntilZeroFrames(plaintext[5..]);
    var lead, rest := plaintext[..5], plaintext[5..][|content|..];
    assert plaintext[5..] == content + rest;
    assert plaintext == lead + (content + rest) == lead + content + rest;
    assert FramedBy(plaintext, lead, content, rest);
  }

  lemma FramesIff(plaintext: seq<byte>, content: seq<byte>)
    ensures Frames(plaintext, content) <==> |plaintext| >= 5 && content == UntilZero(plaintext[5..])
  {
    if Frames(plaintext, content) {
      var lead, rest :| FramedBy(plaintext, lead, content, rest);
      FramedIsUntilZero(plaintext, lead, content, rest);
    }
    if |plaintext| >= 5 {
      UntilZeroIsFramed(plaintext);
    }
  }

  /** What a listed key makes of the payload. */
  lemma TryKeyIff(lib: Library, listed: string, payload: seq<byte>, text: string)
    requires GroupPayload(payload)
    ensures TryKey(lib, listed, payload) == Some(text) <==> Says(lib, listed, payload, text)
  {
    assert payload[1..3] == [payload[1], payload[2]];
    var decoded := Hex.Decode(Trim(listed));
    if decoded.Some? {
      var key := decoded.value;
      var plaintext := lib.decrypt(key, payload[3..]);
      forall content ensures Frames(plaintext, content) <==> |plaintext| >= 5 && content == UntilZero(plaintext[5..]) {
        FramesIff(plaintext, content);
      }
      if TryKey(lib, listed, payload) == Some(text) {
        var content := UntilZero(plaintext[5..]);
        assert Fits(lib, listed, key, payload) && Frames(plaintext, content);
        assert lib.utf8(content) == Some(lib.utf8(content).value);
      }
    }
  }

  /** None of the first i keys says anything. */
  ghost predicate SilentBefore(lib: Library, keys: seq<string>, i: nat, payload: seq<byte>)
    requires GroupPayload(payload) && i <= |keys|
  {
    forall j, text :: 0 <= j < i ==> !Says(lib, keys[j], payload, text)
  }

  lemma {:induction false} FirstSaid(lib: Library, keys: seq<string>, i: nat, payload: seq<byte>, text: string)
    requires GroupPayload(payload) && i <= |keys| && SilentBefore(lib, keys, i, payload)
    ensures i < |keys| && Says(lib, keys[i], payload, text) ==> FirstText(lib, keys, payload) == Some(text)
    ensures i == |keys| ==> FirstText(lib, keys, payload) == None
  {
    if keys != [] {
      if i == 0 {
        TryKeyIff(lib, keys[0], payload, text);
      } else {
        if TryKey(lib, keys[0], payload).Some? {
          TryKeyIff(lib, keys[0], payload, TryKey(lib, keys[0], payload).value);
          assert false;
        }
        forall j, t | 0 <= j < i - 1 ensures !Says(lib, keys[1..][j], payload, t) {
          assert keys[1..][j] == keys[j + 1];
        }
        FirstSaid(lib, keys[1..], i - 1, payload, text);
      }
    }
  }

  lemma Decrypted(lib: Library, payloadHex: string, payload: seq<byte>, keys: seq<string>)
    requires Hex.Decode(Trim(payloadHex)) == Some(payload) && GroupPayload(payload)
    ensures var text := FirstText(lib, keys, payload);
            && (text == None ==> DecryptGroupText(lib, payloadHex, keys) == None)
            && (text.Some? && ParseSenderAndMessage(text.value).1 != "" ==>
                  DecryptGroupText(lib, payloadHex, keys) == Some(ParseSenderAndMessage(text.value)))
  {
  }

  lemma FromGroup(lib: Library, payloadHex: string, keys: seq<string>, sender: string, message: string)
    requires DecryptGroupText(lib, payloadHex, keys) == Some((sender, message))
    requires sender != "" || Trim(message) != ""
    ensures ExtractFromPacket(lib, 5, payloadHex, keys) == GroupCandidate(lib.fold, sender, message)
  {
  }

  lemma GroupOfSender(fold: CaseMap, sender: string, message: string)
    requires sender != "" && Trimmed(sender) && Trimmed(message)
    ensures GroupCandidate(fold, sender, message) ==
            if HasTag(fold, message) then Some(Candidate(NormalizeUsername(fold, sender), sender, message)) else None
  {
    TrimFixed(sender);
    TrimFixed(message);
  }

  lemma GroupOfNobody(fold: CaseMap, message: string)
    requires Trimmed(message)
    ensures GroupCandidate(fold, "", message) == ParseCandidate(fold, message)
  {
    TrimFixed(message);
  }

  lemma NoGroup(lib: Library, payloadType: nat, payloadHex: string, keys: seq<string>)
    requires payloadType != 5 || DecryptGroupText(lib, payloadHex, keys) == None
    ensures ExtractFromPacket(lib, payloadType, payloadHex, keys) == ExtractFromPayload(lib, payloadHex)
  {
  }

  lemma SenderlessText(text: string)
    requires Trimmed(text) && ParseSenderAndMessage(text).0 == ""
    ensures ParseSenderAndMessage(text) == ("", text)
  {
    TrimFixed(text);
  }

  /** The first key that says anything decides: its text is read, and nothing else. */
  lemma GroupTextIsRead(lib: Library, payloadHex: string, payload: seq<byte>, keys: seq<string>, i: nat, text: string)
    requires Hex.Decode(Trim(payloadHex)) == Some(payload) && GroupPayload(payload)
    requires i < |keys| && SilentBefore(lib, keys, i, payload) && Says(lib, keys[i], payload, text)
    ensures ExtractFromPacket(lib, 5, payloadHex, keys) == ReadText(lib.fold, text)
  {
    FirstSaid(lib, keys, i, payload, text);
    SaidIsTrimmed(lib, keys[i], payload, text);
    MessageIsSome(text);
    SenderTrimmed(text);
    Decrypted(lib, payloadHex, payload, keys);
    var (sender, message) := ParseSenderAndMessage(text);
    TrimFixed(message);
    FromGroup(lib, payloadHex, keys, sender, message);
    if sender == "" {
      SenderlessText(text);
      GroupOfNobody(lib.fold, message);
    } else {
      GroupOfSender(lib.fold, sender, message);
    }
  }

  lemma SaidIsTrimmed(lib: Library, listed: string, payload: seq<byte>, text: string)
    requires GroupPayload(payload) && Says(lib, listed, payload, text)
    ensures Trimmed(text)
  {
    var key, content, said :|
      && Fits(lib, listed, key, payload)
      && Frames(lib.decrypt(key, payload[3..]), content)
      && lib.utf8(content) == Some(said) && Trim(said) == text;
    TrimIsTrimmed(said);
  }

  /** A text that does not end in a blank has something after a colon and a blank. */
  lemma MessageIsSome(text: string)
    requires text != "" && Trimmed(text)
    ensures ParseSenderAndMessage(text).1 != ""
  {
    TrimFixed(text);
    var i := SeparatorIndex(text);
    if i < |text| {
      AfterSeparator(text, i);
    }
  }

  lemma AfterSeparator(text: string, i: nat)
    requires i + 2 <= |text| && text[i..i + 2] == ": " && !IsSpace(text[|text| - 1])
    ensures Trim(text[i + 2..]) != ""
  {
    assert text[i..i + 2][1] == text[i + 1];
    var tail := text[i + 2..];
    assert tail != [] && tail[|tail| - 1] == text[|text| - 1];
    LastStays(tail);
  }

  lemma {:induction false} LastStays(s: string)
    requires s != [] && !IsSpace(s[|s| - 1])
    ensures Trim(s) != ""
  {
    if IsSpace(s[0]) {
      LastStays(s[1..]);
    }
  }

  /** What a sender encrypts under a listed key is what is read back. */
  lemma EncryptedCheckinIsRead(lib: Library, payloadHex: string, payload: seq<byte>, keys: seq<string>, i: nat,
                               key: seq<byte>, content: seq<byte>, sender: string, message: string)
    requires Hex.Decode(Trim(payloadHex)) == Some(payload) && GroupPayload(payload)
    requires i < |keys| && SilentBefore(lib, keys, i, payload)
    requires Fits(lib, keys[i], key, payload) && Frames(lib.decrypt(key, payload[3..]), content)
    requires lib.utf8(content) == Some(sender + ": " + message)
    requires CanBeSender(sender) && Trimmed(sender) && ByteLength(sender) < 80
    requires message != "" && Trimmed(message) && Tagged(lib.fold, message)
    ensures ExtractFromPacket(lib, 5, payloadHex, keys) ==
            Some(Candidate(NormalizeUsername(lib.fold, sender), sender, message))
  {
    var text := sender + ": " + message;
    assert text[0] == sender[0] && text[|text| - 1] == message[|message| - 1];
    TrimFixed(text);
    assert Says(lib, keys[i], payload, text);
    GroupTextIsRead(lib, payloadHex, payload, keys, i, text);
    SenderRoundTrip(sender, message);
    HasTagIff(lib.fold, message);
  }

  /** A key that does not fit says nothing. */
  lemma MisfitIsSilent(lib: Library, keys: seq<string>, payload: seq<byte>)
    requires GroupPayload(payload)
    requires forall j, key | 0 <= j < |keys| :: !Fits(lib, keys[j], key, payload)
    ensures SilentBefore(lib, keys, |keys|, payload)
  {
  }

  lemma AllSilent(lib: Library, payloadHex: string, payload: seq<byte>, keys: seq<string>)
    requires Hex.Decode(Trim(payloadHex)) == Some(payload) && GroupPayload(payload)
    requires SilentBefore(lib, keys, |keys|, payload)
    ensures DecryptGroupText(lib, payloadHex, keys) == None
  {
    FirstSaid(lib, keys, |keys|, payload, "");
    Decrypted(lib, payloadHex, payload, keys);
  }

  lemma GroupPayloadIff(payload: seq<byte>)
    ensures GroupPayload(payload) <==> IsGroupText(payload)
  {
  }

  lemma NotDecrypted(lib: Library, payloadHex: string, keys: seq<string>)
    requires Hex.Decode(Trim(payloadHex)).Some? ==> !GroupPayload(Hex.Decode(Trim(payloadHex)).value)
    ensures DecryptGroupText(lib, payloadHex, keys) == None
  {
    if Hex.Decode(Trim(payloadHex)).Some? {
      GroupPayloadIff(Hex.Decode(Trim(payloadHex)).value);
    }
  }

  /** A packet of another type, one that is no group payload, or one on which all keys are silent, is
      read as a payload in the open. */
  lemma OtherwiseInTheOpen(lib: Library, payloadType: nat, payloadHex: string, keys: seq<string>)
    requires || payloadType != 5
             || Hex.Decode(Trim(payloadHex)) == None
             || !GroupPayload(Hex.Decode(Trim(payloadHex)).value)
             || SilentBefore(lib, keys, |keys|, Hex.Decode(Trim(payloadHex)).value)
    ensures ExtractFromPacket(lib, payloadType, payloadHex, keys) == ExtractFromPayload(lib, payloadHex)
  {
    var decoded := Hex.Decode(Trim(payloadHex));
    if decoded == None || !GroupPayload(decoded.value) {
      NotDecrypted(lib, payloadHex, keys);
    } else if payloadType == 5 {
      AllSilent(lib, payloadHex, decoded.value, keys);
    }
    NoGroup(lib, payloadType, payloadHex, keys);
  }
}
