/** One-line commands: "<message-id> <content>" for edit, reply and react, "<message-id>" for the rest. */
module Commands {
  import opened Bytes
  import opened Wrappers
  import opened Text
  import Utf8

  const MAX_RUNES: nat := 4000

  datatype Error =
    | Empty | NotUtf8 | NoContent | EmptyContent | TooManyRunes | EmptyId | BadId | NotOneId | SpaceInEmoji

  // strings.TrimSuffix with a one-byte suffix.
  function TrimSuffix(s: Str, b: byte): Str {
    if s != [] && s[|s| - 1] == b then s[..|s| - 1] else s
  }

  function CommandText(data: Str): Result<Str, Error> {
    if data == [] then Err(Empty)
    else if !Utf8.Valid(data) then Err(NotUtf8)
    else
      var text := TrimSuffix(TrimSuffix(data, LF), CR);
      if text == [] then Err(Empty) else Ok(text)
  }

  function ValidateId(id: Str): Option<Error> {
    if id == [] then Some(EmptyId) else if !Decimal(id) then Some(BadId) else None
  }

  function ParseMessage(data: Str): Result<(Str, Str), Error> {
    match CommandText(data)
    case Err(e) => Err(e)
    case Ok(text) =>
      var separator := SpaceIndex(text);
      if separator < 0 then Err(NoContent)
      else
        var id, content := text[..separator], TrimLeft(text[separator..]);
        if ValidateId(id).Some? then Err(ValidateId(id).value)
        else if content == [] then Err(EmptyContent)
        else if Utf8.RuneCount(content) > MAX_RUNES then Err(TooManyRunes)
        else Ok((id, content))
  }

  function ParseReaction(data: Str): Result<(Str, Str), Error> {
    match ParseMessage(data)
    case Err(e) => Err(e)
    case Ok(parts) => if SpaceIndex(parts.1) >= 0 then Err(SpaceInEmoji) else Ok(parts)
  }

  function ParseId(data: Str): Result<Str, Error> {
    match CommandText(data)
    case Err(e) => Err(e)
    case Ok(text) =>
      var id := TrimSpace(text);
      if SpaceIndex(id) >= 0 then Err(NotOneId)
      else if ValidateId(id).Some? then Err(ValidateId(id).value)
      else Ok(id)
  }

  // ------------------------------------------------------------- ids hold no space

  lemma DigitIsNoSpace(s: Str)
    requires s != [] && s[0] < 0x80 && !(0x09 <= s[0] <= 0x0D) && s[0] != SPACE
    ensures !StartsWithSpace(s) && Utf8.Decode(s) == Utf8.Rune(s[0], 1)
  {
  }

  lemma SpaceIndexStep(s: Str)
    requires s != [] && !StartsWithSpace(s)
    ensures var n := Utf8.Decode(s).Size(); var r := SpaceIndex(s[n..]);
            SpaceIndex(s) == if r < 0 then -1 else n + r
  {
    hide Utf8.Decode, IsSpace;
  }

  // After digits the first space is the first space of what follows.
  lemma {:induction false} SpaceAfterDigits(id: Str, tail: Str)
    requires Decimal(id)
    ensures var r := SpaceIndex(tail); SpaceIndex(id + tail) == if r < 0 then -1 else |id| + r
  {
    if id == [] {
      assert id + tail == tail;
    } else {
      var s := id + tail;
      assert s[0] == id[0] && s[1..] == id[1..] + tail;
      DigitIsNoSpace(s);
      SpaceAfterDigits(id[1..], tail);
      SpaceIndexStep(s);
    }
  }

  lemma OneSpaceByte(tail: Str)
    ensures StartsWithSpace([SPACE] + tail) && Utf8.Decode([SPACE] + tail) == Utf8.Rune(SPACE, 1)
    ensures ([SPACE] + tail)[1..] == tail
    ensures SpaceIndex([SPACE] + tail) == 0
  {
  }

  lemma {:induction false} ValidAfterAscii(a: Str, b: Str)
    requires forall k :: 0 <= k < |a| ==> a[k] < 0x80
    ensures Utf8.Valid(a + b) <==> Utf8.Valid(b)
  {
    if a == [] {
      assert a + b == b;
    } else {
      var s := a + b;
      ValidAfterAscii(a[1..], b);
      assert s[0] == a[0] && s[1..] == a[1..] + b;
      assert Utf8.Decode(s) == Utf8.Rune(a[0], 1);
    }
  }

  // ------------------------------------------------------------- round trips

  function Line(id: Str, content: Str): Str {
    id + ([SPACE] + content) + [LF]
  }

  lemma LineText(id: Str, content: Str)
    requires content != []
    ensures TrimSuffix(TrimSuffix(Line(id, content), LF), CR) ==
            id + ([SPACE] + TrimSuffix(content, CR))
  {
    var text := id + ([SPACE] + content);
    assert Line(id, content)[..|Line(id, content)| - 1] == text;
    assert text[|text| - 1] == content[|content| - 1];
    if content[|content| - 1] == CR {
      assert text[..|text| - 1] == id + ([SPACE] + content[..|content| - 1]);
    }
  }

  lemma LineValid(id: Str, content: Str)
    requires Decimal(id)
    ensures Utf8.Valid(Line(id, content)) <==> Utf8.Valid(content)
  {
    Utf8.ValidSnoc(id + ([SPACE] + content), LF);
    assert id + ([SPACE] + content) == (id + [SPACE]) + content;
    ValidAfterAscii(id + [SPACE], content);
  }

  predicate ContentOk(content: Str) {
    && content != [] && Utf8.Valid(content) && Utf8.RuneCount(content) <= MAX_RUNES
    && !StartsWithSpace(content) && content[|content| - 1] != CR
  }

  lemma ParseLine(id: Str, content: Str)
    requires Decimal(id) && id != [] && content != [] && Utf8.Valid(content)
    ensures var body := TrimLeft(TrimSuffix(content, CR));
            ParseMessage(Line(id, content)) ==
            if body == [] then Err(EmptyContent)
            else if Utf8.RuneCount(body) > MAX_RUNES then Err(TooManyRunes)
            else Ok((id, body))
  {
    LineText(id, content);
    LineValid(id, content);
    var rest := TrimSuffix(content, CR);
    var text := id + ([SPACE] + rest);
    OneSpaceByte(rest);
    SpaceAfterDigits(id, [SPACE] + rest);
    assert text[|id|..] == [SPACE] + rest && text[..|id|] == id;
    TrimLeftStep([SPACE] + rest);
  }

  // An echoed "id content" line says what it says, exactly when the id is decimal and the
  // content is not empty and does not start with white space, end in a carriage return, break UTF-8 or exceed the limit.
  lemma MessageRoundTrip(id: Str, content: Str)
    ensures ParseMessage(Line(id, content)) == Ok((id, content)) <==>
            id != [] && Decimal(id) && ContentOk(content)
  {
    if id == [] || !Decimal(id) {
      assert ValidateId(id).Some?;
    } else if content == [] {
      EmptyLine(id);
    } else if !Utf8.Valid(content) {
      LineValid(id, content);
    } else {
      ParseLine(id, content);
      hide Utf8.Decode, IsSpace, Utf8.Valid, Utf8.RuneCount, ParseMessage, TrimLeft;
      TrimLeftStep(content);
      var left := TrimLeftParts(TrimSuffix(content, CR));
    }
  }

  // Content that starts with a space comes back without it.
  lemma LeadingSpaceIsLost()
    ensures ParseMessage(Line([0x31], [SPACE, 0x78])) == Ok(([0x31], [0x78]))
  {
    var content: Str := [SPACE, 0x78];
    Utf8.AsciiValid(content);
    Utf8.AsciiValid([0x78]);
    ParseLine([0x31], content);
    assert content == [SPACE] + [0x78];
    OneSpaceByte([0x78]);
    hide Utf8.Decode, IsSpace, Utf8.Valid, ParseMessage;
    TrimLeftStep(content);
    DigitIsNoSpace([0x78]);
    TrimLeftStep([0x78]);
  }

  lemma EmptyLine(id: Str)
    requires Decimal(id) && id != []
    ensures ParseMessage(Line(id, [])) != Ok((id, []))
  {
  }

  lemma LineEnd(data: Str) returns (end: Str)
    ensures data == TrimSuffix(TrimSuffix(data, LF), CR) + end
    ensures end == [] || end == [LF] || end == [CR] || end == [CR, LF]
  {
    var once := TrimSuffix(data, LF);
    var text := TrimSuffix(once, CR);
    end := (if text == once then [] else [CR]) + (if once == data then [] else [LF]);
    assert once == text + if text == once then [] else [CR];
  }

  // What an accepted line was: the id, some white space, the content and perhaps a line end.
  lemma MessageConserves(data: Str, id: Str, content: Str) returns (gap: Str, end: Str)
    requires ParseMessage(data) == Ok((id, content))
    ensures data == id + gap + content + end
    ensures gap != [] && Spaces(gap) && end in {[], [LF], [CR], [CR, LF]}
    ensures id != [] && Decimal(id) && content != [] && !StartsWithSpace(content)
  {
    var text := TrimSuffix(TrimSuffix(data, LF), CR);
    hide Utf8.Decode, IsSpace, Utf8.Valid, Utf8.RuneCount, TrimLeft, Spaces, SpaceIndex, Unspaced, TrimSuffix;
    var k := SpaceIndex(text);
    SpaceFound(text);
    gap := TrimLeftParts(text[k..]);
    end := LineEnd(data);
    assert text == id + text[k..];
    assert id + (gap + content) == id + gap + content;
  }

  // ------------------------------------------------------------- what is accepted

  // One final line end is no part of a command.
  predicate TextOf(data: Str, text: Str) {
    || data == text + [CR, LF]
    || data == text + [CR]
    || (data == text + [LF] && (text == [] || text[|text| - 1] != CR))
    || (data == text && (text == [] || (text[|text| - 1] != LF && text[|text| - 1] != CR)))
  }

  // A command is well-formed text that holds more than a line end.
  lemma CommandTextExactly(data: Str, text: Str)
    ensures CommandText(data) == Ok(text) <==> Utf8.Valid(data) && text != [] && TextOf(data, text)
  {
    hide Utf8.Valid;
    LineEndTrimmed(data, text);
  }

  lemma LineEndTrimmed(data: Str, text: Str)
    ensures TrimSuffix(TrimSuffix(data, LF), CR) == text <==> TextOf(data, text)
  {
    var once := TrimSuffix(data, LF);
    assert once != data ==> data == once + [LF];
    assert TrimSuffix(once, CR) != once ==> once == TrimSuffix(once, CR) + [CR];
    TrimsBack(text, CR);
    TrimsBack(text, LF);
    TrimsBack(text + [CR], LF);
    assert text + [CR] + [LF] == text + [CR, LF];
  }

  lemma TrimsBack(s: Str, b: byte)
    ensures TrimSuffix(s + [b], b) == s
    ensures s == [] || s[|s| - 1] != b ==> TrimSuffix(s, b) == s
  {
    assert (s + [b])[..|s|] == s;
  }

  ghost predicate Spaced(text: Str, id: Str, content: Str) {
    exists gap :: text == id + gap + content && gap != [] && Spaces(gap)
  }

  // A message command is accepted exactly when its text is a decimal id, white space and the content, which
  // starts with none and has between 1 and 4000 runes.
  lemma MessageExactly(data: Str, id: Str, content: Str)
    ensures ParseMessage(data) == Ok((id, content)) <==>
            && CommandText(data).Ok? && Spaced(CommandText(data).value, id, content)
            && id != [] && Decimal(id)
            && content != [] && !StartsWithSpace(content) && Utf8.RuneCount(content) <= 4000
  {
    hide Utf8.Decode, IsSpace, Utf8.Valid, Utf8.RuneCount, TrimLeft, Spaces, SpaceIndex, Unspaced, TrimSuffix, CommandText;
    if ParseMessage(data) == Ok((id, content)) {
      var text := CommandText(data).value;
      var k := SpaceIndex(text);
      SpaceFound(text);
      var gap := TrimLeftParts(text[k..]);
      assert text == id + text[k..];
      assert id + (gap + content) == id + gap + content;
    }
    if CommandText(data).Ok? && Spaced(CommandText(data).value, id, content) && Decimal(id) && !StartsWithSpace(content) {
      var text := CommandText(data).value;
      var gap :| text == id + gap + content && gap != [] && Spaces(gap);
      assert text == id + (gap + content);
      SpaceAfterDigits(id, gap + content);
      SpaceAtStart(gap, content);
      TrimLeftSpaces(gap, content);
      TrimLeftStep(content);
      assert text[..|id|] == id && text[|id|..] == gap + content;
    }
  }

  lemma SpaceAtStart(gap: Str, rest: Str)
    requires gap != [] && Spaces(gap)
    ensures SpaceIndex(gap + rest) == 0
  {
    hide Utf8.Decode, IsSpace;
    var n := Utf8.Decode(gap).size;
    Utf8.DecodePrefix(gap, gap[n..] + rest);
    assert gap + rest == gap[..n] + (gap[n..] + rest);
  }

  // A reaction is a message command whose content has no white space at all.
  lemma ReactionExactly(data: Str, id: Str, emoji: Str)
    ensures ParseReaction(data) == Ok((id, emoji)) <==> ParseMessage(data) == Ok((id, emoji)) && Unspaced(emoji, |emoji|)
  {
    hide ParseMessage, SpaceIndex;
    SpaceFound(emoji);
  }

  // ------------------------------------------------------------- ids

  lemma {:induction false} DigitsHaveNoSpace(id: Str)
    requires Decimal(id)
    ensures SpaceIndex(id) == -1
  {
    SpaceAfterDigits(id, []);
    assert id + [] == id;
  }

  lemma DigitsStayTrimmed(id: Str)
    requires Decimal(id) && id != []
    ensures TrimLeft(id) == id && TrimRight(id) == id
  {
    DigitIsNoSpace(id);
  }

  // An id command is accepted with any white space around one decimal id, and with nothing else.
  lemma IdCommandExactly(data: Str, id: Str)
    ensures ParseId(data) == Ok(id) <==>
            CommandText(data).Ok? && id != [] && Decimal(id) && Padded(CommandText(data).value, id)
  {
    if ParseId(data) == Ok(id) {
      var text := CommandText(data).value;
      var left, right := TrimSpaceParts(text);
      assert text == left + id + right;
    }
    if CommandText(data).Ok? && id != [] && Decimal(id) && Padded(CommandText(data).value, id) {
      var text := CommandText(data).value;
      var left, right :| text == left + id + right && Spaces(left) && Spaces(right);
      PaddingTrims(left, id, right);
      DigitsHaveNoSpace(id);
    }
  }

  ghost predicate Padded(text: Str, id: Str) {
    exists left, right :: text == left + id + right && Spaces(left) && Spaces(right)
  }

  lemma {:induction false} PaddingTrims(left: Str, id: Str, right: Str)
    requires Spaces(left) && Spaces(right) && Decimal(id) && id != []
    ensures TrimSpace(left + id + right) == id
  {
    assert left + id + right == left + (id + right);
    TrimLeftSpaces(left, id + right);
    assert (id + right)[0] == id[0];
    DigitIsNoSpace(id + right);
    TrimLeftStep(id + right);
    TrimRightSpaces(id, right);
    DigitsStayTrimmed(id);
  }

  // ------------------------------------------------------------- reactions

  // A printed "id emoji" line parses back exactly when the id is decimal and the emoji is acceptable
  // content without any white space.
  lemma ReactionRoundTrip(id: Str, emoji: Str)
    ensures ParseReaction(Line(id, emoji)) == Ok((id, emoji)) <==>
            id != [] && Decimal(id) && ContentOk(emoji) && Unspaced(emoji, |emoji|)
  {
    hide ParseMessage, ContentOk, Line, SpaceIndex;
    MessageRoundTrip(id, emoji);
    SpaceFound(emoji);
  }
}
