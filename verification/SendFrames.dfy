/** What is written to send: text, a bare attachment, or a framed attachment with a caption. */
module SendFrames {
  import opened Bytes
  import opened Wrappers
  import opened Text
  import Utf8

  const ATTACH: Str := [0x21, 0x61, 0x74, 0x74, 0x61, 0x63, 0x68, 0x20]
  const LFLF: Str := [LF, LF]
  const CRLF: Str := [CR, LF]
  const CRLFCRLF: Str := [CR, LF, CR, LF]
  const MAX_RUNES: nat := 4000

  datatype Attachment = Attachment(filename: Str, contentType: Str, data: Str)

  datatype Payload = Payload(content: Str, attachment: Option<Attachment>)

  datatype Error =
    | EmptyMessage | TooManyRunes | NoHeaderEnd | BadFilename | NoCaptionEnd | EmptyAttachment | CaptionNotUtf8

  // validateAttachmentFilename looks at runes.
  predicate RunesAllowed(s: Str) {
    s == [] ||
    var d := Utf8.Decode(s);
    && (d.Rune? ==> d.value != SLASH && d.value != BACKSLASH && d.value >= 0x20 && d.value != DEL)
    && RunesAllowed(s[d.Size()..])
  }

  predicate FilenameOk(name: Str) {
    name !in {[], [DOT], [DOT, DOT]} && |name| <= 255 && Utf8.Valid(name) && RunesAllowed(name)
  }

  // Where the caption ends in what follows the header line, and how long the separator is.
  datatype Cut = Cut(caption: nat, separator: nat) | NoCut

  function CutAt(rest: Str): (c: Cut)
    ensures c.Cut? ==> c.caption + c.separator <= |rest|
  {
    if CRLF <= rest then Cut(0, 2)
    else if [LF] <= rest then Cut(0, 1)
    else if Index(rest, CRLFCRLF) >= 0 then Cut(Index(rest, CRLFCRLF), 4)
    else if Index(rest, LFLF) >= 0 then Cut(Index(rest, LFLF), 2)
    else NoCut
  }

  // The header line ends at the first LF, which lies past the "!attach " the caller has seen.
  function ParseFramed(data: Str, detect: Str -> Str): Result<Payload, Error>
    requires ATTACH <= data
  {
    var lineEnd := Index(data, [LF]);
    if lineEnd < 0 then Err(NoHeaderEnd)
    else
      HeaderEndsLate(data);
      var name := TrimSpace(data[|ATTACH|..lineEnd]);
      if !FilenameOk(name) then Err(BadFilename)
      else
        var rest := data[lineEnd + 1..];
        var cut := CutAt(rest);
        if cut.NoCut? then Err(NoCaptionEnd)
        else
          var caption, body := rest[..cut.caption], rest[cut.caption + cut.separator..];
          if body == [] then Err(EmptyAttachment)
          else if !Utf8.Valid(caption) then Err(CaptionNotUtf8)
          else if Utf8.RuneCount(caption) > MAX_RUNES then Err(TooManyRunes)
          else Ok(Payload(caption, Some(Attachment(name, detect(body), body))))
  }

  lemma HeaderEndsLate(data: Str)
    requires ATTACH <= data
    ensures Index(data, [LF]) >= 0 ==> Index(data, [LF]) >= |ATTACH|
  {
    var i := Index(data, [LF]);
    assert forall k :: 0 <= k < |ATTACH| ==> data[k] == ATTACH[k] && ATTACH[k] != LF;
    if 0 <= i {
      assert data[i..i + 1] == [LF];
      assert data[i] == LF;
    }
  }

  const TEXT_PLAIN: Str := [0x74, 0x65, 0x78, 0x74, 0x2F, 0x70, 0x6C, 0x61, 0x69, 0x6E]

  // detect is http.DetectContentType, infer the file name chosen for a content type.
  function ParseSend(data: Str, detect: Str -> Str, infer: Str -> Str): Result<Payload, Error> {
    if data == [] then Err(EmptyMessage)
    else if ATTACH <= data then ParseFramed(data, detect)
    else if TEXT_PLAIN <= detect(data) && Utf8.Valid(data) then
      var text := if data[|data| - 1] == LF then data[..|data| - 1] else data;
      if text == [] then Err(EmptyMessage)
      else if Utf8.RuneCount(text) > MAX_RUNES then Err(TooManyRunes)
      else Ok(Payload(text, None))
    else Ok(Payload([], Some(Attachment(infer(detect(data)), detect(data), data))))
  }

  // ------------------------------------------------------------- nothing is lost

  // Header line, caption, a separator, and the attachment's bytes, end to end.
  function Frame(header: Str, caption: Str, separator: Str, body: Str): Str {
    ATTACH + header + [LF] + (caption + separator + body)
  }

  predicate IsSeparator(caption: Str, separator: Str) {
    separator in {CRLFCRLF, LFLF} || (caption == [] && separator in {CRLF, [LF]})
  }

  lemma CutSeparates(rest: Str)
    requires CutAt(rest).Cut?
    ensures var c := CutAt(rest); IsSeparator(rest[..c.caption], rest[c.caption..c.caption + c.separator])
  {
    var c := CutAt(rest);
    var separator := rest[c.caption..c.caption + c.separator];
    if CRLF <= rest {
      assert separator == CRLF;
    } else if [LF] <= rest {
      assert separator == [LF];
    }
  }

  lemma Pieces(rest: Str, i: nat, n: nat)
    requires i + n <= |rest|
    ensures rest == rest[..i] + rest[i..i + n] + rest[i + n..]
  {
  }

  lemma NoneBefore(s: Str, b: byte)
    ensures forall k :: 0 <= k < Index(s, [b]) ==> s[k] != b
  {
    forall k: nat | k < Index(s, [b]) ensures s[k] != b {
      assert !OccursAt(s, [b], k);
      assert s[k..k + 1] == [s[k]];
    }
  }

  // Every accepted frame is its own parts, byte for byte.
  lemma {:induction false} FrameConserves(data: Str, detect: Str -> Str, p: Payload) returns (header: Str, separator: Str)
    requires ATTACH <= data && ParseFramed(data, detect) == Ok(p)
    ensures p.attachment.Some? && p.attachment.value.data != []
    ensures data == Frame(header, p.content, separator, p.attachment.value.data)
    ensures IsSeparator(p.content, separator)
    ensures LF !in header && TrimSpace(header) == p.attachment.value.filename
  {
    hide TrimSpace, Utf8.Valid, Utf8.RuneCount, RunesAllowed, Index, CutAt;
    var lineEnd := Index(data, [LF]);
    HeaderEndsLate(data);
    header := data[|ATTACH|..lineEnd];
    NoneBefore(data, LF);
    forall k | 0 <= k < |header| ensures header[k] != LF {
      assert header[k] == data[|ATTACH| + k];
    }
    var rest := data[lineEnd + 1..];
    var c := CutAt(rest);
    CutSeparates(rest);
    separator := rest[c.caption..c.caption + c.separator];
    Pieces(rest, c.caption, c.separator);
    Pieces(data, lineEnd, 1);
    assert data[..lineEnd] == ATTACH + header;
  }

  // Text is sent without its final newline; anything else goes out whole.
  lemma SendConserves(data: Str, detect: Str -> Str, infer: Str -> Str, p: Payload)
    requires ParseSend(data, detect, infer) == Ok(p) && !(ATTACH <= data)
    ensures p.attachment.None? ==> p.content != [] && (data == p.content || data == p.content + [LF])
    ensures p.attachment.Some? ==> p.content == [] && p.attachment.value.data == data
  {
  }

  // ------------------------------------------------------------- what is accepted

  // A file name is accepted exactly when it is well-formed, of at most 255 bytes, neither empty nor a dot
  // entry, and has no slash, backslash or control byte.
  lemma FilenameExactly(name: Str)
    ensures FilenameOk(name) <==>
            && name != [] && name != [DOT] && name != [DOT, DOT] && |name| <= 255 && Utf8.Valid(name)
            && forall k :: 0 <= k < |name| ==> ByteAllowed(name[k])
  {
    if Utf8.Valid(name) {
      BytesAllowed(name);
    }
  }

  lemma {:induction false} BytesAllowed(s: Str)
    requires Utf8.Valid(s)
    ensures RunesAllowed(s) <==>
            forall k :: 0 <= k < |s| ==> ByteAllowed(s[k])
    decreases |s|
  {
    hide Utf8.Decode;
    if s != [] {
      var n := Utf8.Decode(s).size;
      var rest := s[n..];
      BytesAllowed(rest);
      RuneByte(s);
      AllowedSplit(s, n);
      assert s[n..] == rest;
    }
  }

  predicate ByteAllowed(b: byte) {
    b >= 0x20 && b != 0x2F && b != 0x5C && b != 0x7F
  }

  lemma AllowedSplit(s: Str, n: nat)
    requires n <= |s|
    ensures (forall k :: 0 <= k < |s| ==> ByteAllowed(s[k])) <==>
            (forall k :: 0 <= k < n ==> ByteAllowed(s[k])) && forall k :: 0 <= k < |s[n..]| ==> ByteAllowed(s[n..][k])
  {
    forall k | n <= k < |s| ensures s[k] == s[n..][k - n] {
    }
  }

  lemma RuneByte(s: Str)
    requires s != [] && Utf8.Decode(s).Rune?
    ensures s[0] < 0x80 ==> Utf8.Decode(s) == Utf8.Rune(s[0], 1)
    ensures s[0] >= 0x80 ==>
              Utf8.Decode(s).value >= 0x80 && forall k :: 0 <= k < Utf8.Decode(s).size ==> s[k] >= 0x80
  {
  }

  // Data that goes out as text.
  predicate TextLike(data: Str, detect: Str -> Str) {
    TEXT_PLAIN <= detect(data) && Utf8.Valid(data)
  }

  // One final newline is no part of a text.
  predicate TextOf(data: Str, t: Str) {
    data == t + [LF] || (data == t && (t == [] || t[|t| - 1] != LF))
  }

  // Data without a header is sent as text t exactly when it is text, is t but for one final newline, and
  // t has between 1 and 4000 runes.
  lemma TextExactly(data: Str, t: Str, detect: Str -> Str, infer: Str -> Str)
    requires !(ATTACH <= data)
    ensures ParseSend(data, detect, infer) == Ok(Payload(t, None)) <==>
            TextLike(data, detect) && TextOf(data, t) && t != [] && Utf8.RuneCount(t) <= 4000
  {
    hide Utf8.Valid, Utf8.RuneCount;
    if data != [] && data[|data| - 1] == LF {
      assert data == data[..|data| - 1] + [LF];
    }
    assert (t + [LF])[..|t|] == t && (t + [LF])[|t|] == LF;
  }

  // And as a bare attachment exactly when it is anything else, whole, with the type and name chosen for it.
  lemma BareExactly(data: Str, content: Str, a: Attachment, detect: Str -> Str, infer: Str -> Str)
    requires !(ATTACH <= data)
    ensures ParseSend(data, detect, infer) == Ok(Payload(content, Some(a))) <==>
            data != [] && !TextLike(data, detect) && content == [] && a == Attachment(infer(detect(data)), detect(data), data)
  {
    hide Utf8.Valid, Utf8.RuneCount;
  }

  // It is refused when it is empty, a lone newline taken for text, or a text of more than 4000 runes.
  lemma RefusedExactly(data: Str, detect: Str -> Str, infer: Str -> Str)
    requires !(ATTACH <= data)
    ensures ParseSend(data, detect, infer) == Err(EmptyMessage) <==> data == [] || (data == [LF] && TextLike(data, detect))
    ensures ParseSend(data, detect, infer) == Err(TooManyRunes) <==>
            TextLike(data, detect) && exists t :: TextOf(data, t) && Utf8.RuneCount(t) > 4000
    ensures ParseSend(data, detect, infer).Err? ==> ParseSend(data, detect, infer).error in {EmptyMessage, TooManyRunes}
  {
    hide Utf8.Valid;
    var text := if data != [] && data[|data| - 1] == LF then data[..|data| - 1] else data;
    assert TextOf(data, text) by {
      if data != [] && data[|data| - 1] == LF {
        assert data == text + [LF];
      }
    }
    forall t | TextOf(data, t) ensures t == text {
      assert (t + [LF])[..|t|] == t && (t + [LF])[|t|] == LF;
    }
    assert Utf8.RuneCount([]) == 0;
    if text == [] && data != [] {
      assert data == [LF];
    }
  }

  // Text written with a final newline is sent as it is, exactly when it is well-formed, taken for text,
  // of 1 to 4000 runes, and does not look like a header.
  lemma TextRoundTrip(t: Str, detect: Str -> Str, infer: Str -> Str)
    ensures ParseSend(t + [LF], detect, infer) == Ok(Payload(t, None)) <==>
            && t != [] && !(ATTACH <= t) && Utf8.RuneCount(t) <= 4000
            && Utf8.Valid(t) && TEXT_PLAIN <= detect(t + [LF])
  {
    hide Utf8.Valid, Utf8.RuneCount, ParseFramed, ParseSend;
    var data := t + [LF];
    Utf8.ValidSnoc(t, LF);
    assert ATTACH <= data <==> ATTACH <= t by {
      if |t| == 7 {
        assert data[7] == LF && ATTACH[7] == SPACE;
      }
      if |t| >= 8 {
        assert data[..8] == t[..8];
      }
    }
    if ATTACH <= data {
      FramedHasAttachment(data, detect, infer);
    } else {
      TextExactly(data, t, detect, infer);
    }
  }

  lemma FramedHasAttachment(data: Str, detect: Str -> Str, infer: Str -> Str)
    requires ATTACH <= data
    ensures ParseSend(data, detect, infer).Ok? ==> ParseSend(data, detect, infer).value.attachment.Some?
  {
  }

  // ------------------------------------------------------------- round trips

  predicate NameOk(name: Str) {
    FilenameOk(name) && TrimSpace(name) == name
  }

  predicate PartsOk(caption: Str, body: Str) {
    body != [] && Utf8.Valid(caption) && Utf8.RuneCount(caption) <= MAX_RUNES
  }

  lemma {:induction false} AllowedHasNoBreak(s: Str)
    requires RunesAllowed(s)
    ensures LF !in s
    decreases |s|
  {
    if s != [] {
      var d := Utf8.Decode(s);
      AllowedHasNoBreak(s[d.Size()..]);
      assert s == s[..d.Size()] + s[d.Size()..];
      assert forall k :: 0 <= k < d.Size() ==> s[..d.Size()][k] != LF;
    }
  }

  // The header of a printed frame is read back as printed.
  lemma HeaderEnd(header: Str, rest: Str)
    requires LF !in header
    ensures Index(ATTACH + header + [LF] + rest, [LF]) == |ATTACH| + |header|
    ensures (ATTACH + header + [LF] + rest)[|ATTACH| + |header| + 1..] == rest
    ensures (ATTACH + header + [LF] + rest)[|ATTACH|..|ATTACH| + |header|] == header
  {
    var data := ATTACH + header + [LF] + rest;
    var n := |ATTACH| + |header|;
    assert data[n..n + 1] == [LF];
    assert OccursAt(data, [LF], n);
    forall k | 0 <= k < n ensures data[k] != LF {
      if k < |ATTACH| {
        assert data[k] == ATTACH[k];
      } else {
        assert data[k] == header[k - |ATTACH|];
      }
    }
    var i := Index(data, [LF]);
    assert data[i..i + 1] == [LF];
    assert data[i] == LF;
  }

  function Sent(name: Str, caption: Str, body: Str, detect: Str -> Str): Result<Payload, Error> {
    Ok(Payload(caption, Some(Attachment(name, detect(body), body))))
  }

  // What parsing a printed frame comes down to: the name, the parts, and where the cut falls.
  lemma FrameParses(header: Str, name: Str, caption: Str, separator: Str, body: Str, detect: Str -> Str)
    requires LF !in header && TrimSpace(header) == name && FilenameOk(name)
    ensures ParseFramed(Frame(header, caption, separator, body), detect) == Sent(name, caption, body, detect) <==>
            PartsOk(caption, body) && CutAt(caption + separator + body) == Cut(|caption|, |separator|)
  {
    hide TrimSpace, Utf8.Valid, Utf8.RuneCount, RunesAllowed, Index, CutAt;
    var rest := caption + separator + body;
    HeaderEnd(header, rest);
    var c := CutAt(rest);
    assert rest[..|caption|] == caption && rest[|caption| + |separator|..] == body;
    if c.Cut? {
      var caption', body' := rest[..c.caption], rest[c.caption + c.separator..];
      assert caption' == caption ==> c.caption == |caption|;
      assert body' == body ==> c.caption + c.separator == |caption| + |separator|;
    }
  }

  // A parse that gives the name back came from a name that holds no line break.
  lemma {:induction false} NameNeeded(name: Str, caption: Str, separator: Str, body: Str, detect: Str -> Str)
    requires ParseFramed(Frame(name, caption, separator, body), detect) == Sent(name, caption, body, detect)
    ensures NameOk(name)
  {
    var data := Frame(name, caption, separator, body);
    assert FilenameOk(name);
    AllowedHasNoBreak(name);
    HeaderEnd(name, caption + separator + body);
  }

  predicate StartsWithBreak(rest: Str) {
    CRLF <= rest || [LF] <= rest
  }

  lemma CutAtCaption(caption: Str, body: Str)
    ensures var rest := caption + LFLF + body;
            CutAt(rest) == Cut(|caption|, 2) <==>
            !StartsWithBreak(rest) && Index(rest, CRLFCRLF) < 0 && Index(rest, LFLF) == |caption|
  {
    var rest := caption + LFLF + body;
    if caption == [] {
      assert rest[0] == LF;
    }
  }

  // The frame of the manual: header, caption, an LF blank line, data. Exactly when it round-trips.
  lemma {:induction false} LfFrameRoundTrip(name: Str, caption: Str, body: Str, detect: Str -> Str)
    ensures var rest := caption + LFLF + body;
            ParseFramed(Frame(name, caption, LFLF, body), detect) == Sent(name, caption, body, detect) <==>
            && NameOk(name) && PartsOk(caption, body)
            && !StartsWithBreak(rest) && Index(rest, CRLFCRLF) < 0 && Index(rest, LFLF) == |caption|
  {
    hide TrimSpace, Utf8.Valid, Utf8.RuneCount, RunesAllowed, ParseFramed;
    if NameOk(name) {
      AllowedHasNoBreak(name);
      FrameParses(name, name, caption, LFLF, body, detect);
      CutAtCaption(caption, body);
    } else if ParseFramed(Frame(name, caption, LFLF, body), detect) == Sent(name, caption, body, detect) {
      NameNeeded(name, caption, LFLF, body, detect);
    }
  }

  lemma CrlfHeader(name: Str)
    requires NameOk(name)
    ensures TrimSpace(name + [CR]) == name && LF !in name + [CR]
  {
    AllowedHasNoBreak(name);
    OneSpace([CR]);
    NameStart(name);
    StartKept(name, [CR]);
    hide Utf8.Decode, IsSpace, Utf8.Valid, RunesAllowed, TrimLeft, TrimRight, Spaces;
    TrimLeftStep(name);
    TrimLeftStep(name + [CR]);
    TrimRightSpaces(name, [CR]);
  }

  lemma StartKept(s: Str, tail: Str)
    requires s != [] && Utf8.Valid(s)
    ensures StartsWithSpace(s + tail) == StartsWithSpace(s)
  {
    hide Utf8.Decode, IsSpace;
    var n := Utf8.Decode(s).size;
    Utf8.DecodePrefix(s, s[n..] + tail);
    assert s + tail == s[..n] + (s[n..] + tail);
  }

  // A trimmed name does not start with a space.
  lemma NameStart(name: Str)
    requires NameOk(name)
    ensures !StartsWithSpace(name)
  {
    var left := TrimLeftParts(name);
    assert |TrimSpace(name)| <= |TrimLeft(name)|;
    assert left == [];
  }

  // White space in front of a name is trimmed along with the carriage return behind it.
  lemma LeadingSpaceShows(name: Str)
    requires Utf8.Valid(name) && StartsWithSpace(name)
    ensures |TrimSpace(name + [CR])| < |name|
  {
    hide Utf8.Decode, IsSpace, Utf8.Valid, TrimRight, TrimLeft, Spaces;
    CarriageReturnIsSpace();
    StartKept(name, [CR]);
    var s := name + [CR];
    TrimLeftStep(s);
    var rest := s[Utf8.Decode(s).size..];
    var left := TrimLeftParts(rest);
    var t := TrimLeft(rest);
    if t != [] {
      assert t[|t| - 1] == rest[|rest| - 1] == CR;
      assert t == t[..|t| - 1] + [CR];
      TrimRightSpaces(t[..|t| - 1], [CR]);
    }
  }

  lemma CarriageReturnIsSpace()
    ensures Spaces([CR])
  {
    OneSpace([CR]);
  }

  lemma CrlfNameNeeded(name: Str)
    requires FilenameOk(name) && TrimSpace(name + [CR]) == name
    ensures NameOk(name)
  {
    if StartsWithSpace(name) {
      LeadingSpaceShows(name);
    } else {
      OneSpace([CR]);
      StartKept(name, [CR]);
      hide Utf8.Decode, IsSpace, Utf8.Valid, RunesAllowed, TrimRight, Spaces;
      TrimRightSpaces(name, [CR]);
    }
  }

  // The same frame with CRLF line ends.
  lemma {:induction false} CrlfFrameRoundTrip(name: Str, caption: Str, body: Str, detect: Str -> Str)
    ensures var rest := caption + CRLFCRLF + body;
            ParseFramed(Frame(name + [CR], caption, CRLFCRLF, body), detect) == Sent(name, caption, body, detect) <==>
            && NameOk(name) && PartsOk(caption, body)
            && !StartsWithBreak(rest) && Index(rest, CRLFCRLF) == |caption|
  {
    hide TrimSpace, Utf8.Valid, Utf8.RuneCount, RunesAllowed, ParseFramed;
    if NameOk(name) {
      CrlfHeader(name);
      FrameParses(name + [CR], name, caption, CRLFCRLF, body, detect);
    } else if ParseFramed(Frame(name + [CR], caption, CRLFCRLF, body), detect) == Sent(name, caption, body, detect) {
      CrlfHeaderRead(name, caption, body, detect);
      CrlfNameNeeded(name);
    }
  }

  lemma {:induction false} CrlfHeaderRead(name: Str, caption: Str, body: Str, detect: Str -> Str)
    requires ParseFramed(Frame(name + [CR], caption, CRLFCRLF, body), detect) == Sent(name, caption, body, detect)
    ensures FilenameOk(name) && TrimSpace(name + [CR]) == name
  {
    hide TrimSpace, Utf8.Valid, Utf8.RuneCount, RunesAllowed, Index, CutAt;
    var data := Frame(name + [CR], caption, CRLFCRLF, body);
    assert FilenameOk(name);
    AllowedHasNoBreak(name);
    HeaderEnd(name + [CR], caption + CRLFCRLF + body);
  }

  // With no caption, header, blank line and data always round-trip.
  lemma {:induction false} UncaptionedRoundTrip(name: Str, body: Str, detect: Str -> Str)
    requires NameOk(name) && body != []
    ensures ParseFramed(Frame(name, [], [LF], body), detect) == Sent(name, [], body, detect)
    ensures ParseFramed(Frame(name + [CR], [], CRLF, body), detect) == Sent(name, [], body, detect)
  {
    AllowedHasNoBreak(name);
    CrlfHeader(name);
    assert PartsOk([], body);
    assert ([] + [LF] + body)[0] == LF && [LF] <= [] + [LF] + body && CRLF <= [] + CRLF + body;
    assert CutAt([] + [LF] + body) == Cut(0, 1) && CutAt([] + CRLF + body) == Cut(0, 2);
    hide TrimSpace, Utf8.Valid, Utf8.RuneCount, RunesAllowed, ParseFramed, CutAt;
    FrameParses(name, name, [], [LF], body, detect);
    FrameParses(name + [CR], name, [], CRLF, body, detect);
  }

  // ------------------------------------------------------------- frames that do not come back

  const X: Str := [0x78]

  // x and y with a blank line in between, as a caption, reads as the caption x: what follows its own
  // blank line is taken for data.
  lemma {:induction false} LfCaptionIsCut(detect: Str -> Str)
    ensures var caption, body := X + LFLF + X, X;
            && NameOk(X) && PartsOk(caption, body)
            && ParseFramed(Frame(X, caption, LFLF, body), detect) != Sent(X, caption, body, detect)
            && ParseFramed(Frame(X, caption, LFLF, body), detect) == Sent(X, X, X + LFLF + body, detect)
  {
    hide ParseFramed, Utf8.Decode, TrimSpace;
    XIsPlain();
    var rest := X + LFLF + (X + LFLF + X);
    assert Frame(X, X + LFLF + X, LFLF, X) == Frame(X, X, LFLF, X + LFLF + X);
    assert OccursAt(rest, LFLF, 1) && rest[0] != LF;
    assert forall k :: 0 <= k < |rest| ==> rest[k] != CR;
    NoneWithout(rest, CRLFCRLF);
    assert !OccursAt(rest, LFLF, 0);
    LfFrameRoundTrip(X, X, X + LFLF + X, detect);
  }

  lemma {:induction false} CrlfCaptionIsCut(detect: Str -> Str)
    ensures var caption, body := X + CRLFCRLF + X, X;
            && NameOk(X) && PartsOk(caption, body)
            && ParseFramed(Frame(X + [CR], caption, CRLFCRLF, body), detect) != Sent(X, caption, body, detect)
            && ParseFramed(Frame(X + [CR], caption, CRLFCRLF, body), detect) == Sent(X, X, X + CRLFCRLF + body, detect)
  {
    hide ParseFramed, Utf8.Decode, TrimSpace;
    XIsPlain();
    var rest := X + CRLFCRLF + (X + CRLFCRLF + X);
    assert Frame(X + [CR], X + CRLFCRLF + X, CRLFCRLF, X) == Frame(X + [CR], X, CRLFCRLF, X + CRLFCRLF + X);
    assert OccursAt(rest, CRLFCRLF, 1) && rest[0] == 0x78;
    assert !OccursAt(rest, CRLFCRLF, 0);
    CrlfFrameRoundTrip(X, X, X + CRLFCRLF + X, detect);
  }

  lemma NoneWithout(s: Str, pattern: Str)
    requires pattern != [] && forall k :: 0 <= k < |s| ==> s[k] != pattern[0]
    ensures Index(s, pattern) < 0
  {
    forall k: nat ensures !OccursAt(s, pattern, k) {
      if k + |pattern| <= |s| {
        assert s[k..k + |pattern|][0] == s[k];
      }
    }
  }

  lemma XIsPlain()
    ensures NameOk(X) && PartsOk(X + LFLF + X, X) && PartsOk(X + CRLFCRLF + X, X) && PartsOk(X, X + LFLF + X) && PartsOk(X, X + CRLFCRLF + X)
  {
    Utf8.AsciiValid(X + LFLF + X);
    Utf8.AsciiValid(X + CRLFCRLF + X);
    Utf8.AsciiValid(X);
    assert X[1..] == [];
    assert RunesAllowed(X[1..]);
  }
}
