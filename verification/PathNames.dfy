/** Directory-entry names: pathName and safePathName, and the decoder that undoes them. */
module PathNames {
  import opened Bytes
  import Utf8

  const EMPTY_NAME: Str := [0x5F]
  const DOT_NAME: Str := [PERCENT, 0x32, 0x45]

  predicate IsControl(b: byte) {
    b < 0x20 || b == DEL
  }

  predicate MustEscape(d: Utf8.Decoded) {
    d.Invalid? || d.value == SLASH || d.value == PERCENT || d.value < 0x20 || d.value == DEL
  }

  function HexDigit(n: nat): byte
    requires n < 16
  {
    if n < 10 then 0x30 + n else 0x41 + (n - 10)
  }

  function Triplet(b: byte): (t: Str)
    ensures |t| == 3 && t[0] == PERCENT
  {
    [PERCENT, HexDigit(b / 16), HexDigit(b % 16)]
  }

  function Percent(raw: Str): Str {
    if raw == [] then [] else Triplet(raw[0]) + Percent(raw[1..])
  }

  function Piece(s: Str): Str
    requires s != []
  {
    var d := Utf8.Decode(s);
    if MustEscape(d) then Percent(s[..d.Size()]) else s[..d.Size()]
  }

  function Escape(s: Str): Str {
    if s == [] then [] else Piece(s) + Escape(s[Utf8.Decode(s).Size()..])
  }

  function NameOf(value: Str): Str {
    if value == [] then EMPTY_NAME
    else
      var name := Escape(value);
      if name == [DOT] then DOT_NAME
      else if name == [DOT, DOT] then DOT_NAME + DOT_NAME
      else name
  }

  method PercentEncode(raw: Str, prefix: Str) returns (out: Str)
    ensures out == prefix + Percent(raw)
  {
    out := prefix;
    for i := 0 to |raw|
      invariant out + Percent(raw[i..]) == prefix + Percent(raw)
    {
      assert raw[i..][1..] == raw[i + 1..];
      out := out + Triplet(raw[i]);
    }
  }

  // One turn of the escaping loop.
  lemma EscapeTurn(out: Str, rest: Str)
    requires rest != []
    ensures out + Escape(rest) == out + Piece(rest) + Escape(rest[Utf8.Decode(rest).Size()..])
  {
    var piece, more := Piece(rest), Escape(rest[Utf8.Decode(rest).Size()..]);
    assert Escape(rest) == piece + more;
    assert out + (piece + more) == out + piece + more;
  }

  method PathName(value: Str) returns (name: Str)
    ensures name == NameOf(value)
  {
    if value == [] {
      return EMPTY_NAME;
    }
    var out: Str := [];
    var rest := value;
    while rest != []
      invariant out + Escape(rest) == Escape(value)
      decreases |rest|
    {
      EscapeTurn(out, rest);
      var d := Utf8.Decode(rest);
      var raw := rest[..d.Size()];
      rest := rest[d.Size()..];
      if d.Invalid? {
        out := PercentEncode(raw, out);
      } else if d.value == SLASH || d.value == PERCENT || d.value < 0x20 || d.value == DEL {
        out := PercentEncode(raw, out);
      } else {
        out := out + raw;
      }
    }
    name := out;
    if name == [DOT] {
      return DOT_NAME;
    }
    if name == [DOT, DOT] {
      return DOT_NAME + DOT_NAME;
    }
  }

  method SafePathName(value: Str) returns (name: Str)
    ensures name == NameOf(value)
  {
    if value == [] {
      return EMPTY_NAME;
    }
    var out: Str := [];
    var rest := value;
    while rest != []
      invariant out + Escape(rest) == Escape(value)
      decreases |rest|
    {
      EscapeTurn(out, rest);
      var d := Utf8.Decode(rest);
      var raw := rest[..d.Size()];
      rest := rest[d.Size()..];
      if (d.Invalid? && d.Size() == 1) || d.value == SLASH || d.value == PERCENT || d.value < 0x20 || d.value == DEL {
        out := PercentEncode(raw, out);
      } else {
        out := out + raw;
      }
    }
    name := out;
    if name == [DOT] {
      name := DOT_NAME;
    } else if name == [DOT, DOT] {
      name := DOT_NAME + DOT_NAME;
    }
  }

  // ------------------------------------------------------------- decoding

  predicate IsHex(b: byte) {
    0x30 <= b <= 0x39 || 0x41 <= b <= 0x46
  }

  function HexValue(b: byte): nat
    requires IsHex(b)
  {
    if b <= 0x39 then b - 0x30 else b - 0x41 + 10
  }

  // Percent-decoding in the sense of section 2.1 of RFC 3986; anything that is no triplet is copied.
  function Unescape(s: Str): Str {
    if s == [] then []
    else if s[0] == PERCENT && |s| >= 3 && IsHex(s[1]) && IsHex(s[2]) then
      [16 * HexValue(s[1]) + HexValue(s[2])] + Unescape(s[3..])
    else [s[0]] + Unescape(s[1..])
  }

  lemma HexRoundTrip(b: byte)
    ensures IsHex(HexDigit(b / 16)) && IsHex(HexDigit(b % 16))
    ensures 16 * HexValue(HexDigit(b / 16)) + HexValue(HexDigit(b % 16)) == b
  {
  }

  lemma UnescapeTriplet(b: byte, tail: Str)
    ensures Unescape(Triplet(b) + tail) == [b] + Unescape(tail)
  {
    HexRoundTrip(b);
    var t := Triplet(b) + tail;
    assert t[3..] == tail;
  }

  lemma {:induction false} UnescapePercent(raw: Str, tail: Str)
    ensures Unescape(Percent(raw) + tail) == raw + Unescape(tail)
  {
    if raw == [] {
      assert Percent(raw) + tail == tail;
    } else {
      assert Percent(raw) + tail == Triplet(raw[0]) + (Percent(raw[1..]) + tail);
      UnescapeTriplet(raw[0], Percent(raw[1..]) + tail);
      UnescapePercent(raw[1..], tail);
      assert raw == [raw[0]] + raw[1..];
    }
  }

  lemma UnescapePlain(c: byte, rest: Str)
    requires c != PERCENT
    ensures Unescape([c] + rest) == [c] + Unescape(rest)
  {
    assert ([c] + rest)[1..] == rest;
  }

  lemma {:induction false} UnescapeCopy(raw: Str, tail: Str)
    requires PERCENT !in raw
    ensures Unescape(raw + tail) == raw + Unescape(tail)
  {
    hide Unescape;
    if raw == [] {
      assert raw + tail == tail;
    } else {
      var more := raw[1..] + tail;
      UnescapeCopy(raw[1..], tail);
      UnescapePlain(raw[0], more);
      assert raw + tail == [raw[0]] + more;
      assert raw + Unescape(tail) == [raw[0]] + (raw[1..] + Unescape(tail));
    }
  }

  lemma UnescapePiece(s: Str, tail: Str)
    requires s != []
    ensures Unescape(Piece(s) + tail) == s[..Utf8.Decode(s).Size()] + Unescape(tail)
  {
    var raw := s[..Utf8.Decode(s).Size()];
    if MustEscape(Utf8.Decode(s)) {
      UnescapePercent(raw, tail);
    } else {
      UnescapeCopy(raw, tail);
    }
  }

  lemma {:induction false} EscapeRoundTrip(s: Str)
    ensures Unescape(Escape(s)) == s
    decreases |s|
  {
    hide Utf8.Decode, Piece, Unescape, Escape;
    EscapeNothing();
    if s != [] {
      var n := Utf8.Decode(s).Size();
      var rest := s[n..];
      EscapeRoundTrip(rest);
      UnescapePiece(s, Escape(rest));
      EscapeFirst(s);
      assert s == s[..n] + rest;
    }
  }

  lemma EscapeNothing()
    ensures Escape([]) == [] == Unescape([])
  {
  }

  lemma EscapeFirst(s: Str)
    requires s != []
    ensures Escape(s) == Piece(s) + Escape(s[Utf8.Decode(s).Size()..])
  {
    hide Utf8.Decode, Piece;
  }

  lemma DottedNames()
    ensures Unescape([DOT]) == [DOT] && Unescape([DOT, DOT]) == [DOT, DOT]
    ensures Unescape(DOT_NAME) == [DOT] && Unescape(DOT_NAME + DOT_NAME) == [DOT, DOT]
  {
    UnescapeCopy([DOT], []);
    UnescapeCopy([DOT, DOT], []);
    assert [DOT] + [] == [DOT] && [DOT, DOT] + [] == [DOT, DOT];
    assert Percent([DOT]) == DOT_NAME;
    assert Percent([DOT, DOT]) == DOT_NAME + DOT_NAME by {
      assert [DOT, DOT][1..] == [DOT];
    }
    UnescapePercent([DOT], []);
    UnescapePercent([DOT, DOT], []);
    assert DOT_NAME + [] == DOT_NAME && DOT_NAME + DOT_NAME + [] == DOT_NAME + DOT_NAME;
  }

  lemma NameRoundTrip(value: Str)
    requires value != []
    ensures Unescape(NameOf(value)) == value
  {
    EscapeRoundTrip(value);
    DottedNames();
  }

  // The empty name and "_" are the only two values that share a directory entry.
  lemma NameCollision(a: Str, b: Str)
    ensures NameOf(a) == NameOf(b) <==> a == b || (a == [] && b == EMPTY_NAME) || (a == EMPTY_NAME && b == [])
  {
    if a != [] {
      NameRoundTrip(a);
    }
    if b != [] {
      NameRoundTrip(b);
    }
    NameRoundTrip(EMPTY_NAME);
    assert NameOf(EMPTY_NAME) == EMPTY_NAME by {
      assert Utf8.Decode(EMPTY_NAME) == Utf8.Rune(0x5F, 1);
      assert EMPTY_NAME[1..] == [];
      assert Piece(EMPTY_NAME) == EMPTY_NAME;
      assert Escape(EMPTY_NAME) == EMPTY_NAME + [];
    }
  }

  // ------------------------------------------------------------- what is escaped

  const HEX: Str := [0x30, 0x31, 0x32, 0x33, 0x34, 0x35, 0x36, 0x37, 0x38, 0x39, 0x41, 0x42, 0x43, 0x44, 0x45, 0x46]

  // A byte as a percent sign and two digits of sixteen, in upper case.
  function Spelt(b: byte): Str {
    [0x25, HEX[b / 16], HEX[b % 16]]
  }

  lemma PercentOne(b: byte)
    ensures Percent([b]) == Spelt(b)
  {
    assert [b][1..] == [];
    assert HexDigit(b / 16) == HEX[b / 16] && HexDigit(b % 16) == HEX[b % 16];
  }

  // A rune is copied unless it is a slash, a percent sign or a control.
  lemma RuneEscaped(v: int, tail: Str)
    requires Utf8.Scalar(v)
    ensures Escape(Utf8.Encode(v) + tail) ==
            (if v == 0x2F || v == 0x25 || v < 0x20 || v == 0x7F then Spelt(v) else Utf8.Encode(v)) + Escape(tail)
  {
    var e := Utf8.Encode(v);
    var s := e + tail;
    Utf8.DecodeExactly(s, v);
    hide Utf8.Decode, Utf8.Encode, Percent, Escape;
    assert s[..|e|] == e && s[|e|..] == tail;
    EscapeFirst(s);
    if v < 0x80 {
      Utf8.EncodeShort(v);
      PercentOne(v);
    }
  }

  // A byte that is no part of a well-formed rune is spelt out.
  lemma BrokenEscaped(s: Str)
    requires s != [] && forall v :: Utf8.Scalar(v) ==> !(Utf8.Encode(v) <= s)
    ensures Escape(s) == Spelt(s[0]) + Escape(s[1..])
  {
    hide Utf8.Decode, Utf8.Encode, Percent, Escape;
    if Utf8.Decode(s).Rune? {
      Utf8.DecodeExactly(s, Utf8.Decode(s).value);
      assert false;
    }
    EscapeFirst(s);
    assert s[..1] == [s[0]];
    PercentOne(s[0]);
  }

  predicate Plain(s: Str) {
    Utf8.Valid(s) && forall k :: 0 <= k < |s| ==> s[k] >= 0x20 && s[k] != 0x2F && s[k] != 0x25 && s[k] != 0x7F
  }

  lemma {:induction false} PercentLength(raw: Str)
    ensures |Percent(raw)| == 3 * |raw|
  {
    if raw != [] {
      PercentLength(raw[1..]);
    }
  }

  lemma {:induction false} EscapeGrows(s: Str)
    ensures |Escape(s)| >= |s|
    ensures Plain(s) ==> Escape(s) == s
    ensures !Plain(s) ==> |Escape(s)| > |s|
    decreases |s|
  {
    hide Utf8.Decode, Percent, Escape;
    EscapeNothing();
    if s != [] {
      var n := Utf8.Decode(s).Size();
      var first, rest := s[..n], s[n..];
      EscapeGrows(rest);
      EscapeFirst(s);
      PercentLength(first);
      FirstPlain(s);
      assert s == first + rest;
    }
  }

  lemma FirstPlain(s: Str)
    requires s != []
    ensures Plain(s) <==> !MustEscape(Utf8.Decode(s)) && Plain(s[Utf8.Decode(s).Size()..])
  {
    hide Utf8.Decode;
    var n := Utf8.Decode(s).Size();
    var rest := s[n..];
    assert forall k :: n <= k < |s| ==> s[k] == rest[k - n];
    assert forall k :: 0 <= k < |rest| ==> rest[k] == s[n + k];
  }

  // A name is the value itself exactly when that is well-formed, not empty, no dot entry, and has no slash,
  // percent sign or control.
  lemma NameKept(value: Str)
    ensures NameOf(value) == value <==> Plain(value) && value != [] && value != [DOT] && value != [DOT, DOT]
  {
    hide Escape, Plain;
    EscapeGrows(value);
  }

  // ------------------------------------------------------------- safety

  predicate Clean(s: Str) {
    && (forall k :: 0 <= k < |s| ==> s[k] != SLASH && !IsControl(s[k]))
    && Utf8.Valid(s)
  }

  lemma CleanConcat(a: Str, b: Str)
    requires Clean(a) && Clean(b)
    ensures Clean(a + b)
  {
    Utf8.ValidConcat(a, b);
  }

  lemma {:induction false} PercentClean(raw: Str)
    ensures Clean(Percent(raw)) && |Percent(raw)| == 3 * |raw|
  {
    if raw != [] {
      PercentClean(raw[1..]);
      var head := Triplet(raw[0]);
      Utf8.AsciiValid(head);
      CleanConcat(head, Percent(raw[1..]));
    }
  }

  lemma RuneClean(s: Str)
    requires s != [] && !MustEscape(Utf8.Decode(s))
    ensures Clean(s[..Utf8.Decode(s).size])
  {
    var n := Utf8.Decode(s).size;
    Utf8.DecodePrefix(s, []);
    assert s[..n] + [] == s[..n];
    assert s[..n][n..] == [];
  }

  lemma {:induction false} EscapeClean(s: Str)
    ensures Clean(Escape(s)) && (s != [] ==> Escape(s) != [])
    decreases |s|
  {
    if s != [] {
      var n := Utf8.Decode(s).Size();
      EscapeClean(s[n..]);
      if MustEscape(Utf8.Decode(s)) {
        PercentClean(s[..n]);
      } else {
        RuneClean(s);
      }
      CleanConcat(Piece(s), Escape(s[n..]));
    }
  }

  // A name is a usable 9P path element whatever bytes the server sent.
  lemma NameSafe(value: Str)
    ensures Clean(NameOf(value))
    ensures NameOf(value) !in {[], [DOT], [DOT, DOT]}
  {
    hide Escape, Utf8.Decode, Utf8.Valid;
    EscapeClean(value);
    Utf8.AsciiValid(EMPTY_NAME);
    Utf8.AsciiValid(DOT_NAME);
    CleanConcat(DOT_NAME, DOT_NAME);
  }
}
