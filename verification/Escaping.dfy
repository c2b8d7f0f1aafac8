/** Message text on one line: the renderer's four replacement passes and their inverse. */
module Escaping {
  import opened Bytes

  const LETTER_R: byte := 0x72
  const LETTER_N: byte := 0x6E
  const LETTER_T: byte := 0x74

  // strings.ReplaceAll with a one-byte needle.
  function ReplaceAll(s: Str, needle: byte, with: Str): Str {
    if s == [] then [] else (if s[0] == needle then with else [s[0]]) + ReplaceAll(s[1..], needle, with)
  }

  function EscapeContent(value: Str): Str {
    var v1 := ReplaceAll(value, BACKSLASH, [BACKSLASH, BACKSLASH]);
    var v2 := ReplaceAll(v1, CR, [BACKSLASH, LETTER_R]);
    var v3 := ReplaceAll(v2, LF, [BACKSLASH, LETTER_N]);
    ReplaceAll(v3, TAB, [BACKSLASH, LETTER_T])
  }

  // The intended meaning: one escape per special byte, in a single pass.
  function EscapeByte(b: byte): Str {
    if b == BACKSLASH then [BACKSLASH, BACKSLASH]
    else if b == CR then [BACKSLASH, LETTER_R]
    else if b == LF then [BACKSLASH, LETTER_N]
    else if b == TAB then [BACKSLASH, LETTER_T]
    else [b]
  }

  // Backslash, carriage return, line feed and tab become a backslash and a backslash, r, n or t.
  lemma EscapesUsed()
    ensures EscapeByte(0x5C) == [0x5C, 0x5C] && EscapeByte(0x0D) == [0x5C, 0x72]
    ensures EscapeByte(0x0A) == [0x5C, 0x6E] && EscapeByte(0x09) == [0x5C, 0x74]
    ensures forall b: byte :: b !in {0x5C, 0x0D, 0x0A, 0x09} ==> EscapeByte(b) == [b]
  {
  }

  function EscapeOnce(s: Str): Str {
    if s == [] then [] else EscapeByte(s[0]) + EscapeOnce(s[1..])
  }

  function UnescapeContent(s: Str): Str {
    if s == [] then []
    else if s[0] == BACKSLASH && |s| >= 2 then
      [if s[1] == LETTER_R then CR else if s[1] == LETTER_N then LF else if s[1] == LETTER_T then TAB else s[1]]
      + UnescapeContent(s[2..])
    else [s[0]] + UnescapeContent(s[1..])
  }

  lemma ReplaceNothing(needle: byte, with: Str)
    ensures ReplaceAll([], needle, with) == []
  {
  }

  lemma ReplaceFirst(s: Str, needle: byte, with: Str)
    requires s != []
    ensures ReplaceAll(s, needle, with) == (if s[0] == needle then with else [s[0]]) + ReplaceAll(s[1..], needle, with)
  {
  }

  lemma {:induction false} ReplaceConcat(a: Str, b: Str, needle: byte, with: Str)
    ensures ReplaceAll(a + b, needle, with) == ReplaceAll(a, needle, with) + ReplaceAll(b, needle, with)
  {
    hide ReplaceAll;
    ReplaceNothing(needle, with);
    if a == [] {
      assert a + b == b;
    } else {
      var head := if a[0] == needle then with else [a[0]];
      var x, y := ReplaceAll(a[1..], needle, with), ReplaceAll(b, needle, with);
      ReplaceConcat(a[1..], b, needle, with);
      ReplaceFirst(a, needle, with);
      ReplaceFirst(a + b, needle, with);
      assert (a + b)[1..] == a[1..] + b;
      assert head + (x + y) == head + x + y;
    }
  }

  lemma ReplaceShort(x: byte, y: byte, needle: byte, with: Str)
    ensures ReplaceAll([x], needle, with) == if x == needle then with else [x]
    ensures x != needle && y != needle ==> ReplaceAll([x, y], needle, with) == [x, y]
  {
    assert [x, y][1..] == [y] && [x][1..] == [] && [y][1..] == [];
  }

  // The passes act on the image of each source byte separately.
  lemma EscapeContentByte(b: byte)
    ensures EscapeContent([b]) == EscapeByte(b)
  {
    var v1 := if b == BACKSLASH then [BACKSLASH, BACKSLASH] else [b];
    ReplaceShort(b, b, BACKSLASH, [BACKSLASH, BACKSLASH]);
    ReplaceShort(b, b, CR, [BACKSLASH, LETTER_R]);
    ReplaceShort(b, b, LF, [BACKSLASH, LETTER_N]);
    ReplaceShort(b, b, TAB, [BACKSLASH, LETTER_T]);
    ReplaceShort(BACKSLASH, BACKSLASH, CR, [BACKSLASH, LETTER_R]);
    ReplaceShort(BACKSLASH, BACKSLASH, LF, [BACKSLASH, LETTER_N]);
    ReplaceShort(BACKSLASH, BACKSLASH, TAB, [BACKSLASH, LETTER_T]);
    ReplaceShort(BACKSLASH, LETTER_R, LF, [BACKSLASH, LETTER_N]);
    ReplaceShort(BACKSLASH, LETTER_R, TAB, [BACKSLASH, LETTER_T]);
    ReplaceShort(BACKSLASH, LETTER_N, TAB, [BACKSLASH, LETTER_T]);
  }

  lemma EscapeContentConcat(a: Str, b: Str)
    ensures EscapeContent(a + b) == EscapeContent(a) + EscapeContent(b)
  {
    var r1: Str, r2: Str, r3: Str, r4: Str :=
      [BACKSLASH, BACKSLASH], [BACKSLASH, LETTER_R], [BACKSLASH, LETTER_N], [BACKSLASH, LETTER_T];
    var a1, b1 := ReplaceAll(a, BACKSLASH, r1), ReplaceAll(b, BACKSLASH, r1);
    var a2, b2 := ReplaceAll(a1, CR, r2), ReplaceAll(b1, CR, r2);
    var a3, b3 := ReplaceAll(a2, LF, r3), ReplaceAll(b2, LF, r3);
    ReplaceConcat(a, b, BACKSLASH, r1);
    ReplaceConcat(a1, b1, CR, r2);
    ReplaceConcat(a2, b2, LF, r3);
    ReplaceConcat(a3, b3, TAB, r4);
  }

  // Four sequential passes never touch each other's output.
  lemma {:induction false} FourPassesAreOne(value: Str)
    ensures EscapeContent(value) == EscapeOnce(value)
  {
    if value != [] {
      EscapeContentByte(value[0]);
      FourPassesAreOne(value[1..]);
      EscapeContentConcat([value[0]], value[1..]);
      assert value == [value[0]] + value[1..];
    }
  }

  lemma {:induction false} EscapeOnceInverts(value: Str)
    ensures UnescapeContent(EscapeOnce(value)) == value
  {
    if value != [] {
      var head, tail := EscapeByte(value[0]), EscapeOnce(value[1..]);
      EscapeOnceInverts(value[1..]);
      assert (head + tail)[|head|..] == tail;
      assert value == [value[0]] + value[1..];
    }
  }

  lemma {:induction false} EscapeOnceOneLine(value: Str)
    ensures forall b :: b in EscapeOnce(value) ==> b !in {CR, LF, TAB}
  {
    if value != [] {
      EscapeOnceOneLine(value[1..]);
    }
  }

  lemma ContentRoundTrip(value: Str)
    ensures UnescapeContent(EscapeContent(value)) == value
    ensures forall b :: b in EscapeContent(value) ==> b !in {CR, LF, TAB}
  {
    FourPassesAreOne(value);
    EscapeOnceInverts(value);
    EscapeOnceOneLine(value);
  }
}
