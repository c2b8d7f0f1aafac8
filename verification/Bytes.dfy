/** Option and Result, the two failure-carrying types the model uses. */
module Wrappers {
  datatype Option<+T> = None | Some(value: T) {
    function GetOr(default: T): T {
      match this
      case Some(v) => v
      case None => default
    }
  }

  datatype Result<+T, +E> = Ok(value: T) | Err(error: E)
}

/** Go strings and byte slices are both byte sequences here. */
module Bytes {
  type byte = b: int | 0 <= b < 0x100

  type Str = seq<byte>

  const LF: byte := 0x0A
  const CR: byte := 0x0D
  const TAB: byte := 0x09
  const SPACE: byte := 0x20
  const PERCENT: byte := 0x25
  const DOT: byte := 0x2E
  const SLASH: byte := 0x2F
  const BACKSLASH: byte := 0x5C
  const TILDE: byte := 0x7E
  const DEL: byte := 0x7F

  predicate IsDigit(b: byte) {
    0x30 <= b <= 0x39
  }

  predicate Decimal(s: Str) {
    forall k :: 0 <= k < |s| ==> IsDigit(s[k])
  }
}

/** UTF-8 as in section 3 of RFC 3629, with the one-byte error step of Go's decoder. */
module Utf8 {
  import opened Bytes

  // Invalid consumes one byte; it is distinct from a well-formed U+FFFD, which takes three.
  datatype Decoded = Rune(value: nat, size: nat) | Invalid {
    function Size(): nat {
      if Rune? then size else 1
    }
  }

  predicate IsContinuation(b: byte) {
    0x80 <= b <= 0xBF
  }

  function Decode(s: Str): (d: Decoded)
    requires s != []
    ensures 1 <= d.Size() <= |s|
    ensures d.Rune? && s[0] < 0x80 ==> d == Rune(s[0], 1)
    ensures d.Rune? && s[0] >= 0x80 ==>
              2 <= d.size <= 4 && d.value >= 0x80 && forall k :: 0 <= k < d.size ==> s[k] >= 0x80
  {
    var b0: int := s[0];
    if b0 < 0x80 then
      Rune(b0, 1)
    else if 0xC2 <= b0 <= 0xDF then
      if |s| >= 2 && IsContinuation(s[1]) then Rune((b0 - 0xC0) * 0x40 + (s[1] as int - 0x80), 2) else Invalid
    else if 0xE0 <= b0 <= 0xEF then
      var lo := if b0 == 0xE0 then 0xA0 else 0x80;
      var hi := if b0 == 0xED then 0x9F else 0xBF;
      if |s| >= 3 && lo <= s[1] <= hi && IsContinuation(s[2]) then
        Rune((b0 - 0xE0) * 0x1000 + (s[1] as int - 0x80) * 0x40 + (s[2] as int - 0x80), 3)
      else
        Invalid
    else if 0xF0 <= b0 <= 0xF4 then
      var lo := if b0 == 0xF0 then 0x90 else 0x80;
      var hi := if b0 == 0xF4 then 0x8F else 0xBF;
      if |s| >= 4 && lo <= s[1] <= hi && IsContinuation(s[2]) && IsContinuation(s[3]) then
        Rune((b0 - 0xF0) * 0x40000 + (s[1] as int - 0x80) * 0x1000 + (s[2] as int - 0x80) * 0x40 + (s[3] as int - 0x80), 4)
      else
        Invalid
    else
      Invalid
  }

  predicate Valid(s: Str) {
    s == [] || (Decode(s).Rune? && Valid(s[Decode(s).size..]))
  }

  // utf8.RuneCount: an invalid byte counts as one rune.
  function RuneCount(s: Str): nat {
    if s == [] then 0 else 1 + RuneCount(s[Decode(s).Size()..])
  }

  // Decoding looks at no byte past the rune it finds.
  lemma DecodePrefix(s: Str, tail: Str)
    requires s != [] && Decode(s).Rune?
    ensures Decode(s[..Decode(s).size] + tail) == Decode(s)
  {
  }

  lemma {:induction false} ValidConcat(a: Str, b: Str)
    requires Valid(a) && Valid(b)
    ensures Valid(a + b)
    decreases |a|
  {
    hide Decode;
    if a == [] {
      assert a + b == b;
    } else {
      var n := Decode(a).size;
      ValidConcat(a[n..], b);
      assert a + b == a[..n] + (a[n..] + b);
      DecodePrefix(a, a[n..] + b);
      assert (a + b)[n..] == a[n..] + b;
    }
  }

  lemma {:induction false} AsciiValid(s: Str)
    requires forall k :: 0 <= k < |s| ==> s[k] < 0x80
    ensures Valid(s) && RuneCount(s) == |s|
  {
    if s != [] {
      AsciiValid(s[1..]);
    }
  }

  // A trailing ASCII byte neither makes nor breaks well-formedness.
  lemma {:induction false} ValidSnoc(a: Str, b: byte)
    requires b < 0x80
    ensures Valid(a + [b]) <==> Valid(a)
    decreases |a|
  {
    var s := a + [b];
    if a == [] {
      assert s == [b] && s[1..] == [];
    } else {
      DecodeSnoc(a, b);
      var n := Decode(a).Size();
      ValidSnoc(a[n..], b);
      assert s[n..] == a[n..] + [b];
    }
  }

  lemma DecodeSnoc(a: Str, b: byte)
    requires a != [] && b < 0x80
    ensures Decode(a + [b]) == Decode(a)
  {
  }

  // How many bytes of a text are not continuation bytes.
  function Starts(s: Str): nat {
    if s == [] then 0 else (if IsContinuation(s[0]) then 0 else 1) + Starts(s[1..])
  }

  lemma {:induction false} StartsConcat(a: Str, b: Str)
    ensures Starts(a + b) == Starts(a) + Starts(b)
  {
    if a == [] {
      assert a + b == b;
    } else {
      StartsConcat(a[1..], b);
      assert (a + b)[1..] == a[1..] + b;
    }
  }

  // A well-formed rune is one start and its continuation bytes.
  lemma RuneShape(s: Str)
    requires s != [] && Decode(s).Rune?
    ensures !IsContinuation(s[0]) && forall k :: 1 <= k < Decode(s).size ==> IsContinuation(s[k])
  {
  }

  lemma {:induction false} NoStarts(s: Str)
    requires forall k :: 0 <= k < |s| ==> IsContinuation(s[k])
    ensures Starts(s) == 0
  {
    if s != [] {
      NoStarts(s[1..]);
    }
  }

  // A well-formed text has one rune for each byte that is not a continuation byte.
  lemma {:induction false} RunesAreStarts(s: Str)
    requires Valid(s)
    ensures RuneCount(s) == Starts(s)
    decreases |s|
  {
    hide Decode, Starts;
    if s == [] {
      NoStarts(s);
    } else {
      var n := Decode(s).size;
      OneStart(s);
      RunesAreStarts(s[n..]);
      assert s == s[..n] + s[n..];
      StartsConcat(s[..n], s[n..]);
    }
  }

  lemma OneStart(s: Str)
    requires s != [] && Decode(s).Rune?
    ensures Starts(s[..Decode(s).size]) == 1
  {
    hide Decode;
    RuneShape(s);
    NoStarts(s[..Decode(s).size][1..]);
  }

  // ------------------------------------------------------------- encoding

  predicate Scalar(v: int) {
    0 <= v < 0xD800 || 0xE000 <= v < 0x11_0000
  }

  function Tail(v: nat): byte {
    0x80 + v % 0x40
  }

  // A Unicode scalar value as one to four bytes, six bits in each but the first.
  function Encode(v: int): Str
    requires Scalar(v)
  {
    if v < 0x80 then [v]
    else if v < 0x800 then [0xC0 + v / 0x40, Tail(v)]
    else if v < 0x1_0000 then [0xE0 + v / 0x40 / 0x40, Tail(v / 0x40), Tail(v)]
    else [0xF0 + v / 0x40 / 0x40 / 0x40, Tail(v / 0x40 / 0x40), Tail(v / 0x40), Tail(v)]
  }

  lemma EncodeShort(v: int)
    requires 0 <= v < 0x80
    ensures Encode(v) == [v]
  {
  }

  lemma Digits(q: nat, r: nat)
    requires r < 0x40
    ensures (q * 0x40 + r) / 0x40 == q && (q * 0x40 + r) % 0x40 == r
  {
  }

  // Decoding undoes encoding.
  lemma EncodeDecode(v: int)
    requires Scalar(v)
    ensures Decode(Encode(v)) == Rune(v, |Encode(v)|)
  {
    var a := v / 0x40;
    var b := a / 0x40;
    assert v == a * 0x40 + v % 0x40 && a == b * 0x40 + a % 0x40 && b == b / 0x40 * 0x40 + b % 0x40;
    if v < 0x800 {
    } else if v < 0x1_0000 {
      ThreeBytes(b, a % 0x40, v % 0x40);
    } else {
      FourBytes(b / 0x40, b % 0x40, a % 0x40, v % 0x40);
    }
  }

  lemma ThreeBytes(x: nat, y: nat, z: nat)
    requires x < 0x10 && y < 0x40 && z < 0x40
    requires var v := (x * 0x40 + y) * 0x40 + z; 0x800 <= v && Scalar(v)
    ensures Decode([0xE0 + x, 0x80 + y, 0x80 + z]) == Rune((x * 0x40 + y) * 0x40 + z, 3)
  {
  }

  lemma FourBytes(w: nat, x: nat, y: nat, z: nat)
    requires w < 8 && x < 0x40 && y < 0x40 && z < 0x40
    requires var v := ((w * 0x40 + x) * 0x40 + y) * 0x40 + z; 0x1_0000 <= v && Scalar(v)
    ensures Decode([0xF0 + w, 0x80 + x, 0x80 + y, 0x80 + z]) == Rune(((w * 0x40 + x) * 0x40 + y) * 0x40 + z, 4)
  {
  }

  // And finds nothing but what encoding makes: no overlong form, no surrogate and nothing past the last one.
  lemma DecodeExactly(s: Str, v: int)
    requires s != []
    ensures Decode(s).Rune? && Decode(s).value == v <==> Scalar(v) && Encode(v) <= s
    ensures Decode(s).Rune? ==> Scalar(Decode(s).value) && Decode(s).size == |Encode(Decode(s).value)|
  {
    if Decode(s).Rune? {
      DecodedIsEncoded(s);
    }
    if Scalar(v) && Encode(v) <= s {
      EncodeDecode(v);
      DecodePrefix(Encode(v), s[|Encode(v)|..]);
      assert s == Encode(v) + s[|Encode(v)|..];
      assert Encode(v)[..|Encode(v)|] == Encode(v);
    }
  }

  lemma DecodedIsEncoded(s: Str)
    requires s != [] && Decode(s).Rune?
    ensures Scalar(Decode(s).value) && s[..Decode(s).size] == Encode(Decode(s).value)
  {
    hide Decode;
    var d := Decode(s);
    var w, x, y, z := DecodedParts(s);
    if d.size == 2 {
      Digits(w, z);
    } else if d.size == 3 {
      Digits(w, y);
      Digits(w * 0x40 + y, z);
    } else if d.size == 4 {
      Digits(w, x);
      Digits(w * 0x40 + x, y);
      Digits((w * 0x40 + x) * 0x40 + y, z);
    }
  }

  // The bits of a decoded rune, six to a byte after the first.
  lemma DecodedParts(s: Str) returns (w: nat, x: nat, y: nat, z: nat)
    requires s != [] && Decode(s).Rune?
    ensures w < 0x20 && x < 0x40 && y < 0x40 && z < 0x40 && Decode(s).size in {1, 2, 3, 4}
    ensures Decode(s).size == 1 ==> s[..1] == [Decode(s).value] && Decode(s).value < 0x80
    ensures Decode(s).size == 2 ==>
              s[..2] == [0xC0 + w, 0x80 + z] && Decode(s).value == w * 0x40 + z && 0x80 <= Decode(s).value < 0x800
    ensures Decode(s).size == 3 ==>
              && s[..3] == [0xE0 + w, 0x80 + y, 0x80 + z] && Decode(s).value == (w * 0x40 + y) * 0x40 + z
              && 0x800 <= Decode(s).value < 0x1_0000 && Scalar(Decode(s).value)
    ensures Decode(s).size == 4 ==>
              && s[..4] == [0xF0 + w, 0x80 + x, 0x80 + y, 0x80 + z]
              && Decode(s).value == ((w * 0x40 + x) * 0x40 + y) * 0x40 + z
              && 0x1_0000 <= Decode(s).value && Scalar(Decode(s).value)
  {
    var n := Decode(s).size;
    var first: int := s[0];
    w, x, y, z := 0, 0, 0, 0;
    if n > 1 {
      var last: int := s[n - 1];
      z := last - 0x80;
      w := if n == 2 then first - 0xC0 else if n == 3 then first - 0xE0 else first - 0xF0;
    }
    if n > 2 {
      var inner: int := s[n - 2];
      y := inner - 0x80;
    }
    if n > 3 {
      var second: int := s[1];
      x := second - 0x80;
    }
  }
}
