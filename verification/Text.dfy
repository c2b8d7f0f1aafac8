/** Byte-level text operations of the Go library that the parsers rest on. */
module Text {
  import opened Bytes
  import Utf8

  predicate OccursAt(s: Str, pattern: Str, k: nat) {
    k + |pattern| <= |s| && s[k..k + |pattern|] == pattern
  }

  lemma OccursShift(s: Str, pattern: Str, k: nat)
    requires s != []
    ensures OccursAt(s[1..], pattern, k) <==> OccursAt(s, pattern, k + 1)
  {
    if k + 1 + |pattern| <= |s| {
      assert s[1..][k..k + |pattern|] == s[k + 1..k + 1 + |pattern|];
    }
  }

  lemma OccursLater(s: Str, pattern: Str)
    requires s != []
    ensures forall k: nat :: k > 0 ==> (OccursAt(s, pattern, k) <==> OccursAt(s[1..], pattern, k - 1))
    ensures forall k: nat :: OccursAt(s[1..], pattern, k) ==> OccursAt(s, pattern, k + 1)
  {
    forall k: nat ensures OccursAt(s[1..], pattern, k) <==> OccursAt(s, pattern, k + 1) {
      OccursShift(s, pattern, k);
    }
    forall k: nat | k > 0 ensures OccursAt(s, pattern, k) <==> OccursAt(s[1..], pattern, k - 1) {
      OccursShift(s, pattern, k - 1);
    }
  }

  // bytes.Index: the first occurrence, or -1.
  function Index(s: Str, pattern: Str): (i: int)
    ensures -1 <= i
    ensures i >= 0 ==> OccursAt(s, pattern, i)
    ensures forall k: nat :: OccursAt(s, pattern, k) ==> 0 <= i <= k
  {
    if |pattern| > |s| then -1
    else if s[..|pattern|] == pattern then 0
    else
      OccursLater(s, pattern);
      var r := Index(s[1..], pattern);
      if r < 0 then -1 else r + 1
  }

  // unicode.IsSpace.
  predicate IsSpace(r: nat) {
    || 0x09 <= r <= 0x0D || r == 0x20 || r == 0x85 || r == 0xA0 || r == 0x1680
    || 0x2000 <= r <= 0x200A || r == 0x2028 || r == 0x2029 || r == 0x202F || r == 0x205F || r == 0x3000
  }

  predicate SpaceRune(d: Utf8.Decoded) {
    d.Rune? && IsSpace(d.value)
  }

  predicate StartsWithSpace(s: Str) {
    s != [] && SpaceRune(Utf8.Decode(s))
  }

  lemma DropDrop(s: Str, n: nat, r: nat)
    requires n + r <= |s|
    ensures s[n..][r..] == s[n + r..]
  {
  }

  // strings.IndexFunc(s, unicode.IsSpace), or -1.
  function SpaceIndex(s: Str): (i: int)
    ensures -1 <= i < |s|
  {
    if s == [] then -1
    else if StartsWithSpace(s) then 0
    else
      var n := Utf8.Decode(s).Size();
      var r := SpaceIndex(s[n..]);
      if r < 0 then -1 else n + r
  }

  // The first n bytes are whole runes, none of them white space.
  predicate Unspaced(s: Str, n: nat)
    decreases |s|
  {
    n == 0 ||
    (s != [] && !StartsWithSpace(s) && Utf8.Decode(s).Size() <= n && Unspaced(s[Utf8.Decode(s).Size()..], n - Utf8.Decode(s).Size()))
  }

  // The index is that of the first white space, and -1 says there is none.
  lemma {:induction false} SpaceFound(s: Str)
    ensures SpaceIndex(s) >= 0 ==> StartsWithSpace(s[SpaceIndex(s)..]) && Unspaced(s, SpaceIndex(s))
    ensures SpaceIndex(s) < 0 <==> Unspaced(s, |s|)
    decreases |s|
  {
    hide Utf8.Decode, IsSpace;
    if s != [] && StartsWithSpace(s) {
      assert s[0..] == s;
    } else if s != [] {
      var n := Utf8.Decode(s).Size();
      SpaceFound(s[n..]);
      if SpaceIndex(s[n..]) >= 0 {
        DropDrop(s, n, SpaceIndex(s[n..]));
      }
    }
  }

  function TrimLeft(s: Str): Str {
    if StartsWithSpace(s) then TrimLeft(s[Utf8.Decode(s).size..]) else s
  }

  predicate RuneStart(b: byte) {
    !Utf8.IsContinuation(b)
  }

  function ScanBack(s: Str, i: int, limit: nat): int
    requires i < |s|
    decreases i + 1
  {
    if i < limit then i else if RuneStart(s[i]) then i else ScanBack(s, i - 1, limit)
  }

  // utf8.DecodeLastRune.
  function DecodeLast(s: Str): (d: Utf8.Decoded)
    requires s != []
    ensures 1 <= d.Size() <= |s|
  {
    var end := |s|;
    if s[end - 1] < 0x80 then Utf8.Rune(s[end - 1], 1)
    else
      var scanned := ScanBack(s, end - 2, if end > 4 then end - 4 else 0);
      var start := if scanned < 0 then 0 else scanned;
      if start >= end then Utf8.Invalid
      else
        var d := Utf8.Decode(s[start..]);
        if start + d.Size() == end && d.Rune? then d else Utf8.Invalid
  }

  predicate EndsWithSpace(s: Str) {
    s != [] && SpaceRune(DecodeLast(s))
  }

  function TrimRight(s: Str): (t: Str)
    ensures t <= s
  {
    if EndsWithSpace(s) then TrimRight(s[..|s| - DecodeLast(s).size]) else s
  }

  function TrimSpace(s: Str): Str {
    TrimRight(TrimLeft(s))
  }

  predicate Spaces(s: Str) {
    s == [] || (StartsWithSpace(s) && Spaces(s[Utf8.Decode(s).size..]))
  }

  // ------------------------------------------------------------- trimming

  lemma SpaceThen(e: Str, w: Str)
    requires e != [] && SpaceRune(Utf8.Decode(e)) && Utf8.Decode(e).size == |e| && Spaces(w)
    ensures Spaces(e + w)
  {
    hide Utf8.Decode, IsSpace;
    Utf8.DecodePrefix(e, w);
    assert e[..|e|] == e;
    assert (e + w)[|e|..] == w;
  }

  lemma FirstIsWhole(s: Str)
    requires s != [] && Utf8.Decode(s).Rune?
    ensures Utf8.Decode(s[..Utf8.Decode(s).size]) == Utf8.Decode(s)
  {
    hide Utf8.Decode, IsSpace;
    Utf8.DecodePrefix(s, []);
    assert s[..Utf8.Decode(s).size] + [] == s[..Utf8.Decode(s).size];
  }

  lemma SpacesTail(a: Str)
    requires Spaces(a) && a != []
    ensures SpaceRune(Utf8.Decode(a)) && Spaces(a[Utf8.Decode(a).size..])
  {
    hide Utf8.Decode, IsSpace;
  }

  lemma {:induction false} SpacesConcat(a: Str, b: Str)
    requires Spaces(a) && Spaces(b)
    ensures Spaces(a + b)
    decreases |a|
  {
    hide Utf8.Decode, IsSpace, Spaces;
    if a == [] {
      assert a + b == b;
    } else {
      SpacesTail(a);
      var n := Utf8.Decode(a).size;
      SpacesConcat(a[n..], b);
      FirstIsWhole(a);
      SpaceThen(a[..n], a[n..] + b);
      assert a + b == a[..n] + (a[n..] + b);
    }
  }

  lemma TrimLeftStep(s: Str)
    ensures StartsWithSpace(s) ==> TrimLeft(s) == TrimLeft(s[Utf8.Decode(s).size..])
    ensures !StartsWithSpace(s) ==> TrimLeft(s) == s
    ensures Spaces([])
  {
    hide Utf8.Decode, IsSpace;
  }

  lemma {:induction false} TrimLeftParts(s: Str) returns (left: Str)
    ensures s == left + TrimLeft(s) && Spaces(left) && !StartsWithSpace(TrimLeft(s))
    decreases |s|
  {
    hide Utf8.Decode, IsSpace, Spaces, TrimLeft;
    TrimLeftStep(s);
    left := [];
    if StartsWithSpace(s) {
      var n := Utf8.Decode(s).size;
      var e, rest := s[..n], s[n..];
      var more := TrimLeftParts(rest);
      FirstIsWhole(s);
      SpaceThen(e, more);
      left := e + more;
      assert s == e + rest;
      assert e + (more + TrimLeft(rest)) == left + TrimLeft(rest);
    }
  }

  lemma OneSpace(s: Str)
    requires s != [] && SpaceRune(Utf8.Decode(s)) && Utf8.Decode(s).size == |s|
    ensures Spaces(s)
  {
    assert s[|s|..] == [];
  }

  lemma LastIsWhole(s: Str)
    requires s != [] && DecodeLast(s).Rune?
    ensures var e := s[|s| - DecodeLast(s).size..]; Utf8.Decode(e) == DecodeLast(s)
  {
  }

  lemma NoSpaces()
    ensures Spaces([])
  {
  }

  lemma {:induction false} TrimRightDrops(s: Str)
    ensures Spaces(s[|TrimRight(s)|..]) && !EndsWithSpace(TrimRight(s))
    decreases |s|
  {
    hide Utf8.Decode, IsSpace, DecodeLast, Spaces;
    NoSpaces();
    if EndsWithSpace(s) {
      var n := |s| - DecodeLast(s).size;
      TrimRightDrops(s[..n]);
      LastIsWhole(s);
      OneSpace(s[n..]);
      var k := |TrimRight(s)|;
      SpacesConcat(s[..n][k..], s[n..]);
      assert s[k..] == s[..n][k..] + s[n..];
    } else {
      assert s[|s|..] == [];
    }
  }

  // A whole rune at the end is found from the end.
  lemma LastRune(x: Str, e: Str)
    requires e != [] && Utf8.Decode(e).Rune? && Utf8.Decode(e).size == |e|
    ensures DecodeLast(x + e) == Utf8.Decode(e)
  {
    var s := x + e;
    var start := |x|;
    if |e| > 1 {
      assert s[start..] == e;
      assert s[start] == e[0] && RuneStart(s[start]);
      assert forall k :: start < k < |s| ==> s[k] == e[k - start] && !RuneStart(s[k]);
      var limit := if |s| > 4 then |s| - 4 else 0;
      ScanFinds(s, |s| - 2, limit, start);
    }
  }

  lemma {:induction false} ScanFinds(s: Str, i: int, limit: nat, start: nat)
    requires limit <= start <= i < |s| && RuneStart(s[start])
    requires forall k :: start < k <= i ==> !RuneStart(s[k])
    ensures ScanBack(s, i, limit) == start
    decreases i
  {
    if i > start {
      ScanFinds(s, i - 1, limit, start);
    }
  }

  lemma {:induction false} TrimRightSpaces(x: Str, w: Str)
    requires Spaces(w)
    ensures TrimRight(x + w) == TrimRight(x)
    decreases |w|
  {
    if w == [] {
      assert x + w == x;
    } else {
      hide Utf8.Decode, IsSpace;
      var n := Utf8.Decode(w).size;
      var e, rest := w[..n], w[n..];
      assert x + w == x + e + rest;
      TrimRightSpaces(x + e, rest);
      FirstIsWhole(w);
      LastRune(x, e);
      assert (x + e)[..|x + e| - n] == x;
    }
  }

  lemma {:induction false} TrimLeftSpaces(w: Str, x: Str)
    requires Spaces(w)
    ensures TrimLeft(w + x) == TrimLeft(x)
    decreases |w|
  {
    if w == [] {
      assert w + x == x;
    } else {
      hide Utf8.Decode, IsSpace;
      var n := Utf8.Decode(w).size;
      assert w + x == w[..n] + (w[n..] + x);
      Utf8.DecodePrefix(w, w[n..] + x);
      assert (w + x)[n..] == w[n..] + x;
      TrimLeftSpaces(w[n..], x);
    }
  }

  // A rune at the start is the same for a prefix that holds it.
  lemma PrefixStarts(t: Str, p: Str)
    requires p <= t && StartsWithSpace(p)
    ensures StartsWithSpace(t)
  {
    hide Utf8.Decode, IsSpace;
    var n := Utf8.Decode(p).size;
    Utf8.DecodePrefix(p, t[n..]);
    assert p[..n] == t[..n] && t[..n] + t[n..] == t;
  }

  // Text is white space, a trimmed middle that neither starts nor ends with any, and white space.
  lemma TrimSpaceParts(s: Str) returns (left: Str, right: Str)
    ensures s == left + TrimSpace(s) + right && Spaces(left) && Spaces(right)
    ensures !StartsWithSpace(TrimSpace(s)) && !EndsWithSpace(TrimSpace(s))
  {
    hide TrimLeft, TrimRight, StartsWithSpace, EndsWithSpace;
    var t := TrimLeft(s);
    left := TrimLeftParts(s);
    TrimRightDrops(t);
    right := t[|TrimSpace(s)|..];
    assert t == TrimSpace(s) + right;
    assert left + t == left + TrimSpace(s) + right;
    if StartsWithSpace(TrimSpace(s)) {
      PrefixStarts(t, TrimSpace(s));
    }
  }
}
