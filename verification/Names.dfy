/** Names for sibling entries: assignNames of the tree and AttachmentNames of the renderer. */
module Names {
  import opened Bytes
  import opened PathNames

  datatype NamedId = NamedId(base: Str, id: Str)

  function ShortId(id: Str): (s: Str)
    ensures |s| == (if |id| < 6 then |id| else 6) && s == id[|id| - |s|..]
  {
    if |id| > 6 then id[|id| - 6..] else id
  }

  // filepath.Ext on a name that holds no slash: from the last dot, or nothing.
  function Ext(base: Str): (e: Str)
    ensures |e| <= |base|
  {
    if base == [] then []
    else if base[|base| - 1] == DOT then [DOT]
    else
      var e := Ext(base[..|base| - 1]);
      if e == [] then [] else e + [base[|base| - 1]]
  }

  predicate IsExt(e: Str) {
    e != [] ==> e[0] == DOT && forall k :: 1 <= k < |e| ==> e[k] != DOT
  }

  function Stem(base: Str): Str {
    base[..|base| - |Ext(base)|]
  }

  lemma {:induction false} ExtShape(base: Str)
    ensures base == Stem(base) + Ext(base) && IsExt(Ext(base))
    ensures Ext(base) == [] <==> DOT !in base
  {
    if base != [] && base[|base| - 1] != DOT {
      var init, last := base[..|base| - 1], base[|base| - 1];
      ExtShape(init);
      assert base == init + [last];
      if Ext(init) != [] {
        assert base == Stem(init) + (Ext(init) + [last]);
      }
    }
  }

  // Where the disambiguating suffix goes: at the end, or in front of the extension.
  datatype Style = AtEnd | BeforeExt

  function Suffixed(base: Str, id: Str, style: Style): Str {
    if style.AtEnd? then base + [TILDE] + ShortId(id)
    else Stem(base) + [TILDE] + ShortId(id) + Ext(base)
  }

  function Count(items: seq<NamedId>, base: Str): nat {
    if items == [] then 0
    else
      Count(items[..|items| - 1], base) + if items[|items| - 1].base == base then 1 else 0
  }

  function Ids(items: seq<NamedId>): set<Str> {
    set k | 0 <= k < |items| :: items[k].id
  }

  // With a repeated id the later base wins.
  function LastBase(items: seq<NamedId>, id: Str): Str
    requires id in Ids(items)
  {
    var last := items[|items| - 1];
    if last.id == id then last.base else LastBase(items[..|items| - 1], id)
  }

  function Entry(items: seq<NamedId>, base: Str, id: Str, style: Style): Str {
    if Count(items, base) > 1 then Suffixed(base, id, style) else base
  }

  function Assigned(items: seq<NamedId>, style: Style): map<Str, Str> {
    map id | id in Ids(items) :: Entry(items, LastBase(items, id), id, style)
  }

  // The value a Go map of counters yields for a key that may be absent.
  function Get(counts: map<Str, nat>, base: Str): nat {
    if base in counts then counts[base] else 0
  }

  // What the naming loop has filled in after i items.
  function LastBases(items: seq<NamedId>, i: nat): map<Str, Str>
    requires i <= |items|
  {
    map id | id in Ids(items[..i]) :: LastBase(items[..i], id)
  }

  function AssignedPart(items: seq<NamedId>, bases: map<Str, Str>, style: Style): map<Str, Str> {
    map id | id in bases :: Entry(items, bases[id], id, style)
  }

  lemma IdsStep(items: seq<NamedId>, i: nat)
    requires i <= |items|
    ensures i < |items| ==> Ids(items[..i + 1]) == Ids(items[..i]) + {items[i].id} && items[i].id in Ids(items)
    ensures i > 0 ==> Ids(items[..i]) == Ids(items[..i - 1]) + {items[i - 1].id}
    ensures i == |items| ==> Ids(items[..i]) == Ids(items)
  {
    if i == |items| {
      assert items[..i] == items;
    }
  }

  lemma PartStep(items: seq<NamedId>, bases: map<Str, Str>, id: Str, base: Str, style: Style)
    ensures AssignedPart(items, bases[id := base], style) ==
            AssignedPart(items, bases, style)[id := Entry(items, base, id, style)]
  {
  }

  lemma LastBasesStep(items: seq<NamedId>, i: nat)
    requires i < |items|
    ensures LastBases(items, i + 1) == LastBases(items, i)[items[i].id := items[i].base]
  {
    hide Ids;
    IdsStep(items, i + 1);
    var a := items[..i + 1];
    assert a[..|a| - 1] == items[..i] && a[i] == items[i];
  }

  lemma {:induction false} LastBasesAll(items: seq<NamedId>, style: Style)
    ensures AssignedPart(items, LastBases(items, |items|), style) == Assigned(items, style)
  {
    assert items[..|items|] == items;
  }

  ghost predicate Counted(counts: map<Str, nat>, items: seq<NamedId>) {
    forall base :: Get(counts, base) == Count(items, base)
  }

  lemma CountStep(counts: map<Str, nat>, items: seq<NamedId>, i: nat)
    requires i < |items| && Counted(counts, items[..i])
    ensures Counted(counts[items[i].base := Get(counts, items[i].base) + 1], items[..i + 1])
  {
    var a := items[..i + 1];
    assert a[..|a| - 1] == items[..i] && a[i] == items[i];
    forall base
      ensures Get(counts[items[i].base := Get(counts, items[i].base) + 1], base) == Count(a, base)
    {
      assert Get(counts, base) == Count(items[..i], base);
    }
  }

  method AssignNames(items: seq<NamedId>) returns (result: map<Str, Str>)
    ensures result == Assigned(items, AtEnd)
  {
    var counts: map<Str, nat> := map[];
    for i := 0 to |items|
      invariant Counted(counts, items[..i])
    {
      CountStep(counts, items, i);
      counts := counts[items[i].base := Get(counts, items[i].base) + 1];
    }
    assert items[..|items|] == items;
    result := map[];
    for i := 0 to |items|
      invariant result == AssignedPart(items, LastBases(items, i), AtEnd)
    {
      LastBasesStep(items, i);
      PartStep(items, LastBases(items, i), items[i].id, items[i].base, AtEnd);
      var name := items[i].base;
      if Get(counts, name) > 1 {
        name := name + [TILDE] + ShortId(items[i].id);
      }
      result := result[items[i].id := name];
    }
    LastBasesAll(items, AtEnd);
  }

  // The renderer's variant takes (filename, id) pairs and escapes the filenames itself.
  datatype FileId = FileId(filename: Str, id: Str)

  function Bases(files: seq<FileId>): seq<NamedId> {
    seq(|files|, k requires 0 <= k < |files| => NamedId(NameOf(files[k].filename), files[k].id))
  }

  method AttachmentNames(files: seq<FileId>) returns (names: map<Str, Str>)
    ensures names == Assigned(Bases(files), BeforeExt)
  {
    ghost var items := Bases(files);
    var bases: map<Str, Str> := map[];
    var counts: map<Str, nat> := map[];
    for i := 0 to |files|
      invariant bases == LastBases(items, i)
      invariant Counted(counts, items[..i])
    {
      LastBasesStep(items, i);
      CountStep(counts, items, i);
      var base := SafePathName(files[i].filename);
      bases := bases[files[i].id := base];
      counts := counts[base := Get(counts, base) + 1];
    }
    assert items[..|items|] == items;
    names := NameFiles(files, bases, counts);
  }

  // The bases of the ids seen so far, read from the finished map.
  function Seen(bases: map<Str, Str>, ids: set<Str>): map<Str, Str> {
    map id | id in ids && id in bases :: bases[id]
  }

  lemma SeenAdd(bases: map<Str, Str>, ids: set<Str>, id: Str)
    requires id in bases
    ensures Seen(bases, ids + {id}) == Seen(bases, ids)[id := bases[id]]
  {
  }

  lemma SeenAll(items: seq<NamedId>)
    ensures Seen(LastBases(items, |items|), Ids(items[..|items|])) == LastBases(items, |items|)
  {
  }

  // The second loop of AttachmentNames.
  method NameFiles(files: seq<FileId>, bases: map<Str, Str>, counts: map<Str, nat>) returns (names: map<Str, Str>)
    requires bases == LastBases(Bases(files), |files|) && Counted(counts, Bases(files))
    ensures names == Assigned(Bases(files), BeforeExt)
  {
    ghost var items := Bases(files);
    names := map[];
    for i := 0 to |files|
      invariant names == AssignedPart(items, Seen(bases, Ids(items[..i])), BeforeExt)
    {
      IdsStep(items, i);
      IdsStep(items, |items|);
      SeenAdd(bases, Ids(items[..i]), items[i].id);
      PartStep(items, Seen(bases, Ids(items[..i])), items[i].id, bases[items[i].id], BeforeExt);
      var base := bases[files[i].id];
      if Get(counts, base) > 1 {
        var extension := Ext(base);
        var stem := base[..|base| - |extension|];
        base := stem + [TILDE] + ShortId(files[i].id) + extension;
      }
      names := names[files[i].id := base];
    }
    SeenAll(items);
    LastBasesAll(items, BeforeExt);
  }

  // The last dot of a name, or its end.
  predicate LastDotAt(base: Str, d: nat) {
    && d <= |base| && (d < |base| ==> base[d] == 0x2E)
    && (d < |base| || DOT !in base) && forall k :: d < k < |base| ==> base[k] != 0x2E
  }

  lemma OneLastDot(base: Str, d: nat, e: nat)
    requires LastDotAt(base, d) && LastDotAt(base, e)
    ensures d == e
  {
  }

  lemma StemEnds(base: Str)
    ensures |Stem(base)| <= |base| && LastDotAt(base, |Stem(base)|)
    ensures base[..|Stem(base)|] == Stem(base) && base[|Stem(base)|..] == Ext(base)
  {
    hide Ext;
    ExtShape(base);
    var n, e := |Stem(base)|, Ext(base);
    assert base[n..] == e;
    forall k | n <= k < |base| ensures base[k] == e[k - n] {
    }
  }

  // The tilde and the last six characters of the id stand behind the base, or in front of its last dot.
  lemma SuffixedShape(base: Str, id: Str, d: nat)
    requires LastDotAt(base, d)
    ensures var suffix := [0x7E] + (if |id| > 6 then id[|id| - 6..] else id);
            && Suffixed(base, id, AtEnd) == base + suffix
            && Suffixed(base, id, BeforeExt) == base[..d] + suffix + base[d..]
  {
    hide Ext, Stem, LastDotAt;
    StemEnds(base);
    OneLastDot(base, d, |Stem(base)|);
    var short := if |id| > 6 then id[|id| - 6..] else id;
    assert ShortId(id) == short;
    assert base + [TILDE] + short == base + ([TILDE] + short);
    assert Stem(base) + [TILDE] + short == Stem(base) + ([TILDE] + short);
  }

  // ------------------------------------------------------------- collisions

  predicate DistinctIds(items: seq<NamedId>) {
    forall i, j :: 0 <= i < j < |items| ==> items[i].id != items[j].id
  }

  predicate DecimalIds(items: seq<NamedId>) {
    forall k :: 0 <= k < |items| ==> Decimal(items[k].id)
  }

  predicate Repeated(items: seq<NamedId>, k: nat)
    requires k < |items|
  {
    exists j :: 0 <= j < |items| && j != k && items[j].base == items[k].base
  }

  // The unrepeated base of item i is spelled like the suffixed name of item j.
  predicate Shadows(items: seq<NamedId>, i: nat, j: nat, style: Style)
    requires i < |items| && j < |items|
  {
    !Repeated(items, i) && Repeated(items, j) && items[i].base == Suffixed(items[j].base, items[j].id, style)
  }

  predicate SameSuffix(items: seq<NamedId>, i: nat, j: nat)
    requires i < |items| && j < |items|
  {
    items[i].base == items[j].base && ShortId(items[i].id) == ShortId(items[j].id)
  }

  lemma {:induction false} CountAtLeast(items: seq<NamedId>, k: nat)
    requires k < |items|
    ensures Count(items, items[k].base) >= 1
  {
    if k < |items| - 1 {
      CountAtLeast(items[..|items| - 1], k);
    }
  }

  lemma {:induction false} CountRepeated(items: seq<NamedId>, k: nat)
    requires k < |items|
    ensures Count(items, items[k].base) > 1 <==> Repeated(items, k)
    decreases |items|, if k == |items| - 1 then 0 else 1
  {
    var n, init := |items| - 1, items[..|items| - 1];
    var base := items[k].base;
    if k == n {
      if j :| 0 <= j < n && items[j].base == base {
        CountAtLeast(init, j);
        assert init[j].base == base;
      } else {
        CountAbsent(init, base);
      }
    } else {
      CountAtLeast(init, k);
      CountRepeated(init, k);
      if items[n].base == base {
        assert Repeated(items, k);
      } else if Repeated(items, k) {
        var j :| 0 <= j < |items| && j != k && items[j].base == base;
        assert init[j].base == base;
      }
    }
  }

  lemma {:induction false} CountAbsent(items: seq<NamedId>, base: Str)
    requires forall k :: 0 <= k < |items| ==> items[k].base != base
    ensures Count(items, base) == 0
  {
    if items != [] {
      CountAbsent(items[..|items| - 1], base);
    }
  }

  lemma {:induction false} LastBaseAt(items: seq<NamedId>, k: nat)
    requires DistinctIds(items) && k < |items|
    ensures items[k].id in Ids(items) && LastBase(items, items[k].id) == items[k].base
  {
    if k < |items| - 1 {
      LastBaseAt(items[..|items| - 1], k);
      assert items[..|items| - 1][k] == items[k];
    }
  }

  // The last '~' of a name with an all-digit tail is the one the suffix brought.
  lemma TildeSplit(a: Str, s: Str, b: Str, t: Str)
    requires Decimal(s) && Decimal(t)
    requires a + [TILDE] + s == b + [TILDE] + t
    ensures a == b && s == t
  {
    var x := a + [TILDE] + s;
    LastTilde(a, s);
    LastTilde(b, t);
    assert |a| == |b|;
    assert a == x[..|a|] && b == x[..|a|];
    assert s == x[|a| + 1..] && t == x[|a| + 1..];
  }

  lemma LastTilde(a: Str, s: Str)
    requires Decimal(s)
    ensures (a + [TILDE] + s)[|a|] == TILDE
    ensures forall k :: |a| < k < |a + [TILDE] + s| ==> (a + [TILDE] + s)[k] != TILDE
  {
    var x := a + [TILDE] + s;
    forall k | |a| < k < |x| ensures x[k] != TILDE {
      assert x[k] == s[k - |a| - 1];
    }
  }

  lemma ShortIdDecimal(id: Str)
    requires Decimal(id)
    ensures Decimal(ShortId(id))
  {
    hide ShortId, IsDigit;
    var s := ShortId(id);
    var d := |id| - |s|;
    forall k | 0 <= k < |s| ensures IsDigit(s[k]) {
      assert s[k] == id[d + k];
    }
  }

  lemma LastDot(a: Str, e: Str)
    requires IsExt(e) && (e == [] ==> DOT !in a)
    ensures e == [] <==> DOT !in a + e
    ensures e != [] ==> (a + e)[|a|] == DOT && forall k :: |a| < k < |a + e| ==> (a + e)[k] != DOT
  {
    var x := a + e;
    if e != [] {
      assert x[|a|] == DOT;
      forall k | |a| < k < |x| ensures x[k] != DOT {
        assert x[k] == e[k - |a|];
      }
    }
  }

  // The extension is readable off a suffixed name: digits hold no dot.
  lemma SameExtension(a: Str, e: Str, b: Str, f: Str)
    requires IsExt(e) && IsExt(f)
    requires e == [] ==> DOT !in a
    requires f == [] ==> DOT !in b
    requires a + e == b + f
    ensures a == b && e == f
  {
    var x := a + e;
    LastDot(a, e);
    LastDot(b, f);
    assert |a| == |b|;
    assert a == x[..|a|] && b == x[..|a|] && e == x[|a|..] && f == x[|a|..];
  }

  // A stem and its digits hold no dot when the base has no extension.
  lemma Undotted(base: Str, id: Str)
    requires Decimal(ShortId(id)) && Ext(base) == []
    ensures DOT !in Stem(base) + [TILDE] + ShortId(id)
  {
    ExtShape(base);
    assert Stem(base) == base;
  }

  lemma SuffixedInjective(b: Str, i: Str, c: Str, j: Str, style: Style)
    requires Decimal(i) && Decimal(j)
    requires Suffixed(b, i, style) == Suffixed(c, j, style)
    ensures b == c && ShortId(i) == ShortId(j)
  {
    ShortIdDecimal(i);
    ShortIdDecimal(j);
    var si, sj := ShortId(i), ShortId(j);
    if style.AtEnd? {
      TildeSplit(b, si, c, sj);
    } else {
      ExtShape(b);
      ExtShape(c);
      if Ext(b) == [] {
        Undotted(b, i);
      }
      if Ext(c) == [] {
        Undotted(c, j);
      }
      SameExtension(Stem(b) + [TILDE] + si, Ext(b), Stem(c) + [TILDE] + sj, Ext(c));
      TildeSplit(Stem(b), si, Stem(c), sj);
    }
  }

  lemma EntryOf(items: seq<NamedId>, k: nat, style: Style)
    requires DistinctIds(items) && k < |items|
    ensures items[k].id in Assigned(items, style)
    ensures Assigned(items, style)[items[k].id] ==
            if Repeated(items, k) then Suffixed(items[k].base, items[k].id, style) else items[k].base
  {
    LastBaseAt(items, k);
    CountRepeated(items, k);
  }

  // Exactly when two siblings end up with one name.
  lemma NameCollision(items: seq<NamedId>, i: nat, j: nat, style: Style)
    requires DistinctIds(items) && DecimalIds(items)
    requires i < |items| && j < |items| && i != j
    ensures items[i].id in Assigned(items, style) && items[j].id in Assigned(items, style)
    ensures Assigned(items, style)[items[i].id] == Assigned(items, style)[items[j].id] <==>
            SameSuffix(items, i, j) || Shadows(items, i, j, style) || Shadows(items, j, i, style)
  {
    EntryOf(items, i, style);
    EntryOf(items, j, style);
    var a, b := items[i], items[j];
    if a.base == b.base {
      assert Repeated(items, i) && Repeated(items, j);
    }
    if Suffixed(a.base, a.id, style) == Suffixed(b.base, b.id, style) {
      SuffixedInjective(a.base, a.id, b.base, b.id, style);
    }
  }

  // Seven-digit ids that agree on their last six digits do collide.
  lemma CollisionExists()
    ensures exists items: seq<NamedId> | |items| == 2 :: Colliding(items)
  {
    var tail: Str := [0x30, 0x30, 0x30, 0x30, 0x30, 0x30];
    var x, y := [0x31] + tail, [0x32] + tail;
    assert x[1..] == tail == y[1..] && x[0] != y[0];
    var items := [NamedId([0x61], x), NamedId([0x61], y)];
    assert items[0].base == items[1].base;
    NameCollision(items, 0, 1, AtEnd);
    assert Colliding(items);
  }

  predicate Colliding(items: seq<NamedId>) {
    && |items| == 2 && DistinctIds(items) && DecimalIds(items)
    && items[0].id in Assigned(items, AtEnd) && items[1].id in Assigned(items, AtEnd)
    && Assigned(items, AtEnd)[items[0].id] == Assigned(items, AtEnd)[items[1].id]
  }

  // ------------------------------------------------------------- order

  lemma {:induction false} CountConcat(a: seq<NamedId>, b: seq<NamedId>, base: Str)
    ensures Count(a + b, base) == Count(a, base) + Count(b, base)
  {
    if b == [] {
      assert a + b == a;
    } else {
      CountConcat(a, b[..|b| - 1], base);
      assert (a + b)[..|a + b| - 1] == a + b[..|b| - 1];
    }
  }

  lemma {:induction false} CountRemove(b: seq<NamedId>, k: nat, base: Str)
    requires k < |b|
    ensures Count(b, base) == Count(b[..k] + b[k + 1..], base) + if b[k].base == base then 1 else 0
  {
    var u, v := b[..k + 1], b[k + 1..];
    assert b == u + v && u[..k] == b[..k];
    CountConcat(u, v, base);
    CountConcat(b[..k], v, base);
  }

  // The last element of a sequence, found in a rearrangement of it and taken out of both.
  lemma WithoutOne<T>(a: seq<T>, k: nat)
    requires k < |a|
    ensures multiset(a[..k] + a[k + 1..]) == multiset(a) - multiset{a[k]}
  {
    assert a == a[..k] + ([a[k]] + a[k + 1..]);
  }

  lemma Matched<T>(a: seq<T>, b: seq<T>) returns (k: nat)
    requires a != [] && multiset(a) == multiset(b)
    ensures k < |b| && b[k] == a[|a| - 1]
    ensures multiset(a[..|a| - 1]) == multiset(b[..k] + b[k + 1..])
  {
    var x := a[|a| - 1];
    assert x in multiset(a);
    assert x in b;
    k :| 0 <= k < |b| && b[k] == x;
    WithoutOne(a, |a| - 1);
    assert a[..|a| - 1] + a[|a| - 1 + 1..] == a[..|a| - 1];
    WithoutOne(b, k);
  }

  lemma {:induction false} CountPermutation(a: seq<NamedId>, b: seq<NamedId>, base: Str)
    requires multiset(a) == multiset(b)
    ensures Count(a, base) == Count(b, base)
  {
    if a == [] {
      assert |multiset(b)| == 0;
    } else {
      var n := |a| - 1;
      var k := Matched(a, b);
      CountPermutation(a[..n], b[..k] + b[k + 1..], base);
      CountRemove(b, k, base);
    }
  }

  lemma SameMembers(a: seq<NamedId>, b: seq<NamedId>)
    requires multiset(a) == multiset(b)
    ensures Ids(a) <= Ids(b)
  {
    forall id | id in Ids(a) ensures id in Ids(b) {
      var k :| 0 <= k < |a| && a[k].id == id;
      assert a[k] in multiset(b);
      var j :| 0 <= j < |b| && b[j] == a[k];
      assert b[j].id == id;
    }
  }

  lemma SameEntry(a: seq<NamedId>, b: seq<NamedId>, k: nat, style: Style)
    requires multiset(a) == multiset(b) && DistinctIds(a) && DistinctIds(b) && k < |a|
    ensures a[k].id in Ids(a) && a[k].id in Ids(b)
    ensures LastBase(a, a[k].id) == LastBase(b, a[k].id)
    ensures Count(a, a[k].base) == Count(b, a[k].base)
  {
    assert a[k] in multiset(b);
    var j :| 0 <= j < |b| && b[j] == a[k];
    LastBaseAt(a, k);
    LastBaseAt(b, j);
    CountPermutation(a, b, a[k].base);
  }

  // A snapshot lists its items in whatever order a Go map yields; the names do not depend on it.
  lemma OrderIndependent(a: seq<NamedId>, b: seq<NamedId>, style: Style)
    requires multiset(a) == multiset(b) && DistinctIds(a) && DistinctIds(b)
    ensures Assigned(a, style) == Assigned(b, style)
  {
    SameMembers(a, b);
    SameMembers(b, a);
    forall id | id in Ids(a)
      ensures Entry(a, LastBase(a, id), id, style) == Entry(b, LastBase(b, id), id, style)
    {
      var k :| 0 <= k < |a| && a[k].id == id;
      SameEntry(a, b, k, style);
      LastBaseAt(a, k);
    }
  }
}
