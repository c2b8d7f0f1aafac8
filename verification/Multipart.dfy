/** Uploading an attachment by the server's plan: the slices of a multipart upload. */
module Multipart {
  import opened Bytes
  import opened Wrappers

  const I64: int := 0x8000_0000_0000_0000

  datatype Part = Part(number: int, url: Str)

  datatype UploadMode = Singlepart | Multipart | UnknownMode

  datatype Plan = Plan(mode: UploadMode, url: Str, uploadId: Str, partSize: int, parts: seq<Part>)

  datatype Put = Put(url: Str, data: Str)

  datatype Failure = EmptyUrl | InvalidPlan | InvalidPart | ExceedsFile | PutFailed | UnknownUploadMode

  // ------------------------------------------------------------- the slice of a part

  function Start(plan: Plan, part: Part): int {
    (part.number - 1) * plan.partSize
  }

  function End(plan: Plan, part: Part, size: nat): int {
    var end := Start(plan, part) + plan.partSize;
    if end > size then size else end
  }

  predicate PartOk(plan: Plan, part: Part, size: nat) {
    part.number >= 1 && part.url != [] && Start(plan, part) < size
  }

  predicate PlanOk(plan: Plan) {
    plan.uploadId != [] && plan.partSize > 0 && plan.parts != []
  }

  predicate Accepted(plan: Plan, size: nat) {
    plan.mode.Multipart? && PlanOk(plan) && forall k :: 0 <= k < |plan.parts| ==> PartOk(plan, plan.parts[k], size)
  }

  lemma SliceInRange(plan: Plan, part: Part, size: nat)
    requires plan.partSize > 0 && PartOk(plan, part, size)
    ensures 0 <= Start(plan, part) < End(plan, part, size) <= size
  {
    assert (part.number - 1) * plan.partSize >= 0;
  }

  // The 64-bit products and sums of the source do not overflow.
  predicate Fits(plan: Plan, size: nat) {
    && size < I64
    && forall k :: 0 <= k < |plan.parts| ==>
         -I64 <= (plan.parts[k].number - 1) * plan.partSize && plan.parts[k].number * plan.partSize < I64
  }

  // What part k uploads in an accepted plan.
  function Upload(plan: Plan, data: Str, k: nat): Put
    requires k < |plan.parts| && plan.partSize > 0 && PartOk(plan, plan.parts[k], |data|)
  {
    SliceInRange(plan, plan.parts[k], |data|);
    Put(plan.parts[k].url, data[Start(plan, plan.parts[k])..End(plan, plan.parts[k], |data|)])
  }

  // Why a multipart upload ended after n requests: the last one failed, or the next part is unusable.
  predicate StoppedAt(plan: Plan, size: nat, put: nat -> bool, n: nat, failure: Failure) {
    match failure
    case PutFailed => n > 0 && !put(n - 1) && forall j :: 0 <= j < n - 1 ==> put(j)
    case InvalidPart => n < |plan.parts| && (plan.parts[n].number < 1 || plan.parts[n].url == [])
    case ExceedsFile => n < |plan.parts| && plan.parts[n].number >= 1 && Start(plan, plan.parts[n]) >= size
    case _ => false
  }

  // put says whether the k-th request succeeds.
  method UploadAttachment(plan: Plan, data: Str, put: nat -> bool) returns (failure: Option<Failure>, puts: seq<Put>)
    requires Fits(plan, |data|)
    ensures failure.None? && plan.mode.Multipart? ==>
              Accepted(plan, |data|) && |puts| == |plan.parts| && forall k :: 0 <= k < |puts| ==> put(k)
    ensures plan.mode.Multipart? && PlanOk(plan) ==>
              && |puts| <= |plan.parts|
              && forall k :: 0 <= k < |puts| ==>
                   PartOk(plan, plan.parts[k], |data|) && puts[k] == Upload(plan, data, k)
    ensures Accepted(plan, |data|) && (forall k :: 0 <= k < |plan.parts| ==> put(k)) ==> failure.None?
    ensures plan.mode.Multipart? && PlanOk(plan) && failure.Some? ==> StoppedAt(plan, |data|, put, |puts|, failure.value)
    ensures plan.mode.Multipart? && PlanOk(plan) ==> forall k :: 0 <= k < |puts| ==> puts[k].url == plan.parts[k].url
    ensures failure == Some(InvalidPlan) <==>
            plan.mode.Multipart? && (plan.uploadId == [] || plan.partSize <= 0 || plan.parts == [])
    ensures plan.mode.Multipart? && !PlanOk(plan) ==> failure == Some(InvalidPlan) && puts == []
    ensures plan.mode.Singlepart? ==>
              if plan.url == [] then failure == Some(EmptyUrl) && puts == []
              else puts == [Put(plan.url, data)] && failure == if put(0) then None else Some(PutFailed)
    ensures plan.mode.UnknownMode? ==> failure == Some(UnknownUploadMode) && puts == []
  {
    puts := [];
    match plan.mode
    case Singlepart =>
      if plan.url == [] {
        return Some(EmptyUrl), puts;
      }
      puts := [Put(plan.url, data)];
      failure := if put(0) then None else Some(PutFailed);
    case Multipart =>
      if plan.uploadId == [] || plan.partSize <= 0 || |plan.parts| == 0 {
        return Some(InvalidPlan), puts;
      }
      for k := 0 to |plan.parts|
        invariant |puts| == k
        invariant forall j :: 0 <= j < k ==>
                    PartOk(plan, plan.parts[j], |data|) && puts[j] == Upload(plan, data, j) && put(j)
      {
        var part := plan.parts[k];
        if part.number < 1 || part.url == [] {
          return Some(InvalidPart), puts;
        }
        var start := (part.number - 1) * plan.partSize;
        if start >= |data| {
          return Some(ExceedsFile), puts;
        }
        var end := start + plan.partSize;
        if end > |data| {
          end := |data|;
        }
        SliceInRange(plan, part, |data|);
        puts := puts + [Put(part.url, data[start..end])];
        if !put(k) {
          return Some(PutFailed), puts;
        }
      }
      failure := None;
    case UnknownMode =>
      failure := Some(UnknownUploadMode);
  }

  // ------------------------------------------------------------- tiling

  predicate DistinctNumbers(plan: Plan) {
    forall i, j :: 0 <= i < j < |plan.parts| ==> plan.parts[i].number != plan.parts[j].number
  }

  // How many blocks of partSize a file of this size has.
  function Blocks(size: nat, partSize: int): nat
    requires partSize > 0
  {
    (size + partSize - 1) / partSize
  }

  predicate Covers(plan: Plan, k: nat, size: nat, i: nat)
    requires k < |plan.parts|
  {
    Start(plan, plan.parts[k]) <= i < End(plan, plan.parts[k], size)
  }

  // Byte i belongs to block i / partSize, and a part covers exactly its own block.
  lemma {:induction false} CoversBlock(plan: Plan, k: nat, size: nat, i: nat)
    requires plan.partSize > 0 && k < |plan.parts| && i < size
    ensures Covers(plan, k, size, i) <==> plan.parts[k].number - 1 == i / plan.partSize
  {
    var n, p := plan.parts[k].number - 1, plan.partSize;
    var q := i / p;
    assert q * p <= i < q * p + p;
    if n < q {
      assert (n + 1) * p <= q * p;
    } else if n > q {
      assert n * p >= (q + 1) * p;
    }
  }

  lemma {:induction false} BlockRange(size: nat, partSize: int, n: int)
    requires partSize > 0 && size > 0
    ensures 0 <= (n - 1) * partSize < size <==> 1 <= n <= Blocks(size, partSize)
  {
    var blocks := Blocks(size, partSize);
    assert blocks * partSize <= size + partSize - 1 < blocks * partSize + partSize;
    if n < 1 {
      Scaled(n - 1, -1, partSize);
    } else if n <= blocks {
      Scaled(0, n - 1, partSize);
      Scaled(n - 1, blocks - 1, partSize);
      assert (blocks - 1) * partSize == blocks * partSize - partSize;
    } else {
      Scaled(blocks, n - 1, partSize);
    }
  }

  lemma Scaled(a: int, b: int, size: int)
    requires a <= b && size > 0
    ensures a * size <= b * size
  {
  }

  // The uploaded slices are pairwise disjoint.
  lemma {:induction false} SlicesDisjoint(plan: Plan, data: Str, j: nat, k: nat, i: nat)
    requires Accepted(plan, |data|) && DistinctNumbers(plan)
    requires j < |plan.parts| && k < |plan.parts| && j != k && i < |data|
    ensures !(Covers(plan, j, |data|, i) && Covers(plan, k, |data|, i))
  {
    CoversBlock(plan, j, |data|, i);
    CoversBlock(plan, k, |data|, i);
  }

  function Numbers(parts: seq<Part>): (numbers: set<int>)
    ensures forall k :: 0 <= k < |parts| ==> parts[k].number in numbers
  {
    if parts == [] then {} else Numbers(parts[..|parts| - 1]) + {parts[|parts| - 1].number}
  }

  lemma {:induction false} NumberAt(parts: seq<Part>, n: int) returns (k: nat)
    requires n in Numbers(parts)
    ensures k < |parts| && parts[k].number == n
  {
    k := |parts| - 1;
    if parts[k].number != n {
      k := NumberAt(parts[..|parts| - 1], n);
    }
  }

  lemma {:induction false} NumbersCount(parts: seq<Part>)
    requires forall i, j :: 0 <= i < j < |parts| ==> parts[i].number != parts[j].number
    ensures |Numbers(parts)| == |parts|
  {
    if parts != [] {
      var init, last := parts[..|parts| - 1], parts[|parts| - 1];
      NumbersCount(init);
      if last.number in Numbers(init) {
        var k := NumberAt(init, last.number);
        assert false;
      }
    }
  }

  function UpTo(n: nat): (numbers: set<int>)
    ensures forall k :: k in numbers <==> 1 <= k <= n
    ensures |numbers| == n
  {
    if n == 0 then {} else UpTo(n - 1) + {n}
  }

  lemma SubsetSameSize(a: set<int>, b: set<int>)
    requires a <= b && |a| == |b|
    ensures a == b
  {
    assert |b - a| == |b| - |a|;
    assert b == a + (b - a);
  }

  predicate Covered(plan: Plan, size: nat, i: nat) {
    exists k :: 0 <= k < |plan.parts| && Covers(plan, k, size, i)
  }

  ghost predicate Tiles(plan: Plan, size: nat) {
    forall i: nat :: i < size ==> Covered(plan, size, i)
  }

  lemma {:induction false} AcceptedNumbers(plan: Plan, size: nat)
    requires Accepted(plan, size) && DistinctNumbers(plan)
    ensures size > 0 && Numbers(plan.parts) <= UpTo(Blocks(size, plan.partSize))
    ensures |Numbers(plan.parts)| == |plan.parts|
  {
    NumbersCount(plan.parts);
    assert PartOk(plan, plan.parts[0], size);
    SliceInRange(plan, plan.parts[0], size);
    forall n | n in Numbers(plan.parts) ensures n in UpTo(Blocks(size, plan.partSize)) {
      var k := NumberAt(plan.parts, n);
      assert PartOk(plan, plan.parts[k], size);
      SliceInRange(plan, plan.parts[k], size);
      BlockRange(size, plan.partSize, n);
    }
  }

  // The block number of a byte is one of the file's.
  lemma BlockOf(size: nat, partSize: int, i: nat) returns (n: int)
    requires partSize > 0 && i < size
    ensures n == i / partSize + 1 && n in UpTo(Blocks(size, partSize))
  {
    n := i / partSize + 1;
    assert 0 <= (n - 1) * partSize <= i;
    BlockRange(size, partSize, n);
  }

  lemma AllBlocksTile(plan: Plan, size: nat)
    requires Accepted(plan, size) && Numbers(plan.parts) == UpTo(Blocks(size, plan.partSize))
    ensures Tiles(plan, size)
  {
    forall i: nat | i < size ensures Covered(plan, size, i) {
      var n := BlockOf(size, plan.partSize, i);
      var k := NumberAt(plan.parts, n);
      CoversBlock(plan, k, size, i);
    }
  }

  lemma TilingHasBlock(plan: Plan, size: nat, n: int)
    requires plan.partSize > 0 && Tiles(plan, size) && 0 <= (n - 1) * plan.partSize < size
    ensures n in Numbers(plan.parts)
  {
    var i: nat := (n - 1) * plan.partSize;
    assert Covered(plan, size, i);
    var k :| 0 <= k < |plan.parts| && Covers(plan, k, size, i);
    SameBlock(plan.parts[k].number, n, plan.partSize);
  }

  lemma TilingHasAllBlocks(plan: Plan, size: nat)
    requires Accepted(plan, size) && size > 0 && Tiles(plan, size)
    ensures UpTo(Blocks(size, plan.partSize)) <= Numbers(plan.parts)
  {
    forall n | n in UpTo(Blocks(size, plan.partSize)) ensures n in Numbers(plan.parts) {
      BlockRange(size, plan.partSize, n);
      TilingHasBlock(plan, size, n);
    }
  }

  lemma SameBlock(m: int, n: int, p: int)
    requires p > 0 && (m - 1) * p <= (n - 1) * p < (m - 1) * p + p
    ensures m == n
  {
    var d := n - m;
    assert d * p == (n - 1) * p - (m - 1) * p;
    assert 0 <= d * p < p;
  }

  // An accepted plan of distinct parts uploads every byte exactly when it has one part per block.
  lemma TilesIffEnoughParts(plan: Plan, size: nat)
    requires Accepted(plan, size) && DistinctNumbers(plan)
    ensures Tiles(plan, size) <==> |plan.parts| == Blocks(size, plan.partSize)
  {
    AcceptedNumbers(plan, size);
    var blocks := Blocks(size, plan.partSize);
    if Tiles(plan, size) {
      TilingHasAllBlocks(plan, size);
      assert Numbers(plan.parts) == UpTo(blocks);
    }
    if |plan.parts| == blocks {
      SubsetSameSize(Numbers(plan.parts), UpTo(blocks));
      AllBlocksTile(plan, size);
    }
  }

  // Block n of the file, and the blocks laid end to end.
  function Block(data: Str, partSize: int, n: nat): Str
    requires partSize > 0 && n >= 1 && (n - 1) * partSize < |data|
  {
    assert (n - 1) * partSize >= 0;
    data[(n - 1) * partSize..if n * partSize > |data| then |data| else n * partSize]
  }

  function Assemble(data: Str, partSize: int, n: nat): Str
    requires partSize > 0 && (n > 0 ==> (n - 1) * partSize < |data|)
  {
    if n == 0 then []
    else
      assert (n - 2) * partSize <= (n - 1) * partSize;
      Assemble(data, partSize, n - 1) + Block(data, partSize, n)
  }

  // A server that joins the parts by number gets the file back.
  lemma {:induction false} AssembleIsPrefix(data: Str, partSize: int, n: nat)
    requires partSize > 0 && (n > 0 ==> (n - 1) * partSize < |data|)
    ensures n * partSize >= 0
    ensures Assemble(data, partSize, n) == data[..if n * partSize > |data| then |data| else n * partSize]
  {
    assert n * partSize >= 0;
    if n > 0 {
      assert (n - 2) * partSize <= (n - 1) * partSize;
      AssembleIsPrefix(data, partSize, n - 1);
      assert n * partSize == (n - 1) * partSize + partSize;
    }
  }

  lemma PartIsBlock(plan: Plan, data: Str, k: nat)
    requires Accepted(plan, |data|) && k < |plan.parts|
    ensures PartOk(plan, plan.parts[k], |data|)
    ensures Upload(plan, data, k).url == plan.parts[k].url
    ensures Upload(plan, data, k).data == Block(data, plan.partSize, plan.parts[k].number)
  {
    assert PartOk(plan, plan.parts[k], |data|);
    var n := plan.parts[k].number;
    assert (n - 1) * plan.partSize + plan.partSize == n * plan.partSize;
  }

  lemma {:induction false} PartsReassemble(data: Str, partSize: int)
    requires partSize > 0 && data != []
    ensures var n := Blocks(|data|, partSize);
            n >= 1 && (n - 1) * partSize < |data| && Assemble(data, partSize, n) == data
  {
    var n := Blocks(|data|, partSize);
    BlockRange(|data|, partSize, 1);
    BlockRange(|data|, partSize, n);
    AssembleIsPrefix(data, partSize, n);
    assert n * partSize + partSize > |data| + partSize - 1;
  }
}
