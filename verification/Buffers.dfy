/** Per-fid byte buffers: offset writes that are acted on at close, and snapshots served by slices. */
module Buffers {
  import opened Bytes
  import opened Wrappers

  const U64: nat := 0x1_0000_0000_0000_0000
  const COMMAND_LIMIT: nat := 0x8000
  const SEND_LIMIT: nat := 0x400_0000

  datatype Mode = ReadOnly | WriteOnly | ReadWrite | Execute

  // ------------------------------------------------------------- reads

  // The 64-bit end of a read does not wrap for offsets and counts of a file protocol.
  function Slice(data: Str, offset: nat, count: nat): Str
    requires offset + count < U64
  {
    if offset >= |data| then []
    else data[offset..if offset + count > |data| then |data| else offset + count]
  }

  function Total(counts: seq<nat>): nat {
    if counts == [] then 0 else counts[0] + Total(counts[1..])
  }

  // A client that asks for one count after another, moving on by what it gets.
  function ReadThrough(data: Str, offset: nat, counts: seq<nat>): Str
    requires offset + Total(counts) < U64 && offset <= |data|
    decreases |counts|
  {
    if counts == [] then []
    else
      var got := Slice(data, offset, counts[0]);
      got + ReadThrough(data, offset + |got|, counts[1..])
  }

  // A slice is the data's bytes from the offset on, as many as were asked for or as there are.
  lemma SliceBytes(data: Str, offset: nat, count: nat)
    requires offset + count < U64
    ensures var got := Slice(data, offset, count);
            && |got| == (if offset >= |data| then 0 else if count <= |data| - offset then count else |data| - offset)
            && forall k :: 0 <= k < |got| ==> got[k] == data[offset + k]
  {
  }

  // Successive reads hand out the snapshot in order, nothing twice and nothing skipped, up to the
  // number of bytes asked for or the end.
  lemma SliceSplit(data: Str, offset: nat, a: nat, b: nat)
    requires offset + a + b < U64 && offset <= |data|
    ensures var got := Slice(data, offset, a);
            && |got| <= a && offset + |got| <= |data|
            && Slice(data, offset, a + b) == got + Slice(data, offset + |got|, b)
  {
  }

  lemma SliceNothing(data: Str, offset: nat)
    requires offset < U64
    ensures Slice(data, offset, 0) == []
  {
  }

  lemma {:induction false} ReadsTile(data: Str, offset: nat, counts: seq<nat>)
    requires offset + Total(counts) < U64 && offset <= |data|
    ensures ReadThrough(data, offset, counts) == Slice(data, offset, Total(counts))
    decreases |counts|
  {
    hide Slice;
    SliceNothing(data, offset);
    if counts != [] {
      var got := Slice(data, offset, counts[0]);
      SliceSplit(data, offset, counts[0], Total(counts[1..]));
      ReadsTile(data, offset + |got|, counts[1..]);
    }
  }

  // A client that asks for enough bytes in all gets all of it.
  lemma ReadsAll(data: Str, counts: seq<nat>)
    requires |data| <= Total(counts) < U64
    ensures ReadThrough(data, 0, counts) == data
  {
    hide Slice;
    ReadsTile(data, 0, counts);
    SliceBytes(data, 0, Total(counts));
  }

  class SnapshotFile {
    var content: map<nat, Str>

    constructor ()
      ensures content == map[]
    {
      content := map[];
    }

    method Open(fid: nat, mode: Mode, generated: Option<Str>) returns (ok: bool)
      modifies this
      ensures ok == (!mode.WriteOnly? && !mode.ReadWrite? && generated.Some?)
      ensures content == if ok then old(content)[fid := generated.value] else old(content)
    {
      if mode.WriteOnly? || mode.ReadWrite? {
        return false;
      }
      if generated.None? {
        return false;
      }
      content := content[fid := generated.value];
      ok := true;
    }

    // A fid keeps reading the snapshot it was opened on, whatever others open or close.
    method Read(fid: nat, offset: nat, count: nat) returns (r: Option<Str>)
      requires offset + count < U64
      ensures r == if fid in content then Some(Slice(content[fid], offset, count)) else None
    {
      if fid !in content {
        return None;
      }
      var data := content[fid];
      if offset >= |data| {
        return Some([]);
      }
      var end := offset + count;
      if end > |data| {
        end := |data|;
      }
      r := Some(data[offset..end]);
    }

    method Close(fid: nat)
      modifies this
      ensures content == old(content) - {fid}
    {
      content := content - {fid};
    }
  }

  // ------------------------------------------------------------- writes

  datatype Patch = Patch(offset: nat, data: Str) {
    function End(): nat {
      offset + |data|
    }
  }

  // What a buffer should hold after some writes, said byte by byte: the last write that covers a
  // position decides it, and a position no write covers is zero.
  function Extent(writes: seq<Patch>): nat {
    if writes == [] then 0
    else
      var w := writes[|writes| - 1];
      var before := Extent(writes[..|writes| - 1]);
      if w.End() > before then w.End() else before
  }

  function ByteAt(writes: seq<Patch>, k: nat): byte {
    if writes == [] then 0
    else
      var w := writes[|writes| - 1];
      if w.offset <= k < w.End() then w.data[k - w.offset] else ByteAt(writes[..|writes| - 1], k)
  }

  function Image(writes: seq<Patch>): (image: Str) {
    seq(Extent(writes), k requires 0 <= k < Extent(writes) => ByteAt(writes, k))
  }

  function Zeros(n: nat): Str {
    seq(n, _ => 0)
  }

  // Grow with zeros to the end of the write, then copy over.
  function WriteAt(buffer: Str, w: Patch): (after: Str)
    ensures |after| == if w.End() > |buffer| then w.End() else |buffer|
  {
    var grown := if w.End() > |buffer| then buffer + Zeros(w.End() - |buffer|) else buffer;
    grown[..w.offset] + w.data + grown[w.End()..]
  }

  lemma {:induction false} BeyondExtent(writes: seq<Patch>, k: nat)
    requires k >= Extent(writes)
    ensures ByteAt(writes, k) == 0
  {
    if writes != [] {
      BeyondExtent(writes[..|writes| - 1], k);
    }
  }

  lemma WriteAtImage(writes: seq<Patch>, w: Patch)
    ensures WriteAt(Image(writes), w) == Image(writes + [w])
  {
    var all := writes + [w];
    assert all[..|all| - 1] == writes;
    var got := WriteAt(Image(writes), w);
    forall k | 0 <= k < |got| ensures got[k] == ByteAt(all, k) {
      if k >= Extent(writes) {
        BeyondExtent(writes, k);
      }
    }
  }

  datatype WriteError = NotOpen | TooLong

  method PutAt(buffer: Str, offset: nat, data: Str) returns (after: Str)
    ensures after == WriteAt(buffer, Patch(offset, data))
  {
    var end := offset + |data|;
    after := buffer;
    if end > |after| {
      after := after + Zeros(end - |after|);
    }
    after := after[..offset] + data + after[end..];
  }

  // A file whose writes are collected per fid and acted on when the fid is closed: send and commands.
  class CommandFile {
    const limit: nat
    var buffers: map<nat, Str>
    ghost var accepted: map<nat, seq<Patch>>

    ghost predicate Valid()
      reads this
    {
      && buffers.Keys == accepted.Keys
      && forall fid :: fid in buffers ==> buffers[fid] == Image(accepted[fid]) && |buffers[fid]| <= limit
    }

    constructor ForCommands()
      ensures Valid() && limit == 32 * 1024 && buffers == map[]
    {
      limit, buffers, accepted := COMMAND_LIMIT, map[], map[];
    }

    constructor ForSending()
      ensures Valid() && limit == 64 * 1024 * 1024 && buffers == map[]
    {
      limit, buffers, accepted := SEND_LIMIT, map[], map[];
    }

    method Open(fid: nat, mode: Mode) returns (ok: bool)
      requires Valid()
      modifies this
      ensures Valid() && ok == (mode.WriteOnly? || mode.ReadWrite?)
      ensures buffers == if ok then old(buffers)[fid := []] else old(buffers)
      ensures accepted == if ok then old(accepted)[fid := []] else old(accepted)
    {
      if !mode.WriteOnly? && !mode.ReadWrite? {
        return false;
      }
      buffers, accepted := buffers[fid := []], accepted[fid := []];
      ok := true;
    }

    // Valid says what the buffer holds after any run of accepted writes; a refused one changes nothing.
    method Write(fid: nat, offset: nat, data: Str) returns (r: Result<nat, WriteError>)
      requires Valid() && offset + |data| < U64
      modifies this
      ensures Valid()
      ensures r == if fid !in old(buffers) then Err(NotOpen)
                   else if offset + |data| > limit then Err(TooLong)
                   else Ok(|data|)
      ensures r.Err? ==> buffers == old(buffers) && accepted == old(accepted)
      ensures r.Ok? ==> accepted == old(accepted)[fid := old(accepted)[fid] + [Patch(offset, data)]]
      ensures r.Ok? ==> buffers == old(buffers)[fid := Image(accepted[fid])]
    {
      if fid !in buffers {
        return Err(NotOpen);
      }
      var end := offset + |data|;
      if end > limit {
        return Err(TooLong);
      }
      WriteAtImage(accepted[fid], Patch(offset, data));
      var buffer := PutAt(buffers[fid], offset, data);
      buffers := buffers[fid := buffer];
      accepted := accepted[fid := accepted[fid] + [Patch(offset, data)]];
      r := Ok(|data|);
    }

    // Closing hands over the collected bytes once.
    method Close(fid: nat) returns (data: Option<Str>)
      requires Valid()
      modifies this
      ensures Valid() && buffers == old(buffers) - {fid}
      ensures data == if fid in old(buffers) then Some(Image(old(accepted)[fid])) else None
    {
      data := if fid in buffers then Some(buffers[fid]) else None;
      buffers, accepted := buffers - {fid}, accepted - {fid};
    }
  }

  // A setting is opened either to read its current value or to write a new one.
  class SettingFile {
    const limit: nat
    var loads: map<nat, Str>
    var writes: map<nat, Str>
    ghost var accepted: map<nat, seq<Patch>>

    ghost predicate Valid()
      reads this
    {
      && writes.Keys == accepted.Keys
      && forall fid :: fid in writes ==> writes[fid] == Image(accepted[fid]) && |writes[fid]| <= limit
    }

    constructor (limit: nat)
      ensures Valid() && this.limit == limit && loads == map[] && writes == map[]
    {
      this.limit, loads, writes, accepted := limit, map[], map[], map[];
    }

    method Open(fid: nat, mode: Mode, loaded: Option<Str>) returns (ok: bool)
      requires Valid()
      modifies this
      ensures Valid() && ok == (mode.WriteOnly? || (mode.ReadOnly? && loaded.Some?))
      ensures loads == if ok && mode.ReadOnly? then old(loads)[fid := loaded.value] else old(loads)
      ensures writes == if mode.WriteOnly? then old(writes)[fid := []] else old(writes)
      ensures accepted == if mode.WriteOnly? then old(accepted)[fid := []] else old(accepted)
    {
      match mode
      case ReadOnly =>
        ok := loaded.Some?;
        if ok {
          loads := loads[fid := loaded.value];
        }
      case WriteOnly =>
        writes, accepted := writes[fid := []], accepted[fid := []];
        ok := true;
      case ReadWrite => ok := false;
      case Execute => ok := false;
    }

    method Write(fid: nat, offset: nat, data: Str) returns (r: Result<nat, WriteError>)
      requires Valid() && offset + |data| < U64
      modifies this`writes, this`accepted
      ensures Valid()
      ensures r == if fid !in old(writes) then Err(NotOpen)
                   else if offset + |data| > limit then Err(TooLong)
                   else Ok(|data|)
      ensures r.Err? ==> writes == old(writes) && accepted == old(accepted)
      ensures r.Ok? ==> accepted == old(accepted)[fid := old(accepted)[fid] + [Patch(offset, data)]]
      ensures r.Ok? ==> writes == old(writes)[fid := Image(accepted[fid])]
    {
      if fid !in writes {
        return Err(NotOpen);
      }
      if offset + |data| > limit {
        return Err(TooLong);
      }
      WriteAtImage(accepted[fid], Patch(offset, data));
      var buffer := PutAt(writes[fid], offset, data);
      writes := writes[fid := buffer];
      accepted := accepted[fid := accepted[fid] + [Patch(offset, data)]];
      r := Ok(|data|);
    }

    method Close(fid: nat) returns (data: Option<Str>)
      requires Valid()
      modifies this
      ensures Valid() && writes == old(writes) - {fid} && loads == old(loads) - {fid}
      ensures data == if fid in old(writes) then Some(Image(old(accepted)[fid])) else None
    {
      data := if fid in writes then Some(writes[fid]) else None;
      writes, loads, accepted := writes - {fid}, loads - {fid}, accepted - {fid};
    }
  }

  // Writes of consecutive pieces from offset zero put the pieces end to end.
  function Consecutive(pieces: seq<Str>): seq<Patch> {
    if pieces == [] then []
    else
      var init := pieces[..|pieces| - 1];
      Consecutive(init) + [Patch(|Joined(init)|, pieces[|pieces| - 1])]
  }

  function Joined(pieces: seq<Str>): Str {
    if pieces == [] then [] else Joined(pieces[..|pieces| - 1]) + pieces[|pieces| - 1]
  }

  // So what a client writes front to back is what the close acts on.
  lemma {:induction false} SequentialWrites(pieces: seq<Str>)
    ensures Image(Consecutive(pieces)) == Joined(pieces)
  {
    if pieces != [] {
      var init, last := pieces[..|pieces| - 1], pieces[|pieces| - 1];
      SequentialWrites(init);
      WriteAtImage(Consecutive(init), Patch(|Joined(init)|, last));
      var before := Joined(init);
      var w := Patch(|before|, last);
      var grown := if w.End() > |before| then before + Zeros(w.End() - |before|) else before;
      assert grown[..w.offset] == before && grown[w.End()..] == [];
    }
  }
}
