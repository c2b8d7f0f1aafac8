/**
 * One subscription as its publisher and its reader see it: a bounded queue, a drop counter and
 * the records the reader renders. The two run concurrently; an action is one atomic step of either.
 *
 * Hub.publish is a select followed by a separate counter increment. Publish takes the two as one
 * step; Select and Count take them apart, so a run says which granularity it uses.
 */
module EventStreams {
  import opened Bytes
  import opened Wrappers

  const CAPACITY: nat := 1024

  datatype Event =
    | MessageEvent(kind: Str, sequence: int, channel: Str, id: Str, body: Str)
    | GapNotice(channel: Str, reason: Str)

  // The renderer, as library output: an event or a (count, clock) pair to bytes.
  datatype Format = Format(event: Event -> Str, gap: (nat, int) -> Str)

  ghost predicate Rendering(f: Format) {
    (forall e :: f.event(e) != []) && (forall n, now :: f.gap(n, now) != [])
  }

  datatype Record = Delivered(index: nat) | GapReport(count: nat, now: int)

  // offered, lost, out and returned are history; the rest is the state of the program.
  datatype Stream = Stream(
    offered: seq<Event>,
    queue: seq<nat>,
    counting: bool,
    dropped: nat,
    lost: seq<nat>,
    closed: bool,
    armed: bool,
    out: seq<Record>,
    pending: Str,
    returned: Str)

  const FRESH := Stream([], [], false, 0, [], false, false, [], [], [])

  datatype Action =
    | Publish(event: Event)
    | Select(event: Event)
    | Count
    | Close
    | Swap(now: int)
    | Receive
    | EndOfFile
    | Return(count: nat)

  predicate Enabled(s: Stream, a: Action) {
    match a
    case Publish(_) => !s.closed && !s.counting
    case Select(_) => !s.closed && !s.counting
    case Count => s.counting
    case Close => !s.closed && !s.counting
    case Swap(_) => s.pending == [] && !s.armed
    case Receive => s.armed && s.queue != []
    case EndOfFile => s.armed && s.queue == [] && s.closed
    case Return(_) => s.pending != []
  }

  function Offer(s: Stream, e: Event, counted: bool): Stream {
    var i := |s.offered|;
    if |s.queue| < CAPACITY then
      s.(offered := s.offered + [e], queue := s.queue + [i])
    else if counted then
      s.(offered := s.offered + [e], lost := s.lost + [i], dropped := s.dropped + 1)
    else
      s.(offered := s.offered + [e], lost := s.lost + [i], counting := true)
  }

  function Step(f: Format, s: Stream, a: Action): Stream
    requires Enabled(s, a)
  {
    match a
    case Publish(e) => Offer(s, e, true)
    case Select(e) => Offer(s, e, false)
    case Count => s.(dropped := s.dropped + 1, counting := false)
    case Close => s.(closed := true)
    case Swap(now) =>
      if s.dropped > 0 then
        s.(out := s.out + [GapReport(s.dropped, now)], pending := f.gap(s.dropped, now), dropped := 0)
      else
        s.(armed := true)
    case Receive =>
      var r := Delivered(s.queue[0]);
      s.(out := s.out + [r], queue := s.queue[1..], pending := TextOf(f, s.offered, r), armed := false)
    case EndOfFile => s.(armed := false)
    case Return(count) =>
      var n := if count < |s.pending| then count else |s.pending|;
      s.(returned := s.returned + s.pending[..n], pending := s.pending[n..])
  }

  function Run(f: Format, s: Stream, actions: seq<Action>): Option<Stream>
    decreases |actions|
  {
    if actions == [] then Some(s)
    else if !Enabled(s, actions[0]) then None
    else Run(f, Step(f, s, actions[0]), actions[1..])
  }

  // publish is taken as one step throughout.
  predicate OneStep(actions: seq<Action>) {
    forall k :: 0 <= k < |actions| ==> !actions[k].Select? && !actions[k].Count?
  }

  // ------------------------------------------------------------- readings of a history

  function DeliveredIn(out: seq<Record>): seq<nat> {
    if out == [] then []
    else
      var r := out[|out| - 1];
      DeliveredIn(out[..|out| - 1]) + if r.Delivered? then [r.index] else []
  }

  // Drops the GAP records have told the reader about.
  function Reported(out: seq<Record>): nat {
    if out == [] then 0
    else
      var r := out[|out| - 1];
      Reported(out[..|out| - 1]) + if r.GapReport? then r.count else 0
  }

  function TextOf(f: Format, offered: seq<Event>, r: Record): Str {
    if r.GapReport? then f.gap(r.count, r.now)
    else if r.index < |offered| then f.event(offered[r.index])
    else []
  }

  function Text(f: Format, offered: seq<Event>, out: seq<Record>): Str {
    if out == [] then []
    else
      var r := out[|out| - 1];
      Text(f, offered, out[..|out| - 1]) + TextOf(f, offered, r)
  }

  predicate Increasing(s: seq<nat>) {
    forall i, j :: 0 <= i < j < |s| ==> s[i] < s[j]
  }

  lemma AppendRecord(f: Format, offered: seq<Event>, out: seq<Record>, r: Record)
    ensures DeliveredIn(out + [r]) == DeliveredIn(out) + if r.Delivered? then [r.index] else []
    ensures Reported(out + [r]) == Reported(out) + if r.GapReport? then r.count else 0
    ensures Text(f, offered, out + [r]) == Text(f, offered, out) + TextOf(f, offered, r)
  {
    assert (out + [r])[..|out|] == out;
    assert [r][..0] == [];
  }

  lemma {:induction false} TextStable(f: Format, offered: seq<Event>, e: Event, out: seq<Record>)
    requires forall k :: 0 <= k < |out| && out[k].Delivered? ==> out[k].index < |offered|
    ensures Text(f, offered + [e], out) == Text(f, offered, out)
  {
    if out != [] {
      TextStable(f, offered, e, out[..|out| - 1]);
    }
  }

  lemma {:induction false} ReportedPrefix(out: seq<Record>, k: nat)
    requires k <= |out|
    ensures Reported(out[..k]) <= Reported(out)
  {
    if k < |out| {
      ReportedPrefix(out[..|out| - 1], k);
      assert out[..|out| - 1][..k] == out[..k];
    } else {
      assert out[..k] == out;
    }
  }

  lemma {:induction false} DeliveredMember(out: seq<Record>, k: nat)
    requires k < |out| && out[k].Delivered?
    ensures out[k].index in DeliveredIn(out)
  {
    if k < |out| - 1 {
      DeliveredMember(out[..|out| - 1], k);
    }
  }

  // ------------------------------------------------------------- conservation

  // Everything kept: delivered, then still queued.
  function Kept(s: Stream): seq<nat> {
    DeliveredIn(s.out) + s.queue
  }

  ghost predicate Sound(s: Stream) {
    && |s.queue| <= CAPACITY
    && Increasing(Kept(s)) && Increasing(s.lost)
    && (forall i: nat :: i < |s.offered| <==> i in Kept(s) || i in s.lost)
    && (forall i: nat :: !(i in Kept(s) && i in s.lost))
    && |Kept(s)| + |s.lost| == |s.offered|
    && Reported(s.out) + s.dropped + (if s.counting then 1 else 0) == |s.lost|
    && (s.counting ==> s.lost[|s.lost| - 1] == |s.offered| - 1)
    && (s.armed ==> s.pending == [])
  }

  // pending is the unread tail of the last record alone, so no answer spans two records.
  ghost predicate Faithful(f: Format, s: Stream) {
    && s.returned + s.pending == Text(f, s.offered, s.out)
    && (s.pending != [] ==> s.out != [] && IsSuffix(s.pending, TextOf(f, s.offered, s.out[|s.out| - 1])))
  }

  predicate IsSuffix(tail: Str, text: Str) {
    |tail| <= |text| && text[|text| - |tail|..] == tail
  }

  lemma IncreasingAppend(s: seq<nat>, x: nat)
    requires Increasing(s) && (forall i :: i in s ==> i < x)
    ensures Increasing(s + [x])
  {
    forall i, j | 0 <= i < j < |s + [x]| ensures (s + [x])[i] < (s + [x])[j] {
      assert s[i] in s;
    }
  }

  lemma OfferSound(s: Stream, e: Event, counted: bool)
    requires Sound(s) && !s.counting
    ensures Sound(Offer(s, e, counted))
  {
    hide DeliveredIn, Reported, Text, TextOf;
    var n := |s.offered|;
    var t := Offer(s, e, counted);
    if |s.queue| < CAPACITY {
      assert Kept(t) == Kept(s) + [n];
      IncreasingAppend(Kept(s), n);
    } else {
      assert Kept(t) == Kept(s);
      IncreasingAppend(s.lost, n);
    }
  }

  lemma SwapSound(f: Format, s: Stream, now: int)
    requires Sound(s) && Enabled(s, Swap(now))
    ensures Sound(Step(f, s, Swap(now)))
  {
    hide DeliveredIn, Reported, Text, TextOf;
    AppendRecord(f, s.offered, s.out, GapReport(s.dropped, now));
    assert Kept(Step(f, s, Swap(now))) == Kept(s);
  }

  lemma ReceiveSound(f: Format, s: Stream)
    requires Sound(s) && Enabled(s, Receive)
    ensures Sound(Step(f, s, Receive))
  {
    hide DeliveredIn, Reported, Text, TextOf;
    var t := Step(f, s, Receive);
    AppendRecord(f, s.offered, s.out, Delivered(s.queue[0]));
    assert s.queue == [s.queue[0]] + s.queue[1..];
    assert Kept(t) == Kept(s);
  }

  lemma StepSound(f: Format, s: Stream, a: Action)
    requires Sound(s) && Enabled(s, a)
    ensures Sound(Step(f, s, a))
  {
    match a
    case Publish(e) => OfferSound(s, e, true);
    case Select(e) => OfferSound(s, e, false);
    case Swap(now) => SwapSound(f, s, now);
    case Receive => ReceiveSound(f, s);
    case _ => assert Kept(Step(f, s, a)) == Kept(s);
  }

  lemma OutInRange(s: Stream)
    requires Sound(s)
    ensures forall k :: 0 <= k < |s.out| && s.out[k].Delivered? ==> s.out[k].index < |s.offered|
    ensures forall k :: 0 <= k < |s.queue| ==> s.queue[k] < |s.offered|
    ensures forall k :: 0 <= k < |s.lost| ==> s.lost[k] < |s.offered|
  {
    forall k | 0 <= k < |s.out| && s.out[k].Delivered? ensures s.out[k].index < |s.offered| {
      DeliveredMember(s.out, k);
      assert s.out[k].index in Kept(s);
    }
    forall k | 0 <= k < |s.queue| ensures s.queue[k] < |s.offered| {
      assert s.queue[k] in Kept(s);
    }
    forall k | 0 <= k < |s.lost| ensures s.lost[k] < |s.offered| {
      assert s.lost[k] in s.lost;
    }
  }

  lemma RenderFaithful(f: Format, s: Stream, r: Record)
    requires Faithful(f, s) && s.pending == []
    ensures Faithful(f, s.(out := s.out + [r], pending := TextOf(f, s.offered, r)))
  {
    hide DeliveredIn, Reported, Text, Increasing;
    AppendRecord(f, s.offered, s.out, r);
    assert s.returned + s.pending == s.returned;
  }

  lemma OfferFaithful(f: Format, s: Stream, e: Event, counted: bool)
    requires Sound(s) && Faithful(f, s)
    ensures Faithful(f, Offer(s, e, counted))
  {
    hide DeliveredIn, Reported, Text, Increasing;
    OutInRange(s);
    TextStable(f, s.offered, e, s.out);
  }

  lemma ReturnFaithful(f: Format, s: Stream, count: nat)
    requires Faithful(f, s) && s.pending != []
    ensures Faithful(f, Step(f, s, Return(count)))
  {
    var n := if count < |s.pending| then count else |s.pending|;
    var given, kept := s.pending[..n], s.pending[n..];
    assert s.pending == given + kept;
    assert s.returned + given + kept == s.returned + s.pending;
    SuffixOfSuffix(kept, s.pending, TextOf(f, s.offered, s.out[|s.out| - 1]));
  }

  lemma SuffixOfSuffix(a: Str, b: Str, c: Str)
    requires IsSuffix(a, b) && IsSuffix(b, c)
    ensures IsSuffix(a, c)
  {
  }

  lemma {:induction false} StepFaithful(f: Format, s: Stream, a: Action)
    requires Sound(s) && Faithful(f, s) && Enabled(s, a)
    ensures Faithful(f, Step(f, s, a))
  {
    hide DeliveredIn, Reported, Text, Increasing;
    match a
    case Publish(e) => OfferFaithful(f, s, e, true);
    case Select(e) => OfferFaithful(f, s, e, false);
    case Swap(now) => RenderFaithful(f, s, GapReport(s.dropped, now));
    case Receive => RenderFaithful(f, s, Delivered(s.queue[0]));
    case Return(count) => ReturnFaithful(f, s, count);
    case _ =>
  }

  lemma {:induction false} RunSound(f: Format, s: Stream, actions: seq<Action>)
    requires Sound(s) && Faithful(f, s) && Run(f, s, actions).Some?
    ensures Sound(Run(f, s, actions).value) && Faithful(f, Run(f, s, actions).value)
    decreases |actions|
  {
    if actions != [] {
      StepSound(f, s, actions[0]);
      StepFaithful(f, s, actions[0]);
      RunSound(f, Step(f, s, actions[0]), actions[1..]);
    }
  }

  lemma FreshSound(f: Format)
    ensures Sound(FRESH) && Faithful(f, FRESH)
  {
  }

  // Every event offered is delivered, queued, told to the reader as dropped, or counted for it,
  // at either granularity; what is delivered is offered[i] for rising i.
  lemma Conservation(f: Format, actions: seq<Action>, s: Stream)
    requires Run(f, FRESH, actions) == Some(s)
    ensures |s.offered| ==
            |DeliveredIn(s.out)| + |s.queue| + Reported(s.out) + s.dropped + (if s.counting then 1 else 0)
    ensures Increasing(DeliveredIn(s.out) + s.queue)
    ensures forall i: nat :: i < |s.offered| <==> i in DeliveredIn(s.out) + s.queue || i in s.lost
    ensures forall i: nat :: !(i in DeliveredIn(s.out) + s.queue && i in s.lost)
    ensures |s.queue| <= CAPACITY
  {
    FreshSound(f);
    RunSound(f, FRESH, actions);
  }

  // Bytes handed out, plus the bytes waiting, are the rendered records laid end to end, and the
  // bytes waiting belong to the last of them.
  lemma LiveByteStream(f: Format, actions: seq<Action>, s: Stream)
    requires Run(f, FRESH, actions) == Some(s)
    ensures s.returned + s.pending == Text(f, s.offered, s.out)
    ensures s.pending != [] ==> s.out != [] && IsSuffix(s.pending, TextOf(f, s.offered, s.out[|s.out| - 1]))
  {
    FreshSound(f);
    RunSound(f, FRESH, actions);
  }
}
