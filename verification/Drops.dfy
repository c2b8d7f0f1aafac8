/** When an event is dropped and what its reader is told, step by step and over whole runs. */
module Drops {
  import opened Bytes
  import opened Wrappers
  import opened EventStreams
  import opened GapPlacement

  // ------------------------------------------------------------- one offer

  // What an offer does when it comes on a queue this long: it is kept while there is room for it.
  ghost predicate Taken(s: Stream, t: Stream, e: Event) {
    t == s.(offered := s.offered + [e], queue := s.queue + [|s.offered|])
  }

  ghost predicate Missed(s: Stream, t: Stream, e: Event) {
    && t.offered == s.offered + [e] && t.queue == s.queue && t.lost == s.lost + [|s.offered|]
    && t.out == s.out && t.pending == s.pending && t.returned == s.returned
    && t.closed == s.closed && t.armed == s.armed
  }

  // In one step an event is queued where fewer than 1024 wait, and counted as a drop where 1024 do.
  lemma PublishMeaning(f: Format, s: Stream, e: Event)
    requires Sound(s) && Enabled(s, Publish(e))
    ensures |s.queue| < 1024 <==> Taken(s, Step(f, s, Publish(e)), e)
    ensures |s.queue| == 1024 <==> Missed(s, Step(f, s, Publish(e)), e)
    ensures |s.queue| == 1024 ==> Step(f, s, Publish(e)).dropped == s.dropped + 1 && !Step(f, s, Publish(e)).counting
  {
    hide Increasing, Reported, DeliveredIn;
    assert |s.offered + [e]| == |s.offered| + 1;
  }

  // In two steps the select decides, and the count of a drop follows.
  lemma SelectMeaning(f: Format, s: Stream, e: Event)
    requires Sound(s) && Enabled(s, Select(e))
    ensures |s.queue| < 1024 <==> Taken(s, Step(f, s, Select(e)), e)
    ensures |s.queue| == 1024 <==> Missed(s, Step(f, s, Select(e)), e)
    ensures |s.queue| == 1024 ==> Step(f, s, Select(e)).dropped == s.dropped && Enabled(Step(f, s, Select(e)), Count)
    ensures |s.queue| == 1024 ==>
              var t := Step(f, s, Select(e));
              Step(f, t, Count) == t.(dropped := s.dropped + 1, counting := false)
  {
    hide Increasing, Reported, DeliveredIn;
    assert |s.offered + [e]| == |s.offered| + 1;
  }

  // ------------------------------------------------------------- over a run

  predicate Offering(a: Action) {
    a.Publish? || a.Select?
  }

  ghost predicate Grows(s: Stream, t: Stream) {
    s.offered <= t.offered && s.lost <= t.lost && Kept(s) <= Kept(t)
  }

  lemma OfferGrows(s: Stream, e: Event, counted: bool)
    ensures Grows(s, Offer(s, e, counted)) && Offer(s, e, counted).offered == s.offered + [e]
  {
    hide DeliveredIn;
    if |s.queue| < CAPACITY {
      assert Kept(Offer(s, e, counted)) == Kept(s) + [|s.offered|];
    }
  }

  lemma ReceiveGrows(f: Format, s: Stream)
    requires Enabled(s, Receive)
    ensures Grows(s, Step(f, s, Receive)) && Step(f, s, Receive).offered == s.offered
  {
    hide DeliveredIn, Reported, TextOf, Text;
    AppendRecord(f, s.offered, s.out, Delivered(s.queue[0]));
    assert s.queue == [s.queue[0]] + s.queue[1..];
    assert Kept(Step(f, s, Receive)) == Kept(s);
  }

  lemma SwapGrows(f: Format, s: Stream, now: int)
    requires Enabled(s, Swap(now))
    ensures Grows(s, Step(f, s, Swap(now))) && Step(f, s, Swap(now)).offered == s.offered
  {
    hide DeliveredIn, Reported, TextOf, Text;
    AppendRecord(f, s.offered, s.out, GapReport(s.dropped, now));
    assert Kept(Step(f, s, Swap(now))) == Kept(s);
  }

  // Nothing that was kept or lost becomes anything else.
  lemma StepGrows(f: Format, s: Stream, a: Action)
    requires Enabled(s, a)
    ensures Grows(s, Step(f, s, a))
    ensures Step(f, s, a).offered == s.offered + if Offering(a) then [a.event] else []
  {
    hide DeliveredIn, Reported, TextOf;
    match a
    case Publish(e) => OfferGrows(s, e, true);
    case Select(e) => OfferGrows(s, e, false);
    case Receive => ReceiveGrows(f, s);
    case Swap(now) => SwapGrows(f, s, now);
    case _ =>
  }

  lemma SplitLast(f: Format, s: Stream, actions: seq<Action>, t: Stream) returns (u: Stream)
    requires actions != [] && Run(f, s, actions) == Some(t)
    ensures Run(f, s, actions[..|actions| - 1]) == Some(u)
    ensures Enabled(u, actions[|actions| - 1]) && t == Step(f, u, actions[|actions| - 1])
  {
    hide Step, Enabled;
    var n := |actions| - 1;
    assert actions == actions[..n] + [actions[n]];
    RunPrefix(f, s, actions, n);
    u := Run(f, s, actions[..n]).value;
    RunConcat(f, s, actions[..n], [actions[n]]);
    assert [actions[n]][1..] == [];
  }

  lemma {:induction false} RunPrefix(f: Format, s: Stream, actions: seq<Action>, n: nat)
    requires n <= |actions| && Run(f, s, actions).Some?
    ensures Run(f, s, actions[..n]).Some?
    decreases |actions|
  {
    hide Step, Enabled;
    if n > 0 {
      RunPrefix(f, Step(f, s, actions[0]), actions[1..], n - 1);
      assert actions[..n][1..] == actions[1..][..n - 1];
    }
  }

  // Those waiting are distinct, older than what is to come, and neither delivered nor lost.
  lemma WaitingMeaning(s: Stream)
    requires Sound(s)
    ensures Increasing(s.queue)
    ensures forall k :: 0 <= k < |s.queue| ==>
              s.queue[k] < |s.offered| && s.queue[k] !in DeliveredIn(s.out) && s.queue[k] !in s.lost
  {
    var d := DeliveredIn(s.out);
    forall k | 0 <= k < |s.queue|
      ensures s.queue[k] < |s.offered| && s.queue[k] !in d && s.queue[k] !in s.lost
    {
      assert Kept(s)[|d| + k] == s.queue[k];
      assert s.queue[k] in Kept(s);
      forall m | 0 <= m < |d| ensures d[m] != s.queue[k] {
        assert Kept(s)[m] == d[m];
      }
    }
    forall i, j | 0 <= i < j < |s.queue| ensures s.queue[i] < s.queue[j] {
      assert Kept(s)[|d| + i] == s.queue[i] && Kept(s)[|d| + j] == s.queue[j];
    }
  }

  // Every offer was made by some step, and it is lost exactly when 1024 earlier ones, kept and not yet
  // delivered, were waiting when it came.
  lemma {:induction false} LostExactlyWhenFull(f: Format, actions: seq<Action>, s: Stream, i: nat) returns (n: nat, t: Stream)
    requires Run(f, FRESH, actions) == Some(s) && i < |s.offered|
    ensures n < |actions| && Offering(actions[n]) && actions[n].event == s.offered[i]
    ensures Run(f, FRESH, actions[..n]) == Some(t) && |t.offered| == i
    ensures i in s.lost <==> |t.queue| == 1024
    ensures Increasing(t.queue)
    ensures forall g :: g in t.queue ==> g < i && g in Kept(s) && g !in DeliveredIn(t.out)
    decreases |actions|
  {
    hide Step, Enabled, Sound, Run, DeliveredIn;
    RunNothing(f, FRESH);
    var u := SplitLast(f, FRESH, actions, s);
    var last := |actions| - 1;
    StepGrows(f, u, actions[last]);
    if i < |u.offered| {
      n, t := LostExactlyWhenFull(f, actions[..last], u, i);
      assert actions[..last][..n] == actions[..n];
      LostStays(f, actions[..last], u, actions[last], i);
      forall g | g in t.queue ensures g in Kept(s) {
        assert g in Kept(u);
      }
    } else {
      n, t := last, u;
      FreshSound(f);
      RunSound(f, FRESH, actions[..last]);
      WaitingMeaning(u);
      OfferFate(f, u, actions[last]);
      forall g | g in t.queue ensures g in Kept(s) {
        assert g in Kept(u);
      }
    }
  }

  lemma RunNothing(f: Format, s: Stream)
    ensures Run(f, s, []) == Some(s)
  {
  }

  lemma OfferFate(f: Format, s: Stream, a: Action)
    requires Sound(s) && Enabled(s, a) && Offering(a)
    ensures |s.offered| in Step(f, s, a).lost <==> |s.queue| == 1024
  {
    hide Reported, DeliveredIn, Increasing;
    if a.Publish? {
      PublishMeaning(f, s, a.event);
    } else {
      SelectMeaning(f, s, a.event);
    }
  }

  lemma LostStays(f: Format, actions: seq<Action>, u: Stream, a: Action, i: nat)
    requires Run(f, FRESH, actions) == Some(u) && Enabled(u, a) && i < |u.offered|
    ensures i in Step(f, u, a).lost <==> i in u.lost
  {
    hide Step, Enabled, DeliveredIn, Increasing, Reported;
    FreshSound(f);
    RunSound(f, FRESH, actions);
    StepSound(f, u, a);
    StepGrows(f, u, a);
    var s := Step(f, u, a);
    if i !in u.lost {
      assert i in Kept(u);
      assert i in Kept(s);
    }
  }

  // ------------------------------------------------------------- what the reader is told

  // A swap of a counter that is not zero reports that count, and else readies the reader to receive.
  lemma SwapMeaning(f: Format, s: Stream, now: int)
    requires Enabled(s, Swap(now))
    ensures var t := Step(f, s, Swap(now));
            if s.dropped > 0 then
              t == s.(dropped := 0, out := s.out + [GapReport(s.dropped, now)], pending := f.gap(s.dropped, now))
            else t == s.(armed := true)
  {
  }

  // The oldest waiting event is delivered.
  lemma ReceiveMeaning(f: Format, s: Stream)
    requires Sound(s) && Enabled(s, Receive)
    ensures s.queue[0] < |s.offered|
    ensures Step(f, s, Receive) ==
            s.(queue := s.queue[1..], armed := false, out := s.out + [Delivered(s.queue[0])],
               pending := f.event(s.offered[s.queue[0]]))
  {
    OutInRange(s);
  }

  // A read takes the front of what is pending: as many bytes as were asked for, or all there are.
  lemma ReturnMeaning(f: Format, s: Stream, count: nat)
    requires Enabled(s, Return(count))
    ensures var t := Step(f, s, Return(count));
            && t == s.(returned := t.returned, pending := t.pending)
            && t.returned + t.pending == s.returned + s.pending
            && |t.returned| == |s.returned| + (if count < |s.pending| then count else |s.pending|)
  {
    var n := if count < |s.pending| then count else |s.pending|;
    assert s.pending == s.pending[..n] + s.pending[n..];
  }

  function Joined(pieces: seq<Str>): Str {
    if pieces == [] then [] else Joined(pieces[..|pieces| - 1]) + pieces[|pieces| - 1]
  }

  // What record r is rendered as: the count that was taken, or the event that was offered.
  ghost predicate Rendered(f: Format, s: Stream, r: Record, text: Str) {
    match r
    case GapReport(count, now) => text == f.gap(count, now)
    case Delivered(i) => i < |s.offered| && text == f.event(s.offered[i])
  }

  // The bytes of a live file are the renderings of its records, in order.
  lemma LiveRecords(f: Format, actions: seq<Action>, s: Stream) returns (pieces: seq<Str>)
    requires Run(f, FRESH, actions) == Some(s)
    ensures |pieces| == |s.out| && forall k :: 0 <= k < |pieces| ==> Rendered(f, s, s.out[k], pieces[k])
    ensures s.returned + s.pending == Joined(pieces)
  {
    FreshSound(f);
    RunSound(f, FRESH, actions);
    OutInRange(s);
    pieces := Pieces(f, s, s.out);
  }

  lemma {:induction false} Pieces(f: Format, s: Stream, out: seq<Record>) returns (pieces: seq<Str>)
    requires forall k :: 0 <= k < |out| && out[k].Delivered? ==> out[k].index < |s.offered|
    ensures |pieces| == |out| && forall k :: 0 <= k < |pieces| ==> Rendered(f, s, out[k], pieces[k])
    ensures Text(f, s.offered, out) == Joined(pieces)
  {
    if out == [] {
      pieces := [];
    } else {
      var n := |out| - 1;
      var before := Pieces(f, s, out[..n]);
      pieces := before + [TextOf(f, s.offered, out[n])];
      assert pieces[..n] == before;
    }
  }
}
