/**
 * Where the GAP record that reports a drop stands among the delivered events: in front of every
 * later event when publish is one step, behind at most one of them when it is two.
 */
module GapPlacement {
  import opened Wrappers
  import opened EventStreams

  // Record k delivers an event offered after the j-th drop, and nothing before k reported that drop.
  ghost predicate Overtakes(s: Stream, k: nat, j: nat) {
    && k < |s.out| && s.out[k].Delivered?
    && j < |s.lost| && s.lost[j] < s.out[k].index
    && Reported(s.out[..k]) <= j
  }

  // ------------------------------------------------------------- one step

  // An armed reader with an unreported drop finds an event older than that drop at the head.
  ghost predicate HeadIsOlder(s: Stream) {
    s.armed && s.dropped > 0 ==>
      && s.queue != [] && Reported(s.out) < |s.lost|
      && s.queue[0] < s.lost[Reported(s.out)]
  }

  ghost predicate NothingOvertaken(s: Stream) {
    forall k, j :: !Overtakes(s, k, j)
  }

  ghost predicate Placed(s: Stream) {
    Sound(s) && !s.counting && HeadIsOlder(s) && NothingOvertaken(s)
  }

  lemma PublishPlaced(f: Format, s: Stream, e: Event)
    requires Placed(s) && !s.closed
    ensures Enabled(s, Publish(e)) && Placed(Step(f, s, Publish(e)))
  {
    hide DeliveredIn, Reported, Text, TextOf;
    var t := Step(f, s, Publish(e));
    StepSound(f, s, Publish(e));
    OutInRange(s);
    assert HeadIsOlder(t) by {
      if t.armed && t.dropped > 0 && s.dropped == 0 {
        assert s.queue[0] < |s.offered| && Reported(s.out) == |s.lost|;
      }
    }
    forall k, j ensures !Overtakes(t, k, j) {
      assert !Overtakes(s, k, j);
    }
  }

  // A record appended to out leaves the earlier positions as they were.
  lemma OutGrows(s: Stream, t: Stream, k: nat, j: nat)
    requires t.lost == s.lost && |t.out| == |s.out| + 1 && t.out[..|s.out|] == s.out && k < |s.out|
    ensures Overtakes(t, k, j) <==> Overtakes(s, k, j)
  {
    assert t.out[..k] == s.out[..k];
    assert t.out[k] == s.out[k];
  }

  lemma SwapPlaced(f: Format, s: Stream, now: int)
    requires Placed(s) && Enabled(s, Swap(now))
    ensures Placed(Step(f, s, Swap(now)))
  {
    hide DeliveredIn, Reported, Text, TextOf;
    var t := Step(f, s, Swap(now));
    StepSound(f, s, Swap(now));
    if s.dropped > 0 {
      forall k: nat, j ensures !Overtakes(t, k, j) {
        assert !Overtakes(s, k, j);
        if k < |s.out| {
          OutGrows(s, t, k, j);
        }
      }
    } else {
      forall k, j ensures !Overtakes(t, k, j) {
        assert !Overtakes(s, k, j);
      }
    }
  }

  lemma ReceivePlaced(f: Format, s: Stream)
    requires Placed(s) && Enabled(s, Receive)
    ensures Placed(Step(f, s, Receive))
  {
    hide DeliveredIn, Reported, Text, TextOf;
    var t := Step(f, s, Receive);
    StepSound(f, s, Receive);
    forall k: nat, j: nat ensures !Overtakes(t, k, j) {
      assert !Overtakes(s, k, j);
      if k < |s.out| {
        OutGrows(s, t, k, j);
      } else if k == |s.out| && j < |s.lost| && Reported(s.out) <= j {
        assert t.out[..k] == s.out;
        assert Reported(s.out) < |s.lost| && s.dropped > 0;
        assert s.lost[Reported(s.out)] <= s.lost[j];
      }
    }
  }

  lemma StepPlaced(f: Format, s: Stream, a: Action)
    requires Placed(s) && Enabled(s, a) && !a.Select? && !a.Count?
    ensures Placed(Step(f, s, a))
  {
    hide DeliveredIn, Reported, Text, TextOf;
    if a.Publish? {
      PublishPlaced(f, s, a.event);
    } else if a.Swap? {
      SwapPlaced(f, s, a.now);
    } else if a.Receive? {
      ReceivePlaced(f, s);
    } else {
      StepSound(f, s, a);
      forall k, j ensures !Overtakes(Step(f, s, a), k, j) {
        assert !Overtakes(s, k, j);
      }
    }
  }

  lemma {:induction false} RunPlaced(f: Format, s: Stream, actions: seq<Action>)
    requires Placed(s) && OneStep(actions) && Run(f, s, actions).Some?
    ensures Placed(Run(f, s, actions).value)
    decreases |actions|
  {
    if actions != [] {
      StepPlaced(f, s, actions[0]);
      RunPlaced(f, Step(f, s, actions[0]), actions[1..]);
    }
  }

  // With publish as one step no event overtakes the report of an earlier drop.
  lemma GapComesFirst(f: Format, actions: seq<Action>, s: Stream)
    requires OneStep(actions) && Run(f, FRESH, actions) == Some(s)
    ensures forall k, j :: !Overtakes(s, k, j)
  {
    RunPlaced(f, FRESH, actions);
  }

  // A reader that waits has nothing to report, and one that sees the end of the stream missed nothing.
  lemma BlockedMeansCaughtUp(f: Format, actions: seq<Action>, s: Stream)
    requires OneStep(actions) && Run(f, FRESH, actions) == Some(s)
    requires s.armed && s.queue == []
    ensures s.dropped == 0 && Reported(s.out) == |s.lost|
  {
    RunPlaced(f, FRESH, actions);
  }

  // What the reader has learnt of offer g by the time record k comes out.
  ghost predicate ToldBefore(s: Stream, g: nat, k: nat)
    requires k <= |s.out|
  {
    || (exists m :: 0 <= m < k && s.out[m] == Delivered(g))
    || (exists j :: 0 <= j < |s.lost| && s.lost[j] == g && Reported(s.out[..k]) > j)
  }

  lemma {:induction false} DeliveredPosition(out: seq<Record>, g: nat) returns (m: nat)
    requires g in DeliveredIn(out)
    ensures m < |out| && out[m] == Delivered(g)
  {
    var n := |out| - 1;
    if out[n] == Delivered(g) {
      m := n;
    } else {
      m := DeliveredPosition(out[..n], g);
    }
  }

  lemma {:induction false} DeliveredPrefix(out: seq<Record>, k: nat)
    requires k <= |out|
    ensures DeliveredIn(out[..k]) <= DeliveredIn(out)
  {
    if k < |out| {
      DeliveredPrefix(out[..|out| - 1], k);
      assert out[..|out| - 1][..k] == out[..k];
    } else {
      assert out[..k] == out;
    }
  }

  // Of two kept offers the older is delivered first.
  lemma KeptInOrder(s: Stream, g: nat, k: nat)
    requires Sound(s) && k < |s.out| && s.out[k].Delivered?
    requires g in Kept(s) && g < s.out[k].index
    ensures g in DeliveredIn(s.out[..k])
  {
    var before, i := DeliveredIn(s.out[..k]), s.out[k].index;
    assert s.out[..k + 1][..k] == s.out[..k];
    assert DeliveredIn(s.out[..k + 1]) == before + [i];
    DeliveredPrefix(s.out, k + 1);
    var kept := Kept(s);
    assert before + [i] <= kept;
    assert kept[|before|] == i;
    var p :| 0 <= p < |kept| && kept[p] == g;
    assert p < |before|;
    assert before[p] == g;
  }

  // No silent loss: when an event comes out, each earlier offer has been delivered or reported.
  lemma NoSilentLoss(f: Format, actions: seq<Action>, s: Stream, k: nat, g: nat)
    requires OneStep(actions) && Run(f, FRESH, actions) == Some(s)
    requires k < |s.out| && s.out[k].Delivered? && g < s.out[k].index
    ensures ToldBefore(s, g, k)
  {
    RunPlaced(f, FRESH, actions);
    PlacedTells(s, k, g);
  }

  lemma PlacedTells(s: Stream, k: nat, g: nat)
    requires Placed(s) && k < |s.out| && s.out[k].Delivered? && g < s.out[k].index
    ensures ToldBefore(s, g, k)
  {
    OutInRange(s);
    assert g < |s.offered|;
    if g in s.lost {
      var j :| 0 <= j < |s.lost| && s.lost[j] == g;
      assert !Overtakes(s, k, j);
    } else {
      KeptInOrder(s, g, k);
      var m := DeliveredPosition(s.out[..k], g);
      assert s.out[m] == Delivered(g);
    }
  }

  // ------------------------------------------------------------- two steps

  // Every overtaken drop is overtaken once, and never while the reader is armed.
  ghost predicate AtMostOne(s: Stream) {
    && Sound(s)
    && (forall j: nat, k: nat, m: nat :: Overtakes(s, k, j) && Overtakes(s, m, j) ==> k == m)
    && (s.armed ==> forall j: nat, k: nat :: Overtakes(s, k, j) ==> j < Reported(s.out))
  }

  // An event published after a drop follows that drop's count: publishers hold the hub lock throughout.
  lemma OvertakenIsCounted(s: Stream, k: nat, j: nat)
    requires Sound(s) && Overtakes(s, k, j)
    ensures j < Reported(s.out) + s.dropped
  {
    OutInRange(s);
  }

  lemma OfferAtMostOne(f: Format, s: Stream, a: Action)
    requires AtMostOne(s) && Enabled(s, a) && (a.Select? || a.Publish?)
    ensures AtMostOne(Step(f, s, a))
  {
    hide DeliveredIn, Reported, Text, TextOf;
    var t := Step(f, s, a);
    StepSound(f, s, a);
    OutInRange(s);
    forall k, j | Overtakes(t, k, j) ensures Overtakes(s, k, j) {
    }
  }

  lemma SwapAtMostOne(f: Format, s: Stream, now: int)
    requires AtMostOne(s) && Enabled(s, Swap(now))
    ensures AtMostOne(Step(f, s, Swap(now)))
  {
    hide DeliveredIn, Reported, Text, TextOf;
    var t := Step(f, s, Swap(now));
    StepSound(f, s, Swap(now));
    forall k: nat, j: nat | Overtakes(t, k, j) ensures Overtakes(s, k, j) && (t.armed ==> j < Reported(t.out)) {
      if s.dropped > 0 {
        OutGrows(s, t, k, j);
      } else {
        OvertakenIsCounted(s, k, j);
      }
    }
  }

  lemma ReceiveAtMostOne(f: Format, s: Stream)
    requires AtMostOne(s) && Enabled(s, Receive)
    ensures AtMostOne(Step(f, s, Receive))
  {
    hide DeliveredIn, Reported, Text, TextOf;
    var t := Step(f, s, Receive);
    StepSound(f, s, Receive);
    forall k: nat, j: nat | Overtakes(t, k, j)
      ensures if k < |s.out| then Overtakes(s, k, j) && j < Reported(s.out) else j >= Reported(s.out)
    {
      if k < |s.out| {
        OutGrows(s, t, k, j);
      } else {
        assert t.out[..k] == s.out;
      }
    }
  }

  lemma StepAtMostOne(f: Format, s: Stream, a: Action)
    requires AtMostOne(s) && Enabled(s, a)
    ensures AtMostOne(Step(f, s, a))
  {
    hide DeliveredIn, Reported, Text, TextOf;
    if a.Publish? || a.Select? {
      OfferAtMostOne(f, s, a);
    } else if a.Swap? {
      SwapAtMostOne(f, s, a.now);
    } else if a.Receive? {
      ReceiveAtMostOne(f, s);
    } else {
      var t := Step(f, s, a);
      StepSound(f, s, a);
      forall k, j ensures Overtakes(t, k, j) <==> Overtakes(s, k, j) {
      }
    }
  }

  lemma {:induction false} RunAtMostOne(f: Format, s: Stream, actions: seq<Action>)
    requires AtMostOne(s) && Run(f, s, actions).Some?
    ensures AtMostOne(Run(f, s, actions).value)
    decreases |actions|
  {
    if actions != [] {
      StepAtMostOne(f, s, actions[0]);
      RunAtMostOne(f, Step(f, s, actions[0]), actions[1..]);
    }
  }

  // With the select and the count apart, at most one later event comes out before the report.
  lemma AtMostOneOvertakes(f: Format, actions: seq<Action>, s: Stream, j: nat, k: nat, m: nat)
    requires Run(f, FRESH, actions) == Some(s)
    requires Overtakes(s, k, j) && Overtakes(s, m, j)
    ensures k == m
  {
    RunAtMostOne(f, FRESH, actions);
  }

  // ------------------------------------------------------------- and that one does occur

  lemma {:induction false} RunConcat(f: Format, s: Stream, a: seq<Action>, b: seq<Action>)
    requires Run(f, s, a).Some?
    ensures Run(f, s, a + b) == Run(f, Run(f, s, a).value, b)
    decreases |a|
  {
    if a == [] {
      assert a + b == b;
    } else {
      RunConcat(f, Step(f, s, a[0]), a[1..], b);
      assert (a + b)[1..] == a[1..] + b;
    }
  }

  lemma Then(f: Format, s: Stream, a: seq<Action>, t: Stream, b: seq<Action>, u: Stream)
    requires Run(f, s, a) == Some(t) && Run(f, t, b) == Some(u)
    ensures Run(f, s, a + b) == Some(u)
  {
    RunConcat(f, s, a, b);
  }

  lemma RunOne(f: Format, s: Stream, a: Action)
    requires Enabled(s, a)
    ensures Run(f, s, [a]) == Some(Step(f, s, a))
  {
    assert [a][1..] == [];
  }

  lemma {:induction false} FillUp(f: Format, s: Stream, e: Event) returns (actions: seq<Action>, t: Stream)
    requires !s.closed && !s.counting && |s.queue| <= CAPACITY
    ensures Run(f, s, actions) == Some(t)
    ensures |t.queue| == CAPACITY && t == s.(offered := t.offered, queue := t.queue)
    decreases CAPACITY - |s.queue|
  {
    if |s.queue| == CAPACITY {
      actions, t := [], s;
    } else {
      var more;
      more, t := FillUp(f, Step(f, s, Select(e)), e);
      actions := [Select(e)] + more;
      RunOne(f, s, Select(e));
      RunConcat(f, s, [Select(e)], more);
    }
  }

  predicate QueueInRange(s: Stream) {
    forall k :: 0 <= k < |s.queue| ==> s.queue[k] < |s.offered|
  }

  // One event read from front to back.
  lemma TakeOne(f: Format, s: Stream) returns (actions: seq<Action>, t: Stream)
    requires s.dropped == 0 && !s.armed && s.pending == [] && s.queue != [] && QueueInRange(s) && Rendering(f)
    ensures Run(f, s, actions) == Some(t)
    ensures t == s.(queue := s.queue[1..], out := t.out, returned := t.returned)
    ensures Reported(t.out) == Reported(s.out)
  {
    var s1 := Step(f, s, Swap(0));
    var s2 := Step(f, s1, Receive);
    var all := Return(|s2.pending|);
    t := Step(f, s2, all);
    AppendRecord(f, s.offered, s.out, Delivered(s.queue[0]));
    actions := [Swap(0), Receive, all];
    RunThree(f, s, Swap(0), Receive, all);
  }

  lemma RunThree(f: Format, s: Stream, a: Action, b: Action, c: Action)
    requires Enabled(s, a) && Enabled(Step(f, s, a), b) && Enabled(Step(f, Step(f, s, a), b), c)
    ensures Run(f, s, [a, b, c]) == Some(Step(f, Step(f, Step(f, s, a), b), c))
  {
    assert [a, b, c][1..] == [b, c] && [b, c][1..] == [c];
    RunOne(f, Step(f, Step(f, s, a), b), c);
  }

  // The reader empties the queue while the publisher has yet to count the drop.
  lemma {:induction false} DrainAll(f: Format, s: Stream) returns (actions: seq<Action>, t: Stream)
    requires s.dropped == 0 && !s.armed && s.pending == [] && QueueInRange(s) && Rendering(f)
    ensures Run(f, s, actions) == Some(t) && t.armed && t.queue == []
    ensures t == s.(queue := [], armed := true, out := t.out, returned := t.returned)
    ensures Reported(t.out) == Reported(s.out)
    decreases |s.queue|
  {
    if s.queue == [] {
      actions, t := [Swap(0)], Step(f, s, Swap(0));
      RunOne(f, s, Swap(0));
    } else {
      var first, rest := TakeOne(f, s);
      var more;
      more, t := DrainAll(f, rest);
      actions := first + more;
      Then(f, s, first, rest, more, t);
    }
  }

  // A two-step run in which the reader waits on an empty queue with a drop unreported.
  lemma WaitingWithDrop(f: Format, e: Event) returns (actions: seq<Action>, s: Stream)
    requires Rendering(f)
    ensures Run(f, FRESH, actions) == Some(s) && Sound(s)
    ensures s.armed && s.queue == [] && s.dropped == 1 && !s.closed && !s.counting
    ensures Reported(s.out) == 0
  {
    var fill, full := FillUp(f, FRESH, e);
    var missed := Step(f, full, Select(e));
    FreshSound(f);
    RunSound(f, FRESH, fill);
    StepSound(f, full, Select(e));
    RunOne(f, full, Select(e));
    Then(f, FRESH, fill, full, [Select(e)], missed);
    OutInRange(missed);
    var drain, drained := DrainAll(f, missed);
    Then(f, FRESH, fill + [Select(e)], missed, drain, drained);
    RunOne(f, drained, Count);
    s := Step(f, drained, Count);
    actions := fill + [Select(e)] + drain + [Count];
    Then(f, FRESH, fill + [Select(e)] + drain, drained, [Count], s);
    RunSound(f, FRESH, actions);
  }

  // The next event published to that reader comes out in front of the report.
  lemma OvertakingHappens(f: Format, e: Event) returns (actions: seq<Action>, s: Stream, k: nat)
    requires Rendering(f)
    ensures Run(f, FRESH, actions) == Some(s) && Overtakes(s, k, 0)
  {
    var before, waiting := WaitingWithDrop(f, e);
    OutInRange(waiting);
    var offered := Step(f, waiting, Select(e));
    s := Step(f, offered, Receive);
    RunOne(f, waiting, Select(e));
    RunOne(f, offered, Receive);
    Then(f, FRESH, before, waiting, [Select(e)], offered);
    actions := before + [Select(e)] + [Receive];
    Then(f, FRESH, before + [Select(e)], offered, [Receive], s);
    k := |waiting.out|;
    assert s.out[..k] == waiting.out;
    assert s.lost == waiting.lost && |s.lost| == 1;
    assert s.out[k] == Delivered(|waiting.offered|);
  }
}
