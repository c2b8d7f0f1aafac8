/**
 * Gateway, hub and reader end to end, as one subscription sees them. The gateway goroutine handles
 * one payload at a time and makes its calls in order; the subscription may be opened, read and
 * closed between any two of those calls. Publishing is one step.
 */
module Pipeline {
  import opened Wrappers
  import opened Gateway
  import opened Sessions
  import EventStreams
  import opened GapPlacement

  // A call the gateway still has to make for the current payload, with the session it belongs to.
  datatype Task = Announce(session: nat) | Carry(session: nat, event: EventStreams.Event)

  // What an offer to the subscription was: the notice that opened session n, or an event of it.
  datatype Tag = Notice(session: nat) | Of(session: nat)

  datatype Pipe = Pipe(
    run: seq<Input>,
    sessions: nat,
    todo: seq<Task>,
    stream: Option<EventStreams.Stream>,
    openedIn: nat,
    tags: seq<Tag>)

  const START := Pipe([], 0, [], None, 0, [])

  datatype Action =
    | Handling(input: Input, carried: Option<EventStreams.Event>)
    | Perform
    | Open
    | Reader(action: EventStreams.Action)

  predicate Reading(a: EventStreams.Action) {
    a.Swap? || a.Receive? || a.EndOfFile? || a.Return? || a.Close?
  }

  predicate Enabled(p: Pipe, a: Action) {
    match a
    case Handling(_, carried) => p.todo == [] && (carried.Some? ==> carried.value.MessageEvent?)
    case Perform => p.todo != []
    case Open => p.stream.None?
    case Reader(r) => p.stream.Some? && Reading(r) && EventStreams.Enabled(p.stream.value, r)
  }

  // GapAll reaches every live subscription; a message event reaches the ones it is addressed to.
  function Tasks(outputs: seq<Output>, session: nat, carried: Option<EventStreams.Event>): seq<Task> {
    if outputs == [] then []
    else TaskOf(outputs[0], session, carried) + Tasks(outputs[1..], session, carried)
  }

  function TaskOf(o: Output, session: nat, carried: Option<EventStreams.Event>): seq<Task> {
    if o.GapCall? then [Announce(session)]
    else if o.EventCall? && o.kind.OtherEvent? && carried.Some? then [Carry(session, carried.value)]
    else []
  }

  function Publish(f: EventStreams.Format, p: Pipe, e: EventStreams.Event, tag: Tag): Pipe {
    if p.stream.Some? && !p.stream.value.closed && !p.stream.value.counting then
      p.(stream := Some(EventStreams.Step(f, p.stream.value, EventStreams.Publish(e))), tags := p.tags + [tag])
    else p
  }

  function Step(f: EventStreams.Format, p: Pipe, a: Action): Pipe
    requires Enabled(p, a)
  {
    match a
    case Handling(i, carried) =>
      var n := if IsReady(i) then p.sessions + 1 else p.sessions;
      p.(run := p.run + [i], sessions := n, todo := Tasks(Handle(StateOf(p.run), i).outputs, n, carried))
    case Perform =>
      var q := p.(todo := p.todo[1..]);
      (match p.todo[0]
       case Announce(n) => Publish(f, q, EventStreams.GapNotice([], []), Notice(n))
       case Carry(n, e) => Publish(f, q, e, Of(n)))
    case Open => p.(stream := Some(EventStreams.FRESH), openedIn := p.sessions)
    case Reader(r) => p.(stream := Some(EventStreams.Step(f, p.stream.value, r)))
  }

  function Run(f: EventStreams.Format, p: Pipe, actions: seq<Action>): Option<Pipe>
    decreases |actions|
  {
    if actions == [] then Some(p)
    else if !Enabled(p, actions[0]) then None
    else Run(f, Step(f, p, actions[0]), actions[1..])
  }

  // ------------------------------------------------------------- invariant

  predicate Announced(p: Pipe, session: nat, before: nat)
    requires before <= |p.tags|
  {
    exists g :: 0 <= g < before && p.tags[g] == Notice(session)
  }

  predicate Queued(p: Pipe) {
    || p.todo == []
    || (|p.todo| == 1 && (p.todo[0] == Announce(p.sessions) || (p.todo[0].Carry? && p.todo[0].session == p.sessions && p.todo[0].event.MessageEvent?)))
  }

  // Every session after the first that began while the subscription was open has been announced,
  // or is about to be; events follow the announcements of their session and of those before it.
  ghost predicate Heralded(p: Pipe) {
    p.stream.Some? ==>
      && Placed(p.stream.value) && |p.tags| == |p.stream.value.offered| && p.openedIn <= p.sessions
      && (forall i: nat :: i < |p.tags| ==> (p.tags[i].Of? <==> p.stream.value.offered[i].MessageEvent?))
      && (!p.stream.value.closed ==>
            forall n: nat :: p.openedIn < n <= p.sessions && n >= 2 ==>
              Announced(p, n, |p.tags|) || (n == p.sessions && p.todo == [Announce(n)]))
      && (forall i: nat, n: nat :: i < |p.tags| && p.tags[i].Of? && p.openedIn < n <= p.tags[i].session && n >= 2 ==>
            Announced(p, n, i))
  }

  ghost predicate Inv(p: Pipe) {
    && Queued(p) && Heralded(p) && (p.stream.None? ==> p.tags == [])
    && (p.sessions >= 1 <==> HadReady(p.run))
  }

  // A READY that follows the loss of a session is one announcement, a dispatch that carries an event is
  // that event, and nothing else is anything to the hub.
  lemma TasksOf(g: Session, i: Input, n: nat, carried: Option<EventStreams.Event>)
    ensures GapCall in Handle(g, i).outputs <==> IsReady(i) && g.gapPending
    ensures Tasks(Handle(g, i).outputs, n, carried) ==
            if IsReady(i) && g.gapPending then [Announce(n)]
            else if i.Payload? && i.op.Dispatch? && carried.Some? then [Carry(n, carried.value)]
            else []
  {
    hide Tasks, Resumable, Advance;
    var h := Handle(g, i);
    TasksOfFew(h.outputs, n, carried);
    if IsReady(i) {
      TasksOfReady(EventCall(ReadyEvent, h.session.sequence), n, carried);
      assert h.outputs == if g.gapPending then [GapCall, PresenceActivated, EventCall(ReadyEvent, h.session.sequence)]
                          else [PresenceActivated, EventCall(ReadyEvent, h.session.sequence)];
    }
  }

  lemma TasksOfFew(o: seq<Output>, n: nat, carried: Option<EventStreams.Event>)
    ensures o == [] ==> Tasks(o, n, carried) == []
    ensures |o| == 1 ==> Tasks(o, n, carried) == TaskOf(o[0], n, carried)
    ensures |o| == 2 ==> Tasks(o, n, carried) == TaskOf(o[0], n, carried) + TaskOf(o[1], n, carried)
  {
    if |o| == 1 {
      assert o[1..] == [];
    } else if |o| == 2 {
      assert o[1..][1..] == [];
    }
  }

  lemma TasksOfReady(last: Output, n: nat, carried: Option<EventStreams.Event>)
    requires last.EventCall? && last.kind.ReadyEvent?
    ensures Tasks([PresenceActivated, last], n, carried) == []
    ensures Tasks([GapCall, PresenceActivated, last], n, carried) == [Announce(n)]
  {
    var two := [PresenceActivated, last];
    TasksOfFew(two, n, carried);
    assert [GapCall, PresenceActivated, last][1..] == two;
  }

  // Performing a task offers an open subscription that event or notice, once, and tags it.
  lemma PerformOffers(f: EventStreams.Format, p: Pipe)
    requires Inv(p) && p.todo != []
    ensures var q := Step(f, p, Perform);
            if p.stream.Some? && !p.stream.value.closed then
              && q.stream.Some? && q.stream.value.out == p.stream.value.out
              && q.stream.value.offered == p.stream.value.offered
                   + [if p.todo[0].Announce? then EventStreams.GapNotice([], []) else p.todo[0].event]
              && q.tags == p.tags + [if p.todo[0].Announce? then Notice(p.sessions) else Of(p.sessions)]
              && q.todo == []
            else q == p.(todo := [])
  {
    hide GapPlacement.NothingOvertaken, EventStreams.Sound, GapPlacement.HeadIsOlder, HadReady;
  }

  lemma HandlingKeeps(f: EventStreams.Format, p: Pipe, i: Input, carried: Option<EventStreams.Event>)
    requires Inv(p) && Enabled(p, Handling(i, carried)) && Answering(p.run + [i])
    ensures Inv(Step(f, p, Handling(i, carried)))
  {
    hide Placed, Handle, Tasks, TaskOf;
    var q := Step(f, p, Handling(i, carried));
    assert q.run[..|q.run| - 1] == p.run && q.run[|q.run| - 1] == i;
    TasksOf(StateOf(p.run), i, q.sessions, carried);
    GapExactly(q.run);
    assert HadReady(q.run) <==> HadReady(p.run) || IsReady(i) by {
      if k :| 0 <= k < |p.run| && IsReady(p.run[k]) {
        assert IsReady(q.run[k]);
      }
      if IsReady(i) {
        assert IsReady(q.run[|p.run|]);
      }
    }
    if IsReady(i) && q.sessions >= 2 {
      NoSilentSessionLoss(q.run);
      assert q.todo == [Announce(q.sessions)];
    }
    if q.stream.Some? && !q.stream.value.closed {
      forall n: nat | q.openedIn < n <= q.sessions && n >= 2
        ensures Announced(q, n, |q.tags|) || (n == q.sessions && q.todo == [Announce(n)])
      {
        assert n <= p.sessions ==> Announced(p, n, |p.tags|);
      }
    }
    assert forall n: nat, k: nat :: k <= |p.tags| ==> (Announced(q, n, k) <==> Announced(p, n, k));
  }

  lemma AnnouncedStable(p: Pipe, q: Pipe)
    requires p.tags <= q.tags
    ensures forall n: nat, k: nat :: k <= |p.tags| ==> (Announced(q, n, k) <==> Announced(p, n, k))
    ensures forall n: nat :: Announced(p, n, |p.tags|) ==> Announced(q, n, |q.tags|)
  {
  }

  lemma PublishKeeps(f: EventStreams.Format, p: Pipe)
    requires Inv(p) && p.todo != [] && p.stream.Some? && !p.stream.value.closed
    ensures Inv(Step(f, p, Perform))
  {
    hide Placed, HadReady, Reading, EventStreams.TextOf;
    var q := Step(f, p, Perform);
    var e := if p.todo[0].Announce? then EventStreams.GapNotice([], []) else p.todo[0].event;
    PublishPlaced(f, p.stream.value, e);
    assert q.stream == Some(EventStreams.Step(f, p.stream.value, EventStreams.Publish(e)));
    AnnouncedStable(p, q);
    if p.todo[0].Announce? {
      assert q.tags[|p.tags|] == Notice(p.sessions);
      assert Announced(q, p.sessions, |q.tags|);
    }
  }

  lemma ReaderKeeps(f: EventStreams.Format, p: Pipe, r: EventStreams.Action)
    requires Inv(p) && Enabled(p, Reader(r))
    ensures Inv(Step(f, p, Reader(r)))
  {
    hide Placed, HadReady, EventStreams.TextOf;
    StepPlaced(f, p.stream.value, r);
    AnnouncedStable(p, Step(f, p, Reader(r)));
  }

  // A call made while no subscription is there to hear it.
  lemma IdlePerformKeeps(f: EventStreams.Format, p: Pipe)
    requires Inv(p) && p.todo != [] && (p.stream.None? || p.stream.value.closed)
    ensures Inv(Step(f, p, Perform))
  {
    AnnouncedStable(p, Step(f, p, Perform));
  }

  lemma FreshPlaced()
    ensures Placed(EventStreams.FRESH)
  {
  }

  lemma OpenKeeps(f: EventStreams.Format, p: Pipe)
    requires Inv(p) && Enabled(p, Open)
    ensures Inv(Step(f, p, Open))
  {
    hide Placed, HadReady;
    FreshPlaced();
  }

  lemma StepKeeps(f: EventStreams.Format, p: Pipe, a: Action)
    requires Inv(p) && Enabled(p, a) && Answering(Step(f, p, a).run)
    ensures Inv(Step(f, p, a))
  {
    if a.Handling? {
      HandlingKeeps(f, p, a.input, a.carried);
    } else if a.Reader? {
      ReaderKeeps(f, p, a.action);
    } else if a.Open? {
      OpenKeeps(f, p);
    } else if p.stream.None? || p.stream.value.closed {
      IdlePerformKeeps(f, p);
    } else {
      PublishKeeps(f, p);
    }
  }

  lemma {:induction false} RunKeeps(f: EventStreams.Format, p: Pipe, actions: seq<Action>, t: Pipe)
    requires Inv(p) && Run(f, p, actions) == Some(t) && Answering(t.run)
    ensures Inv(t)
    decreases |actions|
  {
    if actions != [] {
      var q := Step(f, p, actions[0]);
      RunGrows(f, q, actions[1..]);
      AnsweringPrefix(t.run, |q.run|);
      assert t.run[..|q.run|] == q.run;
      StepKeeps(f, p, actions[0]);
      RunKeeps(f, q, actions[1..], t);
    }
  }

  lemma {:induction false} RunGrows(f: EventStreams.Format, p: Pipe, actions: seq<Action>)
    requires Run(f, p, actions).Some?
    ensures p.run <= Run(f, p, actions).value.run
    decreases |actions|
  {
    if actions != [] {
      RunGrows(f, Step(f, p, actions[0]), actions[1..]);
    }
  }

  lemma {:induction false} AnsweringPrefix(run: seq<Input>, n: nat)
    requires Answering(run) && n <= |run|
    ensures Answering(run[..n])
  {
    if n < |run| {
      AnsweringPrefix(run[..|run| - 1], n);
      assert run[..|run| - 1][..n] == run[..n];
    } else {
      assert run[..n] == run;
    }
  }

  // End to end: when an event of session n comes out, every session that began since the file was
  // opened, up to n, has had its GAP notice delivered, or its loss reported, in an earlier record.
  lemma EverySessionHeralded(f: EventStreams.Format, actions: seq<Action>, p: Pipe, k: nat, n: nat)
    requires Run(f, START, actions) == Some(p) && Answering(p.run) && p.stream.Some?
    requires k < |p.stream.value.out| && p.stream.value.out[k].Delivered?
    requires var i := p.stream.value.out[k].index;
             i < |p.tags| && p.tags[i].Of? && p.openedIn < n <= p.tags[i].session && n >= 2
    ensures exists g :: 0 <= g < |p.tags| && p.tags[g] == Notice(n) && ToldBefore(p.stream.value, g, k)
  {
    assert !HadReady([]);
    RunKeeps(f, START, actions, p);
    var i := p.stream.value.out[k].index;
    assert Announced(p, n, i);
    var g :| 0 <= g < i && p.tags[g] == Notice(n);
    PlacedTells(p.stream.value, k, g);
  }

  // Every delivered record has a tag to go by, and it says Of exactly for message events.
  lemma DeliveredIsTagged(f: EventStreams.Format, actions: seq<Action>, p: Pipe, k: nat)
    requires Run(f, START, actions) == Some(p) && Answering(p.run) && p.stream.Some?
    requires k < |p.stream.value.out| && p.stream.value.out[k].Delivered?
    ensures p.stream.value.out[k].index < |p.tags| == |p.stream.value.offered|
    ensures var i := p.stream.value.out[k].index;
            p.tags[i].Of? <==> p.stream.value.offered[i].MessageEvent?
  {
    assert !HadReady([]);
    RunKeeps(f, START, actions, p);
    EventStreams.OutInRange(p.stream.value);
  }
}
