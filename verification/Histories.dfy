/**
 * What a gateway run does, read off the payloads that came in. Nothing that is defined here refers to
 * how a payload is handled; the lemmas say that handling agrees.
 */
module Histories {
  import opened Bytes
  import opened Wrappers
  import opened Gateway
  import opened Sessions

  // ------------------------------------------------------------- the session held

  // When the last payload came.
  function HeardAt(run: seq<Input>): Option<int> {
    if run == [] then None
    else
      var i := run[|run| - 1];
      if i.Payload? then Some(i.now) else HeardAt(run[..|run| - 1])
  }

  // The last payload of the run came at most three minutes after the one before it.
  predicate InTime(run: seq<Input>)
    requires run != [] && run[|run| - 1].Payload?
  {
    var heard := HeardAt(run[..|run| - 1]);
    heard.Some? && run[|run| - 1].later - heard.value <= 180_000_000_000
  }

  predicate IsHello(i: Input) {
    i.Payload? && i.op == Hello(true)
  }

  // The last input gives up the session: it is refused, or greeted too late.
  predicate GivesUp(run: seq<Input>)
    decreases |run|, 0
  {
    run != [] &&
    var i := run[|run| - 1];
    i.Payload? && (i.op == InvalidSession(false) || (IsHello(i) && HeldId(run[..|run| - 1]) != [] && !InTime(run)))
  }

  // The id that the last READY gave, unless the session was given up since.
  function HeldId(run: seq<Input>): Str
    decreases |run|, 1
  {
    if run == [] || GivesUp(run) then []
    else
      var i := run[|run| - 1];
      if IsReady(i) then i.op.sessionId.value else HeldId(run[..|run| - 1])
  }

  // Since when the client has been ready: the last READY, unless the connection was hung up since.
  function ReadySince(run: seq<Input>): Option<int> {
    if run == [] then None
    else
      var i := run[|run| - 1];
      if i.HungUp? then None else if IsReady(i) then Some(i.now) else ReadySince(run[..|run| - 1])
  }

  // The numbers received since a session was last given up.
  function Received(run: seq<Input>): seq<int> {
    if run == [] || GivesUp(run) then []
    else
      var i := run[|run| - 1];
      Received(run[..|run| - 1]) + if i.Payload? && i.s.Some? then [i.s.value] else []
  }

  // The largest of them, or zero.
  predicate Largest(run: seq<Input>, n: int) {
    && n >= 0
    && (forall k :: 0 <= k < |Received(run)| ==> Received(run)[k] <= n)
    && (n == 0 || n in Received(run))
  }

  lemma LargestUnique(run: seq<Input>, m: int, n: int)
    requires Largest(run, m) && Largest(run, n)
    ensures m == n
  {
  }

  lemma LargestStep(run: seq<Input>, was: int, n: int)
    requires run != [] && Largest(run[..|run| - 1], was)
    requires n == if GivesUp(run) then 0 else Advance(was, if run[|run| - 1].Payload? then run[|run| - 1].s else None)
    ensures Largest(run, n)
  {
    hide GivesUp;
  }

  // The client's session is the one that its history says it holds.
  lemma {:induction false} SessionHeld(run: seq<Input>)
    ensures StateOf(run).sessionId == HeldId(run) && StateOf(run).lastActivity == HeardAt(run)
    ensures StateOf(run).readySince == ReadySince(run) && Largest(run, StateOf(run).sequence)
    ensures run != [] ==> (Resets(StateOf(run[..|run| - 1]), run[|run| - 1]) <==> GivesUp(run))
  {
    hide Largest;
    if run == [] {
      LargestNone();
    } else {
      var init, i := run[..|run| - 1], run[|run| - 1];
      SessionHeld(init);
      ResetTogether(StateOf(init), i);
      LargestStep(run, StateOf(init).sequence, StateOf(run).sequence);
    }
  }

  lemma LargestNone()
    ensures Largest([], 0)
  {
  }

  // ------------------------------------------------------------- what is handed to OnEvent

  // What a payload is reported as: a READY that decodes, a RESUMED and every other dispatch are.
  function Kind(i: Input): Option<EventKind> {
    if IsReady(i) then Some(ReadyEvent)
    else if i.Payload? && i.op.Resumed? then Some(ResumedEvent)
    else if i.Payload? && i.op.Dispatch? then Some(OtherEvent(i.op.kind))
    else None
  }

  // Where the payloads stand that are reported.
  function Reportable(run: seq<Input>): seq<nat> {
    if run == [] then []
    else
      var n := |run| - 1;
      Reportable(run[..n]) + if Kind(run[n]).Some? then [n] else []
  }

  lemma {:induction false} ReportableMeaning(run: seq<Input>)
    ensures forall i, j :: 0 <= i < j < |Reportable(run)| ==> Reportable(run)[i] < Reportable(run)[j]
    ensures forall k: nat :: k in Reportable(run) <==> k < |run| && Kind(run[k]).Some?
  {
    hide Kind;
    if run != [] {
      var n := |run| - 1;
      ReportableMeaning(run[..n]);
      assert forall j :: 0 <= j < |Reportable(run[..n])| ==> Reportable(run[..n])[j] in Reportable(run[..n]);
    }
  }

  function Events(outputs: seq<Output>): seq<Output> {
    if outputs == [] then []
    else
      var o := outputs[|outputs| - 1];
      Events(outputs[..|outputs| - 1]) + if o.EventCall? then [o] else []
  }

  lemma {:induction false} EventsConcat(a: seq<Output>, b: seq<Output>)
    ensures Events(a + b) == Events(a) + Events(b)
  {
    if b == [] {
      assert a + b == a;
    } else {
      EventsConcat(a, b[..|b| - 1]);
      assert (a + b)[..|a + b| - 1] == a + b[..|b| - 1];
    }
  }

  lemma EventsOfFew(outputs: seq<Output>)
    ensures outputs == [] ==> Events(outputs) == []
    ensures |outputs| == 1 ==> Events(outputs) == if outputs[0].EventCall? then outputs else []
  {
    if |outputs| == 1 {
      assert Events(outputs[..0]) == [];
    }
  }

  lemma EventsOfOpening(last: Output)
    requires last.EventCall?
    ensures Events([PresenceActivated, last]) == [last] == Events([GapCall, PresenceActivated, last])
  {
    hide Events;
    EventsOfFew([GapCall]);
    EventsOfFew([PresenceActivated]);
    EventsOfFew([last]);
    EventsConcat([PresenceActivated], [last]);
    EventsConcat([GapCall], [PresenceActivated] + [last]);
    assert [PresenceActivated] + [last] == [PresenceActivated, last];
    assert [GapCall] + [PresenceActivated, last] == [GapCall, PresenceActivated, last];
  }

  // One payload makes one such call, as its last, or none.
  lemma EventOf(g: Session, i: Input)
    ensures Events(Handle(g, i).outputs) ==
            if Kind(i).Some? then [EventCall(Kind(i).value, Handle(g, i).session.sequence)] else []
  {
    hide Events, Resumable, Advance;
    EventsOfFew(Handle(g, i).outputs);
    if Kind(i).Some? {
      var last := EventCall(Kind(i).value, Handle(g, i).session.sequence);
      EventsOfOpening(last);
      assert Handle(g, i).outputs == [last] || Handle(g, i).outputs == [PresenceActivated, last] ||
             Handle(g, i).outputs == [GapCall, PresenceActivated, last];
    }
  }

  // The j-th call is for the k-th payload: it has its kind, and the largest number up to there.
  predicate CallFor(run: seq<Input>, k: nat, call: Output)
    requires k < |run|
  {
    call.EventCall? && Kind(run[k]) == Some(call.kind) && Largest(run[..k + 1], call.seqNo)
  }

  predicate CallsFor(run: seq<Input>, positions: seq<nat>, calls: seq<Output>) {
    && |calls| == |positions|
    && forall j :: 0 <= j < |calls| ==> positions[j] < |run| && CallFor(run, positions[j], calls[j])
  }

  lemma CallsGrow(init: seq<Input>, i: Input, positions: seq<nat>, calls: seq<Output>)
    requires CallsFor(init, positions, calls)
    ensures CallsFor(init + [i], positions, calls)
  {
    hide Largest;
    forall j | 0 <= j < |calls| ensures CallFor(init + [i], positions[j], calls[j]) {
      assert (init + [i])[..positions[j] + 1] == init[..positions[j] + 1];
    }
  }

  // Over every run OnEvent is called for each payload to be reported, in order, and for nothing else,
  // with the largest number received since the last reset, its own included.
  lemma {:induction false} EventsInOrder(run: seq<Input>)
    ensures CallsFor(run, Reportable(run), Events(Outputs(INITIAL, run)))
  {
    hide Largest, Handle, Events, Kind, CallsFor, Reportable;
    NoEvents();
    if run != [] {
      var n := |run| - 1;
      var init, i := run[..n], run[n];
      EventsInOrder(init);
      assert init + [i] == run;
      CallsGrow(init, i, Reportable(init), Events(Outputs(INITIAL, init)));
      EventsConcat(Outputs(INITIAL, init), Last(run).outputs);
      EventOf(StateOf(init), i);
      SessionHeld(run);
      OneMoreCall(run, Reportable(init), Events(Outputs(INITIAL, init)), Events(Last(run).outputs), StateOf(run).sequence);
    }
  }

  // So it is for a client that has run these inputs.
  lemma ClientEvents(run: seq<Input>, state: Session, calls: seq<Output>)
    requires Tracks(INITIAL, [], run, state, calls)
    ensures CallsFor(run, Reportable(run), Events(calls))
    ensures state.sessionId == HeldId(run) && Largest(run, state.sequence)
  {
    hide Largest, Handle, Events, CallsFor, Reportable, HeldId;
    EventsInOrder(run);
    SessionHeld(run);
    assert [] + Outputs(INITIAL, run) == Outputs(INITIAL, run);
  }

  lemma OneMoreCall(run: seq<Input>, positions: seq<nat>, calls: seq<Output>, more: seq<Output>, number: int)
    requires run != [] && CallsFor(run, positions, calls) && positions == Reportable(run[..|run| - 1])
    requires Largest(run, number)
    requires more == if Kind(run[|run| - 1]).Some? then [EventCall(Kind(run[|run| - 1]).value, number)] else []
    ensures CallsFor(run, Reportable(run), calls + more)
  {
    hide Largest, Kind, CallFor;
    if more == [] {
      assert calls + more == calls && positions + [] == positions;
    } else {
      LastCall(run, more[0].kind, number);
    }
  }

  lemma LastCall(run: seq<Input>, kind: EventKind, number: int)
    requires run != [] && Largest(run, number) && Kind(run[|run| - 1]) == Some(kind)
    ensures CallFor(run, |run| - 1, EventCall(kind, number))
  {
    hide Largest, Kind;
    assert run[..|run|] == run;
  }

  lemma NoEvents()
    ensures Events([]) == [] && Reportable([]) == [] && CallsFor([], [], []) && Outputs(INITIAL, []) == []
  {
  }

  // ------------------------------------------------------------- what is sent

  // A HELLO is answered once, by RESUME exactly when there is a session heard of at most three minutes
  // ago, else by IDENTIFY; a write that fails sends nothing.
  lemma HelloAnswered(run: seq<Input>)
    requires run != [] && IsHello(run[|run| - 1])
    ensures !run[|run| - 1].writeOk ==> Last(run).outputs == []
    ensures run[|run| - 1].writeOk ==>
              var id := HeldId(run[..|run| - 1]);
              if id != [] && InTime(run) then
                exists n :: Last(run).outputs == [SentResume(id, n)] && Largest(run, n)
              else Last(run).outputs == [SentIdentify]
  {
    hide Largest;
    SessionHeld(run[..|run| - 1]);
    SessionHeld(run);
  }

  // A heartbeat request is answered with the sequence number.
  lemma HeartbeatAnswered(run: seq<Input>)
    requires run != [] && run[|run| - 1].Payload? && run[|run| - 1].op.HeartbeatRequest?
    ensures if run[|run| - 1].writeOk then exists n :: Last(run).outputs == [SentHeartbeat(n)] && Largest(run, n)
            else Last(run).outputs == []
  {
    hide Largest;
    SessionHeld(run);
    assert run[|run| - 1].writeOk ==> Last(run).outputs == [SentHeartbeat(StateOf(run).sequence)];
  }

  // Whatever is sent answers a HELLO or a heartbeat request, and presences start with READY and RESUMED.
  lemma SentOnlyThen(run: seq<Input>, o: Output)
    requires run != [] && o in Last(run).outputs
    ensures o.SentResume? || o.SentIdentify? ==> IsHello(run[|run| - 1])
    ensures o.SentHeartbeat? ==> run[|run| - 1].Payload? && run[|run| - 1].op.HeartbeatRequest?
    ensures o.PresenceActivated? ==> Kind(run[|run| - 1]) in {Some(ReadyEvent), Some(ResumedEvent)}
  {
  }

  // A RESUMED brings the presence up and is handed on, in that order.
  lemma ResumedHandled(run: seq<Input>)
    requires run != [] && run[|run| - 1].Payload? && run[|run| - 1].op.Resumed?
    ensures exists n :: Last(run).outputs == [PresenceActivated, EventCall(ResumedEvent, n)] && Largest(run, n)
  {
    hide Largest;
    SessionHeld(run);
    assert Last(run).outputs == [PresenceActivated, EventCall(ResumedEvent, StateOf(run).sequence)];
  }

  // ------------------------------------------------------------- what ends a connection

  predicate Breaks(i: Input) {
    || i.DialFailed? || i.ReadError?
    || (i.Payload? &&
        (i.op == Hello(false) || i.op == Ready(None) || i.op.Reconnect? || i.op.InvalidSession? ||
         ((i.op.Hello? || i.op.HeartbeatRequest?) && !i.writeOk)))
  }

  // Whatever the state, these inputs end a connection and no others; a read that fails ends the run when
  // it was cancelled or the token was refused.
  lemma EndsExactly(g: Session, i: Input)
    ensures Handle(g, i).flow != Continue <==> Breaks(i)
    ensures Handle(g, i).flow == Cancelled <==> i.ReadError? && i.cancelled
    ensures Handle(g, i).flow == Fatal <==> i.ReadError? && !i.cancelled && i.authFailed
  {
  }

  // A connection handles the payloads up to and including the first that ends it.
  lemma {:induction false} ServedExactly(g: Session, script: seq<Input>)
    ensures Served(g, script) <= script
    ensures forall k :: 0 <= k < |Served(g, script)| - 1 ==> !Breaks(script[k])
    ensures Served(g, script) == script || (Served(g, script) != [] && Breaks(script[|Served(g, script)| - 1]))
    decreases |script|
  {
    hide Handle, Breaks;
    if script != [] {
      EndsExactly(g, script[0]);
      if !Breaks(script[0]) {
        ServedExactly(Handle(g, script[0]).session, script[1..]);
        ServedShift(g, script);
      }
    }
  }

  // The last input a connection handles, if that ends it.
  function Ended(taken: seq<Input>): Flow {
    if taken == [] || !Breaks(taken[|taken| - 1]) then Continue
    else
      var i := taken[|taken| - 1];
      if i.ReadError? && i.cancelled then Cancelled else if i.ReadError? && i.authFailed then Fatal else Retry
  }

  // The payloads up to and including the first that ends a connection.
  function Taken(script: seq<Input>): seq<Input> {
    if script == [] || Breaks(script[0]) then script[..if script == [] then 0 else 1] else [script[0]] + Taken(script[1..])
  }

  // Connections follow one another until one stays up, is cancelled or is refused for good.
  function Dialling(scripts: seq<seq<Input>>): seq<Input> {
    if scripts == [] then []
    else
      var taken := Taken(scripts[0]);
      match Ended(taken)
      case Continue => [Dialled] + taken
      case Retry => [Dialled] + taken + [HungUp] + Dialling(scripts[1..])
      case _ => [Dialled] + taken + [HungUp]
  }

  lemma {:induction false} TakenIsServed(g: Session, script: seq<Input>)
    ensures Served(g, script) == Taken(script) && Ending(g, script) == Ended(Taken(script))
    decreases |script|
  {
    hide Handle, Breaks;
    if script != [] {
      EndsExactly(g, script[0]);
      if Breaks(script[0]) {
        assert script[..1] == [script[0]];
      } else {
        TakenIsServed(Handle(g, script[0]).session, script[1..]);
        ServedShift(g, script);
        EndedShift(script[0], Taken(script[1..]));
      }
    }
  }

  lemma EndedShift(i: Input, taken: seq<Input>)
    requires !Breaks(i)
    ensures Ended([i] + taken) == Ended(taken)
  {
    hide Breaks;
    if taken == [] {
      assert [i] + taken == [i];
    }
  }

  // So what a run handles depends on what comes in alone.
  lemma {:induction false} RunIsDialling(g: Session, scripts: seq<seq<Input>>)
    ensures Connections(g, scripts) == Dialling(scripts)
    decreases |scripts|
  {
    hide Handle, After, Served, Ending, Taken, Ended;
    if scripts != [] {
      TakenIsServed(g, scripts[0]);
      var first := [Dialled] + Served(g, scripts[0]);
      RunIsDialling(After(g, first + [HungUp]), scripts[1..]);
    }
  }

  lemma ServedShift(g: Session, script: seq<Input>)
    requires script != [] && Handle(g, script[0]).flow == Continue
    ensures Served(g, script) == [script[0]] + Served(Handle(g, script[0]).session, script[1..])
    ensures Ending(g, script) == Ending(Handle(g, script[0]).session, script[1..])
  {
  }
}
