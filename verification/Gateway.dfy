/**
 * The gateway session machine: what connect does with each payload, and what survives from one
 * connection to the next. Payloads arrive decoded; clock readings and write outcomes are inputs.
 */
module Gateway {
  import opened Bytes
  import opened Wrappers

  // A session may be resumed when the last payload came at most this long ago.
  const RESUME_WINDOW: int := 3 * 60 * 1_000_000_000

  datatype Op =
    | Hello(intervalOk: bool)
    | Ready(sessionId: Option<Str>)       // None: the READY data does not decode
    | Resumed
    | Dispatch(kind: Str)
    | HeartbeatRequest
    | HeartbeatAck
    | Reconnect
    | InvalidSession(resumable: bool)
    | Unknown

  datatype Input =
    | Dialled
    | DialFailed
    | Payload(op: Op, s: Option<int>, now: int, later: int, writeOk: bool)
    | ReadError(cancelled: bool, authFailed: bool)
    | HungUp

  datatype Output =
    | SentResume(sessionId: Str, seqNo: int)
    | SentIdentify
    | SentHeartbeat(seqNo: int)
    | GapCall
    | PresenceActivated
    | EventCall(kind: EventKind, seqNo: int)

  datatype EventKind = ReadyEvent | ResumedEvent | OtherEvent(kind: Str)

  datatype Flow = Continue | Retry | Cancelled | Fatal

  datatype Session = Session(
    sessionId: Str,
    sequence: int,
    lastActivity: Option<int>,
    readySince: Option<int>,
    gapPending: bool)

  datatype Outcome = Outcome(session: Session, outputs: seq<Output>, flow: Flow)

  const INITIAL := Session([], 0, None, None, false)

  predicate Resumable(g: Session, later: int) {
    g.sessionId != [] && g.lastActivity.Some? && later - g.lastActivity.value <= RESUME_WINDOW
  }

  function Advance(sequence: int, s: Option<int>): int {
    if s.Some? && s.value > sequence then s.value else sequence
  }

  function Handle(g: Session, i: Input): Outcome {
    match i
    case Dialled => Outcome(g, [], Continue)
    case DialFailed => Outcome(g, [], Retry)
    case HungUp => Outcome(g.(readySince := None), [], Continue)
    case ReadError(cancelled, authFailed) =>
      Outcome(g, [], if cancelled then Cancelled else if authFailed then Fatal else Retry)
    case Payload(op, s, now, later, writeOk) =>
      HandleOp(g, g.(lastActivity := Some(now), sequence := Advance(g.sequence, s)), op, now, later, writeOk)
  }

  // g is the state before the payload, h the state once its clock and sequence number are noted.
  function HandleOp(g: Session, h: Session, op: Op, now: int, later: int, writeOk: bool): Outcome {
    match op
    case Hello(false) => Outcome(h, [], Retry)
    case Hello(true) =>
      if Resumable(g, later) then
        if writeOk then Outcome(h, [SentResume(h.sessionId, h.sequence)], Continue) else Outcome(h, [], Retry)
      else
        var t := if h.sessionId != [] then h.(sessionId := [], sequence := 0, gapPending := true) else h;
        if writeOk then Outcome(t, [SentIdentify], Continue) else Outcome(t, [], Retry)
    case Ready(None) => Outcome(h, [], Retry)
    case Ready(Some(id)) =>
      Outcome(h.(sessionId := id, readySince := Some(now), gapPending := false),
              (if h.gapPending then [GapCall] else []) + [PresenceActivated, EventCall(ReadyEvent, h.sequence)],
              Continue)
    case Resumed => Outcome(h, [PresenceActivated, EventCall(ResumedEvent, h.sequence)], Continue)
    case Dispatch(kind) => Outcome(h, [EventCall(OtherEvent(kind), h.sequence)], Continue)
    case HeartbeatRequest =>
      if writeOk then Outcome(h, [SentHeartbeat(h.sequence)], Continue) else Outcome(h, [], Retry)
    case HeartbeatAck => Outcome(h, [], Continue)
    case Reconnect => Outcome(h, [], Retry)
    case InvalidSession(true) => Outcome(h, [], Retry)
    case InvalidSession(false) => Outcome(h.(sessionId := [], sequence := 0, gapPending := true), [], Retry)
    case Unknown => Outcome(h, [], Continue)
  }

  // The session after a run of inputs, the last input being handled last.
  function After(g: Session, inputs: seq<Input>): Session {
    if inputs == [] then g
    else Handle(After(g, inputs[..|inputs| - 1]), inputs[|inputs| - 1]).session
  }

  function Outputs(g: Session, inputs: seq<Input>): seq<Output> {
    if inputs == [] then []
    else
      var init := inputs[..|inputs| - 1];
      Outputs(g, init) + Handle(After(g, init), inputs[|inputs| - 1]).outputs
  }

  lemma AfterSnoc(g: Session, inputs: seq<Input>, i: Input)
    ensures After(g, inputs + [i]) == Handle(After(g, inputs), i).session
    ensures Outputs(g, inputs + [i]) == Outputs(g, inputs) + Handle(After(g, inputs), i).outputs
  {
    assert (inputs + [i])[..|inputs|] == inputs;
  }

  lemma {:induction false} AfterConcat(g: Session, a: seq<Input>, b: seq<Input>)
    ensures After(g, a + b) == After(After(g, a), b)
    ensures Outputs(g, a + b) == Outputs(g, a) + Outputs(After(g, a), b)
  {
    if b == [] {
      assert a + b == a;
    } else {
      var init, last := b[..|b| - 1], b[|b| - 1];
      assert a + b == a + init + [last] && b == init + [last];
      AfterConcat(g, a, init);
      AfterSnoc(g, a + init, last);
      AfterSnoc(After(g, a), init, last);
      Associate(Outputs(g, a), Outputs(After(g, a), init), Handle(After(g, a + init), last).outputs);
    }
  }

  lemma Associate(a: seq<Output>, b: seq<Output>, c: seq<Output>)
    ensures a + b + c == a + (b + c)
  {
  }

  // state and calls are what handling inputs from g, with no calls made before, leads to.
  ghost predicate Tracks(g: Session, before: seq<Output>, inputs: seq<Input>, state: Session, calls: seq<Output>) {
    state == After(g, inputs) && calls == before + Outputs(g, inputs)
  }

  lemma TracksStart(g: Session, before: seq<Output>)
    ensures Tracks(g, before, [], g, before)
  {
  }

  lemma TracksEnd(g: Session, before: seq<Output>, inputs: seq<Input>, state: Session, calls: seq<Output>)
    requires Tracks(g, before, inputs, state, calls)
    ensures state == After(g, inputs)
  {
  }

  lemma TracksSnoc(g: Session, before: seq<Output>, inputs: seq<Input>, state: Session, calls: seq<Output>, i: Input)
    requires Tracks(g, before, inputs, state, calls)
    ensures Tracks(g, before, inputs + [i], Handle(state, i).session, calls + Handle(state, i).outputs)
  {
    AfterSnoc(g, inputs, i);
    Associate(before, Outputs(g, inputs), Handle(state, i).outputs);
  }

  lemma TracksConcat(g: Session, before: seq<Output>, a: seq<Input>, mid: Session, calls: seq<Output>,
                     b: seq<Input>, state: Session, calls': seq<Output>)
    requires Tracks(g, before, a, mid, calls) && Tracks(mid, calls, b, state, calls')
    ensures Tracks(g, before, a + b, state, calls')
  {
    AfterConcat(g, a, b);
    Associate(before, Outputs(g, a), Outputs(mid, b));
  }

  // The payloads one connection handles: all that arrive, or up to the first that ends it.
  function Served(g: Session, script: seq<Input>): seq<Input>
    decreases |script|
  {
    if script == [] then []
    else if Handle(g, script[0]).flow != Continue then [script[0]]
    else [script[0]] + Served(Handle(g, script[0]).session, script[1..])
  }

  function Ending(g: Session, script: seq<Input>): Flow
    decreases |script|
  {
    if script == [] then Continue
    else if Handle(g, script[0]).flow != Continue then Handle(g, script[0]).flow
    else Ending(Handle(g, script[0]).session, script[1..])
  }

  // Everything a run handles: connection after connection, until one is cut short by the end of
  // the script, cancelled or refused.
  function Connections(g: Session, scripts: seq<seq<Input>>): seq<Input>
    decreases |scripts|
  {
    if scripts == [] then []
    else
      var first := [Dialled] + Served(g, scripts[0]);
      var flow := Ending(g, scripts[0]);
      if flow == Continue then first
      else if flow == Cancelled || flow == Fatal then first + [HungUp]
      else first + [HungUp] + Connections(After(g, first + [HungUp]), scripts[1..])
  }

  // ------------------------------------------------------------- the running client

  class Client {
    var sessionId: Str
    var sequence: int
    var lastActivity: Option<int>
    var readySince: Option<int>
    var gapPending: bool
    var calls: seq<Output>

    function State(): Session
      reads this
    {
      Session(sessionId, sequence, lastActivity, readySince, gapPending)
    }

    constructor ()
      ensures State() == INITIAL && calls == []
    {
      sessionId, sequence, lastActivity, readySince, gapPending, calls := [], 0, None, None, false, [];
    }

    method HandleHello(previousActivity: Option<int>, later: int, writeOk: bool) returns (flow: Flow)
      modifies this
      ensures var g := old(State()).(lastActivity := previousActivity);
              var o := HandleOp(g, old(State()), Hello(true), 0, later, writeOk);
              State() == o.session && calls == old(calls) + o.outputs && flow == o.flow
    {
      var hadSession := sessionId != [];
      var resumable := hadSession && previousActivity.Some? && later - previousActivity.value <= RESUME_WINDOW;
      var id, currentSeq := sessionId, sequence;
      if hadSession && !resumable {
        sessionId, sequence, gapPending := [], 0, true;
        currentSeq := 0;
      }
      if !writeOk {
        return Retry;
      }
      if resumable {
        calls := calls + [SentResume(id, currentSeq)];
      } else {
        calls := calls + [SentIdentify];
      }
      flow := Continue;
    }

    method HandleInput(i: Input) returns (flow: Flow)
      modifies this
      ensures var o := Handle(old(State()), i);
              State() == o.session && calls == old(calls) + o.outputs && flow == o.flow
    {
      match i
      case Dialled =>
        flow := Continue;
      case DialFailed =>
        flow := Retry;
      case HungUp =>
        readySince := None;
        flow := Continue;
      case ReadError(cancelled, authFailed) =>
        flow := if cancelled then Cancelled else if authFailed then Fatal else Retry;
      case Payload(op, s, now, later, writeOk) =>
        var previousActivity := lastActivity;
        lastActivity := Some(now);
        if s.Some? && s.value > sequence {
          sequence := s.value;
        }
        flow := HandlePayload(op, previousActivity, now, later, writeOk);
    }

    method HandlePayload(op: Op, previousActivity: Option<int>, now: int, later: int, writeOk: bool) returns (flow: Flow)
      modifies this
      ensures var g := old(State()).(lastActivity := previousActivity);
              var o := HandleOp(g, old(State()), op, now, later, writeOk);
              State() == o.session && calls == old(calls) + o.outputs && flow == o.flow
    {
      flow := Continue;
      match op
      case Hello(intervalOk) =>
        if !intervalOk {
          return Retry;
        }
        flow := HandleHello(previousActivity, later, writeOk);
      case Ready(ready) =>
        if ready.None? {
          return Retry;
        }
        sessionId := ready.value;
        readySince := Some(now);
        var gap := gapPending;
        gapPending := false;
        if gap {
          calls := calls + [GapCall];
        }
        calls := calls + [PresenceActivated];
        calls := calls + [EventCall(ReadyEvent, sequence)];
      case Resumed =>
        calls := calls + [PresenceActivated];
        calls := calls + [EventCall(ResumedEvent, sequence)];
      case Dispatch(kind) =>
        calls := calls + [EventCall(OtherEvent(kind), sequence)];
      case HeartbeatRequest =>
        if !writeOk {
          return Retry;
        }
        calls := calls + [SentHeartbeat(sequence)];
      case HeartbeatAck =>
      case Reconnect =>
        flow := Retry;
      case InvalidSession(resumable) =>
        if !resumable {
          sessionId, sequence, gapPending := [], 0, true;
        }
        flow := Retry;
      case Unknown =>
    }

    // One connection: payloads until the first that ends it, or as many as have arrived.
    method Connect(script: seq<Input>) returns (flow: Flow, ghost inputs: seq<Input>)
      modifies this
      ensures Tracks(old(State()), old(calls), inputs, State(), calls)
      ensures inputs == [Dialled] + Served(old(State()), script) && flow == Ending(old(State()), script)
    {
      inputs := [];
      TracksSnoc(State(), calls, [], State(), calls, Dialled);
      flow := HandleInput(Dialled);
      inputs := inputs + [Dialled];
      for k := 0 to |script|
        invariant Tracks(old(State()), old(calls), inputs, State(), calls)
        invariant inputs + Served(State(), script[k..]) == [Dialled] + Served(old(State()), script)
        invariant flow == Continue && Ending(State(), script[k..]) == Ending(old(State()), script)
      {
        ghost var state, done := State(), inputs;
        TracksSnoc(old(State()), old(calls), inputs, State(), calls, script[k]);
        flow := HandleInput(script[k]);
        inputs := inputs + [script[k]];
        ServedStep(state, done, script[k..]);
        if flow != Continue {
          return;
        }
      }
    }

    // Run dials again after every retryable end, keeping sessionId, sequence and gapPending.
    method Run(scripts: seq<seq<Input>>) returns (flow: Flow, ghost inputs: seq<Input>)
      modifies this
      ensures Tracks(old(State()), old(calls), inputs, State(), calls)
      ensures inputs == Connections(old(State()), scripts)
    {
      hide Tracks, Connections, Served, Ending, Handle, After;
      inputs := [];
      flow := Continue;
      TracksStart(State(), calls);
      for k := 0 to |scripts|
        invariant Tracks(old(State()), old(calls), inputs, State(), calls)
        invariant inputs + Connections(State(), scripts[k..]) == Connections(old(State()), scripts)
      {
        ghost var mid, made, done := State(), calls, inputs;
        ghost var more;
        flow, more := Connect(scripts[k]);
        TracksConcat(old(State()), old(calls), inputs, mid, made, more, State(), calls);
        inputs := inputs + more;
        ConnectionsStep(mid, done, scripts[k..]);
        if flow == Continue {
          return;
        }
        TracksSnoc(mid, made, more, State(), calls, HungUp);
        TracksSnoc(old(State()), old(calls), inputs, State(), calls, HungUp);
        var _ := HandleInput(HungUp);
        inputs := inputs + [HungUp];
        TracksEnd(mid, made, more + [HungUp], State(), calls);
        if flow == Cancelled || flow == Fatal {
          return;
        }
      }
      ConnectionsEnd(State());
      assert scripts[|scripts|..] == [];
    }
  }

  lemma ServedStep(g: Session, done: seq<Input>, script: seq<Input>)
    requires script != []
    ensures done + Served(g, script) ==
            done + [script[0]]
            + if Handle(g, script[0]).flow != Continue then [] else Served(Handle(g, script[0]).session, script[1..])
  {
  }

  lemma ConnectionsEnd(g: Session)
    ensures Connections(g, []) == []
  {
  }

  lemma ConnectionsStep(g: Session, done: seq<Input>, scripts: seq<seq<Input>>)
    requires scripts != []
    ensures var first := [Dialled] + Served(g, scripts[0]);
            var flow := Ending(g, scripts[0]);
            done + Connections(g, scripts) ==
            done + first +
            (if flow == Continue then []
             else if flow == Cancelled || flow == Fatal then [HungUp]
             else [HungUp] + Connections(After(g, first + [HungUp]), scripts[1..]))
  {
  }
}
