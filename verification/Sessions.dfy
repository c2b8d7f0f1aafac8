/** What holds over every run of the gateway session machine, across any number of connections. */
module Sessions {
  import opened Bytes
  import opened Wrappers
  import opened Gateway

  // The state and calls of the run that starts a fresh client.
  function StateOf(run: seq<Input>): Session {
    After(INITIAL, run)
  }

  // The state the last input of a run found, and what handling it did.
  function Last(run: seq<Input>): Outcome
    requires run != []
  {
    Handle(StateOf(run[..|run| - 1]), run[|run| - 1])
  }

  predicate IsReady(i: Input) {
    i.Payload? && i.op.Ready? && i.op.sessionId.Some?
  }

  // The payloads that give a session up: a refusal to resume, or a HELLO that comes too late.
  predicate Resets(g: Session, i: Input) {
    && i.Payload?
    && (i.op == InvalidSession(false) || (i.op == Hello(true) && g.sessionId != [] && !Resumable(g, i.later)))
  }

  // ------------------------------------------------------------- sequence epochs

  // One step zeroes the sequence, clears the session and raises the gap together, or does none of them.
  lemma ResetTogether(g: Session, i: Input)
    ensures var t := Handle(g, i).session;
            if Resets(g, i) then t.sequence == 0 && t.sessionId == [] && t.gapPending
            else
              && t.sequence == Advance(g.sequence, if i.Payload? then i.s else None) && t.sequence >= g.sequence
              && (t.gapPending ==> g.gapPending)
              && (t.sessionId != g.sessionId ==> IsReady(i))
  {
  }

  // Inputs after the last reset of a run.
  function Epoch(run: seq<Input>): seq<Input> {
    if run == [] then []
    else
      var init, i := run[..|run| - 1], run[|run| - 1];
      if Resets(StateOf(init), i) then [] else Epoch(init) + [i]
  }

  // The largest sequence number received, or zero.
  function MaxReceived(inputs: seq<Input>): int {
    if inputs == [] then 0
    else
      var i := inputs[|inputs| - 1];
      Advance(MaxReceived(inputs[..|inputs| - 1]), if i.Payload? then i.s else None)
  }

  // The numbers handed to OnEvent since the last reset, oldest first.
  function Handed(run: seq<Input>): seq<int> {
    if run == [] then []
    else
      var init, i := run[..|run| - 1], run[|run| - 1];
      if Resets(StateOf(init), i) then [] else Handed(init) + Numbers(Last(run).outputs)
  }

  function Numbers(outputs: seq<Output>): seq<int> {
    if outputs == [] then []
    else
      var o := outputs[|outputs| - 1];
      Numbers(outputs[..|outputs| - 1]) + if o.EventCall? then [o.seqNo] else []
  }

  lemma NumbersSnoc(a: seq<Output>, o: Output)
    ensures Numbers(a + [o]) == Numbers(a) + if o.EventCall? then [o.seqNo] else []
  {
    assert (a + [o])[..|a|] == a;
  }

  // What one input brings about: nothing, one call, or the calls that open a session.
  predicate Shape(o: seq<Output>, n: int) {
    || o == []
    || ((o[|o| - 1].EventCall? ==> o[|o| - 1].seqNo == n) &&
        o[..|o| - 1] in [[], [PresenceActivated], [GapCall, PresenceActivated]])
  }

  lemma HandleShape(g: Session, i: Input)
    ensures Shape(Handle(g, i).outputs, Handle(g, i).session.sequence)
  {
    var o := Handle(g, i).outputs;
    if |o| == 2 {
      assert o[..1] == [PresenceActivated];
    } else if |o| == 3 {
      assert o[..2] == [GapCall, PresenceActivated];
    }
  }

  lemma NumbersOf(g: Session, i: Input)
    ensures Numbers(Handle(g, i).outputs) == [] || Numbers(Handle(g, i).outputs) == [Handle(g, i).session.sequence]
  {
    hide Handle, Numbers;
    HandleShape(g, i);
    NoNumbers();
    var o := Handle(g, i).outputs;
    if o != [] {
      var n := |o| - 1;
      NumbersSnoc(o[..n], o[n]);
      assert o[..n] + [o[n]] == o;
    }
  }

  lemma NoNumbers()
    ensures Numbers([]) == [] && Numbers([PresenceActivated]) == [] && Numbers([GapCall, PresenceActivated]) == []
  {
    hide Numbers;
    assert Numbers([]) == [] by {
      NumbersNothing();
    }
    NumbersSnoc([], PresenceActivated);
    NumbersSnoc([], GapCall);
    NumbersSnoc([GapCall], PresenceActivated);
    assert [] + [PresenceActivated] == [PresenceActivated] && [] + [GapCall] == [GapCall];
    assert [GapCall] + [PresenceActivated] == [GapCall, PresenceActivated];
  }

  lemma NumbersNothing()
    ensures Numbers([]) == []
  {
  }

  predicate NonDecreasing(s: seq<int>) {
    forall i, j :: 0 <= i < j < |s| ==> s[i] <= s[j]
  }

  lemma {:induction false} SequenceIsMax(run: seq<Input>)
    ensures StateOf(run).sequence == MaxReceived(Epoch(run))
  {
    if run != [] {
      var init, i := run[..|run| - 1], run[|run| - 1];
      SequenceIsMax(init);
      ResetTogether(StateOf(init), i);
      assert (Epoch(init) + [i])[..|Epoch(init)|] == Epoch(init);
    }
  }

  lemma {:induction false} HandedInOrder(run: seq<Input>)
    ensures NonDecreasing(Handed(run))
    ensures forall n :: n in Handed(run) ==> n <= StateOf(run).sequence
  {
    if run != [] {
      var init, i := run[..|run| - 1], run[|run| - 1];
      HandedInOrder(init);
      var h := Handed(init);
      assert forall k :: 0 <= k < |h| ==> h[k] in h;
      ResetTogether(StateOf(init), i);
      NumbersOf(StateOf(init), i);
    }
  }

  lemma ResumeCarries(g: Session, i: Input, sessionId: Str, n: int)
    requires SentResume(sessionId, n) in Handle(g, i).outputs
    ensures sessionId == Handle(g, i).session.sessionId && n == Handle(g, i).session.sequence && sessionId != []
  {
    hide Advance;
  }

  // Within an epoch subscribers see numbers that never go back, and a RESUME asks for exactly the
  // largest number received, so never for less than what was handed on.
  lemma SequenceEpochs(run: seq<Input>, sessionId: Str, n: int)
    requires run != [] && SentResume(sessionId, n) in Last(run).outputs
    ensures sessionId == StateOf(run).sessionId && sessionId != []
    ensures n == MaxReceived(Epoch(run))
    ensures NonDecreasing(Handed(run)) && forall m :: m in Handed(run) ==> m <= n
  {
    ResumeCarries(StateOf(run[..|run| - 1]), run[|run| - 1], sessionId, n);
    SequenceIsMax(run);
    HandedInOrder(run);
  }

  // ------------------------------------------------------------- gaps

  // Has a session been given up since the last READY (or since the start)?
  predicate LostSinceReady(run: seq<Input>) {
    run != [] &&
    var init, i := run[..|run| - 1], run[|run| - 1];
    if Resets(StateOf(init), i) then true
    else if IsReady(i) then false
    else LostSinceReady(init)
  }

  lemma {:induction false} GapPendingMeaning(run: seq<Input>)
    ensures StateOf(run).gapPending <==> LostSinceReady(run)
  {
    if run != [] {
      GapPendingMeaning(run[..|run| - 1]);
    }
  }

  // With any server: OnGap is called by a READY, once and before OnEvent, exactly when a session
  // was given up since the READY before it; nothing else calls it.
  lemma GapExactly(run: seq<Input>)
    requires run != []
    ensures IsReady(run[|run| - 1]) ==>
              Last(run).outputs == (if LostSinceReady(run[..|run| - 1]) then [GapCall] else [])
                                   + [PresenceActivated, EventCall(ReadyEvent, StateOf(run).sequence)]
    ensures !IsReady(run[|run| - 1]) ==> GapCall !in Last(run).outputs
  {
    GapPendingMeaning(run[..|run| - 1]);
  }

  // The server still owes a READY: an IDENTIFY went out on this connection and was not answered.
  predicate Owed(run: seq<Input>) {
    run != [] &&
    var init, i := run[..|run| - 1], run[|run| - 1];
    if SentIdentify in Last(run).outputs then true
    else if i.Dialled? || (i.Payload? && i.op.Ready?) then false
    else Owed(init)
  }

  // The server sends READY only in answer to an IDENTIFY, once each, and names the session.
  predicate Answering(run: seq<Input>) {
    run == [] ||
    var init, i := run[..|run| - 1], run[|run| - 1];
    Answering(init) && (IsReady(i) ==> Owed(init) && i.op.sessionId.value != [])
  }

  predicate HadReady(run: seq<Input>) {
    exists k :: 0 <= k < |run| && IsReady(run[k])
  }

  // After the first READY a client without a session owes a gap, and so does one that has identified.
  lemma {:induction false} GapOwed(run: seq<Input>)
    requires Answering(run) && HadReady(run)
    ensures StateOf(run).sessionId == [] ==> StateOf(run).gapPending
    ensures Owed(run) ==> StateOf(run).gapPending
  {
    var init, i := run[..|run| - 1], run[|run| - 1];
    var k :| 0 <= k < |run| && IsReady(run[k]);
    if k < |init| {
      assert IsReady(init[k]);
      GapOwed(init);
    }
  }

  // No silent session loss: every READY after the first announces a gap before its own event.
  lemma NoSilentSessionLoss(run: seq<Input>)
    requires run != [] && Answering(run) && IsReady(run[|run| - 1]) && HadReady(run[..|run| - 1])
    ensures Last(run).outputs == [GapCall, PresenceActivated, EventCall(ReadyEvent, StateOf(run).sequence)]
  {
    GapOwed(run[..|run| - 1]);
  }

  lemma OneMore(run: seq<Input>, i: Input)
    ensures StateOf(run + [i]) == Last(run + [i]).session
    ensures Last(run + [i]) == Handle(StateOf(run), i)
    ensures (run + [i])[..|run + [i]| - 1] == run
  {
    AfterSnoc(INITIAL, run, i);
  }

  function HelloAt(now: int): Input {
    Payload(Hello(true), None, now, now, true)
  }

  function ReadyAt(id: Str, now: int): Input {
    Payload(Ready(Some(id)), Some(1), now, now, true)
  }

  // A first session that got no id.
  function Nameless(): seq<Input> {
    [Dialled] + [HelloAt(1)] + [ReadyAt([], 2)]
  }

  lemma NamelessState()
    ensures StateOf(Nameless()) == Session([], 1, Some(2), Some(2), false) && HadReady(Nameless())
  {
    hide After, Last;
    AfterNothing();
    OneMore([], Dialled);
    assert [] + [Dialled] == [Dialled];
    OneMore([Dialled], HelloAt(1));
    OneMore([Dialled] + [HelloAt(1)], ReadyAt([], 2));
    assert IsReady(Nameless()[2]);
  }

  lemma AfterNothing()
    ensures StateOf([]) == INITIAL
  {
  }

  // The connection is lost, and the client identifies on the next one.
  function Redialled(): seq<Input> {
    Nameless() + [ReadError(false, false)] + [Dialled] + [HelloAt(3)]
  }

  lemma RedialledState()
    ensures StateOf(Redialled()) == Session([], 1, Some(3), Some(2), false)
    ensures Owed(Redialled()) && HadReady(Redialled())
  {
    hide After, Nameless, Last;
    NamelessState();
    OneMore(Nameless(), ReadError(false, false));
    OneMore(Nameless() + [ReadError(false, false)], Dialled);
    OneMore(Nameless() + [ReadError(false, false)] + [Dialled], HelloAt(3));
    var k :| 0 <= k < |Nameless()| && IsReady(Nameless()[k]);
    assert Redialled()[k] == Nameless()[k];
  }

  // The non-empty session id is needed: without it the second READY goes by unannounced.
  lemma EmptySessionIdLosesGap()
    ensures exists run: seq<Input> :: |run| >= 2 && IsReady(run[|run| - 1]) && HadReady(run[..|run| - 1])
              && Owed(run[..|run| - 1]) && GapCall !in Last(run).outputs
  {
    hide After, Redialled, Last, Owed;
    RedialledState();
    var run := Redialled() + [ReadyAt([0x61], 4)];
    OneMore(Redialled(), ReadyAt([0x61], 4));
    assert Last(run).outputs == [PresenceActivated, EventCall(ReadyEvent, 1)];
    assert |run| >= 2 && IsReady(run[|run| - 1]);
  }
}
