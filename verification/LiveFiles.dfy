/** Live event files: one reader per open fid, fed by its own hub subscription. */
module LiveFiles {
  import opened Bytes
  import opened Wrappers
  import opened EventStreams
  import opened GapPlacement
  import opened Hubs

  class LiveReader {
    const channelId: Str
    const sub: Subscription
    var pending: Str

    // Between two Reads the reader is not waiting for anything.
    ghost predicate Valid()
      reads this, sub
    {
      sub.Valid() && sub.stream.pending == pending && !sub.stream.armed
    }

    constructor (channelId: Str, sub: Subscription)
      requires sub.Open() && sub.stream == FRESH
      ensures Valid() && this.channelId == channelId && this.sub == sub
    {
      hide Subscription.Valid;
      this.channelId, this.sub, this.pending := channelId, sub, [];
    }

    // What other goroutines do at a point where they may run.
    method Interfere(f: Format, traffic: seq<Event>, closing: bool, ghost from: Stream, ghost done: seq<Action>)
      returns (ghost actions: seq<Action>)
      requires sub.Valid() && Run(f, from, done) == Some(sub.stream) && OneStep(done)
      requires sub.closed ==> traffic == [] && !closing
      modifies sub
      ensures sub.Valid() && Run(f, from, actions) == Some(sub.stream) && OneStep(actions)
      ensures sub.stream.armed == old(sub.stream.armed) && sub.stream.pending == old(sub.stream.pending)
      ensures sub.stream.returned == old(sub.stream.returned)
      ensures sub.closed == (old(sub.closed) || closing)
    {
      actions := done;
      for k := 0 to |traffic|
        invariant sub.Valid() && Run(f, from, actions) == Some(sub.stream) && OneStep(actions)
        invariant sub.stream.armed == old(sub.stream.armed) && sub.stream.pending == old(sub.stream.pending)
        invariant sub.stream.returned == old(sub.stream.returned)
        invariant sub.closed == old(sub.closed)
      {
        RunOne(f, sub.stream, Publish(traffic[k]));
        RunConcat(f, from, actions, [Publish(traffic[k])]);
        var _ := sub.Publish(traffic[k]);
        actions := actions + [Publish(traffic[k])];
      }
      if closing {
        RunOne(f, sub.stream, Action.Close);
        RunConcat(f, from, actions, [Action.Close]);
        sub.Close();
        actions := actions + [Action.Close];
      }
    }

    // One Read call. Publishers may act before it looks at the drop counter and again, for as long as
    // it has to wait, between the counter and the queue; closing says whether the fid is closed then.
    method Read(f: Format, count: nat, now: int, before: seq<Event>, between: seq<Event>, closing: bool)
      returns (out: Str, blocked: bool, ghost actions: seq<Action>)
      requires Valid() && Rendering(f) && count < 0x8000_0000_0000_0000
      requires sub.closed ==> before == [] && between == [] && !closing
      modifies this, sub
      ensures sub.Valid() && sub.stream.pending == pending && sub.stream.armed == blocked
      ensures Run(f, old(sub.stream), actions) == Some(sub.stream) && OneStep(actions)
      ensures sub.stream.returned == old(sub.stream.returned) + out && |out| <= count
      ensures !blocked ==> |out| == count || pending == []
      ensures old(pending) != [] ==> !blocked && out + pending == old(pending)
      ensures (old(sub.closed) ==> sub.closed) && (sub.closed ==> old(sub.closed) || closing)
      ensures blocked ==> out == [] && sub.queue == [] && sub.dropped == 0 && !sub.closed
      ensures !blocked && out == [] ==> count == 0 || (sub.queue == [] && sub.dropped == 0 && sub.closed)
    {
      hide Enabled, Subscription.Valid, Placed;
      ghost var s0 := sub.stream;
      actions := Interfere(f, before, false, s0, []);
      out, blocked := [], false;
      while true
        invariant sub.Valid() && sub.stream.pending == pending && !sub.stream.armed
        invariant Run(f, s0, actions) == Some(sub.stream) && OneStep(actions)
        invariant sub.stream.returned == s0.returned
        invariant old(pending) != [] ==> pending == old(pending)
        invariant (old(sub.closed) ==> sub.closed) && (sub.closed ==> old(sub.closed) || closing)
        invariant pending == [] && sub.closed ==> between == [] && !closing
        decreases if pending == [] then 1 else 0
      {
        if |pending| > 0 {
          out, actions := Hand(f, count, s0, actions);
          return;
        }
        var dropped;
        dropped, actions := Counter(f, now, s0, actions);
        if dropped > 0 {
          continue;
        }
        actions := Interfere(f, between, closing, s0, actions);
        if sub.queue == [] {
          blocked, actions := Wait(f, s0, actions);
          return;
        }
        actions := Take(f, s0, actions);
      }
    }

    // Copies out the front of pending.
    method Hand(f: Format, count: nat, ghost from: Stream, ghost done: seq<Action>)
      returns (out: Str, ghost actions: seq<Action>)
      requires Valid() && pending != [] && Run(f, from, done) == Some(sub.stream) && OneStep(done)
      modifies this, sub
      ensures Valid() && Run(f, from, actions) == Some(sub.stream) && OneStep(actions)
      ensures sub.stream.returned == old(sub.stream.returned) + out && |out| <= count
      ensures sub.closed == old(sub.closed)
      ensures out + pending == old(pending) && (|out| == count || pending == [])
      ensures out == [] ==> count == 0
    {
      var n := if count > |pending| then |pending| else count;
      out := pending[..n];
      pending := pending[n..];
      RunOne(f, sub.stream, Return(count));
      RunConcat(f, from, done, [Return(count)]);
      StepPlaced(f, sub.stream, Return(count));
      sub.stream := Step(f, sub.stream, Return(count));
      actions := done + [Return(count)];
    }

    // Swaps the drop counter and turns a positive count into a GAP record.
    method Counter(f: Format, now: int, ghost from: Stream, ghost done: seq<Action>)
      returns (dropped: nat, ghost actions: seq<Action>)
      requires Valid() && pending == [] && Run(f, from, done) == Some(sub.stream) && OneStep(done) && Rendering(f)
      modifies this, sub
      ensures sub.Valid() && sub.stream.pending == pending && sub.stream.armed == (dropped == 0)
      ensures Run(f, from, actions) == Some(sub.stream) && OneStep(actions)
      ensures sub.stream.returned == old(sub.stream.returned) && sub.closed == old(sub.closed)
      ensures dropped > 0 <==> pending != []
    {
      RunOne(f, sub.stream, Swap(now));
      RunConcat(f, from, done, [Swap(now)]);
      dropped := sub.TakeDropped(f, now);
      actions := done + [Swap(now)];
      if dropped > 0 {
        pending := f.gap(dropped, now);
      }
    }

    method Take(f: Format, ghost from: Stream, ghost done: seq<Action>) returns (ghost actions: seq<Action>)
      requires sub.Valid() && sub.stream.armed && sub.queue != [] && Rendering(f)
      requires Run(f, from, done) == Some(sub.stream) && OneStep(done)
      modifies this, sub
      ensures Valid() && pending != [] && Run(f, from, actions) == Some(sub.stream) && OneStep(actions)
      ensures sub.stream.returned == old(sub.stream.returned) && sub.closed == old(sub.closed)
    {
      RunOne(f, sub.stream, Action.Receive);
      RunConcat(f, from, done, [Action.Receive]);
      var event := sub.Receive(f);
      actions := done + [Action.Receive];
      pending := f.event(event);
    }

    // A closed, drained channel ends the file; an open one keeps the reader waiting.
    method Wait(f: Format, ghost from: Stream, ghost done: seq<Action>) returns (blocked: bool, ghost actions: seq<Action>)
      requires sub.Valid() && sub.stream.armed && sub.queue == [] && pending == sub.stream.pending
      requires Run(f, from, done) == Some(sub.stream) && OneStep(done)
      modifies sub`stream
      ensures sub.Valid() && sub.stream.armed == blocked && sub.stream.pending == pending
      ensures Run(f, from, actions) == Some(sub.stream) && OneStep(actions)
      ensures sub.stream.returned == old(sub.stream.returned)
      ensures blocked == !sub.closed && sub.dropped == 0
    {
      actions := done;
      blocked := !sub.closed;
      if !blocked {
        RunOne(f, sub.stream, EndOfFile);
        RunConcat(f, from, done, [EndOfFile]);
        StepPlaced(f, sub.stream, EndOfFile);
        sub.stream := Step(f, sub.stream, EndOfFile);
        actions := done + [EndOfFile];
      }
    }
  }

  twostate lemma HubStays(hub: Hub)
    requires old(hub.Valid()) && unchanged(hub) && forall s :: s in hub.Live() ==> unchanged(s)
    ensures hub.Valid()
  {
    forall s | s in hub.Live() && old(s.Open()) ensures s.Open() {
    }
    forall s | s in hub.global ensures s.Open() {
      assert s in hub.Live();
    }
    forall c, s | c in hub.byChannel && s in hub.byChannel[c] ensures s.Open() {
      assert s in hub.Live();
    }
  }

  // Work on one open subscription that leaves it open is nothing to the hub.
  twostate lemma HubHears(hub: Hub, new sub: Subscription)
    requires old(hub.Valid()) && unchanged(hub) && sub.Open()
    requires forall s :: s in hub.Live() && s != sub ==> unchanged(s)
    ensures hub.Valid()
  {
    forall s | s in hub.Live() && s != sub && old(s.Open()) ensures s.Open() {
    }
    forall s | s in hub.global ensures s.Open() {
      assert s in hub.Live();
    }
    forall c, s | c in hub.byChannel && s in hub.byChannel[c] ensures s.Open() {
      assert s in hub.Live();
    }
  }

  // One 9P file: an events file of a conversation, or the inbox.
  class LiveFile {
    const hub: Hub
    const inbox: bool
    var readers: map<nat, LiveReader>

    ghost function Place(reader: LiveReader): Option<Str> {
      if inbox then None else Some(reader.channelId)
    }

    // The hub's set that a reader's subscription belongs to holds it.
    ghost predicate Subscribed(reader: LiveReader)
      reads hub
    {
      hub.State().Holds(Place(reader), reader.sub)
    }

    // Every fid has a subscription of its own, where it asked for one.
    ghost predicate Valid()
      reads this, hub
    {
      && (forall fid :: fid in readers ==> Subscribed(readers[fid]))
      && (forall a, b :: a in readers && b in readers && a != b ==> readers[a].sub != readers[b].sub)
    }

    constructor (hub: Hub, inbox: bool)
      ensures Valid() && this.hub == hub && this.inbox == inbox && readers == map[]
    {
      this.hub, this.inbox, this.readers := hub, inbox, map[];
    }

    method Enter(fid: nat, id: Str, s: Subscription)
      requires hub.Valid() && s.Open() && s.stream == FRESH
      modifies this`readers
      ensures hub.Valid() && s.stream == FRESH
      ensures fid in readers && fresh(readers[fid]) && readers == old(readers)[fid := readers[fid]]
      ensures readers[fid].Valid() && readers[fid].sub == s && readers[fid].channelId == id
    {
      hide Hub.Valid, Subscription.Valid;
      var reader := new LiveReader(id, s);
      readers := readers[fid := reader];
      HubStays(hub);
    }

    // channel is what the conversation resolves to: nothing before its first message is sent.
    method Open(fid: nat, writing: bool, channel: Option<Str>) returns (ok: bool)
      requires Valid() && hub.Valid() && fid !in readers
      modifies this, hub
      ensures Valid() && hub.Valid()
      ensures ok == (!writing && (inbox || channel.Some?))
      ensures !ok ==> readers == old(readers) && hub.State() == old(hub.State())
      ensures ok ==>
                && readers.Keys == old(readers).Keys + {fid} && fresh(readers[fid]) && fresh(readers[fid].sub) && readers[fid].Valid()
                && (forall other :: other in old(readers) ==> readers[other] == old(readers)[other])
                && readers[fid].sub.stream == FRESH && (!inbox ==> readers[fid].channelId == channel.value)
                && hub.State() == old(hub.State()).Join(if inbox then None else channel, readers[fid].sub)
    {
      hide Subscription.Valid, Hub.Valid;
      if writing {
        return false;
      }
      var id, s := [], null;
      if inbox {
        s := hub.SubscribeAll();
      } else {
        if channel.None? {
          return false;
        }
        id := channel.value;
        s := hub.Subscribe(id);
      }
      Enter(fid, id, s);
      ok := true;
    }

    // A read of an open fid hands out the next bytes of its own stream, and a fid that is not open gets
    // an error. Nobody closes the fid meanwhile.
    method Read(fid: nat, f: Format, count: nat, now: int, before: seq<Event>, between: seq<Event>)
      returns (out: Option<Str>, blocked: bool, ghost actions: seq<Action>)
      requires Valid() && hub.Valid() && Rendering(f) && count < 0x8000_0000_0000_0000
      requires fid in readers ==> readers[fid].Valid()
      modifies if fid in readers then {readers[fid], readers[fid].sub} else {}
      ensures Valid() && hub.Valid() && (out.Some? <==> fid in readers)
      ensures out.Some? ==>
                var sub := readers[fid].sub;
                && sub.Open() && Run(f, old(readers[fid].sub.stream), actions) == Some(sub.stream) && OneStep(actions)
                && sub.stream.returned == old(readers[fid].sub.stream.returned) + out.value && |out.value| <= count
                && (!blocked ==> readers[fid].Valid() && (out.value == [] ==> count == 0))
                && (!blocked ==> |out.value| == count || readers[fid].pending == [])
                && (blocked ==> out.value == [] && sub.queue == [] && sub.dropped == 0)
    {
      hide Subscription.Valid, Run, Step, OneStep;
      if fid !in readers {
        return None, false, [];
      }
      var sub := readers[fid].sub;
      StaysOpen(fid);
      var bytes;
      bytes, blocked, actions := readers[fid].Read(f, count, now, before, between, false);
      out := Some(bytes);
      HubHears(hub, sub);
    }

    lemma StaysOpen(fid: nat)
      requires Valid() && hub.Valid() && fid in readers
      ensures readers[fid].sub.Open()
    {
    }

    // Closing a fid that is not open does nothing.
    method Close(fid: nat)
      requires Valid() && hub.Valid()
      modifies this, hub, if fid in readers then {readers[fid].sub} else {}
      ensures Valid() && hub.Valid() && readers == old(readers) - {fid}
      ensures fid !in old(readers) ==> hub.State() == old(hub.State())
      ensures fid in old(readers) ==>
                && hub.State() == old(hub.State()).Leave(Place(old(readers)[fid]), old(readers)[fid].sub)
                && old(readers)[fid].sub.closed
    {
      hide Subscription.Valid, Members.Leave;
      if fid in readers {
        var reader := readers[fid];
        readers := readers - {fid};
        ghost var before := hub.State();
        if inbox {
          hub.UnsubscribeAll(reader.sub);
        } else {
          hub.Unsubscribe(reader.channelId, reader.sub);
        }
        forall other | other in readers ensures Subscribed(readers[other]) {
          before.LeaveHolds(Place(reader), reader.sub, Place(readers[other]), readers[other].sub);
        }
      } else {
        assert readers - {fid} == readers;
      }
    }
  }
}
