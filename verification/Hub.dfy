/** The event hub and its subscriptions, as the locked methods of the program see them. */
module Hubs {
  import opened Bytes
  import opened Wrappers
  import opened EventStreams
  import opened GapPlacement

  // The channel and the drop counter of one subscription. stream is the history that goes with them,
  // including what the reader of the subscription has done.
  class Subscription {
    var queue: seq<Event>
    var dropped: nat
    var closed: bool
    ghost var stream: Stream

    ghost predicate Valid()
      reads this
    {
      && Placed(stream) && stream.dropped == dropped && stream.closed == closed
      && |stream.queue| == |queue|
      && forall k :: 0 <= k < |queue| ==>
           stream.queue[k] < |stream.offered| && queue[k] == stream.offered[stream.queue[k]]
    }

    ghost predicate Open()
      reads this
    {
      Valid() && !closed
    }

    constructor ()
      ensures Valid() && stream == FRESH && !closed
    {
      queue, dropped, closed, stream := [], 0, false, FRESH;
    }

    // Hub.publish: hand the event over if there is room, else count it.
    method Publish(event: Event) returns (overflow: bool)
      requires Valid() && !closed
      modifies this
      ensures Valid() && stream == Offer(old(stream), event, true) && !closed
      ensures overflow == (|old(stream).queue| >= CAPACITY)
      ensures |old(queue)| < 1024 ==> !overflow && queue == old(queue) + [event] && dropped == old(dropped)
      ensures |old(queue)| >= 1024 ==> overflow && queue == old(queue) && dropped == old(dropped) + 1
    {
      OfferPlaced(stream, event);
      stream := Offer(stream, event, true);
      overflow := |queue| >= CAPACITY;
      if !overflow {
        queue := queue + [event];
      } else {
        dropped := dropped + 1;
      }
    }

    method Close()
      requires Valid() && !closed
      modifies this
      ensures Valid() && closed && stream == old(stream).(closed := true)
    {
      ClosePlaced(stream);
      closed, stream := true, stream.(closed := true);
    }

    method TakeDropped(f: Format, now: int) returns (n: nat)
      requires Valid() && !stream.armed && stream.pending == []
      modifies this
      ensures Valid() && closed == old(closed) && n == old(dropped)
      ensures stream == Step(f, old(stream), Swap(now))
    {
      SwapPlaced(f, stream, now);
      stream := Step(f, stream, Swap(now));
      n, dropped := dropped, 0;
    }

    method Receive(f: Format) returns (event: Event)
      requires Valid() && stream.armed && queue != []
      modifies this
      ensures Valid() && closed == old(closed) && event == old(queue)[0] && queue == old(queue)[1..]
      ensures stream == Step(f, old(stream), EventStreams.Receive) && stream.pending == f.event(event)
    {
      ReceivePlaced(f, stream);
      stream := Step(f, stream, EventStreams.Receive);
      event, queue := queue[0], queue[1..];
    }
  }

  lemma OfferPlaced(s: Stream, e: Event)
    requires Placed(s) && !s.closed
    ensures Placed(Offer(s, e, true))
  {
    var f := Format((_: Event) => [], (_: nat, _: int) => []);
    PublishPlaced(f, s, e);
  }

  lemma ClosePlaced(s: Stream)
    requires Placed(s) && !s.closed
    ensures Placed(s.(closed := true))
  {
    var f := Format((_: Event) => [], (_: nat, _: int) => []);
    StepPlaced(f, s, Action.Close);
  }

  // ------------------------------------------------------------- membership

  // Which handles are subscribed where; a channel without subscribers has no entry.
  datatype Members<S> = Members(byChannel: map<Str, set<S>>, global: set<S>) {
    ghost function At(channel: Str): set<S> {
      if channel in byChannel then byChannel[channel] else {}
    }

    ghost predicate Tidy() {
      && (forall c :: c in byChannel ==> byChannel[c] != {} && byChannel[c] !! global)
      && (forall c, d :: c in byChannel && d in byChannel && c != d ==> byChannel[c] !! byChannel[d])
    }

    // The subscriptions of these channels.
    ghost function Of(channels: set<Str>): set<S> {
      set c, s | c in channels && c in byChannel && s in byChannel[c] :: s
    }

    ghost function All(): set<S> {
      global + Of(byChannel.Keys)
    }

    lemma OfAll()
      requires Tidy()
      ensures Of(byChannel.Keys) !! global
    {
    }

    lemma OfNone()
      ensures Of({}) == {}
    {
    }

    lemma OfOne(channels: set<Str>, c: Str)
      requires Tidy() && c in channels && c in byChannel
      ensures Of(channels) == byChannel[c] + Of(channels - {c}) && byChannel[c] !! Of(channels - {c})
    {
    }

    // The set of this place has s.
    ghost predicate Holds(place: Option<Str>, s: S) {
      if place.None? then s in global else s in At(place.value)
    }

    lemma LeaveHolds(place: Option<Str>, s: S, other: Option<Str>, t: S)
      requires Holds(other, t) && t != s
      ensures Leave(place, s).Holds(other, t)
    {
    }

    ghost function Join(place: Option<Str>, s: S): Members<S> {
      match place
      case None => this.(global := global + {s})
      case Some(c) => this.(byChannel := byChannel[c := At(c) + {s}])
    }

    ghost function Leave(place: Option<Str>, s: S): Members<S> {
      match place
      case None => this.(global := global - {s})
      case Some(c) =>
        if At(c) - {s} == {} then this.(byChannel := byChannel - {c})
        else this.(byChannel := byChannel[c := At(c) - {s}])
    }
  }

  // The subscriptions that have no room for another event.
  ghost function Full(targets: set<Subscription>): set<Subscription>
    reads targets
  {
    set s | s in targets && |s.stream.queue| >= CAPACITY
  }

  // Sets that share nothing are counted one by one.
  lemma FullApart(a: set<Subscription>, b: set<Subscription>)
    requires a !! b
    ensures |Full(a + b)| == |Full(a)| + |Full(b)|
  {
    assert Full(a + b) == Full(a) + Full(b);
  }

  lemma FullNone()
    ensures Full({}) == {}
  {
  }

  lemma FullOne(targets: set<Subscription>, s: Subscription)
    requires s in targets
    ensures |Full(targets)| == |Full(targets - {s})| + if |s.stream.queue| >= CAPACITY then 1 else 0
  {
    assert targets == (targets - {s}) + {s};
    FullApart(targets - {s}, {s});
    assert Full({s}) == if |s.stream.queue| >= CAPACITY then {s} else {};
  }

  class Hub {
    var byChannel: map<Str, set<Subscription>>
    var global: set<Subscription>
    var overflows: nat

    ghost function State(): Members<Subscription>
      reads this
    {
      Members(byChannel, global)
    }

    ghost function Live(): set<Subscription>
      reads this
    {
      State().All()
    }

    ghost predicate Valid()
      reads this, Live()
    {
      && State().Tidy()
      && (forall s :: s in global ==> s.Open())
      && (forall c, s :: c in byChannel && s in byChannel[c] ==> s.Open())
    }

    constructor ()
      ensures Valid() && State() == Members(map[], {})
    {
      byChannel, global, overflows := map[], {}, 0;
    }

    method SubscribeAll() returns (s: Subscription)
      requires Valid()
      modifies this`global
      ensures Valid() && fresh(s) && s.Open() && s.stream == FRESH
      ensures State() == old(State()).Join(None, s)
    {
      hide Subscription.Valid;
      s := new Subscription();
      global := global + {s};
    }

    method Subscribe(channel: Str) returns (s: Subscription)
      requires Valid()
      modifies this`byChannel
      ensures Valid() && fresh(s) && s.Open() && s.stream == FRESH
      ensures State() == old(State()).Join(Some(channel), s)
    {
      hide Subscription.Valid;
      s := new Subscription();
      if channel !in byChannel {
        byChannel := byChannel[channel := {}];
      }
      byChannel := byChannel[channel := byChannel[channel] + {s}];
    }

    method UnsubscribeAll(s: Subscription)
      requires Valid()
      modifies this`global, s
      ensures Valid() && State() == old(State()).Leave(None, s)
      ensures s in old(global) ==> s.closed && s.stream == old(s.stream).(closed := true)
      ensures s !in old(global) ==> unchanged(s)
    {
      if s in global {
        global := global - {s};
        s.Close();
      }
    }

    method Unsubscribe(channel: Str, s: Subscription)
      requires Valid()
      modifies this`byChannel, s
      ensures Valid() && State() == old(State()).Leave(Some(channel), s)
      ensures s in old(State()).At(channel) ==> s.closed && s.stream == old(s.stream).(closed := true)
      ensures s !in old(State()).At(channel) ==> unchanged(s)
    {
      hide Subscription.Valid;
      if channel in byChannel {
        if s in byChannel[channel] {
          assert s.Open();
          byChannel := byChannel[channel := byChannel[channel] - {s}];
          s.Close();
        } else {
          assert byChannel[channel] - {s} == byChannel[channel];
        }
        assert byChannel == old(byChannel)[channel := old(byChannel)[channel] - {s}];
        if byChannel[channel] == {} {
          byChannel := byChannel - {channel};
          assert byChannel == old(byChannel) - {channel};
        }
      } else {
        assert byChannel == byChannel - {channel};
      }
    }

    // overflows counts the calls of the overflow callback.
    method Send(s: Subscription, event: Event)
      requires s.Open()
      modifies this`overflows, s
      ensures s.Open() && s.stream == Offer(old(s.stream), event, true)
      ensures overflows == old(overflows) + if |old(s.stream).queue| >= CAPACITY then 1 else 0
    {
      hide Subscription.Valid, Offer;
      var overflow := s.Publish(event);
      if overflow {
        overflows := overflows + 1;
      }
    }

    // One pass over a set of subscribers, in whatever order the map yields them: the callback is called
    // once for each one without room.
    method PublishTo(targets: set<Subscription>, event: Event)
      requires forall s :: s in targets ==> s.Open()
      modifies this`overflows, targets
      ensures forall s :: s in targets ==> s.Open() && s.stream == Offer(old(s.stream), event, true)
      ensures overflows == old(overflows) + |old(Full(targets))|
    {
      hide Subscription.Open, Offer, Full;
      var rest := targets;
      while rest != {}
        invariant rest <= targets && overflows + |Full(rest)| == old(overflows) + |old(Full(targets))|
        invariant forall s :: s in targets ==> s.Open()
        invariant forall s :: s in targets - rest ==> s.stream == Offer(old(s.stream), event, true)
        invariant forall s :: s in rest ==> s.stream == old(s.stream)
        decreases rest
      {
        var s :| s in rest;
        FullOne(rest, s);
        Send(s, event);
        rest := rest - {s};
      }
      FullNone();
    }

    // The subscribers of one channel, and nobody else.
    method PublishChannel(channel: Str, event: Event)
      requires Valid() && channel in byChannel
      modifies this`overflows, byChannel[channel]
      ensures Valid() && State() == old(State())
      ensures forall s :: s in byChannel[channel] ==> s.stream == Offer(old(s.stream), event, true)
      ensures forall s :: s in global ==> s.stream == old(s.stream)
      ensures forall c, s :: c in byChannel && c != channel && s in byChannel[c] ==> s.stream == old(s.stream)
      ensures overflows == old(overflows) + |old(Full(byChannel[channel]))|
    {
      hide Subscription.Valid, Offer;
      PublishTo(byChannel[channel], event);
    }

    method PublishGlobal(event: Event)
      requires Valid()
      modifies this`overflows, global
      ensures Valid() && State() == old(State())
      ensures forall s :: s in global ==> s.stream == Offer(old(s.stream), event, true)
      ensures forall c, s :: c in byChannel && s in byChannel[c] ==> s.stream == old(s.stream)
      ensures overflows == old(overflows) + |old(Full(global))|
    {
      hide Subscription.Valid, Offer;
      PublishTo(global, event);
    }

    // The subscriptions that an event of this channel goes to.
    ghost function Reached(channel: Str): set<Subscription>
      reads this
    {
      if channel == [] then {} else State().At(channel) + global
    }

    method Publish(event: Event)
      requires Valid()
      modifies this`overflows, Live()
      ensures Valid() && State() == old(State())
      ensures forall s :: s in global ==>
                s.stream == if event.channel != [] then Offer(old(s.stream), event, true) else old(s.stream)
      ensures forall c, s :: c in byChannel && s in byChannel[c] ==>
                s.stream == if c == event.channel != [] then Offer(old(s.stream), event, true) else old(s.stream)
      ensures overflows == old(overflows) + |old(Full(Reached(event.channel)))|
    {
      hide Hub.Valid, Offer;
      if event.channel == [] {
        return;
      }
      CountReached(event.channel);
      ghost var globally := Full(global);
      if event.channel in byChannel {
        PublishChannel(event.channel, event);
      }
      assert Full(global) == globally;
      PublishGlobal(event);
    }

    lemma CountReached(channel: Str)
      requires Valid() && channel != []
      ensures |Full(Reached(channel))| == |Full(State().At(channel))| + |Full(global)|
    {
      hide Subscription.Open;
      FullApart(State().At(channel), global);
    }

    lemma Apart()
      requires Valid()
      ensures State().Tidy() && State().Of(byChannel.Keys) !! global
    {
      State().OfAll();
    }

    lemma CountChannel(channels: set<Str>, c: Str)
      requires Valid() && c in channels && c in byChannel
      ensures var rest := State().Of(channels - {c});
              byChannel[c] !! rest && |Full(State().Of(channels))| == |Full(byChannel[c])| + |Full(rest)|
    {
      hide Subscription.Open;
      State().OfOne(channels, c);
      FullApart(byChannel[c], State().Of(channels - {c}));
    }

    method GapLocal(reason: Str)
      requires Valid()
      modifies this`overflows, State().Of(byChannel.Keys)
      ensures Valid() && State() == old(State())
      ensures forall s :: s in global ==> s.stream == old(s.stream)
      ensures forall c, s :: c in byChannel && s in byChannel[c] ==>
                s.stream == Offer(old(s.stream), GapNotice(c, reason), true)
      ensures overflows == old(overflows) + |old(Full(State().Of(byChannel.Keys)))|
    {
      hide Hub.Valid, Offer, Members.Tidy, Full;
      var channels := byChannel.Keys;
      while channels != {}
        invariant channels <= byChannel.Keys && Valid() && State() == old(State())
        invariant overflows + |Full(State().Of(channels))| == old(overflows) + |old(Full(State().Of(byChannel.Keys)))|
        invariant forall s :: s in global ==> s.stream == old(s.stream)
        invariant forall c, s :: c in channels && s in byChannel[c] ==> s.stream == old(s.stream)
        invariant forall c, s :: c in byChannel && c !in channels && s in byChannel[c] ==>
                    s.stream == Offer(old(s.stream), GapNotice(c, reason), true)
        decreases channels
      {
        var c :| c in channels;
        CountChannel(channels, c);
        PublishChannel(c, GapNotice(c, reason));
        channels := channels - {c};
      }
      State().OfNone();
      FullNone();
    }

    // Every live subscription gets one notice; the ones of a channel are told which.
    method GapAll(reason: Str)
      requires Valid()
      modifies this`overflows, Live()
      ensures Valid() && State() == old(State())
      ensures forall s :: s in global ==> s.stream == Offer(old(s.stream), GapNotice([], reason), true)
      ensures forall c, s :: c in byChannel && s in byChannel[c] ==>
                s.stream == Offer(old(s.stream), GapNotice(c, reason), true)
      ensures overflows == old(overflows) + |old(Full(Live()))|
    {
      hide Hub.Valid, Offer, Members.Tidy;
      Apart();
      FullApart(State().Of(byChannel.Keys), global);
      assert State().Of(byChannel.Keys) + global == Live();
      ghost var globally := Full(global);
      GapLocal(reason);
      assert Full(global) == globally;
      PublishGlobal(GapNotice([], reason));
    }
  }
}
