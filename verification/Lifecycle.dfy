/**
 * Subscriptions over whole runs: opening and closing a fid each take two locked steps (hub, then
 * file, or file, then hub), and publishers run between them.
 */
module Lifecycle {
  import opened Bytes
  import opened Wrappers
  import opened Hubs

  // Where a subscription's handle is kept: by a thread inside Open, in a file's reader map under a
  // fid, or by a thread inside Close.
  datatype Slot = Opening(thread: nat) | Open(fid: nat) | Closing(thread: nat)

  datatype System = System(
    hub: Members<nat>,
    slots: map<Slot, nat>,
    place: map<nat, Option<Str>>,
    closed: set<nat>,
    next: nat,
    panicked: bool)

  ghost const START := System(Members(map[], {}), map[], map[], {}, 0, false)

  datatype Action =
    | SubscribeStep(thread: nat, where: Option<Str>)
    | RecordStep(thread: nat, fid: nat)
    | RemoveStep(thread: nat, fid: nat)
    | UnsubscribeStep(thread: nat)
    | PublishStep(channel: Str)
    | GapStep

  // A fid is not opened while it is open; that is the only demand on clients.
  predicate Enabled(s: System, a: Action) {
    match a
    case SubscribeStep(t, _) => Opening(t) !in s.slots
    case RecordStep(t, fid) => Opening(t) in s.slots && Open(fid) !in s.slots
    case RemoveStep(t, fid) => Closing(t) !in s.slots
    case UnsubscribeStep(t) => Closing(t) in s.slots
    case PublishStep(_) => true
    case GapStep => true
  }

  // Sending to a closed channel, or closing one again, is a panic.
  ghost function Step(s: System, a: Action): System
    requires Enabled(s, a)
  {
    match a
    case SubscribeStep(t, where) =>
      s.(hub := s.hub.Join(where, s.next), slots := s.slots[Opening(t) := s.next],
         place := s.place[s.next := where], next := s.next + 1)
    case RecordStep(t, fid) =>
      s.(slots := (s.slots - {Opening(t)})[Open(fid) := s.slots[Opening(t)]])
    case RemoveStep(t, fid) =>
      if Open(fid) in s.slots then s.(slots := (s.slots - {Open(fid)})[Closing(t) := s.slots[Open(fid)]]) else s
    case UnsubscribeStep(t) =>
      var sub := s.slots[Closing(t)];
      var where := if sub in s.place then s.place[sub] else None;
      var member := if where.None? then sub in s.hub.global else sub in s.hub.At(where.value);
      s.(hub := s.hub.Leave(where, sub), slots := s.slots - {Closing(t)},
         closed := if member then s.closed + {sub} else s.closed,
         panicked := s.panicked || (member && sub in s.closed))
    case PublishStep(channel) =>
      s.(panicked := s.panicked || (channel != [] && exists sub :: sub in s.hub.At(channel) + s.hub.global && sub in s.closed))
    case GapStep =>
      s.(panicked := s.panicked || (exists sub :: sub in s.hub.All() && sub in s.closed))
  }

  ghost function Run(s: System, actions: seq<Action>): Option<System>
    decreases |actions|
  {
    if actions == [] then Some(s)
    else if !Enabled(s, actions[0]) then None
    else Run(Step(s, actions[0]), actions[1..])
  }

  predicate Held(s: System, sub: nat) {
    exists slot :: slot in s.slots && s.slots[slot] == sub
  }

  ghost predicate Injective(s: System) {
    forall a, b :: a in s.slots && b in s.slots && a != b ==> s.slots[a] != s.slots[b]
  }

  // The hub holds exactly the subscriptions some slot holds, each where it subscribed.
  ghost predicate Matched(s: System) {
    && (forall sub: nat :: sub in s.hub.global <==> Held(s, sub) && sub in s.place && s.place[sub].None?)
    && (forall c, sub: nat :: sub in s.hub.At(c) <==> Held(s, sub) && sub in s.place && s.place[sub] == Some(c))
  }

  ghost predicate Inv(s: System) {
    && Injective(s) && Matched(s) && !s.panicked
    && (forall sub: nat :: Held(s, sub) ==> sub in s.place && sub < s.next && sub !in s.closed)
    && (forall sub: nat :: sub in s.place || sub in s.closed ==> sub < s.next)
    && (forall c :: c in s.hub.byChannel ==> s.hub.byChannel[c] != {})
  }

  lemma SubscribeKeeps(s: System, t: nat, where: Option<Str>)
    requires Inv(s) && Enabled(s, SubscribeStep(t, where))
    ensures Inv(Step(s, SubscribeStep(t, where)))
  {
    var u := Step(s, SubscribeStep(t, where));
    assert u.slots[Opening(t)] == s.next;
    assert !Held(s, s.next);
    forall sub: nat ensures Held(u, sub) <==> Held(s, sub) || sub == s.next {
      if slot :| slot in s.slots && s.slots[slot] == sub {
        assert u.slots[slot] == sub;
      }
    }
    forall c: Str, sub: nat ensures sub in u.hub.At(c) <==> sub in s.hub.At(c) || (where == Some(c) && sub == s.next) {
    }
  }

  // Moving a handle from one slot to a free one changes nothing the hub cares about.
  lemma MoveKeeps(s: System, from: Slot, to: Slot)
    requires Inv(s) && from in s.slots && to !in s.slots
    ensures Inv(s.(slots := (s.slots - {from})[to := s.slots[from]]))
  {
    var u := s.(slots := (s.slots - {from})[to := s.slots[from]]);
    forall sub: nat ensures Held(u, sub) <==> Held(s, sub) {
      if slot :| slot in s.slots && s.slots[slot] == sub {
        if slot == from {
          assert u.slots[to] == sub;
        } else {
          assert u.slots[slot] == sub;
        }
      }
    }
  }

  lemma UnsubscribeKeeps(s: System, t: nat)
    requires Inv(s) && Enabled(s, UnsubscribeStep(t))
    ensures Inv(Step(s, UnsubscribeStep(t)))
  {
    var u := Step(s, UnsubscribeStep(t));
    var gone := s.slots[Closing(t)];
    assert Held(s, gone);
    forall sub: nat ensures Held(u, sub) <==> Held(s, sub) && sub != gone {
      if Held(s, sub) && sub != gone {
        var slot :| slot in s.slots && s.slots[slot] == sub;
        assert u.slots[slot] == sub;
      }
    }
    LeaveAt(s.hub, s.place[gone], gone);
  }

  lemma LeaveAt(m: Members<nat>, where: Option<Str>, gone: nat)
    requires forall c :: c in m.byChannel ==> m.byChannel[c] != {}
    ensures var t := m.Leave(where, gone);
            && (forall c :: t.At(c) == if where == Some(c) then m.At(c) - {gone} else m.At(c))
            && t.global == (if where.None? then m.global - {gone} else m.global)
            && (forall c :: c in t.byChannel ==> t.byChannel[c] != {})
  {
  }

  lemma StepKeeps(s: System, a: Action)
    requires Inv(s) && Enabled(s, a)
    ensures Inv(Step(s, a))
  {
    match a
    case SubscribeStep(t, where) => SubscribeKeeps(s, t, where);
    case RecordStep(t, fid) => MoveKeeps(s, Opening(t), Open(fid));
    case RemoveStep(t, fid) =>
      if Open(fid) in s.slots {
        MoveKeeps(s, Open(fid), Closing(t));
      }
    case UnsubscribeStep(t) => UnsubscribeKeeps(s, t);
    case PublishStep(channel) => NoneClosed(s);
    case GapStep => NoneClosed(s);
  }

  lemma NoneClosed(s: System)
    requires Inv(s)
    ensures forall c, sub: nat :: sub in s.hub.At(c) + s.hub.global ==> sub !in s.closed
    ensures forall sub: nat :: sub in s.hub.All() ==> sub !in s.closed
  {
    forall sub: nat | sub in s.hub.All() ensures sub !in s.closed {
      if c :| c in s.hub.byChannel && sub in s.hub.byChannel[c] {
        assert sub in s.hub.At(c);
      }
    }
  }

  lemma {:induction false} RunKeeps(s: System, actions: seq<Action>, t: System)
    requires Inv(s) && Run(s, actions) == Some(t)
    ensures Inv(t)
    decreases |actions|
  {
    if actions != [] {
      StepKeeps(s, actions[0]);
      RunKeeps(Step(s, actions[0]), actions[1..], t);
    }
  }

  // No send and no second close ever meets a closed channel.
  lemma NeverPanics(actions: seq<Action>, s: System)
    requires Run(START, actions) == Some(s)
    ensures !s.panicked
  {
    RunKeeps(START, actions, s);
  }

  ghost predicate OnlyAt(m: Members<nat>, where: Option<Str>, sub: nat) {
    && (sub in m.global <==> where.None?)
    && (forall c :: sub in m.At(c) <==> where == Some(c))
  }

  // An open fid's subscription sits in exactly one of the hub's sets, the one it subscribed to, and
  // no set is empty.
  lemma OpenIsSubscribedOnce(actions: seq<Action>, s: System, fid: nat)
    requires Run(START, actions) == Some(s) && Open(fid) in s.slots
    ensures s.slots[Open(fid)] in s.place
    ensures OnlyAt(s.hub, s.place[s.slots[Open(fid)]], s.slots[Open(fid)])
    ensures forall c :: c in s.hub.byChannel ==> s.hub.byChannel[c] != {}
  {
    RunKeeps(START, actions, s);
    assert Held(s, s.slots[Open(fid)]);
  }

  // Once every fid is closed and no Open or Close is under way, nothing is left in the hub.
  lemma AllClosedLeavesNothing(actions: seq<Action>, s: System)
    requires Run(START, actions) == Some(s) && s.slots == map[]
    ensures s.hub == Members(map[], {})
  {
    RunKeeps(START, actions, s);
    assert forall sub: nat :: !Held(s, sub);
    forall c ensures c !in s.hub.byChannel {
      forall sub: nat ensures sub !in s.hub.At(c) {
        assert sub in s.hub.At(c) ==> Held(s, sub);
      }
      assert s.hub.At(c) == {};
    }
    assert s.hub.byChannel == map[];
  }

  // ------------------------------------------------------------- what opening and closing do

  lemma Reached(actions: seq<Action>, s: System)
    requires Run(START, actions) == Some(s)
    ensures Inv(s)
  {
    RunKeeps(START, actions, s);
  }

  lemma HeldIsThere(s: System, sub: nat)
    requires Inv(s) && Held(s, sub)
    ensures sub in s.place && OnlyAt(s.hub, s.place[sub], sub)
  {
  }

  lemma SubscribeMeaning(s: System, t: nat, where: Option<Str>)
    requires Inv(s) && Opening(t) !in s.slots
    ensures var u := Step(s, SubscribeStep(t, where));
            u.slots == s.slots[Opening(t) := s.next] && u.closed == s.closed && OnlyAt(u.hub, where, s.next) && !Held(s, s.next)
  {
    hide Members.Join;
    SubscribeKeeps(s, t, where);
    var u := Step(s, SubscribeStep(t, where));
    assert u.slots[Opening(t)] == s.next;
    HeldIsThere(u, s.next);
  }

  lemma UnsubscribeMeaning(s: System, t: nat)
    requires Inv(s) && Closing(t) in s.slots
    ensures var u, sub := Step(s, UnsubscribeStep(t)), s.slots[Closing(t)];
            && u.slots == s.slots - {Closing(t)} && u.closed == s.closed + {sub}
            && sub !in u.hub.global && forall c :: sub !in u.hub.At(c)
  {
    hide Members.Leave;
    var sub := s.slots[Closing(t)];
    assert Held(s, sub);
    HeldIsThere(s, sub);
    LeaveAt(s.hub, s.place[sub], sub);
  }

  // An Open that nothing gets between leaves the fid with a subscription nobody had before, in the set it
  // asked for.
  lemma OpenSubscribes(actions: seq<Action>, s: System, t: nat, fid: nat, where: Option<Str>)
    requires Run(START, actions) == Some(s) && Opening(t) !in s.slots && Open(fid) !in s.slots
    ensures var u := Step(s, SubscribeStep(t, where));
            && Enabled(u, RecordStep(t, fid))
            && var v := Step(u, RecordStep(t, fid));
               && Open(fid) in v.slots && v.slots == s.slots[Open(fid) := v.slots[Open(fid)]]
               && !Held(s, v.slots[Open(fid)]) && OnlyAt(v.hub, where, v.slots[Open(fid)]) && v.closed == s.closed
  {
    hide Inv, Held, OnlyAt, Members.Join;
    Reached(actions, s);
    SubscribeMeaning(s, t, where);
  }

  // A Close that nothing gets between takes the fid's subscription out of the hub and closes its channel.
  lemma CloseUnsubscribes(actions: seq<Action>, s: System, t: nat, fid: nat)
    requires Run(START, actions) == Some(s) && Closing(t) !in s.slots && Open(fid) in s.slots
    ensures var u := Step(s, RemoveStep(t, fid));
            && Enabled(u, UnsubscribeStep(t))
            && var v := Step(u, UnsubscribeStep(t));
               && v.slots == s.slots - {Open(fid)}
               && v.closed == s.closed + {s.slots[Open(fid)]}
               && s.slots[Open(fid)] !in v.hub.global && forall c :: s.slots[Open(fid)] !in v.hub.At(c)
  {
    hide Inv, Held, Members.Leave, Members.At;
    Reached(actions, s);
    StepKeeps(s, RemoveStep(t, fid));
    var u := Step(s, RemoveStep(t, fid));
    UnsubscribeMeaning(u, t);
    assert u.slots - {Closing(t)} == s.slots - {Open(fid)};
  }

  // Sending to a channel that was closed, or closing one again, is noticed.
  lemma PanicMeaning(s: System, a: Action, sub: nat)
    requires Enabled(s, a) && sub in s.closed
    ensures a.PublishStep? && a.channel != [] && sub in s.hub.At(a.channel) + s.hub.global ==> Step(s, a).panicked
    ensures a.GapStep? && sub in s.hub.All() ==> Step(s, a).panicked
    ensures a.UnsubscribeStep? && s.slots[Closing(a.thread)] == sub && sub in s.place && OnlyAt(s.hub, s.place[sub], sub) ==>
              Step(s, a).panicked
  {
  }
}
