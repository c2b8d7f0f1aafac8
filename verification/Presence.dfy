/**
 * The latest-wins presence mailbox: producers hold the gateway mutex and push into a one-slot
 * channel with try-send, drain, try-send, while the connection's writer takes from it at any time.
 */
module Presence {
  import opened Bytes
  import opened Wrappers

  datatype Status = Online | Dnd | IdleStatus | Invisible | NoStatus(text: Str) {
    predicate Valid() {
      !NoStatus?
    }
  }

  datatype Presence = Presence(status: Status, custom: Option<Str>)

  // Where the holder of the mutex stands inside queuePresenceLocked.
  datatype Phase = Unlocked | TrySend | Drain | Resend

  // One connection's channel holds the number, in queued, of the presence in its slot. queued,
  // taken and failed are history: what was pushed, which numbers were taken, whether a push failed.
  datatype Mailbox = Mailbox(
    current: Presence,
    open: bool,
    phase: Phase,
    slot: Option<nat>,
    queued: seq<Presence>,
    taken: seq<nat>,
    failed: bool)

  const START := Mailbox(Presence(NoStatus([]), None), false, Unlocked, None, [], [], false)

  datatype Action =
    | SetPresence(status: Status)
    | SetCustomStatus(custom: Option<Str>)
    | Activate
    | Deactivate
    | Producer
    | Consumer

  predicate Enabled(m: Mailbox, a: Action) {
    match a
    case SetPresence(_) => m.phase.Unlocked?
    case SetCustomStatus(_) => m.phase.Unlocked?
    case Activate => m.phase.Unlocked?
    case Deactivate => m.phase.Unlocked?
    case Producer => !m.phase.Unlocked?
    case Consumer => m.slot.Some?
  }

  // queuePresenceLocked up to its first select.
  function Queue(m: Mailbox): Mailbox {
    if !m.open || !m.current.status.Valid() then m
    else m.(phase := TrySend, queued := m.queued + [m.current])
  }

  // The number of the presence the producer is pushing.
  function Newest(m: Mailbox): nat
    requires m.queued != []
  {
    |m.queued| - 1
  }

  function Step(m: Mailbox, a: Action): Mailbox
    requires Enabled(m, a)
  {
    match a
    case SetPresence(status) =>
      if status.Valid() then Queue(m.(current := Presence(status, m.current.custom))) else m
    case SetCustomStatus(custom) => Queue(m.(current := Presence(m.current.status, custom)))
    // A first READY or RESUMED on a connection installs its empty channel; a later one finds it there.
    case Activate =>
      Queue(if m.open then m else m.(open := true, slot := None, queued := [], taken := []))
    case Deactivate => m.(open := false)
    case Producer =>
      if m.queued == [] then m
      else
        (match m.phase
         case Unlocked => m
         case TrySend => if m.slot.None? then m.(slot := Some(Newest(m)), phase := Unlocked) else m.(phase := Drain)
         case Drain => m.(slot := None, phase := Resend)
         case Resend =>
           if m.slot.None? then m.(slot := Some(Newest(m)), phase := Unlocked)
           else m.(failed := true, phase := Unlocked))
    case Consumer => m.(slot := None, taken := m.taken + [m.slot.value])
  }

  function Run(m: Mailbox, actions: seq<Action>): Option<Mailbox>
    decreases |actions|
  {
    if actions == [] then Some(m)
    else if !Enabled(m, actions[0]) then None
    else Run(Step(m, actions[0]), actions[1..])
  }

  predicate Increasing(s: seq<nat>) {
    forall i, j :: 0 <= i < j < |s| ==> s[i] < s[j]
  }

  // Presences pushed before the one in hand.
  function Settled(m: Mailbox): nat {
    if m.phase.Unlocked? || m.queued == [] then |m.queued| else |m.queued| - 1
  }

  ghost predicate Ordered(m: Mailbox) {
    && Increasing(m.taken)
    && (forall k :: 0 <= k < |m.taken| ==> m.taken[k] < if m.slot.Some? then m.slot.value else Settled(m))
  }

  // The last settled presence is in the slot or was the last one taken, unless it is being replaced.
  ghost predicate Latest(m: Mailbox) {
    && (m.slot.Some? ==> m.slot.value == Settled(m) - 1)
    && (m.slot.None? && !m.phase.Resend? && Settled(m) > 0 ==>
          m.taken != [] && m.taken[|m.taken| - 1] == Settled(m) - 1)
    && (m.phase.Resend? ==> m.slot.None?)
    && (!m.phase.Unlocked? ==> m.queued != [] && m.open)
  }

  ghost predicate UpToDate(m: Mailbox) {
    m.open && m.current.status.Valid() ==> m.queued != [] && m.queued[Newest(m)] == m.current
  }

  ghost predicate Inv(m: Mailbox) {
    !m.failed && Ordered(m) && Latest(m) && UpToDate(m)
  }

  lemma QueueKeeps(m: Mailbox)
    requires !m.failed && Ordered(m) && Latest(m) && m.phase.Unlocked?
    ensures Inv(Queue(m))
  {
  }

  lemma ProducerKeeps(m: Mailbox)
    requires Inv(m) && !m.phase.Unlocked?
    ensures Inv(Step(m, Producer))
  {
  }

  lemma ConsumerKeeps(m: Mailbox)
    requires Inv(m) && m.slot.Some?
    ensures Inv(Step(m, Consumer))
  {
  }

  lemma StepKeeps(m: Mailbox, a: Action)
    requires Inv(m) && Enabled(m, a)
    ensures Inv(Step(m, a))
  {
    hide Queue;
    match a
    case SetPresence(status) =>
      if status.Valid() {
        QueueKeeps(m.(current := Presence(status, m.current.custom)));
      }
    case SetCustomStatus(custom) => QueueKeeps(m.(current := Presence(m.current.status, custom)));
    case Activate => QueueKeeps(if m.open then m else m.(open := true, slot := None, queued := [], taken := []));
    case Producer => ProducerKeeps(m);
    case Consumer => ConsumerKeeps(m);
    case Deactivate =>
  }

  lemma {:induction false} RunKeeps(m: Mailbox, actions: seq<Action>, t: Mailbox)
    requires Inv(m) && Run(m, actions) == Some(t)
    ensures Inv(t)
    decreases |actions|
  {
    if actions != [] {
      StepKeeps(m, actions[0]);
      RunKeeps(Step(m, actions[0]), actions[1..], t);
    }
  }

  // The second send always finds room, so no push is ever lost to a full slot.
  lemma FinalSendNeverFails(actions: seq<Action>, m: Mailbox)
    requires Run(START, actions) == Some(m)
    ensures !m.failed
    ensures m.phase.Resend? ==> m.slot.None?
  {
    RunKeeps(START, actions, m);
  }

  // Presences reach the wire in the order they were queued, each at most once, and the one waiting
  // in the slot was queued after all of them.
  lemma TakenInOrder(actions: seq<Action>, m: Mailbox)
    requires Run(START, actions) == Some(m)
    ensures Increasing(m.taken) && forall k :: 0 <= k < |m.taken| ==> m.taken[k] < |m.queued|
    ensures m.slot.Some? ==> m.slot.value < |m.queued| && forall k :: 0 <= k < |m.taken| ==> m.taken[k] < m.slot.value
  {
    RunKeeps(START, actions, m);
  }

  // Whenever the mutex is free on a live connection, the presence in force is in the slot or was the
  // last one taken: once the writer has emptied the slot, the last presence sent is the current one.
  lemma KeepsTheLatest(actions: seq<Action>, m: Mailbox)
    requires Run(START, actions) == Some(m)
    requires m.phase.Unlocked? && m.open && m.current.status.Valid()
    ensures m.slot.Some? ==> m.slot.value < |m.queued| && m.queued[m.slot.value] == m.current
    ensures m.slot.None? ==>
              && m.taken != [] && m.taken[|m.taken| - 1] < |m.queued|
              && m.queued[m.taken[|m.taken| - 1]] == m.current
  {
    RunKeeps(START, actions, m);
  }

  // ------------------------------------------------------------- the code of a producer

  lemma {:induction false} RunSnoc(m: Mailbox, actions: seq<Action>, t: Mailbox, a: Action)
    requires Run(m, actions) == Some(t) && Enabled(t, a)
    ensures Run(m, actions + [a]) == Some(Step(t, a))
    decreases |actions|
  {
    if actions == [] {
      assert [] + [a] == [a] && [a][1..] == [];
    } else {
      RunSnoc(Step(m, actions[0]), actions[1..], t, a);
      assert (actions + [a])[1..] == actions[1..] + [a];
    }
  }

  class Sink {
    var current: Presence
    var open: bool
    var slot: Option<Presence>
    ghost var box: Mailbox

    ghost predicate Linked()
      reads this
    {
      && Inv(box) && box.current == current && box.open == open
      && (slot.Some? <==> box.slot.Some?)
      && (slot.Some? ==> box.slot.value < |box.queued| && slot.value == box.queued[box.slot.value])
    }

    constructor ()
      ensures Linked() && box == START
    {
      current, open, slot, box := Presence(NoStatus([]), None), false, None, START;
    }

    // The writer takes what is in the slot, if it gets a turn and there is something.
    method Race(turn: bool, ghost done: seq<Action>, ghost from: Mailbox) returns (ghost actions: seq<Action>)
      requires Linked() && Run(from, done) == Some(box)
      modifies `slot, `box
      ensures Linked() && Run(from, actions) == Some(box) && box.phase == old(box.phase)
      ensures turn || old(slot).None? ==> slot.None?
      ensures !turn ==> slot == old(slot)
    {
      actions := done;
      if turn && slot.Some? {
        StepKeeps(box, Consumer);
        RunSnoc(from, done, box, Consumer);
        actions := done + [Consumer];
        slot, box := None, Step(box, Consumer);
      }
    }

    // The three selects, with the writer free to act before each of them.
    method QueuePresenceLocked(turns: (bool, bool, bool)) returns (ghost actions: seq<Action>)
      requires Linked() && box.phase == if open && current.status.Valid() then TrySend else Unlocked
      modifies `slot, `box
      ensures Linked() && box.phase.Unlocked? && Run(old(box), actions) == Some(box)
      ensures open && current.status.Valid() ==> slot == Some(current)
      ensures !open || !current.status.Valid() ==> slot == old(slot)
    {
      actions := [];
      if !open || !current.status.Valid() {
        return;
      }
      var presence := current;
      actions := Race(turns.0, actions, old(box));
      StepKeeps(box, Producer);
      RunSnoc(old(box), actions, box, Producer);
      actions, box := actions + [Producer], Step(box, Producer);
      if slot.None? {
        slot := Some(presence);
      } else {
        actions := Race(turns.1, actions, old(box));
        StepKeeps(box, Producer);
        RunSnoc(old(box), actions, box, Producer);
        actions, box := actions + [Producer], Step(box, Producer);
        slot := None;
        actions := Race(turns.2, actions, old(box));
        StepKeeps(box, Producer);
        RunSnoc(old(box), actions, box, Producer);
        actions, box := actions + [Producer], Step(box, Producer);
        if slot.None? {
          slot := Some(presence);
        }
      }
    }

    method SetPresence(status: Status, turns: (bool, bool, bool)) returns (ok: bool, ghost actions: seq<Action>)
      requires Linked() && box.phase.Unlocked?
      modifies this
      ensures Linked() && box.phase.Unlocked? && open == old(open)
      ensures Run(old(box), actions) == Some(box)
      ensures ok == status.Valid() == (status in {Online, Dnd, IdleStatus, Invisible})
      ensures current == if ok then Presence(status, old(current).custom) else old(current)
      ensures slot == if ok && open then Some(current) else old(slot)
    {
      if !status.Valid() {
        actions := [];
        return false, actions;
      }
      StepKeeps(box, Action.SetPresence(status));
      ghost var first := Step(box, Action.SetPresence(status));
      current, box := Presence(status, current.custom), first;
      ghost var more := QueuePresenceLocked(turns);
      RunFrom(old(box), Action.SetPresence(status), more, box);
      actions := [Action.SetPresence(status)] + more;
      ok := true;
    }

    method SetCustomStatus(custom: Option<Str>, turns: (bool, bool, bool)) returns (ghost actions: seq<Action>)
      requires Linked() && box.phase.Unlocked?
      modifies this
      ensures Linked() && box.phase.Unlocked? && open == old(open)
      ensures Run(old(box), actions) == Some(box)
      ensures current == Presence(old(current).status, custom)
      ensures slot == if open && current.status.Valid() then Some(current) else old(slot)
    {
      StepKeeps(box, Action.SetCustomStatus(custom));
      ghost var first := Step(box, Action.SetCustomStatus(custom));
      current, box := Presence(current.status, custom), first;
      ghost var more := QueuePresenceLocked(turns);
      RunFrom(old(box), Action.SetCustomStatus(custom), more, box);
      actions := [Action.SetCustomStatus(custom)] + more;
    }

    method Activate(turns: (bool, bool, bool)) returns (ghost actions: seq<Action>)
      requires Linked() && box.phase.Unlocked?
      modifies this
      ensures Linked() && box.phase.Unlocked? && open && current == old(current)
      ensures Run(old(box), actions) == Some(box)
      ensures current.status.Valid() ==> slot == Some(current)
    {
      StepKeeps(box, Action.Activate);
      ghost var first := Step(box, Action.Activate);
      if !open {
        slot := None;
      }
      open, box := true, first;
      ghost var more := QueuePresenceLocked(turns);
      RunFrom(old(box), Action.Activate, more, box);
      actions := [Action.Activate] + more;
    }
  }

  lemma RunFrom(m: Mailbox, a: Action, more: seq<Action>, t: Mailbox)
    requires Enabled(m, a) && Run(Step(m, a), more) == Some(t)
    ensures Run(m, [a] + more) == Some(t)
  {
    assert ([a] + more)[1..] == more;
  }
}
