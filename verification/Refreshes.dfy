/** Updates and refreshes from several threads: when nothing is left to do, the tree shows the account. */
module Refreshes {
  import opened Bytes
  import opened Wrappers
  import opened Types
  import opened Stores
  import opened Conversations
  import opened Trees
  import opened Snapshots
  import opened TreeRuns
  import StoreRuns

  // Where the refresh that holds the tree's lock has got to. The three directories are replaced one
  // after the other, and a reader may look in between.
  datatype Phase =
    | Idle
    | Locked
    | Taken(snapshot: Snapshot)
    | FriendsDone(snapshot: Snapshot)
    | DmsDone(snapshot: Snapshot)

  // calls counts observer calls that are owed or wait for the lock. seen is history: the snapshots
  // whose DMs have been shown.
  datatype System = System(store: Account, calls: nat, phase: Phase, shown: View, seen: seq<Snapshot>)

  // An update takes and leaves the store's lock; the observer is called only after that.
  datatype Step =
    | Change(update: Update)
    | Lock
    | Take(snapshot: Snapshot)
    | ShowFriends
    | ShowDms
    | ShowGuilds

  predicate Calls(u: Update) {
    u.NewDM? || (u.Gateway? && Notifies(u.event))
  }

  ghost predicate SnapshotOf(v: Snapshot, s: Account) {
    exists order :: Orders(order, s) && v == SnapshotIn(s, order)
  }

  ghost function Next(s: System, step: Step): Option<System> {
    match step
    case Change(u) => Some(s.(store := ApplyUpdate(s.store, u), calls := s.calls + if Calls(u) then 1 else 0))
    case Lock => if s.phase.Idle? && s.calls > 0 then Some(s.(calls := s.calls - 1, phase := Locked)) else None
    case Take(v) => if s.phase.Locked? && SnapshotOf(v, s.store) then Some(s.(phase := Taken(v))) else None
    case ShowFriends =>
      if s.phase.Taken? then
        Some(s.(shown := s.shown.(friends := Refreshed(s.shown, s.phase.snapshot).friends), phase := FriendsDone(s.phase.snapshot)))
      else None
    case ShowDms =>
      if s.phase.FriendsDone? then
        Some(s.(shown := s.shown.(dms := Refreshed(s.shown, s.phase.snapshot).dms), phase := DmsDone(s.phase.snapshot),
                seen := s.seen + [s.phase.snapshot]))
      else None
    case ShowGuilds =>
      if s.phase.DmsDone? then
        Some(s.(shown := s.shown.(communities := Refreshed(s.shown, s.phase.snapshot).communities), phase := Idle))
      else None
  }

  ghost function Run(s: System, steps: seq<Step>): Option<System> {
    if steps == [] then Some(s)
    else
      var before := Run(s, steps[..|steps| - 1]);
      if before.None? then None else Next(before.value, steps[|steps| - 1])
  }

  // ------------------------------------------------------------- an edited profile

  ghost predicate PeopleKeyed(s: Account) {
    && (forall k :: k in s.users ==> s.users[k].id == k)
    && (forall k :: k in s.relationships ==> s.relationships[k].id == k)
  }

  // A friend listed without a user is shown under the one in the user table. An edited profile
  // changes that entry without calling the observer.
  predicate Disturbs(s: Account, u: User) {
    && u.id != [] && u.id in s.relationships
    && s.relationships[u.id].kind == FRIEND && s.relationships[u.id].user.id == []
    && (u.id in s.users ==> s.users[u.id] != u)
  }

  lemma {:induction false} FlatSame(a: Parts, b: Parts, keys: seq<Str>)
    requires forall k :: k in keys ==> k in a && k in b && a[k] == b[k]
    ensures Flat(a, keys) == Flat(b, keys)
  {
    if keys != [] {
      FlatSame(a, b, keys[..|keys| - 1]);
    }
  }

  // Two listings that differ at one key only are told apart by what they hold there.
  lemma FlatDiffers(a: Parts, b: Parts, keys: seq<Str>, id: Str)
    requires Lists(keys, a.Keys) && a.Keys == b.Keys && id in a
    requires forall k :: k in a && k != id ==> a[k] == b[k]
    ensures Flat(a, keys) == Flat(b, keys) <==> a[id] == b[id]
  {
    var k :| 0 <= k < |keys| && keys[k] == id;
    FlatAround(a, keys, k);
    FlatAround(b, keys, k);
    var x, y := keys[..k], keys[k + 1..];
    FlatSame(a, b, x);
    FlatSame(a, b, y);
    var n := |Flat(a, x)|;
    assert |Flat(a, keys)| == n + |a[id]| + |Flat(a, y)|;
    assert |Flat(b, keys)| == n + |b[id]| + |Flat(b, y)|;
    if Flat(a, keys) == Flat(b, keys) {
      assert a[id] == Flat(a, keys)[n..n + |a[id]|] == Flat(b, keys)[n..n + |b[id]|] == b[id];
    }
  }

  lemma PartsAfterMe(s: Account, u: User, id: Str)
    requires PeopleKeyed(s) && id in s.relationships
    ensures id != u.id ==> FriendParts(ApplyUpdate(s, NewMe(u)))[id] == FriendParts(s)[id]
    ensures id == u.id ==> (FriendParts(ApplyUpdate(s, NewMe(u)))[id] == FriendParts(s)[id] <==> !Disturbs(s, u))
  {
  }

  // What an edited profile leaves of the friends to be shown: everything, or exactly not that.
  lemma ProfileShows(s: Account, u: User, order: Order)
    requires PeopleKeyed(s) && Orders(order, s)
    ensures Orders(order, ApplyUpdate(s, NewMe(u)))
    ensures var v, w := SnapshotIn(s, order), SnapshotIn(ApplyUpdate(s, NewMe(u)), order);
            && v.dms == w.dms && v.guilds == w.guilds
            && (FriendSpecs(v.relationships) == FriendSpecs(w.relationships) <==> !Disturbs(s, u))
  {
    var t := ApplyUpdate(s, NewMe(u));
    var keys := order.relationships;
    FriendsFlat(s, SnapshotIn(s, order).relationships, keys);
    FriendsFlat(t, SnapshotIn(t, order).relationships, keys);
    var a, b := FriendParts(s), FriendParts(t);
    forall id | id in a ensures id != u.id ==> a[id] == b[id] {
      PartsAfterMe(s, u, id);
    }
    if u.id in a {
      PartsAfterMe(s, u, u.id);
      FlatDiffers(a, b, keys, u.id);
    } else {
      FlatSame(a, b, keys);
    }
  }

  // The view is what a refresh from the account leaves: friends and communities as built from nothing,
  // DMs so too but for avatar files, which are those of the nodes.
  ghost predicate Matches(view: View, s: Account) {
    exists v :: SnapshotOf(v, s) && view == Refreshed(view, v)
  }

  // Two snapshots that ask for the same directories.
  ghost predicate Alike(v: Snapshot, w: Snapshot) {
    FriendSpecs(v.relationships) == FriendSpecs(w.relationships) && v.dms == w.dms && v.guilds == w.guilds
  }

  ghost predicate Current(v: Snapshot, s: Account) {
    exists w :: SnapshotOf(w, s) && Alike(v, w)
  }

  lemma QuietSnapshot(v: Snapshot, s: Account, u: User) returns (w: Snapshot)
    requires PeopleKeyed(s) && SnapshotOf(v, s) && !Disturbs(s, u)
    ensures SnapshotOf(w, ApplyUpdate(s, NewMe(u))) && Alike(v, w)
  {
    hide FriendSpecs, Disturbs, PeopleKeyed, Lists;
    var order :| Orders(order, s) && v == SnapshotIn(s, order);
    ProfileShows(s, u, order);
    w := SnapshotIn(ApplyUpdate(s, NewMe(u)), order);
  }

  lemma QuietProfile(view: View, s: Account, u: User)
    requires PeopleKeyed(s) && Matches(view, s) && !Disturbs(s, u)
    ensures Matches(view, ApplyUpdate(s, NewMe(u)))
  {
    hide FriendSpecs, DmSpecs, BuiltCommunities, Rebuilt, Disturbs, PeopleKeyed, SnapshotOf;
    var v :| SnapshotOf(v, s) && view == Refreshed(view, v);
    var w := QuietSnapshot(v, s, u);
    assert view == Refreshed(view, w);
  }

  lemma QuietCurrent(v: Snapshot, s: Account, u: User)
    requires PeopleKeyed(s) && Current(v, s) && !Disturbs(s, u)
    ensures Current(v, ApplyUpdate(s, NewMe(u)))
  {
    hide FriendSpecs, Disturbs, PeopleKeyed, SnapshotOf;
    var w :| SnapshotOf(w, s) && Alike(v, w);
    var x := QuietSnapshot(w, s, u);
    assert Alike(v, x);
  }

  // ------------------------------------------------------------- no refresh is lost

  // What has been shown so far of the snapshot that is held.
  ghost predicate Holds(phase: Phase, shown: View) {
    && (phase.FriendsDone? || phase.DmsDone? ==> shown.friends == Refreshed(shown, phase.snapshot).friends)
    && (phase.DmsDone? ==> shown.dms == Refreshed(shown, phase.snapshot).dms)
  }

  // Somebody will yet look, or has looked at what the account still is.
  ghost predicate Covered(s: System) {
    || s.calls > 0
    || s.phase.Locked?
    || (if s.phase.Idle? then Matches(s.shown, s.store) else Current(s.phase.snapshot, s.store))
  }

  ghost predicate Inv(s: System) {
    PeopleKeyed(s.store) && Holds(s.phase, s.shown) && Covered(s)
  }

  ghost predicate Quiet(s: Account, step: Step) {
    step.Change? && step.update.NewMe? ==> !Disturbs(s, step.update.user)
  }

  lemma PeopleStay(s: Account, u: Update)
    requires PeopleKeyed(s)
    ensures PeopleKeyed(ApplyUpdate(s, u))
  {
    if u.Gateway? && u.event.Ready? {
      var e := u.event;
      StoreRuns.PutUsersKeyed(if e.user.id != [] then s.users[e.user.id := e.user] else s.users, e.users);
      StoreRuns.PutRelationshipsKeyed(s.relationships, e.relationships);
    }
  }

  lemma ChangeKeeps(s: System, u: Update)
    requires Inv(s) && Quiet(s.store, Change(u))
    ensures Inv(Next(s, Change(u)).value)
  {
    hide Disturbs, Matches, Current, Holds, PeopleKeyed;
    PeopleStay(s.store, u);
    if u.NewMe? && s.calls == 0 && !s.phase.Locked? {
      if s.phase.Idle? {
        QuietProfile(s.shown, s.store, u.user);
      } else {
        QuietCurrent(s.phase.snapshot, s.store, u.user);
      }
    }
  }

  lemma RefreshKeeps(s: System, step: Step)
    requires Inv(s) && !step.Change? && Next(s, step).Some?
    ensures Inv(Next(s, step).value)
  {
    hide PeopleKeyed, SnapshotOf, FriendSpecs, DmSpecs, Rebuilt, BuiltCommunities;
    if step.Take? {
      assert Alike(step.snapshot, step.snapshot);
    } else if step.ShowDms? {
      RebuiltTwice(s.shown.dms, DmSpecs(s.phase.snapshot.dms));
    } else if step.ShowGuilds? && s.calls == 0 {
      var shown := Next(s, step).value.shown;
      var w :| SnapshotOf(w, s.store) && Alike(s.phase.snapshot, w);
      assert shown == Refreshed(shown, w);
    }
  }

  // Each profile edit leaves the friends alone at the time it is made.
  ghost predicate QuietRun(s: System, steps: seq<Step>) {
    steps == [] ||
    (QuietRun(s, steps[..|steps| - 1]) &&
     var before := Run(s, steps[..|steps| - 1]);
     before.Some? && Quiet(before.value.store, steps[|steps| - 1]))
  }

  lemma {:induction false} RunKeeps(start: System, steps: seq<Step>, s: System)
    requires Inv(start) && QuietRun(start, steps) && Run(start, steps) == Some(s)
    ensures Inv(s)
  {
    hide Inv, Quiet, Next;
    if steps != [] {
      var init, last := steps[..|steps| - 1], steps[|steps| - 1];
      var before := Run(start, init).value;
      RunKeeps(start, init, before);
      if last.Change? {
        ChangeKeeps(before, last.update);
      } else {
        RefreshKeeps(before, last);
      }
    }
  }

  // The tree starts with a refresh of its own, whatever it shows before that.
  function Start(loaded: Account, shown: View): System {
    System(loaded, 1, Idle, shown, [])
  }

  const NEW_TREE := Panes(map[], map[], map[])

  // However updates and refreshes interleave: once no observer call is owed, waiting or running,
  // the tree is the one that the account as it then is asks for.
  lemma {:induction false} NoLostRefresh(loaded: Account, shown: View, steps: seq<Step>, s: System)
    requires PeopleKeyed(loaded) && QuietRun(Start(loaded, shown), steps)
    requires Run(Start(loaded, shown), steps) == Some(s) && s.calls == 0 && s.phase.Idle?
    ensures Matches(s.shown, s.store)
  {
    hide Run, QuietRun;
    RunKeeps(Start(loaded, shown), steps, s);
  }

  // With one user per relationship there is only one such tree, up to which DMs have avatar files.
  lemma {:induction false} MatchIsUnique(s: Account, a: View, b: View)
    requires StoreRuns.Keyed(s) && OneUserEach(s) && Matches(a, s) && Matches(b, s)
    ensures a.friends == b.friends && a.communities == b.communities && a.dms.Keys == b.dms.Keys
    ensures forall id :: id in a.dms ==> a.dms[id].(avatar := None) == b.dms[id].(avatar := None)
    ensures a == b <==> forall id :: id in a.dms ==> a.dms[id].avatar.Some? == b.dms[id].avatar.Some?
  {
    hide Refreshed, OneUserEach;
    var v :| SnapshotOf(v, s) && a == Refreshed(a, v);
    var w :| SnapshotOf(w, s) && b == Refreshed(b, w);
    var x :| Orders(x, s) && v == SnapshotIn(s, x);
    var y :| Orders(y, s) && w == SnapshotIn(s, y);
    AnyOrder(b, s, x, y);
    SameAsked(a, b, v);
  }

  lemma SameAsked(a: View, b: View, v: Snapshot)
    requires a == Refreshed(a, v) && b == Refreshed(b, v)
    ensures a.friends == b.friends && a.communities == b.communities && a.dms.Keys == b.dms.Keys
    ensures forall id :: id in a.dms ==> a.dms[id].(avatar := None) == b.dms[id].(avatar := None)
    ensures a == b <==> forall id :: id in a.dms ==> a.dms[id].avatar.Some? == b.dms[id].avatar.Some?
  {
    hide FriendSpecs, DmSpecs, BuiltCommunities, Built, SpecIds, NamesOf, LastSpec, FirstSpec;
  }

  // ------------------------------------------------------------- avatars at rest

  lemma {:induction false} SeenShown(loaded: Account, shown: View, steps: seq<Step>, s: System)
    requires Run(Start(loaded, shown), steps) == Some(s)
    ensures s.shown.dms == DmsAfter(shown.dms, s.seen)
  {
    hide Next, Rebuilt;
    if steps != [] {
      var before := Run(Start(loaded, shown), steps[..|steps| - 1]).value;
      SeenShown(loaded, shown, steps[..|steps| - 1], before);
      ShownStep(before, steps[|steps| - 1], s, shown);
    }
  }

  lemma ShownStep(before: System, step: Step, s: System, shown: View)
    requires Next(before, step) == Some(s) && before.shown.dms == DmsAfter(shown.dms, before.seen)
    ensures s.shown.dms == DmsAfter(shown.dms, s.seen)
  {
    hide DmSpecs, FriendSpecs, Rebuilt, BuiltCommunities, ApplyUpdate, SnapshotOf;
    if step.ShowDms? {
      assert s.seen[..|s.seen| - 1] == before.seen;
    }
  }

  // Friends are shown with the user they are listed with.
  lemma FriendsAtRest(view: View, s: Account, id: Str)
    requires Matches(view, s) && id in view.friends
    ensures var e := view.friends[id]; e.info.Friend? && e.avatar == Some(Some(e.info.relationship.user))
  {
    hide FriendSpecs, Built;
    var v :| SnapshotOf(v, s) && view == Refreshed(view, v);
    FriendAvatars(v.relationships, id);
  }

  // With nothing left to do, a tree that began empty shows a DM's avatar as it would be built from the
  // account exactly when the DM came with a recipient just if it has one now.
  lemma DmsAtRest(loaded: Account, steps: seq<Step>, s: System, v: Snapshot, id: Str) returns (k: nat)
    requires Run(Start(loaded, NEW_TREE), steps) == Some(s)
    requires SnapshotOf(v, s.store) && s.shown == Refreshed(s.shown, v) && id in s.shown.dms
    ensures CameWith(s.seen, k, id) && id in BuiltTree(v).dms
    ensures s.shown.dms[id].avatar == BuiltTree(v).dms[id].avatar <==> (Directed(s.seen[k], id) <==> Directed(v, id))
  {
    hide Run, SnapshotOf, FriendSpecs, DmSpecs, BuiltCommunities, SpecIds, NamesOf, LastSpec, FirstSpec;
    SeenShown(loaded, NEW_TREE, steps, s);
    DmsAfterKeys(map[], s.seen);
    k := Came(s.seen, id);
    MadeWith(s.seen, k, id);
  }

  // So the whole tree is then the one built from nothing exactly when that holds of every DM.
  lemma RestIsRebuild(view: View, v: Snapshot)
    requires view == Refreshed(view, v)
    ensures view == BuiltTree(v) <==> AvatarsAgree(view.dms, DmSpecs(v.dms))
  {
    hide DmSpecs, AvatarsAgree, BuiltTree;
    RefreshIsRebuild(view, v);
  }

  // A refresh that nothing interrupts: the snapshot is taken and shown.
  method Refresh(tree: Tree, store: Store)
    requires tree.Valid()
    modifies tree, tree.friendNodes.Values, tree.dmNodes.Values, tree.communityNodes.Values, Rooms(tree.communityNodes)
    ensures tree.Valid() && Matches(tree.View(), store.State())
    ensures StoreRuns.GuildsKeyed(store.guilds) ==>
              SameRooms(old(Tables(tree.communityNodes)), Tables(tree.communityNodes))
  {
    hide Tree.View, Tree.Reflects, Refreshed, Looks, Settled, CommunitiesSurvive, Survives, Orders, SnapshotIn, Cached, Listing, CommunityListing,
         SameRooms, RoomsKept, DistinctGuilds, StoreRuns.GuildsKeyed;
    var snapshot, order := store.Snapshot();
    assert SnapshotOf(snapshot, store.State());
    if StoreRuns.GuildsKeyed(store.guilds) {
      ListedOnce(store.State(), order);
    }
    RefreshedTwice(tree.View(), snapshot);
    tree.Refresh(snapshot);
  }

  // ------------------------------------------------------------- nothing gets in a refresh's way

  lemma More(s: System, steps: seq<Step>, t: System, step: Step)
    requires Run(s, steps) == Some(t)
    ensures Run(s, steps + [step]) == Next(t, step)
  {
    assert (steps + [step])[..|steps + [step]| - 1] == steps;
  }

  lemma SomeSnapshot(s: Account) returns (v: Snapshot)
    ensures SnapshotOf(v, s)
  {
    var rels := Listable(s.relationships.Keys);
    var dms := Listable(s.dms.Keys);
    var guilds := Listable(s.guilds.Keys);
    v := SnapshotIn(s, Order(rels, dms, guilds));
  }

  // The next step of the refreshes alone; each brings the end nearer.
  ghost function Work(s: System): nat {
    5 * s.calls + match s.phase
                  case Idle => 0
                  case Locked => 4
                  case Taken(_) => 3
                  case FriendsDone(_) => 2
                  case DmsDone(_) => 1
  }

  lemma Advance(s: System) returns (step: Step, t: System)
    requires Work(s) > 0
    ensures !step.Change? && Next(s, step) == Some(t) && t.store == s.store && Work(t) < Work(s)
  {
    if s.phase.Locked? {
      var v := SomeSnapshot(s.store);
      step := Take(v);
    } else {
      step := if s.phase.Idle? then Lock else if s.phase.Taken? then ShowFriends
              else if s.phase.FriendsDone? then ShowDms else ShowGuilds;
    }
    t := Next(s, step).value;
  }

  // From any state the pending calls, run one after the other, come to an end.
  lemma {:induction false} CatchesUp(start: System, done: seq<Step>, s: System) returns (steps: seq<Step>, t: System)
    requires Run(start, done) == Some(s)
    ensures done <= steps && forall k :: |done| <= k < |steps| ==> !steps[k].Change?
    ensures Run(start, steps) == Some(t) && t.store == s.store && t.calls == 0 && t.phase.Idle?
    decreases Work(s)
  {
    hide Next, Run;
    if Work(s) == 0 {
      steps, t := done, s;
    } else {
      var step, next := Advance(s);
      More(start, done, s, step);
      steps, t := CatchesUp(start, done + [step], next);
    }
  }

  // ------------------------------------------------------------- the edit that is not quiet

  lemma {:induction false} InFlat(parts: Parts, keys: seq<Str>, k: nat)
    requires (forall id :: id in keys ==> id in parts) && k < |keys| && parts[keys[k]] != []
    ensures parts[keys[k]][0] in Flat(parts, keys)
  {
    FlatAround(parts, keys, k);
    assert Flat(parts, keys)[|Flat(parts, keys[..k])|] == parts[keys[k]][0];
  }

  // The directory of a key, and no other, is what is built for its id.
  lemma BuiltFor(parts: Parts, keys: seq<Str>, key: Str)
    requires OnePerKey(parts) && Lists(keys, parts.Keys) && key in parts && parts[key] != []
    ensures parts[key][0].id in Built(Flat(parts, keys))
    ensures Built(Flat(parts, keys))[parts[key][0].id].info == parts[key][0].info
  {
    hide Flat, OnePerKey, NamesOf;
    var k :| 0 <= k < |keys| && keys[k] == key;
    InFlat(parts, keys, k);
    FlatDistinct(parts, keys);
    var specs := Flat(parts, keys);
    var j :| 0 <= j < |specs| && specs[j] == parts[key][0];
    LastSpecAt(specs, j);
  }

  lemma NotBuiltFor(parts: Parts, keys: seq<Str>, id: Str)
    requires OnePerKey(parts) && Lists(keys, parts.Keys)
    requires forall key :: key in parts && parts[key] != [] ==> parts[key][0].id != id
    ensures id !in Built(Flat(parts, keys))
  {
    hide Flat, NamesOf;
    var specs := Flat(parts, keys);
    SpecIdsMeaning(specs, id);
    if j :| 0 <= j < |specs| && specs[j].id == id {
      FromSomeKey(parts, keys, specs[j]);
    }
  }

  lemma PartDisturbed(s: Account, u: User)
    requires PeopleKeyed(s) && Disturbs(s, u)
    ensures var a, b := FriendParts(s), FriendParts(ApplyUpdate(s, NewMe(u)));
            && u.id in a && u.id in b && b[u.id] != [] && b[u.id][0].id == u.id
            && (a[u.id] != [] ==> a[u.id][0].id == u.id && a[u.id][0].info != b[u.id][0].info)
  {
  }

  // A directory that appears for an id, or changes what it holds, shows.
  lemma PartShows(a: Parts, b: Parts, keys: seq<Str>, id: Str)
    requires OnePerKey(a) && OnePerKey(b) && a.Keys == b.Keys && Lists(keys, a.Keys) && id in a
    requires forall k :: k in a && k != id ==> a[k] == b[k]
    requires b[id] != [] && b[id][0].id == id
    requires a[id] != [] ==> a[id][0].id == id && a[id][0].info != b[id][0].info
    ensures Built(Flat(a, keys)) != Built(Flat(b, keys))
  {
    hide Flat, Built, Lists;
    BuiltFor(b, keys, id);
    if a[id] != [] {
      BuiltFor(a, keys, id);
    } else {
      NotBuiltFor(a, keys, id);
    }
  }

  // What is shown for the edited user, before and after.
  lemma {:induction false} DisturbedShows(s: Account, u: User, order: Order)
    requires PeopleKeyed(s) && Orders(order, s) && Disturbs(s, u)
    requires OneUserEach(s) && OneUserEach(ApplyUpdate(s, NewMe(u)))
    ensures Orders(order, ApplyUpdate(s, NewMe(u)))
    ensures Built(FriendSpecs(SnapshotIn(s, order).relationships)) !=
            Built(FriendSpecs(SnapshotIn(ApplyUpdate(s, NewMe(u)), order).relationships))
  {
    hide Flat, Built, FriendSpecs, Disturbs, OnePerKey, Filled, ShownFriend, FriendSpec, PeopleKeyed;
    var t, keys := ApplyUpdate(s, NewMe(u)), order.relationships;
    FriendsFlat(s, SnapshotIn(s, order).relationships, keys);
    FriendsFlat(t, SnapshotIn(t, order).relationships, keys);
    PartDisturbed(s, u);
    forall k | k in s.relationships && k != u.id ensures FriendParts(s)[k] == FriendParts(t)[k] {
      PartsAfterMe(s, u, k);
    }
    PartShows(FriendParts(s), FriendParts(t), keys, u.id);
  }

  // A settled tree stays settled under a profile edit exactly when the edit is quiet: no observer is
  // called that could make up for one that is not.
  lemma ProfileSeen(view: View, s: Account, u: User)
    requires StoreRuns.Keyed(s) && OneUserEach(s) && OneUserEach(ApplyUpdate(s, NewMe(u)))
    requires Matches(view, s)
    ensures Matches(view, ApplyUpdate(s, NewMe(u))) <==> !Disturbs(s, u)
  {
    hide Built, Rebuilt, FriendSpecs, DmSpecs, BuiltCommunities, OneUserEach, Disturbs, Orders;
    var t := ApplyUpdate(s, NewMe(u));
    if !Disturbs(s, u) {
      QuietProfile(view, s, u);
    } else if Matches(view, t) {
      var v :| SnapshotOf(v, s) && view == Refreshed(view, v);
      var w :| SnapshotOf(w, t) && view == Refreshed(view, w);
      var x :| Orders(x, s) && v == SnapshotIn(s, x);
      var y :| Orders(y, t) && w == SnapshotIn(t, y);
      DisturbedShows(s, u, x);
      FriendsAnyOrder(t, x, y);
      assert false;
    }
  }

  lemma {:induction false} NoEditsQuiet(s: System, steps: seq<Step>)
    requires Run(s, steps).Some?
    requires forall k :: 0 <= k < |steps| && steps[k].Change? ==> !steps[k].update.NewMe?
    ensures QuietRun(s, steps)
  {
    hide Next, Disturbs;
    if steps != [] {
      NoEditsQuiet(s, steps[..|steps| - 1]);
    }
  }

  lemma LoneFriend(s: Account, key: Str)
    requires s.relationships.Keys == {key}
    ensures OneUserEach(s)
  {
    hide Filled, ShownFriend, FriendSpec;
    assert FriendParts(s).Keys == {key};
  }

  lemma ReadyAlone(me: User, r: Relationship)
    requires me.id != []
    ensures Apply(EMPTY, Ready(me, [], [r], [], [])) == Account(me, map[me.id := me], map[r.id := r], map[], map[])
  {
    assert PutRelationships(map[], [r][..0]) == map[];
  }

  const MYSELF: Str := [0x31]
  const MINE := User(MYSELF, [0x61], [], [])
  const EDITED := User(MYSELF, [0x62], [], [])

  // An account that lists itself among its friends, without a user.
  const OWN_FRIEND :=
    Account(MINE, map[MYSELF := MINE], map[MYSELF := Relationship(MYSELF, FRIEND, NOBODY, [])], map[], map[])

  lemma OwnFriendShown(shown: View) returns (steps: seq<Step>, s: System)
    ensures Run(Start(EMPTY, shown), steps) == Some(s) && s.calls == 0 && s.phase.Idle?
    ensures s.store == OWN_FRIEND && Matches(s.shown, s.store)
  {
    hide Run, QuietRun, Matches, Disturbs, Apply;
    var myself := Relationship(MYSELF, FRIEND, NOBODY, []);
    var ready := Change(Gateway(Ready(MINE, [], [myself], [], [])));
    var start := Start(EMPTY, shown);
    RunNothing(start);
    More(start, [], start, ready);
    assert [] + [ready] == [ready];
    ReadyAlone(MINE, myself);
    steps, s := CatchesUp(start, [ready], Next(start, ready).value);
    assert steps[0] == ready;
    NoEditsQuiet(start, steps);
    NoLostRefresh(EMPTY, shown, steps, s);
  }

  lemma RunNothing(s: System)
    ensures Run(s, []) == Some(s)
  {
  }

  lemma OwnFriendDisturbed()
    ensures Disturbs(OWN_FRIEND, EDITED) && StoreRuns.Keyed(OWN_FRIEND)
    ensures OneUserEach(OWN_FRIEND) && OneUserEach(ApplyUpdate(OWN_FRIEND, NewMe(EDITED)))
  {
    hide OneUserEach;
    LoneFriend(OWN_FRIEND, MYSELF);
    LoneFriend(ApplyUpdate(OWN_FRIEND, NewMe(EDITED)), MYSELF);
  }

  // After the profile edit of such an account nothing is owed, and the tree still shows the old profile.
  lemma ProfileEditUnseen(shown: View) returns (steps: seq<Step>, s: System)
    ensures Run(Start(EMPTY, shown), steps) == Some(s) && s.calls == 0 && s.phase.Idle?
    ensures s.store == ApplyUpdate(OWN_FRIEND, NewMe(EDITED)) && !Matches(s.shown, s.store)
  {
    hide Run, Matches, Disturbs, OneUserEach;
    var before, t := OwnFriendShown(shown);
    var edit := Change(NewMe(EDITED));
    More(Start(EMPTY, shown), before, t, edit);
    steps, s := before + [edit], Next(t, edit).value;
    OwnFriendDisturbed();
    ProfileSeen(t.shown, t.store, EDITED);
  }
}
