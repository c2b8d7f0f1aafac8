/**
 * What each map of the account holds after any log, read off the entries of the log. Nothing that is
 * defined here refers to how an event is applied; the lemmas say that applying them agrees.
 */
module Ledgers {
  import opened Bytes
  import opened Wrappers
  import opened Types
  import opened Stores
  import opened StoreRuns

  // ------------------------------------------------------------- ledgers

  datatype Mark<T> = Put(key: Str, value: T) | Drop(key: Str)

  function Held<T>(start: map<Str, T>, marks: seq<Mark<T>>): map<Str, T> {
    if marks == [] then start
    else
      var before, last := Held(start, marks[..|marks| - 1]), marks[|marks| - 1];
      if last.Put? then before[last.key := last.value] else before - {last.key}
  }

  // The k-th mark is the last on this key.
  predicate LastOn<T(!new)>(marks: seq<Mark<T>>, k: nat, key: Str) {
    k < |marks| && marks[k].key == key && forall j :: k < j < |marks| ==> marks[j].key != key
  }

  predicate Unmarked<T(!new)>(marks: seq<Mark<T>>, key: Str) {
    forall k :: 0 <= k < |marks| ==> marks[k].key != key
  }

  // A key is not marked, or has a last mark.
  lemma {:induction false} SomeLast<T(!new)>(marks: seq<Mark<T>>, key: Str) returns (k: nat)
    ensures Unmarked(marks, key) || LastOn(marks, k, key)
  {
    k := |marks|;
    if marks != [] {
      var n := |marks| - 1;
      if marks[n].key == key {
        k := n;
      } else {
        k := SomeLast(marks[..n], key);
        assert Unmarked(marks, key) <==> Unmarked(marks[..n], key);
      }
    }
  }

  // Under each key is what its last mark put there, nothing if that dropped it, and what was there at
  // the start if nothing was marked.
  lemma {:induction false} HeldMeaning<T(!new)>(start: map<Str, T>, marks: seq<Mark<T>>, key: Str)
    ensures forall k: nat :: LastOn(marks, k, key) ==>
              (marks[k].Put? <==> key in Held(start, marks)) && (marks[k].Put? ==> Held(start, marks)[key] == marks[k].value)
    ensures Unmarked(marks, key) ==>
              (key in Held(start, marks) <==> key in start) && (key in start ==> Held(start, marks)[key] == start[key])
  {
    if marks != [] {
      var n := |marks| - 1;
      HeldMeaning(start, marks[..n], key);
      forall k: nat | LastOn(marks, k, key)
        ensures (marks[k].Put? <==> key in Held(start, marks)) && (marks[k].Put? ==> Held(start, marks)[key] == marks[k].value)
      {
        if k < n {
          assert marks[n].key != key && LastOn(marks[..n], k, key);
        }
      }
      if Unmarked(marks, key) {
        assert marks[n].key != key && Unmarked(marks[..n], key);
      }
    }
  }

  lemma {:induction false} HeldConcat<T>(start: map<Str, T>, a: seq<Mark<T>>, b: seq<Mark<T>>)
    ensures Held(start, a + b) == Held(Held(start, a), b)
  {
    if b == [] {
      assert a + b == a;
    } else {
      HeldConcat(start, a, b[..|b| - 1]);
      assert (a + b)[..|a + b| - 1] == a + b[..|b| - 1];
    }
  }

  lemma HeldOne<T>(start: map<Str, T>, m: Mark<T>)
    ensures Held(start, []) == start
    ensures Held(start, [m]) == if m.Put? then start[m.key := m.value] else start - {m.key}
  {
    assert [m][..0] == [];
  }

  // The marks of one log, entry after entry.
  function Marks<T>(log: seq<Update>, of: Update -> seq<Mark<T>>): seq<Mark<T>> {
    if log == [] then [] else Marks(log[..|log| - 1], of) + of(log[|log| - 1])
  }

  // ------------------------------------------------------------- relationships

  function RelationshipsOf(u: Update): seq<Mark<Relationship>> {
    match u
    case Gateway(Ready(_, _, list, _, _)) => seq(|list|, k requires 0 <= k < |list| => Put(list[k].id, list[k]))
    case Gateway(RelationshipUpsert(r)) => [Put(r.id, r)]
    case Gateway(RelationshipRemove(id)) => [Drop(id)]
    case _ => []
  }

  lemma {:induction false} PutRelationshipsHeld(m: map<Str, Relationship>, list: seq<Relationship>)
    ensures PutRelationships(m, list) == Held(m, seq(|list|, k requires 0 <= k < |list| => Put(list[k].id, list[k])))
  {
    if list != [] {
      var n := |list| - 1;
      var marks := seq(|list|, k requires 0 <= k < |list| => Put(list[k].id, list[k]));
      PutRelationshipsHeld(m, list[..n]);
      assert marks[..n] == seq(n, k requires 0 <= k < n => Put(list[..n][k].id, list[..n][k]));
    }
  }

  lemma RelationshipsStep(s: Account, u: Update)
    ensures ApplyUpdate(s, u).relationships == Held(s.relationships, RelationshipsOf(u))
  {
    hide PutUsers, PutRelationships, PutChannels, PutGuilds, Held;
    match u
    case Gateway(Ready(_, _, list, _, _)) => PutRelationshipsHeld(s.relationships, list);
    case Gateway(RelationshipUpsert(r)) => HeldOne(s.relationships, Put(r.id, r));
    case Gateway(RelationshipRemove(id)) => HeldOne<Relationship>(s.relationships, Drop(id));
    case _ => HeldOne<Relationship>(s.relationships, Drop([]));
  }

  // Each relationship is the one last added, updated or listed by a READY, unless it was removed since.
  lemma {:induction false} RelationshipsHeld(loaded: Account, log: seq<Update>)
    ensures After(loaded, log).relationships == Held(loaded.relationships, Marks(log, RelationshipsOf))
  {
    if log != [] {
      var init := log[..|log| - 1];
      RelationshipsHeld(loaded, init);
      RelationshipsStep(After(loaded, init), log[|log| - 1]);
      HeldConcat(loaded.relationships, Marks(init, RelationshipsOf), RelationshipsOf(log[|log| - 1]));
    }
  }

  // ------------------------------------------------------------- dms

  function DmsOf(u: Update): seq<Mark<Channel>> {
    match u
    case Gateway(Ready(_, _, _, list, _)) => seq(|list|, k requires 0 <= k < |list| => Put(list[k].id, list[k]))
    case Gateway(ChannelUpsert(c)) => if c.guildId == [] then [Put(c.id, c)] else []
    case Gateway(ChannelDelete(id, _)) => [Drop(id)]
    case NewDM(dm) => [Put(dm.id, dm)]
    case _ => []
  }

  lemma {:induction false} PutChannelsHeld(m: map<Str, Channel>, list: seq<Channel>)
    ensures PutChannels(m, list) == Held(m, seq(|list|, k requires 0 <= k < |list| => Put(list[k].id, list[k])))
  {
    if list != [] {
      var n := |list| - 1;
      var marks := seq(|list|, k requires 0 <= k < |list| => Put(list[k].id, list[k]));
      PutChannelsHeld(m, list[..n]);
      assert marks[..n] == seq(n, k requires 0 <= k < n => Put(list[..n][k].id, list[..n][k]));
    }
  }

  lemma DmsStep(s: Account, u: Update)
    ensures ApplyUpdate(s, u).dms == Held(s.dms, DmsOf(u))
  {
    hide PutUsers, PutRelationships, PutChannels, PutGuilds, Held, Upserted, Without;
    HeldOne<Channel>(s.dms, Drop([]));
    match u
    case Gateway(Ready(_, _, _, list, _)) => PutChannelsHeld(s.dms, list);
    case Gateway(ChannelUpsert(c)) => HeldOne(s.dms, Put(c.id, c));
    case Gateway(ChannelDelete(id, _)) => HeldOne<Channel>(s.dms, Drop(id));
    case NewDM(dm) => HeldOne(s.dms, Put(dm.id, dm));
    case _ =>
  }

  // Each DM is the one last created, updated or listed by a READY, unless it was deleted since.
  lemma {:induction false} DmsHeld(loaded: Account, log: seq<Update>)
    ensures After(loaded, log).dms == Held(loaded.dms, Marks(log, DmsOf))
  {
    if log != [] {
      var init := log[..|log| - 1];
      DmsHeld(loaded, init);
      DmsStep(After(loaded, init), log[|log| - 1]);
      HeldConcat(loaded.dms, Marks(init, DmsOf), DmsOf(log[|log| - 1]));
    }
  }

  // ------------------------------------------------------------- users and the own profile

  function UsersOf(u: Update): seq<Mark<User>> {
    match u
    case Gateway(Ready(user, list, _, _, _)) =>
      (if user.id != [] then [Put(user.id, user)] else []) + seq(|list|, k requires 0 <= k < |list| => Put(list[k].id, list[k]))
    case Gateway(RelationshipUpsert(r)) => if r.user.id != [] then [Put(r.user.id, r.user)] else []
    case NewMe(user) => [Put(user.id, user)]
    case _ => []
  }

  lemma {:induction false} PutUsersHeld(m: map<Str, User>, list: seq<User>)
    ensures PutUsers(m, list) == Held(m, seq(|list|, k requires 0 <= k < |list| => Put(list[k].id, list[k])))
  {
    if list != [] {
      var n := |list| - 1;
      var marks := seq(|list|, k requires 0 <= k < |list| => Put(list[k].id, list[k]));
      PutUsersHeld(m, list[..n]);
      assert marks[..n] == seq(n, k requires 0 <= k < n => Put(list[..n][k].id, list[..n][k]));
    }
  }

  lemma UsersStep(s: Account, u: Update)
    ensures ApplyUpdate(s, u).users == Held(s.users, UsersOf(u))
  {
    hide PutUsers, PutRelationships, PutChannels, PutGuilds, Held, Upserted, Without;
    HeldOne<User>(s.users, Drop([]));
    match u
    case Gateway(Ready(user, list, _, _, _)) =>
      var own := if user.id != [] then [Put(user.id, user)] else [];
      var listed := seq(|list|, k requires 0 <= k < |list| => Put(list[k].id, list[k]));
      HeldOne(s.users, Put(user.id, user));
      HeldConcat(s.users, own, listed);
      PutUsersHeld(Held(s.users, own), list);
    case Gateway(RelationshipUpsert(r)) => HeldOne(s.users, Put(r.user.id, r.user));
    case NewMe(user) => HeldOne(s.users, Put(user.id, user));
    case _ =>
  }

  // Each user is the profile last received: the own one, one listed by a READY or one of a relationship.
  lemma {:induction false} UsersHeld(loaded: Account, log: seq<Update>)
    ensures After(loaded, log).users == Held(loaded.users, Marks(log, UsersOf))
  {
    if log != [] {
      var init := log[..|log| - 1];
      UsersHeld(loaded, init);
      UsersStep(After(loaded, init), log[|log| - 1]);
      HeldConcat(loaded.users, Marks(init, UsersOf), UsersOf(log[|log| - 1]));
    }
  }

  function Profile(u: Update): Option<User> {
    match u
    case Gateway(Ready(user, _, _, _, _)) => Some(user)
    case NewMe(user) => Some(user)
    case _ => None
  }

  // The account is that of the last READY or edit.
  lemma {:induction false} MeHeld(loaded: Account, log: seq<Update>)
    ensures forall k :: 0 <= k < |log| && Profile(log[k]).Some? && (forall j :: k < j < |log| ==> Profile(log[j]).None?) ==>
              After(loaded, log).me == Profile(log[k]).value
    ensures (forall k :: 0 <= k < |log| ==> Profile(log[k]).None?) ==> After(loaded, log).me == loaded.me
  {
    if log != [] {
      var n := |log| - 1;
      MeHeld(loaded, log[..n]);
      MeStep(After(loaded, log[..n]), log[n]);
      forall k | 0 <= k < n && Profile(log[k]).Some? && (forall j :: k < j < |log| ==> Profile(log[j]).None?)
        ensures After(loaded, log).me == Profile(log[k]).value
      {
        assert log[..n][k] == log[k];
        assert Profile(log[n]).None?;
        forall j | k < j < n ensures Profile(log[..n][j]).None? {
          assert log[..n][j] == log[j];
        }
      }
    }
  }

  lemma MeStep(s: Account, u: Update)
    ensures ApplyUpdate(s, u).me == if Profile(u).Some? then Profile(u).value else s.me
  {
    hide PutUsers, PutRelationships, PutChannels, PutGuilds, Upserted, Without;
  }

  // ------------------------------------------------------------- communities

  // The guilds of a READY that are available.
  function Available(list: seq<Guild>): seq<Mark<Guild>> {
    if list == [] then []
    else
      var g := list[|list| - 1];
      Available(list[..|list| - 1]) + if g.unavailable then [] else [Put(g.id, g)]
  }

  lemma {:induction false} AvailableMeaning(list: seq<Guild>)
    ensures forall m :: m in Available(list) <==> exists k :: 0 <= k < |list| && !list[k].unavailable && m == Put(list[k].id, list[k])
  {
    if list != [] {
      AvailableMeaning(list[..|list| - 1]);
    }
  }

  function GuildsOf(u: Update): seq<Mark<Guild>> {
    match u
    case Gateway(Ready(_, _, _, _, list)) => Available(list)
    case Gateway(GuildUpsert(g)) => [Put(g.id, g)]
    case Gateway(GuildDelete(id)) => [Drop(id)]
    case _ => []
  }

  // What the marks say of one field; a field that was left out is not marked.
  function Given<T>(marks: seq<Mark<Guild>>, field: Guild -> Option<T>): seq<Mark<T>> {
    if marks == [] then []
    else
      var last := marks[|marks| - 1];
      Given(marks[..|marks| - 1], field) +
      match last
      case Drop(key) => [Drop(key)]
      case Put(key, g) => if field(g).Some? then [Put(key, field(g).value)] else []
  }

  function GivenName(g: Guild): Option<Str> {
    if g.name == [] then None else Some(g.name)
  }

  function GivenOwner(g: Guild): Option<Str> {
    if g.ownerId == [] then None else Some(g.ownerId)
  }

  // Whether it is available is given with every update.
  function GivenOutage(g: Guild): Option<bool> {
    Some(g.unavailable)
  }

  function Fields<T>(guilds: map<Str, Guild>, field: Guild -> Option<T>): map<Str, T> {
    map id | id in guilds && field(guilds[id]).Some? :: field(guilds[id]).value
  }

  ghost predicate IdsKeyed(guilds: map<Str, Guild>) {
    forall id :: id in guilds ==> guilds[id].id == id
  }

  // The guilds that these marks leave, and their fields other than the channel list.
  ghost predicate GuildsAre(start: map<Str, Guild>, marks: seq<Mark<Guild>>, now: map<Str, Guild>) {
    && now.Keys == Held(start, marks).Keys
    && Fields(now, GivenName) == Held(Fields(start, GivenName), Given(marks, GivenName))
    && Fields(now, GivenOwner) == Held(Fields(start, GivenOwner), Given(marks, GivenOwner))
    && Fields(now, GivenOutage) == Held(Fields(start, GivenOutage), Given(marks, GivenOutage))
  }

  lemma GivenSnoc<T>(marks: seq<Mark<Guild>>, m: Mark<Guild>, field: Guild -> Option<T>)
    ensures Given(marks + [m], field) ==
            Given(marks, field) +
            match m
            case Drop(key) => [Drop(key)]
            case Put(key, g) => if field(g).Some? then [Put(key, field(g).value)] else []
  {
    assert (marks + [m])[..|marks|] == marks;
  }

  lemma FieldPut<T>(start: map<Str, T>, marks: seq<Mark<Guild>>, g: Guild, guilds: map<Str, Guild>, now: map<Str, Guild>, field: Guild -> Option<T>)
    requires Fields(guilds, field) == Held(start, Given(marks, field))
    requires g.id in now && now == guilds[g.id := now[g.id]]
    requires field(now[g.id]) == if field(g).Some? then field(g) else if g.id in guilds then field(guilds[g.id]) else None
    ensures Fields(now, field) == Held(start, Given(marks + [Put(g.id, g)], field))
  {
    hide Held, Given;
    GivenSnoc(marks, Put(g.id, g), field);
    if field(g).Some? {
      HeldConcat(start, Given(marks, field), [Put(g.id, field(g).value)]);
      HeldOne(Fields(guilds, field), Put(g.id, field(g).value));
      assert Fields(now, field) == Fields(guilds, field)[g.id := field(g).value];
    } else {
      assert Given(marks, field) + [] == Given(marks, field);
      assert Fields(now, field) == Fields(guilds, field);
    }
  }

  lemma FieldDrop<T>(start: map<Str, T>, marks: seq<Mark<Guild>>, id: Str, guilds: map<Str, Guild>, field: Guild -> Option<T>)
    requires Fields(guilds, field) == Held(start, Given(marks, field))
    ensures Fields(guilds - {id}, field) == Held(start, Given(marks + [Drop(id)], field))
  {
    hide Held, Given;
    GivenSnoc(marks, Drop(id), field);
    HeldConcat(start, Given(marks, field), [Drop(id)]);
    HeldOne<T>(Fields(guilds, field), Drop(id));
  }

  lemma PutGuildAre(start: map<Str, Guild>, marks: seq<Mark<Guild>>, guilds: map<Str, Guild>, g: Guild)
    requires GuildsAre(start, marks, guilds)
    ensures GuildsAre(start, marks + [Put(g.id, g)], PutGuild(guilds, g))
  {
    hide Held, Given, Fields;
    var now := PutGuild(guilds, g);
    HeldConcat(start, marks, [Put(g.id, g)]);
    HeldOne(Held(start, marks), Put(g.id, g));
    FieldPut(Fields(start, GivenName), marks, g, guilds, now, GivenName);
    FieldPut(Fields(start, GivenOwner), marks, g, guilds, now, GivenOwner);
    FieldPut(Fields(start, GivenOutage), marks, g, guilds, now, GivenOutage);
  }

  lemma {:induction false} PutGuildsAre(start: map<Str, Guild>, marks: seq<Mark<Guild>>, guilds: map<Str, Guild>, list: seq<Guild>)
    requires GuildsAre(start, marks, guilds)
    ensures GuildsAre(start, marks + Available(list), PutGuilds(guilds, list))
  {
    hide GuildsAre, PutGuild;
    if list == [] {
      assert marks + [] == marks;
    } else {
      var init, g := list[..|list| - 1], list[|list| - 1];
      PutGuildsAre(start, marks, guilds, init);
      if g.unavailable {
        assert Available(init) + [] == Available(init);
      } else {
        PutGuildAre(start, marks + Available(init), PutGuilds(guilds, init), g);
        assert marks + Available(init) + [Put(g.id, g)] == marks + (Available(init) + [Put(g.id, g)]);
      }
    }
  }

  lemma DropGuildAre(start: map<Str, Guild>, marks: seq<Mark<Guild>>, guilds: map<Str, Guild>, id: Str)
    requires GuildsAre(start, marks, guilds)
    ensures GuildsAre(start, marks + [Drop(id)], guilds - {id})
  {
    hide Held, Given, Fields;
    HeldConcat(start, marks, [Drop(id)]);
    HeldOne<Guild>(Held(start, marks), Drop(id));
    FieldDrop(Fields(start, GivenName), marks, id, guilds, GivenName);
    FieldDrop(Fields(start, GivenOwner), marks, id, guilds, GivenOwner);
    FieldDrop(Fields(start, GivenOutage), marks, id, guilds, GivenOutage);
  }

  // An edit of a channel list is nothing to the rest.
  lemma EditGuildAre(start: map<Str, Guild>, marks: seq<Mark<Guild>>, guilds: map<Str, Guild>, id: Str, channels: Option<seq<Channel>>)
    requires GuildsAre(start, marks, guilds) && id in guilds
    ensures GuildsAre(start, marks, guilds[id := guilds[id].(channels := channels)])
  {
    hide Held, Given, Fields;
    var now := guilds[id := guilds[id].(channels := channels)];
    assert now.Keys == guilds.Keys;
    EditField(guilds, id, channels, GivenName);
    EditField(guilds, id, channels, GivenOwner);
    EditField(guilds, id, channels, GivenOutage);
  }

  lemma EditField<T>(guilds: map<Str, Guild>, id: Str, channels: Option<seq<Channel>>, field: Guild -> Option<T>)
    requires id in guilds && field(guilds[id].(channels := channels)) == field(guilds[id])
    ensures Fields(guilds[id := guilds[id].(channels := channels)], field) == Fields(guilds, field)
  {
  }

  lemma GuildsStep(start: map<Str, Guild>, marks: seq<Mark<Guild>>, s: Account, u: Update)
    requires GuildsAre(start, marks, s.guilds) && IdsKeyed(s.guilds)
    ensures GuildsAre(start, marks + GuildsOf(u), ApplyUpdate(s, u).guilds)
  {
    hide GuildsAre, PutGuild, PutUsers, PutRelationships, PutChannels, Upserted, Without;
    match u
    case Gateway(Ready(_, _, _, _, list)) => PutGuildsAre(start, marks, s.guilds, list);
    case Gateway(GuildUpsert(g)) => PutGuildAre(start, marks, s.guilds, g);
    case Gateway(GuildDelete(id)) => DropGuildAre(start, marks, s.guilds, id);
    case Gateway(ChannelUpsert(c)) =>
      assert marks + [] == marks;
      if c.guildId in s.guilds {
        EditGuildAre(start, marks, s.guilds, c.guildId, Some(Upserted(s.guilds[c.guildId].Channels(), c)));
      }
    case Gateway(ChannelDelete(id, guildId)) =>
      assert marks + [] == marks;
      if guildId in s.guilds {
        var g := s.guilds[guildId];
        EditGuildAre(start, marks, s.guilds, guildId, if g.channels.None? then None else Some(Without(g.Channels(), id)));
      }
    case _ => assert marks + [] == marks;
  }

  lemma {:induction false} PutGuildsIds(guilds: map<Str, Guild>, list: seq<Guild>)
    requires IdsKeyed(guilds)
    ensures IdsKeyed(PutGuilds(guilds, list))
  {
    if list != [] {
      PutGuildsIds(guilds, list[..|list| - 1]);
    }
  }

  lemma IdsStep(s: Account, u: Update)
    requires IdsKeyed(s.guilds)
    ensures IdsKeyed(ApplyUpdate(s, u).guilds)
  {
    hide PutUsers, PutRelationships, PutChannels, PutGuilds, Upserted, Without;
    if u.Gateway? && u.event.Ready? {
      PutGuildsIds(s.guilds, u.event.guilds);
    }
  }

  // The communities are those that came and were not deleted since. Name and owner are the last that were
  // given since; a field left out keeps its value, and an unavailable guild of a READY is passed over.
  lemma {:induction false} GuildsHeld(loaded: Account, log: seq<Update>)
    requires IdsKeyed(loaded.guilds)
    ensures GuildsAre(loaded.guilds, Marks(log, GuildsOf), After(loaded, log).guilds) && IdsKeyed(After(loaded, log).guilds)
  {
    hide GuildsAre;
    if log == [] {
      NoMarks(loaded.guilds);
    } else {
      var init, u := log[..|log| - 1], log[|log| - 1];
      GuildsHeld(loaded, init);
      GuildsStep(loaded.guilds, Marks(init, GuildsOf), After(loaded, init), u);
      IdsStep(After(loaded, init), u);
    }
  }

  lemma NoMarks(guilds: map<Str, Guild>)
    ensures GuildsAre(guilds, [], guilds)
  {
  }

  // Where no name is recorded it is empty.
  lemma FieldShown(guilds: map<Str, Guild>, id: Str)
    requires id in guilds
    ensures guilds[id].name == if id in Fields(guilds, GivenName) then Fields(guilds, GivenName)[id] else []
    ensures guilds[id].ownerId == if id in Fields(guilds, GivenOwner) then Fields(guilds, GivenOwner)[id] else []
    ensures id in Fields(guilds, GivenOutage) && Fields(guilds, GivenOutage)[id] == guilds[id].unavailable
  {
  }
}
