/** The in-memory account: what each event does to it, and what a snapshot of it shows. */
module Stores {
  import opened Bytes
  import opened Wrappers
  import opened Types
  import EventStreams

  datatype Account = Account(
    me: User,
    users: map<Str, User>,
    relationships: map<Str, Relationship>,
    dms: map<Str, Channel>,
    guilds: map<Str, Guild>)

  const EMPTY := Account(NOBODY, map[], map[], map[], map[])

  datatype Event =
    | Ready(user: User, users: seq<User>, relationships: seq<Relationship>, dms: seq<Channel>, guilds: seq<Guild>)
    | ChannelUpsert(channel: Channel)
    | ChannelDelete(id: Str, guildId: Str)
    | RelationshipUpsert(relationship: Relationship)
    | RelationshipRemove(id: Str)
    | GuildUpsert(guild: Guild)
    | GuildDelete(id: Str)
    | Message(message: EventStreams.Event)
    | Undecodable
    | Ignored

  // ------------------------------------------------------------- folds over incoming lists

  function PutUsers(m: map<Str, User>, list: seq<User>): map<Str, User> {
    if list == [] then m
    else
      var last := list[|list| - 1];
      PutUsers(m, list[..|list| - 1])[last.id := last]
  }

  function PutRelationships(m: map<Str, Relationship>, list: seq<Relationship>): map<Str, Relationship> {
    if list == [] then m
    else
      var last := list[|list| - 1];
      PutRelationships(m, list[..|list| - 1])[last.id := last]
  }

  function PutChannels(m: map<Str, Channel>, list: seq<Channel>): map<Str, Channel> {
    if list == [] then m
    else
      var last := list[|list| - 1];
      PutChannels(m, list[..|list| - 1])[last.id := last]
  }

  function PutGuilds(m: map<Str, Guild>, list: seq<Guild>): map<Str, Guild> {
    if list == [] then m
    else
      var before, last := PutGuilds(m, list[..|list| - 1]), list[|list| - 1];
      if last.unavailable then before else PutGuild(before, last)
  }

  function Known(guilds: map<Str, Guild>, id: Str): Guild {
    if id in guilds then guilds[id] else NO_GUILD
  }

  function PutGuild(guilds: map<Str, Guild>, g: Guild): map<Str, Guild> {
    guilds[g.id := MergeGuild(Known(guilds, g.id), g)]
  }

  function MergeGuild(current: Guild, update: Guild): Guild {
    Guild(
      if update.id == [] then current.id else update.id,
      if update.name == [] then current.name else update.name,
      if update.ownerId == [] then current.ownerId else update.ownerId,
      if update.channels.None? then current.channels else update.channels,
      update.unavailable)
  }

  // ------------------------------------------------------------- channel lists

  predicate HasId(channels: seq<Channel>, id: Str) {
    exists k :: 0 <= k < |channels| && channels[k].id == id
  }

  // The channel takes the place of its namesakes, or goes to the end.
  function Upserted(channels: seq<Channel>, c: Channel): seq<Channel> {
    var replaced := seq(|channels|, k requires 0 <= k < |channels| => if channels[k].id == c.id then c else channels[k]);
    if HasId(channels, c.id) then replaced else channels + [c]
  }

  function Without(channels: seq<Channel>, id: Str): seq<Channel> {
    if channels == [] then []
    else
      var last := channels[|channels| - 1];
      Without(channels[..|channels| - 1], id) + if last.id == id then [] else [last]
  }

  method Upsert(channels: seq<Channel>, c: Channel) returns (out: seq<Channel>)
    ensures out == Upserted(channels, c)
    ensures |channels| <= |out| && forall k :: 0 <= k < |channels| ==> out[k] == if channels[k].id == c.id then c else channels[k]
    ensures out[|channels|..] == if exists k :: 0 <= k < |channels| && channels[k].id == c.id then [] else [c]
  {
    out := channels;
    var found := false;
    for i := 0 to |channels|
      invariant |out| == |channels|
      invariant forall k :: 0 <= k < |channels| ==>
                  out[k] == if k < i && channels[k].id == c.id then c else channels[k]
      invariant found <==> exists k :: 0 <= k < i && channels[k].id == c.id
    {
      if out[i].id == c.id {
        out := out[i := c];
        found := true;
      }
    }
    if !found {
      assert out == channels;
      out := out + [c];
    }
  }

  // One channel is kept exactly when it has another id, and channels are gone through in order.
  lemma {:induction false} WithoutConcat(a: seq<Channel>, b: seq<Channel>, id: Str)
    ensures Without(a + b, id) == Without(a, id) + Without(b, id)
    ensures |a| == 1 ==> Without(a, id) == if a[0].id == id then [] else a
  {
    if |a| == 1 {
      assert a[..0] == [];
    }
    if b == [] {
      assert a + b == a;
    } else {
      WithoutConcat(a, b[..|b| - 1], id);
      assert (a + b)[..|a + b| - 1] == a + b[..|b| - 1];
    }
  }

  lemma {:induction false} WithoutLength(channels: seq<Channel>, id: Str)
    ensures |Without(channels, id)| <= |channels|
  {
    if channels != [] {
      WithoutLength(channels[..|channels| - 1], id);
    }
  }

  // The slice is compacted in its own backing array: kept elements move down over removed ones.
  method Compact(a: array<Channel>, id: Str) returns (n: nat)
    modifies a
    ensures n <= a.Length && a[..n] == Without(old(a[..]), id)
  {
    n := 0;
    for i := 0 to a.Length
      invariant n <= i
      invariant a[..n] == Without(old(a[..])[..i], id)
      invariant a[i..] == old(a[..])[i..]
    {
      var was := old(a[..]);
      assert was[..i + 1][..i] == was[..i];
      assert a[i] == was[i] by {
        assert a[i] == a[i..][0] == was[i..][0];
      }
      var c := a[i];
      assert a[i + 1..] == was[i + 1..] by {
        assert a[i + 1..] == a[i..][1..] && was[i + 1..] == was[i..][1..];
      }
      if c.id != id {
        ghost var kept := a[..n];
        a[n] := c;
        n := n + 1;
        assert a[..n] == kept + [c];
      }
    }
    assert old(a[..])[..a.Length] == old(a[..]);
  }

  method Remove(channels: seq<Channel>, id: Str) returns (out: seq<Channel>)
    ensures out == Without(channels, id)
  {
    var a := new Channel[|channels|](k requires 0 <= k < |channels| => channels[k]);
    assert a[..] == channels;
    var n := Compact(a, id);
    out := a[..n];
  }

  // ------------------------------------------------------------- events

  function AddChannel(s: Account, c: Channel): Account {
    if c.guildId == [] then s.(dms := s.dms[c.id := c])
    else if c.guildId in s.guilds then
      var g := s.guilds[c.guildId];
      s.(guilds := s.guilds[g.id := g.(channels := Some(Upserted(g.Channels(), c)))])
    else s
  }

  function DropChannel(s: Account, id: Str, guildId: Str): Account {
    var t := s.(dms := s.dms - {id});
    if guildId in s.guilds then
      var g := s.guilds[guildId];
      t.(guilds := s.guilds[g.id := g.(channels := if g.channels.None? then None else Some(Without(g.Channels(), id)))])
    else t
  }

  function AddRelationship(s: Account, r: Relationship): Account {
    s.(relationships := s.relationships[r.id := r], users := if r.user.id != [] then s.users[r.user.id := r.user] else s.users)
  }

  function Apply(s: Account, e: Event): Account {
    match e
    case Ready(user, users, relationships, dms, guilds) =>
      var known := if user.id != [] then s.users[user.id := user] else s.users;
      Account(user, PutUsers(known, users), PutRelationships(s.relationships, relationships),
              PutChannels(s.dms, dms), PutGuilds(s.guilds, guilds))
    case ChannelUpsert(c) => AddChannel(s, c)
    case ChannelDelete(id, guildId) => DropChannel(s, id, guildId)
    case RelationshipUpsert(r) => AddRelationship(s, r)
    case RelationshipRemove(id) => s.(relationships := s.relationships - {id})
    case GuildUpsert(g) => s.(guilds := PutGuild(s.guilds, g))
    case GuildDelete(id) => s.(guilds := s.guilds - {id})
    case Message(_) => s
    case Undecodable => s
    case Ignored => s
  }

  // Everything that changes the store once it is loaded: gateway events, a DM the tree has created,
  // and a profile the user has edited.
  datatype Update = Gateway(event: Event) | NewDM(dm: Channel) | NewMe(user: User)

  function ApplyUpdate(s: Account, u: Update): Account {
    match u
    case Gateway(e) => Apply(s, e)
    case NewDM(dm) => s.(dms := s.dms[dm.id := dm])
    case NewMe(user) => s.(me := user, users := s.users[user.id := user])
  }

  // Events that call the topology observer once the lock is released.
  predicate Notifies(e: Event) {
    !e.Message? && !e.Undecodable? && !e.Ignored?
  }

  // What the tree is shown: relationships with blank users filled in from the user table.
  function Filled(s: Account, r: Relationship): Relationship {
    if r.user.id == [] then r.(user := if r.id in s.users then s.users[r.id] else NOBODY) else r
  }

  // A listing of a map's values in some order of its keys.
  ghost predicate Lists(keys: seq<Str>, domain: set<Str>) {
    && (forall k :: k in keys <==> k in domain)
    && (forall i, j :: 0 <= i < j < |keys| ==> keys[i] != keys[j])
  }

  lemma {:induction false} ListsCount(keys: seq<Str>, domain: set<Str>)
    requires Lists(keys, domain)
    ensures |keys| == |domain|
  {
    if keys == [] {
      assert domain == {};
    } else {
      var n := |keys| - 1;
      assert keys[n] in keys;
      forall k ensures k in keys[..n] <==> k in domain - {keys[n]} {
        if k in domain - {keys[n]} {
          var j :| 0 <= j < |keys| && keys[j] == k;
          assert keys[..n][j] == k;
        }
      }
      ListsCount(keys[..n], domain - {keys[n]});
    }
  }

  datatype Snapshot = Shown(me: User, relationships: seq<Relationship>, dms: seq<Channel>, guilds: seq<Guild>)

  datatype Order = Order(relationships: seq<Str>, dms: seq<Str>, guilds: seq<Str>)

  ghost predicate Orders(order: Order, s: Account) {
    && Lists(order.relationships, s.relationships.Keys)
    && Lists(order.dms, s.dms.Keys)
    && Lists(order.guilds, s.guilds.Keys)
  }

  ghost function SnapshotIn(s: Account, order: Order): Snapshot
    requires Orders(order, s)
  {
    Shown(
      s.me,
      seq(|order.relationships|, k requires 0 <= k < |order.relationships| =>
        assert order.relationships[k] in order.relationships; Filled(s, s.relationships[order.relationships[k]])),
      seq(|order.dms|, k requires 0 <= k < |order.dms| => assert order.dms[k] in order.dms; s.dms[order.dms[k]]),
      seq(|order.guilds|, k requires 0 <= k < |order.guilds| => assert order.guilds[k] in order.guilds; s.guilds[order.guilds[k]]))
  }

  // A snapshot lists each relationship, DM and guild once; a relationship without a user of its own is shown
  // with the user known under its id.
  lemma SnapshotShows(s: Account, order: Order)
    requires Orders(order, s)
    ensures var v := SnapshotIn(s, order);
            && v.me == s.me && |v.relationships| == |s.relationships| && |v.dms| == |s.dms| && |v.guilds| == |s.guilds|
            && (forall id :: id in s.relationships ==>
                  var r := s.relationships[id];
                  (if r.user.id != [] then r else if r.id in s.users then r.(user := s.users[r.id]) else r.(user := NOBODY))
                  in v.relationships)
            && (forall id :: id in s.dms ==> s.dms[id] in v.dms) && (forall id :: id in s.guilds ==> s.guilds[id] in v.guilds)
  {
    ListsCount(order.relationships, s.relationships.Keys);
    ListsCount(order.dms, s.dms.Keys);
    ListsCount(order.guilds, s.guilds.Keys);
    var v := SnapshotIn(s, order);
    forall id | id in s.relationships ensures Filled(s, s.relationships[id]) in v.relationships {
      var k :| 0 <= k < |order.relationships| && order.relationships[k] == id;
      assert v.relationships[k] == Filled(s, s.relationships[id]);
    }
    forall id | id in s.dms ensures s.dms[id] in v.dms {
      var k :| 0 <= k < |order.dms| && order.dms[k] == id;
      assert v.dms[k] == s.dms[id];
    }
    forall id | id in s.guilds ensures s.guilds[id] in v.guilds {
      var k :| 0 <= k < |order.guilds| && order.guilds[k] == id;
      assert v.guilds[k] == s.guilds[id];
    }
  }

  predicate DirectTo(dm: Channel, userId: Str) {
    dm.kind == DM_CHANNEL && exists k :: 0 <= k < |dm.recipients| && dm.recipients[k].id == userId
  }

  // ------------------------------------------------------------- the store

  class Store {
    var me: User
    var users: map<Str, User>
    var relationships: map<Str, Relationship>
    var dms: map<Str, Channel>
    var guilds: map<Str, Guild>

    ghost function State(): Account
      reads this
    {
      Account(me, users, relationships, dms, guilds)
    }

    constructor ()
      ensures State() == EMPTY
    {
      me, users, relationships, dms, guilds := NOBODY, map[], map[], map[], map[];
    }

    method ApplyReady(user: User, newUsers: seq<User>, rels: seq<Relationship>, channels: seq<Channel>, newGuilds: seq<Guild>)
      modifies this
      ensures State() == Apply(old(State()), Ready(user, newUsers, rels, channels, newGuilds))
    {
      me := user;
      if user.id != [] {
        users := users[user.id := user];
      }
      ghost var s := State();
      for i := 0 to |newUsers|
        invariant State() == s.(users := PutUsers(s.users, newUsers[..i]))
      {
        assert newUsers[..i + 1][..i] == newUsers[..i];
        users := users[newUsers[i].id := newUsers[i]];
      }
      assert newUsers[..|newUsers|] == newUsers;
      for i := 0 to |rels|
        invariant State() == s.(users := PutUsers(s.users, newUsers),
                                relationships := PutRelationships(s.relationships, rels[..i]))
      {
        assert rels[..i + 1][..i] == rels[..i];
        relationships := relationships[rels[i].id := rels[i]];
      }
      assert rels[..|rels|] == rels;
      for i := 0 to |channels|
        invariant State() == s.(users := PutUsers(s.users, newUsers),
                                relationships := PutRelationships(s.relationships, rels),
                                dms := PutChannels(s.dms, channels[..i]))
      {
        assert channels[..i + 1][..i] == channels[..i];
        dms := dms[channels[i].id := channels[i]];
      }
      assert channels[..|channels|] == channels;
      for i := 0 to |newGuilds|
        invariant State() == s.(users := PutUsers(s.users, newUsers),
                                relationships := PutRelationships(s.relationships, rels),
                                dms := PutChannels(s.dms, channels),
                                guilds := PutGuilds(s.guilds, newGuilds[..i]))
      {
        assert newGuilds[..i + 1][..i] == newGuilds[..i];
        var g := newGuilds[i];
        if !g.unavailable {
          guilds := guilds[g.id := MergeGuild(Known(guilds, g.id), g)];
        }
      }
      assert newGuilds[..|newGuilds|] == newGuilds;
    }

    // notify says that the topology observer is called; published goes to the hub.
    method ApplyGateway(e: Event) returns (notify: bool, published: Option<EventStreams.Event>)
      modifies this
      ensures State() == Apply(old(State()), e)
      ensures notify == Notifies(e) == !(e.Message? || e.Undecodable? || e.Ignored?)
      ensures published == if e.Message? then Some(e.message) else None
    {
      notify, published := true, None;
      match e
      case Ready(user, newUsers, rels, channels, newGuilds) =>
        ApplyReady(user, newUsers, rels, channels, newGuilds);
      case ChannelUpsert(c) =>
        if c.guildId == [] {
          dms := dms[c.id := c];
        } else if c.guildId in guilds {
          var g := guilds[c.guildId];
          var channels := Upsert(g.Channels(), c);
          guilds := guilds[g.id := g.(channels := Some(channels))];
        }
      case ChannelDelete(id, guildId) =>
        dms := dms - {id};
        if guildId in guilds {
          var g := guilds[guildId];
          var channels := Remove(g.Channels(), id);
          guilds := guilds[g.id := g.(channels := if g.channels.None? then None else Some(channels))];
        }
      case RelationshipUpsert(r) =>
        relationships := relationships[r.id := r];
        if r.user.id != [] {
          users := users[r.user.id := r.user];
        }
      case RelationshipRemove(id) => relationships := relationships - {id};
      case GuildUpsert(g) => guilds := guilds[g.id := MergeGuild(Known(guilds, g.id), g)];
      case GuildDelete(id) => guilds := guilds - {id};
      case Message(m) => notify, published := false, Some(m);
      case Undecodable => notify := false;
      case Ignored => notify := false;
    }

    method UpsertDM(dm: Channel)
      modifies this
      ensures State() == ApplyUpdate(old(State()), NewDM(dm))
    {
      dms := dms[dm.id := dm];
    }

    method SetMe(user: User)
      modifies this
      ensures State() == ApplyUpdate(old(State()), NewMe(user))
    {
      me := user;
      users := users[user.id := user];
    }

    // Some DM with the user, if there is one; which of several depends on map order.
    method FindDMForUser(userId: Str) returns (dm: Option<Channel>)
      ensures dm.Some? ==> dm.value in dms.Values && DirectTo(dm.value, userId)
      ensures dm.Some? ==> dm.value.kind == 1 && exists k :: 0 <= k < |dm.value.recipients| && dm.value.recipients[k].id == userId
      ensures dm.None? ==>
                forall id, k :: id in dms && 0 <= k < |dms[id].recipients| && dms[id].recipients[k].id == userId ==> dms[id].kind != 1
      ensures dm.None? ==> forall id :: id in dms ==> !DirectTo(dms[id], userId)
    {
      var rest := dms.Keys;
      while rest != {}
        invariant rest <= dms.Keys
        invariant forall id :: id in dms && id !in rest ==> !DirectTo(dms[id], userId)
        decreases |rest|
      {
        var id :| id in rest;
        var candidate := dms[id];
        if candidate.kind == DM_CHANNEL {
          for k := 0 to |candidate.recipients|
            invariant forall j :: 0 <= j < k ==> candidate.recipients[j].id != userId
          {
            if candidate.recipients[k].id == userId {
              return Some(candidate);
            }
          }
        }
        rest := rest - {id};
      }
      dm := None;
    }

    method Snapshot() returns (v: Snapshot, ghost order: Order)
      ensures Orders(order, State()) && v == SnapshotIn(State(), order)
    {
      var rels, relKeys := ListRelationships();
      var channels, dmKeys := ListDMs();
      var gs, guildKeys := ListGuilds();
      order := Order(relKeys, dmKeys, guildKeys);
      v := Shown(me, rels, channels, gs);
    }

    method ListRelationships() returns (list: seq<Relationship>, ghost keys: seq<Str>)
      ensures Lists(keys, relationships.Keys) && |list| == |keys|
      ensures forall k :: 0 <= k < |keys| ==> keys[k] in relationships && list[k] == Filled(State(), relationships[keys[k]])
    {
      list, keys := [], [];
      var rest := relationships.Keys;
      while rest != {}
        invariant rest <= relationships.Keys && Lists(keys, relationships.Keys - rest) && |list| == |keys|
        invariant forall k :: 0 <= k < |keys| ==> keys[k] in relationships && list[k] == Filled(State(), relationships[keys[k]])
        decreases |rest|
      {
        var id :| id in rest;
        var rel := relationships[id];
        if rel.user.id == [] {
          rel := rel.(user := if rel.id in users then users[rel.id] else NOBODY);
        }
        list, keys, rest := list + [rel], keys + [id], rest - {id};
      }
      assert relationships.Keys - rest == relationships.Keys;
    }

    method ListDMs() returns (list: seq<Channel>, ghost keys: seq<Str>)
      ensures Lists(keys, dms.Keys) && |list| == |keys|
      ensures forall k :: 0 <= k < |keys| ==> keys[k] in dms && list[k] == dms[keys[k]]
    {
      list, keys := [], [];
      var rest := dms.Keys;
      while rest != {}
        invariant rest <= dms.Keys && Lists(keys, dms.Keys - rest) && |list| == |keys|
        invariant forall k :: 0 <= k < |keys| ==> keys[k] in dms && list[k] == dms[keys[k]]
        decreases |rest|
      {
        var id :| id in rest;
        list, keys, rest := list + [dms[id]], keys + [id], rest - {id};
      }
      assert dms.Keys - rest == dms.Keys;
    }

    method ListGuilds() returns (list: seq<Guild>, ghost keys: seq<Str>)
      ensures Lists(keys, guilds.Keys) && |list| == |keys|
      ensures forall k :: 0 <= k < |keys| ==> keys[k] in guilds && list[k] == guilds[keys[k]]
    {
      list, keys := [], [];
      var rest := guilds.Keys;
      while rest != {}
        invariant rest <= guilds.Keys && Lists(keys, guilds.Keys - rest) && |list| == |keys|
        invariant forall k :: 0 <= k < |keys| ==> keys[k] in guilds && list[k] == guilds[keys[k]]
        decreases |rest|
      {
        var id :| id in rest;
        list, keys, rest := list + [guilds[id]], keys + [id], rest - {id};
      }
      assert guilds.Keys - rest == guilds.Keys;
    }
  }
}
