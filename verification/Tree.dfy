/** The friends, dms and communities directories: refreshed from a snapshot of the account. */
module Trees {
  import opened Bytes
  import opened Wrappers
  import opened Types
  import opened Names
  import opened Stores
  import opened Conversations
  import PathNames

  const DM: Str := [0x64, 0x6D]

  // ------------------------------------------------------------- what a snapshot asks for

  predicate ShownFriend(r: Relationship) {
    r.kind == FRIEND && r.user.id != []
  }

  function FriendSpec(r: Relationship): Spec {
    Spec(PathNames.NameOf(r.user.Tag()), r.user.id, Friend(r), Some(r.user))
  }

  function FriendSpecs(rels: seq<Relationship>): seq<Spec> {
    if rels == [] then []
    else
      var last := rels[|rels| - 1];
      FriendSpecs(rels[..|rels| - 1]) + if ShownFriend(last) then [FriendSpec(last)] else []
  }

  function Recipient(c: Channel): Option<User> {
    if c.kind == DM_CHANNEL && c.recipients != [] then Some(c.recipients[0]) else None
  }

  function DmSpec(c: Channel): Spec {
    var title := if Recipient(c).Some? then Recipient(c).value.Tag() else c.name;
    Spec(PathNames.NameOf(if title == [] then DM else title), c.id, Room(c), Recipient(c))
  }

  function DmSpecs(channels: seq<Channel>): seq<Spec> {
    seq(|channels|, k requires 0 <= k < |channels| => DmSpec(channels[k]))
  }

  function ChannelSpec(c: Channel): Spec {
    Spec(PathNames.NameOf(c.name), c.id, Room(c), None)
  }

  function ChannelSpecs(channels: seq<Channel>): seq<Spec> {
    if channels == [] then []
    else
      var last := channels[|channels| - 1];
      ChannelSpecs(channels[..|channels| - 1]) + if last.kind == TEXT_CHANNEL then [ChannelSpec(last)] else []
  }

  function GuildSpec(g: Guild): Spec {
    Spec(PathNames.NameOf(g.name), g.id, Metadata(g.(channels := None)), None)
  }

  function GuildSpecs(guilds: seq<Guild>): seq<Spec> {
    seq(|guilds|, k requires 0 <= k < |guilds| => GuildSpec(guilds[k]))
  }

  lemma GuildsStep(guilds: seq<Guild>, i: nat)
    requires i < |guilds|
    ensures GuildSpecs(guilds)[..i + 1] == GuildSpecs(guilds[..i + 1])
    ensures GuildSpecs(guilds[..i + 1])[..i] == GuildSpecs(guilds[..i])
    ensures SpecIds(GuildSpecs(guilds[..i + 1])) == SpecIds(GuildSpecs(guilds[..i])) + {guilds[i].id}
  {
    SpecsStep(GuildSpecs(guilds), i);
    assert GuildSpecs(guilds)[..i] == GuildSpecs(guilds[..i]);
    assert GuildSpecs(guilds)[..i + 1] == GuildSpecs(guilds[..i + 1]);
  }

  function LastGuild(guilds: seq<Guild>, id: Str): (g: Guild)
    requires id in SpecIds(GuildSpecs(guilds))
    ensures g.id == id && g in guilds
    decreases |guilds|
  {
    var n := |guilds| - 1;
    if guilds[n].id == id then guilds[n]
    else
      GuildsStep(guilds, n);
      assert guilds[..n + 1] == guilds;
      LastGuild(guilds[..n], id)
  }

  // ------------------------------------------------------------- the tree built from nothing

  datatype CommunityEntry = CommunityEntry(name: Str, info: Guild, channels: map<Str, Entry>)

  datatype View = Panes(friends: map<Str, Entry>, dms: map<Str, Entry>, communities: map<Str, CommunityEntry>)

  function BuiltCommunity(name: Str, g: Guild): CommunityEntry {
    CommunityEntry(name, g.(channels := None), Built(ChannelSpecs(g.Channels())))
  }

  function BuiltCommunities(guilds: seq<Guild>): map<Str, CommunityEntry> {
    var specs := GuildSpecs(guilds);
    map id | id in SpecIds(specs) :: BuiltCommunity(NamesOf(specs)[id], LastGuild(guilds, id))
  }

  // A view after a refresh from a snapshot. What was there before matters for the avatar files of DMs.
  function Refreshed(shown: View, snapshot: Snapshot): View {
    Panes(Built(FriendSpecs(snapshot.relationships)), Rebuilt(shown.dms, DmSpecs(snapshot.dms)),
          BuiltCommunities(snapshot.guilds))
  }

  // And the one that is built from nothing.
  function BuiltTree(snapshot: Snapshot): View {
    Panes(Built(FriendSpecs(snapshot.relationships)), Built(DmSpecs(snapshot.dms)), BuiltCommunities(snapshot.guilds))
  }

  lemma {:induction false} FriendsEquipped(rels: seq<Relationship>)
    ensures forall k :: 0 <= k < |FriendSpecs(rels)| ==> FriendSpecs(rels)[k].avatar.Some?
  {
    if rels != [] {
      FriendsEquipped(rels[..|rels| - 1]);
    }
  }

  lemma {:induction false} ChannelsBare(channels: seq<Channel>)
    ensures forall k :: 0 <= k < |ChannelSpecs(channels)| ==> ChannelSpecs(channels)[k].avatar.None?
  {
    if channels != [] {
      ChannelsBare(channels[..|channels| - 1]);
    }
  }

  // A friend's avatar files are always there, and show the friend as listed.
  lemma FriendAvatars(rels: seq<Relationship>, id: Str)
    requires id in Built(FriendSpecs(rels))
    ensures var e := Built(FriendSpecs(rels))[id]; e.info.Friend? && e.avatar == Some(Some(e.info.relationship.user))
  {
    hide LastSpec, FirstSpec, Assigned, SpecIds, NamesOf;
    FriendsEquipped(rels);
    FriendSpecShape(rels);
  }

  lemma {:induction false} FriendSpecShape(rels: seq<Relationship>)
    ensures forall k :: 0 <= k < |FriendSpecs(rels)| ==>
              FriendSpecs(rels)[k].info.Friend? && FriendSpecs(rels)[k].avatar == Some(FriendSpecs(rels)[k].info.relationship.user)
  {
    if rels != [] {
      FriendSpecShape(rels[..|rels| - 1]);
    }
  }

  // A refresh shows what building from nothing would exactly when each DM that stays was made with a
  // recipient just if it has one now.
  lemma RefreshIsRebuild(shown: View, snapshot: Snapshot)
    ensures Refreshed(shown, snapshot) == BuiltTree(snapshot) <==> AvatarsAgree(shown.dms, DmSpecs(snapshot.dms))
  {
    hide Rebuilt, DmSpecs, FriendSpecs, BuiltCommunities, AvatarsAgree;
    AvatarsAsRebuilt(shown.dms, DmSpecs(snapshot.dms));
  }

  // Once refreshed, a view stays as it is under another refresh from the same snapshot.
  lemma RefreshedTwice(shown: View, snapshot: Snapshot)
    ensures Refreshed(Refreshed(shown, snapshot), snapshot) == Refreshed(shown, snapshot)
  {
    hide Rebuilt, DmSpecs, FriendSpecs, BuiltCommunities;
    RebuiltTwice(shown.dms, DmSpecs(snapshot.dms));
  }

  // ------------------------------------------------------------- one community

  method ListChannels(list: seq<Channel>) returns (specs: seq<Spec>)
    ensures specs == ChannelSpecs(list)
  {
    specs := [];
    for i := 0 to |list|
      invariant specs == ChannelSpecs(list[..i])
    {
      assert list[..i + 1][..i] == list[..i];
      if list[i].kind == TEXT_CHANNEL {
        var base := PathNames.PathName(list[i].name);
        specs := specs + [Spec(base, list[i].id, Room(list[i]), None)];
      }
    }
    assert list[..|list|] == list;
  }

  class Community {
    // The guild it was made for, under whose id it is cached.
    const id: Str
    var name: Str
    var version: nat
    var info: Guild
    var nodes: map<Str, Conversation>
    var channels: map<Str, Conversation>

    ghost predicate Valid()
      reads this, nodes.Values
    {
      Cached(nodes, Channels(id)) && Listing(channels, nodes) && Bare(Visible(Looks(nodes)))
    }

    ghost function View(): CommunityEntry
      reads this, nodes.Values
    {
      CommunityEntry(name, info, Visible(Looks(nodes)))
    }

    constructor (name: Str, id: Str)
      ensures Valid() && this.id == id && this.name == name && version == 0 && nodes == map[]
    {
      this.id, this.name, this.version := id, name, 0;
      info, nodes, channels := NO_GUILD, map[], map[];
    }

    // A guild's own data is kept without its channels; its text channels become directories.
    method Reconcile(name: Str, guild: Guild)
      requires Valid() && guild.id == id
      modifies this, nodes.Values
      ensures Valid() && View() == BuiltCommunity(name, guild)
      ensures version == Renamed(old(this.name), old(version), name)
      ensures Survives(old(nodes), nodes) && Filed(channels, nodes, ChannelSpecs(guild.Channels()))
    {
      hide Visible, Settled, Built, Rebuilt, Looks, Cached, Listing, Filed, Bare;
      version := Renamed(this.name, version, name);
      this.name := name;
      info := guild.(channels := None);
      var specs := ListChannels(guild.Channels());
      ReconcileIsRebuild(Looks(nodes), specs);
      ChannelsBare(guild.Channels());
      BareAgree(Visible(Looks(nodes)), specs);
      channels, nodes := ReconcileConversations(specs, nodes, Channels(id));
    }
  }

  // ------------------------------------------------------------- all communities

  ghost function Rooms(nodes: map<Str, Community>): set<Conversation>
    reads nodes.Values
  {
    set id, c | id in nodes && c in nodes[id].nodes :: nodes[id].nodes[c]
  }

  ghost predicate AllValid(nodes: map<Str, Community>)
    reads nodes.Values, Rooms(nodes)
  {
    forall id :: id in nodes ==> nodes[id].id == id && nodes[id].Valid()
  }

  ghost function Views(nodes: map<Str, Community>): map<Str, CommunityEntry>
    reads nodes.Values, Rooms(nodes)
  {
    map id | id in nodes :: nodes[id].View()
  }

  // Which channel nodes each community holds.
  type Table = map<Str, map<Str, Conversation>>

  ghost function Tables(nodes: map<Str, Community>): Table
    reads nodes.Values
  {
    map id | id in nodes :: nodes[id].nodes
  }

  // Every listing of guild g has text channel c.
  predicate Throughout(guilds: seq<Guild>, g: Str, c: Str) {
    forall k :: 0 <= k < |guilds| && guilds[k].id == g ==> c in SpecIds(ChannelSpecs(guilds[k].Channels()))
  }

  // The node of a channel that no listing leaves out is the same object.
  ghost predicate RoomsKept(before: Table, after: Table, guilds: seq<Guild>) {
    forall g, c :: g in before && c in before[g] && g in after && Throughout(guilds, g, c) ==>
      c in after[g] && after[g][c] == before[g][c]
  }

  lemma RoomsKeptStep(a: Table, b: Table, c: Table, guilds: seq<Guild>, i: nat)
    requires i < |guilds| && a.Keys <= b.Keys && b.Keys <= c.Keys
    requires RoomsKept(a, b, guilds[..i]) && RoomsKept(b, c, [guilds[i]])
    ensures RoomsKept(a, c, guilds[..i + 1])
  {
    forall g, room | g in a && room in a[g] && g in c && Throughout(guilds[..i + 1], g, room)
      ensures room in c[g] && c[g][room] == a[g][room]
    {
      assert guilds[..i + 1][i] == guilds[i];
      assert Throughout([guilds[i]], g, room);
      assert Throughout(guilds[..i], g, room) by {
        assert forall k :: 0 <= k < i ==> guilds[..i][k] == guilds[..i + 1][k];
      }
    }
  }

  ghost function CommunityNames(nodes: map<Str, Community>): map<Str, Str>
    reads nodes.Values
  {
    map id | id in nodes :: nodes[id].name
  }

  ghost predicate CommunityListing(children: map<Str, Community>, nodes: map<Str, Community>)
    reads nodes.Values
  {
    Placed(children, nodes, CommunityNames(nodes))
  }

  twostate predicate CommunitiesSurvive(new before: map<Str, Community>, new after: map<Str, Community>) {
    forall id :: id in after ==> if id in before then after[id] == before[id] else fresh(after[id])
  }

  // What a conversation was made for tells whose it is.
  lemma RoomsApart(a: Community, b: Community)
    requires a.Valid() && b.Valid() && a.id != b.id
    ensures a != b && a.nodes.Values !! b.nodes.Values
  {
    forall room | room in a.nodes.Values ensures room !in b.nodes.Values {
      assert room.home == Channels(a.id);
    }
  }

  twostate predicate Untouched(community: Community)
    reads community, community.nodes.Values
  {
    unchanged(community) && forall c :: c in community.nodes ==> unchanged(community.nodes[c])
  }

  twostate lemma StaysValid(community: Community)
    requires old(community.Valid()) && Untouched(community)
    ensures community.Valid() && community.View() == old(community.View())
  {
  }

  lemma Joined(nodes: map<Str, Community>, community: Community, views: map<Str, CommunityEntry>)
    requires community.Valid() && views.Keys == nodes.Keys
    requires forall id :: id in nodes && id != community.id ==>
               nodes[id].id == id && nodes[id].Valid() && nodes[id].View() == views[id]
    ensures AllValid(nodes[community.id := community])
    ensures Views(nodes[community.id := community]) == views[community.id := community.View()]
  {
  }

  lemma TablesOwned(nodes: map<Str, Community>)
    ensures Tables(nodes).Keys == nodes.Keys && forall id :: id in nodes ==> Tables(nodes)[id] == nodes[id].nodes
    ensures forall g, c :: g in Tables(nodes) && c in Tables(nodes)[g] ==> Tables(nodes)[g][c] in Rooms(nodes)
  {
  }

  // The tables when one community's has been worked on; rooms is what they held before.
  lemma TablesJoined(nodes: map<Str, Community>, community: Community, tables: Table, rooms: set<Conversation>, guild: Guild)
    requires tables.Keys == nodes.Keys && community.id == guild.id
    requires forall id :: id in nodes && id != guild.id ==> nodes[id].nodes == tables[id]
    requires forall g, c :: g in tables && c in tables[g] ==> tables[g][c] in rooms
    requires community.nodes.Keys == SpecIds(ChannelSpecs(guild.Channels()))
    requires guild.id in tables ==>
               forall c :: c in tables[guild.id] && c in community.nodes ==> community.nodes[c] == tables[guild.id][c]
    ensures RoomsKept(tables, Tables(nodes[guild.id := community]), [guild])
    ensures forall room :: room in Rooms(nodes[guild.id := community]) ==> room in rooms || room in community.nodes.Values
  {
    hide SpecIds, ChannelSpecs;
    var after := Tables(nodes[guild.id := community]);
    forall g, c | g in tables && c in tables[g] && g in after && Throughout([guild], g, c)
      ensures c in after[g] && after[g][c] == tables[g][c]
    {
      if g == guild.id {
        assert [guild][0].id == g;
      }
    }
  }

  // The community of a guild, made if need be and brought up to date.
  method RefreshedCommunity(guild: Guild, name: Str, nodes: map<Str, Community>) returns (community: Community)
    requires AllValid(nodes)
    modifies if guild.id in nodes then {nodes[guild.id]} + nodes[guild.id].nodes.Values else {}
    ensures community.id == guild.id && community.Valid() && community.View() == BuiltCommunity(name, guild)
    ensures if guild.id in nodes then community == nodes[guild.id] else fresh(community)
    ensures community.nodes.Keys == SpecIds(ChannelSpecs(guild.Channels()))
    ensures Survives(if guild.id in nodes then old(nodes[guild.id].nodes) else map[], community.nodes)
    ensures forall id :: id in nodes && id != guild.id ==> Untouched(nodes[id])
  {
    hide BuiltCommunity, Community.Valid, Community.View;
    if guild.id in nodes {
      community := nodes[guild.id];
      forall id | id in nodes && id != guild.id ensures nodes[id] != community && nodes[id].nodes.Values !! community.nodes.Values {
        RoomsApart(nodes[id], community);
      }
    } else {
      community := new Community(name, guild.id);
    }
    community.Reconcile(name, guild);
  }

  // The cache with the community of a guild made if need be and brought up to date; the others are left
  // alone, and so are the objects of the channels that stay.
  method ReconcileCommunity(guild: Guild, name: Str, nodes: map<Str, Community>) returns (next: map<Str, Community>)
    requires AllValid(nodes)
    modifies if guild.id in nodes then {nodes[guild.id]} + nodes[guild.id].nodes.Values else {}
    ensures AllValid(next) && next.Keys == nodes.Keys + {guild.id}
    ensures forall id :: id in nodes ==> next[id] == nodes[id]
    ensures guild.id !in nodes ==> fresh(next[guild.id])
    ensures Views(next) == old(Views(nodes))[guild.id := BuiltCommunity(name, guild)]
    ensures RoomsKept(old(Tables(nodes)), Tables(next), [guild])
    ensures forall room :: room in Rooms(next) ==> room in old(Rooms(nodes)) || fresh(room)
  {
    hide BuiltCommunity, Community.Valid, Community.View, Tables, RoomsKept, Rooms, SpecIds;
    ghost var views, tables, rooms := Views(nodes), Tables(nodes), Rooms(nodes);
    TablesOwned(nodes);
    var community := RefreshedCommunity(guild, name, nodes);
    forall id | id in nodes && id != guild.id ensures nodes[id].Valid() && nodes[id].View() == views[id] {
      StaysValid(nodes[id]);
    }
    Joined(nodes, community, views);
    TablesJoined(nodes, community, tables, rooms, guild);
    next := nodes[guild.id := community];
  }

  // What a run over the guilds makes of the communities' views.
  function Renewed(views: map<Str, CommunityEntry>, guilds: seq<Guild>, names: map<Str, Str>): map<Str, CommunityEntry>
    requires SpecIds(GuildSpecs(guilds)) <= names.Keys
    decreases |guilds|
  {
    if guilds == [] then views
    else
      var n := |guilds| - 1;
      GuildsStep(guilds, n);
      assert guilds[..n + 1] == guilds;
      Renewed(views, guilds[..n], names)[guilds[n].id := BuiltCommunity(names[guilds[n].id], guilds[n])]
  }

  lemma {:induction false} RenewedMeaning(views: map<Str, CommunityEntry>, guilds: seq<Guild>, names: map<Str, Str>)
    requires SpecIds(GuildSpecs(guilds)) <= names.Keys
    ensures Renewed(views, guilds, names).Keys == views.Keys + SpecIds(GuildSpecs(guilds))
    ensures forall id :: id in SpecIds(GuildSpecs(guilds)) ==>
              Renewed(views, guilds, names)[id] == BuiltCommunity(names[id], LastGuild(guilds, id))
    decreases |guilds|
  {
    if guilds != [] {
      var n := |guilds| - 1;
      GuildsStep(guilds, n);
      assert guilds[..n + 1] == guilds;
      RenewedMeaning(views, guilds[..n], names);
    }
  }

  lemma RenewedStart(views: map<Str, CommunityEntry>, guilds: seq<Guild>, names: map<Str, Str>, nodes: map<Str, Community>)
    ensures SpecIds(GuildSpecs(guilds[..0])) == {}
    ensures Renewed(views, guilds[..0], names) == views && Entries(GuildSpecs(guilds[..0]), names, nodes) == map[]
  {
  }

  lemma RenewedStep(views: map<Str, CommunityEntry>, guilds: seq<Guild>, names: map<Str, Str>, i: nat)
    requires i < |guilds| && SpecIds(GuildSpecs(guilds[..i])) <= names.Keys && guilds[i].id in names
    ensures SpecIds(GuildSpecs(guilds[..i + 1])) == SpecIds(GuildSpecs(guilds[..i])) + {guilds[i].id}
    ensures Renewed(views, guilds[..i + 1], names) ==
            Renewed(views, guilds[..i], names)[guilds[i].id := BuiltCommunity(names[guilds[i].id], guilds[i])]
  {
    GuildsStep(guilds, i);
    var a := guilds[..i + 1];
    assert a[..i] == guilds[..i] && a[i] == guilds[i];
  }

  // A later guild of the same name takes the entry.
  lemma FiledStep(guilds: seq<Guild>, i: nat, names: map<Str, Str>, was: map<Str, Community>, nodes: map<Str, Community>)
    requires i < |guilds| && guilds[i].id in names
    requires SpecIds(GuildSpecs(guilds[..i])) <= names.Keys && SpecIds(GuildSpecs(guilds[..i])) <= was.Keys
    requires nodes.Keys == was.Keys + {guilds[i].id} && forall id :: id in was ==> nodes[id] == was[id]
    ensures SpecIds(GuildSpecs(guilds[..i + 1])) <= names.Keys && SpecIds(GuildSpecs(guilds[..i + 1])) <= nodes.Keys
    ensures Entries(GuildSpecs(guilds[..i + 1]), names, nodes) ==
            Entries(GuildSpecs(guilds[..i]), names, was)[names[guilds[i].id] := nodes[guilds[i].id]]
  {
    GuildsStep(guilds, i);
    EntriesSame(GuildSpecs(guilds[..i]), names, was, nodes);
  }

  lemma RoomsKeptStart(tables: Table, guilds: seq<Guild>)
    ensures RoomsKept(tables, tables, guilds[..0])
  {
  }

  lemma TableKeys(nodes: map<Str, Community>)
    ensures Tables(nodes).Keys == nodes.Keys
  {
  }

  lemma RoomsIn(nodes: map<Str, Community>, id: Str)
    requires id in nodes
    ensures nodes[id].nodes.Values <= Rooms(nodes)
  {
  }

  method ReconcileCommunities(guilds: seq<Guild>, names: map<Str, Str>, cache: map<Str, Community>)
    returns (children: map<Str, Community>, nodes: map<Str, Community>)
    requires AllValid(cache) && SpecIds(GuildSpecs(guilds)) <= names.Keys
    modifies cache.Values, Rooms(cache)
    ensures AllValid(nodes) && CommunitiesSurvive(cache, nodes)
    ensures Views(nodes) == Renewed(old(Views(cache)), guilds, names)
    ensures SpecIds(GuildSpecs(guilds)) <= nodes.Keys
    ensures children == Entries(GuildSpecs(guilds), names, nodes)
    ensures cache.Keys <= nodes.Keys && RoomsKept(old(Tables(cache)), Tables(nodes), guilds)
    ensures forall room :: room in Rooms(nodes) ==> room in old(Rooms(cache)) || fresh(room)
  {
    hide SpecIds, BuiltCommunity, Entries, Renewed, AllValid, Views, Tables, RoomsKept, Rooms;
    children, nodes := map[], cache;
    ghost var views, tables, rooms := Views(cache), Tables(cache), Rooms(cache);
    TableKeys(cache);
    RenewedStart(views, guilds, names, nodes);
    RoomsKeptStart(tables, guilds);
    for i := 0 to |guilds|
      invariant SpecIds(GuildSpecs(guilds[..i])) <= names.Keys
      invariant AllValid(nodes) && CommunitiesSurvive(cache, nodes) && cache.Keys <= nodes.Keys
      invariant RoomsKept(tables, Tables(nodes), guilds[..i])
      invariant Views(nodes) == Renewed(views, guilds[..i], names)
      invariant SpecIds(GuildSpecs(guilds[..i])) <= nodes.Keys
      invariant children == Entries(GuildSpecs(guilds[..i]), names, nodes)
      invariant forall room :: room in Rooms(nodes) ==> room in rooms || fresh(room)
    {
      assert GuildSpecs(guilds)[i].id in SpecIds(GuildSpecs(guilds));
      RenewedStep(views, guilds, names, i);
      var guild := guilds[i];
      var name := names[guild.id];
      if guild.id in nodes {
        RoomsIn(nodes, guild.id);
      }
      ghost var now := Tables(nodes);
      TableKeys(nodes);
      var next := ReconcileCommunity(guild, name, nodes);
      TableKeys(next);
      RoomsKeptStep(tables, now, Tables(next), guilds, i);
      FiledStep(guilds, i, names, nodes, next);
      nodes := next;
      children := children[name := nodes[guild.id]];
    }
    assert guilds[..|guilds|] == guilds;
  }

  lemma {:induction false} RenewedIsRebuild(views: map<Str, CommunityEntry>, guilds: seq<Guild>)
    ensures SpecIds(GuildSpecs(guilds)) <= Renewed(views, guilds, NamesOf(GuildSpecs(guilds))).Keys
    ensures Left(Renewed(views, guilds, NamesOf(GuildSpecs(guilds))), SpecIds(GuildSpecs(guilds))) == BuiltCommunities(guilds)
  {
    RenewedMeaning(views, guilds, NamesOf(GuildSpecs(guilds)));
  }

  method NameGuilds(guilds: seq<Guild>) returns (names: map<Str, Str>)
    ensures names == NamesOf(GuildSpecs(guilds))
  {
    var items: seq<NamedId> := [];
    for i := 0 to |guilds|
      invariant items == Items(GuildSpecs(guilds[..i]))
    {
      var base := PathNames.PathName(guilds[i].name);
      assert Items(GuildSpecs(guilds[..i + 1])) == Items(GuildSpecs(guilds[..i])) + [NamedId(base, guilds[i].id)];
      items := items + [NamedId(base, guilds[i].id)];
    }
    assert guilds[..|guilds|] == guilds;
    names := AssignNames(items);
  }

  predicate CommunitiesFiled(children: map<Str, Community>, nodes: map<Str, Community>, guilds: seq<Guild>) {
    var specs := GuildSpecs(guilds);
    nodes.Keys == SpecIds(specs) && children == Entries(specs, NamesOf(specs), nodes)
  }

  lemma {:induction false} FiledListing(guilds: seq<Guild>, children: map<Str, Community>, kept: map<Str, Community>)
    requires CommunitiesFiled(children, kept, guilds) && Views(kept) == BuiltCommunities(guilds)
    ensures CommunityListing(children, kept)
  {
    hide Entries, Assigned, SpecIds, LastGuild, GuildSpecs, Built;
    var specs := GuildSpecs(guilds);
    EntriesMeaning(specs, NamesOf(specs), kept);
    forall id | id in kept ensures kept[id].name == NamesOf(specs)[id] {
      assert kept[id].name == Views(kept)[id].name == BuiltCommunities(guilds)[id].name;
    }
    assert CommunityNames(kept) == NamesOf(specs);
  }

  lemma RoomsKeptLeft(before: Table, after: Table, active: set<Str>, guilds: seq<Guild>)
    requires RoomsKept(before, after, guilds)
    ensures RoomsKept(before, Left(after, active), guilds)
  {
    hide Throughout;
  }

  predicate DistinctGuilds(guilds: seq<Guild>) {
    forall i, j :: 0 <= i < j < |guilds| ==> guilds[i].id != guilds[j].id
  }

  // A channel that is there before and after has the same node.
  ghost predicate SameRooms(before: Table, after: Table) {
    forall g, c :: g in before && g in after && c in before[g] && c in after[g] ==> after[g][c] == before[g][c]
  }

  lemma BuiltTables(guilds: seq<Guild>, kept: map<Str, Community>)
    requires Views(kept) == BuiltCommunities(guilds)
    ensures Tables(kept).Keys == SpecIds(GuildSpecs(guilds))
    ensures forall g :: g in Tables(kept) ==> Tables(kept)[g].Keys == SpecIds(ChannelSpecs(LastGuild(guilds, g).Channels()))
  {
    hide SpecIds, ChannelSpecs, LastGuild, Assigned, GuildSpecs, LastSpec;
    assert kept.Keys == Views(kept).Keys;
    forall g | g in kept ensures kept[g].nodes.Keys == SpecIds(ChannelSpecs(LastGuild(guilds, g).Channels())) {
      assert kept[g].nodes.Keys == Views(kept)[g].channels.Keys;
    }
  }

  // Where each guild is listed once, that is what it means that listed channels are kept.
  lemma SameRoomsOnce(before: Table, after: Table, guilds: seq<Guild>)
    requires DistinctGuilds(guilds) && RoomsKept(before, after, guilds) && after.Keys == SpecIds(GuildSpecs(guilds))
    requires forall g :: g in after ==> after[g].Keys == SpecIds(ChannelSpecs(LastGuild(guilds, g).Channels()))
    ensures SameRooms(before, after)
  {
    hide SpecIds, ChannelSpecs, GuildSpecs;
    forall g, c | g in before && g in after && c in before[g] && c in after[g] ensures after[g][c] == before[g][c] {
      var k :| 0 <= k < |guilds| && guilds[k] == LastGuild(guilds, g);
      assert forall j :: 0 <= j < |guilds| && guilds[j].id == g ==> j == k;
      assert Throughout(guilds, g, c);
    }
  }

  // The communities after a refresh: rebuilt from the guilds, stale ones dropped.
  method RefreshCommunities(guilds: seq<Guild>, cache: map<Str, Community>)
    returns (children: map<Str, Community>, kept: map<Str, Community>)
    requires AllValid(cache)
    modifies cache.Values, Rooms(cache)
    ensures AllValid(kept) && CommunitiesSurvive(cache, kept)
    ensures Views(kept) == BuiltCommunities(guilds)
    ensures CommunitiesFiled(children, kept, guilds) && CommunityListing(children, kept)
    ensures RoomsKept(old(Tables(cache)), Tables(kept), guilds)
    ensures DistinctGuilds(guilds) ==> SameRooms(old(Tables(cache)), Tables(kept))
    ensures forall room :: room in Rooms(kept) ==> room in old(Rooms(cache)) || fresh(room)
  {
    hide SpecIds, BuiltCommunity, Community.Valid, Community.View, Entries, BuiltCommunities, Assigned, Left, Views, CommunityListing, GuildSpecs, NamesOf,
         Tables, RoomsKept, SameRooms, DistinctGuilds;
    var names := NameGuilds(guilds);
    var active := ActiveGuilds(guilds);
    ghost var views, tables := Views(cache), Tables(cache);
    ghost var specs := GuildSpecs(guilds);
    var nodes;
    children, nodes := ReconcileCommunities(guilds, names, cache);
    RenewedIsRebuild(views, guilds);
    kept := Left(nodes, active);
    LeftValid(nodes, SpecIds(specs));
    LeftRooms(nodes, SpecIds(specs));
    EntriesSame(specs, names, nodes, kept);
    FiledListing(guilds, children, kept);
    RoomsKeptLeft(tables, Tables(nodes), SpecIds(specs), guilds);
    BuiltTables(guilds, kept);
    if DistinctGuilds(guilds) {
      SameRoomsOnce(tables, Tables(kept), guilds);
    }
  }

  lemma LeftValid(nodes: map<Str, Community>, active: set<Str>)
    requires AllValid(nodes) && active <= nodes.Keys
    ensures AllValid(Left(nodes, active)) && Views(Left(nodes, active)) == Left(Views(nodes), active)
    ensures Left(nodes, active).Keys == active && forall id :: id in active ==> Left(nodes, active)[id] == nodes[id]
    ensures Tables(Left(nodes, active)) == Left(Tables(nodes), active)
  {
    hide Community.Valid, Community.View;
  }

  lemma LeftRooms(nodes: map<Str, Community>, active: set<Str>)
    requires active <= nodes.Keys
    ensures Rooms(Left(nodes, active)) <= Rooms(nodes)
  {
  }

  method ActiveGuilds(guilds: seq<Guild>) returns (active: set<Str>)
    ensures active == SpecIds(GuildSpecs(guilds))
  {
    active := {};
    for i := 0 to |guilds|
      invariant active == SpecIds(GuildSpecs(guilds[..i]))
    {
      GuildsStep(guilds, i);
      active := active + {guilds[i].id};
    }
    assert guilds[..|guilds|] == guilds;
  }

  // ------------------------------------------------------------- what the closures of a node resolve to

  ghost predicate HasDirect(dms: map<Str, Channel>, userId: Str) {
    exists k :: k in dms && DirectTo(dms[k], userId)
  }

  ghost predicate DirectId(dms: map<Str, Channel>, userId: Str, id: Str) {
    exists k :: k in dms && DirectTo(dms[k], userId) && dms[k].id == id
  }

  // The channel a conversation reads from: its own, or for a friend any DM the account has with them.
  method Resolve(node: Conversation, store: Store) returns (channel: Option<Str>)
    ensures node.home != Friends ==> channel == if node.id != [] then Some(node.id) else None
    ensures node.home == Friends ==> (channel.Some? <==> HasDirect(store.dms, node.id))
    ensures node.home == Friends && channel.Some? ==> DirectId(store.dms, node.id, channel.value)
  {
    if node.home == Friends {
      var dm := store.FindDMForUser(node.id);
      channel := if dm.Some? then Some(dm.value.id) else None;
    } else {
      channel := if node.id != [] then Some(node.id) else None;
    }
  }

  // The channel a conversation sends to. A friend's DM is created only where there is none, and is
  // there for the next send. created is what the server answers, if it is asked.
  method Target(node: Conversation, store: Store, created: Option<Channel>) returns (channel: Option<Str>, asked: bool)
    modifies store
    ensures node.home != Friends ==> channel == Some(node.id)
    ensures asked <==> node.home == Friends && !HasDirect(old(store.dms), node.id)
    ensures node.home == Friends && !asked ==> channel.Some? && DirectId(old(store.dms), node.id, channel.value)
    ensures asked ==> channel == if created.Some? then Some(created.value.id) else None
    ensures store.State() ==
            if asked && created.Some? then ApplyUpdate(old(store.State()), NewDM(created.value)) else old(store.State())
    ensures asked && created.Some? && DirectTo(created.value, node.id) ==> HasDirect(store.dms, node.id)
  {
    asked := false;
    if node.home == Friends {
      var dm := store.FindDMForUser(node.id);
      if dm.Some? {
        channel := Some(dm.value.id);
      } else {
        asked := true;
        if created.Some? {
          store.UpsertDM(created.value);
          channel := Some(created.value.id);
          assert created.value.id in store.dms;
        } else {
          channel := None;
        }
      }
    } else {
      channel := Some(node.id);
    }
  }

  // ------------------------------------------------------------- the tree

  method ListFriends(rels: seq<Relationship>) returns (specs: seq<Spec>)
    ensures specs == FriendSpecs(rels)
  {
    specs := [];
    for i := 0 to |rels|
      invariant specs == FriendSpecs(rels[..i])
    {
      assert rels[..i + 1][..i] == rels[..i];
      var r := rels[i];
      if r.kind == FRIEND && r.user.id != [] {
        var base := PathNames.PathName(r.user.Tag());
        specs := specs + [Spec(base, r.user.id, Friend(r), Some(r.user))];
      }
    }
    assert rels[..|rels|] == rels;
  }

  method ListDms(channels: seq<Channel>) returns (specs: seq<Spec>)
    ensures specs == DmSpecs(channels)
  {
    specs := [];
    for i := 0 to |channels|
      invariant specs == DmSpecs(channels[..i])
    {
      var c := channels[i];
      var base, avatar := c.name, None;
      if c.kind == DM_CHANNEL && |c.recipients| > 0 {
        base, avatar := c.recipients[0].Tag(), Some(c.recipients[0]);
      }
      if base == [] {
        base := DM;
      }
      base := PathNames.PathName(base);
      specs := specs + [Spec(base, c.id, Room(c), avatar)];
      assert channels[..i + 1] == channels[..i] + [c];
    }
    assert channels[..|channels|] == channels;
  }

  twostate lemma RoomsStay(nodes: map<Str, Conversation>)
    requires forall id :: id in nodes ==> unchanged(nodes[id])
    ensures StatNames(nodes) == old(StatNames(nodes)) && Looks(nodes) == old(Looks(nodes))
  {
  }

  twostate lemma CommunitiesStay(nodes: map<Str, Community>)
    requires old(AllValid(nodes)) && forall id :: id in nodes ==> Untouched(nodes[id])
    ensures AllValid(nodes) && Views(nodes) == old(Views(nodes)) && Rooms(nodes) == old(Rooms(nodes))
    ensures CommunityNames(nodes) == old(CommunityNames(nodes)) && Tables(nodes) == old(Tables(nodes))
  {
    hide Community.Valid, Community.View;
    forall id | id in nodes ensures nodes[id].Valid() && nodes[id].View() == old(nodes[id].View()) {
      StaysValid(nodes[id]);
    }
  }

  class Tree {
    var friends: map<Str, Conversation>
    var friendNodes: map<Str, Conversation>
    var dms: map<Str, Conversation>
    var dmNodes: map<Str, Conversation>
    var communities: map<Str, Community>
    var communityNodes: map<Str, Community>

    // Every directory entry leads to a node that reports the entry's name, every node has an entry,
    // and every node still resolves to the id it is cached under.
    ghost predicate Valid()
      reads this, friendNodes.Values, dmNodes.Values, communityNodes.Values, Rooms(communityNodes)
    {
      && Cached(friendNodes, Friends) && Listing(friends, friendNodes) && Equipped(Visible(Looks(friendNodes)))
      && Cached(dmNodes, Dms) && Listing(dms, dmNodes)
      && AllValid(communityNodes) && CommunityListing(communities, communityNodes)
    }

    ghost function View(): View
      reads this, friendNodes.Values, dmNodes.Values, communityNodes.Values, Rooms(communityNodes)
    {
      Panes(Visible(Looks(friendNodes)), Visible(Looks(dmNodes)), Views(communityNodes))
    }

    ghost predicate Reflects(snapshot: Snapshot)
      reads this
    {
      && Filed(friends, friendNodes, FriendSpecs(snapshot.relationships))
      && Filed(dms, dmNodes, DmSpecs(snapshot.dms))
      && CommunitiesFiled(communities, communityNodes, snapshot.guilds)
    }

    constructor ()
      ensures Valid() && fresh(this) && friendNodes == map[] && dmNodes == map[] && communityNodes == map[]
    {
      friends, friendNodes, dms, dmNodes, communities, communityNodes := map[], map[], map[], map[], map[], map[];
    }

    // What a node was made for tells which part of the tree it is in.
    lemma Apart()
      requires Cached(friendNodes, Friends) && Cached(dmNodes, Dms) && AllValid(communityNodes)
      ensures friendNodes.Values !! dmNodes.Values
      ensures friendNodes.Values !! Rooms(communityNodes) && dmNodes.Values !! Rooms(communityNodes)
    {
      forall node | node in friendNodes.Values ensures node.home == Friends {
      }
      forall node | node in dmNodes.Values ensures node.home == Dms {
      }
      forall node | node in Rooms(communityNodes) ensures node.home.Channels? {
        var id, c :| id in communityNodes && c in communityNodes[id].nodes && communityNodes[id].nodes[c] == node;
        assert communityNodes[id].Valid();
      }
    }

    method RefreshFriends(rels: seq<Relationship>)
      requires Valid()
      modifies this`friends, this`friendNodes, friendNodes.Values
      ensures Valid() && View() == old(View()).(friends := Built(FriendSpecs(rels)))
      ensures Rooms(communityNodes) == old(Rooms(communityNodes)) && Tables(communityNodes) == old(Tables(communityNodes))
      ensures Looks(dmNodes) == old(Looks(dmNodes))
      ensures Looks(friendNodes) == Settled(old(Looks(friendNodes)), FriendSpecs(rels))
      ensures Survives(old(friendNodes), friendNodes) && Filed(friends, friendNodes, FriendSpecs(rels))
    {
      hide Visible, Settled, Built, Rebuilt, Equipped, Looks, StatNames, Placed, Filed, AllValid, CommunityNames, Views, Cached,
           Tables;
      Apart();
      var specs := ListFriends(rels);
      ReconcileIsRebuild(Looks(friendNodes), specs);
      FriendsEquipped(rels);
      EquippedAgree(Visible(Looks(friendNodes)), specs);
      friends, friendNodes := ReconcileConversations(specs, friendNodes, Friends);
      RoomsStay(dmNodes);
      CommunitiesStay(communityNodes);
      assert Cached(friendNodes, Friends) && Cached(dmNodes, Dms) && Listing(dms, dmNodes);
      assert CommunityListing(communities, communityNodes);
    }

    method RefreshDms(channels: seq<Channel>)
      requires Valid()
      modifies this`dms, this`dmNodes, dmNodes.Values
      ensures Valid() && View() == old(View()).(dms := Rebuilt(old(View()).dms, DmSpecs(channels)))
      ensures Rooms(communityNodes) == old(Rooms(communityNodes)) && Tables(communityNodes) == old(Tables(communityNodes))
      ensures Looks(friendNodes) == old(Looks(friendNodes))
      ensures Looks(dmNodes) == Settled(old(Looks(dmNodes)), DmSpecs(channels))
      ensures Survives(old(dmNodes), dmNodes) && Filed(dms, dmNodes, DmSpecs(channels))
    {
      hide Visible, Settled, Built, Rebuilt, Equipped, Looks, StatNames, Placed, Filed, AllValid, CommunityNames, Views, Cached,
           Tables;
      Apart();
      var specs := ListDms(channels);
      ReconcileIsRebuild(Looks(dmNodes), specs);
      dms, dmNodes := ReconcileConversations(specs, dmNodes, Dms);
      RoomsStay(friendNodes);
      CommunitiesStay(communityNodes);
      assert Cached(friendNodes, Friends) && Cached(dmNodes, Dms) && Listing(friends, friendNodes);
      assert CommunityListing(communities, communityNodes);
    }

    method ReplaceCommunities(children: map<Str, Community>, kept: map<Str, Community>)
      requires AllValid(kept)
      modifies this`communities, this`communityNodes
      ensures communities == children && communityNodes == kept
      ensures AllValid(kept) && Views(kept) == old(Views(kept)) && CommunityNames(kept) == old(CommunityNames(kept))
      ensures Rooms(kept) == old(Rooms(kept)) && Tables(kept) == old(Tables(kept))
    {
      communities, communityNodes := children, kept;
      CommunitiesStay(kept);
    }

    method RefreshGuilds(guilds: seq<Guild>)
      requires Valid()
      modifies this`communities, this`communityNodes, communityNodes.Values, Rooms(communityNodes)
      ensures Valid() && View() == old(View()).(communities := BuiltCommunities(guilds))
      ensures Looks(friendNodes) == old(Looks(friendNodes)) && Looks(dmNodes) == old(Looks(dmNodes))
      ensures CommunitiesSurvive(old(communityNodes), communityNodes)
      ensures RoomsKept(old(Tables(communityNodes)), Tables(communityNodes), guilds)
      ensures DistinctGuilds(guilds) ==> SameRooms(old(Tables(communityNodes)), Tables(communityNodes))
      ensures forall room :: room in Rooms(communityNodes) ==> room in old(Rooms(communityNodes)) || fresh(room)
      ensures CommunitiesFiled(communities, communityNodes, guilds)
    {
      hide Visible, Equipped, Looks, StatNames, Placed, CommunitiesFiled, BuiltCommunities, Cached, AllValid, Views, CommunityNames,
           Tables, RoomsKept, SameRooms, DistinctGuilds;
      Apart();
      var children, kept := RefreshCommunities(guilds, communityNodes);
      RoomsStay(friendNodes);
      RoomsStay(dmNodes);
      ReplaceCommunities(children, kept);
      assert Cached(friendNodes, Friends) && Cached(dmNodes, Dms) && Listing(friends, friendNodes) && Listing(dms, dmNodes);
    }

    // However the tree stood before, it now shows what a tree built from the snapshot alone would, but
    // for the avatar files of DMs, which stay as they were made; a node stays the same object for as
    // long as its id keeps coming back.
    method Refresh(snapshot: Snapshot)
      requires Valid()
      modifies this, friendNodes.Values, dmNodes.Values, communityNodes.Values, Rooms(communityNodes)
      ensures Valid() && View() == Refreshed(old(View()), snapshot) && Reflects(snapshot)
      ensures Looks(friendNodes) == Settled(old(Looks(friendNodes)), FriendSpecs(snapshot.relationships))
      ensures Looks(dmNodes) == Settled(old(Looks(dmNodes)), DmSpecs(snapshot.dms))
      ensures Survives(old(friendNodes), friendNodes) && Survives(old(dmNodes), dmNodes)
      ensures CommunitiesSurvive(old(communityNodes), communityNodes)
      ensures RoomsKept(old(Tables(communityNodes)), Tables(communityNodes), snapshot.guilds)
      ensures DistinctGuilds(snapshot.guilds) ==> SameRooms(old(Tables(communityNodes)), Tables(communityNodes))
      ensures forall room :: room in Rooms(communityNodes) ==> room in old(Rooms(communityNodes)) || fresh(room)
    {
      hide View, Valid, Rooms, Tables, RoomsKept, SameRooms, DistinctGuilds, Built, Rebuilt, BuiltCommunities, Filed,
           CommunitiesFiled, Looks, Settled;
      RefreshFriends(snapshot.relationships);
      RefreshDms(snapshot.dms);
      RefreshGuilds(snapshot.guilds);
    }
  }
}
