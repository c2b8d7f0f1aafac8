/** What the store holds after any run of events, read off the log of those events. */
module StoreRuns {
  import opened Bytes
  import opened Wrappers
  import opened Types
  import opened Stores

  // The account after a run of updates that starts from what was loaded.
  function After(loaded: Account, log: seq<Update>): Account {
    if log == [] then loaded else ApplyUpdate(After(loaded, log[..|log| - 1]), log[|log| - 1])
  }

  predicate DistinctIds(channels: seq<Channel>) {
    forall i, j :: 0 <= i < j < |channels| ==> channels[i].id != channels[j].id
  }

  // The lists the server sends hold no channel twice.
  predicate CleanGuild(g: Guild) {
    DistinctIds(g.Channels())
  }

  predicate Clean(e: Event) {
    && (e.Ready? ==> forall k :: 0 <= k < |e.guilds| ==> CleanGuild(e.guilds[k]))
    && (e.GuildUpsert? ==> CleanGuild(e.guild))
  }

  predicate CleanLog(log: seq<Update>) {
    forall k :: 0 <= k < |log| && log[k].Gateway? ==> Clean(log[k].event)
  }

  // ------------------------------------------------------------- channel lists

  lemma UpsertedDistinct(channels: seq<Channel>, c: Channel)
    requires DistinctIds(channels)
    ensures DistinctIds(Upserted(channels, c))
  {
  }

  lemma {:induction false} WithoutMember(channels: seq<Channel>, id: Str, k: nat)
    requires k < |Without(channels, id)|
    ensures Without(channels, id)[k].id != id
    ensures exists j :: 0 <= j < |channels| && channels[j] == Without(channels, id)[k]
  {
    var n := |channels| - 1;
    var init := channels[..n];
    if k < |Without(init, id)| {
      WithoutMember(init, id, k);
      var j :| 0 <= j < |init| && init[j] == Without(init, id)[k];
      assert channels[j] == Without(channels, id)[k];
    } else {
      assert channels[n] == Without(channels, id)[k];
    }
  }

  lemma {:induction false} WithoutDistinct(channels: seq<Channel>, id: Str)
    requires DistinctIds(channels)
    ensures DistinctIds(Without(channels, id))
  {
    if channels != [] {
      var n := |channels| - 1;
      var init := Without(channels[..n], id);
      WithoutDistinct(channels[..n], id);
      forall k | 0 <= k < |init| ensures init[k].id != channels[n].id {
        WithoutMember(channels[..n], id, k);
        var j :| 0 <= j < n && channels[..n][j] == init[k];
        assert channels[j].id != channels[n].id;
      }
    }
  }

  // ------------------------------------------------------------- invariant

  ghost predicate Keyed(s: Account) {
    && (forall k :: k in s.users ==> s.users[k].id == k)
    && (forall k :: k in s.relationships ==> s.relationships[k].id == k)
    && (forall k :: k in s.dms ==> s.dms[k].id == k)
    && GuildsKeyed(s.guilds)
  }

  ghost predicate GuildsKeyed(guilds: map<Str, Guild>) {
    forall k :: k in guilds ==> guilds[k].id == k && DistinctIds(guilds[k].Channels())
  }

  lemma {:induction false} PutUsersKeyed(m: map<Str, User>, list: seq<User>)
    requires forall k :: k in m ==> m[k].id == k
    ensures forall k :: k in PutUsers(m, list) ==> PutUsers(m, list)[k].id == k
  {
    if list != [] {
      PutUsersKeyed(m, list[..|list| - 1]);
    }
  }

  lemma {:induction false} PutRelationshipsKeyed(m: map<Str, Relationship>, list: seq<Relationship>)
    requires forall k :: k in m ==> m[k].id == k
    ensures forall k :: k in PutRelationships(m, list) ==> PutRelationships(m, list)[k].id == k
  {
    if list != [] {
      PutRelationshipsKeyed(m, list[..|list| - 1]);
    }
  }

  lemma {:induction false} PutChannelsKeyed(m: map<Str, Channel>, list: seq<Channel>)
    requires forall k :: k in m ==> m[k].id == k
    ensures forall k :: k in PutChannels(m, list) ==> PutChannels(m, list)[k].id == k
  {
    if list != [] {
      PutChannelsKeyed(m, list[..|list| - 1]);
    }
  }

  lemma PutGuildKeyed(guilds: map<Str, Guild>, g: Guild)
    requires GuildsKeyed(guilds) && CleanGuild(g)
    ensures GuildsKeyed(PutGuild(guilds, g))
  {
  }

  lemma {:induction false} PutGuildsKeyed(guilds: map<Str, Guild>, list: seq<Guild>)
    requires GuildsKeyed(guilds) && forall k :: 0 <= k < |list| ==> CleanGuild(list[k])
    ensures GuildsKeyed(PutGuilds(guilds, list))
  {
    if list != [] {
      PutGuildsKeyed(guilds, list[..|list| - 1]);
      PutGuildKeyed(PutGuilds(guilds, list[..|list| - 1]), list[|list| - 1]);
    }
  }

  lemma StepKeyed(s: Account, e: Event)
    requires Keyed(s) && Clean(e)
    ensures Keyed(Apply(s, e))
  {
    match e
    case Ready(user, users, relationships, dms, guilds) =>
      PutUsersKeyed(if user.id != [] then s.users[user.id := user] else s.users, users);
      PutRelationshipsKeyed(s.relationships, relationships);
      PutChannelsKeyed(s.dms, dms);
      PutGuildsKeyed(s.guilds, guilds);
    case ChannelUpsert(c) =>
      if c.guildId != [] && c.guildId in s.guilds {
        UpsertedDistinct(s.guilds[c.guildId].Channels(), c);
      }
    case ChannelDelete(id, guildId) =>
      if guildId in s.guilds {
        WithoutDistinct(s.guilds[guildId].Channels(), id);
      }
    case GuildUpsert(g) => PutGuildKeyed(s.guilds, g);
    case _ =>
  }

  // Every map is keyed by the ids of what it holds, and no guild lists a channel twice.
  lemma {:induction false} KeyedAlways(loaded: Account, log: seq<Update>)
    requires Keyed(loaded) && CleanLog(log)
    ensures Keyed(After(loaded, log))
  {
    if log != [] {
      var u := log[|log| - 1];
      KeyedAlways(loaded, log[..|log| - 1]);
      if u.Gateway? {
        StepKeyed(After(loaded, log[..|log| - 1]), u.event);
      }
    }
  }

  // ------------------------------------------------------------- the log of one guild

  // A channel list as an ordered table: find a channel's row, overwrite it or add one.
  function Row(channels: seq<Channel>, id: Str): Option<nat> {
    if channels == [] then None
    else if channels[|channels| - 1].id == id then Some(|channels| - 1)
    else Row(channels[..|channels| - 1], id)
  }

  // What one event makes of one guild's list; None is a guild not known.
  function Mention(list: Option<seq<Channel>>, g: Guild): Option<seq<Channel>> {
    Some(if g.channels.Some? then g.channels.value else list.GetOr([]))
  }

  function Mentions(list: Option<seq<Channel>>, guilds: seq<Guild>, id: Str): Option<seq<Channel>> {
    if guilds == [] then list
    else
      var before, g := Mentions(list, guilds[..|guilds| - 1], id), guilds[|guilds| - 1];
      if g.id == id && !g.unavailable then Mention(before, g) else before
  }

  function Entry(list: Option<seq<Channel>>, e: Event, id: Str): Option<seq<Channel>> {
    match e
    case Ready(_, _, _, _, guilds) => Mentions(list, guilds, id)
    case GuildUpsert(g) => if g.id == id then Mention(list, g) else list
    case GuildDelete(gone) => if gone == id then None else list
    case ChannelUpsert(c) =>
      if list.None? || c.guildId != id || id == [] then list
      else
        (match Row(list.value, c.id)
         case Some(k) => if k < |list.value| then Some(list.value[k := c]) else list
         case None => Some(list.value + [c]))
    case ChannelDelete(gone, guildId) =>
      if list.None? || guildId != id then list
      else
        (match Row(list.value, gone)
         case Some(k) => if k < |list.value| then Some(list.value[..k] + list.value[k + 1..]) else list
         case None => list)
    case _ => list
  }

  function Folded(start: Option<seq<Channel>>, log: seq<Update>, id: Str): Option<seq<Channel>> {
    if log == [] then start
    else
      var before, u := Folded(start, log[..|log| - 1], id), log[|log| - 1];
      if u.Gateway? then Entry(before, u.event, id) else before
  }

  function Listed(s: Account, id: Str): Option<seq<Channel>> {
    if id in s.guilds then Some(s.guilds[id].Channels()) else None
  }

  lemma {:induction false} RowMeaning(channels: seq<Channel>, id: Str)
    ensures match Row(channels, id)
            case Some(k) => k < |channels| && channels[k].id == id
            case None => !HasId(channels, id)
  {
    if channels != [] && channels[|channels| - 1].id != id {
      RowMeaning(channels[..|channels| - 1], id);
      if Row(channels, id).None? {
        forall k | 0 <= k < |channels| ensures channels[k].id != id {
          assert k < |channels| - 1 ==> channels[k] == channels[..|channels| - 1][k];
        }
      }
    }
  }

  lemma {:induction false} UpsertedRow(channels: seq<Channel>, c: Channel)
    requires DistinctIds(channels)
    ensures match Row(channels, c.id)
            case Some(k) => k < |channels| && Upserted(channels, c) == channels[k := c]
            case None => Upserted(channels, c) == channels + [c]
  {
    RowMeaning(channels, c.id);
    if Row(channels, c.id).Some? {
      var k := Row(channels, c.id).value;
      assert HasId(channels, c.id);
      forall j | 0 <= j < |channels| ensures Upserted(channels, c)[j] == channels[k := c][j] {
        assert j != k ==> channels[j].id != channels[k].id;
      }
    }
  }

  lemma {:induction false} WithoutAbsent(channels: seq<Channel>, id: Str)
    requires !HasId(channels, id)
    ensures Without(channels, id) == channels
  {
    if channels != [] {
      var n := |channels| - 1;
      forall k | 0 <= k < n ensures channels[..n][k].id != id {
        assert channels[k].id != id;
      }
      assert channels == channels[..n] + [channels[n]];
      WithoutAbsent(channels[..n], id);
    }
  }

  lemma {:induction false} WithoutRow(channels: seq<Channel>, id: Str)
    requires DistinctIds(channels)
    ensures match Row(channels, id)
            case Some(k) => k < |channels| && Without(channels, id) == channels[..k] + channels[k + 1..]
            case None => Without(channels, id) == channels
  {
    RowMeaning(channels, id);
    if Row(channels, id).None? {
      WithoutAbsent(channels, id);
    } else {
      var n, k := |channels| - 1, Row(channels, id).value;
      var init := channels[..n];
      if k == n {
        WithoutAbsent(init, id);
      } else {
        WithoutRow(init, id);
        assert init[..k] + init[k + 1..] + [channels[n]] == channels[..k] + channels[k + 1..];
      }
    }
  }

  lemma {:induction false} PutGuildsListed(guilds: map<Str, Guild>, list: seq<Guild>, id: Str)
    ensures var t := PutGuilds(guilds, list);
            (if id in t then Some(t[id].Channels()) else None) ==
            Mentions(if id in guilds then Some(guilds[id].Channels()) else None, list, id)
  {
    if list != [] {
      PutGuildsListed(guilds, list[..|list| - 1], id);
    }
  }

  lemma AddListed(s: Account, c: Channel, id: Str)
    requires Keyed(s)
    ensures Listed(AddChannel(s, c), id) == Entry(Listed(s, id), ChannelUpsert(c), id)
  {
    hide Row, Upserted;
    if c.guildId in s.guilds {
      UpsertedRow(s.guilds[c.guildId].Channels(), c);
    }
  }

  lemma DropListed(s: Account, gone: Str, guildId: Str, id: Str)
    requires Keyed(s)
    ensures Listed(DropChannel(s, gone, guildId), id) == Entry(Listed(s, id), ChannelDelete(gone, guildId), id)
  {
    hide Row, Without;
    if guildId in s.guilds {
      WithoutRow(s.guilds[guildId].Channels(), gone);
    }
  }

  lemma StepListed(s: Account, e: Event, id: Str)
    requires Keyed(s)
    ensures Listed(Apply(s, e), id) == Entry(Listed(s, id), e, id)
  {
    hide AddChannel, DropChannel, PutUsers, PutRelationships, PutChannels, PutGuilds, Row, Mentions;
    match e
    case Ready(_, _, _, _, guilds) => PutGuildsListed(s.guilds, guilds, id);
    case ChannelUpsert(c) => AddListed(s, c, id);
    case ChannelDelete(gone, guildId) => DropListed(s, gone, guildId, id);
    case _ =>
  }

  // Each guild's channel list is the one its own log gives.
  lemma {:induction false} ListIsFolded(loaded: Account, log: seq<Update>, id: Str)
    requires Keyed(loaded) && CleanLog(log)
    ensures Listed(After(loaded, log), id) == Folded(Listed(loaded, id), log, id)
  {
    if log != [] {
      var init, u := log[..|log| - 1], log[|log| - 1];
      ListIsFolded(loaded, init, id);
      KeyedAlways(loaded, init);
      if u.Gateway? {
        StepListed(After(loaded, init), u.event, id);
      }
    }
  }
}
