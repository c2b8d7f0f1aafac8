/**
 * What the tree shows, said of the snapshot's own items: which have a directory, under which name and
 * with what data.
 */
module Listings {
  import opened Bytes
  import opened Wrappers
  import opened Types
  import opened Stores
  import opened Names
  import opened Conversations
  import opened Trees
  import opened Refreshes
  import PathNames

  // ------------------------------------------------------------- entries of a set of specs

  // A suffix goes behind a base that another conversation shares.
  function Styled(base: Str, id: Str, shared: bool): Str {
    if shared then base + [0x7E] + (if |id| > 6 then id[|id| - 6..] else id) else base
  }

  predicate SharesBase(specs: seq<Spec>, spec: Spec) {
    exists k :: 0 <= k < |specs| && specs[k].id != spec.id && specs[k].base == spec.base
  }

  lemma NameGiven(specs: seq<Spec>, k: nat)
    requires DistinctSpecs(specs) && k < |specs|
    ensures specs[k].id in SpecIds(specs)
    ensures NamesOf(specs)[specs[k].id] == Styled(specs[k].base, specs[k].id, SharesBase(specs, specs[k]))
  {
    hide SpecIds, Assigned, Suffixed, Stem, Styled;
    var items := Items(specs);
    LastSpecAt(specs, k);
    EntryOf(items, k, AtEnd);
    SuffixAtEnd(items[k].base, items[k].id);
    if Repeated(items, k) {
      var j :| 0 <= j < |items| && j != k && items[j].base == items[k].base;
      assert specs[j].base == specs[k].base && specs[j].id != specs[k].id;
    }
    if SharesBase(specs, specs[k]) {
      var j :| 0 <= j < |specs| && specs[j].id != specs[k].id && specs[j].base == specs[k].base;
      assert items[j].base == items[k].base;
    }
  }

  lemma EntryShown(shown: map<Str, Entry>, specs: seq<Spec>, k: nat)
    requires DistinctSpecs(specs) && k < |specs|
    ensures specs[k].id in Rebuilt(shown, specs)
    ensures Rebuilt(shown, specs)[specs[k].id].info == specs[k].info
    ensures Rebuilt(shown, specs)[specs[k].id].avatar in {None, Some(specs[k].avatar)}
    ensures Rebuilt(shown, specs)[specs[k].id].name == Styled(specs[k].base, specs[k].id, SharesBase(specs, specs[k]))
  {
    hide LastSpec, FirstSpec, SpecIds, HasAvatar, NamesOf, Styled;
    LastSpecAt(specs, k);
    NameGiven(specs, k);
  }

  lemma SuffixAtEnd(base: Str, id: Str)
    ensures Suffixed(base, id, AtEnd) == Styled(base, id, true) && base == Styled(base, id, false)
  {
  }

  // ------------------------------------------------------------- friends

  // A user's tag: the name, with the discriminator if there is one.
  function Tagged(u: User): Str {
    if u.discriminator == [] then u.username else u.username + [0x23] + u.discriminator
  }

  predicate IsFriend(r: Relationship) {
    r.kind == 1 && r.user.id != []
  }

  function FriendAs(r: Relationship): Spec {
    Spec(PathNames.NameOf(Tagged(r.user)), r.user.id, Friend(r), Some(r.user))
  }

  lemma FriendSpecsLast(rels: seq<Relationship>)
    ensures FriendSpecs(rels) ==
            if rels == [] then []
            else
              var last := rels[|rels| - 1];
              FriendSpecs(rels[..|rels| - 1]) + if IsFriend(last) then [FriendAs(last)] else []
  {
  }

  lemma {:induction false} FriendSpecsMeaning(rels: seq<Relationship>)
    ensures forall k :: 0 <= k < |rels| && IsFriend(rels[k]) ==> FriendAs(rels[k]) in FriendSpecs(rels)
    ensures forall spec :: spec in FriendSpecs(rels) ==> exists k :: 0 <= k < |rels| && IsFriend(rels[k]) && spec == FriendAs(rels[k])
  {
    hide FriendAs, IsFriend, FriendSpecs;
    FriendSpecsLast(rels);
    if rels != [] {
      var n := |rels| - 1;
      FriendSpecsMeaning(rels[..n]);
      forall k | 0 <= k < |rels| && IsFriend(rels[k]) ensures FriendAs(rels[k]) in FriendSpecs(rels) {
        if k < n {
          assert rels[..n][k] == rels[k];
        }
      }
      forall spec | spec in FriendSpecs(rels) ensures exists k :: 0 <= k < |rels| && IsFriend(rels[k]) && spec == FriendAs(rels[k]) {
        if spec in FriendSpecs(rels[..n]) {
          var k :| 0 <= k < n && IsFriend(rels[..n][k]) && spec == FriendAs(rels[..n][k]);
          assert spec == FriendAs(rels[k]);
        } else {
          assert spec == FriendAs(rels[n]);
        }
      }
    }
  }

  // The friends shown are the users of the relationships that are friends and have a user.
  lemma FriendsShown(shown: View, v: Snapshot, id: Str)
    ensures id in Refreshed(shown, v).friends <==>
            exists k :: 0 <= k < |v.relationships| && IsFriend(v.relationships[k]) && v.relationships[k].user.id == id
  {
    hide LastSpec, FirstSpec, SpecIds, NamesOf, BuiltCommunities;
    var rels := v.relationships;
    var specs := FriendSpecs(rels);
    FriendSpecsMeaning(rels);
    SpecIdsMeaning(specs, id);
    if k :| 0 <= k < |specs| && specs[k].id == id {
      assert specs[k] in specs;
    }
    if k :| 0 <= k < |rels| && IsFriend(rels[k]) && rels[k].user.id == id {
      var j :| 0 <= j < |specs| && specs[j] == FriendAs(rels[k]);
      assert specs[j].id == id;
    }
  }

  predicate OneEach(rels: seq<Relationship>) {
    forall i, j :: 0 <= i < j < |rels| && IsFriend(rels[i]) && IsFriend(rels[j]) ==> rels[i].user.id != rels[j].user.id
  }

  lemma {:induction false} FriendsDistinct(rels: seq<Relationship>)
    requires OneEach(rels)
    ensures DistinctSpecs(FriendSpecs(rels))
  {
    if rels != [] {
      var n := |rels| - 1;
      FriendsDistinct(rels[..n]);
      FriendSpecsMeaning(rels[..n]);
      var init := FriendSpecs(rels[..n]);
      if IsFriend(rels[n]) {
        forall i | 0 <= i < |init| ensures init[i].id != rels[n].user.id {
          assert init[i] in init;
          var k :| 0 <= k < n && IsFriend(rels[..n][k]) && init[i] == FriendAs(rels[..n][k]);
          assert rels[k].user.id != rels[n].user.id;
        }
      }
    }
  }

  // Another friend's tag is spelled the same once escaped.
  predicate TagShared(rels: seq<Relationship>, r: Relationship) {
    exists k :: 0 <= k < |rels| && IsFriend(rels[k]) && rels[k].user.id != r.user.id
                && PathNames.NameOf(Tagged(rels[k].user)) == PathNames.NameOf(Tagged(r.user))
  }

  // Each friend is shown as listed, under the escaped tag.
  lemma FriendShown(shown: View, v: Snapshot, k: nat)
    requires OneEach(v.relationships) && k < |v.relationships| && IsFriend(v.relationships[k])
    ensures var r := v.relationships[k];
            && r.user.id in Refreshed(shown, v).friends
            && Refreshed(shown, v).friends[r.user.id].info == Friend(r)
            && Refreshed(shown, v).friends[r.user.id].avatar == Some(Some(r.user))
            && Refreshed(shown, v).friends[r.user.id].name ==
               Styled(PathNames.NameOf(Tagged(r.user)), r.user.id, TagShared(v.relationships, r))
  {
    hide Rebuilt, FriendSpecs, BuiltCommunities, DmSpecs, PathNames.NameOf, Tagged;
    var rels := v.relationships;
    var r := rels[k];
    var specs := FriendSpecs(rels);
    FriendsDistinct(rels);
    FriendSpecsMeaning(rels);
    var j :| 0 <= j < |specs| && specs[j] == FriendAs(r);
    EntryShown(map[], specs, j);
    FriendAvatars(rels, r.user.id);
    if SharesBase(specs, specs[j]) {
      var i :| 0 <= i < |specs| && specs[i].id != specs[j].id && specs[i].base == specs[j].base;
      assert specs[i] in specs;
      var m :| 0 <= m < |rels| && IsFriend(rels[m]) && specs[i] == FriendAs(rels[m]);
      assert TagShared(rels, r);
    }
    if TagShared(rels, r) {
      var m :| 0 <= m < |rels| && IsFriend(rels[m]) && rels[m].user.id != r.user.id
               && PathNames.NameOf(Tagged(rels[m].user)) == PathNames.NameOf(Tagged(r.user));
      var i :| 0 <= i < |specs| && specs[i] == FriendAs(rels[m]);
      assert specs[i].id != specs[j].id && specs[i].base == specs[j].base;
    }
  }

  // ------------------------------------------------------------- dms

  // A direct DM goes by its first recipient, any other by its own name, and one without by "dm".
  function DmTitle(c: Channel): Str {
    var title := if c.kind == 1 && c.recipients != [] then Tagged(c.recipients[0]) else c.name;
    if title == [] then [0x64, 0x6D] else title
  }

  predicate OneChannelEach(channels: seq<Channel>) {
    forall i, j :: 0 <= i < j < |channels| ==> channels[i].id != channels[j].id
  }

  predicate DmTitleShared(channels: seq<Channel>, c: Channel) {
    exists k :: 0 <= k < |channels| && channels[k].id != c.id
                && PathNames.NameOf(DmTitle(channels[k])) == PathNames.NameOf(DmTitle(c))
  }

  // The DMs shown are the ones listed.
  lemma DmsShown(shown: View, v: Snapshot, id: Str)
    ensures id in Refreshed(shown, v).dms <==> exists k :: 0 <= k < |v.dms| && v.dms[k].id == id
  {
    hide LastSpec, FirstSpec, SpecIds, NamesOf, BuiltCommunities, FriendSpecs;
    var specs := DmSpecs(v.dms);
    SpecIdsMeaning(specs, id);
    if k :| 0 <= k < |v.dms| && v.dms[k].id == id {
      assert specs[k].id == id;
    }
  }

  lemma DmSpecAt(channels: seq<Channel>, k: nat)
    requires k < |channels|
    ensures DmSpecs(channels)[k].id == channels[k].id && DmSpecs(channels)[k].info == Room(channels[k])
    ensures DmSpecs(channels)[k].base == PathNames.NameOf(DmTitle(channels[k]))
    ensures DmSpecs(channels)[k].avatar ==
            if channels[k].kind == 1 && channels[k].recipients != [] then Some(channels[k].recipients[0]) else None
  {
    hide PathNames.NameOf;
  }

  // Each DM is shown as listed, under the escaped title.
  lemma DmShown(shown: View, v: Snapshot, k: nat)
    requires OneChannelEach(v.dms) && k < |v.dms|
    ensures var c := v.dms[k];
            && c.id in Refreshed(shown, v).dms
            && Refreshed(shown, v).dms[c.id].info == Room(c)
            && Refreshed(shown, v).dms[c.id].avatar in
               {None, Some(if c.kind == 1 && c.recipients != [] then Some(c.recipients[0]) else None)}
            && Refreshed(shown, v).dms[c.id].name == Styled(PathNames.NameOf(DmTitle(c)), c.id, DmTitleShared(v.dms, c))
  {
    hide Rebuilt, FriendSpecs, BuiltCommunities, DmSpec, PathNames.NameOf, DmTitle;
    var list := v.dms;
    var specs := DmSpecs(list);
    forall i | 0 <= i < |list|
      ensures specs[i].id == list[i].id && specs[i].info == Room(list[i]) && specs[i].base == PathNames.NameOf(DmTitle(list[i]))
    {
      DmSpecAt(list, i);
    }
    DmSpecAt(list, k);
    EntryShown(shown.dms, specs, k);
    if SharesBase(specs, specs[k]) {
      var i :| 0 <= i < |specs| && specs[i].id != specs[k].id && specs[i].base == specs[k].base;
      assert list[i].id != list[k].id;
    }
    if DmTitleShared(list, list[k]) {
      var i :| 0 <= i < |list| && list[i].id != list[k].id
               && PathNames.NameOf(DmTitle(list[i])) == PathNames.NameOf(DmTitle(list[k]));
      assert specs[i].id != specs[k].id;
    }
  }

  // ------------------------------------------------------------- communities

  // The communities shown are the guilds listed.
  lemma CommunitiesShown(shown: View, v: Snapshot, id: Str)
    ensures id in Refreshed(shown, v).communities <==> exists k :: 0 <= k < |v.guilds| && v.guilds[k].id == id
  {
    hide LastGuild, SpecIds, NamesOf, BuiltCommunity, FriendSpecs, DmSpecs, Rebuilt;
    var specs := GuildSpecs(v.guilds);
    SpecIdsMeaning(specs, id);
    if k :| 0 <= k < |v.guilds| && v.guilds[k].id == id {
      assert specs[k].id == id;
    }
  }

  predicate LastListed(guilds: seq<Guild>, k: nat) {
    k < |guilds| && forall j :: k < j < |guilds| ==> guilds[j].id != guilds[k].id
  }

  lemma {:induction false} LastGuildAt(guilds: seq<Guild>, k: nat)
    requires LastListed(guilds, k)
    ensures guilds[k].id in SpecIds(GuildSpecs(guilds)) && LastGuild(guilds, guilds[k].id) == guilds[k]
    decreases |guilds|
  {
    hide SpecIds, GuildSpecs;
    var n := |guilds| - 1;
    GuildsStep(guilds, n);
    assert guilds[..n + 1] == guilds;
    if k < n {
      assert guilds[..n][k] == guilds[k];
      LastGuildAt(guilds[..n], k);
    }
  }

  predicate IsText(c: Channel) {
    c.kind == 0
  }

  function ChannelAs(c: Channel): Spec {
    Spec(PathNames.NameOf(c.name), c.id, Room(c), None)
  }

  lemma ChannelSpecsLast(channels: seq<Channel>)
    ensures ChannelSpecs(channels) ==
            if channels == [] then []
            else
              var last := channels[|channels| - 1];
              ChannelSpecs(channels[..|channels| - 1]) + if IsText(last) then [ChannelAs(last)] else []
  {
  }

  lemma {:induction false} ChannelSpecsMeaning(channels: seq<Channel>)
    ensures forall k :: 0 <= k < |channels| && IsText(channels[k]) ==> ChannelAs(channels[k]) in ChannelSpecs(channels)
    ensures forall spec :: spec in ChannelSpecs(channels) ==>
              exists k :: 0 <= k < |channels| && IsText(channels[k]) && spec == ChannelAs(channels[k])
  {
    hide ChannelAs, IsText, ChannelSpecs;
    ChannelSpecsLast(channels);
    if channels != [] {
      var n := |channels| - 1;
      ChannelSpecsMeaning(channels[..n]);
      forall k | 0 <= k < |channels| && IsText(channels[k]) ensures ChannelAs(channels[k]) in ChannelSpecs(channels) {
        if k < n {
          assert channels[..n][k] == channels[k];
        }
      }
      forall spec | spec in ChannelSpecs(channels)
        ensures exists k :: 0 <= k < |channels| && IsText(channels[k]) && spec == ChannelAs(channels[k])
      {
        if spec in ChannelSpecs(channels[..n]) {
          var k :| 0 <= k < n && IsText(channels[..n][k]) && spec == ChannelAs(channels[..n][k]);
          assert spec == ChannelAs(channels[k]);
        } else {
          assert spec == ChannelAs(channels[n]);
        }
      }
    }
  }

  // A community shows the guild without its channel list, and of the channels the text channels.
  lemma ChannelsShown(shown: View, v: Snapshot, k: nat, id: Str)
    requires LastListed(v.guilds, k)
    ensures v.guilds[k].id in Refreshed(shown, v).communities
    ensures var e := Refreshed(shown, v).communities[v.guilds[k].id];
            && e.info == v.guilds[k].(channels := None)
            && (id in e.channels <==>
                exists i :: 0 <= i < |v.guilds[k].Channels()| && IsText(v.guilds[k].Channels()[i]) && v.guilds[k].Channels()[i].id == id)
  {
    hide LastGuild, LastSpec, FirstSpec, SpecIds, NamesOf, FriendSpecs, DmSpecs;
    LastGuildAt(v.guilds, k);
    var list := v.guilds[k].Channels();
    var specs := ChannelSpecs(list);
    ChannelSpecsMeaning(list);
    SpecIdsMeaning(specs, id);
    if j :| 0 <= j < |specs| && specs[j].id == id {
      assert specs[j] in specs;
    }
    if i :| 0 <= i < |list| && IsText(list[i]) && list[i].id == id {
      var j :| 0 <= j < |specs| && specs[j] == ChannelAs(list[i]);
      assert specs[j].id == id;
    }
  }

  predicate GuildNameShared(guilds: seq<Guild>, g: Guild) {
    exists k :: 0 <= k < |guilds| && guilds[k].id != g.id && PathNames.NameOf(guilds[k].name) == PathNames.NameOf(g.name)
  }

  // With a listing each, a community goes by the guild's escaped name.
  lemma CommunityShown(shown: View, v: Snapshot, k: nat)
    requires DistinctGuilds(v.guilds) && k < |v.guilds|
    ensures var g := v.guilds[k];
            && g.id in Refreshed(shown, v).communities
            && Refreshed(shown, v).communities[g.id].name ==
               Styled(PathNames.NameOf(g.name), g.id, GuildNameShared(v.guilds, g))
  {
    hide Built, Rebuilt, LastGuild, SpecIds, NamesOf, FriendSpecs, DmSpecs, PathNames.NameOf, Styled;
    var specs := GuildSpecs(v.guilds);
    assert LastListed(v.guilds, k);
    LastGuildAt(v.guilds, k);
    NameGiven(specs, k);
    if SharesBase(specs, specs[k]) {
      var i :| 0 <= i < |specs| && specs[i].id != specs[k].id && specs[i].base == specs[k].base;
      assert v.guilds[i].id != v.guilds[k].id;
    }
    if GuildNameShared(v.guilds, v.guilds[k]) {
      var i :| 0 <= i < |v.guilds| && v.guilds[i].id != v.guilds[k].id
               && PathNames.NameOf(v.guilds[i].name) == PathNames.NameOf(v.guilds[k].name);
      assert specs[i].id != specs[k].id;
    }
  }

  predicate OneTextEach(channels: seq<Channel>) {
    forall i, j :: 0 <= i < j < |channels| && IsText(channels[i]) && IsText(channels[j]) ==> channels[i].id != channels[j].id
  }

  lemma {:induction false} ChannelsDistinct(channels: seq<Channel>)
    requires OneTextEach(channels)
    ensures DistinctSpecs(ChannelSpecs(channels))
  {
    if channels != [] {
      var n := |channels| - 1;
      ChannelsDistinct(channels[..n]);
      ChannelSpecsMeaning(channels[..n]);
      var init := ChannelSpecs(channels[..n]);
      if IsText(channels[n]) {
        forall i | 0 <= i < |init| ensures init[i].id != channels[n].id {
          assert init[i] in init;
          var k :| 0 <= k < n && IsText(channels[..n][k]) && init[i] == ChannelAs(channels[..n][k]);
          assert channels[k].id != channels[n].id;
        }
      }
    }
  }

  predicate ChannelNameShared(channels: seq<Channel>, c: Channel) {
    exists k :: 0 <= k < |channels| && IsText(channels[k]) && channels[k].id != c.id
                && PathNames.NameOf(channels[k].name) == PathNames.NameOf(c.name)
  }

  // Each text channel is shown as listed, under its escaped name.
  lemma ChannelShown(shown: View, v: Snapshot, k: nat, i: nat)
    requires LastListed(v.guilds, k) && OneTextEach(v.guilds[k].Channels())
    requires i < |v.guilds[k].Channels()| && IsText(v.guilds[k].Channels()[i])
    ensures v.guilds[k].id in Refreshed(shown, v).communities
    ensures var e, c := Refreshed(shown, v).communities[v.guilds[k].id], v.guilds[k].Channels()[i];
            && c.id in e.channels && e.channels[c.id].info == Room(c) && e.channels[c.id].avatar == None
            && e.channels[c.id].name == Styled(PathNames.NameOf(c.name), c.id, ChannelNameShared(v.guilds[k].Channels(), c))
  {
    hide LastGuild, Rebuilt, ChannelSpecs, SpecIds, NamesOf, FriendSpecs, DmSpecs, PathNames.NameOf;
    LastGuildAt(v.guilds, k);
    var list := v.guilds[k].Channels();
    var c, specs := list[i], ChannelSpecs(list);
    ChannelsDistinct(list);
    ChannelSpecsMeaning(list);
    var j :| 0 <= j < |specs| && specs[j] == ChannelAs(c);
    EntryShown(map[], specs, j);
    ChannelsBare(list);
    BareAgree(map[], specs);
    if SharesBase(specs, specs[j]) {
      var m :| 0 <= m < |specs| && specs[m].id != specs[j].id && specs[m].base == specs[j].base;
      assert specs[m] in specs;
      var n :| 0 <= n < |list| && IsText(list[n]) && specs[m] == ChannelAs(list[n]);
      assert ChannelNameShared(list, c);
    }
    if ChannelNameShared(list, c) {
      var n :| 0 <= n < |list| && IsText(list[n]) && list[n].id != c.id && PathNames.NameOf(list[n].name) == PathNames.NameOf(c.name);
      var m :| 0 <= m < |specs| && specs[m] == ChannelAs(list[n]);
      assert specs[m].id != specs[j].id && specs[m].base == specs[j].base;
    }
  }

  // ------------------------------------------------------------- the account at rest

  // The friend is the relationship's own user, or else the user known under the relationship's id.
  function FriendId(s: Account, r: Relationship): Str {
    if r.user.id != [] then r.user.id else if r.id in s.users then s.users[r.id].id else []
  }

  // With nothing left to do the tree lists exactly the friends, DMs and guilds of the account.
  lemma AccountShown(view: View, s: Account, id: Str)
    requires Matches(view, s)
    ensures id in view.friends <==>
            id != [] && exists key :: key in s.relationships && s.relationships[key].kind == 1 && FriendId(s, s.relationships[key]) == id
    ensures id in view.dms <==> exists key :: key in s.dms && s.dms[key].id == id
    ensures id in view.communities <==> exists key :: key in s.guilds && s.guilds[key].id == id
  {
    hide Refreshed, SnapshotOf, Filled, IsFriend, FriendId;
    var v :| SnapshotOf(v, s) && view == Refreshed(view, v);
    FriendsShown(view, v, id);
    DmsShown(view, v, id);
    CommunitiesShown(view, v, id);
    FriendListed(v, s, id);
    DmListed(v, s, id);
    GuildListed(v, s, id);
  }

  lemma FilledMeaning(s: Account, r: Relationship, id: Str)
    ensures IsFriend(Filled(s, r)) && Filled(s, r).user.id == id <==> r.kind == 1 && id != [] && FriendId(s, r) == id
  {
  }

  lemma FriendListed(v: Snapshot, s: Account, id: Str)
    requires SnapshotOf(v, s)
    ensures (exists k :: 0 <= k < |v.relationships| && IsFriend(v.relationships[k]) && v.relationships[k].user.id == id) <==>
            id != [] && exists key :: key in s.relationships && s.relationships[key].kind == 1 && FriendId(s, s.relationships[key]) == id
  {
    hide Filled, IsFriend, FriendId;
    var order :| Orders(order, s) && v == SnapshotIn(s, order);
    if k :| 0 <= k < |v.relationships| && IsFriend(v.relationships[k]) && v.relationships[k].user.id == id {
      var key := order.relationships[k];
      assert key in order.relationships;
      FilledMeaning(s, s.relationships[key], id);
    }
    if key :| key in s.relationships && s.relationships[key].kind == 1 && FriendId(s, s.relationships[key]) == id && id != [] {
      var k :| 0 <= k < |order.relationships| && order.relationships[k] == key;
      FilledMeaning(s, s.relationships[key], id);
      assert v.relationships[k] == Filled(s, s.relationships[key]);
    }
  }

  lemma DmListed(v: Snapshot, s: Account, id: Str)
    requires SnapshotOf(v, s)
    ensures (exists k :: 0 <= k < |v.dms| && v.dms[k].id == id) <==> exists key :: key in s.dms && s.dms[key].id == id
  {
    var order :| Orders(order, s) && v == SnapshotIn(s, order);
    if k :| 0 <= k < |v.dms| && v.dms[k].id == id {
      assert order.dms[k] in order.dms;
    }
    if key :| key in s.dms && s.dms[key].id == id {
      var k :| 0 <= k < |order.dms| && order.dms[k] == key;
      assert v.dms[k] == s.dms[key];
    }
  }

  lemma GuildListed(v: Snapshot, s: Account, id: Str)
    requires SnapshotOf(v, s)
    ensures (exists k :: 0 <= k < |v.guilds| && v.guilds[k].id == id) <==> exists key :: key in s.guilds && s.guilds[key].id == id
  {
    var order :| Orders(order, s) && v == SnapshotIn(s, order);
    if k :| 0 <= k < |v.guilds| && v.guilds[k].id == id {
      assert order.guilds[k] in order.guilds;
    }
    if key :| key in s.guilds && s.guilds[key].id == id {
      var k :| 0 <= k < |order.guilds| && order.guilds[k] == key;
      assert v.guilds[k] == s.guilds[key];
    }
  }
}
