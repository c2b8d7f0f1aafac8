/** What a snapshot of the account makes of the tree, whatever order its maps are listed in. */
module Snapshots {
  import opened Bytes
  import opened Types
  import opened Names
  import opened Stores
  import opened Conversations
  import opened Trees
  import StoreRuns

  // The directories a key's value asks for: one, or none.
  type Parts = map<Str, seq<Spec>>

  function Flat(parts: Parts, keys: seq<Str>): seq<Spec>
    requires forall k :: k in keys ==> k in parts
  {
    if keys == [] then [] else Flat(parts, keys[..|keys| - 1]) + parts[keys[|keys| - 1]]
  }

  function FriendParts(s: Account): Parts {
    map id | id in s.relationships ::
      var r := Filled(s, s.relationships[id]); if ShownFriend(r) then [FriendSpec(r)] else []
  }

  function DmParts(s: Account): Parts {
    map id | id in s.dms :: [DmSpec(s.dms[id])]
  }

  function GuildParts(s: Account): Parts {
    map id | id in s.guilds :: [GuildSpec(s.guilds[id])]
  }

  lemma {:induction false} FriendsFlat(s: Account, list: seq<Relationship>, keys: seq<Str>)
    requires |list| == |keys| && forall k :: k in keys ==> k in s.relationships
    requires forall k :: 0 <= k < |keys| ==> list[k] == Filled(s, s.relationships[keys[k]])
    ensures FriendSpecs(list) == Flat(FriendParts(s), keys)
  {
    if list != [] {
      var n := |list| - 1;
      FriendsFlat(s, list[..n], keys[..n]);
    }
  }

  lemma {:induction false} DmsFlat(s: Account, list: seq<Channel>, keys: seq<Str>)
    requires |list| == |keys| && forall k :: k in keys ==> k in s.dms
    requires forall k :: 0 <= k < |keys| ==> list[k] == s.dms[keys[k]]
    ensures DmSpecs(list) == Flat(DmParts(s), keys)
  {
    hide DmSpec;
    if list != [] {
      var n := |list| - 1;
      DmsFlat(s, list[..n], keys[..n]);
      assert DmSpecs(list) == DmSpecs(list[..n]) + [DmSpec(list[n])];
    }
  }

  lemma {:induction false} GuildsFlat(s: Account, list: seq<Guild>, keys: seq<Str>)
    requires |list| == |keys| && forall k :: k in keys ==> k in s.guilds
    requires forall k :: 0 <= k < |keys| ==> list[k] == s.guilds[keys[k]]
    ensures GuildSpecs(list) == Flat(GuildParts(s), keys)
  {
    hide GuildSpec;
    if list != [] {
      var n := |list| - 1;
      GuildsFlat(s, list[..n], keys[..n]);
      assert GuildSpecs(list) == GuildSpecs(list[..n]) + [GuildSpec(list[n])];
    }
  }

  lemma {:induction false} FlatConcat(parts: Parts, a: seq<Str>, b: seq<Str>)
    requires forall k :: k in a + b ==> k in parts
    ensures (forall k :: k in a ==> k in parts) && (forall k :: k in b ==> k in parts)
    ensures Flat(parts, a + b) == Flat(parts, a) + Flat(parts, b)
  {
    forall k | k in a ensures k in parts {
      assert k in a + b;
    }
    forall k | k in b ensures k in parts {
      assert k in a + b;
    }
    if b == [] {
      assert a + b == a;
    } else {
      var n := |b| - 1;
      assert (a + b)[..|a + b| - 1] == a + b[..n];
      FlatConcat(parts, a, b[..n]);
    }
  }

  lemma FlatAround(parts: Parts, keys: seq<Str>, k: nat)
    requires k < |keys| && forall id :: id in keys ==> id in parts
    ensures Flat(parts, keys) == Flat(parts, keys[..k]) + parts[keys[k]] + Flat(parts, keys[k + 1..])
  {
    FlatConcat(parts, keys[..k + 1], keys[k + 1..]);
    assert keys == keys[..k + 1] + keys[k + 1..] && keys[..k + 1][..k] == keys[..k];
  }

  lemma {:induction false} FlatOrder(parts: Parts, a: seq<Str>, b: seq<Str>)
    requires multiset(a) == multiset(b)
    requires (forall k :: k in a ==> k in parts) && (forall k :: k in b ==> k in parts)
    ensures multiset(Flat(parts, a)) == multiset(Flat(parts, b))
  {
    if a == [] {
      assert |multiset(b)| == 0;
    } else {
      var n := |a| - 1;
      var k := Matched(a, b);
      FlatOrder(parts, a[..n], b[..k] + b[k + 1..]);
      FlatConcat(parts, b[..k], b[k + 1..]);
      FlatAround(parts, b, k);
    }
  }

  // ------------------------------------------------------------- listings of a map

  lemma {:induction false} Single(a: seq<Str>, x: Str)
    requires forall i, j :: 0 <= i < j < |a| ==> a[i] != a[j]
    ensures multiset(a)[x] == if x in a then 1 else 0
  {
    if a != [] {
      var n := |a| - 1;
      Single(a[..n], x);
      assert a == a[..n] + [a[n]];
    }
  }

  lemma ListsPermute(a: seq<Str>, b: seq<Str>, domain: set<Str>)
    requires Lists(a, domain) && Lists(b, domain)
    ensures multiset(a) == multiset(b)
  {
    forall x ensures multiset(a)[x] == multiset(b)[x] {
      Single(a, x);
      Single(b, x);
    }
  }

  lemma {:induction false} Listable(domain: set<Str>) returns (keys: seq<Str>)
    ensures Lists(keys, domain)
    decreases |domain|
  {
    if domain == {} {
      keys := [];
    } else {
      var x :| x in domain;
      var rest := Listable(domain - {x});
      keys := rest + [x];
    }
  }

  // ------------------------------------------------------------- any order will do

  // One directory at most per key, and no two keys ask for the same one.
  ghost predicate OnePerKey(parts: Parts) {
    && (forall k :: k in parts ==> |parts[k]| <= 1)
    && (forall i, j :: i in parts && j in parts && i != j && parts[i] != [] && parts[j] != [] ==> parts[i][0].id != parts[j][0].id)
  }

  lemma {:induction false} FromSomeKey(parts: Parts, keys: seq<Str>, spec: Spec)
    requires OnePerKey(parts) && (forall k :: k in keys ==> k in parts) && spec in Flat(parts, keys)
    ensures exists k :: k in keys && parts[k] == [spec]
  {
    var n := |keys| - 1;
    if spec in parts[keys[n]] {
      assert parts[keys[n]] == [spec];
    } else {
      FromSomeKey(parts, keys[..n], spec);
      var k :| k in keys[..n] && parts[k] == [spec];
      assert k in keys;
    }
  }

  lemma {:induction false} FlatDistinct(parts: Parts, keys: seq<Str>)
    requires OnePerKey(parts) && (forall k :: k in keys ==> k in parts)
    requires forall i, j :: 0 <= i < j < |keys| ==> keys[i] != keys[j]
    ensures DistinctSpecs(Flat(parts, keys))
  {
    if keys != [] {
      var n := |keys| - 1;
      var init := Flat(parts, keys[..n]);
      FlatDistinct(parts, keys[..n]);
      if parts[keys[n]] != [] {
        forall i | 0 <= i < |init| ensures init[i].id != parts[keys[n]][0].id {
          FromSomeKey(parts, keys[..n], init[i]);
          var k :| k in keys[..n] && parts[k] == [init[i]];
          assert k != keys[n];
        }
      }
    }
  }

  lemma FlatBuilt(shown: map<Str, Entry>, parts: Parts, a: seq<Str>, b: seq<Str>)
    requires OnePerKey(parts) && Lists(a, parts.Keys) && Lists(b, parts.Keys)
    ensures multiset(Flat(parts, a)) == multiset(Flat(parts, b))
    ensures DistinctSpecs(Flat(parts, a)) && DistinctSpecs(Flat(parts, b))
    ensures Rebuilt(shown, Flat(parts, a)) == Rebuilt(shown, Flat(parts, b))
    ensures NamesOf(Flat(parts, a)) == NamesOf(Flat(parts, b))
  {
    hide Flat, Rebuilt, NamesOf, OnePerKey, DistinctSpecs;
    ListsPermute(a, b, parts.Keys);
    FlatOrder(parts, a, b);
    FlatDistinct(parts, a);
    FlatDistinct(parts, b);
    RebuiltAnyOrder(shown, Flat(parts, a), Flat(parts, b));
  }

  // No two relationships are shown under one user.
  ghost predicate OneUserEach(s: Account) {
    OnePerKey(FriendParts(s))
  }

  ghost predicate FromMap(list: seq<Guild>, s: Account, keys: seq<Str>) {
    && |list| == |keys| && Lists(keys, s.guilds.Keys)
    && forall k :: 0 <= k < |keys| ==> list[k] == s.guilds[keys[k]]
  }

  lemma SameGuild(s: Account, guilds: seq<Guild>, keys: seq<Str>, id: Str)
    requires StoreRuns.GuildsKeyed(s.guilds) && FromMap(guilds, s, keys) && id in SpecIds(GuildSpecs(guilds))
    ensures id in s.guilds && LastGuild(guilds, id) == s.guilds[id]
  {
    var g := LastGuild(guilds, id);
    var k :| 0 <= k < |guilds| && guilds[k] == g;
    assert keys[k] in s.guilds;
  }

  lemma {:induction false} FriendsAnyOrder(s: Account, a: Order, b: Order)
    requires OneUserEach(s) && Orders(a, s) && Orders(b, s)
    ensures Built(FriendSpecs(SnapshotIn(s, a).relationships)) == Built(FriendSpecs(SnapshotIn(s, b).relationships))
  {
    hide Rebuilt, FriendSpecs, Flat, NamesOf, Filled, OnePerKey, FriendSpec;
    FriendsFlat(s, SnapshotIn(s, a).relationships, a.relationships);
    FriendsFlat(s, SnapshotIn(s, b).relationships, b.relationships);
    FlatBuilt(map[], FriendParts(s), a.relationships, b.relationships);
  }

  lemma OneDmPerKey(s: Account)
    requires StoreRuns.Keyed(s)
    ensures OnePerKey(DmParts(s))
  {
  }

  lemma {:induction false} DmsAnyOrder(shown: map<Str, Entry>, s: Account, a: Order, b: Order)
    requires StoreRuns.Keyed(s) && Orders(a, s) && Orders(b, s)
    ensures Rebuilt(shown, DmSpecs(SnapshotIn(s, a).dms)) == Rebuilt(shown, DmSpecs(SnapshotIn(s, b).dms))
  {
    hide Rebuilt, DmSpecs, Flat, NamesOf, Filled, OnePerKey, DmSpec;
    OneDmPerKey(s);
    DmsFlat(s, SnapshotIn(s, a).dms, a.dms);
    DmsFlat(s, SnapshotIn(s, b).dms, b.dms);
    FlatBuilt(shown, DmParts(s), a.dms, b.dms);
  }

  lemma {:induction false} GuildNamesAnyOrder(s: Account, x: seq<Guild>, a: seq<Str>, y: seq<Guild>, b: seq<Str>)
    requires StoreRuns.GuildsKeyed(s.guilds) && FromMap(x, s, a) && FromMap(y, s, b)
    ensures NamesOf(GuildSpecs(x)) == NamesOf(GuildSpecs(y))
  {
    hide Rebuilt, GuildSpecs, Flat, NamesOf;
    GuildsFlat(s, x, a);
    GuildsFlat(s, y, b);
    FlatBuilt(map[], GuildParts(s), a, b);
  }

  lemma {:induction false} GuildsAnyOrder(s: Account, x: seq<Guild>, a: seq<Str>, y: seq<Guild>, b: seq<Str>)
    requires StoreRuns.GuildsKeyed(s.guilds) && FromMap(x, s, a) && FromMap(y, s, b)
    ensures BuiltCommunities(x) == BuiltCommunities(y)
  {
    hide BuiltCommunity, SpecIds, Assigned, GuildSpec, NamesOf, FromMap, LastGuild;
    GuildNamesAnyOrder(s, x, a, y, b);
    assert SpecIds(GuildSpecs(x)) == SpecIds(GuildSpecs(y));
    forall id | id in SpecIds(GuildSpecs(x)) ensures LastGuild(x, id) == LastGuild(y, id) {
      SameGuild(s, x, a, id);
      SameGuild(s, y, b, id);
    }
  }

  // The order in which Go walks its maps does not show in the tree, whatever stood there before.
  lemma {:induction false} AnyOrder(shown: View, s: Account, a: Order, b: Order)
    requires StoreRuns.Keyed(s) && OneUserEach(s) && Orders(a, s) && Orders(b, s)
    ensures Refreshed(shown, SnapshotIn(s, a)) == Refreshed(shown, SnapshotIn(s, b))
    ensures BuiltTree(SnapshotIn(s, a)) == BuiltTree(SnapshotIn(s, b))
  {
    hide Rebuilt, BuiltCommunities, DmSpecs, FriendSpecs, Filled;
    FriendsAnyOrder(s, a, b);
    DmsAnyOrder(shown.dms, s, a, b);
    DmsAnyOrder(map[], s, a, b);
    GuildsAnyOrder(s, SnapshotIn(s, a).guilds, a.guilds, SnapshotIn(s, b).guilds, b.guilds);
  }

  // A snapshot of a keyed account lists each guild once.
  lemma ListedOnce(s: Account, order: Order)
    requires StoreRuns.GuildsKeyed(s.guilds) && Orders(order, s)
    ensures DistinctGuilds(SnapshotIn(s, order).guilds)
  {
    forall i, j | 0 <= i < j < |order.guilds| ensures s.guilds[order.guilds[i]].id != s.guilds[order.guilds[j]].id {
      assert order.guilds[i] in s.guilds && order.guilds[j] in s.guilds;
    }
  }
}
