/** One refresh after another: the nodes a client holds on to stay good for as long as their ids do. */
module TreeRuns {
  import opened Bytes
  import opened Wrappers
  import opened Types
  import opened Stores
  import opened Conversations
  import opened Trees

  function FriendIds(snapshots: seq<Snapshot>): seq<set<Str>> {
    seq(|snapshots|, k requires 0 <= k < |snapshots| => SpecIds(FriendSpecs(snapshots[k].relationships)))
  }

  function DmIds(snapshots: seq<Snapshot>): seq<set<Str>> {
    seq(|snapshots|, k requires 0 <= k < |snapshots| => SpecIds(DmSpecs(snapshots[k].dms)))
  }

  function GuildIds(snapshots: seq<Snapshot>): seq<set<Str>> {
    seq(|snapshots|, k requires 0 <= k < |snapshots| => SpecIds(GuildSpecs(snapshots[k].guilds)))
  }

  predicate Always(sets: seq<set<Str>>, id: Str) {
    forall k :: 0 <= k < |sets| ==> id in sets[k]
  }

  // An id that every snapshot has still has the object it had before the first.
  ghost predicate Lasting<T>(before: map<Str, T>, after: map<Str, T>, sets: seq<set<Str>>) {
    forall id :: id in before && Always(sets, id) ==> id in after && after[id] == before[id]
  }

  ghost predicate Sticks<T>(before: map<Str, T>, after: map<Str, T>) {
    forall id :: id in before && id in after ==> after[id] == before[id]
  }

  lemma LastingStep<T>(a: map<Str, T>, b: map<Str, T>, c: map<Str, T>, sets: seq<set<Str>>, i: nat)
    requires i < |sets| && Lasting(a, b, sets[..i]) && c.Keys == sets[i] && Sticks(b, c)
    ensures Lasting(a, c, sets[..i + 1])
  {
    forall id | id in a && Always(sets[..i + 1], id) ensures id in c && c[id] == a[id] {
      assert sets[..i + 1][i] == sets[i];
      assert Always(sets[..i], id) by {
        assert forall k :: 0 <= k < i ==> sets[..i][k] == sets[..i + 1][k];
      }
    }
  }

  // Every snapshot has the guild, and no listing of it leaves the text channel out.
  predicate ChannelAlways(snapshots: seq<Snapshot>, g: Str, c: Str) {
    forall k :: 0 <= k < |snapshots| ==>
      g in SpecIds(GuildSpecs(snapshots[k].guilds)) && Throughout(snapshots[k].guilds, g, c)
  }

  ghost predicate RoomsLasting(before: Table, after: Table, snapshots: seq<Snapshot>) {
    forall g, c :: g in before && c in before[g] && ChannelAlways(snapshots, g, c) ==>
      g in after && c in after[g] && after[g][c] == before[g][c]
  }

  lemma RoomsLastingStep(a: Table, b: Table, c: Table, snapshots: seq<Snapshot>, i: nat)
    requires i < |snapshots| && RoomsLasting(a, b, snapshots[..i])
    requires RoomsKept(b, c, snapshots[i].guilds) && c.Keys == SpecIds(GuildSpecs(snapshots[i].guilds))
    ensures RoomsLasting(a, c, snapshots[..i + 1])
  {
    hide SpecIds, GuildSpecs, Throughout;
    forall g, room | g in a && room in a[g] && ChannelAlways(snapshots[..i + 1], g, room)
      ensures g in c && room in c[g] && c[g][room] == a[g][room]
    {
      assert snapshots[..i + 1][i] == snapshots[i];
      assert ChannelAlways(snapshots[..i], g, room) by {
        assert forall k :: 0 <= k < i ==> snapshots[..i][k] == snapshots[..i + 1][k];
      }
    }
  }

  // ------------------------------------------------------------- avatar files over a run

  // What the DMs show after refreshes from one snapshot after another.
  function DmsAfter(shown: map<Str, Entry>, snapshots: seq<Snapshot>): map<Str, Entry> {
    if snapshots == [] then shown
    else Rebuilt(DmsAfter(shown, snapshots[..|snapshots| - 1]), DmSpecs(snapshots[|snapshots| - 1].dms))
  }

  // The snapshot has the DM, and with a recipient.
  predicate Directed(v: Snapshot, id: Str) {
    id in SpecIds(DmSpecs(v.dms)) && FirstSpec(DmSpecs(v.dms), id).avatar.Some?
  }

  // Where DMs have an id each, that is what the DM itself says.
  lemma DirectedDm(v: Snapshot, k: nat)
    requires k < |v.dms| && forall i, j :: 0 <= i < j < |v.dms| ==> v.dms[i].id != v.dms[j].id
    ensures Directed(v, v.dms[k].id) <==> Recipient(v.dms[k]).Some?
  {
    hide FirstSpec, SpecIds;
    assert DistinctSpecs(DmSpecs(v.dms));
    FirstSpecAt(DmSpecs(v.dms), k);
    assert DmSpecs(v.dms)[k] == DmSpec(v.dms[k]);
  }

  // The DM came with the k-th snapshot and has been there since.
  predicate CameWith(snapshots: seq<Snapshot>, k: nat, id: Str) {
    && k < |snapshots|
    && (forall j :: k <= j < |snapshots| ==> id in SpecIds(DmSpecs(snapshots[j].dms)))
    && (k > 0 ==> id !in SpecIds(DmSpecs(snapshots[k - 1].dms)))
  }

  lemma {:induction false} Came(snapshots: seq<Snapshot>, id: Str) returns (k: nat)
    requires snapshots != [] && id in SpecIds(DmSpecs(snapshots[|snapshots| - 1].dms))
    ensures CameWith(snapshots, k, id)
  {
    hide SpecIds, DmSpecs;
    var n := |snapshots| - 1;
    if n > 0 && id in SpecIds(DmSpecs(snapshots[n - 1].dms)) {
      k := Came(snapshots[..n], id);
    } else {
      k := n;
    }
  }

  lemma DmsAfterKeys(shown: map<Str, Entry>, snapshots: seq<Snapshot>)
    requires snapshots != []
    ensures DmsAfter(shown, snapshots).Keys == SpecIds(DmSpecs(snapshots[|snapshots| - 1].dms))
  {
    hide SpecIds, DmSpecs;
  }

  // Starting with none, a DM has avatar files exactly when it came with a recipient.
  lemma {:induction false} MadeWith(snapshots: seq<Snapshot>, k: nat, id: Str)
    requires CameWith(snapshots, k, id)
    ensures id in DmsAfter(map[], snapshots)
    ensures DmsAfter(map[], snapshots)[id].avatar.Some? <==> Directed(snapshots[k], id)
  {
    hide SpecIds, DmSpecs, FirstSpec, LastSpec, NamesOf;
    var n := |snapshots| - 1;
    var init := snapshots[..n];
    if k < n {
      assert CameWith(init, k, id);
      MadeWith(init, k, id);
    } else if n > 0 {
      assert init[n - 1] == snapshots[n - 1];
      DmsAfterKeys(map[], init);
    }
  }

  // After any run of refreshes of a new tree, a DM's avatar is as it would be built from nothing exactly
  // when the DM came with a recipient just if it has one now.
  lemma AvatarExactly(snapshots: seq<Snapshot>, k: nat, id: Str)
    requires CameWith(snapshots, k, id)
    ensures var now := snapshots[|snapshots| - 1];
            && id in DmsAfter(map[], snapshots) && id in Built(DmSpecs(now.dms))
            && (DmsAfter(map[], snapshots)[id].avatar == Built(DmSpecs(now.dms))[id].avatar <==>
                (Directed(snapshots[k], id) <==> Directed(now, id)))
  {
    hide SpecIds, DmSpecs, FirstSpec, LastSpec, NamesOf;
    MadeWith(snapshots, k, id);
  }

  // A DM that comes without a recipient and gets one: the avatar files do not appear.
  lemma AvatarNeverAdded(user: User) returns (before: Snapshot, after: Snapshot, id: Str)
    ensures id in DmsAfter(map[], [before, after]) && id in Built(DmSpecs(after.dms))
    ensures DmsAfter(map[], [before, after])[id].avatar == None
    ensures Built(DmSpecs(after.dms))[id].avatar == Some(Some(user))
  {
    hide NamesOf, DmsAfter;
    id := [0x31];
    var c := Channel(id, [], DM_CHANNEL, [], [], []);
    var d := c.(recipients := [user]);
    before, after := Shown(NOBODY, [], [c], []), Shown(NOBODY, [], [d], []);
    DirectedDm(before, 0);
    DirectedDm(after, 0);
    OneDm(c);
    OneDm(d);
    assert CameWith([before, after], 0, id);
    MadeWith([before, after], 0, id);
  }

  lemma OneDm(c: Channel)
    ensures SpecIds(DmSpecs([c])) == {c.id}
    ensures LastSpec(DmSpecs([c]), c.id) == FirstSpec(DmSpecs([c]), c.id) == DmSpec(c)
  {
    var specs := DmSpecs([c]);
    assert specs == [DmSpec(c)] && specs[..0] == [];
  }

  // ------------------------------------------------------------- running refreshes

  // What one refresh does, in the terms of a run.
  method Step(tree: Tree, snapshots: seq<Snapshot>, i: nat)
    requires tree.Valid() && i < |snapshots|
    modifies tree, tree.friendNodes.Values, tree.dmNodes.Values, tree.communityNodes.Values, Rooms(tree.communityNodes)
    ensures tree.Valid() && tree.View() == Refreshed(old(tree.View()), snapshots[i]) && tree.Reflects(snapshots[i])
    ensures Sticks(old(tree.friendNodes), tree.friendNodes) && tree.friendNodes.Keys == FriendIds(snapshots)[i]
    ensures Sticks(old(tree.dmNodes), tree.dmNodes) && tree.dmNodes.Keys == DmIds(snapshots)[i]
    ensures Sticks(old(tree.communityNodes), tree.communityNodes) && tree.communityNodes.Keys == GuildIds(snapshots)[i]
    ensures RoomsKept(old(Tables(tree.communityNodes)), Tables(tree.communityNodes), snapshots[i].guilds)
    ensures forall n :: n in tree.friendNodes.Values ==> n in old(tree.friendNodes.Values) || fresh(n)
    ensures forall n :: n in tree.dmNodes.Values ==> n in old(tree.dmNodes.Values) || fresh(n)
    ensures forall n :: n in tree.communityNodes.Values ==> n in old(tree.communityNodes.Values) || fresh(n)
    ensures forall n :: n in Rooms(tree.communityNodes) ==> n in old(Rooms(tree.communityNodes)) || fresh(n)
  {
    hide Tree.Valid, Tree.View, Refreshed, Looks, Settled, Tables, RoomsKept, Rooms, SameRooms, DistinctGuilds, SpecIds, Entries, NamesOf,
         FriendSpecs, DmSpecs, GuildSpecs;
    tree.Refresh(snapshots[i]);
  }

  // However often the tree is refreshed, and whatever comes and goes meanwhile: it shows the last
  // snapshot, DMs with the avatar files they came with, and whatever every snapshot had is the same
  // object as before the first.
  method RefreshAll(tree: Tree, snapshots: seq<Snapshot>)
    requires tree.Valid()
    modifies tree, tree.friendNodes.Values, tree.dmNodes.Values, tree.communityNodes.Values, Rooms(tree.communityNodes)
    ensures tree.Valid()
    ensures tree.View().dms == DmsAfter(old(tree.View()).dms, snapshots)
    ensures snapshots != [] ==>
              && tree.View() == BuiltTree(snapshots[|snapshots| - 1]).(dms := DmsAfter(old(tree.View()).dms, snapshots))
              && tree.Reflects(snapshots[|snapshots| - 1])
    ensures Lasting(old(tree.friendNodes), tree.friendNodes, FriendIds(snapshots))
    ensures Lasting(old(tree.dmNodes), tree.dmNodes, DmIds(snapshots))
    ensures Lasting(old(tree.communityNodes), tree.communityNodes, GuildIds(snapshots))
    ensures RoomsLasting(old(Tables(tree.communityNodes)), Tables(tree.communityNodes), snapshots)
  {
    hide Tree.Valid, Tree.View, Tree.Reflects, Built, Rebuilt, DmsAfter, Tables, RoomsKept, Rooms, Lasting, RoomsLasting, Sticks,
         FriendIds, DmIds, GuildIds;
    ghost var friends, dms, guilds := FriendIds(snapshots), DmIds(snapshots), GuildIds(snapshots);
    ghost var tables, shown := Tables(tree.communityNodes), tree.View().dms;
    RunStart(tree, snapshots);
    DmsStart(shown, snapshots);
    for i := 0 to |snapshots|
      invariant tree.Valid()
      invariant tree.View().dms == DmsAfter(shown, snapshots[..i])
      invariant i > 0 ==>
                  && tree.View() == BuiltTree(snapshots[i - 1]).(dms := DmsAfter(shown, snapshots[..i]))
                  && tree.Reflects(snapshots[i - 1])
      invariant Lasting(old(tree.friendNodes), tree.friendNodes, friends[..i])
      invariant Lasting(old(tree.dmNodes), tree.dmNodes, dms[..i])
      invariant Lasting(old(tree.communityNodes), tree.communityNodes, guilds[..i])
      invariant RoomsLasting(tables, Tables(tree.communityNodes), snapshots[..i])
      invariant forall n :: n in tree.friendNodes.Values ==> n in old(tree.friendNodes.Values) || fresh(n)
      invariant forall n :: n in tree.dmNodes.Values ==> n in old(tree.dmNodes.Values) || fresh(n)
      invariant forall n :: n in tree.communityNodes.Values ==> n in old(tree.communityNodes.Values) || fresh(n)
      invariant forall n :: n in Rooms(tree.communityNodes) ==> n in old(Rooms(tree.communityNodes)) || fresh(n)
    {
      ghost var f, d, c, t := tree.friendNodes, tree.dmNodes, tree.communityNodes, Tables(tree.communityNodes);
      Step(tree, snapshots, i);
      DmsStep(shown, snapshots, i);
      LastingStep(old(tree.friendNodes), f, tree.friendNodes, friends, i);
      LastingStep(old(tree.dmNodes), d, tree.dmNodes, dms, i);
      LastingStep(old(tree.communityNodes), c, tree.communityNodes, guilds, i);
      TableKeys(tree.communityNodes);
      GuildIdsAt(snapshots, i);
      RoomsLastingStep(tables, t, Tables(tree.communityNodes), snapshots, i);
    }
    assert snapshots[..|snapshots|] == snapshots;
    assert friends[..|snapshots|] == friends && dms[..|snapshots|] == dms && guilds[..|snapshots|] == guilds;
  }

  lemma DmsStart(shown: map<Str, Entry>, snapshots: seq<Snapshot>)
    ensures DmsAfter(shown, snapshots[..0]) == shown
  {
  }

  lemma DmsStep(shown: map<Str, Entry>, snapshots: seq<Snapshot>, i: nat)
    requires i < |snapshots|
    ensures DmsAfter(shown, snapshots[..i + 1]) == Rebuilt(DmsAfter(shown, snapshots[..i]), DmSpecs(snapshots[i].dms))
  {
    hide Rebuilt, DmSpecs;
    assert snapshots[..i + 1][..i] == snapshots[..i];
  }

  lemma GuildIdsAt(snapshots: seq<Snapshot>, i: nat)
    requires i < |snapshots|
    ensures GuildIds(snapshots)[i] == SpecIds(GuildSpecs(snapshots[i].guilds))
  {
  }

  lemma RunStart(tree: Tree, snapshots: seq<Snapshot>)
    ensures Lasting(tree.friendNodes, tree.friendNodes, FriendIds(snapshots)[..0])
    ensures Lasting(tree.dmNodes, tree.dmNodes, DmIds(snapshots)[..0])
    ensures Lasting(tree.communityNodes, tree.communityNodes, GuildIds(snapshots)[..0])
    ensures RoomsLasting(Tables(tree.communityNodes), Tables(tree.communityNodes), snapshots[..0])
    ensures |FriendIds(snapshots)| == |DmIds(snapshots)| == |GuildIds(snapshots)| == |snapshots|
  {
  }
}
