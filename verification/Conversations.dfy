/** Reconciling a set of conversation directories: a cache keeps their nodes, the listing is rebuilt. */
module Conversations {
  import opened Bytes
  import opened Wrappers
  import opened Types
  import opened Names

  datatype Info = Friend(relationship: Relationship) | Room(channel: Channel) | Metadata(guild: Guild)

  // What a snapshot asks one conversation directory to be.
  datatype Spec = Spec(base: Str, id: Str, info: Info, avatar: Option<User>)

  // The directory a conversation was made for; conversations never move.
  datatype Home = Friends | Dms | Channels(guild: Str)

  // All a client can see of a conversation directory. avatar is None for one made without avatar
  // files; Some(None) when they are there but resolve to nobody.
  datatype Look = Look(name: Str, version: nat, info: Info, avatar: Option<Option<User>>)

  // A directory's version counts its changes of name.
  function Renamed(was: Str, version: nat, name: Str): nat {
    if was != name then version + 1 else version
  }

  class Conversation {
    // What its read and send closures captured when it was made: never updated.
    const id: Str
    const home: Home
    var name: Str
    var version: nat
    var info: Info
    var avatar: Option<Option<User>>

    function State(): Look
      reads this
    {
      Look(name, version, info, avatar)
    }

    constructor (name: Str, spec: Spec, home: Home)
      ensures this.id == spec.id && this.home == home && State() == NewLook(name, spec)
    {
      this.id, this.home, this.name, this.version := spec.id, home, name, 0;
      this.info := spec.info;
      this.avatar := if spec.avatar.Some? then Some(spec.avatar) else None;
    }

    method SetName(name: Str)
      modifies this`name, this`version
      ensures this.name == name && version == Renamed(old(this.name), old(version), name)
    {
      if this.name != name {
        this.name, version := name, version + 1;
      }
    }
  }

  // ------------------------------------------------------------- specs

  function Items(specs: seq<Spec>): seq<NamedId> {
    seq(|specs|, k requires 0 <= k < |specs| => NamedId(specs[k].base, specs[k].id))
  }

  function SpecIds(specs: seq<Spec>): (ids: set<Str>)
    ensures forall k :: 0 <= k < |specs| ==> specs[k].id in ids
  {
    if specs == [] then {} else SpecIds(specs[..|specs| - 1]) + {specs[|specs| - 1].id}
  }

  function FirstSpec(specs: seq<Spec>, id: Str): (s: Spec)
    requires id in SpecIds(specs)
    ensures s.id == id && s in specs
  {
    var init, last := specs[..|specs| - 1], specs[|specs| - 1];
    if id in SpecIds(init) then FirstSpec(init, id) else last
  }

  function LastSpec(specs: seq<Spec>, id: Str): (s: Spec)
    requires id in SpecIds(specs)
    ensures s.id == id && s in specs
  {
    var init, last := specs[..|specs| - 1], specs[|specs| - 1];
    if last.id == id then last else LastSpec(init, id)
  }

  lemma {:induction false} IdsAgree(specs: seq<Spec>)
    ensures Ids(Items(specs)) == SpecIds(specs)
  {
    if specs != [] {
      var n := |specs| - 1;
      IdsAgree(specs[..n]);
      IdsStep(Items(specs), n);
      IdsStep(Items(specs), n + 1);
      assert Items(specs)[..n] == Items(specs[..n]);
      assert Items(specs)[..n + 1] == Items(specs);
    }
  }

  lemma SpecsStep(specs: seq<Spec>, i: nat)
    requires i < |specs|
    ensures specs[..i + 1][..i] == specs[..i] && specs[..i + 1][i] == specs[i]
    ensures SpecIds(specs[..i + 1]) == SpecIds(specs[..i]) + {specs[i].id}
  {
    var a := specs[..i + 1];
    assert a[..|a| - 1] == specs[..i];
  }

  // What shows of a conversation. avatar is as in a Look.
  datatype Entry = Entry(name: Str, info: Info, avatar: Option<Option<User>>)

  function NamesOf(specs: seq<Spec>): (names: map<Str, Str>)
    ensures names.Keys == SpecIds(specs)
  {
    IdsAgree(specs);
    Assigned(Items(specs), AtEnd)
  }

  // Avatar files stay as they were made: with the node that is there, or by the first spec of a new one.
  predicate HasAvatar(shown: map<Str, Entry>, specs: seq<Spec>, id: Str)
    requires id in SpecIds(specs)
  {
    if id in shown then shown[id].avatar.Some? else FirstSpec(specs, id).avatar.Some?
  }

  // What a set of conversations shows after the specs, given what it showed before.
  function Rebuilt(shown: map<Str, Entry>, specs: seq<Spec>): map<Str, Entry> {
    map id | id in SpecIds(specs) ::
      Entry(NamesOf(specs)[id], LastSpec(specs, id).info,
            if HasAvatar(shown, specs, id) then Some(LastSpec(specs, id).avatar) else None)
  }

  // And what it shows when it is built from nothing.
  function Built(specs: seq<Spec>): map<Str, Entry> {
    Rebuilt(map[], specs)
  }

  // A cache after its stale ids are dropped.
  function Left<T>(cache: map<Str, T>, active: set<Str>): map<Str, T> {
    map id | id in cache && id in active :: cache[id]
  }

  // Directory entries in the order the specs come: a later spec takes a name from an earlier one.
  function Entries<T>(specs: seq<Spec>, names: map<Str, Str>, nodes: map<Str, T>): map<Str, T>
    requires SpecIds(specs) <= names.Keys && SpecIds(specs) <= nodes.Keys
  {
    if specs == [] then map[]
    else
      var last := specs[|specs| - 1];
      Entries(specs[..|specs| - 1], names, nodes)[names[last.id] := nodes[last.id]]
  }

  lemma {:induction false} EntriesSame<T>(specs: seq<Spec>, names: map<Str, Str>, nodes: map<Str, T>, more: map<Str, T>)
    requires SpecIds(specs) <= names.Keys && SpecIds(specs) <= nodes.Keys && SpecIds(specs) <= more.Keys
    requires forall id :: id in SpecIds(specs) ==> nodes[id] == more[id]
    ensures Entries(specs, names, nodes) == Entries(specs, names, more)
  {
    if specs != [] {
      EntriesSame(specs[..|specs| - 1], names, nodes, more);
    }
  }

  // Every name leads to a node that was given it, and every given name leads somewhere.
  lemma {:induction false} EntriesMeaning<T>(specs: seq<Spec>, names: map<Str, Str>, nodes: map<Str, T>)
    requires SpecIds(specs) <= names.Keys && SpecIds(specs) <= nodes.Keys
    ensures forall n :: n in Entries(specs, names, nodes) ==>
              exists id :: id in SpecIds(specs) && names[id] == n && Entries(specs, names, nodes)[n] == nodes[id]
    ensures forall id :: id in SpecIds(specs) ==> names[id] in Entries(specs, names, nodes)
  {
    if specs != [] {
      EntriesMeaning(specs[..|specs| - 1], names, nodes);
    }
  }

  // ------------------------------------------------------------- what reconciling does to the nodes

  function NewLook(name: Str, spec: Spec): Look {
    Look(name, 0, spec.info, if spec.avatar.Some? then Some(spec.avatar) else None)
  }

  function Touched(looks: map<Str, Look>, spec: Spec, name: Str): Look {
    if spec.id !in looks then NewLook(name, spec)
    else
      var was := looks[spec.id];
      Look(name, Renamed(was.name, was.version, name), spec.info,
           if was.avatar.Some? then Some(spec.avatar) else None)
  }

  function Reconciled(looks: map<Str, Look>, specs: seq<Spec>, names: map<Str, Str>): map<Str, Look>
    requires SpecIds(specs) <= names.Keys
  {
    if specs == [] then looks
    else
      var last := specs[|specs| - 1];
      var before := Reconciled(looks, specs[..|specs| - 1], names);
      before[last.id := Touched(before, last, names[last.id])]
  }

  // Where a cache ends up: the listed conversations only.
  function Settled(looks: map<Str, Look>, specs: seq<Spec>): map<Str, Look> {
    Left(Reconciled(looks, specs, NamesOf(specs)), SpecIds(specs))
  }

  function Visible(looks: map<Str, Look>): map<Str, Entry> {
    map id | id in looks :: Entry(looks[id].name, looks[id].info, looks[id].avatar)
  }

  // Every listed conversation ends up with its assigned name and its latest data; its version moves
  // exactly when its name does; avatar files neither come nor go.
  lemma {:induction false} ReconciledMeaning(looks: map<Str, Look>, specs: seq<Spec>, names: map<Str, Str>)
    requires SpecIds(specs) <= names.Keys
    ensures Reconciled(looks, specs, names).Keys == looks.Keys + SpecIds(specs)
    ensures forall id :: id in looks && id !in SpecIds(specs) ==> Reconciled(looks, specs, names)[id] == looks[id]
    ensures forall id :: id in SpecIds(specs) ==>
              Reconciled(looks, specs, names)[id] == Look(
                names[id],
                if id !in looks then 0 else Renamed(looks[id].name, looks[id].version, names[id]),
                LastSpec(specs, id).info,
                if HasAvatar(Visible(looks), specs, id) then Some(LastSpec(specs, id).avatar) else None)
  {
    if specs != [] {
      ReconciledMeaning(looks, specs[..|specs| - 1], names);
    }
  }

  // ------------------------------------------------------------- reconciling a set of conversations

  ghost predicate Cached(cache: map<Str, Conversation>, home: Home) {
    forall id :: id in cache ==> cache[id].id == id && cache[id].home == home
  }

  ghost function Looks(cache: map<Str, Conversation>): map<Str, Look>
    reads cache.Values
  {
    map id | id in cache :: cache[id].State()
  }

  lemma CachedAdd(cache: map<Str, Conversation>, home: Home, node: Conversation)
    requires Cached(cache, home) && node.home == home
    ensures Cached(cache[node.id := node], home)
  {
  }

  // The cached node of a spec, made or brought up to date.
  method Touch(spec: Spec, name: Str, cache: map<Str, Conversation>, home: Home) returns (node: Conversation)
    requires Cached(cache, home)
    modifies if spec.id in cache then {cache[spec.id]} else {}
    ensures node.id == spec.id && node.home == home
    ensures if spec.id in cache then node == cache[spec.id] else fresh(node)
    ensures Looks(cache[spec.id := node]) == old(Looks(cache))[spec.id := Touched(old(Looks(cache)), spec, name)]
  {
    if spec.id !in cache {
      node := new Conversation(name, spec, home);
    } else {
      node := cache[spec.id];
      node.SetName(name);
      node.info := spec.info;
      if node.avatar.Some? {
        if spec.avatar.None? {
          node.avatar := Some(None);
        } else {
          node.avatar := Some(spec.avatar);
        }
      }
    }
  }

  lemma WalkStart(specs: seq<Spec>)
    ensures SpecIds(specs[..0]) == {}
  {
  }

  // The loop over the specs, stale nodes still in the cache.
  method Walk(specs: seq<Spec>, names: map<Str, Str>, cache: map<Str, Conversation>, home: Home)
    returns (children: map<Str, Conversation>, nodes: map<Str, Conversation>)
    requires Cached(cache, home) && SpecIds(specs) <= names.Keys
    modifies cache.Values
    ensures Cached(nodes, home) && nodes.Keys == cache.Keys + SpecIds(specs)
    ensures forall id :: id in cache ==> nodes[id] == cache[id]
    ensures forall id :: id in nodes && id !in cache ==> fresh(nodes[id])
    ensures Looks(nodes) == Reconciled(old(Looks(cache)), specs, names)
    ensures children == Entries(specs, names, nodes)
  {
    hide SpecIds, Touched, Cached, Conversation.State;
    WalkStart(specs);
    children := map[];
    nodes := cache;
    ghost var looks := Looks(cache);
    for i := 0 to |specs|
      invariant Cached(nodes, home) && nodes.Keys == cache.Keys + SpecIds(specs[..i])
      invariant SpecIds(specs[..i]) <= names.Keys
      invariant forall id :: id in cache ==> nodes[id] == cache[id]
      invariant forall id :: id in nodes && id !in cache ==> fresh(nodes[id])
      invariant Looks(nodes) == Reconciled(looks, specs[..i], names)
      invariant children == Entries(specs[..i], names, nodes)
    {
      SpecsStep(specs, i);
      var spec := specs[i];
      assert spec.id in SpecIds(specs);
      ghost var before := nodes;
      var node := Touch(spec, names[spec.id], nodes, home);
      nodes := nodes[spec.id := node];
      CachedAdd(before, home, node);
      EntriesSame(specs[..i], names, before, nodes);
      children := children[names[spec.id] := node];
    }
    assert specs[..|specs|] == specs;
  }

  // Every entry leads to a node that goes by its name, and every node has an entry under its name.
  ghost predicate Placed<T>(children: map<Str, T>, nodes: map<Str, T>, names: map<Str, Str>) {
    && nodes.Keys == names.Keys
    && (forall n :: n in children ==> exists id :: id in nodes && children[n] == nodes[id] && names[id] == n)
    && (forall id :: id in nodes ==> names[id] in children)
  }

  ghost function StatNames(nodes: map<Str, Conversation>): map<Str, Str>
    reads nodes.Values
  {
    map id | id in nodes :: nodes[id].name
  }

  // A directory whose entries are keyed by the names their nodes report.
  ghost predicate Listing(children: map<Str, Conversation>, nodes: map<Str, Conversation>)
    reads nodes.Values
  {
    Placed(children, nodes, StatNames(nodes))
  }

  // The nodes are those asked for, filed under their names in the order asked.
  predicate Filed(children: map<Str, Conversation>, nodes: map<Str, Conversation>, specs: seq<Spec>) {
    nodes.Keys == SpecIds(specs) && children == Entries(specs, NamesOf(specs), nodes)
  }

  // What was cached is the same object as before; the rest is new.
  twostate predicate Survives(new before: map<Str, Conversation>, new after: map<Str, Conversation>) {
    forall id :: id in after ==> if id in before then after[id] == before[id] else fresh(after[id])
  }

  method ReconcileConversations(specs: seq<Spec>, cache: map<Str, Conversation>, home: Home)
    returns (children: map<Str, Conversation>, kept: map<Str, Conversation>)
    requires Cached(cache, home)
    modifies cache.Values
    ensures Cached(kept, home) && Survives(cache, kept)
    ensures Looks(kept) == Settled(old(Looks(cache)), specs)
    ensures Filed(children, kept, specs) && Listing(children, kept)
  {
    hide SpecIds, Reconciled, Entries, Assigned, Conversation.State, StatNames, Placed;
    var names := AssignNames(Items(specs));
    assert names == NamesOf(specs);
    var nodes;
    children, nodes := Walk(specs, names, cache, home);
    kept := Left(nodes, SpecIds(specs));
    EntriesSame(specs, names, nodes, kept);
    SettledNames(old(Looks(cache)), specs, kept);
    EntriesListing(specs, kept, children);
  }

  lemma {:induction false} SettledNames(looks: map<Str, Look>, specs: seq<Spec>, kept: map<Str, Conversation>)
    requires kept.Keys == SpecIds(specs) && Looks(kept) == Settled(looks, specs)
    ensures forall id :: id in kept ==> kept[id].name == NamesOf(specs)[id]
  {
    ReconciledMeaning(looks, specs, NamesOf(specs));
    forall id | id in kept ensures kept[id].name == NamesOf(specs)[id] {
      assert Looks(kept)[id] == Reconciled(looks, specs, NamesOf(specs))[id];
    }
  }

  lemma {:induction false} EntriesListing(specs: seq<Spec>, kept: map<Str, Conversation>, children: map<Str, Conversation>)
    requires kept.Keys == SpecIds(specs) && children == Entries(specs, NamesOf(specs), kept)
    requires forall id :: id in kept ==> kept[id].name == NamesOf(specs)[id]
    ensures Listing(children, kept)
  {
    hide Entries, Assigned, SpecIds;
    EntriesMeaning(specs, NamesOf(specs), kept);
    assert StatNames(kept) == NamesOf(specs);
  }

  // ------------------------------------------------------------- what it amounts to

  // Whatever was cached, the result shows the specs; what was there matters for avatar files only.
  lemma ReconcileIsRebuild(looks: map<Str, Look>, specs: seq<Spec>)
    ensures Visible(Settled(looks, specs)) == Rebuilt(Visible(looks), specs)
  {
    hide Reconciled, LastSpec, FirstSpec, HasAvatar, Assigned, SpecIds;
    ReconciledMeaning(looks, specs, NamesOf(specs));
  }

  // Each conversation that stays was made with avatar files just if it would be now.
  predicate AvatarsAgree(shown: map<Str, Entry>, specs: seq<Spec>) {
    forall id :: id in SpecIds(specs) && id in shown ==> shown[id].avatar.Some? == FirstSpec(specs, id).avatar.Some?
  }

  // Avatar files are the one thing that building from nothing could do differently.
  lemma AvatarsAsRebuilt(shown: map<Str, Entry>, specs: seq<Spec>)
    ensures Rebuilt(shown, specs) == Built(specs) <==> AvatarsAgree(shown, specs)
  {
    hide LastSpec, FirstSpec, Assigned, SpecIds, NamesOf;
    if Rebuilt(shown, specs) == Built(specs) {
      forall id | id in SpecIds(specs) && id in shown
        ensures shown[id].avatar.Some? == FirstSpec(specs, id).avatar.Some?
      {
        assert Rebuilt(shown, specs)[id].avatar == Built(specs)[id].avatar;
      }
    }
  }

  // Going over the same specs again changes nothing.
  lemma RebuiltTwice(shown: map<Str, Entry>, specs: seq<Spec>)
    ensures Rebuilt(Rebuilt(shown, specs), specs) == Rebuilt(shown, specs)
  {
    hide LastSpec, FirstSpec, Assigned, SpecIds, NamesOf;
  }

  // Directories that all have avatar files, or all have none.
  predicate Equipped(shown: map<Str, Entry>) {
    forall id :: id in shown ==> shown[id].avatar.Some?
  }

  predicate Bare(shown: map<Str, Entry>) {
    forall id :: id in shown ==> shown[id].avatar.None?
  }

  lemma EquippedAgree(shown: map<Str, Entry>, specs: seq<Spec>)
    requires Equipped(shown) && forall k :: 0 <= k < |specs| ==> specs[k].avatar.Some?
    ensures Rebuilt(shown, specs) == Built(specs) && Equipped(Built(specs))
  {
    hide LastSpec, FirstSpec, Assigned, SpecIds, NamesOf;
    AvatarsAsRebuilt(shown, specs);
  }

  lemma BareAgree(shown: map<Str, Entry>, specs: seq<Spec>)
    requires Bare(shown) && forall k :: 0 <= k < |specs| ==> specs[k].avatar.None?
    ensures Rebuilt(shown, specs) == Built(specs) && Bare(Built(specs))
  {
    hide LastSpec, FirstSpec, Assigned, SpecIds, NamesOf;
    AvatarsAsRebuilt(shown, specs);
  }

  // A version counts the renamings since the node was made.
  lemma RenamesAreCounted(looks: map<Str, Look>, specs: seq<Spec>, id: Str)
    requires id in SpecIds(specs)
    ensures id in Settled(looks, specs)
    ensures Settled(looks, specs)[id].version ==
            if id !in looks then 0
            else looks[id].version + if looks[id].name == NamesOf(specs)[id] then 0 else 1
  {
    ReconciledMeaning(looks, specs, NamesOf(specs));
  }

  // ------------------------------------------------------------- order

  predicate DistinctSpecs(specs: seq<Spec>) {
    forall i, j :: 0 <= i < j < |specs| ==> specs[i].id != specs[j].id
  }

  lemma {:induction false} SpecIdsMeaning(specs: seq<Spec>, id: Str)
    ensures id in SpecIds(specs) <==> exists k :: 0 <= k < |specs| && specs[k].id == id
  {
    if specs != [] {
      SpecIdsMeaning(specs[..|specs| - 1], id);
      if id in SpecIds(specs[..|specs| - 1]) {
        var k :| 0 <= k < |specs| - 1 && specs[..|specs| - 1][k].id == id;
        assert specs[k].id == id;
      }
    }
  }

  lemma ItemsConcat(a: seq<Spec>, b: seq<Spec>)
    ensures Items(a + b) == Items(a) + Items(b)
  {
  }

  lemma {:induction false} ItemsOrder(a: seq<Spec>, b: seq<Spec>)
    requires multiset(a) == multiset(b)
    ensures multiset(Items(a)) == multiset(Items(b))
  {
    if a == [] {
      assert |multiset(b)| == 0;
    } else {
      var n := |a| - 1;
      var k := Matched(a, b);
      ItemsOrder(a[..n], b[..k] + b[k + 1..]);
      ItemsConcat(b[..k], b[k + 1..]);
      var y := [NamedId(a[n].base, a[n].id)];
      assert Items(a) == Items(a[..n]) + y;
      assert Items(b) == Items(b[..k]) + y + Items(b[k + 1..]);
    }
  }

  lemma {:induction false} LastSpecAt(specs: seq<Spec>, k: nat)
    requires DistinctSpecs(specs) && k < |specs|
    ensures specs[k].id in SpecIds(specs) && LastSpec(specs, specs[k].id) == specs[k]
  {
    if k < |specs| - 1 {
      LastSpecAt(specs[..|specs| - 1], k);
      assert specs[..|specs| - 1][k] == specs[k];
    }
  }

  lemma {:induction false} SameLast(a: seq<Spec>, b: seq<Spec>, id: Str)
    requires multiset(a) == multiset(b) && DistinctSpecs(a) && DistinctSpecs(b) && id in SpecIds(a)
    ensures id in SpecIds(b) && LastSpec(a, id) == LastSpec(b, id)
  {
    SpecIdsMeaning(a, id);
    var k :| 0 <= k < |a| && a[k].id == id;
    assert a[k] in multiset(b);
    var j :| 0 <= j < |b| && b[j] == a[k];
    LastSpecAt(a, k);
    LastSpecAt(b, j);
  }

  lemma {:induction false} FirstSpecAt(specs: seq<Spec>, k: nat)
    requires DistinctSpecs(specs) && k < |specs|
    ensures specs[k].id in SpecIds(specs) && FirstSpec(specs, specs[k].id) == specs[k]
  {
    var init := specs[..|specs| - 1];
    SpecIdsMeaning(init, specs[k].id);
    if k < |specs| - 1 {
      assert init[k] == specs[k];
      FirstSpecAt(init, k);
    }
  }

  lemma {:induction false} SameFirst(a: seq<Spec>, b: seq<Spec>, id: Str)
    requires multiset(a) == multiset(b) && DistinctSpecs(a) && DistinctSpecs(b) && id in SpecIds(a)
    ensures id in SpecIds(b) && FirstSpec(a, id) == FirstSpec(b, id)
  {
    hide FirstSpec;
    SpecIdsMeaning(a, id);
    var k :| 0 <= k < |a| && a[k].id == id;
    assert a[k] in multiset(b);
    var j :| 0 <= j < |b| && b[j] == a[k];
    FirstSpecAt(a, k);
    FirstSpecAt(b, j);
  }

  // With an id each, the order a snapshot lists things in does not show.
  lemma RebuiltAnyOrder(shown: map<Str, Entry>, a: seq<Spec>, b: seq<Spec>)
    requires multiset(a) == multiset(b) && DistinctSpecs(a) && DistinctSpecs(b)
    ensures NamesOf(a) == NamesOf(b) && Rebuilt(shown, a) == Rebuilt(shown, b)
  {
    hide SpecIds, Assigned, LastSpec, FirstSpec;
    ItemsOrder(a, b);
    OrderIndependent(Items(a), Items(b), AtEnd);
    assert NamesOf(a) == NamesOf(b);
    forall id | id in SpecIds(a) ensures LastSpec(a, id) == LastSpec(b, id) && FirstSpec(a, id) == FirstSpec(b, id) {
      SameLast(a, b, id);
      SameFirst(a, b, id);
    }
  }
}
