/** The index over a conversation's history and pins: a node per message that has attachments. */
module AttachmentIndexes {
  import opened Bytes
  import opened Attachments

  datatype Source = History | Pins

  predicate Listed(m: Message) {
    m.id != [] && m.attachments != []
  }

  // The messages of a listing that have attachments, by id; a later one wins.
  function Collected(messages: seq<Message>): map<Str, Message> {
    if messages == [] then map[]
    else
      var before, last := Collected(messages[..|messages| - 1]), messages[|messages| - 1];
      if Listed(last) then before[last.id := last] else before
  }

  predicate Gathered(sources: map<Str, Message>) {
    forall id :: id in sources ==> sources[id].id == id && Listed(sources[id])
  }

  lemma {:induction false} CollectedGathered(messages: seq<Message>)
    ensures Gathered(Collected(messages))
  {
    if messages != [] {
      CollectedGathered(messages[..|messages| - 1]);
    }
  }

  // A message is listed if it has an id and attachments, and so has no later one of its id.
  lemma {:induction false} CollectedExactly(messages: seq<Message>, id: Str)
    ensures id in Collected(messages) <==>
            exists k :: 0 <= k < |messages| && messages[k].id == id && id != [] && messages[k].attachments != []
    ensures forall k | 0 <= k < |messages| && messages[k].id == id && id != [] && messages[k].attachments != []
                       && forall j :: k < j < |messages| ==> messages[j].id != id || messages[j].attachments == []
              :: Collected(messages)[id] == messages[k]
  {
    if messages != [] {
      var n := |messages| - 1;
      var init := messages[..n];
      CollectedExactly(init, id);
      assert forall k :: 0 <= k < n ==> init[k] == messages[k];
      if id in Collected(init) {
        var k :| 0 <= k < n && init[k].id == id && id != [] && init[k].attachments != [];
        assert messages[k].id == id;
      }
    }
  }

  method Collect(messages: seq<Message>) returns (current: map<Str, Message>)
    ensures current == Collected(messages) && Gathered(current)
  {
    current := map[];
    for i := 0 to |messages|
      invariant current == Collected(messages[..i])
    {
      assert messages[..i + 1][..i] == messages[..i];
      if messages[i].id != [] && |messages[i].attachments| > 0 {
        current := current[messages[i].id := messages[i]];
      }
    }
    assert messages[..|messages|] == messages;
    CollectedGathered(messages);
  }

  // Copies one map over another, in whatever order the keys come.
  function Without(m: map<Str, Message>, rest: set<Str>): map<Str, Message> {
    map id | id in m && id !in rest :: m[id]
  }

  method Overlay(under: map<Str, Message>, over: map<Str, Message>) returns (all: map<Str, Message>)
    ensures all == under + over
  {
    all := under;
    var rest := over.Keys;
    while rest != {}
      invariant rest <= over.Keys
      invariant all == under + Without(over, rest)
      decreases rest
    {
      var id :| id in rest;
      all, rest := all[id := over[id]], rest - {id};
      assert Without(over, rest) == Without(over, rest + {id})[id := over[id]];
    }
    assert Without(over, rest) == over;
  }

  // What an index made from nothing shows.
  function BuiltIndex(combined: map<Str, Message>): map<Str, NodeView> {
    map id | id in combined :: BuiltNode(combined[id])
  }

  // ------------------------------------------------------------- the nodes

  ghost function FilesOf(nodes: map<Str, Node>): set<File>
    reads nodes.Values
  {
    set id, f | id in nodes && f in nodes[id].files :: nodes[id].files[f]
  }

  ghost predicate AllValid(nodes: map<Str, Node>)
    reads nodes.Values
  {
    forall id :: id in nodes ==> nodes[id].id == id && nodes[id].Valid()
  }

  ghost function Views(nodes: map<Str, Node>): map<Str, NodeView>
    reads nodes.Values, FilesOf(nodes)
  {
    map id | id in nodes :: nodes[id].View()
  }

  // Which nodes still have their own info.json.
  ghost function Infos(nodes: map<Str, Node>): map<Str, bool>
    reads nodes.Values
  {
    map id | id in nodes :: nodes[id].Kept()
  }

  ghost function Tables(nodes: map<Str, Node>): map<Str, map<Str, File>>
    reads nodes.Values
  {
    map id | id in nodes :: nodes[id].files
  }

  // The file of an attachment that stays is the same object.
  ghost predicate Continues(before: map<Str, File>, after: map<Str, File>) {
    forall f :: f in before && f in after ==> after[f] == before[f]
  }

  // The messages of done have been gone over, the rest not yet.
  ghost predicate AllContinue(before: map<Str, map<Str, File>>, after: map<Str, map<Str, File>>, done: set<Str>) {
    forall id :: id in before ==>
      id in after && if id in done then Continues(before[id], after[id]) else after[id] == before[id]
  }

  lemma ContinueStep(a: map<Str, map<Str, File>>, b: map<Str, map<Str, File>>, c: map<Str, map<Str, File>>, done: set<Str>, id: Str)
    requires AllContinue(a, b, done) && AllContinue(b, c, {id}) && id !in done
    ensures AllContinue(a, c, done + {id})
  {
    hide Continues;
    forall other | other in a
      ensures other in c && if other in done + {id} then Continues(a[other], c[other]) else c[other] == a[other]
    {
      assert other in b;
    }
  }

  twostate predicate NodesSurvive(new before: map<Str, Node>, new after: map<Str, Node>) {
    forall id :: id in after ==> if id in before then after[id] == before[id] else fresh(after[id])
  }

  lemma FilesApart(a: Node, b: Node)
    requires a.Valid() && b.Valid() && a.id != b.id
    ensures a != b && a.files.Values !! b.files.Values
  {
    forall file | file in a.files.Values ensures file !in b.files.Values {
      assert file.message == a.id;
    }
  }

  twostate predicate Untouched(node: Node)
    reads node, node.files.Values
  {
    unchanged(node) && forall f :: f in node.files ==> unchanged(node.files[f])
  }

  twostate lemma StaysValid(node: Node)
    requires old(node.Valid()) && Untouched(node)
    ensures node.Valid() && node.View() == old(node.View()) && node.Kept() == old(node.Kept())
  {
  }

  function NextInfo(infos: map<Str, bool>, m: Message): bool {
    (m.id in infos ==> infos[m.id]) && !RendersInfo(m.attachments)
  }

  lemma {:induction false} Joined(nodes: map<Str, Node>, node: Node, views: map<Str, NodeView>, infos: map<Str, bool>)
    requires node.Valid() && views.Keys == nodes.Keys == infos.Keys
    requires forall id :: id in nodes && id != node.id ==>
               nodes[id].id == id && nodes[id].Valid() && nodes[id].View() == views[id] && nodes[id].Kept() == infos[id]
    ensures AllValid(nodes[node.id := node])
    ensures Views(nodes[node.id := node]) == views[node.id := node.View()]
    ensures Infos(nodes[node.id := node]) == infos[node.id := node.Kept()]
  {
    hide Node.Valid, Node.View, Node.Kept;
  }

  lemma TablesOwned(nodes: map<Str, Node>)
    ensures Tables(nodes).Keys == nodes.Keys && forall id :: id in nodes ==> Tables(nodes)[id] == nodes[id].files
    ensures forall id, f :: id in Tables(nodes) && f in Tables(nodes)[id] ==> Tables(nodes)[id][f] in FilesOf(nodes)
  {
  }

  lemma FilesJoined(nodes: map<Str, Node>, node: Node, tables: map<Str, map<Str, File>>, owned: set<File>)
    requires tables.Keys == nodes.Keys && forall id :: id in nodes && id != node.id ==> nodes[id].files == tables[id]
    requires forall id, f :: id in tables && f in tables[id] ==> tables[id][f] in owned
    ensures forall file :: file in FilesOf(nodes[node.id := node]) ==> file in owned || file in node.files.Values
  {
  }

  lemma TablesJoined(nodes: map<Str, Node>, node: Node, tables: map<Str, map<Str, File>>)
    requires tables.Keys == nodes.Keys
    requires forall id :: id in nodes && id != node.id ==> nodes[id].files == tables[id]
    requires node.id in tables ==> Continues(tables[node.id], node.files)
    ensures AllContinue(tables, Tables(nodes[node.id := node]), {node.id})
  {
    hide Continues;
  }

  // The node of a message, made if need be and brought up to date.
  method Refreshed(m: Message, nodes: map<Str, Node>) returns (node: Node)
    requires AllValid(nodes)
    modifies if m.id in nodes then {nodes[m.id]} + nodes[m.id].files.Values else {}
    ensures node.id == m.id && node.Valid() && node.View() == BuiltNode(m)
    ensures node.Kept() <==> NextInfo(old(Infos(nodes)), m)
    ensures if m.id in nodes then node == nodes[m.id] else fresh(node)
    ensures Survives(if m.id in nodes then old(nodes[m.id].files) else map[], node.files)
    ensures m.id in nodes ==> Continues(old(nodes[m.id].files), node.files)
    ensures forall id :: id in nodes && id != m.id ==> Untouched(nodes[id])
  {
    hide BuiltNode, Node.Valid, Node.View, Node.Kept, Shelved, Settled;
    if m.id in nodes {
      node := nodes[m.id];
      forall id | id in nodes && id != m.id ensures nodes[id] != node && nodes[id].files.Values !! node.files.Values {
        FilesApart(nodes[id], node);
      }
    } else {
      node := new Node(m.id);
    }
    node.Reconcile(m);
  }

  // The cache with the node of a message made if need be and brought up to date; the others are left alone.
  method ReconcileMessage(m: Message, nodes: map<Str, Node>) returns (next: map<Str, Node>)
    requires AllValid(nodes)
    modifies if m.id in nodes then {nodes[m.id]} + nodes[m.id].files.Values else {}
    ensures AllValid(next) && next.Keys == nodes.Keys + {m.id}
    ensures forall id :: id in nodes ==> next[id] == nodes[id]
    ensures m.id !in nodes ==> fresh(next[m.id])
    ensures Views(next) == old(Views(nodes))[m.id := BuiltNode(m)]
    ensures Infos(next) == old(Infos(nodes))[m.id := NextInfo(old(Infos(nodes)), m)]
    ensures AllContinue(old(Tables(nodes)), Tables(next), {m.id})
    ensures forall file :: file in FilesOf(next) ==> file in old(FilesOf(nodes)) || fresh(file)
  {
    hide BuiltNode, Node.Valid, Node.View, Node.Kept, RendersInfo, NextInfo, Continues, AllContinue, FilesOf, Tables,
         Visible, Looks, EntryIds, Untouched;
    ghost var views, infos, tables, owned := Views(nodes), Infos(nodes), Tables(nodes), FilesOf(nodes);
    TablesOwned(nodes);
    var node := Refreshed(m, nodes);
    forall id | id in nodes && id != m.id
      ensures nodes[id].Valid() && nodes[id].View() == views[id] && nodes[id].Kept() == infos[id]
    {
      StaysValid(nodes[id]);
    }
    Joined(nodes, node, views, infos);
    TablesJoined(nodes, node, tables);
    FilesJoined(nodes, node, tables, owned);
    next := nodes[m.id := node];
  }

  // ------------------------------------------------------------- one pass over all messages

  // The views when the nodes of done have been brought up to date.
  function RenewedViews(views: map<Str, NodeView>, combined: map<Str, Message>, done: set<Str>): map<Str, NodeView>
    requires done <= combined.Keys
  {
    map id | id in views.Keys + done :: if id in done then BuiltNode(combined[id]) else views[id]
  }

  function RenewedInfos(infos: map<Str, bool>, combined: map<Str, Message>, done: set<Str>): map<Str, bool>
    requires done <= combined.Keys
  {
    map id | id in infos.Keys + done :: if id in done then NextInfo(infos, combined[id]) else infos[id]
  }

  // The infos of exactly the messages that are there now.
  function NextInfos(infos: map<Str, bool>, combined: map<Str, Message>): map<Str, bool> {
    map id | id in combined :: NextInfo(infos, combined[id])
  }

  lemma {:induction false} RenewedStep(views: map<Str, NodeView>, infos: map<Str, bool>, combined: map<Str, Message>, done: set<Str>, id: Str)
    requires done <= combined.Keys && id in combined && id !in done && combined[id].id == id
    ensures RenewedViews(views, combined, done + {id}) == RenewedViews(views, combined, done)[id := BuiltNode(combined[id])]
    ensures RenewedInfos(infos, combined, done + {id}) ==
            RenewedInfos(infos, combined, done)[id := NextInfo(RenewedInfos(infos, combined, done), combined[id])]
  {
    hide BuiltNode, RendersInfo;
  }

  method ReconcileAll(combined: map<Str, Message>, cache: map<Str, Node>) returns (children: map<Str, Node>, nodes: map<Str, Node>)
    requires AllValid(cache) && Gathered(combined)
    modifies cache.Values, FilesOf(cache)
    ensures AllValid(nodes) && nodes.Keys == cache.Keys + combined.Keys
    ensures NodesSurvive(cache, nodes)
    ensures Views(nodes) == RenewedViews(old(Views(cache)), combined, combined.Keys)
    ensures Infos(nodes) == RenewedInfos(old(Infos(cache)), combined, combined.Keys)
    ensures children == Left(nodes, combined.Keys)
    ensures AllContinue(old(Tables(cache)), Tables(nodes), combined.Keys)
    ensures forall file :: file in FilesOf(nodes) ==> file in old(FilesOf(cache)) || fresh(file)
  {
    hide BuiltNode, Node.Valid, Node.View, Node.Kept, NextInfo, RenewedViews, RenewedInfos, Left, Views, Infos, AllValid, Gathered, Tables, AllContinue, FilesOf;
    ghost var views, infos, tables, owned := Views(cache), Infos(cache), Tables(cache), FilesOf(cache);
    children, nodes := map[], cache;
    var done: set<Str> := {};
    RenewedStart(views, infos, combined, nodes);
    ContinueStart(tables);
    while combined.Keys - done != {}
      invariant done <= combined.Keys && nodes.Keys == cache.Keys + done
      invariant AllValid(nodes)
      invariant forall id :: id in cache ==> nodes[id] == cache[id]
      invariant forall id :: id in nodes && id !in cache ==> fresh(nodes[id])
      invariant Views(nodes) == RenewedViews(views, combined, done)
      invariant Infos(nodes) == RenewedInfos(infos, combined, done)
      invariant children == Left(nodes, done)
      invariant AllContinue(tables, Tables(nodes), done)
      invariant forall file :: file in FilesOf(nodes) ==> file in owned || fresh(file)
      decreases combined.Keys - done
    {
      var id :| id in combined.Keys - done;
      OwnId(combined, id);
      if combined[id].id in nodes {
        FilesIn(nodes, id);
      }
      ghost var now := Tables(nodes);
      var next := ReconcileMessage(combined[id], nodes);
      ContinueStep(tables, now, Tables(next), done, id);
      RenewedStep(views, infos, combined, done, id);
      LeftStep(cache, nodes, done, id, next);
      Fewer(combined.Keys, done, id);
      nodes := next;
      children := children[id := next[id]];
      done := done + {id};
    }
    NoneLeft(combined.Keys, done);
  }

  lemma ContinueStart(tables: map<Str, map<Str, File>>)
    ensures AllContinue(tables, tables, {})
  {
  }

  lemma FilesIn(nodes: map<Str, Node>, id: Str)
    requires id in nodes
    ensures nodes[id].files.Values <= FilesOf(nodes)
  {
  }

  lemma OwnId(combined: map<Str, Message>, id: Str)
    requires Gathered(combined) && id in combined
    ensures combined[id].id == id
  {
  }

  lemma RenewedStart(views: map<Str, NodeView>, infos: map<Str, bool>, combined: map<Str, Message>, nodes: map<Str, Node>)
    ensures RenewedViews(views, combined, {}) == views && RenewedInfos(infos, combined, {}) == infos && Left(nodes, {}) == map[]
  {
  }

  lemma LeftStep(cache: map<Str, Node>, nodes: map<Str, Node>, done: set<Str>, id: Str, next: map<Str, Node>)
    requires nodes.Keys == cache.Keys + done && next.Keys == nodes.Keys + {id}
    requires forall other :: other in nodes ==> next[other] == nodes[other]
    ensures next.Keys == cache.Keys + (done + {id})
    ensures Left(next, done + {id}) == Left(nodes, done)[id := next[id]]
  {
  }

  lemma NoneLeft(all: set<Str>, done: set<Str>)
    requires done <= all && all - done == {}
    ensures done == all
  {
    forall id | id in all ensures id in done {
      assert id !in all - done;
    }
  }

  lemma Fewer(all: set<Str>, done: set<Str>, id: Str)
    requires id in all - done
    ensures all - (done + {id}) < all - done
  {
    assert id !in all - (done + {id});
  }

  // ------------------------------------------------------------- the index

  lemma LeftNodes(nodes: map<Str, Node>, active: set<Str>)
    requires AllValid(nodes) && active <= nodes.Keys
    ensures AllValid(Left(nodes, active)) && Left(nodes, active).Keys == active
    ensures Views(Left(nodes, active)) == Left(Views(nodes), active)
    ensures Infos(Left(nodes, active)) == Left(Infos(nodes), active)
    ensures Tables(Left(nodes, active)) == Left(Tables(nodes), active)
    ensures FilesOf(Left(nodes, active)) <= FilesOf(nodes)
  {
    hide Node.Valid, Node.View, Node.Kept;
  }

  lemma {:induction false} ViewsLeft(views: map<Str, NodeView>, infos: map<Str, bool>, combined: map<Str, Message>)
    ensures Left(RenewedViews(views, combined, combined.Keys), combined.Keys) == BuiltIndex(combined)
    ensures Left(RenewedInfos(infos, combined, combined.Keys), combined.Keys) == NextInfos(infos, combined)
  {
    hide BuiltNode, NextInfo;
  }

  // Wherever a message stays, so do the files of the attachments that stay.
  ghost predicate FilesStay(before: map<Str, map<Str, File>>, after: map<Str, map<Str, File>>) {
    forall id :: id in before && id in after ==> Continues(before[id], after[id])
  }

  lemma TablesLeft(before: map<Str, map<Str, File>>, after: map<Str, map<Str, File>>, active: set<Str>)
    requires AllContinue(before, after, active)
    ensures FilesStay(before, Left(after, active))
  {
    hide Continues;
  }

  // All messages gone over, and the nodes of those that are gone dropped.
  method Rebuild(combined: map<Str, Message>, cache: map<Str, Node>) returns (kept: map<Str, Node>)
    requires AllValid(cache) && Gathered(combined)
    modifies cache.Values, FilesOf(cache)
    ensures AllValid(kept) && kept.Keys == combined.Keys && NodesSurvive(cache, kept)
    ensures Views(kept) == BuiltIndex(combined) && Infos(kept) == NextInfos(old(Infos(cache)), combined)
    ensures FilesStay(old(Tables(cache)), Tables(kept))
    ensures forall file :: file in FilesOf(kept) ==> file in old(FilesOf(cache)) || fresh(file)
  {
    hide AllValid, Views, Infos, Tables, FilesOf, BuiltIndex, NextInfos, RenewedViews, RenewedInfos, AllContinue, FilesStay;
    ghost var views, infos, tables := Views(cache), Infos(cache), Tables(cache);
    var all;
    kept, all := ReconcileAll(combined, cache);
    LeftNodes(all, combined.Keys);
    ViewsLeft(views, infos, combined);
    TablesLeft(tables, Tables(all), combined.Keys);
  }

  twostate lemma NodesStay(nodes: map<Str, Node>)
    requires old(AllValid(nodes)) && forall id :: id in nodes ==> Untouched(nodes[id])
    ensures AllValid(nodes) && Views(nodes) == old(Views(nodes)) && Infos(nodes) == old(Infos(nodes))
    ensures Tables(nodes) == old(Tables(nodes)) && FilesOf(nodes) == old(FilesOf(nodes))
  {
    hide Node.Valid, Node.View, Node.Kept;
    forall id | id in nodes
      ensures nodes[id].Valid() && nodes[id].View() == old(nodes[id].View()) && nodes[id].Kept() == old(nodes[id].Kept())
    {
      StaysValid(nodes[id]);
    }
  }

  class Index {
    var history: map<Str, Message>
    var pins: map<Str, Message>
    var nodes: map<Str, Node>
    var children: map<Str, Node>

    ghost predicate Valid()
      reads this, nodes.Values
    {
      Gathered(history) && Gathered(pins) && AllValid(nodes) && children == nodes
    }

    ghost function View(): map<Str, NodeView>
      reads this, nodes.Values, FilesOf(nodes)
    {
      Views(nodes)
    }

    constructor ()
      ensures Valid() && history == map[] && pins == map[] && nodes == map[]
    {
      history, pins, nodes, children := map[], map[], map[], map[];
    }

    method SetSource(source: Source, current: map<Str, Message>)
      requires Valid() && Gathered(current)
      modifies this`history, this`pins
      ensures Valid()
      ensures history == if source.History? then current else old(history)
      ensures pins == if source.Pins? then current else old(pins)
    {
      if source.History? {
        history := current;
      } else {
        pins := current;
      }
    }

    method Replace(kept: map<Str, Node>)
      requires AllValid(kept)
      modifies this`nodes, this`children
      ensures nodes == children == kept
      ensures AllValid(kept) && Views(kept) == old(Views(kept)) && Infos(kept) == old(Infos(kept))
      ensures Tables(kept) == old(Tables(kept)) && FilesOf(kept) == old(FilesOf(kept))
    {
      nodes, children := kept, kept;
      NodesStay(kept);
    }

    // The directory lists the messages of the last history and the last pins, pins winning, just as an
    // index made from those two alone; what stays is the same object; a message's info.json is its own
    // until an attachment has taken its name.
    method Update(source: Source, messages: seq<Message>)
      requires Valid()
      modifies this, nodes.Values, FilesOf(nodes)
      ensures Valid() && View() == BuiltIndex(history + pins)
      ensures history == if source.History? then Collected(messages) else old(history)
      ensures pins == if source.Pins? then Collected(messages) else old(pins)
      ensures nodes.Keys == history.Keys + pins.Keys && NodesSurvive(old(nodes), nodes)
      ensures FilesStay(old(Tables(nodes)), Tables(nodes))
      ensures forall file :: file in FilesOf(nodes) ==> file in old(FilesOf(nodes)) || fresh(file)
      ensures Infos(nodes) == NextInfos(old(Infos(nodes)), history + pins)
    {
      hide AllValid, Views, Infos, Tables, FilesOf, BuiltIndex, NextInfos, FilesStay, Gathered, Collected;
      var current := Collect(messages);
      SetSource(source, current);
      var combined := Overlay(history, pins);
      GatheredBoth(history, pins);
      NodesStay(nodes);
      var kept := Rebuild(combined, nodes);
      Replace(kept);
    }
  }

  lemma GatheredBoth(a: map<Str, Message>, b: map<Str, Message>)
    requires Gathered(a) && Gathered(b)
    ensures Gathered(a + b)
  {
  }

  // The files a node holds are those of the message it shows.
  lemma FileKeys(nodes: map<Str, Node>, combined: map<Str, Message>)
    requires Views(nodes) == BuiltIndex(combined)
    ensures Tables(nodes).Keys == nodes.Keys == combined.Keys
    ensures forall id :: id in combined ==> Tables(nodes)[id].Keys == AttachmentIds(combined[id].attachments)
  {
    hide AttachmentIds, NamesOf, Records, LastAttachment, Named, NewLook, EntryIds;
    assert nodes.Keys == Views(nodes).Keys;
    forall id | id in combined ensures nodes[id].files.Keys == AttachmentIds(combined[id].attachments) {
      assert nodes[id].files.Keys == Views(nodes)[id].files.Keys;
    }
  }
}
