/** What an attachment index holds after any run of history and pins updates, read off the run. */
module AttachmentRuns {
  import opened Bytes
  import opened Wrappers
  import opened Attachments
  import opened AttachmentIndexes

  datatype Update = Update(source: Source, messages: seq<Message>)

  // The last listing a source was given.
  function Last(log: seq<Update>, source: Source): map<Str, Message> {
    if log == [] then map[]
    else if log[|log| - 1].source == source then Collected(log[|log| - 1].messages)
    else Last(log[..|log| - 1], source)
  }

  function Listing(log: seq<Update>): map<Str, Message> {
    Last(log, History) + Last(log, Pins)
  }

  // Which of the listed messages have their own info.json.
  function InfosAfter(log: seq<Update>): map<Str, bool> {
    if log == [] then map[] else NextInfos(InfosAfter(log[..|log| - 1]), Listing(log))
  }

  // From the k-th update to the last the message has been listed.
  predicate ListedSince(log: seq<Update>, k: nat, id: Str)
    requires k <= |log|
  {
    forall j :: k <= j <= |log| ==> id in Listing(log[..j])
  }

  predicate TookName(log: seq<Update>, k: nat, id: Str)
    requires k <= |log|
  {
    id in Listing(log[..k]) && RendersInfo(Listing(log[..k])[id].attachments)
  }

  // One more update, in the terms in which the index states its own.
  lemma ListingStep(log: seq<Update>, u: Update)
    ensures Last(log + [u], History) == if u.source.History? then Collected(u.messages) else Last(log, History)
    ensures Last(log + [u], Pins) == if u.source.Pins? then Collected(u.messages) else Last(log, Pins)
    ensures InfosAfter(log + [u]) == NextInfos(InfosAfter(log), Listing(log + [u]))
  {
    assert (log + [u])[..|log + [u]| - 1] == log;
  }

  lemma {:induction false} InfoKeys(log: seq<Update>)
    ensures InfosAfter(log).Keys == Listing(log).Keys
    ensures Gathered(Listing(log))
  {
    LastGathered(log, History);
    LastGathered(log, Pins);
  }

  lemma {:induction false} LastGathered(log: seq<Update>, source: Source)
    ensures Gathered(Last(log, source))
  {
    if log != [] {
      CollectedGathered(log[|log| - 1].messages);
      LastGathered(log[..|log| - 1], source);
    }
  }

  lemma SincePrefix(log: seq<Update>, k: nat, id: Str)
    requires k < |log|
    ensures log[..|log| - 1][..k] == log[..k]
    ensures ListedSince(log, k, id) <==> ListedSince(log[..|log| - 1], k, id) && id in Listing(log)
  {
    var n := |log| - 1;
    assert log[..|log|] == log;
    assert forall j :: k <= j <= n ==> log[..n][..j] == log[..j];
  }

  // Since the message was last listed anew, none of its attachments has taken the name.
  predicate Untaken(log: seq<Update>, id: Str) {
    forall k :: 0 <= k <= |log| && ListedSince(log, k, id) ==> !TookName(log, k, id)
  }

  lemma {:induction false} UntakenStep(log: seq<Update>, id: Str)
    requires log != [] && id in Listing(log)
    ensures Untaken(log, id) <==>
            !RendersInfo(Listing(log)[id].attachments) && (id in Listing(log[..|log| - 1]) ==> Untaken(log[..|log| - 1], id))
  {
    hide Listing, RendersInfo;
    var n := |log| - 1;
    var init := log[..n];
    assert log[..|log|] == log && init[..n] == init;
    assert ListedSince(log, |log|, id);
    forall k | 0 <= k <= n
      ensures (ListedSince(log, k, id) <==> ListedSince(init, k, id)) && (TookName(log, k, id) <==> TookName(init, k, id))
      ensures ListedSince(init, k, id) ==> id in Listing(init)
    {
      SincePrefix(log, k, id);
    }
  }

  // A message still has its own info.json exactly when, since it was last listed anew, none of its
  // attachments has been called so.
  lemma {:induction false} InfoExactly(log: seq<Update>, id: Str)
    requires id in Listing(log)
    ensures id in InfosAfter(log) && (InfosAfter(log)[id] <==> Untaken(log, id))
  {
    hide Listing, Untaken, RendersInfo;
    InfoKeys(log);
    InfoKeys(log[..|log| - 1]);
    UntakenStep(log, id);
    if id in Listing(log[..|log| - 1]) {
      InfoExactly(log[..|log| - 1], id);
    }
  }

  lemma LoneListing(m: Message)
    requires Listed(m)
    ensures Collected([m]) == map[m.id := m]
  {
    assert [m][..0] == [];
  }

  lemma TwoListings(m: Message, n: Message)
    requires Listed(m) && Listed(n)
    ensures Listing([Update(History, [m])]) == map[m.id := m]
    ensures Listing([Update(History, [m]), Update(History, [n])]) == map[n.id := n]
  {
    hide Collected, Last, InfosAfter;
    var first, second := Update(History, [m]), Update(History, [n]);
    LoneListing(m);
    LoneListing(n);
    NothingLast();
    ListingStep([], first);
    ListingStep([first], second);
    assert [] + [first] == [first] && [first] + [second] == [first, second];
  }

  lemma NothingLast()
    ensures Last([], History) == map[] && Last([], Pins) == map[]
  {
  }

  lemma LoneFile(filename: Str)
    ensures RendersInfo([Attachment([0x32], filename, 0, None, [], [])]) <==> filename == INFO
  {
    hide RendersInfo;
    var list := [Attachment([0x32], filename, 0, None, [], [])];
    RendersInfoExactly(list);
    assert LoneInfo(list, 0) <==> filename == INFO;
  }

  // An attachment called info.json that has another name in the next listing: nothing is called so any
  // more, and the message's own info.json does not come back.
  lemma InfoIsLost() returns (log: seq<Update>, id: Str)
    ensures id in Listing(log) && id in InfosAfter(log)
    ensures !RendersInfo(Listing(log)[id].attachments) && !InfosAfter(log)[id]
  {
    hide RendersInfo, Listing, InfosAfter;
    id := [0x31];
    var m := Message(id, [Attachment([0x32], INFO, 0, None, [], [])]);
    var n := Message(id, [Attachment([0x32], [0x61], 0, None, [], [])]);
    log := [Update(History, [m]), Update(History, [n])];
    TwoListings(m, n);
    LoneFile(INFO);
    LoneFile([0x61]);
    assert log[..1] == [Update(History, [m])] && log[..2] == log;
    assert ListedSince(log, 1, id) && TookName(log, 1, id);
    InfoExactly(log, id);
  }

  // ------------------------------------------------------------- an index that has run a log

  ghost predicate Ran(index: Index, log: seq<Update>)
    reads index, index.nodes.Values, FilesOf(index.nodes)
  {
    && index.Valid() && index.View() == BuiltIndex(Listing(log)) && Infos(index.nodes) == InfosAfter(log)
    && index.history == Last(log, History) && index.pins == Last(log, Pins)
  }

  // From the end of done through log the message is listed.
  predicate StaysListed(done: seq<Update>, log: seq<Update>, id: Str) {
    forall k :: 0 <= k <= |log| ==> id in Listing(done + log[..k])
  }

  predicate StaysAttached(done: seq<Update>, log: seq<Update>, id: Str, f: Str) {
    forall k :: 0 <= k <= |log| ==>
      id in Listing(done + log[..k]) && f in AttachmentIds(Listing(done + log[..k])[id].attachments)
  }

  // A message that stays listed has its node, and an attachment that stays with it its file.
  ghost predicate SameNodes(before: map<Str, Node>, after: map<Str, Node>, done: seq<Update>, log: seq<Update>) {
    forall id :: id in before && StaysListed(done, log, id) ==> id in after && after[id] == before[id]
  }

  ghost predicate SameFiles(before: map<Str, map<Str, File>>, after: map<Str, map<Str, File>>, done: seq<Update>, log: seq<Update>) {
    forall id, f :: id in before && f in before[id] && StaysAttached(done, log, id, f) ==>
      id in after && f in after[id] && after[id][f] == before[id][f]
  }

  lemma ListedShorter(done: seq<Update>, log: seq<Update>, i: nat, id: Str)
    requires i < |log| && StaysListed(done, log[..i + 1], id)
    ensures StaysListed(done, log[..i], id) && id in Listing(done + log[..i + 1])
  {
    hide Listing;
    var a, b := log[..i], log[..i + 1];
    assert b[..i + 1] == b;
    forall k | 0 <= k <= i ensures id in Listing(done + a[..k]) {
      assert a[..k] == b[..k];
    }
  }

  lemma AttachedShorter(done: seq<Update>, log: seq<Update>, i: nat, id: Str, f: Str)
    requires i < |log| && StaysAttached(done, log[..i + 1], id, f)
    ensures StaysAttached(done, log[..i], id, f)
    ensures var last := Listing(done + log[..i + 1]); id in last && f in AttachmentIds(last[id].attachments)
  {
    hide Listing, AttachmentIds;
    var a, b := log[..i], log[..i + 1];
    assert b[..i + 1] == b;
    forall k | 0 <= k <= i
      ensures id in Listing(done + a[..k]) && f in AttachmentIds(Listing(done + a[..k])[id].attachments)
    {
      assert a[..k] == b[..k];
    }
  }

  lemma SameNodesStep(a: map<Str, Node>, b: map<Str, Node>, c: map<Str, Node>, done: seq<Update>, log: seq<Update>, i: nat)
    requires i < |log| && SameNodes(a, b, done, log[..i]) && c.Keys == Listing(done + log[..i + 1]).Keys
    requires forall id :: id in b && id in c ==> c[id] == b[id]
    ensures SameNodes(a, c, done, log[..i + 1])
  {
    hide Listing, StaysListed;
    forall id | id in a && StaysListed(done, log[..i + 1], id) ensures id in c && c[id] == a[id] {
      ListedShorter(done, log, i, id);
    }
  }

  lemma SameFilesStep(a: map<Str, map<Str, File>>, b: map<Str, map<Str, File>>, c: map<Str, map<Str, File>>,
                      done: seq<Update>, log: seq<Update>, i: nat)
    requires i < |log| && SameFiles(a, b, done, log[..i]) && FilesStay(b, c)
    requires c.Keys == Listing(done + log[..i + 1]).Keys
    requires forall id :: id in c ==> c[id].Keys == AttachmentIds(Listing(done + log[..i + 1])[id].attachments)
    ensures SameFiles(a, c, done, log[..i + 1])
  {
    hide Listing, StaysAttached, AttachmentIds;
    forall id, f | id in a && f in a[id] && StaysAttached(done, log[..i + 1], id, f)
      ensures id in c && f in c[id] && c[id][f] == a[id][f]
    {
      AttachedShorter(done, log, i, id, f);
    }
  }

  // Updates one after the other: the index shows the last history and pins of the whole log, and what
  // stays listed and attached throughout is the same object as before.
  method Replay(index: Index, ghost done: seq<Update>, log: seq<Update>)
    requires Ran(index, done)
    modifies index, index.nodes.Values, FilesOf(index.nodes)
    ensures Ran(index, done + log)
    ensures SameNodes(old(index.nodes), index.nodes, done, log)
    ensures SameFiles(old(Tables(index.nodes)), Tables(index.nodes), done, log)
  {
    hide Index.Valid, Index.View, Listing, InfosAfter, Last, BuiltIndex, NextInfos, Collected, Infos, Tables, FilesOf,
         SameNodes, SameFiles, FilesStay;
    assert done + log[..0] == done;
    ghost var tables := Tables(index.nodes);
    ReplayStart(index.nodes, tables, done, log);
    for i := 0 to |log|
      invariant Ran(index, done + log[..i])
      invariant SameNodes(old(index.nodes), index.nodes, done, log[..i])
      invariant SameFiles(tables, Tables(index.nodes), done, log[..i])
      invariant forall n :: n in index.nodes.Values ==> n in old(index.nodes.Values) || fresh(n)
      invariant forall f :: f in FilesOf(index.nodes) ==> f in old(FilesOf(index.nodes)) || fresh(f)
    {
      ghost var nodes, now := index.nodes, Tables(index.nodes);
      index.Update(log[i].source, log[i].messages);
      ListingStep(done + log[..i], log[i]);
      assert done + log[..i] + [log[i]] == done + log[..i + 1];
      assert index.history + index.pins == Listing(done + log[..i + 1]) by {
        ListingOf(done + log[..i + 1]);
      }
      ViewOf(index);
      FileKeys(index.nodes, Listing(done + log[..i + 1]));
      SameNodesStep(old(index.nodes), nodes, index.nodes, done, log, i);
      SameFilesStep(tables, now, Tables(index.nodes), done, log, i);
    }
    assert log[..|log|] == log;
  }

  lemma ListingOf(log: seq<Update>)
    ensures Listing(log) == Last(log, History) + Last(log, Pins)
  {
  }

  lemma ViewOf(index: Index)
    ensures index.View() == Views(index.nodes)
  {
  }

  lemma ReplayStart(nodes: map<Str, Node>, tables: map<Str, map<Str, File>>, done: seq<Update>, log: seq<Update>)
    ensures SameNodes(nodes, nodes, done, log[..0]) && SameFiles(tables, tables, done, log[..0])
  {
  }

  // A new index has run nothing.
  lemma NewRan(index: Index)
    requires index.Valid() && index.history == map[] && index.pins == map[] && index.nodes == map[]
    ensures Ran(index, [])
  {
    assert index.View() == map[] == BuiltIndex(Listing([]));
  }
}
