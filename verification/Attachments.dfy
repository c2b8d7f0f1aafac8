/** The attachments directory of a conversation: message nodes and their files, kept across updates. */
module Attachments {
  import opened Bytes
  import opened Wrappers
  import opened Names
  import PathNames
  import Utf8

  const INFO: Str := [0x69, 0x6E, 0x66, 0x6F, 0x2E, 0x6A, 0x73, 0x6F, 0x6E] // info.json

  // cells holds the addresses behind the optional fields: Go compares those, not what is stored there.
  datatype Attachment = Attachment(id: Str, filename: Str, size: int, url: Option<Str>, cells: seq<nat>, detail: Str)

  datatype Message = Message(id: Str, attachments: seq<Attachment>)

  function Length(size: int): nat {
    if size < 0 then 0 else size
  }

  function FileIds(list: seq<Attachment>): seq<FileId> {
    seq(|list|, k requires 0 <= k < |list| => FileId(list[k].filename, list[k].id))
  }

  function AttachmentIds(list: seq<Attachment>): (ids: set<Str>)
    ensures forall k :: 0 <= k < |list| ==> list[k].id in ids
  {
    if list == [] then {} else AttachmentIds(list[..|list| - 1]) + {list[|list| - 1].id}
  }

  lemma IdsNothing()
    ensures Ids([]) == {}
  {
  }

  lemma {:induction false} IdsAgree(list: seq<Attachment>)
    ensures Ids(Bases(FileIds(list))) == AttachmentIds(list)
  {
    hide Ids;
    IdsNothing();
    if list != [] {
      var n := |list| - 1;
      var items := Bases(FileIds(list));
      IdsAgree(list[..n]);
      IdsStep(items, n);
      IdsStep(items, n + 1);
      FilesPrefix(list, n);
      assert items[..n + 1] == items;
    } else {
      assert Bases(FileIds(list)) == [];
    }
  }

  lemma FilesPrefix(list: seq<Attachment>, n: nat)
    requires n <= |list|
    ensures Bases(FileIds(list))[..n] == Bases(FileIds(list[..n]))
  {
  }

  function NamesOf(list: seq<Attachment>): (names: map<Str, Str>)
    ensures names.Keys == AttachmentIds(list)
  {
    IdsAgree(list);
    Assigned(Bases(FileIds(list)), BeforeExt)
  }

  function LastAttachment(list: seq<Attachment>, id: Str): (a: Attachment)
    requires id in AttachmentIds(list)
    ensures a.id == id && a in list
  {
    var last := list[|list| - 1];
    if last.id == id then last else LastAttachment(list[..|list| - 1], id)
  }

  lemma ListStep(list: seq<Attachment>, i: nat)
    requires i < |list|
    ensures list[..i + 1][..i] == list[..i] && list[..i + 1][i] == list[i]
    ensures AttachmentIds(list[..i + 1]) == AttachmentIds(list[..i]) + {list[i].id}
  {
    var a := list[..i + 1];
    assert a[..|a| - 1] == list[..i];
  }

  // ------------------------------------------------------------- one file

  datatype Look = Look(name: Str, length: nat, version: nat, attachment: Attachment)

  function NewLook(name: Str, a: Attachment): Look {
    Look(name, Length(a.size), 0, a)
  }

  function Updated(was: Look, name: Str, a: Attachment): Look {
    Look(name, Length(a.size),
         if was.name != name || was.length != Length(a.size) || was.attachment != a then was.version + 1 else was.version, a)
  }

  class File {
    // What it was made for; the attachment it serves keeps this id.
    const message: Str
    const id: Str
    var name: Str
    var length: nat
    var version: nat
    var attachment: Attachment

    function State(): Look
      reads this
    {
      Look(name, length, version, attachment)
    }

    constructor (name: Str, message: Str, attachment: Attachment)
      ensures this.message == message && id == attachment.id && State() == NewLook(name, attachment)
    {
      this.message, this.id, this.name, this.length, this.version, this.attachment :=
        message, attachment.id, name, Length(attachment.size), 0, attachment;
    }

    method Update(name: Str, attachment: Attachment)
      modifies this
      ensures State() == Updated(old(State()), name, attachment)
      ensures this.name == name && this.attachment == attachment && length == if attachment.size < 0 then 0 else attachment.size
      ensures var same := old(this.name) == name && old(length) == length && old(this.attachment) == attachment;
              version == old(version) + if same then 0 else 1
    {
      if this.name != name || length != Length(attachment.size) || this.attachment != attachment {
        this.name := name;
        length := Length(attachment.size);
        version := version + 1;
      }
      this.attachment := attachment;
    }
  }

  // ------------------------------------------------------------- the files of a message

  function Renewal(looks: map<Str, Look>, a: Attachment, name: Str): map<Str, Look> {
    looks[a.id := if a.id in looks then Updated(looks[a.id], name, a) else NewLook(name, a)]
  }

  function Renewed(looks: map<Str, Look>, list: seq<Attachment>, names: map<Str, Str>): map<Str, Look>
    requires AttachmentIds(list) <= names.Keys
  {
    if list == [] then looks
    else
      var last := list[|list| - 1];
      Renewal(Renewed(looks, list[..|list| - 1], names), last, names[last.id])
  }

  // Only the attachments of the latest message stay.
  function Settled(looks: map<Str, Look>, list: seq<Attachment>): map<Str, Look> {
    map id | id in AttachmentIds(list) && id in Renewed(looks, list, NamesOf(list)) :: Renewed(looks, list, NamesOf(list))[id]
  }

  predicate DistinctAttachments(list: seq<Attachment>) {
    forall i, j :: 0 <= i < j < |list| ==> list[i].id != list[j].id
  }

  lemma {:induction false} RenewedMeaning(looks: map<Str, Look>, list: seq<Attachment>, names: map<Str, Str>)
    requires AttachmentIds(list) <= names.Keys
    ensures Renewed(looks, list, names).Keys == looks.Keys + AttachmentIds(list)
    ensures forall id :: id in looks && id !in AttachmentIds(list) ==> Renewed(looks, list, names)[id] == looks[id]
    ensures forall id :: id in AttachmentIds(list) ==>
              var look := Renewed(looks, list, names)[id];
              look.name == names[id] && look.attachment == LastAttachment(list, id) && look.length == Length(look.attachment.size)
  {
    if list != [] {
      RenewedMeaning(looks, list[..|list| - 1], names);
    }
  }

  // Whatever files there were, the listing is the one a fresh index would have: the latest message's
  // attachments, each under its assigned name.
  lemma {:induction false} SettledIsRebuild(looks: map<Str, Look>, list: seq<Attachment>)
    ensures Settled(looks, list).Keys == AttachmentIds(list)
    ensures forall id :: id in AttachmentIds(list) ==>
              Settled(looks, list)[id] == NewLook(NamesOf(list)[id], LastAttachment(list, id)).(version := Settled(looks, list)[id].version)
  {
    hide Renewed, LastAttachment, Assigned, AttachmentIds;
    RenewedMeaning(looks, list, NamesOf(list));
  }

  lemma DistinctInit(list: seq<Attachment>)
    requires DistinctAttachments(list) && list != []
    ensures var n := |list| - 1; DistinctAttachments(list[..n]) && list[n].id !in AttachmentIds(list[..n])
  {
    AbsentId(list[..|list| - 1], list[|list| - 1].id);
  }

  lemma {:induction false} VersionsMove(looks: map<Str, Look>, list: seq<Attachment>, names: map<Str, Str>, k: nat)
    requires AttachmentIds(list) <= names.Keys && DistinctAttachments(list) && k < |list|
    ensures list[k].id in Renewed(looks, list, names)
    ensures Renewed(looks, list, names)[list[k].id] ==
            if list[k].id in looks then Updated(looks[list[k].id], names[list[k].id], list[k]) else NewLook(names[list[k].id], list[k])
  {
    hide Updated, NewLook, LastAttachment, DistinctAttachments;
    var n := |list| - 1;
    RenewedMeaning(looks, list[..n], names);
    DistinctInit(list);
    if k < n {
      VersionsMove(looks, list[..n], names, k);
      assert list[..n][k] == list[k];
    }
  }

  lemma {:induction false} AbsentId(list: seq<Attachment>, id: Str)
    requires forall k :: 0 <= k < |list| ==> list[k].id != id
    ensures id !in AttachmentIds(list)
  {
    if list != [] {
      AbsentId(list[..|list| - 1], id);
    }
  }

  // ------------------------------------------------------------- the directory of a message

  datatype Child = InfoFile | Download(file: File)

  // Entries in the order the attachments come, over the one that was under info.json before.
  function Shelf(slot: Child, list: seq<Attachment>, names: map<Str, Str>, files: map<Str, File>): (shelf: map<Str, Child>)
    requires AttachmentIds(list) <= names.Keys && AttachmentIds(list) <= files.Keys
    ensures INFO in shelf
  {
    if list == [] then map[INFO := slot]
    else
      var last := list[|list| - 1];
      Shelf(slot, list[..|list| - 1], names, files)[names[last.id] := Download(files[last.id])]
  }

  lemma {:induction false} ShelfSame(slot: Child, list: seq<Attachment>, names: map<Str, Str>, files: map<Str, File>, more: map<Str, File>)
    requires AttachmentIds(list) <= names.Keys && AttachmentIds(list) <= files.Keys && AttachmentIds(list) <= more.Keys
    requires forall id :: id in AttachmentIds(list) ==> files[id] == more[id]
    ensures Shelf(slot, list, names, files) == Shelf(slot, list, names, more)
  {
    if list != [] {
      ShelfSame(slot, list[..|list| - 1], names, files, more);
    }
  }

  // One of the attachments is listed as info.json.
  predicate RendersInfo(list: seq<Attachment>) {
    INFO in NamesOf(list).Values
  }

  lemma {:induction false} ShelfMeaning(slot: Child, list: seq<Attachment>, names: map<Str, Str>, files: map<Str, File>)
    requires AttachmentIds(list) <= names.Keys && AttachmentIds(list) <= files.Keys
    ensures forall n :: n in Shelf(slot, list, names, files) && n != INFO ==>
              exists id :: id in AttachmentIds(list) && names[id] == n && Shelf(slot, list, names, files)[n] == Download(files[id])
    ensures forall id :: id in AttachmentIds(list) ==> names[id] in Shelf(slot, list, names, files)
    ensures if exists id :: id in AttachmentIds(list) && names[id] == INFO then
              exists id :: id in AttachmentIds(list) && names[id] == INFO && Shelf(slot, list, names, files)[INFO] == Download(files[id])
            else Shelf(slot, list, names, files)[INFO] == slot
  {
    if list != [] {
      ShelfMeaning(slot, list[..|list| - 1], names, files);
    }
  }

  // Two shelves differ under info.json at most.
  lemma {:induction false} ShelfOff(slot: Child, list: seq<Attachment>, names: map<Str, Str>, files: map<Str, File>)
    requires AttachmentIds(list) <= names.Keys && AttachmentIds(list) <= files.Keys
    ensures Shelf(slot, list, names, files) == Shelf(InfoFile, list, names, files)[INFO := Shelf(slot, list, names, files)[INFO]]
  {
    if list != [] {
      ShelfOff(slot, list[..|list| - 1], names, files);
    }
  }

  // The entries are those of a directory made from nothing unless the slot has been lost, and is not
  // even taken again by a file of the present message.
  lemma ShelfIsRebuild(slot: Child, list: seq<Attachment>, names: map<Str, Str>, files: map<Str, File>)
    requires AttachmentIds(list) <= names.Keys && AttachmentIds(list) <= files.Keys
    ensures Shelf(slot, list, names, files) == Shelf(InfoFile, list, names, files) <==>
            slot == InfoFile || exists id :: id in AttachmentIds(list) && names[id] == INFO
  {
    ShelfMeaning(slot, list, names, files);
    ShelfMeaning(InfoFile, list, names, files);
    ShelfOff(slot, list, names, files);
  }

  predicate Plain(s: Str) {
    forall k :: 0 <= k < |s| ==> SPACE <= s[k] < DEL && s[k] != SLASH && s[k] != PERCENT
  }

  lemma {:induction false} PlainStays(s: Str)
    requires Plain(s)
    ensures PathNames.Escape(s) == s
  {
    if s != [] {
      assert Utf8.Decode(s) == Utf8.Rune(s[0], 1);
      PlainStays(s[1..]);
      assert s == [s[0]] + s[1..];
    }
  }

  lemma NamedInfo(filename: Str)
    ensures PathNames.NameOf(filename) == INFO <==> filename == INFO
  {
    hide PathNames.Escape;
    PlainStays(INFO);
    assert |INFO| == 9;
    PathNames.NameCollision(filename, INFO);
  }

  lemma SuffixedNotInfo(base: Str, id: Str)
    ensures Suffixed(base, id, BeforeExt) != INFO
  {
    assert Suffixed(base, id, BeforeExt)[|Stem(base)|] == TILDE;
  }

  // One attachment, and no other, is called info.json.
  predicate LoneInfo(list: seq<Attachment>, k: nat)
    requires k < |list|
  {
    list[k].filename == INFO && forall j :: 0 <= j < |list| && j != k ==> list[j].filename != INFO
  }

  // When an attachment takes the place of the message's own info.json.
  lemma RendersInfoExactly(list: seq<Attachment>)
    requires DistinctAttachments(list)
    ensures RendersInfo(list) <==> exists k :: 0 <= k < |list| && LoneInfo(list, k)
  {
    var items := Bases(FileIds(list));
    forall k | 0 <= k < |list|
      ensures list[k].id in NamesOf(list) && (NamesOf(list)[list[k].id] == INFO <==> LoneInfo(list, k))
    {
      EntryOf(items, k, BeforeExt);
      SuffixedNotInfo(items[k].base, items[k].id);
      forall j | 0 <= j < |list| ensures items[j].base == INFO <==> list[j].filename == INFO {
        NamedInfo(list[j].filename);
      }
    }
    if RendersInfo(list) {
      var id :| id in NamesOf(list) && NamesOf(list)[id] == INFO;
      var a := LastAttachment(list, id);
      var k :| 0 <= k < |list| && list[k] == a;
      assert LoneInfo(list, k);
    }
    if k :| 0 <= k < |list| && LoneInfo(list, k) {
      assert NamesOf(list)[list[k].id] == INFO;
    }
  }

  // ------------------------------------------------------------- what a message's node shows

  datatype Listing = Listing(message: Str, records: seq<(Str, Attachment)>)

  function Records(list: seq<Attachment>, names: map<Str, Str>): seq<(Str, Attachment)>
    requires AttachmentIds(list) <= names.Keys
  {
    if list == [] then []
    else
      var last := list[|list| - 1];
      Records(list[..|list| - 1], names) + [(names[last.id], last)]
  }

  ghost predicate Owned(files: map<Str, File>, message: Str) {
    forall id :: id in files ==> files[id].id == id && files[id].message == message
  }

  ghost function Looks(files: map<Str, File>): map<Str, Look>
    reads files.Values
  {
    map id | id in files :: files[id].State()
  }

  twostate predicate Survives(new before: map<Str, File>, new after: map<Str, File>) {
    forall id :: id in after ==> if id in before then after[id] == before[id] else fresh(after[id])
  }

  // The file of an attachment, made or brought up to date.
  method Touch(a: Attachment, name: Str, message: Str, files: map<Str, File>) returns (file: File)
    requires Owned(files, message)
    modifies if a.id in files then {files[a.id]} else {}
    ensures file.id == a.id && file.message == message
    ensures if a.id in files then file == files[a.id] else fresh(file)
    ensures Looks(files[a.id := file]) == Renewal(old(Looks(files)), a, name)
  {
    if a.id in files {
      file := files[a.id];
      file.Update(name, a);
    } else {
      file := new File(name, message, a);
    }
  }

  method Walk(list: seq<Attachment>, names: map<Str, Str>, message: Str, slot: Child, cache: map<Str, File>)
    returns (children: map<Str, Child>, files: map<Str, File>, records: seq<(Str, Attachment)>)
    requires Owned(cache, message) && AttachmentIds(list) <= names.Keys
    modifies cache.Values
    ensures Owned(files, message) && files.Keys == cache.Keys + AttachmentIds(list)
    ensures forall id :: id in cache ==> files[id] == cache[id]
    ensures forall id :: id in files && id !in cache ==> fresh(files[id])
    ensures Looks(files) == Renewed(old(Looks(cache)), list, names)
    ensures children == Shelf(slot, list, names, files) && records == Records(list, names)
  {
    hide AttachmentIds, Renewal, Renewed, Shelf, Records, Owned, File.State, Looks;
    children, files, records := map[INFO := slot], cache, [];
    ghost var looks := Looks(cache);
    WalkStart(list, names, slot, files, looks);
    for i := 0 to |list|
      invariant AttachmentIds(list[..i]) <= names.Keys
      invariant Owned(files, message) && files.Keys == cache.Keys + AttachmentIds(list[..i])
      invariant forall id :: id in cache ==> files[id] == cache[id]
      invariant forall id :: id in files && id !in cache ==> fresh(files[id])
      invariant Looks(files) == Renewed(looks, list[..i], names)
      invariant children == Shelf(slot, list[..i], names, files)
      invariant records == Records(list[..i], names)
    {
      var a := list[i];
      assert a.id in AttachmentIds(list);
      var file := Touch(a, names[a.id], message, files);
      OwnedAdd(files, message, file);
      WalkStep(list, i, names, slot, files, file, looks);
      files := files[a.id := file];
      children := children[names[a.id] := Download(file)];
      records := records + [(names[a.id], a)];
    }
    assert list[..|list|] == list;
  }

  lemma WalkStart(list: seq<Attachment>, names: map<Str, Str>, slot: Child, files: map<Str, File>, looks: map<Str, Look>)
    ensures AttachmentIds(list[..0]) == {} && Shelf(slot, list[..0], names, files) == map[INFO := slot]
    ensures Renewed(looks, list[..0], names) == looks && Records(list[..0], names) == []
  {
  }

  lemma WalkStep(list: seq<Attachment>, i: nat, names: map<Str, Str>, slot: Child, files: map<Str, File>, file: File, looks: map<Str, Look>)
    requires i < |list| && list[i].id in names && AttachmentIds(list[..i]) <= names.Keys && AttachmentIds(list[..i]) <= files.Keys
    requires list[i].id in files ==> files[list[i].id] == file
    ensures AttachmentIds(list[..i + 1]) == AttachmentIds(list[..i]) + {list[i].id}
    ensures Shelf(slot, list[..i + 1], names, files[list[i].id := file]) ==
            Shelf(slot, list[..i], names, files)[names[list[i].id] := Download(file)]
    ensures Renewed(looks, list[..i + 1], names) == Renewal(Renewed(looks, list[..i], names), list[i], names[list[i].id])
    ensures Records(list[..i + 1], names) == Records(list[..i], names) + [(names[list[i].id], list[i])]
  {
    hide Renewal;
    ListStep(list, i);
    ShelfSame(slot, list[..i], names, files, files[list[i].id := file]);
  }

  lemma OwnedAdd(files: map<Str, File>, message: Str, file: File)
    requires Owned(files, message) && file.message == message
    ensures Owned(files[file.id := file], message)
  {
  }

  // ------------------------------------------------------------- the node of a message

  // entries says which attachment each name leads to, info.json aside.
  datatype NodeView = NodeView(info: Option<Listing>, files: map<Str, Look>, entries: map<Str, Str>)

  function EntryIds(children: map<Str, Child>): map<Str, Str> {
    map n | n in children && n != INFO && children[n].Download? :: children[n].file.id
  }

  function Named(list: seq<Attachment>, names: map<Str, Str>): map<Str, Str>
    requires AttachmentIds(list) <= names.Keys
  {
    if list == [] then map[]
    else
      var last := list[|list| - 1];
      Named(list[..|list| - 1], names)[names[last.id] := last.id]
  }

  lemma ShelfNamedStep(shelf: map<Str, Child>, named: map<Str, Str>, n: Str, file: File)
    requires EntryIds(shelf) == named - {INFO}
    ensures EntryIds(shelf[n := Download(file)]) == named[n := file.id] - {INFO}
  {
    assert forall k :: k in shelf && k != INFO && shelf[k].Download? <==> k in named - {INFO};
    forall k | k in named - {INFO} ensures EntryIds(shelf)[k] == named[k] {
    }
  }

  lemma {:induction false} ShelfNamed(slot: Child, list: seq<Attachment>, names: map<Str, Str>, files: map<Str, File>)
    requires AttachmentIds(list) <= names.Keys && AttachmentIds(list) <= files.Keys
    requires forall id :: id in files ==> files[id].id == id
    ensures EntryIds(Shelf(slot, list, names, files)) == Named(list, names) - {INFO}
  {
    if list == [] {
      assert EntryIds(map[INFO := slot]) == map[];
    } else {
      var init, last := list[..|list| - 1], list[|list| - 1];
      ShelfNamed(slot, init, names, files);
      ShelfNamedStep(Shelf(slot, init, names, files), Named(init, names), names[last.id], files[last.id]);
    }
  }

  // Files as they show, their versions aside.
  function Visible(looks: map<Str, Look>): map<Str, Look> {
    map id | id in looks :: looks[id].(version := 0)
  }

  function BuiltFiles(list: seq<Attachment>): map<Str, Look> {
    map id | id in AttachmentIds(list) :: NewLook(NamesOf(list)[id], LastAttachment(list, id))
  }

  function BuiltNode(m: Message): NodeView {
    var names := NamesOf(m.attachments);
    NodeView(Some(Listing(m.id, Records(m.attachments, names))), BuiltFiles(m.attachments), Named(m.attachments, names) - {INFO})
  }

  // Another attachment's file name is spelled the same once escaped.
  predicate FilenameShared(list: seq<Attachment>, k: nat)
    requires k < |list|
  {
    exists j :: 0 <= j < |list| && list[j].id != list[k].id && PathNames.NameOf(list[j].filename) == PathNames.NameOf(list[k].filename)
  }

  // With distinct ids each attachment's file goes by its escaped file name, with a suffix exactly when another
  // one has it too, and shows the attachment as the message has it.
  lemma FileShown(m: Message, k: nat)
    requires DistinctAttachments(m.attachments) && k < |m.attachments|
    ensures var a := m.attachments[k];
            && a.id in BuiltNode(m).files
            && BuiltNode(m).files[a.id].attachment == a && BuiltNode(m).files[a.id].version == 0
            && BuiltNode(m).files[a.id].length == (if a.size < 0 then 0 else a.size)
            && var base := PathNames.NameOf(a.filename);
               BuiltNode(m).files[a.id].name == if FilenameShared(m.attachments, k) then Suffixed(base, a.id, BeforeExt) else base
  {
    hide PathNames.NameOf, Suffixed, Assigned, Records, Named;
    var list := m.attachments;
    var items := Bases(FileIds(list));
    LastAttachmentAt(list, k);
    EntryOf(items, k, BeforeExt);
    if Repeated(items, k) {
      var j :| 0 <= j < |items| && j != k && items[j].base == items[k].base;
      assert list[j].id != list[k].id;
    }
    if FilenameShared(list, k) {
      var j :| 0 <= j < |list| && list[j].id != list[k].id && PathNames.NameOf(list[j].filename) == PathNames.NameOf(list[k].filename);
      assert items[j].base == items[k].base;
    }
  }

  lemma {:induction false} LastAttachmentAt(list: seq<Attachment>, k: nat)
    requires DistinctAttachments(list) && k < |list|
    ensures LastAttachment(list, list[k].id) == list[k]
  {
    if k < |list| - 1 {
      assert list[..|list| - 1][k] == list[k];
      LastAttachmentAt(list[..|list| - 1], k);
    }
  }

  // A message's own info.json has one record for each attachment, in order: the name of its file, and itself.
  lemma InfoShown(m: Message)
    ensures BuiltNode(m).info.Some? && BuiltNode(m).info.value.message == m.id
    ensures |BuiltNode(m).info.value.records| == |m.attachments|
    ensures forall k :: 0 <= k < |m.attachments| ==>
              && m.attachments[k].id in BuiltNode(m).files
              && BuiltNode(m).info.value.records[k] == (BuiltNode(m).files[m.attachments[k].id].name, m.attachments[k])
  {
    hide NamesOf, LastAttachment, Named;
    RecordsAt(m.attachments, NamesOf(m.attachments));
  }

  lemma {:induction false} RecordsAt(list: seq<Attachment>, names: map<Str, Str>)
    requires AttachmentIds(list) <= names.Keys
    ensures |Records(list, names)| == |list|
    ensures forall k :: 0 <= k < |list| ==> list[k].id in names && Records(list, names)[k] == (names[list[k].id], list[k])
  {
    if list != [] {
      RecordsAt(list[..|list| - 1], names);
    }
  }

  // A node has a file for each attachment; its entries lead to the files of their names, info.json aside.
  lemma EntriesShown(m: Message)
    ensures forall id :: id in BuiltNode(m).files <==> exists k :: 0 <= k < |m.attachments| && m.attachments[k].id == id
    ensures forall n :: n in BuiltNode(m).entries ==>
              && n != INFO && BuiltNode(m).entries[n] in BuiltNode(m).files
              && BuiltNode(m).files[BuiltNode(m).entries[n]].name == n
    ensures forall id :: id in BuiltNode(m).files ==>
              var n := BuiltNode(m).files[id].name; n == INFO || n in BuiltNode(m).entries
  {
    hide NamesOf, LastAttachment, Records;
    NamedMeaning(m.attachments, NamesOf(m.attachments));
    forall id ensures id in AttachmentIds(m.attachments) <==> exists k :: 0 <= k < |m.attachments| && m.attachments[k].id == id {
      AttachmentIdsMeaning(m.attachments, id);
    }
  }

  lemma {:induction false} AttachmentIdsMeaning(list: seq<Attachment>, id: Str)
    ensures id in AttachmentIds(list) <==> exists k :: 0 <= k < |list| && list[k].id == id
  {
    if list != [] {
      var n := |list| - 1;
      AttachmentIdsMeaning(list[..n], id);
      if id in AttachmentIds(list[..n]) {
        var k :| 0 <= k < n && list[..n][k].id == id;
        assert list[k].id == id;
      }
    }
  }

  lemma {:induction false} NamedMeaning(list: seq<Attachment>, names: map<Str, Str>)
    requires AttachmentIds(list) <= names.Keys
    ensures forall n :: n in Named(list, names) ==> Named(list, names)[n] in AttachmentIds(list) && names[Named(list, names)[n]] == n
    ensures forall id :: id in AttachmentIds(list) ==> names[id] in Named(list, names)
  {
    if list != [] {
      NamedMeaning(list[..|list| - 1], names);
    }
  }

  lemma FilesAreRebuilt(looks: map<Str, Look>, list: seq<Attachment>)
    ensures Visible(Settled(looks, list)) == BuiltFiles(list)
  {
    SettledIsRebuild(looks, list);
  }

  function Left<T>(files: map<Str, T>, active: set<Str>): map<Str, T> {
    map id | id in files && id in active :: files[id]
  }

  // The entries are the message's attachments over what was filed as info.json before.
  predicate Shelved(children: map<Str, Child>, was: map<Str, Child>, files: map<Str, File>, list: seq<Attachment>) {
    && INFO in was && files.Keys == AttachmentIds(list)
    && children == Shelf(was[INFO], list, NamesOf(list), files)
  }

  class Node {
    const id: Str
    var info: Option<Listing>
    var children: map<Str, Child>
    var files: map<Str, File>

    ghost predicate Valid()
      reads this
    {
      Owned(files, id) && INFO in children
    }

    ghost function View(): NodeView
      reads this, files.Values
    {
      NodeView(info, Visible(Looks(files)), EntryIds(children))
    }

    // info.json still leads to the message's own listing.
    ghost predicate Kept()
      reads this
    {
      INFO in children && children[INFO] == InfoFile
    }

    constructor (id: Str)
      ensures Valid() && Kept() && this.id == id && info == None && files == map[]
    {
      this.id, info, children, files := id, None, map[INFO := InfoFile], map[];
    }

    method Reconcile(m: Message)
      requires Valid() && m.id == id
      modifies this, files.Values
      ensures Valid() && View() == BuiltNode(m)
      ensures Survives(old(files), files) && Looks(files) == Settled(old(Looks(files)), m.attachments)
      ensures Shelved(children, old(children), files, m.attachments)
      ensures Kept() <==> old(Kept()) && !RendersInfo(m.attachments)
    {
      hide Owned, Looks, Shelf, Records, Visible, EntryIds, Named, Settled, BuiltFiles, Renewed, AttachmentIds, Assigned, RendersInfo;
      var list, slot := m.attachments, children[INFO];
      ghost var looks := Looks(files);
      var names := AttachmentNames(FileIds(list));
      assert names == NamesOf(list);
      ghost var was := files;
      var all, records;
      children, all, records := Walk(list, names, id, slot, files);
      files := Left(all, AttachmentIds(list));
      info := Some(Listing(id, records));
      LeftFiles(all, list, id, looks, slot);
      FilesAreRebuilt(looks, list);
      SlotKept(slot, list, files);
    }
  }

  lemma {:induction false} LeftFiles(all: map<Str, File>, list: seq<Attachment>, message: Str, looks: map<Str, Look>, slot: Child)
    requires Owned(all, message) && AttachmentIds(list) <= all.Keys && Looks(all) == Renewed(looks, list, NamesOf(list))
    ensures var files := Left(all, AttachmentIds(list));
            && Owned(files, message) && files.Keys == AttachmentIds(list)
            && Looks(files) == Settled(looks, list)
            && Shelf(slot, list, NamesOf(list), files) == Shelf(slot, list, NamesOf(list), all)
            && EntryIds(Shelf(slot, list, NamesOf(list), files)) == Named(list, NamesOf(list)) - {INFO}
  {
    hide AttachmentIds, Assigned, Renewed, File.State;
    ShelfSame(slot, list, NamesOf(list), all, Left(all, AttachmentIds(list)));
    ShelfNamed(slot, list, NamesOf(list), Left(all, AttachmentIds(list)));
  }

  lemma SlotKept(slot: Child, list: seq<Attachment>, files: map<Str, File>)
    requires AttachmentIds(list) <= files.Keys
    ensures Shelf(slot, list, NamesOf(list), files)[INFO] == InfoFile <==> slot == InfoFile && !RendersInfo(list)
  {
    ShelfMeaning(slot, list, NamesOf(list), files);
  }
}
