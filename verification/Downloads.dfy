/** Reading an attachment: one ranged download that follows the reader, and one refresh of a stale link. */
module Downloads {
  import opened Bytes
  import opened Wrappers
  import opened Attachments

  const MAX_OFFSET: nat := 0x7FFF_FFFF_FFFF_FFFF

  // What comes of one request: a body, an answer with an error status, or no answer.
  datatype Answer = Served(partial: bool, bytes: Str) | Refused(status: nat) | Broken

  // An update of the index that gets in between: the name and the attachment it gives the file.
  datatype Rename = Rename(name: Str, attachment: Attachment)

  // What the outside does while one read is served: the first download, whether the conversation has
  // a channel, the message as it is now, and the download by its fresh link; also an update of the
  // index while the message is fetched, and one after the file's name has been read.
  datatype World = World(first: Answer, channel: bool, message: Option<seq<Attachment>>, second: Answer,
                         early: Option<Rename>, late: Option<Rename>)

  // The index keeps a file's id.
  predicate Orderly(w: World, id: Str) {
    && (w.early.Some? ==> w.early.value.attachment.id == id)
    && (w.late.Some? ==> w.late.value.attachment.id == id)
  }

  function Disturbed(look: Look, r: Option<Rename>): Look {
    if r.Some? then Updated(look, r.value.name, r.value.attachment) else look
  }

  // What the file looks like after a look at the message that found a: its old name is put back.
  function Fetched(look: Look, w: World, a: Option<Attachment>): Look {
    var early := Disturbed(look, w.early);
    if a.Some? then Updated(Disturbed(early, w.late), early.name, a.value) else early
  }

  // The name the index has the file under once the read is through.
  function Entry(look: Look, w: World): Str {
    Disturbed(Disturbed(look, w.early), w.late).name
  }

  // The file goes by the name of its entry, unless an update changed the name after it was read.
  lemma NamedAsFiled(look: Look, w: World, a: Attachment)
    ensures Fetched(look, w, Some(a)).name == Entry(look, w) <==>
            (w.late.Some? ==> w.late.value.name == Disturbed(look, w.early).name)
  {
  }

  // And then it does not: the file reports the old name under the new entry.
  lemma StaleName(look: Look, name: Str, a: Attachment, answer: Answer)
    requires name != look.name
    ensures var w := World(answer, true, Some([a]), answer, None, Some(Rename(name, look.attachment)));
            Fetched(look, w, Some(a)).name == look.name && Entry(look, w) == name
  {
  }

  datatype Failure = TooLarge | NoLink | NoChannel | NoMessage | Gone | Failed | Interrupted

  // A body that does not start where it was asked to is turned down.
  function Accepted(answer: Answer, offset: nat): Option<Str> {
    if answer.Served? && (offset == 0 || answer.partial) then Some(answer.bytes) else None
  }

  predicate Stale(answer: Answer) {
    answer.Refused? && (answer.status == 401 || answer.status == 403 || answer.status == 404)
  }

  predicate Linked(a: Attachment) {
    a.url.Some? && a.url.value != []
  }

  // The server sends the attachment's bytes from where it says it does.
  predicate Honest(content: Str, offset: nat, answer: Answer) {
    Accepted(answer, offset).Some? ==> offset <= |content| && answer.bytes == content[offset..]
  }

  function FirstWith(list: seq<Attachment>, id: Str): Option<Attachment> {
    if list == [] then None else if list[0].id == id then Some(list[0]) else FirstWith(list[1..], id)
  }

  method Find(list: seq<Attachment>, id: Str) returns (a: Option<Attachment>)
    ensures a == FirstWith(list, id)
  {
    for i := 0 to |list|
      invariant FirstWith(list, id) == FirstWith(list[i..], id)
    {
      if list[i].id == id {
        return Some(list[i]);
      }
      assert list[i..][1..] == list[i + 1..];
    }
    assert list[|list|..] == [];
    a := None;
  }

  // What finding the attachment in the message comes to: the first that has the id, or nothing.
  lemma {:induction false} FirstWithMeaning(list: seq<Attachment>, id: Str)
    ensures match FirstWith(list, id)
            case Some(a) => a.id == id && exists k :: 0 <= k < |list| && list[k] == a && forall j :: 0 <= j < k ==> list[j].id != id
            case None => forall k :: 0 <= k < |list| ==> list[k].id != id
  {
    if list != [] && list[0].id != id {
      FirstWithMeaning(list[1..], id);
      if FirstWith(list, id).Some? {
        var k :| 0 <= k < |list[1..]| && list[1..][k] == FirstWith(list, id).value
                 && forall j :: 0 <= j < k ==> list[1..][j].id != id;
        assert list[k + 1] == FirstWith(list, id).value;
        forall j | 0 <= j < k + 1 ensures list[j].id != id {
          assert j > 0 ==> list[j] == list[1..][j - 1];
        }
      } else {
        forall j | 0 <= j < |list| ensures list[j].id != id {
          assert j > 0 ==> list[j] == list[1..][j - 1];
        }
      }
    }
  }

  // The attachment with this id in the message as it is now.
  function Found(w: World, id: Str): Option<Attachment> {
    if w.message.Some? then FirstWith(w.message.value, id) else None
  }

  ghost predicate HasUrl(a: Attachment) {
    a.url.Some? && |a.url.value| > 0
  }

  // The message still has the attachment, and a link for it.
  ghost predicate Relinked(w: World, id: Str) {
    Found(w, id).Some? && HasUrl(Found(w, id).value)
  }

  // The answers that say a link no longer holds.
  ghost predicate IsGone(answer: Answer) {
    answer.Refused? && answer.status in {401, 403, 404}
  }

  // A body, and one that starts at the offset.
  ghost predicate Answers(answer: Answer, offset: nat) {
    answer.Served? && (offset == 0 || answer.partial)
  }

  // What the body hands over when it is read: up to some number of bytes, perhaps with an error.
  datatype Delivery = Delivery(most: nat, broken: bool)

  // One open of one attachment file; content is what its links serve.
  class Reader {
    const file: File
    ghost const content: Str
    var body: Option<Str>
    var closed: bool
    var offset: nat

    // The bytes still to come are those from the reader's offset on.
    ghost predicate Valid()
      reads this
    {
      body.Some? ==> offset <= |content| && body.value == content[offset..]
    }

    constructor (file: File, ghost content: Str)
      ensures Valid() && this.file == file && this.content == content && body == None
    {
      this.file, this.content, body, closed, offset := file, content, None, false, 0;
    }

    method Meanwhile(r: Option<Rename>)
      modifies file
      ensures file.State() == Disturbed(old(file.State()), r)
    {
      if r.Some? {
        file.Update(r.value.name, r.value.attachment);
      }
    }

    // One look at the message exactly when the link is missing or the server says it no longer holds; a
    // download for the link there was and one for a fresh link. The last of them decides. The file goes by
    // the name of its entry afterwards, unless an update changed the name after it was read.
    method Open(offset: nat, w: World) returns (got: Result<Str, Failure>, gets: nat, asks: nat)
      requires Orderly(w, file.attachment.id)
      modifies file
      ensures asks == if w.channel && (!HasUrl(old(file.attachment)) || IsGone(w.first)) then 1 else 0
      ensures asks == 0 ==> file.State() == old(file.State())
      ensures asks == 1 ==> file.State() == Fetched(old(file.State()), w, Found(w, old(file.attachment.id)))
      ensures asks == 1 && Found(w, old(file.attachment.id)).Some? ==>
                && file.attachment == Found(w, old(file.attachment.id)).value
                && file.name == (if w.early.Some? then w.early.value.name else old(file.name))
                && (file.name == Entry(old(file.State()), w) <==> (w.late.Some? ==> w.late.value.name == file.name))
      ensures gets == (if HasUrl(old(file.attachment)) then 1 else 0) +
                      (if asks == 1 && Relinked(w, old(file.attachment.id)) then 1 else 0)
      ensures asks == 0 ==> got.Ok? == (HasUrl(old(file.attachment)) && Answers(w.first, offset))
      ensures asks == 1 ==> got.Ok? == (Relinked(w, old(file.attachment.id)) && Answers(w.second, offset))
      ensures got.Ok? ==> got.value == (if asks == 0 then w.first else w.second).bytes
    {
      gets, asks := 0, 0;
      if Linked(file.attachment) {
        gets := 1;
        var bytes := Accepted(w.first, offset);
        if bytes.Some? {
          return Ok(bytes.value), gets, asks;
        }
        if !Stale(w.first) {
          return Err(Failed), gets, asks;
        }
      }
      if !w.channel {
        return Err(NoChannel), gets, asks;
      }
      asks := 1;
      Meanwhile(w.early);
      if w.message.None? {
        return Err(NoMessage), gets, asks;
      }
      var id, name := file.attachment.id, file.name;
      var a := Find(w.message.value, id);
      if a.None? {
        return Err(Gone), gets, asks;
      }
      Meanwhile(w.late);
      file.Update(name, a.value);
      if !Linked(file.attachment) {
        return Err(NoLink), gets, asks;
      }
      gets := gets + 1;
      var bytes := Accepted(w.second, offset);
      got := if bytes.Some? then Ok(bytes.value) else Err(Failed);
    }

    // One read of the body in place. A closed one gives an error.
    method Deliver(count: nat, d: Delivery) returns (data: Result<Str, Failure>)
      requires Valid() && body.Some?
      modifies this`body, this`offset
      ensures Valid() && body.Some?
      ensures data.Err? <==> closed || d.broken
      ensures data.Err? ==> data.error == Interrupted
      ensures data.Ok? ==>
                |data.value| <= count && offset == old(offset) + |data.value| && data.value == content[old(offset)..offset]
      ensures data == Ok([]) ==> count == 0 || d.most == 0 || old(offset) == |content|
    {
      if closed {
        return Err(Interrupted);
      }
      var n := if d.most < count then d.most else count;
      if n > |body.value| {
        n := |body.value|;
      }
      data := if d.broken then Err(Interrupted) else Ok(body.value[..n]);
      body, offset := Some(body.value[n..]), offset + n;
    }

    // Whatever the reads before it, a read that yields bytes yields the attachment's from its offset on,
    // and one that carries on where the last one ended asks nobody. After a failed move to another
    // offset the old body is closed but still in place, so that carrying on from it fails.
    method Read(at: nat, count: nat, d: Delivery, w: World) returns (data: Result<Str, Failure>, gets: nat, asks: nat)
      requires Valid() && Honest(content, at, w.first) && Honest(content, at, w.second)
      requires Orderly(w, file.attachment.id)
      modifies this`body, this`closed, this`offset, file
      ensures Valid()
      ensures data.Ok? ==> |data.value| <= count
      ensures data.Ok? && data.value != [] ==> at + |data.value| <= |content| && data.value == content[at..at + |data.value|]
      ensures data.Ok? && data.value == [] ==> count == 0 || d.most == 0 || at == |content|
      ensures data.Ok? && count > 0 ==> body.Some? && !closed && offset == at + |data.value|
      ensures 0 < count && at < 0x8000_0000_0000_0000 && old(body).Some? && old(offset) == at ==>
                gets == 0 && asks == 0 && (data.Err? <==> old(closed) || d.broken)
      ensures 0 < count && at < 0x8000_0000_0000_0000 && !(old(body).Some? && old(offset) == at) ==>
                && asks == (if w.channel && (!HasUrl(old(file.attachment)) || IsGone(w.first)) then 1 else 0)
                && (data.Ok? <==>
                    && !d.broken
                    && (if asks == 0 then HasUrl(old(file.attachment)) && Answers(w.first, at)
                        else Relinked(w, old(file.attachment.id)) && Answers(w.second, at)))
      ensures count == 0 ==> data == Ok([])
      ensures count > 0 && at >= 0x8000_0000_0000_0000 ==> data == Err(TooLarge)
      ensures 0 < count && at < 0x8000_0000_0000_0000 && data.Err? && data.error != Interrupted ==>
                body == old(body) && offset == old(offset) && (body.Some? ==> closed)
    {
      gets, asks := 0, 0;
      if count == 0 {
        return Ok([]), gets, asks;
      }
      if at > MAX_OFFSET {
        return Err(TooLarge), gets, asks;
      }
      if body.None? || offset != at {
        if body.Some? {
          closed := true;
        }
        var got;
        got, gets, asks := Open(at, w);
        if got.Err? {
          return Err(got.error), gets, asks;
        }
        body, closed, offset := Some(got.value), false, at;
      }
      data := Deliver(count, d);
    }
  }
}
