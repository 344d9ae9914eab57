/**
  The route handlers of the ideas server over an in-memory store: the three
  tables, the set of blob names in the uploads directory, and a clock that
  `CURRENT_TIMESTAMP` reads. Each POST handler is a method that changes the
  store; the GET handlers only read it and are functions of it.

  What the handlers cannot see is passed in: the identifier `uuidv4()` would
  return, and how far the clock has moved since the last write. A handler is
  not told that an identifier is fresh; when it is not, the `INSERT` fails on
  the primary key and the handler answers 500, as the server would.
 */
module Server {
  import opened Wrappers
  import opened Text
  import opened Ordering
  import opened Tables

  /** A response: a status with a JSON body, or a status with `{ error }`. */
  datatype Reply<T> = Ok(status: nat, value: T) | Err(status: nat, error: string)

  /** What multer hands the upload handler: the client's file name, its
      reported MIME type and its size in bytes. */
  datatype UploadedFile = UploadedFile(originalName: string, mimetype: string, size: nat)

  /** `res.download(path, name)`: the blob that is sent and the name the
      client is told to save it under. */
  datatype Served = Served(filename: string, downloadName: string)

  const TitleRequired := "Title is required"
  const NoteContentRequired := "Note content is required"
  const NoFileUploaded := "No file uploaded"
  const IdeaNotFound := "Idea not found"
  const AttachmentNotFound := "Attachment not found"
  const FileNotFound := "File not found"

  /** The error messages of SQLite when an `INSERT` repeats a primary key. */
  const Unique := "SQLITE_CONSTRAINT: UNIQUE constraint failed: "
  const IdeaIdTaken := Unique + "ideas.id"
  const NoteIdTaken := Unique + "notes.id"
  const AttachmentIdTaken := Unique + "attachments.id"

  /** The test `!x || x.trim() === ''` on a request field: absent, empty or
      only white space. */
  predicate Blank(x: Option<string>)
  {
    x.None? || Trim(x.value) == []
  }

  /** `description ? description.trim() : ''`. */
  function DescriptionOf(description: Option<string>): (d: string)
    ensures d == [] <==> Blank(description)
    ensures description.Some? ==> TrimmedAt(description.value, d, LeadingSpace(description.value))
    ensures description.Some? ==> Tight(d)
  {
    if description.None? then [] else Trim(description.value)
  }

  /** The name multer stores an upload under: a fresh identifier followed by
      the extension of the client's file name. */
  function StoredFilename(uuid: string, originalName: string): (name: string)
    ensures StartsWith(name, uuid)
    ensures name[|uuid|..] == Extname(originalName)
  {
    var name := uuid + Extname(originalName);
    assert name[..|uuid|] == uuid;
    name
  }

  /** A stored name keeps the original's extension, provided the identifier
      has no '.' of its own (a UUID has none). */
  lemma StoredFilenameKeepsExtension(uuid: string, originalName: string)
    requires uuid != [] && forall j :: 0 <= j < |uuid| ==> uuid[j] != '.'
    ensures Extname(StoredFilename(uuid, originalName)) == Extname(originalName)
  {
    ExtnameOfStemPlusExt(uuid, originalName);
  }

  /** The invariant of the store: primary keys are unique and no row
      carries a time later than `clock`. */
  predicate Consistent(ideas: seq<Idea>, notes: seq<Note>, attachments: seq<Attachment>, clock: nat)
  {
    && UniqueKeys(ideas, IdeaKey)
    && UniqueKeys(notes, NoteKey)
    && UniqueKeys(attachments, AttachmentKey)
    && (forall k :: 0 <= k < |ideas| ==> ideas[k].createdAt <= clock && ideas[k].updatedAt <= clock)
    && (forall k :: 0 <= k < |notes| ==> notes[k].createdAt <= clock)
    && (forall k :: 0 <= k < |attachments| ==> attachments[k].createdAt <= clock)
  }

  /** A vote keeps the store consistent. */
  lemma VoteConsistent(ideas: seq<Idea>, notes: seq<Note>, attachments: seq<Attachment>, clock: nat, id: string, now: nat)
    requires Consistent(ideas, notes, attachments, clock) && clock <= now
    ensures Consistent(VoteRows(ideas, id, now), notes, attachments, now)
  {
    VoteRowsKeeps(ideas, id, now, clock);
  }

  /** Creating an idea with a fresh id, stamped now, keeps the store
      consistent, and the new row is the one its id finds. */
  lemma IdeaAdded(ideas: seq<Idea>, notes: seq<Note>, attachments: seq<Attachment>, clock: nat, x: Idea, now: nat)
    requires Consistent(ideas, notes, attachments, clock) && clock <= now
    requires x.createdAt == now && x.updatedAt == now
    requires InsertRow(ideas, IdeaKey, x).Some?
    ensures Consistent(ideas + [x], notes, attachments, now)
    ensures Lookup(ideas + [x], IdeaKey, x.id) == Some(x)
  {
    InsertRowLookup(ideas, IdeaKey, x);
    var t := ideas + [x];
    assert forall k :: 0 <= k < |t| ==> t[k] == x || t[k] == ideas[k];
  }

  /** Adding a note with a fresh id, stamped now, keeps the store consistent. */
  lemma NoteAdded(ideas: seq<Idea>, notes: seq<Note>, attachments: seq<Attachment>, clock: nat, n: Note, now: nat)
    requires Consistent(ideas, notes, attachments, clock) && clock <= now
    requires n.createdAt == now
    requires InsertRow(notes, NoteKey, n).Some?
    ensures Consistent(ideas, notes + [n], attachments, now)
    ensures Lookup(notes + [n], NoteKey, n.id) == Some(n)
  {
    InsertRowLookup(notes, NoteKey, n);
    var t := notes + [n];
    assert forall k :: 0 <= k < |t| ==> t[k] == n || t[k] == notes[k];
  }

  /** Recording an attachment with a fresh id, stamped now, keeps the store
      consistent. */
  lemma AttachmentAdded(ideas: seq<Idea>, notes: seq<Note>, attachments: seq<Attachment>, clock: nat, a: Attachment, now: nat)
    requires Consistent(ideas, notes, attachments, clock) && clock <= now
    requires a.createdAt == now
    requires InsertRow(attachments, AttachmentKey, a).Some?
    ensures Consistent(ideas, notes, attachments + [a], now)
    ensures Lookup(attachments + [a], AttachmentKey, a.id) == Some(a)
  {
    InsertRowLookup(attachments, AttachmentKey, a);
    var t := attachments + [a];
    assert forall k :: 0 <= k < |t| ==> t[k] == a || t[k] == attachments[k];
  }

  /** The store behind the server: the `ideas`, `notes` and `attachments`
      tables, the names of the files in the uploads directory, and the
      current reading of the clock. */
  class Database {
    var ideas: seq<Idea>
    var notes: seq<Note>
    var attachments: seq<Attachment>
    var blobs: set<string>
    var clock: nat

    predicate Valid()
      reads this
    {
      Consistent(ideas, notes, attachments, clock)
    }

    /** An empty database and an empty uploads directory. */
    constructor ()
      ensures Valid()
      ensures ideas == [] && notes == [] && attachments == [] && blobs == {} && clock == 0
    {
      ideas, notes, attachments, blobs, clock := [], [], [], {}, 0;
    }

    /** `GET /api/ideas`: every idea once, with the number of its notes and
        attachments, by votes and then by creation time, both descending. */
    function ListIdeas(): (r: Reply<seq<Summary>>)
      reads this
      ensures r.Ok? && r.status == 200
      ensures |r.value| == |ideas| && multiset(IdeasOf(r.value)) == multiset(ideas)
      ensures SortedDesc(r.value, SummaryRank)
      ensures Valid() ==> forall k :: 0 <= k < |r.value| ==>
                r.value[k].noteCount == |NotesOf(notes, r.value[k].idea.id)|
                && r.value[k].attachmentCount == |AttachmentsOf(attachments, r.value[k].idea.id)|
    {
      Ok(200, Listing(ideas, notes, attachments))
    }

    /** `GET /api/ideas/:id`: 404 for an unknown id; otherwise the idea with
        exactly the notes and the attachments that reference it, newest
        first. */
    function GetIdea(id: string): (r: Reply<Detail>)
      reads this
      ensures r.Err? <==> Lookup(ideas, IdeaKey, id).None?
      ensures r.Err? ==> r == Err(404, IdeaNotFound)
      ensures r.Ok? ==> r.status == 200 && Lookup(ideas, IdeaKey, id) == Some(r.value.idea)
      ensures r.Ok? ==> multiset(r.value.notes) == multiset(NotesOf(notes, id))
                        && (forall n :: n in r.value.notes <==> n in notes && n.ideaId == id)
                        && SortedDesc(r.value.notes, NoteTime)
      ensures r.Ok? ==> multiset(r.value.attachments) == multiset(AttachmentsOf(attachments, id))
                        && (forall a :: a in r.value.attachments <==> a in attachments && a.ideaId == id)
                        && SortedDesc(r.value.attachments, AttachmentTime)
    {
      match Lookup(ideas, IdeaKey, id)
      case None => Err(404, IdeaNotFound)
      case Some(x) =>
        var ns := SortDesc(NotesOf(notes, id), NoteTime);
        var ats := SortDesc(AttachmentsOf(attachments, id), AttachmentTime);
        assert forall n :: n in ns <==> multiset(ns)[n] > 0;
        assert forall n :: n in notes <==> multiset(notes)[n] > 0;
        assert forall a :: a in ats <==> multiset(ats)[a] > 0;
        assert forall a :: a in attachments <==> multiset(attachments)[a] > 0;
        Ok(200, Detail(x, ns, ats))
    }

    /** `GET /api/attachments/:id/download`: 404 "Attachment not found" for an
        unknown id, 404 "File not found" when the record's blob is gone, and
        otherwise the blob, offered under the name it was uploaded with. */
    function Download(id: string): (r: Reply<Served>)
      reads this
      ensures Lookup(attachments, AttachmentKey, id).None? <==> r == Err(404, AttachmentNotFound)
      ensures Lookup(attachments, AttachmentKey, id).Some? ==>
                var a := Lookup(attachments, AttachmentKey, id).value;
                && (a.filename !in blobs <==> r == Err(404, FileNotFound))
                && (a.filename in blobs <==> r == Ok(200, Served(a.filename, a.originalName)))
    {
      match Lookup(attachments, AttachmentKey, id)
      case None => Err(404, AttachmentNotFound)
      case Some(a) =>
        if a.filename !in blobs then Err(404, FileNotFound)
        else Ok(200, Served(a.filename, a.originalName))
    }

    /** `POST /api/ideas` with the body's `title` and `description`, `uuid`
        the identifier the handler draws. */
    method CreateIdea(title: Option<string>, description: Option<string>, uuid: string, elapsed: nat)
      returns (r: Reply<Idea>)
      requires Valid()
      modifies this
      ensures Valid()
      ensures Blank(title) ==> r == Err(400, TitleRequired) && unchanged(this)
      ensures !Blank(title) && Lookup(old(ideas), IdeaKey, uuid).Some? ==>
                r == Err(500, IdeaIdTaken) && unchanged(this)
      ensures !Blank(title) && Lookup(old(ideas), IdeaKey, uuid).None? ==>
                var now := old(clock) + elapsed;
                var x := Idea(uuid, Trim(title.value), DescriptionOf(description), 0, now, now);
                && r == Ok(201, x)
                && ideas == old(ideas) + [x] && clock == now
                && notes == old(notes) && attachments == old(attachments) && blobs == old(blobs)
      ensures r.Ok? ==> Lookup(ideas, IdeaKey, uuid) == Some(r.value)
    {
      if Blank(title) {
        return Err(400, TitleRequired);
      }
      var now := clock + elapsed;
      var x := Idea(uuid, Trim(title.value), DescriptionOf(description), 0, now, now);
      match InsertRow(ideas, IdeaKey, x)
      case None =>
        return Err(500, IdeaIdTaken);
      case Some(t) =>
        IdeaAdded(ideas, notes, attachments, clock, x, now);
        ideas, clock := t, now;
        var row := Lookup(ideas, IdeaKey, uuid);
        assert row == Some(x);
        r := Ok(201, row.value);
    }

    /** `POST /api/ideas/:id/vote`: one more vote and a new `updated_at` for
        the idea, which is returned; 404 when the update matched no row. */
    method Vote(id: string, elapsed: nat) returns (r: Reply<Idea>)
      requires Valid()
      modifies this
      ensures Valid()
      ensures notes == old(notes) && attachments == old(attachments) && blobs == old(blobs)
      ensures Lookup(old(ideas), IdeaKey, id).None? ==> r == Err(404, IdeaNotFound) && unchanged(this)
      ensures Lookup(old(ideas), IdeaKey, id).Some? ==>
                && clock == old(clock) + elapsed
                && ideas == VoteRows(old(ideas), id, clock)
                && r == Ok(200, Bumped(Lookup(old(ideas), IdeaKey, id).value, clock))
      ensures r.Ok? ==> Lookup(ideas, IdeaKey, id) == Some(r.value)
    {
      var now := clock + elapsed;
      var changes := Changes(ideas, id);
      ChangesCount(ideas, id);
      VoteConsistent(ideas, notes, attachments, clock, id, now);
      if changes == 0 {
        VoteRowsNoMatch(ideas, id, now);
        ideas := VoteRows(ideas, id, now);
        r := Err(404, IdeaNotFound);
      } else {
        VoteThenLookup(ideas, id, now);
        ideas, clock := VoteRows(ideas, id, now), now;
        var row := Lookup(ideas, IdeaKey, id);
        r := Ok(200, row.value);
      }
    }

    /** `POST /api/ideas/:id/notes` with the body's `content`, `noteUuid` the
        identifier the handler draws. The idea is not looked up: foreign keys
        are not enforced, so a note on an unknown idea is stored too. */
    method AddNote(id: string, content: Option<string>, noteUuid: string, elapsed: nat)
      returns (r: Reply<Note>)
      requires Valid()
      modifies this
      ensures Valid()
      ensures Blank(content) ==> r == Err(400, NoteContentRequired) && unchanged(this)
      ensures !Blank(content) && Lookup(old(notes), NoteKey, noteUuid).Some? ==>
                r == Err(500, NoteIdTaken) && unchanged(this)
      ensures !Blank(content) && Lookup(old(notes), NoteKey, noteUuid).None? ==>
                var now := old(clock) + elapsed;
                var n := Note(noteUuid, id, Trim(content.value), now);
                && r == Ok(201, n)
                && notes == old(notes) + [n] && clock == now
                && ideas == old(ideas) && attachments == old(attachments) && blobs == old(blobs)
    {
      if Blank(content) {
        return Err(400, NoteContentRequired);
      }
      var now := clock + elapsed;
      var n := Note(noteUuid, id, Trim(content.value), now);
      match InsertRow(notes, NoteKey, n)
      case None =>
        return Err(500, NoteIdTaken);
      case Some(t) =>
        NoteAdded(ideas, notes, attachments, clock, n, now);
        notes, clock := t, now;
        var row := Lookup(notes, NoteKey, noteUuid);
        assert row == Some(n);
        r := Ok(201, row.value);
    }

    /** `POST /api/ideas/:id/attachments`: multer has already written the
        blob under `StoredFilename(fileUuid, …)` when the handler runs; the
        handler records it under `attachmentUuid`, and when that insert fails
        it deletes the blob again. Foreign keys are not enforced. */
    method Upload(id: string, file: Option<UploadedFile>, fileUuid: string, attachmentUuid: string, elapsed: nat)
      returns (r: Reply<Attachment>)
      requires Valid()
      modifies this
      ensures Valid()
      ensures file.None? ==> r == Err(400, NoFileUploaded) && unchanged(this)
      ensures file.Some? && Lookup(old(attachments), AttachmentKey, attachmentUuid).Some? ==>
                && r == Err(500, AttachmentIdTaken)
                && blobs == old(blobs) - {StoredFilename(fileUuid, file.value.originalName)}
                && ideas == old(ideas) && notes == old(notes) && attachments == old(attachments)
                && clock == old(clock)
      ensures file.Some? && Lookup(old(attachments), AttachmentKey, attachmentUuid).None? ==>
                var now := old(clock) + elapsed;
                var f := file.value;
                var stored := StoredFilename(fileUuid, f.originalName);
                var a := Attachment(attachmentUuid, id, stored, f.originalName, f.mimetype, f.size, now);
                && r == Ok(201, a)
                && attachments == old(attachments) + [a] && blobs == old(blobs) + {stored}
                && clock == now && ideas == old(ideas) && notes == old(notes)
                && Download(attachmentUuid) == Ok(200, Served(stored, f.originalName))
    {
      if file.None? {
        return Err(400, NoFileUploaded);
      }
      var f := file.value;
      var stored := StoredFilename(fileUuid, f.originalName);
      blobs := blobs + {stored};
      var now := clock + elapsed;
      var a := Attachment(attachmentUuid, id, stored, f.originalName, f.mimetype, f.size, now);
      match InsertRow(attachments, AttachmentKey, a)
      case None =>
        blobs := blobs - {stored};
        return Err(500, AttachmentIdTaken);
      case Some(t) =>
        AttachmentAdded(ideas, notes, attachments, clock, a, now);
        attachments, clock := t, now;
        var row := Lookup(attachments, AttachmentKey, attachmentUuid);
        assert row == Some(a);
        r := Ok(201, row.value);
    }
  }
}
