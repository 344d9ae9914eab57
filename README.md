# Ideas board: a verified model of its data layer and two client pieces

The ideas board is a small web service. Users post ideas, vote on them, attach notes and
upload files, and a browser client shows the ideas ranked by votes. This project models
two parts of it in Dafny.

**The server's route handlers** (`server.js`) run over an in-memory store:
- three tables, `ideas`, `notes` and `attachments`, each a sequence of rows;
- the uploads directory, modelled as a set of blob names;
- a clock that stands for `CURRENT_TIMESTAMP`.

The handlers are modelled as follows:
- The four POST handlers change the store. They are methods of the class `Server.Database`:
  create idea, vote, add note and upload attachment.
- The three GET handlers are functions of the store: list ideas, get one idea, and download
  lookup.
- The SQL they run is written as functions over sequences, in module `Tables`:
  - primary-key lookup;
  - the `INSERT` under the `PRIMARY KEY` constraint;
  - `WHERE idea_id = ?`;
  - the two `LEFT JOIN`s with `COUNT(DISTINCT …)` and `GROUP BY`;
  - `ORDER BY … DESC`;
  - the `UPDATE` of a vote.
- JavaScript's `trim`, `startsWith` and `includes`, and `path.extname`, are in module `Text`.
- The descending sort behind every `ORDER BY` is in module `Ordering`.

**The client** (`public/app.js`) contributes two pieces, both in module `Client`:
- `getFileIcon`, an ordered first-match classifier of MIME types;
- the in-place update of the client's `ideas` array after a vote response, modelled by the
  class `Client.Board` over an `array`.

Some inputs come from outside the code and become parameters of the handlers:
- the identifiers `uuidv4()` draws;
- how far the clock has moved since the last write.

A handler is not told that an identifier is fresh. If it is not, the `INSERT` fails on the
primary key and the handler answers 500, as the server would. That failure is also the path
on which the upload handler deletes the blob it has just written.

The schema declares `FOREIGN KEY (idea_id) REFERENCES ideas(id)` on notes and attachments
(`server.js:47` and `server.js:60`), but the code never turns SQLite's enforcement on with
`PRAGMA foreign_keys`. So a note or an attachment for an unknown idea id is stored, and the
model does the same.

## Model

| member | source | states |
|---|---|---|
| Text.Trim | server.js:141 | `trim` cuts white space off both ends and nothing else: the result is the string's middle section, it neither starts nor ends with white space, and it is empty exactly when the input is all white space |
| Text.TrimUnique | server.js:141 | any such middle section without white space at its ends is `Trim`'s result, so `trim` is determined by these properties |
| Text.TrimIdempotent | server.js:148 | trimming a trimmed title, description or note changes nothing |
| Text.TrimExample | server.test.js:77-90 | "  Whitespace Test  " trims to "Whitespace Test" |
| Text.Extname | server.js:71 | the suffix from the last '.', empty when there is no '.' after the first character; a non-empty one starts with '.' and contains no other '.' |
| Text.ExtnameOfStemPlusExt | server.js:71 | gluing a dot-free stem to a name's extension gives a name with the same extension |
| Ordering.Insert | server.js:93 | inserting into a descending sequence keeps it descending and adds exactly that row |
| Ordering.SortDesc | server.js:93 | `ORDER BY … DESC`: the result is descending by key and is a permutation of the input |
| Tables.IndexOfKey | public/app.js:148 | the first position whose key is the id, or -1 exactly when no row has that id |
| Tables.Lookup | server.js:108 | `SELECT * … WHERE id = ?`: no row exactly when no row has the id; otherwise a row of the table with that id |
| Tables.LookupUnique | server.js:32 | with unique primary keys, looking up a row's id finds that row |
| Tables.Where | server.js:118 | a `WHERE` filter keeps each matching row as often as the table has it and drops every other row |
| Tables.WhereUniqueKeys | server.js:43 | a filtered table keeps its primary keys unique |
| Tables.InsertRow | server.js:146-148 | `INSERT` under `PRIMARY KEY`: fails exactly when the key is taken; otherwise appends the row and keeps keys unique |
| Tables.InsertRowLookup | server.js:146-148 | after a successful `INSERT` the new key finds the new row and every other key's lookup is unchanged |
| Tables.Padded | server.js:90-91 | a `LEFT JOIN` side: the matching ids, or one NULL when nothing matches |
| Tables.Cross | server.js:90-91 | the two joins pair every note cell with every attachment cell: size is the product, members are exactly the pairs |
| Tables.JoinColumnValues | server.js:88-91 | the distinct non-NULL values in a column of the joined rows are exactly that side's ids |
| Tables.Summarize | server.js:88-92 | with unique primary keys, `note_count` and `attachment_count` of an idea equal the number of its notes and attachments |
| Tables.JoinMultiplies | server.js:88-91 | without `DISTINCT` the joined row count is the product of the two sides' counts, each at least 1 |
| Tables.Listing | server.js:88-93 | `GET /api/ideas`' query: as many rows as ideas, the same ideas (as a multiset), each row with that idea's counts, descending by (votes, created_at) |
| Tables.ListingOrder | server.js:93 | in the listing, more votes come first, and among equal votes the newer idea comes first |
| Tables.MoreVotesFirst | server.test.js:94-130 | in rows ordered by votes, an idea with more votes is listed before one with fewer |
| Tables.ListedOnce | server.js:92 | with unique ids every idea is listed exactly once |
| Tables.VoteRowsAt | server.js:170-172 | the `UPDATE`: each row with the id gets one more vote and the new `updated_at`; every other row and the order of rows are unchanged |
| Tables.VoteRowsKeeps | server.js:170-172 | the update keeps ids unique and stamps no row later than now |
| Tables.ChangesCount | server.js:178 | `this.changes` is 0 exactly when no idea has the id, and at most 1 with unique ids |
| Tables.VoteRowsNoMatch | server.js:170-181 | an update that matches no row changes nothing |
| Tables.VoteThenLookup | server.js:183 | the row read back after a vote is the old row with one more vote and the new timestamp |
| Tables.VoteSeriesAdds | server.js:170-172 | N votes on an id add exactly N to that idea's votes and stamp it with the last vote's time, changing nothing else in the row; other rows are unchanged |
| Server.DescriptionOf | server.js:148 | the stored description is empty exactly when the description is absent or blank; otherwise it is the middle section of the description after its leading white space, with no white space at either end, which `Text.TrimUnique` shows is the trimmed description |
| Server.StoredFilename | server.js:71 | the stored name is the fresh identifier followed by the extension of the client's file name |
| Server.StoredFilenameKeepsExtension | server.js:71 | for a dot-free identifier (a UUID), the stored file has the original's extension |
| Server.VoteConsistent | server.js:32 | a vote keeps the store's invariant: unique primary keys and no timestamp later than the clock |
| Server.IdeaAdded | server.js:146-148 | a created idea with a fresh id keeps the invariant and is what its id finds |
| Server.NoteAdded | server.js:205-207 | an added note with a fresh id keeps the invariant and is what its id finds |
| Server.AttachmentAdded | server.js:237-239 | a recorded attachment with a fresh id keeps the invariant and is what its id finds |
| Server.Database.constructor | server.js:29-63 | the empty store is consistent |
| Server.Database.ListIdeas | server.js:86-101 | 200 with each idea as often as the table holds it, descending by votes then creation time, each row's counts equal to its numbers of notes and attachments |
| Server.Database.GetIdea | server.js:105-134 | 404 "Idea not found" exactly when no idea has the id; otherwise 200 with that idea, exactly the notes and the attachments that reference it (as multisets), each newest first |
| Server.Database.Download | server.js:260-281 | 404 "Attachment not found" exactly when no record has the id; 404 "File not found" exactly when the record's blob is absent; otherwise the blob is served under `original_name` |
| Server.Database.CreateIdea | server.js:137-164 | 400 "Title is required" with nothing changed for an absent or blank title; 500 with nothing changed when the id is taken; otherwise 201 with the one appended row (trimmed title, description or "", 0 votes, both timestamps now). Nothing else changes, and the id now finds the new row, so `GET /api/ideas/:id` returns it |
| Server.Database.Vote | server.js:167-191 | 404 "Idea not found" with nothing changed for an unknown id; otherwise the table is the voted table, 200 with the bumped row, nothing else changes, and the id now finds that row, so `GET /api/ideas/:id` returns it |
| Server.Database.AddNote | server.js:195-222 | 400 "Note content is required" with nothing changed for absent or blank content; 500 when the note id is taken; otherwise 201 with the one appended note (trimmed content, the path's idea id, now), whether or not the idea exists; `GetIdea`'s contract then lists it among the idea's notes |
| Server.Database.Upload | server.js:226-256 | 400 "No file uploaded" with nothing changed when no file came; when the insert fails, 500 and the written blob is removed again, with the tables unchanged; otherwise 201 with the one appended record, the blob in the store, and a download of the new id serves it under the original name |
| Client.FileIcon | public/app.js:358-368 | the result is always one of the eight icons, and 📄 for an absent or empty type |
| Client.FirstMatch | public/app.js:358-368 | the icon of the first rule that fires, no earlier rule firing; or the fallback when none fires |
| Client.FileIconIsFirstMatch | public/app.js:358-368 | `getFileIcon` equals the first-match reading of its seven-rule table, in the order of its `if`s |
| Client.PrefixWins | public/app.js:360-362 | an `image/`, `video/` or `audio/` prefix gives the image, video or audio icon respectively, before any substring test |
| Client.ImagePdf | public/app.js:360-363 | "image/pdf" includes "pdf" but gets the image icon |
| Client.CaseSensitive | public/app.js:360-367 | the prefix tests are case-sensitive: "Image/png" matches no test and gets 📄 |
| Client.PdfFirst | public/app.js:363 | with no media prefix, a type that includes "pdf" gets 📑 whatever else it includes |
| Client.ArchiveBeforeDocument | public/app.js:364 | then "zip"/"compressed" give 🗜️ before the document and sheet tests |
| Client.DocumentBeforeSheet | public/app.js:365 | then "word"/"document" give 📝 before the sheet tests |
| Client.XlsxIsDocument | public/app.js:365-366 | the .xlsx type includes both "sheet" and "document" and gets 📝, not 📊 |
| Client.Fallback | public/app.js:367 | when no rule fires the icon is 📄 |
| Client.VoteApplied | public/app.js:148-150 | the first row with the id takes the server's votes and no other row changes; with no such row the listing is unchanged |
| Client.VoteAppliedOnlyVotes | public/app.js:150 | only a `votes` field changes: every row keeps its position, the idea's other fields and its counts, and the id is found at the same place |
| Client.VoteAppliedIdempotent | public/app.js:148-150 | applying the same vote answer twice is applying it once |
| Client.Board.constructor | public/app.js:38 | the array holds the listing as loaded |
| Client.Board.Load | public/app.js:38 | reloading replaces the array by a fresh one holding the listing |
| Client.Board.FindIndex | public/app.js:148 | `findIndex`: the first position with the id, or -1 |
| Client.Board.ApplyVote | public/app.js:146-152 | the array afterwards is `VoteApplied` of the array before |

## Left out

- Express plumbing is not modelled: CORS, JSON parsing, static files, the error middleware and `listen` are framework I/O.
- The 500 answers on driver errors are not modelled, except for the primary-key failure of an `INSERT`. This includes a failing re-read after a successful write.
- Non-string request fields are not modelled. A field that is present is a string. A numeric title, whose `.trim()` throws into the error middleware, is out of scope.
- Multer's 10 MiB upload limit and its disk writes are not modelled. A blob is its name; file contents and sizes on disk are not kept. The upload handler starts after multer has written the blob.
- `fs.existsSync`, `fs.unlinkSync` and `res.download` are modelled only as membership in, removal from, and lookup in the set of blob names.
- `CURRENT_TIMESTAMP` is a natural-number clock that advances by a caller-given amount on each write.
  - The text format of SQLite timestamps is not modelled. Its one-second resolution is kept: the amount may be 0.
  - Comparing the text format orders times chronologically, which is what the natural numbers do.
- Tables.Listing, Server.Database.GetIdea: SQL leaves the order among equal keys unspecified. The contracts state only the descending order and the permutation. The order the model's insertion sort picks among ties is not a claim about SQLite.
- Tables.Listing models `GROUP BY i.id` as one row per idea row. With the primary key unique, as the store's invariant ensures, that is the same thing; Tables.ListedOnce states it.
- Schema creation, `ON DELETE CASCADE` and concurrent requests are not modelled. No delete route exists, and the atomicity of `votes + 1` is the database's guarantee.
- Text.Extname models `path.extname` on a bare file name as "from the last '.'", and "" when the only '.' opens the name. Path separators and the trailing-dot corner cases of Node's implementation are not modelled.
- The browser parts of the client are not modelled: rendering, `fetch`, events, `alert`, `escapeHtml`, `formatDate`, `formatFileSize` and the modal's `currentIdeaId`. They depend on the DOM, the clock or floating point.
- Client.FileIcon takes the MIME type as absent or a string. A non-string value is not modelled.
