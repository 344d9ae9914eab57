/**
  The three tables of the store (ideas, notes, attachments) as sequences of
  rows, and the SQL the route handlers run against them, written as functions
  over those sequences: primary-key lookup, `WHERE idea_id = ?`, the two
  `LEFT JOIN`s with `COUNT(DISTINCT …)` and `GROUP BY` of the listing, its
  `ORDER BY`, and the `UPDATE` of a vote. Timestamps are readings of an
  abstract clock (naturals); identifiers are opaque strings.
 */
module Tables {
  import opened Wrappers
  import opened Ordering

  /** A row of `ideas`. */
  datatype Idea = Idea(id: string, title: string, description: string, votes: nat,
                       createdAt: nat, updatedAt: nat)

  /** A row of `notes`; `ideaId` is the `idea_id` column. */
  datatype Note = Note(id: string, ideaId: string, content: string, createdAt: nat)

  /** A row of `attachments`: `filename` is the blob's stored name,
      `originalName` the name the file was uploaded under. */
  datatype Attachment = Attachment(id: string, ideaId: string, filename: string,
                                   originalName: string, mimetype: string, size: nat,
                                   createdAt: nat)

  /** A row of the listing: the idea's columns plus `note_count` and
      `attachment_count`. */
  datatype Summary = Summary(idea: Idea, noteCount: nat, attachmentCount: nat)

  /** The body of `GET /api/ideas/:id`: the idea with its notes and attachments. */
  datatype Detail = Detail(idea: Idea, notes: seq<Note>, attachments: seq<Attachment>)

  function IdeaKey(x: Idea): string { x.id }
  function NoteKey(n: Note): string { n.id }
  function AttachmentKey(a: Attachment): string { a.id }
  function SummaryKey(s: Summary): string { s.idea.id }

  /** The `PRIMARY KEY` constraint: no two rows share a key. */
  predicate UniqueKeys<T>(s: seq<T>, key: T -> string)
  {
    forall i, j :: 0 <= i < j < |s| ==> key(s[i]) != key(s[j])
  }

  /** The position of the first row whose key is `id`, or -1 (JavaScript's
      `findIndex` with an equality test on the key). */
  function IndexOfKey<T>(s: seq<T>, key: T -> string, id: string): (k: int)
    ensures -1 <= k < |s|
    ensures k == -1 <==> forall j :: 0 <= j < |s| ==> key(s[j]) != id
    ensures k >= 0 ==> key(s[k]) == id && forall j :: 0 <= j < k ==> key(s[j]) != id
  {
    if s == [] then -1
    else if key(s[0]) == id then 0
    else
      var k := IndexOfKey(s[1..], key, id);
      if k == -1 then -1 else k + 1
  }

  /** `SELECT * FROM t WHERE id = ?`: the row with that key, if any. */
  function Lookup<T>(s: seq<T>, key: T -> string, id: string): (r: Option<T>)
    ensures r.None? <==> forall j :: 0 <= j < |s| ==> key(s[j]) != id
    ensures r.Some? ==> r.value in s && key(r.value) == id
  {
    var k := IndexOfKey(s, key, id);
    if k == -1 then None else Some(s[k])
  }

  /** With unique keys, the row found is the only row with that key. */
  lemma LookupUnique<T>(s: seq<T>, key: T -> string, j: nat)
    requires UniqueKeys(s, key) && j < |s|
    ensures Lookup(s, key, key(s[j])) == Some(s[j])
  {
    var k := IndexOfKey(s, key, key(s[j]));
    assert k == j;
  }

  /** A `WHERE` clause: the rows of `s` that satisfy `p`, in table order. */
  function Where<T(!new)>(s: seq<T>, p: T -> bool): (r: seq<T>)
    ensures forall x :: multiset(r)[x] == if p(x) then multiset(s)[x] else 0
    ensures forall k :: 0 <= k < |r| ==> p(r[k]) && r[k] in s
  {
    if s == [] then
      []
    else
      var rest := Where(s[1..], p);
      var head := if p(s[0]) then [s[0]] else [];
      var r := head + rest;
      assert s == [s[0]] + s[1..];
      forall x ensures multiset(r)[x] == if p(x) then multiset(s)[x] else 0 {
        assert multiset(r)[x] == multiset(head)[x] + multiset(rest)[x];
        assert multiset(s)[x] == multiset([s[0]])[x] + multiset(s[1..])[x];
      }
      forall k | 0 <= k < |r| ensures p(r[k]) && r[k] in s {
        if k >= |head| {
          assert r[k] == rest[k - |head|];
        }
      }
      r
  }

  /** With unique keys, the first row's key is not the key of any later row. */
  lemma HeadKeyFresh<T>(s: seq<T>, key: T -> string, y: T)
    requires UniqueKeys(s, key) && s != [] && y in s[1..]
    ensures key(y) != key(s[0])
  {
    var m :| 0 <= m < |s| - 1 && s[1..][m] == y;
    assert s[m + 1] == y;
  }

  /** Dropping the first row keeps primary keys unique. */
  lemma TailUniqueKeys<T>(s: seq<T>, key: T -> string)
    requires UniqueKeys(s, key) && s != []
    ensures UniqueKeys(s[1..], key)
  {
    var t := s[1..];
    forall i, j | 0 <= i < j < |t| ensures key(t[i]) != key(t[j]) {
      assert key(s[i + 1]) != key(s[j + 1]);
    }
  }

  /** A row whose key no row of `t` has may be put in front of `t`. */
  lemma ConsUniqueKeys<T>(y: T, t: seq<T>, key: T -> string)
    requires UniqueKeys(t, key)
    requires forall k :: 0 <= k < |t| ==> key(t[k]) != key(y)
    ensures UniqueKeys([y] + t, key)
  {
    var r := [y] + t;
    forall i, j | 0 <= i < j < |r| ensures key(r[i]) != key(r[j]) {
      assert r[j] == t[j - 1];
      assert i > 0 ==> r[i] == t[i - 1];
    }
  }

  /** Filtering keeps primary keys unique. */
  lemma {:induction false} WhereUniqueKeys<T(!new)>(s: seq<T>, p: T -> bool, key: T -> string)
    requires UniqueKeys(s, key)
    ensures UniqueKeys(Where(s, p), key)
  {
    if s != [] {
      var rest := Where(s[1..], p);
      TailUniqueKeys(s, key);
      WhereUniqueKeys(s[1..], p, key);
      if p(s[0]) {
        forall k | 0 <= k < |rest| ensures key(rest[k]) != key(s[0]) {
          HeadKeyFresh(s, key, rest[k]);
        }
        ConsUniqueKeys(s[0], rest, key);
      }
    }
  }

  /** `INSERT INTO t …` under the `PRIMARY KEY` constraint: the row is
      appended, unless its key is already taken, in which case the statement
      fails and the table is left as it was. */
  function InsertRow<T>(s: seq<T>, key: T -> string, x: T): (r: Option<seq<T>>)
    ensures r.None? <==> Lookup(s, key, key(x)).Some?
    ensures r.Some? ==> r.value == s + [x]
    ensures r.Some? && UniqueKeys(s, key) ==> UniqueKeys(r.value, key)
  {
    if Lookup(s, key, key(x)).Some? then
      None
    else
      var t := s + [x];
      assert forall j :: 0 <= j < |s| ==> t[j] == s[j];
      Some(t)
  }

  /** After a successful `INSERT` the new key finds the new row, and every
      other key finds what it found before. */
  lemma InsertRowLookup<T>(s: seq<T>, key: T -> string, x: T)
    requires InsertRow(s, key, x).Some?
    ensures Lookup(s + [x], key, key(x)) == Some(x)
    ensures forall id :: id != key(x) ==> Lookup(s + [x], key, id) == Lookup(s, key, id)
  {
    var t := s + [x];
    assert forall j :: 0 <= j < |s| ==> t[j] == s[j];
    assert t[|s|] == x;
    assert IndexOfKey(t, key, key(x)) == |s|;
    assert forall id :: id != key(x) ==> IndexOfKey(t, key, id) == IndexOfKey(s, key, id);
  }

  /** `WHERE idea_id = ?` on notes. */
  function NotesOf(notes: seq<Note>, ideaId: string): seq<Note>
  {
    Where(notes, (n: Note) => n.ideaId == ideaId)
  }

  /** `WHERE idea_id = ?` on attachments. */
  function AttachmentsOf(attachments: seq<Attachment>, ideaId: string): seq<Attachment>
  {
    Where(attachments, (a: Attachment) => a.ideaId == ideaId)
  }

  /** The key column of a sequence of rows. */
  function Keys<T>(s: seq<T>, key: T -> string): (ks: seq<string>)
    ensures |ks| == |s| && forall k :: 0 <= k < |s| ==> ks[k] == key(s[k])
  {
    seq(|s|, k requires 0 <= k < |s| => key(s[k]))
  }

  /** The `n.id` (or `a.id`) cells one `LEFT JOIN` contributes for one idea:
      the matching ids, or a single NULL when nothing matches. */
  function Padded(ids: seq<string>): (c: seq<Option<string>>)
    ensures |c| == if ids == [] then 1 else |ids|
    ensures forall v :: Some(v) in c <==> v in ids
  {
    if ids == [] then
      [None]
    else
      var c := seq(|ids|, k requires 0 <= k < |ids| => Some(ids[k]));
      assert forall v :: v in ids ==> Some(v) in c by {
        forall v | v in ids ensures Some(v) in c {
          var k :| 0 <= k < |ids| && ids[k] == v;
          assert c[k] == Some(v);
        }
      }
      c
  }

  /** The joined rows for one idea: every note cell paired with every
      attachment cell, as two `LEFT JOIN`s on the same idea produce them. */
  function Cross(ns: seq<Option<string>>, ats: seq<Option<string>>): (rows: seq<(Option<string>, Option<string>)>)
    ensures |rows| == |ns| * |ats|
    ensures forall r :: r in rows <==> r.0 in ns && r.1 in ats
  {
    if ns == [] then
      []
    else
      assert ns == [ns[0]] + ns[1..];
      var front := seq(|ats|, k requires 0 <= k < |ats| => (ns[0], ats[k]));
      var rows := front + Cross(ns[1..], ats);
      assert forall r: (Option<string>, Option<string>) :: r.0 == ns[0] && r.1 in ats ==> r in front by {
        forall r: (Option<string>, Option<string>) | r.0 == ns[0] && r.1 in ats ensures r in front {
          var k :| 0 <= k < |ats| && ats[k] == r.1;
          assert front[k] == r;
        }
      }
      assert |rows| == |ats| + (|ns| - 1) * |ats|;
      rows
  }

  /** `COUNT(DISTINCT col)`: the number of distinct non-NULL values. */
  function CountDistinct(col: seq<Option<string>>): nat
  {
    |set o | o in col && o.Some? :: o.value|
  }

  /** The first (note) column of the joined rows. */
  function NoteCells(rows: seq<(Option<string>, Option<string>)>): seq<Option<string>>
  {
    seq(|rows|, k requires 0 <= k < |rows| => rows[k].0)
  }

  /** The second (attachment) column of the joined rows. */
  function AttachmentCells(rows: seq<(Option<string>, Option<string>)>): seq<Option<string>>
  {
    seq(|rows|, k requires 0 <= k < |rows| => rows[k].1)
  }

  /** The rows `LEFT JOIN notes … LEFT JOIN attachments …` produces for idea `x`. */
  function JoinedRows(x: Idea, notes: seq<Note>, attachments: seq<Attachment>): seq<(Option<string>, Option<string>)>
  {
    Cross(Padded(Keys(NotesOf(notes, x.id), NoteKey)),
          Padded(Keys(AttachmentsOf(attachments, x.id), AttachmentKey)))
  }

  /** A distinct sequence has as many elements as its set. */
  lemma {:induction false} DistinctCard(ks: seq<string>)
    requires forall i, j :: 0 <= i < j < |ks| ==> ks[i] != ks[j]
    ensures |set v | v in ks| == |ks|
  {
    if ks != [] {
      var rest := ks[1..];
      DistinctCard(rest);
      assert (set v | v in ks) == (set v | v in rest) + {ks[0]};
      assert ks[0] !in rest;
    }
  }

  /** The distinct non-NULL values of one column of the joined rows are the
      ids on that side: pairing with the other side (which has at least one
      cell, a NULL if nothing matched) duplicates values but adds none. */
  lemma JoinColumnValues(ns: seq<Option<string>>, ats: seq<Option<string>>)
    requires |ns| >= 1 && |ats| >= 1
    ensures (set o | o in NoteCells(Cross(ns, ats)) && o.Some? :: o.value) == (set o | o in ns && o.Some? :: o.value)
    ensures (set o | o in AttachmentCells(Cross(ns, ats)) && o.Some? :: o.value) == (set o | o in ats && o.Some? :: o.value)
  {
    var rows := Cross(ns, ats);
    forall o | o in ns ensures o in NoteCells(rows) {
      var r := (o, ats[0]);
      assert r in rows;
      var k :| 0 <= k < |rows| && rows[k] == r;
      assert NoteCells(rows)[k] == o;
    }
    forall o | o in ats ensures o in AttachmentCells(rows) {
      var r := (ns[0], o);
      assert r in rows;
      var k :| 0 <= k < |rows| && rows[k] == r;
      assert AttachmentCells(rows)[k] == o;
    }
    forall o | o in NoteCells(rows) ensures o in ns {
      var k :| 0 <= k < |rows| && NoteCells(rows)[k] == o;
      assert rows[k] in rows;
    }
    forall o | o in AttachmentCells(rows) ensures o in ats {
      var k :| 0 <= k < |rows| && AttachmentCells(rows)[k] == o;
      assert rows[k] in rows;
    }
  }

  /** The non-NULL values of a padded column are the ids it was built from. */
  lemma PaddedValues(ids: seq<string>)
    ensures (set o | o in Padded(ids) && o.Some? :: o.value) == (set v | v in ids)
  {
    var c := Padded(ids);
    forall v | v in ids ensures v in (set o | o in c && o.Some? :: o.value) {
      assert Some(v) in c;
    }
  }

  /** How many distinct ids of one side the joined rows of an idea show, when
      that side's table has unique primary keys: exactly the number of its
      rows that reference the idea. */
  lemma CountedRows<T(!new)>(s: seq<T>, p: T -> bool, key: T -> string)
    ensures UniqueKeys(s, key) ==> |set v | v in Keys(Where(s, p), key)| == |Where(s, p)|
  {
    if UniqueKeys(s, key) {
      WhereUniqueKeys(s, p, key);
      DistinctCard(Keys(Where(s, p), key));
    }
  }

  /** One row of the listing, `SELECT i.*, COUNT(DISTINCT n.id),
      COUNT(DISTINCT a.id) … GROUP BY i.id`, for idea `x`. With unique primary
      keys the two counts are the numbers of notes and attachments that
      reference the idea: the two joins do not multiply each other. */
  function Summarize(x: Idea, notes: seq<Note>, attachments: seq<Attachment>): (r: Summary)
    ensures r.idea == x
    ensures UniqueKeys(notes, NoteKey) ==> r.noteCount == |NotesOf(notes, x.id)|
    ensures UniqueKeys(attachments, AttachmentKey) ==> r.attachmentCount == |AttachmentsOf(attachments, x.id)|
  {
    var ns := Padded(Keys(NotesOf(notes, x.id), NoteKey));
    var ats := Padded(Keys(AttachmentsOf(attachments, x.id), AttachmentKey));
    var rows := JoinedRows(x, notes, attachments);
    JoinColumnValues(ns, ats);
    PaddedValues(Keys(NotesOf(notes, x.id), NoteKey));
    PaddedValues(Keys(AttachmentsOf(attachments, x.id), AttachmentKey));
    CountedRows(notes, (n: Note) => n.ideaId == x.id, NoteKey);
    CountedRows(attachments, (a: Attachment) => a.ideaId == x.id, AttachmentKey);
    Summary(x, CountDistinct(NoteCells(rows)), CountDistinct(AttachmentCells(rows)))
  }

  /** Without `DISTINCT` the count of note ids would be the number of notes
      times the number of attachments (when both are non-zero). */
  lemma JoinMultiplies(x: Idea, notes: seq<Note>, attachments: seq<Attachment>)
    ensures |JoinedRows(x, notes, attachments)|
         == (if NotesOf(notes, x.id) == [] then 1 else |NotesOf(notes, x.id)|)
          * (if AttachmentsOf(attachments, x.id) == [] then 1 else |AttachmentsOf(attachments, x.id)|)
  {
  }

  /** The sort key of `ORDER BY i.votes DESC, i.created_at DESC`. */
  function IdeaRank(x: Idea): Key { (x.votes, x.createdAt) }
  function SummaryRank(s: Summary): Key { IdeaRank(s.idea) }

  /** The sort key of `ORDER BY created_at DESC`. */
  function NoteTime(n: Note): Key { (n.createdAt, 0) }
  function AttachmentTime(a: Attachment): Key { (a.createdAt, 0) }

  function SummarizeAll(ideas: seq<Idea>, notes: seq<Note>, attachments: seq<Attachment>): (r: seq<Summary>)
    ensures |r| == |ideas|
    ensures forall k :: 0 <= k < |r| ==> r[k] == Summarize(ideas[k], notes, attachments)
  {
    seq(|ideas|, k requires 0 <= k < |ideas| => Summarize(ideas[k], notes, attachments))
  }

  /** The ideas column of a listing. */
  function IdeasOf(r: seq<Summary>): (xs: seq<Idea>)
    ensures |xs| == |r| && forall k :: 0 <= k < |r| ==> xs[k] == r[k].idea
  {
    seq(|r|, k requires 0 <= k < |r| => r[k].idea)
  }

  /** The query of `GET /api/ideas`. The order key uses only columns of the
      idea, so sorting the ideas and then summarising each gives the rows
      `GROUP BY … ORDER BY …` gives. Every idea is listed as often as it is
      in the table, each row carries that idea's counts, and the rows are by
      votes, newest first among equal votes. */
  function Listing(ideas: seq<Idea>, notes: seq<Note>, attachments: seq<Attachment>): (r: seq<Summary>)
    ensures |r| == |ideas|
    ensures multiset(IdeasOf(r)) == multiset(ideas)
    ensures forall k :: 0 <= k < |r| ==> r[k] == Summarize(r[k].idea, notes, attachments)
    ensures SortedDesc(r, SummaryRank)
  {
    var sorted := SortDesc(ideas, IdeaRank);
    var r := SummarizeAll(sorted, notes, attachments);
    assert IdeasOf(r) == sorted;
    r
  }

  /** The listing's order spelled out: more votes first, and among equal
      votes the more recently created first. */
  lemma ListingOrder(ideas: seq<Idea>, notes: seq<Note>, attachments: seq<Attachment>, i: nat, j: nat)
    requires i < j < |ideas|
    ensures var r := Listing(ideas, notes, attachments);
            r[i].idea.votes >= r[j].idea.votes
            && (r[i].idea.votes == r[j].idea.votes ==> r[i].idea.createdAt >= r[j].idea.createdAt)
  {
    var r := Listing(ideas, notes, attachments);
    assert AtLeast(SummaryRank(r[i]), SummaryRank(r[j]));
  }

  /** In rows ordered by votes, a row with more votes than another comes
      before it. */
  lemma MoreVotesFirst(r: seq<Summary>, i: nat, j: nat)
    requires SortedDesc(r, SummaryRank) && i < |r| && j < |r|
    requires r[i].idea.votes > r[j].idea.votes
    ensures i < j
  {
    assert forall a, b :: 0 <= a < b < |r| ==> AtLeast(SummaryRank(r[a]), SummaryRank(r[b]));
  }

  /** With unique keys every row occurs exactly once. */
  lemma {:induction false} UniqueOnce<T>(s: seq<T>, key: T -> string, j: nat)
    requires UniqueKeys(s, key) && j < |s|
    ensures multiset(s)[s[j]] == 1
  {
    assert s == [s[0]] + s[1..];
    assert UniqueKeys(s[1..], key) by {
      forall i, k | 0 <= i < k < |s| - 1 ensures key(s[1..][i]) != key(s[1..][k]) {
        assert key(s[i + 1]) != key(s[k + 1]);
      }
    }
    if j == 0 {
      assert s[0] !in s[1..] by {
        if s[0] in s[1..] { HeadKeyFresh(s, key, s[0]); }
      }
    } else {
      UniqueOnce(s[1..], key, j - 1);
      assert s[0] != s[j];
    }
  }

  /** Every idea with a unique id is listed exactly once. */
  lemma ListedOnce(ideas: seq<Idea>, notes: seq<Note>, attachments: seq<Attachment>, j: nat)
    requires UniqueKeys(ideas, IdeaKey) && j < |ideas|
    ensures multiset(IdeasOf(Listing(ideas, notes, attachments)))[ideas[j]] == 1
  {
    UniqueOnce(ideas, IdeaKey, j);
  }

  // The idea row after one vote: one more vote and a refreshed updated_at.
  function Bumped(x: Idea, now: nat): Idea
  {
    x.(votes := x.votes + 1, updatedAt := now)
  }

  /** `UPDATE ideas SET votes = votes + 1, updated_at = CURRENT_TIMESTAMP
      WHERE id = ?`: every row with that id gets one more vote and the new
      timestamp; every other row, and the order of rows, stays as it was. */
  function VoteRows(ideas: seq<Idea>, id: string, now: nat): (r: seq<Idea>)
    ensures |r| == |ideas|
  {
    if ideas == [] then []
    else [if ideas[0].id == id then Bumped(ideas[0], now) else ideas[0]] + VoteRows(ideas[1..], id, now)
  }

  /** Row by row, the update bumps each row with the id and keeps every
      other row, in place. */
  lemma {:induction false} VoteRowsAt(ideas: seq<Idea>, id: string, now: nat)
    ensures var r := VoteRows(ideas, id, now);
            forall k :: 0 <= k < |r| ==>
              if ideas[k].id == id then r[k] == Bumped(ideas[k], now) else r[k] == ideas[k]
  {
    if ideas != [] {
      VoteRowsAt(ideas[1..], id, now);
    }
  }

  /** `this.changes` after the update: the number of rows it matched. */
  function Changes(ideas: seq<Idea>, id: string): (n: nat)
    ensures n <= |ideas|
  {
    if ideas == [] then 0
    else (if ideas[0].id == id then 1 else 0) + Changes(ideas[1..], id)
  }

  /** No row changes exactly when no idea has that id; with unique ids at
      most one row changes. */
  lemma {:induction false} ChangesCount(ideas: seq<Idea>, id: string)
    ensures Changes(ideas, id) == 0 <==> Lookup(ideas, IdeaKey, id).None?
    ensures UniqueKeys(ideas, IdeaKey) ==> Changes(ideas, id) <= 1
  {
    if ideas != [] {
      var tail := ideas[1..];
      ChangesCount(tail, id);
      assert forall j :: 0 < j < |ideas| ==> ideas[j] == tail[j - 1];
      if UniqueKeys(ideas, IdeaKey) {
        assert UniqueKeys(tail, IdeaKey) by {
          forall i, j | 0 <= i < j < |tail| ensures tail[i].id != tail[j].id {
            assert ideas[i + 1].id != ideas[j + 1].id;
          }
        }
        if ideas[0].id == id {
          assert forall j :: 0 <= j < |tail| ==> tail[j].id != id by {
            forall j | 0 <= j < |tail| ensures tail[j].id != id {
              assert ideas[0].id != ideas[j + 1].id;
            }
          }
        }
      }
    }
  }

  /** The update keeps every row's id and creation time, so it keeps the
      primary key unique, and it stamps no row later than `now`. */
  lemma VoteRowsKeeps(ideas: seq<Idea>, id: string, now: nat, before: nat)
    requires UniqueKeys(ideas, IdeaKey) && before <= now
    requires forall k :: 0 <= k < |ideas| ==> ideas[k].createdAt <= before && ideas[k].updatedAt <= before
    ensures var r := VoteRows(ideas, id, now);
            && UniqueKeys(r, IdeaKey)
            && forall k :: 0 <= k < |r| ==> r[k].createdAt <= now && r[k].updatedAt <= now
  {
    VoteRowsAt(ideas, id, now);
    var r := VoteRows(ideas, id, now);
    assert forall k :: 0 <= k < |r| ==> r[k].id == ideas[k].id;
  }

  /** An update that matches no row leaves the table as it was. */
  lemma VoteRowsNoMatch(ideas: seq<Idea>, id: string, now: nat)
    requires Lookup(ideas, IdeaKey, id).None?
    ensures VoteRows(ideas, id, now) == ideas
  {
    VoteRowsAt(ideas, id, now);
  }

  /** The row `SELECT * FROM ideas WHERE id = ?` returns after the vote is
      the row it returned before, with one more vote and the new timestamp. */
  lemma VoteThenLookup(ideas: seq<Idea>, id: string, now: nat)
    requires Lookup(ideas, IdeaKey, id).Some?
    ensures Lookup(VoteRows(ideas, id, now), IdeaKey, id)
         == Some(Bumped(Lookup(ideas, IdeaKey, id).value, now))
  {
    var k := IndexOfKey(ideas, IdeaKey, id);
    VoteRowsAt(ideas, id, now);
    var r := VoteRows(ideas, id, now);
    assert forall j :: 0 <= j < |r| ==> r[j].id == ideas[j].id;
    assert IndexOfKey(r, IdeaKey, id) == k;
  }

  /** The same update run once per timestamp in `times`. */
  function VoteSeries(ideas: seq<Idea>, id: string, times: seq<nat>): seq<Idea>
    decreases |times|
  {
    if times == [] then ideas
    else VoteSeries(VoteRows(ideas, id, times[0]), id, times[1..])
  }

  /** N votes on an id add N to the votes of each row with that id and
      leave it stamped with the last vote's time; nothing else in any row
      changes. */
  lemma {:induction false} VoteSeriesAdds(ideas: seq<Idea>, id: string, times: seq<nat>)
    ensures var r := VoteSeries(ideas, id, times);
            && |r| == |ideas|
            && forall k :: 0 <= k < |r| ==>
                 if ideas[k].id == id && times != []
                 then r[k] == ideas[k].(votes := ideas[k].votes + |times|, updatedAt := times[|times| - 1])
                 else r[k] == ideas[k]
    decreases |times|
  {
    if times != [] {
      var once := VoteRows(ideas, id, times[0]);
      var rest := times[1..];
      VoteRowsAt(ideas, id, times[0]);
      VoteSeriesAdds(once, id, rest);
      var r := VoteSeries(ideas, id, times);
      assert r == VoteSeries(once, id, rest);
      forall k | 0 <= k < |r| && ideas[k].id == id
        ensures r[k] == ideas[k].(votes := ideas[k].votes + |times|, updatedAt := times[|times| - 1])
      {
        assert once[k] == Bumped(ideas[k], times[0]);
        if rest != [] {
          assert rest[|rest| - 1] == times[|times| - 1];
        }
      }
    }
  }
}
