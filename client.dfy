/**
  Two pieces of the browser client: `getFileIcon`, which picks the icon shown
  next to an attachment from its MIME type, and the update `voteIdea` makes to
  the client's copy of the listing once the server has answered a vote.
 */
module Client {
  import opened Wrappers
  import opened Text
  import opened Tables

  const PageIcon := "\U{1F4C4}"
  const ImageIcon := "\U{1F5BC}\U{FE0F}"
  const VideoIcon := "\U{1F3A5}"
  const AudioIcon := "\U{1F3B5}"
  const PdfIcon := "\U{1F4D1}"
  const ArchiveIcon := "\U{1F5DC}\U{FE0F}"
  const DocumentIcon := "\U{1F4DD}"
  const SheetIcon := "\U{1F4CA}"

  /** Every icon `getFileIcon` can return. */
  const Icons: set<string> := {PageIcon, ImageIcon, VideoIcon, AudioIcon, PdfIcon, ArchiveIcon, DocumentIcon, SheetIcon}

  /** `getFileIcon(mimetype)`: an absent or empty type gets the page icon;
      then the three prefix tests, then the substring tests in a fixed order,
      and the page icon when nothing matches. All tests are case-sensitive. */
  function FileIcon(mimetype: Option<string>): (icon: string)
    ensures icon in Icons
    ensures mimetype.None? || mimetype.value == [] ==> icon == PageIcon
  {
    if mimetype.None? || mimetype.value == [] then PageIcon
    else
      var m := mimetype.value;
      if StartsWith(m, "image/") then ImageIcon
      else if StartsWith(m, "video/") then VideoIcon
      else if StartsWith(m, "audio/") then AudioIcon
      else if Includes(m, "pdf") then PdfIcon
      else if Includes(m, "zip") || Includes(m, "compressed") then ArchiveIcon
      else if Includes(m, "word") || Includes(m, "document") then DocumentIcon
      else if Includes(m, "sheet") || Includes(m, "excel") then SheetIcon
      else PageIcon
  }

  /** One test of the classifier: a prefix or a substring. */
  datatype Test = Prefix(p: string) | Substring(t: string)

  predicate Passes(m: string, t: Test)
  {
    match t
    case Prefix(p) => StartsWith(m, p)
    case Substring(u) => Includes(m, u)
  }

  /** A rule gives its icon when any of its tests passes. */
  datatype Rule = Rule(tests: seq<Test>, icon: string)

  predicate Fires(m: string, rule: Rule)
  {
    exists k | 0 <= k < |rule.tests| :: Passes(m, rule.tests[k])
  }

  const ImageRule := Rule([Prefix("image/")], ImageIcon)
  const VideoRule := Rule([Prefix("video/")], VideoIcon)
  const AudioRule := Rule([Prefix("audio/")], AudioIcon)
  const PdfRule := Rule([Substring("pdf")], PdfIcon)
  const ArchiveRule := Rule([Substring("zip"), Substring("compressed")], ArchiveIcon)
  const DocumentRule := Rule([Substring("word"), Substring("document")], DocumentIcon)
  const SheetRule := Rule([Substring("sheet"), Substring("excel")], SheetIcon)

  /** The classifier written as a table, in the order of its `if`s. */
  const Rules: seq<Rule> :=
    [ImageRule] + ([VideoRule] + ([AudioRule] + ([PdfRule] + ([ArchiveRule] + ([DocumentRule] + [SheetRule])))))

  /** The icon of the first rule that fires, or `fallback`. */
  function FirstMatch(m: string, rules: seq<Rule>, fallback: string): (icon: string)
    ensures (exists k | 0 <= k < |rules| :: Fires(m, rules[k]) && icon == rules[k].icon
               && forall j :: 0 <= j < k ==> !Fires(m, rules[j]))
            || (icon == fallback && forall j :: 0 <= j < |rules| ==> !Fires(m, rules[j]))
  {
    if rules == [] then fallback
    else if Fires(m, rules[0]) then rules[0].icon
    else
      var icon := FirstMatch(m, rules[1..], fallback);
      assert forall j :: 1 <= j < |rules| ==> rules[j] == rules[1..][j - 1];
      icon
  }

  /** A rule with one or two tests fires exactly when one of them passes. */
  lemma FiresOne(m: string, t: Test, icon: string)
    ensures Fires(m, Rule([t], icon)) <==> Passes(m, t)
  {
    assert Rule([t], icon).tests[0] == t;
  }

  lemma FiresTwo(m: string, t: Test, u: Test, icon: string)
    ensures Fires(m, Rule([t, u], icon)) <==> Passes(m, t) || Passes(m, u)
  {
    var tests := Rule([t, u], icon).tests;
    assert tests[0] == t && tests[1] == u;
  }

  /** One step of the first-match search. */
  lemma FirstMatchStep(m: string, rule: Rule, rest: seq<Rule>, fallback: string)
    ensures FirstMatch(m, [rule] + rest, fallback)
         == if Fires(m, rule) then rule.icon else FirstMatch(m, rest, fallback)
  {
    assert ([rule] + rest)[0] == rule && ([rule] + rest)[1..] == rest;
  }

  /** `getFileIcon` is the first-match reading of its rule table. */
  lemma FileIconIsFirstMatch(m: string)
    requires m != []
    ensures FileIcon(Some(m)) == FirstMatch(m, Rules, PageIcon)
  {
    FiresOne(m, Prefix("image/"), ImageIcon);
    FiresOne(m, Prefix("video/"), VideoIcon);
    FiresOne(m, Prefix("audio/"), AudioIcon);
    FiresOne(m, Substring("pdf"), PdfIcon);
    FiresTwo(m, Substring("zip"), Substring("compressed"), ArchiveIcon);
    FiresTwo(m, Substring("word"), Substring("document"), DocumentIcon);
    FiresTwo(m, Substring("sheet"), Substring("excel"), SheetIcon);
    var t6 := [SheetRule];
    var t5 := [DocumentRule] + t6;
    var t4 := [ArchiveRule] + t5;
    var t3 := [PdfRule] + t4;
    var t2 := [AudioRule] + t3;
    var t1 := [VideoRule] + t2;
    assert t6 == [SheetRule] + [];
    FirstMatchStep(m, SheetRule, [], PageIcon);
    FirstMatchStep(m, DocumentRule, t6, PageIcon);
    FirstMatchStep(m, ArchiveRule, t5, PageIcon);
    FirstMatchStep(m, PdfRule, t4, PageIcon);
    FirstMatchStep(m, AudioRule, t3, PageIcon);
    FirstMatchStep(m, VideoRule, t2, PageIcon);
    FirstMatchStep(m, ImageRule, t1, PageIcon);
  }

  /** The prefix tests come before every substring test. */
  lemma PrefixWins(m: string)
    requires StartsWith(m, "image/") || StartsWith(m, "video/") || StartsWith(m, "audio/")
    ensures StartsWith(m, "image/") ==> FileIcon(Some(m)) == ImageIcon
    ensures StartsWith(m, "video/") ==> FileIcon(Some(m)) == VideoIcon
    ensures StartsWith(m, "audio/") ==> FileIcon(Some(m)) == AudioIcon
  {
  }

  /** So a type that names another kind after the slash still gets the
      icon of its prefix: "image/pdf" includes "pdf" and is shown as an
      image. */
  lemma ImagePdf()
    ensures Includes("image/pdf", "pdf")
    ensures FileIcon(Some("image/pdf")) == ImageIcon
  {
    var m := "image/pdf";
    assert m[6..9] == "pdf";
    assert OccursAt(m, "pdf", 6);
    assert m[..6] == "image/";
  }

  /** The prefix tests are case-sensitive: "Image/png" matches no test. */
  lemma CaseSensitive()
    ensures FileIcon(Some("Image/png")) == PageIcon
  {
    var m := "Image/png";
    PairAbsent(m, "pdf");
    PairAbsent(m, "zip");
    PairAbsent(m, "compressed");
    PairAbsent(m, "word");
    PairAbsent(m, "document");
    PairAbsent(m, "sheet");
    PairAbsent(m, "excel");
    assert m[..6][0] == 'I';
  }

  /** Among the substring tests, "pdf" is tried first: a type that includes
      it gets the PDF icon whatever else it includes. */
  lemma PdfFirst(m: string)
    requires m != [] && Includes(m, "pdf")
    requires !StartsWith(m, "image/") && !StartsWith(m, "video/") && !StartsWith(m, "audio/")
    ensures FileIcon(Some(m)) == PdfIcon
  {
  }

  /** Then the archive tests, before the document and sheet tests. */
  lemma ArchiveBeforeDocument(m: string)
    requires m != [] && (Includes(m, "zip") || Includes(m, "compressed")) && !Includes(m, "pdf")
    requires !StartsWith(m, "image/") && !StartsWith(m, "video/") && !StartsWith(m, "audio/")
    ensures FileIcon(Some(m)) == ArchiveIcon
  {
  }

  /** Then "word" and "document", before "sheet" and "excel". */
  lemma DocumentBeforeSheet(m: string)
    requires m != [] && (Includes(m, "word") || Includes(m, "document"))
    requires !Includes(m, "pdf") && !Includes(m, "zip") && !Includes(m, "compressed")
    requires !StartsWith(m, "image/") && !StartsWith(m, "video/") && !StartsWith(m, "audio/")
    ensures FileIcon(Some(m)) == DocumentIcon
  {
  }

  /** The MIME type of an .xlsx workbook, written as short pieces because
      the verifier reasons about a concatenation of short literals far more
      cheaply than about indexes into one long literal. */
  const Xlsx := ("application/" + "vnd.openx") + ("mlformats-" + "officedoc") + (("ument." + "spreads") + "heetml.sheet")

  /** Where "document" and "sheet" occur in it. */
  lemma XlsxIncludes()
    ensures Includes(Xlsx, "document") && Includes(Xlsx, "sheet")
  {
    var d := "document";
    assert Xlsx[37..37 + |d|] == d;
    assert OccursAt(Xlsx, d, 37);
    var e := "sheet";
    assert Xlsx[60..60 + |e|] == e;
    assert OccursAt(Xlsx, e, 60);
  }

  /** A pair of characters absent from each piece of the .xlsx type and
      from each join between pieces is absent from the whole. */
  lemma XlsxNoPair(a: char, b: char)
    requires NoPair("application/", a, b) && NoPair("vnd.openx", a, b)
    requires NoPair("mlformats-", a, b) && NoPair("officedoc", a, b)
    requires NoPair("ument.", a, b) && NoPair("spreads", a, b) && NoPair("heetml.sheet", a, b)
    requires ('/', 'v') != (a, b) && ('x', 'm') != (a, b) && ('-', 'o') != (a, b)
    requires ('c', 'u') != (a, b) && ('.', 's') != (a, b) && ('s', 'h') != (a, b)
    ensures NoPair(Xlsx, a, b)
  {
    var p1, p2, p3, p4, p5, p6, p7 := "application/", "vnd.openx", "mlformats-", "officedoc", "ument.", "spreads", "heetml.sheet";
    NoPairConcat(p1, p2, a, b);
    NoPairConcat(p3, p4, a, b);
    NoPairConcat(p5, p6, a, b);
    var q1, q2, q3 := p1 + p2, p3 + p4, p5 + p6;
    assert q1[|q1| - 1] == 'x' && q2[0] == 'm' && q2[|q2| - 1] == 'c' && q3[|q3| - 1] == 's';
    NoPairConcat(q3, p7, a, b);
    var q4 := q3 + p7;
    assert q4[0] == 'u';
    NoPairConcat(q1, q2, a, b);
    NoPairConcat(q1 + q2, q4, a, b);
  }

  /** None of the substrings of the archive and PDF tests occurs in it. */
  lemma XlsxNoSubstrings()
    ensures !Includes(Xlsx, "pdf") && !Includes(Xlsx, "zip") && !Includes(Xlsx, "compressed")
  {
    assert !Includes(Xlsx, "pdf") by {
      XlsxNoPair('p', 'd');
      PairAbsent(Xlsx, "pdf");
    }
    assert !Includes(Xlsx, "zip") by {
      XlsxNoPair('z', 'i');
      PairAbsent(Xlsx, "zip");
    }
    assert !Includes(Xlsx, "compressed") by {
      XlsxNoPair('c', 'o');
      PairAbsent(Xlsx, "compressed");
    }
  }

  /** It matches none of the tests tried before "document". */
  lemma XlsxExcludes()
    ensures !StartsWith(Xlsx, "image/") && !StartsWith(Xlsx, "video/") && !StartsWith(Xlsx, "audio/")
    ensures !Includes(Xlsx, "pdf") && !Includes(Xlsx, "zip") && !Includes(Xlsx, "compressed")
  {
    assert Xlsx[..6][0] == 'a' && Xlsx[..6][1] == 'p';
    XlsxNoSubstrings();
  }

  /** A spreadsheet in the Office Open XML format gets the document icon:
      its type includes "sheet", but also "document", which is tested
      first. */
  lemma XlsxIsDocument()
    ensures Includes(Xlsx, "sheet") && Includes(Xlsx, "document")
    ensures FileIcon(Some(Xlsx)) == DocumentIcon
  {
    XlsxIncludes();
    XlsxExcludes();
    DocumentBeforeSheet(Xlsx);
  }

  /** When no test matches, the page icon is the fallback. */
  lemma Fallback(m: string)
    requires forall k :: 0 <= k < |Rules| ==> !Fires(m, Rules[k])
    ensures FileIcon(Some(m)) == PageIcon
  {
    if m != [] {
      FileIconIsFirstMatch(m);
    }
  }

  /** The listing row `{ ...ideas[i], votes }`: only the count of votes is
      replaced. */
  function WithVotes(s: Summary, votes: nat): Summary
  {
    s.(idea := s.idea.(votes := votes))
  }

  /** The client's listing after a vote answer: the first row with the id
      takes the server's count of votes; without such a row nothing
      changes. */
  function VoteApplied(rows: seq<Summary>, id: string, votes: nat): (r: seq<Summary>)
    ensures |r| == |rows|
    ensures IndexOfKey(rows, SummaryKey, id) == -1 ==> r == rows
    ensures IndexOfKey(rows, SummaryKey, id) >= 0 ==>
              var k := IndexOfKey(rows, SummaryKey, id);
              && r[k] == WithVotes(rows[k], votes)
              && forall j :: 0 <= j < |r| && j != k ==> r[j] == rows[j]
  {
    var k := IndexOfKey(rows, SummaryKey, id);
    if k == -1 then rows else rows[k := WithVotes(rows[k], votes)]
  }

  /** Nothing but a count of votes changes: every row keeps its position,
      its idea's other columns and its counts, and the row found by the id
      is the same one before and after. */
  lemma VoteAppliedOnlyVotes(rows: seq<Summary>, id: string, votes: nat)
    ensures var r := VoteApplied(rows, id, votes);
            && (forall j :: 0 <= j < |r| ==> r[j] == WithVotes(rows[j], r[j].idea.votes))
            && IndexOfKey(r, SummaryKey, id) == IndexOfKey(rows, SummaryKey, id)
  {
    var r := VoteApplied(rows, id, votes);
    assert forall j :: 0 <= j < |r| ==> r[j].idea.id == rows[j].idea.id;
  }

  /** Applying the same answer twice is applying it once. */
  lemma VoteAppliedIdempotent(rows: seq<Summary>, id: string, votes: nat)
    ensures VoteApplied(VoteApplied(rows, id, votes), id, votes) == VoteApplied(rows, id, votes)
  {
    VoteAppliedOnlyVotes(rows, id, votes);
  }

  /** The client's copy of the listing, the global `ideas` array. */
  class Board {
    var ideas: array<Summary>

    /** `ideas = await response.json()` after loading the listing. */
    constructor (listing: seq<Summary>)
      ensures ideas[..] == listing
    {
      ideas := new Summary[|listing|](k requires 0 <= k < |listing| => listing[k]);
    }

    /** Reloading replaces the array by a new one holding the listing. */
    method Load(listing: seq<Summary>)
      modifies this
      ensures fresh(ideas) && ideas[..] == listing
    {
      ideas := new Summary[|listing|](k requires 0 <= k < |listing| => listing[k]);
    }

    /** `ideas.findIndex(i => i.id === ideaId)`. */
    method FindIndex(id: string) returns (k: int)
      ensures k == IndexOfKey(ideas[..], SummaryKey, id)
    {
      k := 0;
      while k < ideas.Length && ideas[k].idea.id != id
        invariant 0 <= k <= ideas.Length
        invariant forall j :: 0 <= j < k ==> ideas[j].idea.id != id
      {
        k := k + 1;
      }
      if k == ideas.Length {
        k := -1;
      }
    }

    /** The update after `POST /api/ideas/:id/vote` answers with `updated`:
        the first row with the id gets the answer's votes, in place. */
    method ApplyVote(id: string, updated: Idea)
      modifies ideas
      ensures ideas[..] == VoteApplied(old(ideas[..]), id, updated.votes)
    {
      var k := FindIndex(id);
      if k != -1 {
        ideas[k] := WithVotes(ideas[k], updated.votes);
      }
    }
  }
}
