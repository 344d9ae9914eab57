/**
  The string operations the handlers and the client rely on: JavaScript's
  `String.prototype.trim`, `startsWith` and `includes`, and Node's
  `path.extname` as it is used to keep an uploaded file's extension.
 */
module Text {

  /** The characters `trim` removes: the WhiteSpace and LineTerminator code
      points of ECMA-262 (tab, vertical tab, form feed, space, no-break space,
      the byte order mark, the other Unicode space separators, LF, CR, and the
      line and paragraph separators). */
  predicate IsSpace(c: char)
  {
    || c == '\t' || c == '\n' || c == '\U{000B}' || c == '\U{000C}' || c == '\r'
    || c == ' ' || c == '\U{00A0}' || c == '\U{1680}'
    || ('\U{2000}' <= c <= '\U{200A}')
    || c == '\U{2028}' || c == '\U{2029}' || c == '\U{202F}' || c == '\U{205F}'
    || c == '\U{3000}' || c == '\U{FEFF}'
  }

  /** Every character of `s` is white space (true of the empty string). */
  predicate IsBlank(s: string)
  {
    forall k :: 0 <= k < |s| ==> IsSpace(s[k])
  }

  /** The length of the white-space run that starts `s`. */
  function LeadingSpace(s: string): (n: nat)
    ensures n <= |s|
    ensures IsBlank(s[..n])
    ensures n < |s| ==> !IsSpace(s[n])
  {
    if |s| > 0 && IsSpace(s[0]) then
      var n := 1 + LeadingSpace(s[1..]);
      assert s[..n] == [s[0]] + s[1..][..n - 1];
      n
    else
      0
  }

  /** The length of the white-space run that ends `s`. */
  function TrailingSpace(s: string): (n: nat)
    ensures n <= |s|
    ensures IsBlank(s[|s| - n..])
    ensures n < |s| ==> !IsSpace(s[|s| - n - 1])
  {
    if |s| > 0 && IsSpace(s[|s| - 1]) then
      var n := 1 + TrailingSpace(s[..|s| - 1]);
      assert s[|s| - n..] == s[..|s| - 1][|s| - n..] + [s[|s| - 1]];
      n
    else
      0
  }

  /** `r` is what is left of `s` after removing the white space before index
      `i` and after index `i + |r|`. */
  predicate TrimmedAt(s: string, r: string, i: nat)
  {
    && i + |r| <= |s|
    && s[i..i + |r|] == r
    && IsBlank(s[..i])
    && IsBlank(s[i + |r|..])
  }

  /** A string that neither starts nor ends with white space. */
  predicate Tight(r: string)
  {
    r != [] ==> !IsSpace(r[0]) && !IsSpace(r[|r| - 1])
  }

  /** JavaScript's `s.trim()`. */
  function Trim(s: string): (r: string)
    ensures TrimmedAt(s, r, LeadingSpace(s))
    ensures Tight(r)
    ensures r == [] <==> IsBlank(s)
  {
    var i := LeadingSpace(s);
    var rest := s[i..];
    var j := TrailingSpace(rest);
    var r := rest[..|rest| - j];
    assert s[i + |r|..] == rest[|rest| - j..];
    assert r == [] ==> s == s[..i] + rest[|rest| - j..];
    assert r != [] ==> r[0] == s[i] && !IsSpace(r[0]);
    r
  }

  /** A white-space run ending at `i` is the leading one. */
  lemma {:induction false} LeadingSpaceIs(s: string, i: nat)
    requires i <= |s| && IsBlank(s[..i]) && (i < |s| ==> !IsSpace(s[i]))
    ensures LeadingSpace(s) == i
    decreases i
  {
    if i > 0 {
      var t := s[1..];
      assert s[..i][0] == s[0];
      var head := t[..i - 1];
      assert IsBlank(head) by {
        forall k | 0 <= k < |head| ensures IsSpace(head[k]) {
          assert head[k] == s[..i][k + 1];
        }
      }
      assert i - 1 < |t| ==> t[i - 1] == s[i];
      LeadingSpaceIs(t, i - 1);
    }
  }

  /** A white-space run starting after `|s| - j` is the trailing one. */
  lemma {:induction false} TrailingSpaceIs(s: string, j: nat)
    requires j <= |s| && IsBlank(s[|s| - j..]) && (j < |s| ==> !IsSpace(s[|s| - j - 1]))
    ensures TrailingSpace(s) == j
    decreases j
  {
    if j > 0 {
      var t := s[..|s| - 1];
      assert s[|s| - j..][j - 1] == s[|s| - 1];
      var tail := t[|t| - (j - 1)..];
      assert IsBlank(tail) by {
        forall k | 0 <= k < |tail| ensures IsSpace(tail[k]) {
          assert tail[k] == s[|s| - j..][k];
        }
      }
      assert j - 1 < |t| ==> t[|t| - (j - 1) - 1] == s[|s| - j - 1];
      TrailingSpaceIs(t, j - 1);
    }
  }

  /** `trim` has exactly one possible result: any string that is obtained
      from `s` by cutting white space off both ends and that neither starts
      nor ends with white space is `Trim(s)`. */
  lemma {:induction false} TrimUnique(s: string, r: string, i: nat)
    requires TrimmedAt(s, r, i) && Tight(r)
    ensures r == Trim(s)
  {
    if r == [] {
      assert s == s[..i] + s[i..];
      assert forall k :: 0 <= k < |s| ==> IsSpace(s[k]);
    } else {
      assert s[i] == r[0];
      LeadingSpaceIs(s, i);
      var rest := s[i..];
      var j := |rest| - |r|;
      assert rest[..|r|] == r;
      assert rest[|rest| - j..] == s[i + |r|..];
      assert rest[|rest| - j - 1] == r[|r| - 1];
      TrailingSpaceIs(rest, j);
    }
  }

  /** Trimming twice is trimming once. */
  lemma TrimIdempotent(s: string)
    ensures Trim(Trim(s)) == Trim(s)
  {
    var t := Trim(s);
    assert TrimmedAt(t, t, 0) by {
      assert t[0..|t|] == t;
    }
    TrimUnique(t, t, 0);
  }

  /** For example, "  Whitespace Test  " trims to "Whitespace Test". */
  lemma TrimExample()
    ensures Trim("  Whitespace Test  ") == "Whitespace Test"
  {
    var s, r := "  Whitespace Test  ", "Whitespace Test";
    assert s[2..2 + |r|] == r;
    assert s[..2] == "  " && s[2 + |r|..] == "  ";
    TrimUnique(s, r, 2);
  }

  /** JavaScript's `s.startsWith(p)`. */
  predicate StartsWith(s: string, p: string)
  {
    |p| <= |s| && s[..|p|] == p
  }

  /** `t` occurs in `s` starting at index `i`. */
  predicate OccursAt(s: string, t: string, i: int)
  {
    0 <= i && i + |t| <= |s| && s[i..i + |t|] == t
  }

  /** JavaScript's `s.includes(t)`. */
  predicate Includes(s: string, t: string)
  {
    exists i | 0 <= i <= |s| - |t| :: OccursAt(s, t, i)
  }

  /** No character `a` of `s` is directly followed by `b`. */
  predicate NoPair(s: string, a: char, b: char)
  {
    forall i :: 0 <= i < |s| - 1 ==> s[i] != a || s[i + 1] != b
  }

  /** A concatenation has no such pair if neither part has one and the
      pair does not straddle the join. */
  lemma NoPairConcat(u: string, v: string, a: char, b: char)
    requires NoPair(u, a, b) && NoPair(v, a, b)
    requires u != [] && v != [] ==> u[|u| - 1] != a || v[0] != b
    ensures NoPair(u + v, a, b)
  {
    var w := u + v;
    forall i | 0 <= i < |w| - 1 ensures w[i] != a || w[i + 1] != b {
      if i + 1 < |u| {
        assert w[i] == u[i] && w[i + 1] == u[i + 1];
      } else if i >= |u| {
        assert w[i] == v[i - |u|] && w[i + 1] == v[i + 1 - |u|];
      } else {
        assert w[i] == u[|u| - 1] && w[i + 1] == v[0];
      }
    }
  }

  /** If no two adjacent characters of `s` are the first two characters of
      `t`, then `s` does not include `t`. */
  lemma {:induction false} PairAbsent(s: string, t: string)
    requires |t| >= 2 && NoPair(s, t[0], t[1])
    ensures !Includes(s, t)
  {
    forall i | 0 <= i <= |s| - |t| ensures !OccursAt(s, t, i) {
      assert s[i..i + |t|][0] == s[i] && s[i..i + |t|][1] == s[i + 1];
    }
  }

  /** The index of the last '.' in `s`, or -1 when there is none. */
  function LastDot(s: string): (k: int)
    ensures -1 <= k < |s|
    ensures k >= 0 ==> s[k] == '.'
    ensures forall j :: k < j < |s| ==> s[j] != '.'
  {
    if |s| == 0 then -1
    else if s[|s| - 1] == '.' then |s| - 1
    else LastDot(s[..|s| - 1])
  }

  /** Node's `path.extname` on a bare file name: the suffix that starts at the
      last '.', or "" when there is no '.' or the only one opens the name (as in
      ".profile"). */
  function Extname(name: string): (ext: string)
    ensures |ext| <= |name| && name[|name| - |ext|..] == ext
    ensures ext != [] ==> ext[0] == '.' && forall j :: 0 < j < |ext| ==> ext[j] != '.'
    ensures ext == [] <==> forall j :: 0 < j < |name| ==> name[j] != '.'
  {
    var k := LastDot(name);
    if k <= 0 then
      []
    else
      var ext := name[k..];
      assert forall j :: 0 < j < |ext| ==> ext[j] == name[k + j];
      ext
  }

  /** A name built as `stem + Extname(name)`, where the stem is non-empty and
      has no '.', has the same extension as `name`. */
  lemma ExtnameOfStemPlusExt(stem: string, name: string)
    requires stem != [] && forall j :: 0 <= j < |stem| ==> stem[j] != '.'
    ensures Extname(stem + Extname(name)) == Extname(name)
  {
    var ext := Extname(name);
    var s := stem + ext;
    if ext == [] {
      assert forall j :: 0 < j < |s| ==> s[j] == stem[j];
    } else {
      assert s[|stem|] == '.';
      var k := LastDot(s);
      assert forall j :: |stem| < j < |s| ==> s[j] == ext[j - |stem|];
      assert k == |stem|;
      assert s[k..] == ext;
    }
  }
}
