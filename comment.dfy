/** The comment split of `Property.Load`: Go's
    `regexp.MustCompile("(?P<content>[^;#]*)[;|#](?P<comment>.*)$").FindStringSubmatch`.

    Go's regexp returns the leftmost match and, among the matches that start
    there, the one a backtracking matcher finds first. The pattern is not
    anchored at the front, so the search tries start positions 0, 1, 2, ...;
    at each start, the greedy `[^;#]*` first takes the longest run of
    characters other than `;` and `#`, and then gives characters back one by
    one until the next character is accepted by the class `[;|#]` (which
    contains `|` as well). The rest, `.*$`, succeeds exactly when no newline
    follows the delimiter: `.` does not match `\n`, and `$` is end of text. */
module CommentSplit {
  import opened Wrappers

  /** The two capture groups of a match. */
  datatype Split = Split(content: string, comment: string)

  /** The class `[;|#]`. */
  predicate IsDelimiter(c: char)
  {
    c == ';' || c == '|' || c == '#'
  }

  /** The characters the class `[^;#]` refuses. */
  predicate IsCommentStart(c: char)
  {
    c == ';' || c == '#'
  }

  predicate NoCommentStart(s: string)
  {
    forall k :: 0 <= k < |s| ==> !IsCommentStart(s[k])
  }

  /** `.*$` matches the rest of the text from `k` on. */
  predicate RestIsOneLine(s: string, k: nat)
    requires k <= |s|
  {
    forall m :: k <= m < |s| ==> s[m] != '\n'
  }

  /** The content may end at `m`: a delimiter stands there with one line
      after it. */
  predicate EndsContent(s: string, m: nat)
    requires m < |s|
  {
    IsDelimiter(s[m]) && RestIsOneLine(s, m + 1)
  }

  /** Where the greedy `[^;#]*` started at `p` stops: the first `;` or `#` at
      or after `p`, or the end of the text. */
  function RunEnd(s: string, p: nat): (q: nat)
    requires p <= |s|
    ensures p <= q <= |s|
    ensures forall k :: p <= k < q ==> !IsCommentStart(s[k])
    ensures q < |s| ==> IsCommentStart(s[q])
    decreases |s| - p
  {
    if p == |s| || IsCommentStart(s[p]) then p else RunEnd(s, p + 1)
  }

  /** The match that starts at `p` with content `s[p..k]`, or, giving back
      characters, with a shorter content. */
  function Backtrack(s: string, p: nat, k: nat): Option<Split>
    requires p <= k <= |s|
    decreases k - p
  {
    if k < |s| && EndsContent(s, k) then Some(Split(s[p..k], s[k + 1..]))
    else if k == p then None
    else Backtrack(s, p, k - 1)
  }

  /** A match found by giving back characters: the content ends at a
      delimiter with one line after it, and the groups are the text before
      and after that delimiter. */
  lemma {:induction false} BacktrackSound(s: string, p: nat, k: nat)
    requires p <= k <= |s|
    ensures var r := Backtrack(s, p, k);
      r.Some? ==> var j := p + |r.value.content|;
                  j <= k && j < |s| && EndsContent(s, j) && r.value == Split(s[p..j], s[j + 1..])
    decreases k - p
  {
    if !(k < |s| && EndsContent(s, k)) && k != p {
      BacktrackSound(s, p, k - 1);
    }
  }

  /** And it misses none: with no match every position from `p` to `k` fails
      to end the content, and a match ends at the rightmost one that does. */
  lemma {:induction false} BacktrackComplete(s: string, p: nat, k: nat)
    requires p <= k <= |s|
    ensures var r := Backtrack(s, p, k);
      && (r.None? ==> forall m :: p <= m <= k && m < |s| ==> !EndsContent(s, m))
      && (r.Some? ==> forall m :: p + |r.value.content| < m <= k && m < |s| ==> !EndsContent(s, m))
    decreases k - p
  {
    if !(k < |s| && EndsContent(s, k)) && k != p {
      BacktrackComplete(s, p, k - 1);
    }
  }

  /** The leftmost match that starts at `p` or later. */
  function MatchFrom(s: string, p: nat): (r: Option<Split>)
    requires p <= |s|
    ensures r.Some? ==> IsMatch(s, r.value)
    decreases |s| - p
  {
    if p == |s| then None
    else
      match Backtrack(s, p, RunEnd(s, p))
      case Some(m) => BacktrackSound(s, p, RunEnd(s, p)); Some(m)
      case None => MatchFrom(s, p + 1)
  }

  /** `m` is a match of the pattern inside `s`: a content free of `;` and `#`,
      a delimiter, and a comment that runs to the end of the text on one line. */
  predicate IsMatch(s: string, m: Split)
  {
    var j := |s| - |m.comment| - 1;
    |m.content| <= j < |s| && IsDelimiter(s[j]) && RestIsOneLine(s, j + 1) &&
    m.content == s[j - |m.content|..j] && m.comment == s[j + 1..] && NoCommentStart(m.content)
  }

  /** `FindStringSubmatch`: `None` plays the part of Go's nil result. */
  function FindSubmatch(s: string): (r: Option<Split>)
    ensures r.Some? ==> IsMatch(s, r.value)
  {
    MatchFrom(s, 0)
  }

  /** Giving back characters skips every position that cannot end the content. */
  lemma {:induction false} BacktrackSkips(s: string, p: nat, j: nat, k: nat)
    requires p <= j <= k <= |s|
    requires forall m :: j < m <= k && m < |s| ==> !EndsContent(s, m)
    ensures Backtrack(s, p, k) == Backtrack(s, p, j)
    decreases k - j
  {
    if j < k {
      assert !(k < |s| && EndsContent(s, k));
      assert k != p;
      BacktrackSkips(s, p, j, k - 1);
    }
  }

  /** With no delimiter in the text, there is no match at all. */
  lemma {:induction false} NoDelimiterNoMatch(s: string)
    requires forall k :: 0 <= k < |s| ==> !IsDelimiter(s[k])
    ensures FindSubmatch(s) == None
  {
    NoMatchFrom(s, 0);
  }

  lemma {:induction false} NoMatchFrom(s: string, p: nat)
    requires p <= |s|
    requires forall k :: 0 <= k < |s| ==> !IsDelimiter(s[k])
    ensures MatchFrom(s, p) == None
    decreases |s| - p
  {
    if p < |s| {
      var q := RunEnd(s, p);
      BacktrackSkips(s, p, p, q);
      NoMatchFrom(s, p + 1);
    }
  }

  /** A `;` or `#` with no `;` and no `#` before it: the content is everything
      before it and the comment everything after it (provided no newline
      follows, which holds for every line a line scanner produces). */
  lemma {:induction false} SplitAtFirstCommentStart(s: string, i: nat)
    requires i < |s| && IsCommentStart(s[i])
    requires NoCommentStart(s[..i])
    requires RestIsOneLine(s, i + 1)
    ensures FindSubmatch(s) == Some(Split(s[..i], s[i + 1..]))
  {
    assert forall k :: 0 <= k < i ==> !IsCommentStart(s[k]) by {
      assert forall k :: 0 <= k < i ==> s[..i][k] == s[k];
    }
    var q := RunEnd(s, 0);
    assert q == i;
    assert s[0..i] == s[..i];
  }

  /** With no `;` and no `#`, the `|` that the class `[;|#]` admits splits the
      line at its LAST occurrence, because the greedy content gives back
      characters from the right. */
  lemma {:induction false} SplitAtLastBar(s: string, j: nat)
    requires NoCommentStart(s)
    requires j < |s| && s[j] == '|'
    requires forall m :: j < m < |s| ==> s[m] != '|'
    requires RestIsOneLine(s, j + 1)
    ensures FindSubmatch(s) == Some(Split(s[..j], s[j + 1..]))
  {
    var q := RunEnd(s, 0);
    assert q == |s|;
    BacktrackSkips(s, 0, j, q);
    assert s[0..j] == s[..j];
  }

  /** The text that follows the first `;` or `#` of `a + [d] + b`. */
  lemma {:induction false} SplitAfter(a: string, d: char, b: string)
    requires IsCommentStart(d) && NoCommentStart(a)
    requires forall m :: 0 <= m < |b| ==> b[m] != '\n'
    ensures FindSubmatch(a + [d] + b) == Some(Split(a, b))
  {
    var s := a + [d] + b;
    assert s[..|a|] == a;
    assert s[|a| + 1..] == b;
    assert RestIsOneLine(s, |a| + 1) by {
      assert forall m :: |a| + 1 <= m < |s| ==> s[m] == b[m - |a| - 1];
    }
    SplitAtFirstCommentStart(s, |a|);
  }

  /** The newline quirk: when a line's only delimiter is followed, somewhere,
      by a newline, no start position gives a match, because `.*$` cannot
      cross the newline and the content can end nowhere else. */
  lemma {:induction false} NoMatchWhenNewlineFollows(s: string, i: nat, p: nat)
    requires i < |s| && IsDelimiter(s[i]) && !RestIsOneLine(s, i + 1)
    requires forall k :: 0 <= k < |s| && k != i ==> !IsDelimiter(s[k])
    requires p <= |s|
    ensures MatchFrom(s, p) == None
    decreases |s| - p
  {
    if p < |s| {
      BacktrackSkips(s, p, p, RunEnd(s, p));
      NoMatchWhenNewlineFollows(s, i, p + 1);
    }
  }

  /** So `FindStringSubmatch` returns nil for such a line. */
  lemma NewlineAfterComment(s: string, i: nat)
    requires i < |s| && IsDelimiter(s[i]) && !RestIsOneLine(s, i + 1)
    requires forall k :: 0 <= k < |s| && k != i ==> !IsDelimiter(s[k])
    ensures FindSubmatch(s) == None
  {
    NoMatchWhenNewlineFollows(s, i, 0);
  }

  /** The line `a;b\nc` is one such line. */
  lemma NewlineAfterCommentExample()
    ensures FindSubmatch("a;b\nc") == None
  {
    var s := "a;b\nc";
    assert s[3] == '\n';
    NewlineAfterComment(s, 1);
  }
}
