/** The text rules the purpose heuristic and the extractors share: the 100-character
    truncation, the first delimited block, the first sentence of a docstring, and the runs
    of comment lines at the top of a file or just before a definition. */
module Summaries {

  import opened Wrappers
  import opened Strings

  const SUMMARY_LIMIT: nat := 100

  /** A summary: the text itself when it has at most 100 characters, otherwise its first
      100 characters and "...". */
  function Shorten(text: string): (r: string)
    ensures |r| <= SUMMARY_LIMIT + 3
    ensures |text| <= SUMMARY_LIMIT ==> r == text
    ensures |text| > SUMMARY_LIMIT ==>
              |r| == SUMMARY_LIMIT + 3 && r[..SUMMARY_LIMIT] == text[..SUMMARY_LIMIT] && EndsWith(r, "...")
  {
    if |text| > SUMMARY_LIMIT then
      var r := text[..SUMMARY_LIMIT] + "...";
      assert r[..SUMMARY_LIMIT] == text[..SUMMARY_LIMIT];
      assert r[|r| - 3..] == "...";
      r
    else text
  }

  /** Shortening a summary again changes nothing. */
  lemma ShortenIdempotent(text: string)
    ensures Shorten(Shorten(text)) == Shorten(text)
  {
    if |text| > SUMMARY_LIMIT {
      var r := Shorten(text);
      assert r[..SUMMARY_LIMIT] == text[..SUMMARY_LIMIT];
    }
  }

  /** The text of the first `open … close` block (`re.search` of `open(.*?)close` with
      the dot matching newlines): after the first `open`, up to the first `close` that
      starts after it. When the first `open` has no `close` after it, no later one has
      either, so there is no match at all. */
  function Delimited(s: string, open: string, close: string): (r: Option<string>)
    ensures r.Some? ==> exists o: nat ::
              && HasAt(s, o, open) && (forall p :: 0 <= p < o ==> !HasAt(s, p, open))
              && HasAt(s, o + |open|, r.value)
              && HasAt(s, o + |open| + |r.value|, close)
              && forall j :: o + |open| <= j < o + |open| + |r.value| ==> !HasAt(s, j, close)
    ensures r.None? ==> forall o: nat, c: nat :: HasAt(s, o, open) && o + |open| <= c ==> !HasAt(s, c, close)
  {
    match IndexFrom(s, open, 0)
    case None => None
    case Some(o) =>
      match IndexFrom(s, close, o + |open|)
      case None =>
        assert forall p: nat, c: nat :: HasAt(s, p, open) && p + |open| <= c ==> !HasAt(s, c, close) by {
          forall p: nat, c: nat | HasAt(s, p, open) && p + |open| <= c
            ensures !HasAt(s, c, close)
          {
            assert o <= p;
          }
        }
        None
      case Some(c) =>
        var r := s[o + |open|..c];
        assert HasAt(s, o + |open|, r);
        Some(r)
  }

  /** `i` is the first index at or after `from` where `t` occurs. */
  predicate FirstAt(s: string, t: string, from: nat, i: nat) {
    from <= i && HasAt(s, i, t) && forall j :: from <= j < i ==> !HasAt(s, j, t)
  }

  /** The first `open` of `s` is at `o`, and the first `close` after it at `c`. */
  predicate FirstBlock(s: string, open: string, close: string, o: nat, c: nat) {
    FirstAt(s, open, 0, o) && FirstAt(s, close, o + |open|, c)
  }

  /** The block is exactly the text between the first opener and the first closer after
      it, wherever later openers and closers occur. */
  lemma DelimitedFirst(s: string, open: string, close: string, o: nat, c: nat)
    requires FirstBlock(s, open, close, o, c)
    ensures c <= |s| && Delimited(s, open, close) == Some(s[o + |open|..c])
  {
    assert IndexFrom(s, open, 0) == Some(o);
  }

  /** No `open` in `s` has a `close` after it, so `re.search` finds no block. */
  ghost predicate NoBlock(s: string, open: string, close: string) {
    forall o: nat, c: nat :: HasAt(s, o, open) && o + |open| <= c ==> !HasAt(s, c, close)
  }

  /** Without an opener followed by a closer there is no block. */
  lemma DelimitedNone(s: string, open: string, close: string)
    requires NoBlock(s, open, close)
    ensures Delimited(s, open, close).None?
  {
  }

  /** A sentence ends at `i`: a `.` followed by whitespace or by the end of the text. */
  predicate SentenceEndAt(d: string, i: nat) {
    i < |d| && d[i] == '.' && (i + 1 == |d| || IsSpace(d[i + 1]))
  }

  /** `k` is the first sentence end of `d`. */
  predicate FirstSentenceEnd(d: string, k: nat) {
    SentenceEndAt(d, k) && forall i :: 0 <= i < k ==> !SentenceEndAt(d, i)
  }

  /** `re.split(r'\.(?:\s|$)', d)[0]`: the text before the first sentence end. */
  function FirstSentence(d: string): (r: string)
    ensures StartsWith(d, r)
    ensures r == d || SentenceEndAt(d, |r|)
    ensures forall i :: 0 <= i < |r| ==> !SentenceEndAt(d, i)
  {
    SentenceFrom(d, 0)
  }

  /** The first sentence is the text before the first sentence end. */
  lemma FirstSentenceAt(d: string, k: nat)
    requires FirstSentenceEnd(d, k)
    ensures FirstSentence(d) == d[..k]
  {
    var r := FirstSentence(d);
    assert |r| == k;
  }

  function SentenceFrom(d: string, i: nat): (r: string)
    requires i <= |d|
    decreases |d| - i
    ensures |r| >= i && StartsWith(d, r)
    ensures r == d || SentenceEndAt(d, |r|)
    ensures forall j :: i <= j < |r| ==> !SentenceEndAt(d, j)
  {
    if i == |d| then d
    else if SentenceEndAt(d, i) then d[..i]
    else SentenceFrom(d, i + 1)
  }

  /** The summary a docstring gives: its first sentence, stripped and shortened. */
  function DocSummary(docstring: string): (r: string)
    ensures |r| <= SUMMARY_LIMIT + 3
  {
    Shorten(Strip(FirstSentence(docstring)))
  }

  /** The first `n` lines. */
  function FirstLines(lines: seq<string>, n: nat): (r: seq<string>)
    ensures |r| <= n && |r| <= |lines| && r == lines[..|r|]
    ensures |r| == n || r == lines
  {
    if |lines| <= n then lines else lines[..n]
  }

  /** How a scan reads one line once it is stripped: a comment (what follows the marker,
      stripped), a blank line, or code (the stripped line). */
  datatype LineKind = Comment(text: string) | Blank | Code(line: string)

  function Classify(line: string, marker: string): LineKind {
    var stripped := Strip(line);
    if StartsWith(stripped, marker) then Comment(Strip(stripped[|marker|..]))
    else if stripped == [] then Blank
    else Code(stripped)
  }

  /** A line is code exactly when, stripped, it is non-empty and does not start with the
      marker; its code is the stripped line. */
  lemma ClassifyCode(line: string, marker: string)
    ensures Classify(line, marker).Code? <==> Strip(line) != [] && !StartsWith(Strip(line), marker)
    ensures Classify(line, marker).Code? ==> Classify(line, marker).line == Strip(line)
  {
    var stripped := Strip(line);
    assert Classify(line, marker) ==
           if StartsWith(stripped, marker) then Comment(Strip(stripped[|marker|..]))
           else if stripped == [] then Blank
           else Code(stripped);
  }

  /** Stripped, the line is empty or starts with the comment marker. */
  predicate NotCode(line: string, marker: string) {
    Strip(line) == [] || StartsWith(Strip(line), marker)
  }

  /** No line is code. */
  predicate NoCodeIn(lines: seq<string>, marker: string) {
    forall j :: 0 <= j < |lines| ==> NotCode(lines[j], marker)
  }

  /** Line `i` is the first one that is not blank and not a comment. */
  predicate FirstCodeAt(lines: seq<string>, marker: string, i: nat) {
    i < |lines| && !NotCode(lines[i], marker) && forall j :: 0 <= j < i ==> NotCode(lines[j], marker)
  }

  /** The first line that, stripped, is non-empty and does not start with the marker is
      the first code line. */
  lemma FirstCodeLine(lines: seq<string>, marker: string, i: nat)
    requires FirstCodeAt(lines, marker, i)
    ensures FirstCode(Kinds(lines, marker)) == Some(Strip(lines[i]))
  {
    var kinds := Kinds(lines, marker);
    ClassifyCode(lines[i], marker);
    forall j | 0 <= j < i
      ensures !kinds[j].Code?
    {
      ClassifyCode(lines[j], marker);
    }
  }

  /** With every line blank or a comment once stripped, there is no code line. */
  lemma NoCodeLine(lines: seq<string>, marker: string)
    requires NoCodeIn(lines, marker)
    ensures FirstCode(Kinds(lines, marker)).None?
  {
    var kinds := Kinds(lines, marker);
    forall j | 0 <= j < |lines|
      ensures !kinds[j].Code?
    {
      ClassifyCode(lines[j], marker);
    }
  }

  /** How the comment scans read each of `lines`. */
  function Kinds(lines: seq<string>, marker: string): (kinds: seq<LineKind>)
    ensures |kinds| == |lines|
    ensures forall i :: 0 <= i < |lines| ==> kinds[i] == Classify(lines[i], marker)
  {
    seq(|lines|, i requires 0 <= i < |lines| => Classify(lines[i], marker))
  }

  /** The comment run at the top of a file: comment lines contribute their text when it is
      non-empty; blank lines are skipped; the first code line ends the run. */
  function LeadingRun(kinds: seq<LineKind>): (r: seq<string>)
    ensures forall i :: 0 <= i < |r| ==> r[i] != []
  {
    if kinds == [] then []
    else
      match kinds[0]
      case Comment(text) => (if text != [] then [text] else []) + LeadingRun(kinds[1..])
      case Blank => LeadingRun(kinds[1..])
      case Code(_) => []
  }

  /** Nothing after the first code line reaches the top-of-file comment run. */
  lemma {:induction false} LeadingRunStopsAtCode(pre: seq<LineKind>, code: LineKind, post: seq<LineKind>)
    requires code.Code?
    ensures LeadingRun(pre + [code] + post) == LeadingRun(pre)
  {
    if pre == [] {
      assert (pre + [code] + post)[0] == code;
    } else {
      assert (pre + [code] + post)[1..] == pre[1..] + [code] + post;
      LeadingRunStopsAtCode(pre[1..], code, post);
    }
  }

  /** Blank lines and comment lines that say nothing leave the run unchanged. */
  lemma {:induction false} LeadingRunSkips(pre: seq<LineKind>, k: LineKind, post: seq<LineKind>)
    requires k == Blank || k == Comment([])
    requires forall i :: 0 <= i < |pre| ==> !pre[i].Code?
    ensures LeadingRun(pre + [k] + post) == LeadingRun(pre + post)
  {
    if pre == [] {
      assert pre + [k] + post == [k] + post && pre + post == post;
      assert ([k] + post)[1..] == post;
    } else {
      assert (pre + [k] + post)[1..] == pre[1..] + [k] + post;
      assert (pre + post)[1..] == pre[1..] + post;
      assert (pre + [k] + post)[0] == (pre + post)[0] == pre[0];
      LeadingRunSkips(pre[1..], k, post);
    }
  }

  /** The loop that collects the top-of-file comment run, stopping at the first code line. */
  method CollectLeadingComments(kinds: seq<LineKind>) returns (comments: seq<string>)
    ensures comments == LeadingRun(kinds)
  {
    comments := [];
    var i := 0;
    while i < |kinds|
      invariant 0 <= i <= |kinds|
      invariant LeadingRun(kinds) == comments + LeadingRun(kinds[i..])
    {
      assert kinds[i..][0] == kinds[i] && kinds[i..][1..] == kinds[i + 1..];
      match kinds[i] {
        case Comment(text) =>
          if text != [] {
            comments := comments + [text];
          }
        case Blank =>
        case Code(_) =>
          return;
      }
      i := i + 1;
    }
  }

  /** The comment run just before a definition, read upwards from the last line: comment
      lines contribute their text (even when it is empty), blank lines are skipped, and the
      first code line ends the run. */
  function TrailingRun(kinds: seq<LineKind>): (r: seq<string>)
  {
    if kinds == [] then []
    else
      match kinds[|kinds| - 1]
      case Comment(text) => TrailingRun(kinds[..|kinds| - 1]) + [text]
      case Blank => TrailingRun(kinds[..|kinds| - 1])
      case Code(_) => []
  }

  /** Nothing before the last code line reaches the comment run above a definition. */
  lemma {:induction false} TrailingRunStopsAtCode(pre: seq<LineKind>, code: LineKind, post: seq<LineKind>)
    requires code.Code?
    ensures TrailingRun(pre + [code] + post) == TrailingRun(post)
    decreases |post|
  {
    var all := pre + [code] + post;
    if post == [] {
      assert all[|all| - 1] == code;
    } else {
      assert all[..|all| - 1] == pre + [code] + post[..|post| - 1];
      assert all[|all| - 1] == post[|post| - 1];
      TrailingRunStopsAtCode(pre, code, post[..|post| - 1]);
    }
  }

  /** With no code line in between, the run holds exactly the comment texts, in order. */
  lemma {:induction false} TrailingRunComments(kinds: seq<LineKind>)
    requires forall i :: 0 <= i < |kinds| ==> !kinds[i].Code?
    ensures TrailingRun(kinds) == CommentTexts(kinds)
  {
    if kinds != [] {
      var init := kinds[..|kinds| - 1];
      TrailingRunComments(init);
      CommentTextsSnoc(init, kinds[|kinds| - 1]);
      assert init + [kinds[|kinds| - 1]] == kinds;
    }
  }

  /** The texts of the comment lines among `kinds`. */
  function CommentTexts(kinds: seq<LineKind>): seq<string> {
    if kinds == [] then []
    else (if kinds[0].Comment? then [kinds[0].text] else []) + CommentTexts(kinds[1..])
  }

  lemma {:induction false} CommentTextsSnoc(kinds: seq<LineKind>, last: LineKind)
    ensures CommentTexts(kinds + [last]) ==
            CommentTexts(kinds) + (if last.Comment? then [last.text] else [])
  {
    if kinds != [] {
      assert (kinds + [last])[1..] == kinds[1..] + [last];
      CommentTextsSnoc(kinds[1..], last);
    } else {
      assert [] + [last] == [last];
    }
  }

  /** The reversed loop that collects the comment run above a definition, inserting each
      comment at the front. */
  method CollectTrailingComments(kinds: seq<LineKind>) returns (comments: seq<string>)
    ensures comments == TrailingRun(kinds)
  {
    comments := [];
    var i := |kinds|;
    assert kinds[..i] == kinds;
    while i > 0
      invariant 0 <= i <= |kinds|
      invariant TrailingRun(kinds) == TrailingRun(kinds[..i]) + comments
    {
      assert kinds[..i][..i - 1] == kinds[..i - 1] && kinds[..i][i - 1] == kinds[i - 1];
      match kinds[i - 1] {
        case Comment(text) =>
          comments := [text] + comments;
        case Blank =>
        case Code(_) =>
          return;
      }
      i := i - 1;
    }
    assert kinds[..0] == [];
  }

  /** The first code line, as a scan that skips blank and comment lines finds it. */
  function FirstCode(kinds: seq<LineKind>): (r: Option<string>)
    ensures r.Some? <==> exists i :: 0 <= i < |kinds| && kinds[i].Code?
    ensures forall i :: 0 <= i < |kinds| && kinds[i].Code? ==>
              (forall j :: 0 <= j < i ==> !kinds[j].Code?) ==> r == Some(kinds[i].line)
  {
    if kinds == [] then None
    else if kinds[0].Code? then Some(kinds[0].line)
    else
      var r := FirstCode(kinds[1..]);
      assert forall i :: 1 <= i < |kinds| ==> kinds[i] == kinds[1..][i - 1];
      r
  }

  /** The loop that looks for the first code line and stops there. */
  method FindFirstCode(kinds: seq<LineKind>) returns (line: Option<string>)
    ensures line == FirstCode(kinds)
  {
    line := None;
    var i := 0;
    while i < |kinds|
      invariant 0 <= i <= |kinds|
      invariant forall j :: 0 <= j < i ==> !kinds[j].Code?
    {
      if kinds[i].Code? {
        line := Some(kinds[i].line);
        return;
      }
      i := i + 1;
    }
  }

  /** The first line that is not blank, stripped. */
  function FirstNonBlank(lines: seq<string>): (r: Option<string>)
    ensures r.Some? ==> r.value != [] &&
                        exists i :: 0 <= i < |lines| && Strip(lines[i]) == r.value &&
                                    forall j :: 0 <= j < i ==> Strip(lines[j]) == []
    ensures r.None? <==> forall i :: 0 <= i < |lines| ==> IsBlank(lines[i])
    ensures r.None? <==> forall i :: 0 <= i < |lines| ==> Strip(lines[i]) == []
  {
    var stripped := seq(|lines|, i requires 0 <= i < |lines| => Strip(lines[i]));
    var i := FirstNonEmpty(stripped, 0);
    if i.Some? then
      var k := i.value;
      assert Strip(lines[k]) == stripped[k] && !IsBlank(lines[k]);
      assert forall j :: 0 <= j < k ==> Strip(lines[j]) == stripped[j];
      Some(stripped[k])
    else
      assert forall j :: 0 <= j < |lines| ==> Strip(lines[j]) == stripped[j];
      None
  }

  /** The index of the first non-empty text at or after `k`. */
  function FirstNonEmpty(texts: seq<string>, k: nat): (r: Option<nat>)
    requires k <= |texts|
    decreases |texts| - k
    ensures r.Some? ==> (k <= r.value < |texts| && texts[r.value] != [] &&
                         forall j :: k <= j < r.value ==> texts[j] == [])
    ensures r.None? ==> forall j :: k <= j < |texts| ==> texts[j] == []
  {
    if k == |texts| then None
    else if texts[k] != [] then Some(k)
    else FirstNonEmpty(texts, k + 1)
  }
}
