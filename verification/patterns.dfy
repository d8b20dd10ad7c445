/** The seven regular expressions the extractors run, each as a hand-written scanner.
    Every pattern is a chain of literals, greedy runs of one character class, lazy groups
    and a closing lookahead, used with the "dot matches newline" flag. For each of them the
    backtracking matcher's answer at a position is deterministic:
    - a greedy run is always taken whole, because the element after it can never be a
      character of the run's own class;
    - a lazy group ends at the first place where the rest of the pattern can match;
    - a closing lookahead (a line break followed by something, or the end of the text)
      always succeeds at the end of the text at the latest, so once the lazy group before
      the body has found its closer the whole match succeeds.
    `MatchAt` is that answer and `FindAll` is `re.finditer`: try each position in turn and,
    after a match, go on from its end. */
module Patterns {

  import opened Wrappers
  import opened Strings

  /** One match: where it starts and ends in the text, the matched text (`text`), the
      first capture group (`name`),
      the second group where the pattern has three (`params`: the parameter list of a
      Python or JavaScript definition, the `in=` list of a RouterOS foreach; empty
      otherwise) and the last group (`body`). */
  datatype Match = Match(start: nat, end: nat, text: string, name: string, params: string, body: string)

  datatype Pattern =
    | PyDef        // `def NAME(PARAMS):BODY`, the body ending before the next unindented line
    | JsFunction   // `function NAME(PARAMS) {BODY`, the body ending before a line that starts with `}`
    | JsArrow      // `const|let|var NAME = (…) => {BODY` or `… = x => {BODY`, ending like JsFunction
    | JsMethod     // `NAME(PARAMS) {BODY`, ending before a line whose first non-blank is `}`
    | RosLabel     // `:label=NAME`
    | RosForeach   // `foreach NAME in=LIST do={…}` up to the first `}`
    | RosDo        // `do={…}` up to the first `}`

  predicate IsAlnum(c: char) {
    ('a' <= c <= 'z') || ('A' <= c <= 'Z') || ('0' <= c <= '9')
  }

  /** The character classes the patterns repeat. */
  datatype CharClass = Space | NonSpace | PyIdent | JsIdent | LabelChar

  predicate InClass(c: char, cls: CharClass) {
    match cls
    case Space => IsSpace(c)
    case NonSpace => !IsSpace(c)
    case PyIdent => IsAlnum(c) || c == '_'
    case JsIdent => IsAlnum(c) || c == '_' || c == '$'
    case LabelChar => IsAlnum(c) || c == '_' || c == '.' || c == '-'
  }

  /** The end of the longest run of `cls` characters that starts at `i`. */
  function RunEnd(s: string, i: nat, cls: CharClass): (j: nat)
    requires i <= |s|
    decreases |s| - i
    ensures i <= j <= |s|
    ensures forall k :: i <= k < j ==> InClass(s[k], cls)
    ensures j == |s| || !InClass(s[j], cls)
  {
    if i < |s| && InClass(s[i], cls) then RunEnd(s, i + 1, cls) else i
  }

  /** Optional whitespace and then `{`: the index after the brace. */
  function BraceTail(s: string, i: nat): (r: Option<nat>)
    requires i <= |s|
    ensures r.Some? ==> i < r.value <= |s| && s[r.value - 1] == '{'
  {
    var w := RunEnd(s, i, Space);
    if w < |s| && s[w] == '{' then Some(w + 1) else None
  }

  /** Optional whitespace, `=>`, optional whitespace and `{`: the index after the brace. */
  function ArrowTail(s: string, i: nat): (r: Option<nat>)
    requires i <= |s|
    ensures r.Some? ==> i < r.value <= |s| && s[r.value - 1] == '{'
  {
    var w := RunEnd(s, i, Space);
    if HasAt(s, w, "=>") then BraceTail(s, w + 2) else None
  }

  /** What ends a lazy group: `):`, `)` then `{`, `)` then `=>` and `{`, or `}`. */
  datatype Closer = ParenColon | ParenBrace | ParenArrowBrace | CurlyClose

  /** The index just after the closer `k` when one starts at `q`. */
  function CloserEnd(s: string, q: nat, k: Closer): (r: Option<nat>)
    ensures r.Some? ==> q < r.value <= |s|
  {
    if q >= |s| then None
    else
      match k
      case ParenColon => if HasAt(s, q, "):") then Some(q + 2) else None
      case ParenBrace => if s[q] == ')' then BraceTail(s, q + 1) else None
      case ParenArrowBrace => if s[q] == ')' then ArrowTail(s, q + 1) else None
      case CurlyClose => if s[q] == '}' then Some(q + 1) else None
  }

  /** Where a lazy group that starts at `from` stops: the first closer at or after `from`. */
  function FirstCloser(s: string, from: nat, k: Closer): (r: Option<nat>)
    requires from <= |s|
    decreases |s| - from
    ensures r.Some? ==> from <= r.value < |s| && CloserEnd(s, r.value, k).Some?
    ensures r.Some? ==> forall j :: from <= j < r.value ==> CloserEnd(s, j, k).None?
    ensures r.None? ==> forall j :: from <= j ==> CloserEnd(s, j, k).None?
  {
    if from == |s| then None
    else if CloserEnd(s, from, k).Some? then Some(from)
    else FirstCloser(s, from + 1, k)
  }

  /** The lookaheads that end a definition's body. */
  datatype Boundary =
    | UnindentedLine     // a line break followed by a non-blank character
    | BraceLine          // a line break followed by `}`
    | IndentedBraceLine  // a line break, whitespace, then `}`

  predicate BoundaryAt(s: string, e: nat, b: Boundary) {
    e == |s| ||
    (e < |s| && s[e] == '\n' &&
      match b
      case UnindentedLine => e + 1 < |s| && !IsSpace(s[e + 1])
      case BraceLine => e + 1 < |s| && s[e + 1] == '}'
      case IndentedBraceLine => RunEnd(s, e + 1, Space) < |s| && s[RunEnd(s, e + 1, Space)] == '}')
  }

  /** Where a lazy body that starts at `from` stops: the first boundary at or after it. */
  function BodyEnd(s: string, from: nat, b: Boundary): (e: nat)
    requires from <= |s|
    decreases |s| - from
    ensures from <= e <= |s| && BoundaryAt(s, e, b)
    ensures forall j :: from <= j < e ==> !BoundaryAt(s, j, b)
  {
    if BoundaryAt(s, from, b) then from else BodyEnd(s, from + 1, b)
  }

  /** `NAME(PARAMS` then the closer `k` and the body up to boundary `b`, where the name
      starts at `n`. Shared by the three definition shapes that name a parameter list. */
  function Definition(s: string, p: nat, n: nat, cls: CharClass, k: Closer, b: Boundary): (r: Option<Match>)
    requires p <= n <= |s|
    ensures FoundAt(r, s, p) && (r.Some? ==> n < r.value.end)
    ensures r.Some? ==> forall i :: 0 <= i < |r.value.name| ==> InClass(r.value.name[i], cls)
  {
    var c := RunEnd(s, n, cls);
    var d := RunEnd(s, c, Space);
    if c == n || d == |s| || s[d] != '(' then None
    else
      match FirstCloser(s, d + 1, k)
      case None => None
      case Some(q) =>
        var after := CloserEnd(s, q, k).value;
        var e := BodyEnd(s, after, b);
        Some(Match(p, e, s[p..e], s[n..c], s[d + 1..q], s[after..e]))
  }

  /** The keyword that opens a JavaScript variable declaration at `p`, if any. */
  function DeclarationKeyword(s: string, p: nat): (r: Option<nat>)
    ensures r.Some? ==> p < r.value <= |s|
  {
    if HasAt(s, p, "const") then Some(p + 5)
    else if HasAt(s, p, "let") then Some(p + 3)
    else if HasAt(s, p, "var") then Some(p + 3)
    else None
  }

  /** The arrow function shape after `=` and optional whitespace at `i`: a parenthesised
      parameter list up to the first `) => {`, or one bare identifier and `=> {`. The index
      after the opening brace of the body. */
  function ArrowHead(s: string, i: nat): (r: Option<nat>)
    requires i <= |s|
    ensures r.Some? ==> i < r.value <= |s|
  {
    if i == |s| then None
    else if s[i] == '(' then
      match FirstCloser(s, i + 1, ParenArrowBrace)
      case None => None
      case Some(q) => CloserEnd(s, q, ParenArrowBrace)
    else if InClass(s[i], JsIdent) then ArrowTail(s, RunEnd(s, i, JsIdent))
    else None
  }

  /** What every scanner promises of a match it finds at `p`. */
  predicate FoundAt(r: Option<Match>, s: string, p: nat) {
    r.Some? ==> r.value.start == p < r.value.end <= |s| && r.value.text == s[p..r.value.end] && r.value.name != []
  }

  /** `def`, whitespace, then a Python definition whose body runs to the next unindented line. */
  function PyDefAt(s: string, p: nat): (r: Option<Match>)
    ensures FoundAt(r, s, p)
  {
    if !HasAt(s, p, "def") then None
    else
      var b := RunEnd(s, p + 3, Space);
      if b == p + 3 then None else Definition(s, p, b, PyIdent, ParenColon, UnindentedLine)
  }

  /** `function`, whitespace, then a definition whose body runs to a line starting with `}`. */
  function JsFunctionAt(s: string, p: nat): (r: Option<Match>)
    ensures FoundAt(r, s, p)
  {
    if !HasAt(s, p, "function") then None
    else
      var b := RunEnd(s, p + 8, Space);
      if b == p + 8 then None else Definition(s, p, b, JsIdent, ParenBrace, BraceLine)
  }

  /** A method-like definition: an identifier, its parameter list and `{`, the body running
      to a line whose first non-blank character is `}`. */
  function JsMethodAt(s: string, p: nat): (r: Option<Match>)
    ensures FoundAt(r, s, p)
  {
    if p >= |s| then None else Definition(s, p, p, JsIdent, ParenBrace, IndentedBraceLine)
  }

  /** `const`, `let` or `var`, a name, `=`, an arrow function head and its body. */
  function JsArrowAt(s: string, p: nat): (r: Option<Match>)
    ensures FoundAt(r, s, p)
  {
    var keyword := DeclarationKeyword(s, p);
    if keyword.None? then None
    else
      var k := keyword.value;
      var b := RunEnd(s, k, Space);
      var c := RunEnd(s, b, JsIdent);
      var d := RunEnd(s, c, Space);
      if b == k || c == b || d == |s| || s[d] != '=' then None
      else
        var head := ArrowHead(s, RunEnd(s, d + 1, Space));
        if head.None? then None
        else
          var e := BodyEnd(s, head.value, BraceLine);
          Some(Match(p, e, s[p..e], s[b..c], [], s[head.value..e]))
  }

  /** `:label=` and a non-empty run of label characters. */
  function RosLabelAt(s: string, p: nat): (r: Option<Match>)
    ensures FoundAt(r, s, p)
  {
    if !HasAt(s, p, ":label=") then None
    else
      var c := RunEnd(s, p + 7, LabelChar);
      if c == p + 7 then None else Some(Match(p, c, s[p..c], s[p + 7..c], [], s[p + 7..c]))
  }

  /** `foreach NAME in=LIST do={` up to the first `}`. */
  function RosForeachAt(s: string, p: nat): (r: Option<Match>)
    ensures FoundAt(r, s, p)
    // the loop's `do={…}` part is a block match of its own, ending where the loop ends
    ensures r.Some? ==> exists q: nat :: p < q < r.value.end && RosDoAt(s, q) == Some(Match(q, r.value.end, s[q..r.value.end], r.value.body, [], r.value.body))
  {
    if !HasAt(s, p, "foreach") then None
    else
      var a := RunEnd(s, p + 7, Space);
      var b := RunEnd(s, a, NonSpace);
      var c := RunEnd(s, b, Space);
      if a == p + 7 || b == a || c == b || !HasAt(s, c, "in=") then None
      else
        var d := RunEnd(s, c + 3, NonSpace);
        var e := RunEnd(s, d, Space);
        if d == c + 3 || e == d then None
        else
          // the loop ends with the same `do=({.*?})` group as a bare block
          match RosDoAt(s, e)
          case None => None
          case Some(block) => Some(Match(p, block.end, s[p..block.end], s[a..b], s[c + 3..d], block.body))
  }

  /** `do={` up to the first `}`. */
  function RosDoAt(s: string, p: nat): (r: Option<Match>)
    ensures FoundAt(r, s, p)
  {
    if !HasAt(s, p, "do={") then None
    else
      match FirstCloser(s, p + 4, CurlyClose)
      case None => None
      case Some(q) => Some(Match(p, q + 1, s[p..q + 1], s[p + 3..q + 1], [], s[p + 3..q + 1]))
  }

  /** The match of `pat` that the regular-expression engine finds starting exactly at `p`. */
  function MatchAt(pat: Pattern, s: string, p: nat): (r: Option<Match>)
    ensures FoundAt(r, s, p)
  {
    match pat
    case PyDef => PyDefAt(s, p)
    case JsFunction => JsFunctionAt(s, p)
    case JsArrow => JsArrowAt(s, p)
    case JsMethod => JsMethodAt(s, p)
    case RosLabel => RosLabelAt(s, p)
    case RosForeach => RosForeachAt(s, p)
    case RosDo => RosDoAt(s, p)
  }

  /** A matcher over a text of length `n`: what it finds at a position starts there and
      ends later, within the text. */
  ghost predicate IsMatcher(at: nat -> Option<Match>, n: nat) {
    forall j: nat :: at(j).Some? ==> at(j).value.start == j < at(j).value.end <= n
  }

  /** The `finditer` loop for any matcher: try each position from `from` on and, after a
      match, go on from its end. What it reports are the matcher's own matches, at or after
      `from`, in order and without overlap. */
  function Scan(at: nat -> Option<Match>, n: nat, from: nat): (ms: seq<Match>)
    requires IsMatcher(at, n) && from <= n
    decreases n - from
    ensures forall i :: 0 <= i < |ms| ==> at(ms[i].start) == Some(ms[i]) && from <= ms[i].start
    ensures forall i, k :: 0 <= i < k < |ms| ==> ms[i].end <= ms[k].start
  {
    if from == n then []
    else if at(from).Some? then
      var m := at(from).value;
      var rest := Scan(at, n, m.end);
      assert forall k :: 1 <= k < |rest| + 1 ==> ([m] + rest)[k] == rest[k - 1];
      [m] + rest
    else Scan(at, n, from + 1)
  }

  /** Position `j` lies inside one of the matches `ms`. */
  predicate Covered(ms: seq<Match>, j: nat) {
    exists i :: 0 <= i < |ms| && ms[i].start <= j < ms[i].end
  }

  lemma CoveredCons(m: Match, rest: seq<Match>, j: nat)
    requires (m.start <= j < m.end) || Covered(rest, j)
    ensures Covered([m] + rest, j)
  {
    if !(m.start <= j < m.end) {
      var i :| 0 <= i < |rest| && rest[i].start <= j < rest[i].end;
      assert ([m] + rest)[i + 1] == rest[i];
    } else {
      assert ([m] + rest)[0] == m;
    }
  }

  /** The scan misses nothing: every position at or after `from` where the matcher finds
      something lies inside one of the reported matches (it is reported, or an earlier
      reported match swallowed it). */
  lemma {:induction false} ScanComplete(at: nat -> Option<Match>, n: nat, from: nat)
    requires IsMatcher(at, n) && from <= n
    decreases n - from
    ensures forall j: nat :: from <= j && at(j).Some? ==> Covered(Scan(at, n, from), j)
  {
    if from == n {
    } else if at(from).Some? {
      var m := at(from).value;
      var rest := Scan(at, n, m.end);
      ScanComplete(at, n, m.end);
      assert Scan(at, n, from) == [m] + rest;
      forall j: nat | from <= j && at(j).Some?
        ensures Covered([m] + rest, j)
      {
        CoveredCons(m, rest, j);
      }
    } else {
      ScanComplete(at, n, from + 1);
      assert Scan(at, n, from) == Scan(at, n, from + 1);
    }
  }

  /** The matcher for `pat` on `s`. */
  function Matcher(pat: Pattern, s: string): (at: nat -> Option<Match>)
    ensures IsMatcher(at, |s|)
    ensures forall j: nat :: at(j) == MatchAt(pat, s, j)
  {
    (j: nat) => MatchAt(pat, s, j)
  }

  /** `re.finditer(pat, s)` from position `from` on: the match at `from` if there is one,
      then the matches from its end; otherwise the matches from the next position. */
  function FindFrom(pat: Pattern, s: string, from: nat): seq<Match>
    requires from <= |s|
    decreases |s| - from
  {
    if from == |s| then []
    else
      var m := MatchAt(pat, s, from);
      if m.Some? then [m.value] + FindFrom(pat, s, m.value.end) else FindFrom(pat, s, from + 1)
  }

  /** `re.finditer(pat, s)` as match records. */
  function FindAll(pat: Pattern, s: string): seq<Match> {
    FindFrom(pat, s, 0)
  }

  /** The pattern's scan is the generic `finditer` loop over its matcher. */
  lemma {:induction false} FindFromIsScan(pat: Pattern, s: string, from: nat)
    requires from <= |s|
    decreases |s| - from
    ensures FindFrom(pat, s, from) == Scan(Matcher(pat, s), |s|, from)
  {
    var at := Matcher(pat, s);
    if from < |s| {
      var m := MatchAt(pat, s, from);
      assert at(from) == m;
      if m.Some? {
        FindFromIsScan(pat, s, m.value.end);
      } else {
        FindFromIsScan(pat, s, from + 1);
      }
    }
  }

  /** What `re.finditer` reports: each record is the engine's match at its start; the
      records follow each other without overlap; every position where the pattern matches
      lies inside a reported record. */
  lemma FindAllSpec(pat: Pattern, s: string)
    ensures var ms := FindAll(pat, s);
            && (forall i :: 0 <= i < |ms| ==> MatchAt(pat, s, ms[i].start) == Some(ms[i]))
            && (forall i :: 0 <= i < |ms| ==> ms[i].start < ms[i].end <= |s| && ms[i].text == s[ms[i].start..ms[i].end])
            && (forall i, k :: 0 <= i < k < |ms| ==> ms[i].end <= ms[k].start)
            && (forall j: nat :: MatchAt(pat, s, j).Some? ==> Covered(ms, j))
  {
    var at := Matcher(pat, s);
    FindFromIsScan(pat, s, 0);
    ScanComplete(at, |s|, 0);
  }

  /** A match the engine would find at `j` lies inside some match `finditer` reports. */
  lemma FindAllCovers(pat: Pattern, s: string, j: nat)
    requires MatchAt(pat, s, j).Some?
    ensures Covered(FindAll(pat, s), j)
  {
    FindAllSpec(pat, s);
  }

  /** The engine's view of the method pattern is the method matcher. */
  lemma MatchAtJsMethod(s: string, q: nat)
    ensures MatchAt(JsMethod, s, q) == JsMethodAt(s, q)
  {
  }

  /** The engine's view of the block pattern is the block matcher. */
  lemma MatchAtRosDo(s: string, q: nat)
    ensures MatchAt(RosDo, s, q) == RosDoAt(s, q)
  {
  }
}
