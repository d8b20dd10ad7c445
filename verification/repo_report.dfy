/** What the repository analyzer reports about a cloned repository, as functions of the
    repository tree: the name taken from the clone URL, file and byte totals with their
    human-readable size, the language histogram, the key files, the component groups and
    the implementation roadmap. `RepoAnalysis.RepoAnalyzer` computes each of them step by
    step and is proved to agree with these definitions. */
module RepoReport {

  import opened Wrappers
  import opened Strings
  import opened Rules
  import opened Ordering
  import opened Tallies
  import opened LanguageDetector
  import opened FileAnalyzer
  import opened Extraction
  import opened RepoTree
  import opened Globbing

  // ---------------------------------------------------------------------------------------
  // The repository name
  // ---------------------------------------------------------------------------------------

  const GIT_SUFFIX: string := ".git"

  /** The last `/`-separated segment of the clone URL with every ".git" in it removed. */
  function RepoName(url: string): (name: string)
    ensures '/' !in name
  {
    RemoveAll(AfterLast(url, '/'), GIT_SUFFIX)
  }

  lemma {:induction false} AfterLastPast(prefix: string, c: char, t: string)
    requires c !in t
    ensures AfterLast(prefix + [c] + t, c) == t
    decreases |t|
  {
    var s := prefix + [c] + t;
    if t != [] {
      var init := t[..|t| - 1];
      assert t[|t| - 1] in t;
      assert c !in init by {
        forall k | 0 <= k < |init| ensures init[k] != c {
          assert init[k] == t[k];
        }
      }
      AfterLastPast(prefix, c, init);
      assert s[..|s| - 1] == prefix + [c] + init;
      assert t == init + [t[|t| - 1]];
    }
  }

  /** Text without the pattern's first character holds no occurrence of the pattern: the
      removal passes over it. */
  lemma {:induction false} RemoveAllSkips(a: string, rest: string, pat: string)
    requires pat != [] && pat[0] !in a
    ensures RemoveAll(a + rest, pat) == a + RemoveAll(rest, pat)
    decreases |a|
  {
    if a == [] {
      assert a + rest == rest;
    } else {
      var s := a + rest;
      assert s[0] == a[0] && a[0] != pat[0];
      assert !StartsWith(s, pat);
      assert s[1..] == a[1..] + rest;
      SliceKeepsOut(a, pat[0], 1);
      RemoveAllSkips(a[1..], rest, pat);
      assert a == [a[0]] + a[1..];
    }
  }

  /** Text without dots holds no ".git". */
  lemma RemoveAllDotless(a: string, rest: string)
    requires '.' !in a
    ensures RemoveAll(a + rest, GIT_SUFFIX) == a + RemoveAll(rest, GIT_SUFFIX)
  {
    RemoveAllSkips(a, rest, GIT_SUFFIX);
  }

  lemma RemoveSuffixOnly()
    ensures RemoveAll(GIT_SUFFIX, GIT_SUFFIX) == []
  {
    assert StartsWith(GIT_SUFFIX, GIT_SUFFIX);
    assert GIT_SUFFIX[|GIT_SUFFIX|..] == [];
  }

  /** The name of a repository cloned from `<owner>/<name>` or `<owner>/<name>.git` is
      `name`, when `name` has no dots. */
  lemma RepoNameOfCloneUrl(owner: string, name: string)
    requires '/' !in name && '.' !in name
    ensures RepoName(owner + "/" + name + GIT_SUFFIX) == name
    ensures RepoName(owner + "/" + name) == name
  {
    assert '/' !in name + GIT_SUFFIX;
    AfterLastPast(owner, '/', name + GIT_SUFFIX);
    assert owner + "/" + name + GIT_SUFFIX == owner + ['/'] + (name + GIT_SUFFIX);
    AfterLastPast(owner, '/', name);
    assert owner + "/" + name == owner + ['/'] + name;
    RemoveAllDotless(name, GIT_SUFFIX);
    RemoveSuffixOnly();
    RemoveAllDotless(name, []);
    assert name + [] == name;
  }

  lemma RemoveAllAtStart(b: string, pat: string)
    requires pat != []
    ensures RemoveAll(pat + b, pat) == RemoveAll(b, pat)
  {
    var s := pat + b;
    assert StartsWith(s, pat);
    assert s[|pat|..] == b;
  }

  /** ".git" goes wherever it occurs in the last segment, not only at its end. */
  lemma RepoNameDropsInnerGit(owner: string, a: string, b: string)
    requires '/' !in a && '/' !in b && '.' !in a && '.' !in b
    ensures RepoName(owner + "/" + a + GIT_SUFFIX + b) == a + b
  {
    var tail := a + GIT_SUFFIX + b;
    assert '/' !in tail;
    AfterLastPast(owner, '/', tail);
    assert owner + "/" + a + GIT_SUFFIX + b == owner + ['/'] + tail;
    assert tail == a + (GIT_SUFFIX + b);
    RemoveAllDotless(a, GIT_SUFFIX + b);
    RemoveAllAtStart(b, GIT_SUFFIX);
    RemoveAllDotless(b, []);
    assert b + [] == b;
    assert RemoveAll([], GIT_SUFFIX) == [];
  }

  // ---------------------------------------------------------------------------------------
  // Sizes
  // ---------------------------------------------------------------------------------------

  /** `n / d` in tenths, rounded to the nearest tenth with ties to the even tenth: the `.1f`
      rendering of a quotient by 1024 or 1048576, which binary floating point holds
      exactly. */
  function Tenths(n: nat, d: nat): nat
    requires d > 0
  {
    var q := 10 * n / d;
    var r := 10 * n % d;
    if 2 * r > d || (2 * r == d && q % 2 == 1) then q + 1 else q
  }

  /** The tenths are within half a tenth of `n / d`, and a value exactly halfway between two
      tenths goes to the even one. */
  lemma TenthsRounds(n: nat, d: nat)
    requires d > 0
    ensures 2 * (Tenths(n, d) * d - 10 * n) <= d
    ensures 2 * (10 * n - Tenths(n, d) * d) <= d
    ensures (2 * (Tenths(n, d) * d - 10 * n) == d || 2 * (10 * n - Tenths(n, d) * d) == d) ==>
              Tenths(n, d) % 2 == 0
  {
    var q := 10 * n / d;
    var r := 10 * n % d;
    assert q * d + r == 10 * n;
    assert (q + 1) * d == q * d + d;
  }

  /** The text of a number of tenths: the whole part, a dot and one digit. */
  function Decimal1(t: nat): string {
    NatToString(t / 10) + "." + [DigitChar(t % 10)]
  }

  /** Reading the text back gives the tenths: the digits before the dot are the whole part,
      the one after it the tenths digit. */
  lemma Decimal1Reads(t: nat)
    ensures var s := Decimal1(t);
            && |s| >= 3 && s[|s| - 2] == '.'
            && IsDigits(s[..|s| - 2]) && IsDigits(s[|s| - 1..])
            && 10 * ParseDigits(s[..|s| - 2]) + ParseDigits(s[|s| - 1..]) == t
  {
    var s := Decimal1(t);
    var whole := NatToString(t / 10);
    assert s[..|s| - 2] == whole;
    NatToStringRoundTrip(t / 10);
    var last := s[|s| - 1..];
    assert last == [DigitChar(t % 10)];
    assert last[..0] == [];
    assert ParseDigits(last) == t % 10;
  }

  const BYTES_UNIT: string := " bytes"
  const KB_UNIT: string := " KB"
  const MB_UNIT: string := " MB"

  /** The human-readable size: whole bytes under 1 KiB, then tenths of KiB under 1 MiB,
      then tenths of MiB. */
  function FormatSize(size: nat): string {
    if size < KIB then NatToString(size) + BYTES_UNIT
    else if size < MIB then Decimal1(Tenths(size, KIB)) + KB_UNIT
    else Decimal1(Tenths(size, MIB)) + MB_UNIT
  }

  lemma EndsWithLastTwo(s: string, u: string)
    requires |u| >= 2 && EndsWith(s, u)
    ensures s[|s| - 1] == u[|u| - 1] && s[|s| - 2] == u[|u| - 2]
  {
    assert s[|s| - |u|..][|u| - 1] == s[|s| - 1];
    assert s[|s| - |u|..][|u| - 2] == s[|s| - 2];
  }

  lemma EndsWithAppended(x: string, u: string)
    ensures EndsWith(x + u, u)
  {
    assert (x + u)[|x + u| - |u|..] == u;
  }

  /** The unit tells the size range: "bytes" exactly under 1024, "KB" exactly from 1024 up
      to 1048576, "MB" exactly from there on. */
  lemma FormatSizeUnits(size: nat)
    ensures EndsWith(FormatSize(size), BYTES_UNIT) <==> size < KIB
    ensures EndsWith(FormatSize(size), KB_UNIT) <==> KIB <= size < MIB
    ensures EndsWith(FormatSize(size), MB_UNIT) <==> MIB <= size
  {
    var text := FormatSize(size);
    if size < KIB {
      EndsWithAppended(NatToString(size), BYTES_UNIT);
    } else if size < MIB {
      EndsWithAppended(Decimal1(Tenths(size, KIB)), KB_UNIT);
    } else {
      EndsWithAppended(Decimal1(Tenths(size, MIB)), MB_UNIT);
    }
    assert text[|text| - 1] == (if size < KIB then 's' else 'B');
    assert text[|text| - 2] == (if size < KIB then 'e' else if size < MIB then 'K' else 'M');
    if EndsWith(text, BYTES_UNIT) { EndsWithLastTwo(text, BYTES_UNIT); }
    if EndsWith(text, KB_UNIT) { EndsWithLastTwo(text, KB_UNIT); }
    if EndsWith(text, MB_UNIT) { EndsWithLastTwo(text, MB_UNIT); }
  }

  /** The number shown is the size itself under 1 KiB, and otherwise the size in KiB or MiB
      to the nearest tenth. */
  lemma FormatSizeValue(size: nat)
    ensures size < KIB ==> FormatSize(size) == NatToString(size) + BYTES_UNIT
    ensures KIB <= size < MIB ==>
              exists t: nat :: FormatSize(size) == Decimal1(t) + KB_UNIT &&
                2 * (t * KIB - 10 * size) <= KIB && 2 * (10 * size - t * KIB) <= KIB
    ensures MIB <= size ==>
              exists t: nat :: FormatSize(size) == Decimal1(t) + MB_UNIT &&
                2 * (t * MIB - 10 * size) <= MIB && 2 * (10 * size - t * MIB) <= MIB
  {
    if KIB <= size < MIB {
      TenthsRounds(size, KIB);
      var t := Tenths(size, KIB);
      assert FormatSize(size) == Decimal1(t) + KB_UNIT;
    } else if MIB <= size {
      TenthsRounds(size, MIB);
      var t := Tenths(size, MIB);
      assert FormatSize(size) == Decimal1(t) + MB_UNIT;
    }
  }

  // ---------------------------------------------------------------------------------------
  // Statistics
  // ---------------------------------------------------------------------------------------

  datatype Stats = Stats(totalFiles: nat, totalSize: nat, totalSizeFormatted: string)

  /** The running byte total over walked files. */
  function FileBytes(files: seq<WalkedFile>): nat {
    if files == [] then 0 else FileBytes(files[..|files| - 1]) + files[|files| - 1].size
  }

  lemma {:induction false} FileBytesIsSum(files: seq<WalkedFile>)
    ensures FileBytes(files) == SumBy(files, SizeOf)
  {
    if files != [] {
      var init, last := files[..|files| - 1], files[|files| - 1];
      FileBytesIsSum(init);
      assert files == init + [last];
      SumByAppend(init, [last], SizeOf);
      assert [last][1..] == [];
    }
  }

  /** `_calculate_stats` for the repository at `repoPath` whose root holds `root`. */
  function StatsOf(root: seq<Entry>, repoPath: string): Stats {
    var files := Walk(root, repoPath);
    Stats(|files|, FileBytes(files), FormatSize(FileBytes(files)))
  }

  /** The totals are the tree's own: every file outside ".git" counted once, its bytes
      added once. */
  lemma StatsCountTree(root: seq<Entry>, repoPath: string)
    ensures StatsOf(root, repoPath).totalFiles == CountFiles(root)
    ensures StatsOf(root, repoPath).totalSize == TotalBytes(root)
    ensures StatsOf(root, repoPath).totalSizeFormatted == FormatSize(TotalBytes(root))
  {
    WalkTotals(root, repoPath);
    FileBytesIsSum(Walk(root, repoPath));
  }

  // ---------------------------------------------------------------------------------------
  // Languages
  // ---------------------------------------------------------------------------------------

  /** A walked file as the language detector sees it. */
  function StatOf(f: WalkedFile): FileStat {
    RegularFile(f.size, f.content)
  }

  /** The file's language label, when it is not empty. */
  function LabelOf(f: WalkedFile): Option<string> {
    var language := DetectLanguageAt(f.path, StatOf(f));
    if language == [] then None else Some(language)
  }

  /** The labels of the walked files that have one, in walk order. */
  function Labels(files: seq<WalkedFile>): seq<string> {
    FilterMap(files, LabelOf)
  }

  /** One more file of the language loop: a labelled file is counted under its label. */
  lemma LabelsStepSome(files: seq<WalkedFile>, i: nat, language: string)
    requires i < |files| && language != [] && language == DetectLanguageAt(files[i].path, StatOf(files[i]))
    ensures Labels(files[..i + 1]) == Labels(files[..i]) + [language]
    ensures CountAll(Labels(files[..i + 1])) == Bump(CountAll(Labels(files[..i])), language)
  {
    FilterMapStepSome(files, i, LabelOf, language);
    CountAllSnoc(Labels(files[..i]), language);
  }

  /** A file without a label is not counted. */
  lemma LabelsStepNone(files: seq<WalkedFile>, i: nat)
    requires i < |files| && DetectLanguageAt(files[i].path, StatOf(files[i])) == []
    ensures Labels(files[..i + 1]) == Labels(files[..i])
  {
    FilterMapStepNone(files, i, LabelOf);
  }

  /** One step of the counting loop: a labelled file is counted under its label and in
      the total; a file without one changes nothing. */
  lemma CountStep(files: seq<WalkedFile>, i: nat, before: Counts, n: nat, after: Counts, m: nat)
    requires i < |files| && before == CountAll(Labels(files[..i])) && n == |Labels(files[..i])|
    requires var language := DetectLanguageAt(files[i].path, StatOf(files[i]));
             if language != [] then after == Bump(before, language) && m == n + 1
             else after == before && m == n
    ensures after == CountAll(Labels(files[..i + 1])) && m == |Labels(files[..i + 1])|
  {
    var language := DetectLanguageAt(files[i].path, StatOf(files[i]));
    if language != [] {
      LabelsStepSome(files, i, language);
    } else {
      LabelsStepNone(files, i);
    }
  }

  /** One histogram entry: the language, its number of files, and the number of labelled
      files it is a share of. */
  datatype LanguageShare = LanguageShare(name: string, files: nat, outOf: nat)

  function ShareOf(e: (string, nat), total: nat): LanguageShare {
    LanguageShare(e.0, e.1, total)
  }

  function Shares(counts: Counts, total: nat): (r: seq<LanguageShare>)
    ensures |r| == |counts|
    ensures forall i :: 0 <= i < |counts| ==> r[i] == ShareOf(counts[i], total)
  {
    seq(|counts|, i requires 0 <= i < |counts| => ShareOf(counts[i], total))
  }

  function FilesOf(s: LanguageShare): int {
    s.files
  }

  /** One more entry of the histogram loop. */
  lemma SharesStep(counts: Counts, k: nat, total: nat)
    requires k < |counts|
    ensures Shares(counts[..k + 1], total) == Shares(counts[..k], total) + [ShareOf(counts[k], total)]
  {
  }

  /** The language counter sorted by count, largest first. */
  function RankedCounts(labels: seq<string>): Counts {
    SortDesc(CountAll(labels), CountOf)
  }

  /** `_detect_languages`. */
  function LanguageHistogram(root: seq<Entry>, repoPath: string): seq<LanguageShare> {
    var labels := Labels(Walk(root, repoPath));
    Shares(RankedCounts(labels), |labels|)
  }

  /** The two loops of `_detect_languages` build the histogram: counting the walk's labels,
      then one entry per item of the sorted counter. */
  lemma HistogramFromCounts(root: seq<Entry>, repoPath: string, counts: Counts, total: nat, languages: seq<LanguageShare>)
    requires counts == CountAll(Labels(Walk(root, repoPath))) && total == |Labels(Walk(root, repoPath))|
    requires var ranked := SortDesc(counts, CountOf); languages == Shares(ranked[..|ranked|], total)
    ensures languages == LanguageHistogram(root, repoPath)
  {
    var ranked := SortDesc(counts, CountOf);
    assert ranked[..|ranked|] == ranked;
  }

  lemma RankedSameEntries(labels: seq<string>)
    ensures forall e :: e in RankedCounts(labels) <==> e in CountAll(labels)
  {
    var ranked, counts := RankedCounts(labels), CountAll(labels);
    forall e ensures e in ranked <==> e in counts {
      assert e in ranked <==> e in multiset(ranked);
      assert e in counts <==> e in multiset(counts);
    }
  }

  /** Each item of the ranked counter carries its label's number of occurrences. */
  lemma RankedCountsExact(labels: seq<string>)
    ensures var r := RankedCounts(labels);
            forall i :: 0 <= i < |r| ==> r[i].1 == Occurrences(labels, r[i].0)
  {
    var counts, ranked := CountAll(labels), RankedCounts(labels);
    CountAllSpec(labels);
    RankedSameEntries(labels);
    forall i | 0 <= i < |ranked| ensures ranked[i].1 == Occurrences(labels, ranked[i].0) {
      assert ranked[i] in counts;
    }
  }

  /** Every label is listed, and nothing else is. */
  lemma RankedCountsCover(labels: seq<string>)
    ensures var r := RankedCounts(labels);
            forall l :: l in labels <==> exists i :: 0 <= i < |r| && r[i].0 == l
  {
    var counts, ranked := CountAll(labels), RankedCounts(labels);
    CountAllSpec(labels);
    RankedSameEntries(labels);
    forall l ensures l in labels <==> exists i :: 0 <= i < |ranked| && ranked[i].0 == l {
      if l in labels {
        assert l in Names(counts);
        var k :| 0 <= k < |counts| && Names(counts)[k] == l;
        assert counts[k] in ranked;
      }
      if exists i :: 0 <= i < |ranked| && ranked[i].0 == l {
        var i :| 0 <= i < |ranked| && ranked[i].0 == l;
        assert ranked[i] in counts;
        var k :| 0 <= k < |counts| && counts[k] == ranked[i];
        assert Names(counts)[k] == l;
      }
    }
  }

  /** The counter's items are all different: their names are. */
  lemma CountsDistinct(labels: seq<string>)
    ensures Distinct(CountAll(labels))
  {
    var counts := CountAll(labels);
    CountAllSpec(labels);
    forall i, j | 0 <= i < j < |counts| ensures counts[i] != counts[j] {
      assert Names(counts)[i] != Names(counts)[j];
    }
  }

  /** No label is listed twice: two items with one name would carry the same count and be
      the same item twice. */
  lemma RankedCountsDistinct(labels: seq<string>)
    ensures var r := RankedCounts(labels);
            forall i, j :: 0 <= i < j < |r| ==> r[i].0 != r[j].0
  {
    var ranked := RankedCounts(labels);
    CountsDistinct(labels);
    PermutationDistinct(CountAll(labels), ranked);
    RankedCountsExact(labels);
    forall i, j | 0 <= i < j < |ranked| ensures ranked[i].0 != ranked[j].0 {
      assert ranked[i] != ranked[j];
      assert ranked[i].1 == Occurrences(labels, ranked[i].0) && ranked[j].1 == Occurrences(labels, ranked[j].0);
    }
  }

  /** The ranked counter holds each label once, with its number of occurrences, and holds
      every label. */
  lemma RankedCountsSpec(labels: seq<string>)
    ensures var r := RankedCounts(labels);
            && (forall i :: 0 <= i < |r| ==> r[i].1 == Occurrences(labels, r[i].0))
            && (forall l :: l in labels <==> exists i :: 0 <= i < |r| && r[i].0 == l)
            && (forall i, j :: 0 <= i < j < |r| ==> r[i].0 != r[j].0)
  {
    RankedCountsExact(labels);
    RankedCountsCover(labels);
    RankedCountsDistinct(labels);
  }

  /** Each language is listed once, with the number of walked files carrying its label and
      the number of labelled files; every label seen is listed. */
  lemma HistogramCounts(root: seq<Entry>, repoPath: string)
    ensures var labels := Labels(Walk(root, repoPath));
            var h := LanguageHistogram(root, repoPath);
            && (forall i :: 0 <= i < |h| ==>
                  h[i].files == Occurrences(labels, h[i].name) && h[i].outOf == |labels|)
            && (forall l :: l in labels <==> exists i :: 0 <= i < |h| && h[i].name == l)
            && (forall i, j :: 0 <= i < j < |h| ==> h[i].name != h[j].name)
  {
    var labels := Labels(Walk(root, repoPath));
    var r := RankedCounts(labels);
    var h := LanguageHistogram(root, repoPath);
    assert h == Shares(r, |labels|);
    RankedCountsSpec(labels);
    assert forall i :: 0 <= i < |h| ==> h[i].name == r[i].0 && h[i].files == r[i].1;
  }

  /** The counts add up to the number of walked files that have a label. */
  lemma HistogramTotal(root: seq<Entry>, repoPath: string)
    ensures SumBy(LanguageHistogram(root, repoPath), FilesOf) == |Labels(Walk(root, repoPath))|
  {
    var labels := Labels(Walk(root, repoPath));
    CountAllSpec(labels);
    SortDescSum(CountAll(labels), CountOf, CountOf);
    SharesSum(RankedCounts(labels), |labels|);
  }

  lemma {:induction false} SharesSum(counts: Counts, total: nat)
    ensures SumBy(Shares(counts, total), FilesOf) == SumBy(counts, CountOf)
  {
    if counts != [] {
      SharesSum(counts[1..], total);
      assert Shares(counts, total)[1..] == Shares(counts[1..], total);
    }
  }

  /** Largest count first; languages with equal counts keep the order in which they were
      first seen. */
  lemma HistogramRanked(root: seq<Entry>, repoPath: string, k: int)
    ensures var h := LanguageHistogram(root, repoPath);
            forall i, j :: 0 <= i < j < |h| ==> h[i].files >= h[j].files
    ensures WithKey(RankedCounts(Labels(Walk(root, repoPath))), CountOf, k) ==
            WithKey(CountAll(Labels(Walk(root, repoPath))), CountOf, k)
  {
    var labels := Labels(Walk(root, repoPath));
    SortDescSorted(CountAll(labels), CountOf);
    SortDescStable(CountAll(labels), CountOf, k);
  }

  // ---------------------------------------------------------------------------------------
  // Pattern lists
  // ---------------------------------------------------------------------------------------

  /** The matches of each pattern in turn, concatenated. */
  function GlobAll(root: seq<Entry>, patterns: seq<string>): seq<Hit> {
    if patterns == [] then []
    else GlobAll(root, patterns[..|patterns| - 1]) + Glob(root, patterns[|patterns| - 1])
  }

  /** Whatever one of the patterns finds is among the matches. */
  lemma {:induction false} GlobAllHas(root: seq<Entry>, patterns: seq<string>, k: nat, h: Hit)
    requires k < |patterns| && h in Glob(root, patterns[k])
    ensures h in GlobAll(root, patterns)
  {
    var init := patterns[..|patterns| - 1];
    if k < |patterns| - 1 {
      assert init[k] == patterns[k];
      GlobAllHas(root, init, k, h);
    }
  }

  /** The first match for each path, in order: the matches stand for their paths once a
      Python `set` of the paths has removed the repeats. */
  function UniqueByPath(hits: seq<Hit>): seq<Hit> {
    if hits == [] then []
    else
      var u := UniqueByPath(hits[..|hits| - 1]);
      if hits[|hits| - 1].path in Paths(u) then u else u + [hits[|hits| - 1]]
  }

  /** The paths kept are the distinct paths matched, each once, in order of first match, and
      each kept match is one of the matches. */
  lemma {:induction false} UniqueByPathSpec(hits: seq<Hit>)
    ensures Paths(UniqueByPath(hits)) == Dedup(Paths(hits))
    ensures forall h :: h in UniqueByPath(hits) ==> h in hits
  {
    if hits != [] {
      var init, last := hits[..|hits| - 1], hits[|hits| - 1];
      UniqueByPathSpec(init);
      var u := UniqueByPath(init);
      var ps := Paths(hits);
      assert ps[..|ps| - 1] == Paths(init);
      assert ps[|ps| - 1] == last.path;
      if last.path !in Paths(u) {
        assert Paths(u + [last]) == Paths(u) + [last.path];
      }
    }
  }

  // ---------------------------------------------------------------------------------------
  // Key files
  // ---------------------------------------------------------------------------------------

  /** The patterns, relative to the repository root, that select candidate key files. */
  const KEY_FILE_PATTERNS: seq<string> :=
    ["*.py", "**/*.py", "*.md", "*.txt", "*.rsc", "*.html", "*.js", "*.css"]

  /** How many key files the report keeps. */
  const KEY_FILE_LIMIT: nat := 10

  /** What the report says about one key file. */
  datatype KeyFile = KeyFile(
    path: string, language: string, sizeFormatted: string,
    purpose: string, functions: seq<FunctionRecord>)

  /** A match as the file system describes it. */
  function HitStat(h: Hit): FileStat {
    match h.entry
    case File(_, size, content) => RegularFile(size, content)
    case Dir(_, _) => Directory
  }

  /** `os.path.getsize` of a match; the size the file system gives a directory is
      `dirSize`. */
  function HitSize(h: Hit, dirSize: nat): nat {
    match h.entry
    case File(_, size, _) => size
    case Dir(_, _) => dirSize
  }

  /** The record for one match, unless it is over 1 MiB or its relative path starts with
      ".git". */
  function KeyFileOf(h: Hit, repoPath: string, dirSize: nat): Option<KeyFile> {
    var size := HitSize(h, dirSize);
    if size > MIB || StartsWith(h.path, GIT_DIR) then None
    else
      var path := PathJoin(repoPath, h.path);
      var analysis := FileAnalysisOf(path, HitStat(h));
      Some(KeyFile(h.path, DetectLanguageAt(path, HitStat(h)), FormatSize(size),
                   analysis.purpose, analysis.functions))
  }

  function KeyFileIn(repoPath: string, dirSize: nat): Hit -> Option<KeyFile> {
    h => KeyFileOf(h, repoPath, dirSize)
  }

  /** The matches the key-file patterns select, each path once. */
  function KeyFileHits(root: seq<Entry>): seq<Hit> {
    UniqueByPath(GlobAll(root, KEY_FILE_PATTERNS))
  }

  /** The records of every selected match that is kept, in match order. */
  function KeyFileCandidates(root: seq<Entry>, repoPath: string, dirSize: nat): seq<KeyFile> {
    FilterMap(KeyFileHits(root), KeyFileIn(repoPath, dirSize))
  }

  function FunctionCount(k: KeyFile): int {
    |k.functions|
  }

  /** `_analyze_key_files`: the candidates with the most functions first, at most ten. */
  function KeyFiles(root: seq<Entry>, repoPath: string, dirSize: nat): seq<KeyFile> {
    TopN(SortDesc(KeyFileCandidates(root, repoPath, dirSize), FunctionCount), KEY_FILE_LIMIT)
  }

  /** The candidates: every one comes from a selected match that is at most 1 MiB and
      outside ".git", and every such match gives one; all paths matched are represented. */
  lemma KeyFileCandidatesSpec(root: seq<Entry>, repoPath: string, dirSize: nat)
    ensures var hits := KeyFileHits(root);
            var c := KeyFileCandidates(root, repoPath, dirSize);
            && (forall k :: k in c ==>
                  exists h :: h in hits && KeyFileOf(h, repoPath, dirSize) == Some(k) &&
                    HitSize(h, dirSize) <= MIB && !StartsWith(k.path, GIT_DIR) && k.path == h.path)
            && (forall i :: (0 <= i < |hits| && HitSize(hits[i], dirSize) <= MIB &&
                             !StartsWith(hits[i].path, GIT_DIR)) ==>
                  KeyFileOf(hits[i], repoPath, dirSize).value in c)
            && Paths(hits) == Dedup(Paths(GlobAll(root, KEY_FILE_PATTERNS)))
  {
    var hits := KeyFileHits(root);
    FilterMapSpec(hits, KeyFileIn(repoPath, dirSize));
    UniqueByPathSpec(GlobAll(root, KEY_FILE_PATTERNS));
  }

  /** The key files: as many as ten candidates allow, in descending function count, the
      first of the candidates so ordered, so that no candidate left out has more functions
      than one kept; candidates with equal counts keep their order. */
  lemma KeyFilesRanked(root: seq<Entry>, repoPath: string, dirSize: nat, n: int)
    ensures var c := KeyFileCandidates(root, repoPath, dirSize);
            var sorted := SortDesc(c, FunctionCount);
            var kf := KeyFiles(root, repoPath, dirSize);
            && |kf| == (if |c| < KEY_FILE_LIMIT then |c| else KEY_FILE_LIMIT)
            && (forall i :: 0 <= i < |kf| ==> kf[i] == sorted[i])
            && SortedDesc(kf, FunctionCount)
            && multiset(sorted) == multiset(c)
            && (forall i, j :: 0 <= i < |kf| <= j < |sorted| ==>
                  FunctionCount(sorted[j]) <= FunctionCount(kf[i]))
            && WithKey(sorted, FunctionCount, n) == WithKey(c, FunctionCount, n)
  {
    var c := KeyFileCandidates(root, repoPath, dirSize);
    SortDescSorted(c, FunctionCount);
    SortDescStable(c, FunctionCount, n);
  }

  // ---------------------------------------------------------------------------------------
  // Components
  // ---------------------------------------------------------------------------------------

  /** A group of files the report names, with a sentence about it. */
  datatype Component = Component(name: string, files: seq<string>, description: string)

  /** The groups, in report order, each with the patterns that collect its files. */
  const COMPONENT_PATTERNS: seq<(string, seq<string>)> := [
    ("Core Scripts", ["*.rsc", "scripts/*.rsc"]),
    ("Documentation", ["*.md", "docs/*.md", "README.md"]),
    ("Configuration", ["*.conf", "config/*.conf", "*.cfg"]),
    ("Web Interface", ["*.html", "*.js", "*.css"]),
    ("MikroTik API", ["api*.py", "*api*.py"]),
    ("Utilities", ["utils/*.py", "helpers/*.py"])
  ]

  const COMPONENT_DESCRIPTIONS: seq<(string, string)> := [
    ("Core Scripts", "Contains MikroTik RouterOS script files (.rsc) that provide core functionality for router management."),
    ("Documentation", "Contains documentation files explaining the usage and features of the repository."),
    ("Configuration", "Contains configuration files for setting up and customizing the system."),
    ("Web Interface", "Provides a web-based interface for interacting with MikroTik routers."),
    ("MikroTik API", "Implements API functionality for communicating with MikroTik routers programmatically."),
    ("Utilities", "Helper functions and utility scripts that support the main functionality.")
  ]

  const GENERIC_COMPONENT: string := "A collection of files related to MikroTik router management."

  /** `_generate_component_description`: the table's sentence, or the generic one. */
  function ComponentDescription(name: string): string {
    match Lookup(COMPONENT_DESCRIPTIONS, name)
    case Some(d) => d
    case None => GENERIC_COMPONENT
  }

  lemma ComponentNamesDistinct()
    ensures forall i, j :: 0 <= i < j < |COMPONENT_DESCRIPTIONS| ==>
              COMPONENT_DESCRIPTIONS[i].0 != COMPONENT_DESCRIPTIONS[j].0
    ensures forall i :: 0 <= i < |COMPONENT_PATTERNS| ==>
              COMPONENT_PATTERNS[i].0 == COMPONENT_DESCRIPTIONS[i].0
  {
  }

  /** A name in the table gets its own sentence; any other name the generic one. */
  lemma ComponentDescriptionSpec(name: string)
    ensures forall i :: 0 <= i < |COMPONENT_DESCRIPTIONS| && COMPONENT_DESCRIPTIONS[i].0 == name ==>
              ComponentDescription(name) == COMPONENT_DESCRIPTIONS[i].1
    ensures (forall i :: 0 <= i < |COMPONENT_DESCRIPTIONS| ==> COMPONENT_DESCRIPTIONS[i].0 != name) ==>
              ComponentDescription(name) == GENERIC_COMPONENT
  {
    ComponentNamesDistinct();
    LookupSpec(COMPONENT_DESCRIPTIONS, name);
  }

  /** The relative paths the patterns find, each once. */
  function ComponentFiles(root: seq<Entry>, patterns: seq<string>): seq<string> {
    Dedup(Paths(GlobAll(root, patterns)))
  }

  /** The component of one group, when its patterns find anything. */
  function ComponentOf(root: seq<Entry>, group: (string, seq<string>)): Option<Component> {
    var files := ComponentFiles(root, group.1);
    if files == [] then None else Some(Component(group.0, files, ComponentDescription(group.0)))
  }

  function ComponentIn(root: seq<Entry>): ((string, seq<string>)) -> Option<Component> {
    group => ComponentOf(root, group)
  }

  /** The components of the groups that find something, in group order. */
  function Components(root: seq<Entry>, groups: seq<(string, seq<string>)>): seq<Component> {
    FilterMap(groups, ComponentIn(root))
  }

  /** `_identify_key_components`. */
  function KeyComponents(root: seq<Entry>): seq<Component> {
    Components(root, COMPONENT_PATTERNS)
  }

  predicate GroupNamesDistinct(groups: seq<(string, seq<string>)>) {
    forall i, j :: 0 <= i < j < |groups| ==> groups[i].0 != groups[j].0
  }

  /** Every component comes from a group whose patterns found files: it carries the
      group's name, the paths found, each once, and the name's description. */
  lemma ComponentsSound(root: seq<Entry>, groups: seq<(string, seq<string>)>)
    ensures forall c :: c in Components(root, groups) ==>
              exists k :: 0 <= k < |groups| && c.name == groups[k].0 &&
                c.files == ComponentFiles(root, groups[k].1) && c.files != [] &&
                Distinct(c.files) && c.description == ComponentDescription(c.name)
  {
    var f := ComponentIn(root);
    FilterMapSpec(groups, f);
    forall c | c in Components(root, groups)
      ensures exists k :: 0 <= k < |groups| && c.name == groups[k].0 &&
                c.files == ComponentFiles(root, groups[k].1) && c.files != [] &&
                Distinct(c.files) && c.description == ComponentDescription(c.name)
    {
      var k :| 0 <= k < |groups| && f(groups[k]) == Some(c);
      assert ComponentOf(root, groups[k]) == Some(c);
    }
  }

  /** A group whose patterns find files is reported. */
  lemma ComponentFound(root: seq<Entry>, groups: seq<(string, seq<string>)>, k: nat)
    requires k < |groups| && ComponentFiles(root, groups[k].1) != []
    ensures exists c :: c in Components(root, groups) && c.name == groups[k].0
  {
    var f := ComponentIn(root);
    FilterMapSpec(groups, f);
    assert f(groups[k]) == ComponentOf(root, groups[k]);
    var c := f(groups[k]).value;
    assert c in Components(root, groups);
  }

  /** A reported name belongs to a group whose patterns found files: the names of the
      groups are different, so the group is the one reported. */
  lemma ComponentNamed(root: seq<Entry>, groups: seq<(string, seq<string>)>, k: nat)
    requires GroupNamesDistinct(groups)
    requires k < |groups| && exists c :: c in Components(root, groups) && c.name == groups[k].0
    ensures ComponentFiles(root, groups[k].1) != []
  {
    var f := ComponentIn(root);
    FilterMapSpec(groups, f);
    var c :| c in Components(root, groups) && c.name == groups[k].0;
    var a :| 0 <= a < |groups| && f(groups[a]) == Some(c);
    assert ComponentOf(root, groups[a]) == Some(c);
    assert groups[a].0 == groups[k].0;
  }

  /** What `_identify_key_components` does for any list of groups with distinct names: a
      component per group that finds something, built from that group. */
  lemma ComponentsSpec(root: seq<Entry>, groups: seq<(string, seq<string>)>)
    requires GroupNamesDistinct(groups)
    ensures forall c :: c in Components(root, groups) ==>
              exists k :: 0 <= k < |groups| && c.name == groups[k].0 &&
                c.files == ComponentFiles(root, groups[k].1) && c.files != [] &&
                Distinct(c.files) && c.description == ComponentDescription(c.name)
    ensures forall k :: 0 <= k < |groups| ==>
              (ComponentFiles(root, groups[k].1) != [] <==>
               exists c :: c in Components(root, groups) && c.name == groups[k].0)
  {
    ComponentsSound(root, groups);
    forall k | 0 <= k < |groups|
      ensures ComponentFiles(root, groups[k].1) != [] <==>
              exists c :: c in Components(root, groups) && c.name == groups[k].0
    {
      if ComponentFiles(root, groups[k].1) != [] {
        ComponentFound(root, groups, k);
      }
      if exists c :: c in Components(root, groups) && c.name == groups[k].0 {
        ComponentNamed(root, groups, k);
      }
    }
  }

  /** A group is reported exactly when its patterns find something; a reported group lists
      the paths found, each once, with its description. */
  lemma KeyComponentsSpec(root: seq<Entry>)
    ensures forall c :: c in KeyComponents(root) ==>
              exists k :: 0 <= k < |COMPONENT_PATTERNS| && c.name == COMPONENT_PATTERNS[k].0 &&
                c.files == ComponentFiles(root, COMPONENT_PATTERNS[k].1) && c.files != [] &&
                Distinct(c.files) && c.description == ComponentDescription(c.name)
    ensures forall k :: 0 <= k < |COMPONENT_PATTERNS| ==>
              (ComponentFiles(root, COMPONENT_PATTERNS[k].1) != [] <==>
               exists c :: c in KeyComponents(root) && c.name == COMPONENT_PATTERNS[k].0)
  {
    ComponentNamesDistinct();
    ComponentsSpec(root, COMPONENT_PATTERNS);
  }

  /** The group called `x` comes before the group called `y`. */
  predicate GroupBefore(groups: seq<(string, seq<string>)>, x: string, y: string) {
    exists a, b :: 0 <= a < b < |groups| && groups[a].0 == x && groups[b].0 == y
  }

  lemma ComponentsOrderedPair(root: seq<Entry>, groups: seq<(string, seq<string>)>, i: int, j: int)
    requires 0 <= i < j < |Components(root, groups)|
    ensures GroupBefore(groups, Components(root, groups)[i].name, Components(root, groups)[j].name)
  {
    var cs := Components(root, groups);
    var f := ComponentIn(root);
    FilterMapOrder(groups, f);
    assert cs == FilterMap(groups, f);
    var a, b :| 0 <= a < b < |groups| && f(groups[a]) == Some(cs[i]) && f(groups[b]) == Some(cs[j]);
    assert groups[a].0 == cs[i].name && groups[b].0 == cs[j].name;
  }

  /** The components come out in group order. */
  lemma ComponentsOrdered(root: seq<Entry>, groups: seq<(string, seq<string>)>)
    ensures forall i, j :: 0 <= i < j < |Components(root, groups)| ==>
              GroupBefore(groups, Components(root, groups)[i].name, Components(root, groups)[j].name)
  {
    forall i, j | 0 <= i < j < |Components(root, groups)|
      ensures GroupBefore(groups, Components(root, groups)[i].name, Components(root, groups)[j].name)
    {
      ComponentsOrderedPair(root, groups, i, j);
    }
  }

  /** The groups come out in table order. */
  lemma KeyComponentsOrdered(root: seq<Entry>)
    ensures forall i, j :: 0 <= i < j < |KeyComponents(root)| ==>
              GroupBefore(COMPONENT_PATTERNS, KeyComponents(root)[i].name, KeyComponents(root)[j].name)
  {
    ComponentsOrdered(root, COMPONENT_PATTERNS);
  }

  lemma {:induction false} ComponentsFindHit(root: seq<Entry>, groups: seq<(string, seq<string>)>,
                                             k: nat, p: nat, h: Hit)
    requires k < |groups| && p < |groups[k].1| && h in Glob(root, groups[k].1[p])
    ensures exists c :: c in Components(root, groups) && c.name == groups[k].0 && h.path in c.files
  {
    var group := groups[k];
    GlobAllHas(root, group.1, p, h);
    var hits := GlobAll(root, group.1);
    var i :| 0 <= i < |hits| && hits[i] == h;
    assert Paths(hits)[i] == h.path;
    FilterMapSpec(groups, ComponentIn(root));
    var c := ComponentIn(root)(group).value;
    assert c in Components(root, groups);
  }

  /** Whatever one of a group's patterns finds is among the group's files, so the group is
      reported. */
  lemma ComponentFindsHit(root: seq<Entry>, k: nat, p: nat, h: Hit)
    requires k < |COMPONENT_PATTERNS| && p < |COMPONENT_PATTERNS[k].1|
    requires h in Glob(root, COMPONENT_PATTERNS[k].1[p])
    ensures exists c :: c in KeyComponents(root) && c.name == COMPONENT_PATTERNS[k].0 && h.path in c.files
  {
    ComponentsFindHit(root, COMPONENT_PATTERNS, k, p, h);
  }

  /** A README.md at the root puts the repository's documentation group in the report, with
      README.md among its files. */
  lemma ReadmeMakesDocumentation(root: seq<Entry>, i: nat)
    requires i < |root| && root[i].name == "README.md"
    ensures exists c :: c in KeyComponents(root) && c.name == "Documentation" && "README.md" in c.files
  {
    var readme := "README.md";
    assert '/' !in readme && !HasMagic(readme);
    TopLevel(root, readme);
    var h := Hit(readme, root[i]);
    assert h in Glob(root, readme);
    assert COMPONENT_PATTERNS[1].0 == "Documentation" && COMPONENT_PATTERNS[1].1[2] == readme;
    ComponentFindsHit(root, 1, 2, h);
  }

  // ---------------------------------------------------------------------------------------
  // Roadmap
  // ---------------------------------------------------------------------------------------

  datatype RoadmapStep = RoadmapStep(title: string, description: string)

  const ROADMAP: seq<RoadmapStep> := [
    RoadmapStep("Setup Environment", "Clone the repository and install necessary dependencies. Ensure Python and required packages are installed."),
    RoadmapStep("Configure MikroTik Devices", "Ensure your MikroTik devices are accessible via API or SSH. Configure IP addresses and credentials."),
    RoadmapStep("Review Documentation", "Read the repository documentation to understand available scripts and features."),
    RoadmapStep("Customize Configuration", "Modify configuration files to match your network environment and requirements."),
    RoadmapStep("Test Basic Scripts", "Run basic scripts to ensure connectivity and functionality with your MikroTik devices."),
    RoadmapStep("Implement Monitoring", "Set up monitoring scripts to track router performance and status."),
    RoadmapStep("Schedule Automation", "Configure automation scripts to run on schedule for maintenance tasks."),
    RoadmapStep("Extend Functionality", "Develop additional scripts or modify existing ones to meet specific requirements.")
  ]

  /** `_generate_implementation_roadmap`: eight steps, each with its own title, setup
      first. */
  function ImplementationRoadmap(): (steps: seq<RoadmapStep>)
    ensures |steps| == 8
    ensures forall i, j :: 0 <= i < j < |steps| ==> steps[i].title != steps[j].title
    ensures steps[0].title == "Setup Environment"
  {
    ROADMAP
  }
}
