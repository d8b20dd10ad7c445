/** The cloned repository as a value: the walk the statistics, the language histogram and
    the import scan go through, and the box-drawing listing of its directories. */
module RepoTree {

  import opened Wrappers
  import opened Strings
  import opened Ordering

  /** A directory entry: a file with its size in bytes and its decoded text (`None` when it
      cannot be opened), or a directory with its entries in the order the file system lists
      them. */
  datatype Entry =
    | File(name: string, size: nat, content: Option<string>)
    | Dir(name: string, children: seq<Entry>)

  const GIT_DIR: string := ".git"

  /** `os.path.join(root, name)`. */
  function PathJoin(root: string, name: string): string {
    root + "/" + name
  }

  // ---------------------------------------------------------------------------------------
  // os.walk with the ".git" directory pruned
  // ---------------------------------------------------------------------------------------

  /** A file the walk reports: its name, its joined path, its size and its text. */
  datatype WalkedFile = WalkedFile(name: string, path: string, size: nat, content: Option<string>)

  function SizeOf(f: WalkedFile): int {
    f.size
  }

  /** The files of one directory, in listing order. */
  function FilesHere(es: seq<Entry>, root: string): seq<WalkedFile> {
    if es == [] then []
    else
      (if es[0].File? then [WalkedFile(es[0].name, PathJoin(root, es[0].name), es[0].size, es[0].content)] else []) +
      FilesHere(es[1..], root)
  }

  /** The files `os.walk(root)` reports, top-down, once a directory named ".git" is taken
      out of `dirs`: the files of `root` first, then every other subdirectory, in listing
      order, walked the same way. (A plain file named ".git" is still reported.) */
  function Walk(es: seq<Entry>, root: string): seq<WalkedFile>
    decreases es, 1
  {
    FilesHere(es, root) + WalkBelow(es, root)
  }

  function WalkBelow(es: seq<Entry>, root: string): seq<WalkedFile>
    decreases es, 0
  {
    if es == [] then []
    else
      (if es[0].Dir? && es[0].name != GIT_DIR then Walk(es[0].children, PathJoin(root, es[0].name)) else []) +
      WalkBelow(es[1..], root)
  }

  /** The number of files in the tree, directories named ".git" excluded, counted entry by
      entry (depth first, unlike the walk). */
  function CountFiles(es: seq<Entry>): nat {
    if es == [] then 0
    else
      (match es[0]
       case File(_, _, _) => 1
       case Dir(name, children) => if name == GIT_DIR then 0 else CountFiles(children)) +
      CountFiles(es[1..])
  }

  /** The bytes of those files, counted the same way. */
  function TotalBytes(es: seq<Entry>): nat {
    if es == [] then 0
    else
      (match es[0]
       case File(_, size, _) => size
       case Dir(name, children) => if name == GIT_DIR then 0 else TotalBytes(children)) +
      TotalBytes(es[1..])
  }

  /** The walk of a listing interleaves the first entry's part with the rest's: counted
      and summed, the parts may be regrouped. */
  lemma WalkRegroup(here: seq<WalkedFile>, restHere: seq<WalkedFile>, below: seq<WalkedFile>, restBelow: seq<WalkedFile>)
    ensures |here + restHere + below + restBelow| == |here| + |below| + |restHere + restBelow|
    ensures SumBy(here + restHere + below + restBelow, SizeOf) ==
            SumBy(here, SizeOf) + SumBy(below, SizeOf) + SumBy(restHere + restBelow, SizeOf)
  {
    SumByAppend(here, restHere, SizeOf);
    SumByAppend(here + restHere, below, SizeOf);
    SumByAppend(here + restHere + below, restBelow, SizeOf);
    SumByAppend(restHere, restBelow, SizeOf);
  }

  /** The walk reports every file outside ".git" exactly as often as the tree holds it: the
      running totals over the walk are the tree's file count and byte count. */
  lemma {:induction false} WalkTotals(es: seq<Entry>, root: string)
    ensures |Walk(es, root)| == CountFiles(es)
    ensures SumBy(Walk(es, root), SizeOf) == TotalBytes(es)
  {
    if es != [] {
      var e := es[0];
      var here := if e.File? then [WalkedFile(e.name, PathJoin(root, e.name), e.size, e.content)] else [];
      var below := if e.Dir? && e.name != GIT_DIR then Walk(e.children, PathJoin(root, e.name)) else [];
      WalkTotals(es[1..], root);
      if e.Dir? && e.name != GIT_DIR {
        WalkTotals(e.children, PathJoin(root, e.name));
      }
      assert Walk(es, root) == here + FilesHere(es[1..], root) + below + WalkBelow(es[1..], root);
      WalkRegroup(here, FilesHere(es[1..], root), below, WalkBelow(es[1..], root));
      if e.File? {
        assert SumBy(here, SizeOf) == e.size by { assert here[1..] == []; }
      }
    }
  }

  // ---------------------------------------------------------------------------------------
  // sorted(os.listdir(path)) without ".git"
  // ---------------------------------------------------------------------------------------

  predicate SortedByName(es: seq<Entry>) {
    forall i, j :: 0 <= i < j < |es| ==> !StrLess(es[j].name, es[i].name)
  }

  /** Puts `x` after every entry whose name does not come after its own. */
  function InsertByName(ys: seq<Entry>, x: Entry): (r: seq<Entry>)
    ensures multiset(r) == multiset(ys) + multiset{x}
    ensures |r| == |ys| + 1
  {
    if ys == [] || StrLess(x.name, ys[0].name) then [x] + ys
    else
      assert ys == [ys[0]] + ys[1..];
      [ys[0]] + InsertByName(ys[1..], x)
  }

  /** `sorted(...)` of the names: code-point order, entries in listing order among equals. */
  function SortByName(es: seq<Entry>): (r: seq<Entry>)
    ensures multiset(r) == multiset(es)
    ensures |r| == |es|
  {
    if es == [] then []
    else
      assert es == es[..|es| - 1] + [es[|es| - 1]];
      InsertByName(SortByName(es[..|es| - 1]), es[|es| - 1])
  }

  lemma {:induction false} InsertByNameSorted(ys: seq<Entry>, x: Entry)
    requires SortedByName(ys)
    ensures SortedByName(InsertByName(ys, x))
  {
    if ys == [] {
    } else if StrLess(x.name, ys[0].name) {
      var r := [x] + ys;
      forall i, j | 0 <= i < j < |r| ensures !StrLess(r[j].name, r[i].name) {
        if i == 0 {
          if StrLess(ys[j - 1].name, x.name) {
            if j - 1 == 0 {
              StrLessTransitive(x.name, ys[0].name, x.name);
              StrLessIrreflexive(x.name);
            } else {
              StrLessTransitive(ys[j - 1].name, x.name, ys[0].name);
            }
          }
        }
      }
    } else {
      var rest := InsertByName(ys[1..], x);
      InsertByNameSorted(ys[1..], x);
      forall j | 0 <= j < |rest| ensures !StrLess(rest[j].name, ys[0].name) {
        assert rest[j] in multiset(rest);
        if rest[j] != x {
          assert rest[j] in multiset(ys[1..]);
          var k :| 0 <= k < |ys[1..]| && ys[1..][k] == rest[j];
          assert ys[k + 1] == rest[j];
        }
      }
      assert InsertByName(ys, x) == [ys[0]] + rest;
    }
  }

  lemma {:induction false} SortByNameSorted(es: seq<Entry>)
    ensures SortedByName(SortByName(es))
  {
    if es != [] {
      SortByNameSorted(es[..|es| - 1]);
      InsertByNameSorted(SortByName(es[..|es| - 1]), es[|es| - 1]);
    }
  }

  /** `items.remove('.git')` when ".git" is among the items: the first such entry goes. */
  function RemoveGit(es: seq<Entry>): (r: seq<Entry>)
    ensures |r| <= |es|
    ensures forall x :: x in r ==> x in es
  {
    if es == [] then []
    else if es[0].name == GIT_DIR then es[1..]
    else [es[0]] + RemoveGit(es[1..])
  }

  /** The entries of a directory as the listing shows them. */
  function Arrange(es: seq<Entry>): (r: seq<Entry>)
    ensures |r| <= |es|
    ensures forall x :: x in r ==> x in es
  {
    var sorted := SortByName(es);
    assert forall x :: x in sorted ==> x in es by {
      forall x | x in sorted ensures x in es {
        assert x in multiset(sorted);
      }
    }
    RemoveGit(sorted)
  }

  /** No two entries of a directory share a name, as in any real directory. */
  predicate NamesDistinct(es: seq<Entry>) {
    forall i, j :: 0 <= i < j < |es| ==> es[i].name != es[j].name
  }

  lemma {:induction false} RemoveGitSorted(es: seq<Entry>)
    requires SortedByName(es)
    ensures SortedByName(RemoveGit(es))
  {
    if es != [] && es[0].name != GIT_DIR {
      RemoveGitSorted(es[1..]);
      var rest := RemoveGit(es[1..]);
      forall j | 0 <= j < |rest| ensures !StrLess(rest[j].name, es[0].name) {
        assert rest[j] in rest;
        var k :| 0 <= k < |es[1..]| && es[1..][k] == rest[j];
        assert es[k + 1] == rest[j];
      }
    }
  }

  lemma {:induction false} RemoveGitExact(es: seq<Entry>)
    requires NamesDistinct(es)
    ensures forall x :: x in RemoveGit(es) <==> x in es && x.name != GIT_DIR
  {
    if es != [] {
      if es[0].name != GIT_DIR {
        RemoveGitExact(es[1..]);
      } else {
        forall x | x in es[1..] ensures x.name != GIT_DIR {
          var k :| 0 <= k < |es[1..]| && es[1..][k] == x;
          assert es[k + 1].name != es[0].name;
        }
      }
    }
  }

  /** The siblings of the listing are sorted by name, and they are exactly the entries of
      the directory except ".git". */
  lemma ArrangeSpec(es: seq<Entry>)
    requires NamesDistinct(es)
    ensures SortedByName(Arrange(es))
    ensures forall x :: x in Arrange(es) <==> x in es && x.name != GIT_DIR
  {
    var sorted := SortByName(es);
    SortByNameSorted(es);
    RemoveGitSorted(sorted);
    ArrangeSortedDistinct(es);
    RemoveGitExact(sorted);
    forall x ensures x in sorted <==> x in es {
      assert x in sorted <==> x in multiset(sorted);
    }
  }

  lemma {:induction false} DistinctOnce(es: seq<Entry>, a: nat)
    requires NamesDistinct(es) && a < |es|
    ensures multiset(es)[es[a]] == 1
  {
    var x := es[a];
    assert es == es[..a] + [x] + es[a + 1..];
    var before, after := es[..a], es[a + 1..];
    forall y | y in before ensures y != x {
      var k :| 0 <= k < |before| && before[k] == y;
      assert es[k].name != es[a].name;
    }
    forall y | y in after ensures y != x {
      var k :| 0 <= k < |after| && after[k] == y;
      assert es[a + 1 + k].name != es[a].name;
    }
  }

  // ---------------------------------------------------------------------------------------
  // The box-drawing listing
  // ---------------------------------------------------------------------------------------

  const TEE: string := "├── "
  const ELBOW: string := "└── "
  const PIPE: string := "│   "
  const BLANK: string := "    "

  function ChildrenOf(e: Entry): seq<Entry> {
    if e.Dir? then e.children else []
  }

  /** The lines of one entry: its own line, with the elbow when it is the last sibling and
      the tee otherwise, then, for a directory, its listing one level in. */
  function EntryLines(e: Entry, prefix: string, last: bool): seq<string>
    decreases e, |ChildrenOf(e)| + 2
  {
    [prefix + (if last then ELBOW else TEE) + e.name] +
    (if e.Dir? then DirLines(e, prefix + (if last then BLANK else PIPE)) else [])
  }

  /** `_generate_tree(path, prefix)` for the directory `d`. */
  function DirLines(d: Entry, prefix: string): seq<string>
    requires d.Dir?
    decreases d, |d.children| + 1
  {
    var items := Arrange(d.children);
    Listing(d, items, |items|, prefix)
  }

  /** The lines of the first `n` of `items`, the arranged entries of `d`. */
  function Listing(d: Entry, items: seq<Entry>, n: nat, prefix: string): seq<string>
    requires d.Dir? && n <= |items| <= |d.children|
    requires forall x :: x in items ==> x in d.children
    decreases d, n
  {
    if n == 0 then []
    else
      assert items[n - 1] in d.children;
      Listing(d, items, n - 1, prefix) + EntryLines(items[n - 1], prefix, n == |items|)
  }

  /** One more item of the listing: its own line, with the elbow for the last item and the
      tee otherwise, then, for a directory, its lines one level in. */
  lemma ListingNext(d: Entry, items: seq<Entry>, i: nat, prefix: string)
    requires d.Dir? && i < |items| <= |d.children|
    requires forall x :: x in items ==> x in d.children
    ensures var last := i == |items| - 1;
            Listing(d, items, i + 1, prefix) ==
              Listing(d, items, i, prefix) + [prefix + (if last then ELBOW else TEE) + items[i].name] +
              (if items[i].Dir? then DirLines(items[i], prefix + (if last then BLANK else PIPE)) else [])
  {
  }

  /** One step of the `_generate_tree` loop: after item `i`'s line, and its subtree when it
      is a directory, the lines built so far are those of the first `i + 1` items. */
  lemma ListingStep(d: Entry, items: seq<Entry>, i: nat, prefix: string,
                    lines: seq<string>, before: seq<string>, after: seq<string>)
    requires d.Dir? && i < |items| <= |d.children|
    requires forall x :: x in items ==> x in d.children
    requires before == lines + Listing(d, items, i, prefix)
    requires var last := i == |items| - 1;
             var line := prefix + (if last then ELBOW else TEE) + items[i].name;
             if items[i].Dir? then after == before + [line] + DirLines(items[i], prefix + (if last then BLANK else PIPE))
             else after == before + [line]
    ensures after == lines + Listing(d, items, i + 1, prefix)
  {
    ListingNext(d, items, i, prefix);
  }

  /** `_get_directory_structure`: the repository name, then the listing of the root, one
      line each, joined with newlines. */
  function TreeText(repoName: string, root: seq<Entry>): string {
    Join("\n", [repoName] + DirLines(Dir(repoName, root), ""))
  }

  /** An empty repository shows as its name alone. */
  lemma EmptyTreeIsRootLine(repoName: string, root: seq<Entry>)
    requires Arrange(root) == []
    ensures TreeText(repoName, root) == repoName
  {
    assert DirLines(Dir(repoName, root), "") == [];
  }

  /** The entries the listing shows, counted on the file system's own listing: every entry
      not named ".git", at every level. */
  function Visible(es: seq<Entry>): nat {
    if es == [] then 0
    else
      (if es[0].name == GIT_DIR then 0
       else 1 + (match es[0] case File(_, _, _) => 0 case Dir(_, children) => Visible(children))) +
      Visible(es[1..])
  }

  /** No two siblings share a name, at any level. */
  predicate WellFormed(es: seq<Entry>) {
    && NamesDistinct(es)
    && forall i :: 0 <= i < |es| ==> es[i].Dir? ==> WellFormed(es[i].children)
  }

  lemma {:induction false} VisibleAppend(a: seq<Entry>, b: seq<Entry>)
    ensures Visible(a + b) == Visible(a) + Visible(b)
  {
    if a != [] {
      assert (a + b)[1..] == a[1..] + b;
      VisibleAppend(a[1..], b);
    } else {
      assert a + b == b;
    }
  }

  lemma {:induction false} InsertByNameVisible(ys: seq<Entry>, x: Entry)
    ensures Visible(InsertByName(ys, x)) == Visible(ys) + Visible([x])
  {
    assert [x][1..] == [];
    if ys == [] || StrLess(x.name, ys[0].name) {
      assert ([x] + ys)[1..] == ys;
    } else {
      InsertByNameVisible(ys[1..], x);
      var rest := InsertByName(ys[1..], x);
      assert ([ys[0]] + rest)[1..] == rest;
    }
  }

  lemma {:induction false} SortByNameVisible(es: seq<Entry>)
    ensures Visible(SortByName(es)) == Visible(es)
  {
    if es != [] {
      var init, last := es[..|es| - 1], es[|es| - 1];
      SortByNameVisible(init);
      InsertByNameVisible(SortByName(init), last);
      assert es == init + [last];
      VisibleAppend(init, [last]);
    }
  }

  /** Dropping ".git" loses nothing visible, as long as there was at most one. */
  lemma {:induction false} RemoveGitVisible(es: seq<Entry>)
    requires NamesDistinct(es)
    ensures Visible(RemoveGit(es)) == Visible(es)
    ensures forall x :: x in RemoveGit(es) ==> x.name != GIT_DIR
  {
    RemoveGitExact(es);
    if es != [] && es[0].name != GIT_DIR {
      RemoveGitVisible(es[1..]);
      assert ([es[0]] + RemoveGit(es[1..]))[1..] == RemoveGit(es[1..]);
    }
  }

  /** One line per visible entry: the listing of a well-formed directory has exactly as many
      lines as the directory has entries outside ".git", at every level. */
  lemma {:induction false} DirLinesCount(d: Entry, prefix: string)
    requires d.Dir? && WellFormed(d.children)
    ensures |DirLines(d, prefix)| == Visible(d.children)
    decreases d, 1
  {
    var items := Arrange(d.children);
    var sorted := SortByName(d.children);
    SortByNameVisible(d.children);
    ArrangeSortedDistinct(d.children);
    RemoveGitVisible(sorted);
    ListingCount(d, items, |items|, prefix);
    assert items[..|items|] == items;
  }

  lemma ArrangeSortedDistinct(es: seq<Entry>)
    requires NamesDistinct(es)
    ensures NamesDistinct(SortByName(es))
  {
    var sorted := SortByName(es);
    forall i, j | 0 <= i < j < |sorted| ensures sorted[i].name != sorted[j].name {
      assert sorted[i] in multiset(es) && sorted[j] in multiset(es);
      if sorted[i].name == sorted[j].name {
        assert sorted[i] in es && sorted[j] in es;
        var a :| 0 <= a < |es| && es[a] == sorted[i];
        var b :| 0 <= b < |es| && es[b] == sorted[j];
        assert a == b;
        RepeatCountsTwice(sorted, i, j);
        DistinctOnce(es, a);
      }
    }
  }

  lemma {:induction false} ListingCount(d: Entry, items: seq<Entry>, n: nat, prefix: string)
    requires d.Dir? && n <= |items| <= |d.children|
    requires forall x :: x in items ==> x in d.children && x.name != GIT_DIR
    requires WellFormed(d.children)
    ensures |Listing(d, items, n, prefix)| == Visible(items[..n])
    decreases d, 0, n
  {
    if n > 0 {
      var e := items[n - 1];
      assert e in d.children;
      ListingCount(d, items, n - 1, prefix);
      var last := n == |items|;
      if e.Dir? {
        var k :| 0 <= k < |d.children| && d.children[k] == e;
        assert WellFormed(e.children);
        DirLinesCount(e, prefix + (if last then BLANK else PIPE));
      }
      assert items[..n] == items[..n - 1] + [e];
      VisibleAppend(items[..n - 1], [e]);
      assert [e][1..] == [];
    }
  }

  /** Every line of a directory's listing starts with the prefix it was given: a child's
      lines are indented under its parent. */
  lemma {:induction false} DirLinesPrefixed(d: Entry, prefix: string)
    requires d.Dir?
    ensures forall line :: line in DirLines(d, prefix) ==> StartsWith(line, prefix)
    decreases d, |d.children| + 1
  {
    var items := Arrange(d.children);
    ListingPrefixed(d, items, |items|, prefix);
  }

  lemma {:induction false} ListingPrefixed(d: Entry, items: seq<Entry>, n: nat, prefix: string)
    requires d.Dir? && n <= |items| <= |d.children|
    requires forall x :: x in items ==> x in d.children
    ensures forall line :: line in Listing(d, items, n, prefix) ==> StartsWith(line, prefix)
    decreases d, n
  {
    if n > 0 {
      var e := items[n - 1];
      assert e in d.children;
      ListingPrefixed(d, items, n - 1, prefix);
      var inner := prefix + (if n == |items| then BLANK else PIPE);
      if e.Dir? {
        DirLinesPrefixed(e, inner);
        forall line | line in DirLines(e, inner) ensures StartsWith(line, prefix) {
          assert line[..|inner|] == inner;
          assert line[..|prefix|] == inner[..|prefix|];
        }
      }
      var own := prefix + (if n == |items| then ELBOW else TEE) + e.name;
      assert own[..|prefix|] == prefix;
    }
  }
}
