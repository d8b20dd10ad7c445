/** The analyzer object: it keeps the clone URL, the scratch directory and the repository
    name, and its report-building methods walk the cloned tree step by step, each proved to
    build the value its specification function in `RepoReport` or `Dependencies` defines. */
module RepoAnalysis {

  import opened Wrappers
  import opened Strings
  import opened Ordering
  import opened Tallies
  import opened LanguageDetector
  import opened FileAnalyzer
  import opened RepoTree
  import opened Globbing
  import opened RepoReport
  import opened Dependencies

  class RepoAnalyzer {
    const repoUrl: string
    const tempDir: string
    const repoName: string

    /** The name is the URL's last segment with ".git" taken out. */
    constructor (repoUrl: string, tempDir: string)
      ensures this.repoUrl == repoUrl && this.tempDir == tempDir
      ensures repoName == RepoName(repoUrl)
    {
      this.repoUrl := repoUrl;
      this.tempDir := tempDir;
      repoName := RemoveAll(AfterLast(repoUrl, '/'), GIT_SUFFIX);
    }

    /** `_calculate_stats`: one pass over the walk, counting files and adding sizes. */
    method CalculateStats(root: seq<Entry>, repoPath: string) returns (stats: Stats)
      ensures stats == StatsOf(root, repoPath)
    {
      var files := Walk(root, repoPath);
      var totalFiles, totalSize := 0, 0;
      var i := 0;
      while i < |files|
        invariant 0 <= i <= |files|
        invariant totalFiles == i && totalSize == FileBytes(files[..i])
      {
        assert files[..i + 1][..i] == files[..i];
        totalFiles := totalFiles + 1;
        totalSize := totalSize + files[i].size;
        i := i + 1;
      }
      assert files[..|files|] == files;
      stats := Stats(totalFiles, totalSize, FormatSize(totalSize));
    }

    /** `_generate_tree`: the lines of directory `d`'s listing are appended to `lines`. */
    method GenerateTree(d: Entry, prefix: string, lines: seq<string>) returns (result: seq<string>)
      requires d.Dir?
      ensures result == lines + DirLines(d, prefix)
      decreases d, |d.children| + 1
    {
      var items := Arrange(d.children);
      result := lines;
      var i := 0;
      while i < |items|
        invariant 0 <= i <= |items|
        invariant result == lines + Listing(d, items, i, prefix)
      {
        var item := items[i];
        assert item in d.children;
        ghost var before := result;
        var isLast := i == |items| - 1;
        var newPrefix;
        if isLast {
          result := result + [prefix + ELBOW + item.name];
          newPrefix := prefix + BLANK;
        } else {
          result := result + [prefix + TEE + item.name];
          newPrefix := prefix + PIPE;
        }
        if item.Dir? {
          result := GenerateTree(item, newPrefix, result);
        }
        ListingStep(d, items, i, prefix, lines, before, result);
        i := i + 1;
      }
    }

    /** `_get_directory_structure`: the name line, then the tree, joined by newlines. */
    method GetDirectoryStructure(root: seq<Entry>) returns (text: string)
      ensures text == TreeText(repoName, root)
    {
      var lines := GenerateTree(Dir(repoName, root), "", [repoName]);
      text := Join("\n", lines);
    }

    /** `_detect_languages`: count the labelled files per language, then list the
        languages by count, largest first. */
    method DetectLanguages(root: seq<Entry>, repoPath: string) returns (languages: seq<LanguageShare>)
      ensures languages == LanguageHistogram(root, repoPath)
    {
      var counts, total := CountLanguages(Walk(root, repoPath));
      var ranked := SortDesc(counts, CountOf);
      languages := [];
      var k := 0;
      while k < |ranked|
        invariant 0 <= k <= |ranked|
        invariant languages == Shares(ranked[..k], total)
      {
        SharesStep(ranked, k, total);
        languages := languages + [LanguageShare(ranked[k].0, ranked[k].1, total)];
        k := k + 1;
      }
      HistogramFromCounts(root, repoPath, counts, total, languages);
    }

    /** The walk loop of `_detect_languages`: every file with a label is counted under it
        and in the total. */
    method CountLanguages(files: seq<WalkedFile>) returns (counts: Counts, total: nat)
      ensures counts == CountAll(Labels(files)) && total == |Labels(files)|
    {
      counts, total := [], 0;
      var i := 0;
      while i < |files|
        invariant 0 <= i <= |files|
        invariant counts == CountAll(Labels(files[..i])) && total == |Labels(files[..i])|
      {
        ghost var before, n := counts, total;
        var language := DetectLanguageAt(files[i].path, StatOf(files[i]));
        if language != [] {
          counts := Bump(counts, language);
          total := total + 1;
        }
        CountStep(files, i, before, n, counts, total);
        i := i + 1;
      }
      assert files[..|files|] == files;
    }

    /** `_analyze_key_files`: glob every pattern, keep each path once, analyse the files
        that are small enough and outside ".git", then keep the ten with most functions. */
    method AnalyzeKeyFiles(root: seq<Entry>, repoPath: string, dirSize: nat) returns (keyFiles: seq<KeyFile>)
      ensures keyFiles == KeyFiles(root, repoPath, dirSize)
    {
      var allFiles := GlobPatterns(root, KEY_FILE_PATTERNS);
      var hits := UniqueByPath(allFiles);
      ghost var keep := KeyFileIn(repoPath, dirSize);
      var candidates: seq<KeyFile> := [];
      var i := 0;
      while i < |hits|
        invariant 0 <= i <= |hits|
        invariant candidates == FilterMap(hits[..i], keep)
      {
        var h := hits[i];
        assert keep(h) == KeyFileOf(h, repoPath, dirSize);
        var size := HitSize(h, dirSize);
        if size > MIB || StartsWith(h.path, GIT_DIR) {
          FilterMapStepNone(hits, i, keep);
        } else {
          var path := PathJoin(repoPath, h.path);
          var analysis := AnalyzeFileContent(path, HitStat(h));
          var record := KeyFile(h.path, DetectLanguageAt(path, HitStat(h)), FormatSize(size),
                                analysis.purpose, analysis.functions);
          FilterMapStepSome(hits, i, keep, record);
          candidates := candidates + [record];
        }
        i := i + 1;
      }
      assert hits[..|hits|] == hits;
      keyFiles := TopN(SortDesc(candidates, FunctionCount), KEY_FILE_LIMIT);
    }

    /** The matches of each pattern in turn, gathered into one list. */
    method GlobPatterns(root: seq<Entry>, patterns: seq<string>) returns (hits: seq<Hit>)
      ensures hits == GlobAll(root, patterns)
    {
      hits := [];
      var p := 0;
      while p < |patterns|
        invariant 0 <= p <= |patterns|
        invariant hits == GlobAll(root, patterns[..p])
      {
        assert patterns[..p + 1][..p] == patterns[..p];
        hits := hits + Glob(root, patterns[p]);
        p := p + 1;
      }
      assert patterns[..|patterns|] == patterns;
    }

    /** The relative paths one component's patterns find, each once. */
    method ComponentFilesOf(root: seq<Entry>, patterns: seq<string>) returns (files: seq<string>)
      ensures files == ComponentFiles(root, patterns)
    {
      var matched: seq<string> := [];
      var p := 0;
      while p < |patterns|
        invariant 0 <= p <= |patterns|
        invariant matched == Paths(GlobAll(root, patterns[..p]))
      {
        assert patterns[..p + 1][..p] == patterns[..p];
        PathsAppend(GlobAll(root, patterns[..p]), Glob(root, patterns[p]));
        matched := matched + Paths(Glob(root, patterns[p]));
        p := p + 1;
      }
      assert patterns[..|patterns|] == patterns;
      files := Dedup(matched);
    }

    /** `_identify_key_components`: a component for every group whose patterns find
        something, in the order of the groups. */
    method IdentifyKeyComponents(root: seq<Entry>) returns (components: seq<Component>)
      ensures components == KeyComponents(root)
    {
      ghost var keep := ComponentIn(root);
      components := [];
      var k := 0;
      while k < |COMPONENT_PATTERNS|
        invariant 0 <= k <= |COMPONENT_PATTERNS|
        invariant components == FilterMap(COMPONENT_PATTERNS[..k], keep)
      {
        var group := COMPONENT_PATTERNS[k];
        assert keep(group) == ComponentOf(root, group);
        var files := ComponentFilesOf(root, group.1);
        if files != [] {
          var component := Component(group.0, files, ComponentDescription(group.0));
          FilterMapStepSome(COMPONENT_PATTERNS, k, keep, component);
          components := components + [component];
        } else {
          FilterMapStepNone(COMPONENT_PATTERNS, k, keep);
        }
        k := k + 1;
      }
      assert COMPONENT_PATTERNS[..|COMPONENT_PATTERNS|] == COMPONENT_PATTERNS;
    }

    /** The manifest loop: one package per line that names one. */
    method ReadManifest(text: string) returns (deps: seq<Dependency>)
      ensures deps == Packages(Requirements(text))
    {
      var lines := Split(text, '\n');
      deps := [];
      var i := 0;
      while i < |lines|
        invariant 0 <= i <= |lines|
        invariant deps == Packages(ManifestNames(lines[..i]))
      {
        ghost var before := deps;
        var name := ManifestEntry(lines[i]);
        if name.Some? {
          deps := deps + [Package(name.value)];
        }
        ManifestStep(lines, i, before, deps);
        i := i + 1;
      }
      assert lines[..|lines|] == lines;
    }

    /** The import scan over the walk: `None` as soon as a Python file cannot be opened. */
    method ScanImports(files: seq<WalkedFile>) returns (modules: Option<seq<string>>)
      ensures modules == ImportsOf(files)
    {
      var found: seq<string> := [];
      var k := 0;
      while k < |files|
        invariant 0 <= k <= |files|
        invariant ImportsOf(files[..k]) == Some(found)
      {
        var file := files[k];
        ImportsStep(files, k, found);
        if EndsWith(file.name, ".py") {
          if file.content.None? {
            ImportsFailurePersists(files, k + 1);
            return None;
          }
          found := found + FileImports(file.content.value);
        }
        k := k + 1;
      }
      assert files[..|files|] == files;
      modules := Some(found);
    }

    /** `_analyze_dependencies`: the manifest's packages, then every imported module that is
        neither in the standard library nor listed yet; `None` where the source raises. */
    method AnalyzeDependencies(root: seq<Entry>, repoPath: string) returns (dependencies: Option<seq<Dependency>>)
      ensures dependencies == Dependencies.AnalyzeDependencies(root, repoPath)
    {
      var deps: seq<Dependency> := [];
      ghost var names: seq<string> := [];
      var manifest := ChildNamed(root, MANIFEST);
      if manifest.Some? {
        var entry := manifest.value;
        if entry.Dir? || entry.content.None? {
          return None;
        }
        deps := ReadManifest(entry.content.value);
        names := Requirements(entry.content.value);
      }
      assert ManifestPackages(root) == Some(names) && deps == Packages(names);
      var modules := ScanImports(Walk(root, repoPath));
      if modules.None? {
        return None;
      }
      var unique := Dedup(modules.value);
      ghost var listed := deps;
      var j := 0;
      while j < |unique|
        invariant 0 <= j <= |unique|
        invariant deps == MergeImports(listed, unique[..j])
      {
        MergeStep(listed, unique, j);
        var name := unique[j];
        if name !in STD_LIB && name !in DepNames(deps) {
          deps := deps + [Package(name)];
        }
        j := j + 1;
      }
      assert unique[..|unique|] == unique;
      dependencies := Some(deps);
    }
  }
}
