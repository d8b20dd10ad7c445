/** The dependency report: the packages named by the manifest at the repository root,
    followed by the third-party modules the Python files import. */
module Dependencies {

  import opened Wrappers
  import opened Strings
  import opened Rules
  import opened Ordering
  import opened RepoTree

  datatype Dependency = Dependency(name: string, kind: string, purpose: string, required: bool)

  const PYTHON_PACKAGE: string := "Python Package"
  const MANIFEST: string := "requirements.txt"

  /** What the report says the well-known packages are for. */
  const PURPOSES: seq<(string, string)> := [
    ("flask", "Web framework for building the interface"),
    ("requests", "HTTP library for making API requests"),
    ("paramiko", "SSH client for connecting to MikroTik devices"),
    ("librouteros", "Python API implementation for MikroTik RouterOS"),
    ("pyyaml", "YAML parser for configuration files"),
    ("jinja2", "Templating engine for generating scripts"),
    ("netmiko", "Multi-vendor SSH client for network devices"),
    ("pysnmp", "SNMP library for monitoring MikroTik devices"),
    ("click", "Command-line interface creation kit"),
    ("cryptography", "Cryptography library for secure communications"),
    ("schedule", "Job scheduling for Python"),
    ("pandas", "Data analysis and manipulation library"),
    ("matplotlib", "Plotting library for visualization"),
    ("pytest", "Testing framework"),
    ("sqlalchemy", "SQL toolkit and ORM"),
    ("django", "Web framework"),
    ("pymongo", "MongoDB client")
  ]

  const FALLBACK_PREFIX: string := "Support library for "
  const FALLBACK_SUFFIX: string := " functionality"

  /** `_get_dependency_purpose`: the table's entry, or a sentence built from the name with
      its underscores read as spaces. */
  function DependencyPurpose(name: string): string {
    match Lookup(PURPOSES, name)
    case Some(purpose) => purpose
    case None => FALLBACK_PREFIX + ReplaceChar(name, '_', ' ') + FALLBACK_SUFFIX
  }

  /** A name outside the table gets the generated sentence. */
  lemma PurposeFallback(name: string)
    requires forall i :: 0 <= i < |PURPOSES| ==> PURPOSES[i].0 != name
    ensures DependencyPurpose(name) == FALLBACK_PREFIX + ReplaceChar(name, '_', ' ') + FALLBACK_SUFFIX
  {
    LookupSpec(PURPOSES, name);
  }

  /** No package appears twice in the table. */
  lemma PurposesDistinct()
    ensures forall i, j :: 0 <= i < j < |PURPOSES| ==> PURPOSES[i].0 != PURPOSES[j].0
  {
  }

  /** A name in the table gets the table's sentence. */
  lemma PurposeKnown(name: string, purpose: string)
    requires (name, purpose) in PURPOSES
    ensures DependencyPurpose(name) == purpose
  {
    var i :| 0 <= i < |PURPOSES| && PURPOSES[i] == (name, purpose);
    PurposesDistinct();
    LookupSpec(PURPOSES, name);
  }

  /** The record the report holds for a package. */
  function Package(name: string): Dependency {
    Dependency(name, PYTHON_PACKAGE, DependencyPurpose(name), true)
  }

  function DepNames(deps: seq<Dependency>): (r: seq<string>)
    ensures |r| == |deps|
    ensures forall i :: 0 <= i < |deps| ==> r[i] == deps[i].name
  {
    seq(|deps|, i requires 0 <= i < |deps| => deps[i].name)
  }

  // ---------------------------------------------------------------------------------------
  // The manifest
  // ---------------------------------------------------------------------------------------

  /** The package a manifest line names: the stripped line up to its first "==", unless the
      line is blank or a comment. */
  function ManifestEntry(line: string): Option<string> {
    var text := Strip(line);
    if text == [] || StartsWith(text, "#") then None else Some(BeforeFirst(text, "=="))
  }

  /** Blank lines and comments name nothing; any other line names the longest prefix of
      its stripped text that holds no "==", which ends where the first "==" begins or at
      the end of the line. */
  lemma ManifestEntrySpec(line: string)
    ensures var r := ManifestEntry(line);
            var text := Strip(line);
            && (r.None? <==> IsBlank(line) || StartsWith(text, "#"))
            && (r.Some? ==> StartsWith(text, r.value))
            && (r.Some? ==> r.value == text || HasAt(text, |r.value|, "=="))
            && (r.Some? ==> forall j :: 0 <= j < |r.value| ==> !HasAt(text, j, "=="))
  {
  }

  /** The packages the manifest lines name, in order, repeats kept. */
  function ManifestNames(lines: seq<string>): seq<string> {
    FilterMap(lines, ManifestEntry)
  }

  /** The packages of `requirements.txt`, read line by line. */
  function Requirements(text: string): seq<string> {
    ManifestNames(Split(text, '\n'))
  }

  lemma PackagesSnoc(names: seq<string>, x: string)
    ensures Packages(names + [x]) == Packages(names) + [Package(x)]
  {
    assert forall i :: 0 <= i < |names| + 1 ==> Packages(names + [x])[i] == (Packages(names) + [Package(x)])[i];
  }

  /** One more line of the manifest loop: a line that names a package adds its record. */
  lemma ManifestStep(lines: seq<string>, i: nat, before: seq<Dependency>, after: seq<Dependency>)
    requires i < |lines| && before == Packages(ManifestNames(lines[..i]))
    requires var name := ManifestEntry(lines[i]);
             if name.Some? then after == before + [Package(name.value)] else after == before
    ensures after == Packages(ManifestNames(lines[..i + 1]))
  {
    var name := ManifestEntry(lines[i]);
    if name.Some? {
      FilterMapStepSome(lines, i, ManifestEntry, name.value);
      PackagesSnoc(ManifestNames(lines[..i]), name.value);
    } else {
      FilterMapStepNone(lines, i, ManifestEntry);
    }
  }

  // ---------------------------------------------------------------------------------------
  // Import statements
  // ---------------------------------------------------------------------------------------

  const IMPORT_KEYWORD: string := "import "
  const FROM_KEYWORD: string := "from "

  /** The module a stripped source line imports: for `import`, the text up to " as " and
      then up to the first comma, stripped; for `from`, the text up to " import", stripped,
      up to its first dot. */
  function ImportedModule(line: string): (r: Option<string>)
    ensures r.Some? <==> StartsWith(line, IMPORT_KEYWORD) || StartsWith(line, FROM_KEYWORD)
    ensures r.Some? && !StartsWith(line, IMPORT_KEYWORD) ==> '.' !in r.value
  {
    if StartsWith(line, IMPORT_KEYWORD) then
      Some(Strip(BeforeFirst(BeforeFirst(line[7..], " as "), ",")))
    else if StartsWith(line, FROM_KEYWORD) then
      var package := BeforeFirst(Strip(BeforeFirst(line[5..], " import")), ".");
      BeforeFirstCharFree(Strip(BeforeFirst(line[5..], " import")), '.');
      Some(package)
    else None
  }

  /** The text before the first occurrence of a character does not hold that character. */
  lemma BeforeFirstCharFree(s: string, c: char)
    ensures c !in BeforeFirst(s, [c])
  {
    var r := BeforeFirst(s, [c]);
    forall j | 0 <= j < |r| ensures r[j] != c {
      assert !HasAt(s, j, [c]);
      assert s[j..j + 1] == [s[j]];
    }
  }

  /** A relative import (`from .`) yields the empty module name. */
  lemma RelativeImportIsEmpty(line: string)
    requires StartsWith(line, "from .")
    ensures ImportedModule(line) == Some("")
  {
    assert line[..5] == FROM_KEYWORD && line[5] == '.';
    assert !StartsWith(line, IMPORT_KEYWORD) by { assert line[0] != IMPORT_KEYWORD[0]; }
    var tail := line[5..];
    assert tail[0] == '.';
    assert !HasAt(tail, 0, " import");
    BeforeFirstKeepsLeading(tail, " import");
    var spec := BeforeFirst(tail, " import");
    IsSpaceIff('.');
    StripKeepsLeading(spec);
    BeforeFirstAtStart(Strip(spec), ".");
    assert ImportedModule(line) == Some(BeforeFirst(Strip(spec), "."));
  }

  /** The modules the lines of a file import, in order. */
  function LineImports(lines: seq<string>): seq<string> {
    FilterMap(lines, StrippedImport)
  }

  /** The module a source line imports once its surrounding whitespace is stripped. */
  function StrippedImport(line: string): Option<string> {
    ImportedModule(Strip(line))
  }

  function FileImports(content: string): seq<string> {
    LineImports(Split(content, '\n'))
  }

  /** The modules the Python files among `files` import, in walk order; nothing when one of
      those files cannot be opened. */
  function ImportsOf(files: seq<WalkedFile>): Option<seq<string>> {
    if files == [] then Some([])
    else
      var last := files[|files| - 1];
      match ImportsOf(files[..|files| - 1])
      case None => None
      case Some(modules) =>
        if !EndsWith(last.name, ".py") then Some(modules)
        else if last.content.None? then None
        else Some(modules + FileImports(last.content.value))
  }

  /** One more file of the walk: a non-Python file adds nothing, an unreadable Python file
      ends the scan, and a readable one adds its imports after the ones found so far. */
  lemma ImportsStep(files: seq<WalkedFile>, k: nat, before: seq<string>)
    requires k < |files| && ImportsOf(files[..k]) == Some(before)
    ensures !EndsWith(files[k].name, ".py") ==> ImportsOf(files[..k + 1]) == Some(before)
    ensures EndsWith(files[k].name, ".py") && files[k].content.None? ==> ImportsOf(files[..k + 1]).None?
    ensures EndsWith(files[k].name, ".py") && files[k].content.Some? ==>
              ImportsOf(files[..k + 1]) == Some(before + FileImports(files[k].content.value))
  {
    assert files[..k + 1][..k] == files[..k];
  }

  /** A Python file that cannot be opened stops the scan: once a stretch of the walk fails,
      the whole walk does. */
  lemma {:induction false} ImportsFailurePersists(files: seq<WalkedFile>, n: nat)
    requires n <= |files| && ImportsOf(files[..n]).None?
    ensures ImportsOf(files).None?
    decreases |files|
  {
    if n == |files| {
      assert files[..n] == files;
    } else {
      var init := files[..|files| - 1];
      assert init[..n] == files[..n];
      ImportsFailurePersists(init, n);
    }
  }

  // ---------------------------------------------------------------------------------------
  // The merge
  // ---------------------------------------------------------------------------------------

  /** Modules of the standard library the report leaves out. */
  const STD_LIB: seq<string> := [
    "os", "sys", "time", "datetime", "re", "math", "random",
    "json", "csv", "pickle", "collections", "subprocess", "shutil",
    "glob", "tempfile", "traceback", "itertools", "functools"
  ]

  /** One imported module: added as a package unless it is from the standard library or a
      dependency of that name is already listed. */
  function AddImport(deps: seq<Dependency>, name: string): seq<Dependency> {
    if name !in STD_LIB && name !in DepNames(deps) then deps + [Package(name)] else deps
  }

  /** The dependencies after each of `modules` in turn. */
  function MergeImports(deps: seq<Dependency>, modules: seq<string>): seq<Dependency> {
    if modules == [] then deps
    else AddImport(MergeImports(deps, modules[..|modules| - 1]), modules[|modules| - 1])
  }

  /** One more module of the merge loop. */
  lemma MergeStep(deps: seq<Dependency>, modules: seq<string>, j: nat)
    requires j < |modules|
    ensures MergeImports(deps, modules[..j + 1]) == AddImport(MergeImports(deps, modules[..j]), modules[j])
  {
    assert modules[..j + 1][..j] == modules[..j];
  }

  /** The merge keeps what was listed and only appends. */
  lemma {:induction false} MergeKeepsListed(deps: seq<Dependency>, modules: seq<string>)
    ensures |deps| <= |MergeImports(deps, modules)|
    ensures MergeImports(deps, modules)[..|deps|] == deps
  {
    if modules != [] {
      var init := modules[..|modules| - 1];
      MergeKeepsListed(deps, init);
      var before := MergeImports(deps, init);
      assert (before + [Package(modules[|modules| - 1])])[..|deps|] == before[..|deps|];
    }
  }

  /** Each appended entry is the package record of an imported module outside the
      standard library, under a name no earlier entry has. */
  lemma {:induction false} MergeAddsFresh(deps: seq<Dependency>, modules: seq<string>)
    ensures var r := MergeImports(deps, modules);
            && (forall i :: |deps| <= i < |r| ==>
                  r[i] == Package(r[i].name) && r[i].name in modules && r[i].name !in STD_LIB)
            && (forall i, j :: 0 <= j < i < |r| && |deps| <= i ==> r[j].name != r[i].name)
  {
    if modules != [] {
      var init, m := modules[..|modules| - 1], modules[|modules| - 1];
      MergeAddsFresh(deps, init);
      MergeKeepsListed(deps, init);
      var before := MergeImports(deps, init);
      var r := MergeImports(deps, modules);
      if m !in STD_LIB && m !in DepNames(before) {
        assert r == before + [Package(m)];
        forall i, j | 0 <= j < i < |r| && |deps| <= i ensures r[j].name != r[i].name {
          if i == |r| - 1 {
            assert DepNames(before)[j] == r[j].name;
          }
        }
      }
    }
  }

  /** Every imported module outside the standard library ends up listed. */
  lemma {:induction false} MergeCovers(deps: seq<Dependency>, modules: seq<string>)
    ensures forall m :: m in modules && m !in STD_LIB ==> m in DepNames(MergeImports(deps, modules))
  {
    if modules != [] {
      var init, m := modules[..|modules| - 1], modules[|modules| - 1];
      MergeCovers(deps, init);
      var before := MergeImports(deps, init);
      var r := MergeImports(deps, modules);
      if m !in STD_LIB && m !in DepNames(before) {
        assert r == before + [Package(m)];
        forall x | x in modules && x !in STD_LIB ensures x in DepNames(r) {
          if x in init {
            var k :| 0 <= k < |before| && DepNames(before)[k] == x;
            assert DepNames(r)[k] == x;
          } else {
            assert DepNames(r)[|r| - 1] == x;
          }
        }
      } else {
        forall x | x in modules && x !in STD_LIB ensures x in DepNames(r) {
          if x !in init {
            assert x == m;
          }
        }
      }
    }
  }

  // ---------------------------------------------------------------------------------------
  // The analysis
  // ---------------------------------------------------------------------------------------

  /** The entry called `name` in a directory listing, if any. */
  function ChildNamed(es: seq<Entry>, name: string): (r: Option<Entry>)
    ensures r.Some? ==> r.value in es && r.value.name == name
    ensures r.None? ==> forall i :: 0 <= i < |es| ==> es[i].name != name
  {
    if es == [] then None
    else if es[0].name == name then Some(es[0])
    else ChildNamed(es[1..], name)
  }

  /** The packages the manifest at the root names; nothing when there is no manifest, and
      `None` when it is a directory or cannot be read. */
  function ManifestPackages(root: seq<Entry>): Option<seq<string>> {
    match ChildNamed(root, MANIFEST)
    case None => Some([])
    case Some(entry) =>
      if entry.Dir? || entry.content.None? then None else Some(Requirements(entry.content.value))
  }

  function Packages(names: seq<string>): (deps: seq<Dependency>)
    ensures |deps| == |names|
    ensures forall i :: 0 <= i < |names| ==> deps[i] == Package(names[i])
  {
    seq(|names|, i requires 0 <= i < |names| => Package(names[i]))
  }

  /** `_analyze_dependencies` on the repository at `repoPath` whose root directory holds
      `root`: `None` where the analysis stops with an error. */
  function AnalyzeDependencies(root: seq<Entry>, repoPath: string): Option<seq<Dependency>> {
    var names := ManifestPackages(root);
    var modules := ImportsOf(Walk(root, repoPath));
    if names.None? || modules.None? then None
    else Some(MergeImports(Packages(names.value), Dedup(modules.value)))
  }

  /** The report lists the manifest's packages first, in manifest order with repeats, and
      every entry is the package record for its name. */
  lemma ManifestListedFirst(root: seq<Entry>, repoPath: string)
    requires AnalyzeDependencies(root, repoPath).Some?
    ensures var deps := AnalyzeDependencies(root, repoPath).value;
            var names := ManifestPackages(root).value;
            && |names| <= |deps|
            && DepNames(deps)[..|names|] == names
            && (forall i :: 0 <= i < |deps| ==> deps[i] == Package(deps[i].name))
  {
    var names := ManifestPackages(root).value;
    var modules := ImportsOf(Walk(root, repoPath)).value;
    var listed := Packages(names);
    MergeKeepsListed(listed, Dedup(modules));
    MergeAddsFresh(listed, Dedup(modules));
    var deps := MergeImports(listed, Dedup(modules));
    assert deps == AnalyzeDependencies(root, repoPath).value;
    forall i | 0 <= i < |names| ensures DepNames(deps)[i] == names[i] {
      assert deps[i] == deps[..|names|][i] == listed[i];
    }
    forall i | 0 <= i < |deps| ensures deps[i] == Package(deps[i].name) {
      if i < |names| {
        assert deps[i] == deps[..|names|][i] == listed[i];
      }
    }
  }

  /** After the manifest's packages come imported modules only: outside the standard
      library, not named by the manifest, each once. */
  lemma ImportsListedAfter(root: seq<Entry>, repoPath: string)
    requires AnalyzeDependencies(root, repoPath).Some?
    ensures var deps := AnalyzeDependencies(root, repoPath).value;
            var names := ManifestPackages(root).value;
            var modules := ImportsOf(Walk(root, repoPath)).value;
            && (forall i :: |names| <= i < |deps| ==>
                  deps[i].name in modules && deps[i].name !in STD_LIB && deps[i].name !in names)
            && (forall i, j :: 0 <= j < i < |deps| && |names| <= i ==> deps[j].name != deps[i].name)
  {
    var names := ManifestPackages(root).value;
    var modules := ImportsOf(Walk(root, repoPath)).value;
    var listed := Packages(names);
    MergeKeepsListed(listed, Dedup(modules));
    MergeAddsFresh(listed, Dedup(modules));
  }

  /** Every module a Python file imports that is outside the standard library is listed. */
  lemma ImportsAllListed(root: seq<Entry>, repoPath: string)
    requires AnalyzeDependencies(root, repoPath).Some?
    ensures var deps := AnalyzeDependencies(root, repoPath).value;
            forall m :: m in ImportsOf(Walk(root, repoPath)).value && m !in STD_LIB ==> m in DepNames(deps)
  {
    var names := ManifestPackages(root).value;
    var modules := ImportsOf(Walk(root, repoPath)).value;
    MergeCovers(Packages(names), Dedup(modules));
  }
}
