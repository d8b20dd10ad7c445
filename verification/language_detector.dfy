/** The language classifier: a path (and, when the extension says nothing, the first
    kilobyte of the file) to a language label. */
module LanguageDetector {

  import opened Wrappers
  import opened Strings
  import opened Rules

  const KIB: nat := 1024
  const MIB: nat := 1024 * 1024

  /** What the file system says about a path: nothing there, a directory, or a regular file
      with its size in bytes and its decoded text (`None` when it cannot be opened). */
  datatype FileStat = Absent | Directory | RegularFile(size: nat, content: Option<string>)

  /** The last index of `c` in `s`. */
  function LastIndexOf(s: string, c: char): (r: Option<nat>)
    ensures r.Some? ==> r.value < |s| && s[r.value] == c && c !in s[r.value + 1..]
    ensures r.None? ==> c !in s
  {
    if s == [] then None
    else if s[|s| - 1] == c then Some(|s| - 1)
    else
      var r := LastIndexOf(s[..|s| - 1], c);
      assert r.Some? ==> s[r.value + 1..] == s[..|s| - 1][r.value + 1..] + [s[|s| - 1]];
      r
  }

  /** Only dots precede position `d` of `s`. */
  predicate OnlyDots(s: string, d: nat)
    requires d <= |s|
  {
    forall i | 0 <= i < d :: s[i] == '.'
  }

  /** The extension `os.path.splitext` reports: from the last `.` of the final path
      component to its end, unless only dots precede that `.` in the component; else "". */
  function Extension(path: string): (ext: string)
    ensures ext == [] || ext[0] == '.'
  {
    var base := AfterLast(path, '/');
    var dot := LastIndexOf(base, '.');
    if dot.None? || OnlyDots(base, dot.value) then [] else base[dot.value..]
  }

  /** A non-empty extension is a suffix of the path that holds no `/` and no second `.`. */
  lemma ExtensionShape(path: string)
    ensures var ext := Extension(path);
            ext == [] || (EndsWith(path, ext) && '/' !in ext && '.' !in ext[1..])
  {
    var base := AfterLast(path, '/');
    var dot := LastIndexOf(base, '.');
    if dot.Some? && !OnlyDots(base, dot.value) {
      var d := dot.value;
      TailOfSuffix(path, |path| - |base|, d);
      SliceKeepsOut(base, '/', d);
      DropDrop(base, d, 1);
    }
  }

  lemma TailOfSuffix(s: string, k: nat, d: nat)
    requires k + d <= |s|
    ensures EndsWith(s, s[k..][d..])
  {
    DropDrop(s, k, d);
  }

  /** Extensions (lower-cased) the classifier knows outright. */
  const EXTENSIONS: seq<(string, string)> := [
    (".py", "Python"),
    (".js", "JavaScript"),
    (".html", "HTML"),
    (".css", "CSS"),
    (".rsc", "RouterOS Script"),
    (".md", "Markdown"),
    (".txt", "Text"),
    (".sh", "Shell"),
    (".bash", "Shell"),
    (".json", "JSON"),
    (".xml", "XML"),
    (".yaml", "YAML"),
    (".yml", "YAML"),
    (".toml", "TOML"),
    (".ini", "INI"),
    (".cfg", "Configuration"),
    (".conf", "Configuration")
  ]

  /** Every known extension has at least two characters after its dot, and every label is
      non-empty. */
  lemma ExtensionsShape()
    ensures forall i :: 0 <= i < |EXTENSIONS| ==> |EXTENSIONS[i].0| >= 3 && EXTENSIONS[i].1 != []
  {
    forall i | 0 <= i < |EXTENSIONS| ensures |EXTENSIONS[i].0| >= 3 && EXTENSIONS[i].1 != [] {
      assert EXTENSIONS[i] in EXTENSIONS;
    }
  }

  /** The label the extension table gives a (lower-cased) extension. */
  function KnownExtension(ext: string): (r: Option<string>)
    ensures r.Some? ==> |ext| >= 3 && r.value != []
  {
    var r := Lookup(EXTENSIONS, ext);
    if r.Some? then
      LookupFromTable(EXTENSIONS, ext);
      ExtensionsShape();
      r
    else r
  }

  /** The content signatures, in the order they are tried. */
  const SIGNATURES: seq<Rule> := [
    Rule([Prefix("#!/usr/bin/env python"), Has("import "), Both(Has("from "), Has(" import "))], "Python"),
    Rule([Prefix("#!/bin/bash"), Prefix("#!/bin/sh")], "Shell"),
    Rule([Has("<!DOCTYPE html>"), Has("<html")], "HTML"),
    Rule([Has("function "), Has("const "), Has("let "), Has("var "), Has("=>")], "JavaScript"),
    Rule([Has(":global "), Has(":local "), Has("/ip ")], "RouterOS Script")
  ]

  /** The label of the first content signature that the sample shows. */
  function Sniff(sample: string): (r: Option<string>)
    ensures r.Some? ==> r.value != []
  {
    var r := FirstFiring(SIGNATURES, sample);
    if r.Some? then FirstFiringFromRules(SIGNATURES, sample); r else r
  }

  /** The sample the classifier reads: the first 1024 characters of a regular file below
      1 MiB that can be opened; nothing otherwise. */
  function Sample(stat: FileStat): (sample: Option<string>)
    ensures sample.Some? <==> stat.RegularFile? && stat.size < MIB && stat.content.Some?
    ensures sample.Some? ==> |sample.value| <= KIB && StartsWith(stat.content.value, sample.value)
  {
    if stat.RegularFile? && stat.size < MIB && stat.content.Some? then Some(Take(stat.content.value, KIB))
    else None
  }

  /** What the signatures say about an optional sample. */
  function Sniffed(sample: Option<string>): Option<string> {
    if sample.Some? then Sniff(sample.value) else None
  }

  /** `detect_language`, given the sample the file yields (see `Sample`). */
  function DetectLanguage(path: string, sample: Option<string>): (language: string)
    // a known extension decides, whatever the content
    ensures KnownExtension(Lower(Extension(path))).Some? ==>
              language == KnownExtension(Lower(Extension(path))).value
    // otherwise the first signature that the sample shows
    ensures KnownExtension(Lower(Extension(path))).None? && Sniffed(sample).Some? ==>
              language == Sniffed(sample).value
    // otherwise the extension without its dot, upper-cased, or "Unknown"
    ensures KnownExtension(Lower(Extension(path))).None? && Sniffed(sample).None? ==>
              language == if Extension(path) == [] then "Unknown" else Upper(Extension(path)[1..])
    // the label is empty exactly for a bare trailing "." that no signature explains
    ensures language == [] <==> Extension(path) == "." && Sniffed(sample).None?
  {
    var ext := Extension(path);
    var known := KnownExtension(Lower(ext));
    var sniffed := Sniffed(sample);
    if known.Some? then
      assert |ext| == |Lower(ext)| >= 3;
      known.value
    else if sniffed.Some? then sniffed.value
    else if ext != [] then
      assert |ext| == 1 ==> ext == [ext[0]];
      Upper(ext[1..])
    else "Unknown"
  }

  /** `detect_language(file_path)` on a path the file system describes by `stat`. */
  function DetectLanguageAt(path: string, stat: FileStat): string {
    DetectLanguage(path, Sample(stat))
  }

  /** Extension lookup ignores case: the label depends on the extension only through its
      lower-cased form. */
  lemma ExtensionCaseIgnored(p: string, q: string, sample: Option<string>)
    requires Lower(Extension(p)) == Lower(Extension(q))
    ensures DetectLanguage(p, sample) == DetectLanguage(q, sample)
  {
    var e, f := Extension(p), Extension(q);
    var known := KnownExtension(Lower(e));
    assert known == KnownExtension(Lower(f));
    if known.Some? {
      assert DetectLanguage(p, sample) == known.value == DetectLanguage(q, sample);
    } else if Sniffed(sample).Some? {
      assert DetectLanguage(p, sample) == Sniffed(sample).value == DetectLanguage(q, sample);
    } else {
      assert |e| == |Lower(e)| == |Lower(f)| == |f|;
      if e != [] {
        LowerDrop(e, 1);
        LowerDrop(f, 1);
        UpperFollowsLower(e[1..], f[1..]);
        assert DetectLanguage(p, sample) == Upper(e[1..]) == Upper(f[1..]) == DetectLanguage(q, sample);
      }
    }
  }

  /** A sample mentioning "import " is Python even when it also carries RouterOS markers:
      the Python signature is tried first. */
  lemma ImportMeansPython(sample: string)
    requires Contains(sample, "import ")
    ensures Sniff(sample) == Some("Python")
  {
    assert Holds(SIGNATURES[0].cues[1], sample);
  }
}
