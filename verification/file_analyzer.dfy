/** The per-file analysis: a one-line purpose chosen by a first-match-wins rule chain, and
    the function or section records pulled out of Python, JavaScript and RouterOS text. */
module FileAnalyzer {

  import opened Wrappers
  import opened Strings
  import opened Rules
  import opened LanguageDetector
  import opened Patterns
  import opened Summaries
  import opened Extraction

  const UNKNOWN_PURPOSE := "Unknown purpose"
  const TRIPLE_QUOTE := "\"\"\""
  /** How many lines at the top of a file the comment scan looks at. */
  const COMMENT_WINDOW: nat := 20
  /** How many characters of a line or block an "Implementation"/"section"/"block" note quotes. */
  const QUOTE_LIMIT: nat := 50

  datatype FileAnalysis = FileAnalysis(purpose: string, functions: seq<FunctionRecord>)

  /** `os.path.basename`: the last `/`-separated component. */
  function BaseName(path: string): string {
    AfterLast(path, '/')
  }

  // ---------------------------------------------------------------------------------------
  // The purpose rule chain
  // ---------------------------------------------------------------------------------------

  /** File names whose purpose is fixed. */
  const NAME_PURPOSES: seq<(string, string)> := [
    ("README.md", "Repository documentation and overview"),
    ("requirements.txt", "Python package dependencies"),
    ("setup.py", "Python package installation script")
  ]

  const RSC_PURPOSE := "MikroTik RouterOS script for router configuration"

  /** Rule 1: a fixed file name, then the `.rsc` suffix. */
  function NamePurpose(filename: string): Option<string> {
    var fixed := Lookup(NAME_PURPOSES, filename);
    if fixed.Some? then fixed
    else if EndsWith(filename, ".rsc") then Some(RSC_PURPOSE)
    else None
  }

  /** Rule 2, Python only: the first sentence of the first triple-quoted block anywhere in
      the file, when that block holds more than whitespace. The block is the one opened by
      the first `"""` of the file and closed by the next `"""`, whatever follows. */
  function DocstringPurpose(content: string, language: string): (r: Option<string>)
    ensures r.Some? ==> language == "Python" && |r.value| <= SUMMARY_LIMIT + 3
    ensures language == "Python" ==>
              forall o: nat, c: nat ::
                FirstBlock(content, TRIPLE_QUOTE, TRIPLE_QUOTE, o, c) ==>
                  c <= |content| &&
                  r == (if Strip(content[o + 3..c]) == [] then None else Some(DocSummary(Strip(content[o + 3..c]))))
    ensures NoBlock(content, TRIPLE_QUOTE, TRIPLE_QUOTE) ==> r.None?
  {
    if language != "Python" then None
    else
      var doc := Delimited(content, TRIPLE_QUOTE, TRIPLE_QUOTE);
      assert NoBlock(content, TRIPLE_QUOTE, TRIPLE_QUOTE) ==> doc.None? by {
        if NoBlock(content, TRIPLE_QUOTE, TRIPLE_QUOTE) {
          DelimitedNone(content, TRIPLE_QUOTE, TRIPLE_QUOTE);
        }
      }
      assert forall o: nat, c: nat ::
          FirstBlock(content, TRIPLE_QUOTE, TRIPLE_QUOTE, o, c) ==>
            c <= |content| && doc == Some(content[o + 3..c]) by {
        forall o: nat, c: nat | FirstBlock(content, TRIPLE_QUOTE, TRIPLE_QUOTE, o, c)
          ensures c <= |content| && doc == Some(content[o + 3..c])
        {
          DelimitedFirst(content, TRIPLE_QUOTE, TRIPLE_QUOTE, o, c);
        }
      }
      if doc.None? || Strip(doc.value) == [] then None
      else Some(DocSummary(Strip(doc.value)))
  }

  /** The line-comment marker of each language. */
  const COMMENT_MARKERS: seq<(string, string)> := [
    ("Python", "#"),
    ("JavaScript", "//"),
    ("HTML", "<!--"),
    ("CSS", "/*"),
    ("RouterOS Script", "#")
  ]

  /** The marker of `language`, `#` for a language the table does not list. */
  function CommentMarker(language: string): string {
    var marker := Lookup(COMMENT_MARKERS, language);
    if marker.Some? then marker.value else "#"
  }

  /** The first twenty lines of the file, as the comment scan reads them. */
  function HeaderKinds(content: string, language: string): (kinds: seq<LineKind>)
    ensures |kinds| <= COMMENT_WINDOW
  {
    Kinds(FirstLines(Split(content, '\n'), COMMENT_WINDOW), CommentMarker(language))
  }

  /** A collected comment run as a summary: its texts joined by single spaces, shortened. */
  function RunSummary(run: seq<string>): (r: Option<string>)
    ensures r.Some? <==> run != []
    ensures r.Some? ==> |r.value| <= SUMMARY_LIMIT + 3
  {
    if run == [] then None else Some(Shorten(Join(" ", run)))
  }

  /** Rule 3: the comment run at the top of the file. */
  function CommentPurpose(content: string, language: string): Option<string> {
    RunSummary(LeadingRun(HeaderKinds(content, language)))
  }

  /** Rule 4: keywords in the lower-cased file name, in this order. */
  const KEYWORD_RULES: seq<Rule> := [
    Rule([Has("api")], "API interaction with MikroTik devices"),
    Rule([Has("config")], "Configuration management"),
    Rule([Has("util"), Has("helper")], "Utility functions and helpers"),
    Rule([Has("test")], "Test cases and testing utilities"),
    Rule([Has("interface"), Has("ui")], "User interface components"),
    Rule([Has("model"), Has("schema")], "Data models and schemas"),
    Rule([Has("script")], "Automation scripts")
  ]

  function KeywordPurpose(filename: string): Option<string> {
    FirstFiring(KEYWORD_RULES, Lower(filename))
  }

  /** Rule 5: the purpose of each language. */
  const LANGUAGE_PURPOSES: seq<(string, string)> := [
    ("Python", "Python script for automation or API interaction"),
    ("JavaScript", "Client-side scripting for web interface"),
    ("HTML", "Web interface template"),
    ("CSS", "Styling for web interface"),
    ("RouterOS Script", "MikroTik RouterOS configuration script"),
    ("Markdown", "Documentation"),
    ("Shell", "Shell script for system automation")
  ]

  /** The table's purpose for `language`, else "<language> code file". */
  function LanguagePurpose(language: string): string {
    var purpose := Lookup(LANGUAGE_PURPOSES, language);
    if purpose.Some? then purpose.value else language + " code file"
  }

  /** `determine_file_purpose`: the first rule that applies decides. */
  function FilePurpose(path: string, content: string, language: string): string {
    var filename := BaseName(path);
    var named := NamePurpose(filename);
    if named.Some? then named.value
    else
      var docstring := DocstringPurpose(content, language);
      if docstring.Some? then docstring.value
      else
        var comment := CommentPurpose(content, language);
        if comment.Some? then comment.value
        else
          var keyword := KeywordPurpose(filename);
          if keyword.Some? then keyword.value else LanguagePurpose(language)
  }

  /** `determine_file_purpose` as the source runs it, collecting the top comment run line by
      line. */
  method DetermineFilePurpose(path: string, content: string, language: string) returns (purpose: string)
    ensures purpose == FilePurpose(path, content, language)
  {
    var filename := BaseName(path);
    var named := NamePurpose(filename);
    if named.Some? {
      return named.value;
    }
    var docstring := DocstringPurpose(content, language);
    if docstring.Some? {
      return docstring.value;
    }
    var comments := CollectLeadingComments(HeaderKinds(content, language));
    if comments != [] {
      return Shorten(Join(" ", comments));
    }
    var keyword := KeywordPurpose(filename);
    if keyword.Some? {
      return keyword.value;
    }
    return LanguagePurpose(language);
  }

  /** `README.md` gets its fixed purpose whatever it contains. */
  lemma ReadmePurposeFixed(path: string, content: string, language: string)
    requires BaseName(path) == "README.md"
    ensures FilePurpose(path, content, language) == "Repository documentation and overview"
  {
    assert NamePurpose(BaseName(path)) == Some("Repository documentation and overview");
  }

  /** Every `.rsc` file gets the RouterOS purpose, before any docstring or comment is read. */
  lemma RscPurposeFixed(path: string, content: string, language: string)
    requires EndsWith(BaseName(path), ".rsc")
    ensures FilePurpose(path, content, language) == RSC_PURPOSE
  {
    RscNamePurpose(BaseName(path));
  }

  /** Each fixed file name gets its own purpose, whatever the file contains. */
  lemma FixedNamePurpose(path: string, content: string, language: string, i: nat)
    requires i < |NAME_PURPOSES| && BaseName(path) == NAME_PURPOSES[i].0
    ensures FilePurpose(path, content, language) == NAME_PURPOSES[i].1
  {
    NameTableHit(BaseName(path), i);
  }

  /** The fixed names are distinct, so each one finds its own entry. */
  lemma NameTableHit(filename: string, i: nat)
    requires i < |NAME_PURPOSES| && filename == NAME_PURPOSES[i].0
    ensures NamePurpose(filename) == Some(NAME_PURPOSES[i].1)
  {
    if i == 0 {
      assert Lookup(NAME_PURPOSES, filename) == Some(NAME_PURPOSES[0].1);
    } else if i == 1 {
      assert NAME_PURPOSES[0].0 != filename;
      assert Lookup(NAME_PURPOSES, filename) == Some(NAME_PURPOSES[1].1);
    } else {
      assert NAME_PURPOSES[0].0 != filename && NAME_PURPOSES[1].0 != filename;
      assert Lookup(NAME_PURPOSES, filename) == Some(NAME_PURPOSES[2].1);
    }
  }

  /** A Python file whose name is not fixed and whose first `"""` block is not blank is
      described by that block's first sentence, whatever comments or keywords it has. */
  lemma DocstringWinsOverComments(path: string, content: string, o: nat, c: nat)
    requires NamePurpose(BaseName(path)).None?
    requires FirstBlock(content, TRIPLE_QUOTE, TRIPLE_QUOTE, o, c) && c <= |content|
    requires Strip(content[o + 3..c]) != []
    ensures FilePurpose(path, content, "Python") == DocSummary(Strip(content[o + 3..c]))
  {
    DocstringOfBlock(content, o, c);
    PurposeFromDocstring(path, content, "Python");
  }

  /** The docstring purpose of a non-blank first block is its summary. */
  lemma DocstringOfBlock(content: string, o: nat, c: nat)
    requires FirstBlock(content, TRIPLE_QUOTE, TRIPLE_QUOTE, o, c) && c <= |content|
    requires Strip(content[o + 3..c]) != []
    ensures DocstringPurpose(content, "Python") == Some(DocSummary(Strip(content[o + 3..c])))
  {
  }

  /** Without a fixed name, a docstring purpose decides, before comments and keywords. */
  lemma PurposeFromDocstring(path: string, content: string, language: string)
    requires NamePurpose(BaseName(path)).None? && DocstringPurpose(content, language).Some?
    ensures FilePurpose(path, content, language) == DocstringPurpose(content, language).value
  {
  }

  /** Without a fixed name or a docstring purpose, the top comment run decides, before any
      keyword of the name. */
  lemma PurposeFallsToComments(path: string, content: string, language: string)
    requires NamePurpose(BaseName(path)).None? && DocstringPurpose(content, language).None?
    requires CommentPurpose(content, language).Some?
    ensures FilePurpose(path, content, language) == CommentPurpose(content, language).value
  {
  }

  /** Without a fixed name, a docstring purpose or a comment run, a keyword of the name
      decides. */
  lemma PurposeFallsToKeyword(path: string, content: string, language: string)
    requires NamePurpose(BaseName(path)).None? && DocstringPurpose(content, language).None?
    requires CommentPurpose(content, language).None? && KeywordPurpose(BaseName(path)).Some?
    ensures FilePurpose(path, content, language) == KeywordPurpose(BaseName(path)).value
  {
  }

  /** When no earlier rule applies, the language table decides: a listed language gets its
      purpose, any other language "<language> code file". */
  lemma PurposeFallsToLanguage(path: string, content: string, language: string)
    requires NamePurpose(BaseName(path)).None? && DocstringPurpose(content, language).None?
    requires CommentPurpose(content, language).None? && KeywordPurpose(BaseName(path)).None?
    ensures forall i :: 0 <= i < |LANGUAGE_PURPOSES| && LANGUAGE_PURPOSES[i].0 == language ==>
              FilePurpose(path, content, language) == LANGUAGE_PURPOSES[i].1
    ensures (forall i :: 0 <= i < |LANGUAGE_PURPOSES| ==> LANGUAGE_PURPOSES[i].0 != language) ==>
              FilePurpose(path, content, language) == language + " code file"
  {
    LanguageTable(language);
  }

  /** The language table's entries are distinct: a listed language gets its own purpose,
      an unlisted one "<language> code file". */
  lemma LanguageTable(language: string)
    ensures forall i :: 0 <= i < |LANGUAGE_PURPOSES| && LANGUAGE_PURPOSES[i].0 == language ==>
              LanguagePurpose(language) == LANGUAGE_PURPOSES[i].1
    ensures (forall i :: 0 <= i < |LANGUAGE_PURPOSES| ==> LANGUAGE_PURPOSES[i].0 != language) ==>
              LanguagePurpose(language) == language + " code file"
  {
    LookupSpec(LANGUAGE_PURPOSES, language);
  }

  lemma RscNamePurpose(filename: string)
    requires EndsWith(filename, ".rsc")
    ensures NamePurpose(filename) == Some(RSC_PURPOSE)
  {
    assert filename != "README.md" && filename != "requirements.txt" && filename != "setup.py";
  }

  /** Docstrings count only for Python: for another language the purpose is the same as for
      a file where the docstring rule never applies. */
  lemma DocstringOnlyForPython(content: string, language: string)
    requires language != "Python"
    ensures DocstringPurpose(content, language).None?
  {
  }

  /** The docstring rule keeps the text before the first `.` that ends a sentence of the
      first triple-quoted block, stripped and shortened. */
  lemma DocstringFirstSentence(content: string, o: nat, c: nat, k: nat)
    requires FirstBlock(content, TRIPLE_QUOTE, TRIPLE_QUOTE, o, c)
    requires c <= |content| && FirstSentenceEnd(Strip(content[o + 3..c]), k)
    ensures DocstringPurpose(content, "Python") == Some(Shorten(Strip(Strip(content[o + 3..c])[..k])))
  {
    var d := Strip(content[o + 3..c]);
    FirstSentenceAt(d, k);
    assert d != [];
    assert DocSummary(d) == Shorten(Strip(d[..k]));
  }

  /** A language the marker table does not list uses `#`. */
  lemma DefaultCommentMarker(language: string)
    requires forall i :: 0 <= i < |COMMENT_MARKERS| ==> COMMENT_MARKERS[i].0 != language
    ensures CommentMarker(language) == "#"
  {
  }

  /** Keywords are tried in order: a name mentioning "api" is an API module whatever else it
      mentions, and "config" comes next. */
  lemma KeywordPriority(filename: string)
    ensures Contains(Lower(filename), "api") ==>
              KeywordPurpose(filename) == Some("API interaction with MikroTik devices")
    ensures !Contains(Lower(filename), "api") && Contains(Lower(filename), "config") ==>
              KeywordPurpose(filename) == Some("Configuration management")
  {
    var lower := Lower(filename);
    if Contains(lower, "api") {
      assert Holds(KEYWORD_RULES[0].cues[0], lower);
    } else if Contains(lower, "config") {
      assert Holds(KEYWORD_RULES[1].cues[0], lower);
      assert !Fires(KEYWORD_RULES[0], lower);
      FirstFiringSpec(KEYWORD_RULES, lower);
    }
  }

  /** Lines after the first code line at the top never reach the comment purpose. */
  lemma CommentPurposeStopsAtCode(pre: seq<LineKind>, code: LineKind, post: seq<LineKind>)
    requires code.Code?
    ensures RunSummary(LeadingRun(pre + [code] + post)) == RunSummary(LeadingRun(pre))
  {
    LeadingRunStopsAtCode(pre, code, post);
  }

  // ---------------------------------------------------------------------------------------
  // Python
  // ---------------------------------------------------------------------------------------

  /** A private name: one leading underscore, but not a `__dunder__` name. */
  predicate IsPrivateName(name: string) {
    StartsWith(name, "_") && !StartsWith(name, "__")
  }

  function PyKeep(m: Match): bool {
    !IsPrivateName(m.name)
  }

  const IMPLEMENTATION_PREFIX := "Implementation: "

  /** "Implementation: " and the first fifty characters of a line; the ellipsis is added
      whatever the line's length. */
  function ImplementationNote(line: string): (r: string)
    ensures StartsWith(r, IMPLEMENTATION_PREFIX) && EndsWith(r, "...")
    ensures |r| <= |IMPLEMENTATION_PREFIX| + QUOTE_LIMIT + 3
    ensures |line| <= QUOTE_LIMIT ==> r == IMPLEMENTATION_PREFIX + line + "..."
    ensures |line| > QUOTE_LIMIT ==> r == IMPLEMENTATION_PREFIX + line[..QUOTE_LIMIT] + "..."
  {
    var r := IMPLEMENTATION_PREFIX + Take(line, QUOTE_LIMIT) + "...";
    assert r[..|IMPLEMENTATION_PREFIX|] == IMPLEMENTATION_PREFIX;
    assert r[|r| - 3..] == "...";
    r
  }

  const PARAMETERS_PREFIX := "Function with parameters: "

  /** The description of a Python definition: the first sentence of a docstring in its body
      (even an empty one), else a note on its first code line, else its parameter list. */
  function PyDescription(m: Match): (r: string)
    ensures |r| <= SUMMARY_LIMIT + 3 || r == PARAMETERS_PREFIX + m.params
    ensures var body := Strip(m.body);
            forall o: nat, c: nat ::
              FirstBlock(body, TRIPLE_QUOTE, TRIPLE_QUOTE, o, c) ==>
                c <= |body| && r == DocSummary(Strip(body[o + 3..c]))
  {
    var body := Strip(m.body);
    var doc := Delimited(body, TRIPLE_QUOTE, TRIPLE_QUOTE);
    assert forall o: nat, c: nat ::
        FirstBlock(body, TRIPLE_QUOTE, TRIPLE_QUOTE, o, c) ==>
          c <= |body| && doc == Some(body[o + 3..c]) by {
      forall o: nat, c: nat | FirstBlock(body, TRIPLE_QUOTE, TRIPLE_QUOTE, o, c)
        ensures c <= |body| && doc == Some(body[o + 3..c])
      {
        DelimitedFirst(body, TRIPLE_QUOTE, TRIPLE_QUOTE, o, c);
      }
    }
    if doc.Some? then DocSummary(Strip(doc.value))
    else
      var code := FirstCode(Kinds(Split(body, '\n'), "#"));
      if code.Some? then ImplementationNote(code.value) else PARAMETERS_PREFIX + m.params
  }

  /** Without a `"""` block, the description quotes the body's first line that is neither
      blank nor a `#` comment. */
  lemma PyDescriptionCodeLine(m: Match, i: nat)
    requires NoBlock(Strip(m.body), TRIPLE_QUOTE, TRIPLE_QUOTE)
    requires FirstCodeAt(Split(Strip(m.body), '\n'), "#", i)
    ensures PyDescription(m) == ImplementationNote(Strip(Split(Strip(m.body), '\n')[i]))
  {
    var body := Strip(m.body);
    DelimitedNone(body, TRIPLE_QUOTE, TRIPLE_QUOTE);
    FirstCodeLine(Split(body, '\n'), "#", i);
  }

  /** Without a `"""` block and without a code line, the description names the parameters. */
  lemma PyDescriptionParameters(m: Match)
    requires NoBlock(Strip(m.body), TRIPLE_QUOTE, TRIPLE_QUOTE)
    requires NoCodeIn(Split(Strip(m.body), '\n'), "#")
    ensures PyDescription(m) == PARAMETERS_PREFIX + m.params
  {
    var body := Strip(m.body);
    DelimitedNone(body, TRIPLE_QUOTE, TRIPLE_QUOTE);
    NoCodeLine(Split(body, '\n'), "#");
  }

  /** `extract_python_functions`. */
  function PythonFunctions(content: string): seq<FunctionRecord> {
    Records(FindAll(PyDef, content), PyKeep, PyDescription)
  }

  /** The description step of the Python extractor, with its scan for the first code line. */
  method DescribePythonFunction(m: Match) returns (description: string)
    ensures description == PyDescription(m)
  {
    var body := Strip(m.body);
    var doc := Delimited(body, TRIPLE_QUOTE, TRIPLE_QUOTE);
    if doc.Some? {
      description := DocSummary(Strip(doc.value));
    } else {
      var code := FindFirstCode(Kinds(Split(body, '\n'), "#"));
      if code.Some? {
        description := ImplementationNote(code.value);
      } else {
        description := PARAMETERS_PREFIX + m.params;
      }
    }
  }

  /** `extract_python_functions`: its `finditer` loop over the definitions found. */
  method ExtractPythonFunctions(content: string) returns (functions: seq<FunctionRecord>)
    ensures functions == PythonFunctions(content)
  {
    var ms := FindAll(PyDef, content);
    functions := CollectPythonRecords(ms);
  }

  /** The body of the Python `finditer` loop, run over the matches `ms`: private names are
      skipped, every other match is described and appended. */
  method CollectPythonRecords(ms: seq<Match>) returns (functions: seq<FunctionRecord>)
    ensures functions == Records(ms, PyKeep, PyDescription)
  {
    functions := [];
    var i := 0;
    while i < |ms|
      invariant 0 <= i <= |ms|
      invariant functions == Records(ms[..i], PyKeep, PyDescription)
    {
      var m := ms[i];
      if !IsPrivateName(m.name) {
        var description := DescribePythonFunction(m);
        RecordsStepKept(ms, i, PyKeep, PyDescription, description);
        functions := functions + [FunctionRecord(m.name, description)];
      } else {
        RecordsStepSkipped(ms, i, PyKeep, PyDescription);
      }
      i := i + 1;
    }
    assert ms[..|ms|] == ms;
  }

  /** Python records are exactly the public definitions: no reported name is private, and
      every definition the pattern finds with a public name (`__dunder__` names included) is
      reported with its description. */
  lemma PythonRecordsPublic(content: string)
    ensures forall r :: r in PythonFunctions(content) ==> !IsPrivateName(r.name)
    ensures forall i :: 0 <= i < |FindAll(PyDef, content)| && !IsPrivateName(FindAll(PyDef, content)[i].name) ==>
              FunctionRecord(FindAll(PyDef, content)[i].name, PyDescription(FindAll(PyDef, content)[i])) in PythonFunctions(content)
  {
    var ms := FindAll(PyDef, content);
    RecordsSound(ms, PyKeep, PyDescription);
    RecordsComplete(ms, PyKeep, PyDescription);
    forall r | r in PythonFunctions(content) ensures !IsPrivateName(r.name) {
      var i :| 0 <= i < |ms| && PyKeep(ms[i]) && r == RecordOf(ms[i], PyDescription);
    }
    forall i | 0 <= i < |ms| && !IsPrivateName(ms[i].name)
      ensures FunctionRecord(ms[i].name, PyDescription(ms[i])) in PythonFunctions(content)
    {
      assert PyKeep(ms[i]);
    }
  }

  // ---------------------------------------------------------------------------------------
  // JavaScript
  // ---------------------------------------------------------------------------------------

  function JsKeep(m: Match): bool {
    !StartsWith(m.name, "_")
  }

  /** The text of a `/** … */` block: each line stripped and cleared of leading `*`,
      joined by single spaces. */
  function BlockCommentText(comment: string): string {
    var lines := Split(Strip(comment), '\n');
    Join(" ", seq(|lines|, i requires 0 <= i < |lines| => LStripChar(Strip(lines[i]), '*')))
  }

  /** The description of a JavaScript definition found at `m.start`: the first `/** … */`
      block anywhere before it, else the `//` run just above it, else a note on the first
      non-blank line of its body, else "JavaScript function". */
  function JsDescription(content: string, m: Match): (r: string)
    ensures |r| <= SUMMARY_LIMIT + 3
    ensures var before := Strip(Take(content, m.start));
            forall o: nat, c: nat ::
              FirstBlock(before, "/**", "*/", o, c) ==>
                c <= |before| && r == Shorten(BlockCommentText(before[o + 3..c]))
  {
    var before := Strip(Take(content, m.start));
    var block := Delimited(before, "/**", "*/");
    assert forall o: nat, c: nat ::
        FirstBlock(before, "/**", "*/", o, c) ==>
          c <= |before| && block == Some(before[o + 3..c]) by {
      forall o: nat, c: nat | FirstBlock(before, "/**", "*/", o, c)
        ensures c <= |before| && block == Some(before[o + 3..c])
      {
        DelimitedFirst(before, "/**", "*/", o, c);
      }
    }
    if block.Some? then Shorten(BlockCommentText(block.value))
    else
      var run := RunSummary(TrailingRun(Kinds(Split(before, '\n'), "//")));
      if run.Some? then run.value
      else
        var first := FirstNonBlank(Split(m.body, '\n'));
        if first.Some? then ImplementationNote(first.value) else "JavaScript function"
  }

  /** A later `/** … */` block, even one right above the definition, does not replace the
      first block before it. */
  lemma JsDescriptionIgnoresNearerBlock(content: string, m: Match, o: nat, c: nat, p: nat)
    requires FirstBlock(Strip(Take(content, m.start)), "/**", "*/", o, c)
    requires c < p && HasAt(Strip(Take(content, m.start)), p, "/**")
    ensures JsDescription(content, m) == Shorten(BlockCommentText(Strip(Take(content, m.start))[o + 3..c]))
  {
  }

  /** Without a `/** … */` block, the `//` run just above the definition gives the
      description, when there is one. */
  lemma JsDescriptionCommentRun(content: string, m: Match)
    requires NoBlock(Strip(Take(content, m.start)), "/**", "*/")
    requires TrailingRun(Kinds(Split(Strip(Take(content, m.start)), '\n'), "//")) != []
    ensures JsDescription(content, m) ==
            Shorten(Join(" ", TrailingRun(Kinds(Split(Strip(Take(content, m.start)), '\n'), "//"))))
  {
    DelimitedNone(Strip(Take(content, m.start)), "/**", "*/");
  }

  /** Without any comment, the description quotes the body's first non-blank line. */
  lemma JsDescriptionBodyLine(content: string, m: Match, i: nat)
    requires NoBlock(Strip(Take(content, m.start)), "/**", "*/")
    requires TrailingRun(Kinds(Split(Strip(Take(content, m.start)), '\n'), "//")) == []
    requires var lines := Split(m.body, '\n');
             i < |lines| && Strip(lines[i]) != [] && forall j :: 0 <= j < i ==> Strip(lines[j]) == []
    ensures JsDescription(content, m) == ImplementationNote(Strip(Split(m.body, '\n')[i]))
  {
    DelimitedNone(Strip(Take(content, m.start)), "/**", "*/");
    var lines := Split(m.body, '\n');
    var first := FirstNonBlank(lines);
    assert !IsBlank(lines[i]);
    var k :| 0 <= k < |lines| && Strip(lines[k]) == first.value &&
             forall j :: 0 <= j < k ==> Strip(lines[j]) == [];
    assert k == i;
  }

  /** Without any comment and with a blank body, the description is the generic one. */
  lemma JsDescriptionDefault(content: string, m: Match)
    requires NoBlock(Strip(Take(content, m.start)), "/**", "*/")
    requires TrailingRun(Kinds(Split(Strip(Take(content, m.start)), '\n'), "//")) == []
    requires var lines := Split(m.body, '\n');
             forall j :: 0 <= j < |lines| ==> Strip(lines[j]) == []
    ensures JsDescription(content, m) == "JavaScript function"
  {
    DelimitedNone(Strip(Take(content, m.start)), "/**", "*/");
    assert FirstNonBlank(Split(m.body, '\n')).None?;
  }

  function JsDescriber(content: string): Match -> string {
    m => JsDescription(content, m)
  }

  /** The three JavaScript shapes, in the order they are run. */
  const JS_PATTERNS: seq<Pattern> := [JsFunction, JsArrow, JsMethod]

  /** The matches of each JavaScript pass. */
  function JsPasses(content: string): (passes: seq<seq<Match>>)
    ensures |passes| == |JS_PATTERNS|
    ensures forall k :: 0 <= k < |JS_PATTERNS| ==> passes[k] == FindAll(JS_PATTERNS[k], content)
  {
    [FindAll(JsFunction, content), FindAll(JsArrow, content), FindAll(JsMethod, content)]
  }

  /** `extract_javascript_functions`. */
  function JavaScriptFunctions(content: string): seq<FunctionRecord> {
    Passes(JsPasses(content), JsKeep, JsDescriber(content))
  }

  /** The description step of the JavaScript extractor, with its upward comment scan. */
  method DescribeJavaScriptFunction(content: string, m: Match) returns (description: string)
    ensures description == JsDescription(content, m)
  {
    var before := Strip(Take(content, m.start));
    var block := Delimited(before, "/**", "*/");
    if block.Some? {
      description := Shorten(BlockCommentText(block.value));
    } else {
      var comments := CollectTrailingComments(Kinds(Split(before, '\n'), "//"));
      if comments != [] {
        description := Shorten(Join(" ", comments));
      } else {
        var first := FirstNonBlank(Split(m.body, '\n'));
        if first.Some? {
          description := ImplementationNote(first.value);
        } else {
          description := "JavaScript function";
        }
      }
    }
  }

  /** `extract_javascript_functions`: the three patterns, one `finditer` loop after the
      other, all appending to the same list. */
  method ExtractJavaScriptFunctions(content: string) returns (functions: seq<FunctionRecord>)
    ensures functions == JavaScriptFunctions(content)
  {
    ghost var passes := JsPasses(content);
    functions := [];
    var p := 0;
    while p < |JS_PATTERNS|
      invariant 0 <= p <= |JS_PATTERNS|
      invariant functions == Passes(passes[..p], JsKeep, JsDescriber(content))
    {
      var ms := FindAll(JS_PATTERNS[p], content);
      var records := CollectJavaScriptRecords(content, ms);
      functions := functions + records;
      assert passes[..p + 1][..p] == passes[..p];
      p := p + 1;
    }
    assert passes[..|JS_PATTERNS|] == passes;
  }

  /** The body of one JavaScript `finditer` loop, run over the matches `ms`: names starting
      with `_` are skipped, every other match is described and appended. */
  method CollectJavaScriptRecords(content: string, ms: seq<Match>) returns (records: seq<FunctionRecord>)
    ensures records == Records(ms, JsKeep, JsDescriber(content))
  {
    ghost var describe := JsDescriber(content);
    records := [];
    var i := 0;
    while i < |ms|
      invariant 0 <= i <= |ms|
      invariant records == Records(ms[..i], JsKeep, describe)
    {
      var m := ms[i];
      if !StartsWith(m.name, "_") {
        var description := DescribeJavaScriptFunction(content, m);
        RecordsStepKept(ms, i, JsKeep, describe, description);
        records := records + [FunctionRecord(m.name, description)];
      } else {
        RecordsStepSkipped(ms, i, JsKeep, describe);
      }
      i := i + 1;
    }
    assert ms[..|ms|] == ms;
  }

  /** No reported JavaScript name starts with `_`. */
  lemma JavaScriptNamesPublic(content: string)
    ensures forall r :: r in JavaScriptFunctions(content) ==> !StartsWith(r.name, "_")
  {
    PassesKept(JsPasses(content), JsKeep, JsDescriber(content));
    forall r | r in JavaScriptFunctions(content) ensures !StartsWith(r.name, "_") {
      var m :| JsKeep(m) && r == RecordOf(m, JsDescriber(content));
    }
  }

  /** The passes are not merged: the records are those of the `function` pass, then those
      of the arrow pass, then those of the method pass. */
  lemma JavaScriptGroupedByPattern(content: string)
    ensures JavaScriptFunctions(content) ==
            Records(FindAll(JsFunction, content), JsKeep, JsDescriber(content)) +
            Records(FindAll(JsArrow, content), JsKeep, JsDescriber(content)) +
            Records(FindAll(JsMethod, content), JsKeep, JsDescriber(content))
  {
    var passes := JsPasses(content);
    assert passes == [passes[0], passes[1], passes[2]];
    PassesOfThree(passes[0], passes[1], passes[2], JsKeep, JsDescriber(content));
  }

  /** A `function NAME(…) {` declaration is seen by the method pattern too, at its name:
      that position lies inside a match of the method pass, so without deduplication the
      same declaration can be reported twice. */
  lemma FunctionDeclarationSeenByMethodPass(s: string, p: nat)
    requires JsFunctionAt(s, p).Some?
    ensures exists n: nat :: p < n && JsMethodAt(s, n).Some? &&
              JsMethodAt(s, n).value.name == JsFunctionAt(s, p).value.name &&
              Covered(FindAll(JsMethod, s), n)
  {
    var n := RunEnd(s, p + 8, Space);
    assert JsMethodAt(s, n).Some?;
    MatchAtJsMethod(s, n);
    FindAllCovers(JsMethod, s, n);
  }

  // ---------------------------------------------------------------------------------------
  // RouterOS Script
  // ---------------------------------------------------------------------------------------

  function KeepAll(m: Match): bool {
    true
  }

  /** The description of a labelled section or foreach loop: the `#` run just above it,
      else a note quoting the start of the matched text. */
  function SectionDescription(content: string, m: Match): (r: string)
    ensures |r| <= SUMMARY_LIMIT + 3
  {
    var run := RunSummary(TrailingRun(Kinds(Split(Strip(Take(content, m.start)), '\n'), "#")));
    if run.Some? then run.value else SECTION_PREFIX + Take(m.text, QUOTE_LIMIT) + "..."
  }

  const SECTION_PREFIX := "RouterOS script section: "

  /** A `#` run just above the section gives its description. */
  lemma SectionDescriptionRun(content: string, m: Match)
    requires TrailingRun(Kinds(Split(Strip(Take(content, m.start)), '\n'), "#")) != []
    ensures SectionDescription(content, m) ==
            Shorten(Join(" ", TrailingRun(Kinds(Split(Strip(Take(content, m.start)), '\n'), "#"))))
  {
  }

  /** Without a `#` run above it, a section is described by quoting the first fifty
      characters of its match. */
  lemma SectionDescriptionQuote(content: string, m: Match)
    requires TrailingRun(Kinds(Split(Strip(Take(content, m.start)), '\n'), "#")) == []
    ensures var r := SectionDescription(content, m);
            && StartsWith(r, SECTION_PREFIX) && EndsWith(r, "...")
            && |r| == |SECTION_PREFIX| + (if |m.text| < QUOTE_LIMIT then |m.text| else QUOTE_LIMIT) + 3
            && StartsWith(m.text, r[|SECTION_PREFIX|..|r| - 3])
  {
    assert SectionDescription(content, m) == SECTION_PREFIX + Take(m.text, QUOTE_LIMIT) + "...";
    QuoteNote(m.text);
  }

  /** The quoting note is the prefix, a prefix of the text of at most fifty characters,
      and "...". */
  lemma QuoteNote(text: string)
    ensures var r := SECTION_PREFIX + Take(text, QUOTE_LIMIT) + "...";
            && StartsWith(r, SECTION_PREFIX) && EndsWith(r, "...")
            && |r| == |SECTION_PREFIX| + (if |text| < QUOTE_LIMIT then |text| else QUOTE_LIMIT) + 3
            && StartsWith(text, r[|SECTION_PREFIX|..|r| - 3])
  {
    var quote := Take(text, QUOTE_LIMIT);
    var r := SECTION_PREFIX + quote + "...";
    assert r[..|SECTION_PREFIX|] == SECTION_PREFIX;
    assert r[|r| - 3..] == "...";
    assert r[|SECTION_PREFIX|..|r| - 3] == quote;
  }

  function SectionDescriber(content: string): Match -> string {
    m => SectionDescription(content, m)
  }

  /** The two section shapes, in the order they are run. */
  const SECTION_PATTERNS: seq<Pattern> := [RosLabel, RosForeach]

  function SectionPasses(content: string): seq<seq<Match>> {
    [FindAll(RosLabel, content), FindAll(RosForeach, content)]
  }

  /** The record of the `n`-th `do={…}` block. */
  function BlockRecord(m: Match, n: nat): FunctionRecord {
    FunctionRecord("Script Section " + NatToString(n),
                   "RouterOS script block: " + Take(m.body, QUOTE_LIMIT) + "...")
  }

  /** The records of the `do={…}` blocks, numbered from 1 in the order they are found. */
  function BlockRecords(ms: seq<Match>): (rs: seq<FunctionRecord>)
    ensures |rs| == |ms|
    ensures forall i :: 0 <= i < |ms| ==> rs[i] == BlockRecord(ms[i], i + 1)
  {
    if ms == [] then []
    else BlockRecords(ms[..|ms| - 1]) + [BlockRecord(ms[|ms| - 1], |ms|)]
  }

  /** `extract_routeros_functions`. */
  function RouterOsFunctions(content: string): seq<FunctionRecord> {
    Passes(SectionPasses(content), KeepAll, SectionDescriber(content)) + BlockRecords(FindAll(RosDo, content))
  }

  /** `extract_routeros_functions`: the label and foreach loops, then the `do={…}` loop
      with its section counter. */
  method ExtractRouterOsFunctions(content: string) returns (functions: seq<FunctionRecord>)
    ensures functions == RouterOsFunctions(content)
  {
    ghost var passes := SectionPasses(content);
    functions := [];
    var p := 0;
    while p < |SECTION_PATTERNS|
      invariant 0 <= p <= |SECTION_PATTERNS|
      invariant functions == Passes(passes[..p], KeepAll, SectionDescriber(content))
    {
      var ms := FindAll(SECTION_PATTERNS[p], content);
      assert ms == passes[p] by {
        assert SECTION_PATTERNS[p] == if p == 0 then RosLabel else RosForeach;
      }
      var records := CollectSectionRecords(content, ms);
      functions := functions + records;
      assert passes[..p + 1][..p] == passes[..p];
      p := p + 1;
    }
    assert passes[..|SECTION_PATTERNS|] == passes;
    var blocks := FindAll(RosDo, content);
    var records := CollectBlockRecords(blocks);
    functions := functions + records;
  }

  /** The description step of the section loops, with its upward `#` scan. */
  method DescribeSection(content: string, m: Match) returns (description: string)
    ensures description == SectionDescription(content, m)
  {
    var comments := CollectTrailingComments(Kinds(Split(Strip(Take(content, m.start)), '\n'), "#"));
    if comments != [] {
      description := Shorten(Join(" ", comments));
    } else {
      description := "RouterOS script section: " + Take(m.text, QUOTE_LIMIT) + "...";
    }
  }

  /** The body of one section `finditer` loop: every match is described and appended. */
  method CollectSectionRecords(content: string, ms: seq<Match>) returns (records: seq<FunctionRecord>)
    ensures records == Records(ms, KeepAll, SectionDescriber(content))
  {
    ghost var describe := SectionDescriber(content);
    records := [];
    var i := 0;
    while i < |ms|
      invariant 0 <= i <= |ms|
      invariant records == Records(ms[..i], KeepAll, describe)
    {
      var m := ms[i];
      var description := DescribeSection(content, m);
      RecordsStepKept(ms, i, KeepAll, describe, description);
      records := records + [FunctionRecord(m.name, description)];
      i := i + 1;
    }
    assert ms[..|ms|] == ms;
  }

  /** The `do={…}` loop: each block is named by the counter, which starts at 1 and goes up
      by one per block. */
  method CollectBlockRecords(blocks: seq<Match>) returns (records: seq<FunctionRecord>)
    ensures records == BlockRecords(blocks)
  {
    records := [];
    var sectionCount := 1;
    var i := 0;
    while i < |blocks|
      invariant 0 <= i <= |blocks| && sectionCount == i + 1
      invariant records == BlockRecords(blocks[..i])
    {
      var m := blocks[i];
      assert blocks[..i + 1][..i] == blocks[..i];
      var name := "Script Section " + NatToString(sectionCount);
      sectionCount := sectionCount + 1;
      var description := "RouterOS script block: " + Take(m.body, QUOTE_LIMIT) + "...";
      records := records + [FunctionRecord(name, description)];
      i := i + 1;
    }
    assert blocks[..|blocks|] == blocks;
  }

  /** The layout of the RouterOS records: one per label, then one per foreach loop, then
      "Script Section 1", "Script Section 2", … for the `do={…}` blocks in the order they
      are found. */
  lemma RouterOsLayout(content: string)
    ensures var labels, loops, blocks := FindAll(RosLabel, content), FindAll(RosForeach, content), FindAll(RosDo, content);
            var fs := RouterOsFunctions(content);
            && |fs| == |labels| + |loops| + |blocks|
            && (forall i :: 0 <= i < |labels| ==> fs[i].name == labels[i].name)
            && (forall i :: 0 <= i < |loops| ==> fs[|labels| + i].name == loops[i].name)
            && fs[|labels| + |loops|..] == BlockRecords(blocks)
  {
    var passes, blocks, describe := SectionPasses(content), FindAll(RosDo, content), SectionDescriber(content);
    assert RouterOsFunctions(content) == Passes(passes, KeepAll, describe) + BlockRecords(blocks);
    SectionLayout(passes, blocks, describe);
  }

  lemma SectionLayout(passes: seq<seq<Match>>, blocks: seq<Match>, describe: Match -> string)
    requires |passes| == 2
    ensures var fs := Passes(passes, KeepAll, describe) + BlockRecords(blocks);
            && |fs| == |passes[0]| + |passes[1]| + |blocks|
            && (forall i :: 0 <= i < |passes[0]| ==> fs[i].name == passes[0][i].name)
            && (forall i :: 0 <= i < |passes[1]| ==> fs[|passes[0]| + i].name == passes[1][i].name)
            && fs[|passes[0]| + |passes[1]|..] == BlockRecords(blocks)
  {
    assert passes == [passes[0], passes[1]];
    PassesAllKept(passes[0], passes[1], KeepAll, describe);
  }

  /** Different counter values give different section names. */
  lemma SectionNamesDistinct(i: nat, j: nat)
    requires i != j
    ensures "Script Section " + NatToString(i) != "Script Section " + NatToString(j)
  {
    var prefix := "Script Section ";
    var a, b := NatToString(i), NatToString(j);
    if prefix + a == prefix + b {
      assert (prefix + a)[|prefix|..] == a && (prefix + b)[|prefix|..] == b;
      NatToStringRoundTrip(i);
      NatToStringRoundTrip(j);
    }
  }

  /** No two blocks get the same section name. */
  lemma BlockNamesDistinct(ms: seq<Match>)
    ensures forall i, j :: 0 <= i < j < |ms| ==> BlockRecords(ms)[i].name != BlockRecords(ms)[j].name
  {
    forall i, j | 0 <= i < j < |ms| ensures BlockRecords(ms)[i].name != BlockRecords(ms)[j].name {
      SectionNamesDistinct(i + 1, j + 1);
    }
  }

  /** The `do={…}` block of a foreach loop is seen again by the block pass: its position
      lies inside a block match, and the block match there has the loop's block as its body. */
  lemma ForeachBlockSeenAgain(s: string, p: nat)
    requires RosForeachAt(s, p).Some?
    ensures exists q: nat :: RosDoAt(s, q).Some? && RosDoAt(s, q).value.body == RosForeachAt(s, p).value.body &&
              Covered(FindAll(RosDo, s), q)
  {
    var loop := RosForeachAt(s, p).value;
    var q: nat :| p < q < loop.end && RosDoAt(s, q) == Some(Match(q, loop.end, s[q..loop.end], loop.body, [], loop.body));
    MatchAtRosDo(s, q);
    FindAllCovers(RosDo, s, q);
  }

  // ---------------------------------------------------------------------------------------
  // The whole file
  // ---------------------------------------------------------------------------------------

  /** The languages whose functions are extracted. */
  predicate HasExtractor(language: string) {
    language == "Python" || language == "JavaScript" || language == "RouterOS Script"
  }

  function FunctionsFor(language: string, content: string): (fs: seq<FunctionRecord>)
    ensures fs != [] ==> HasExtractor(language)
  {
    if language == "Python" then PythonFunctions(content)
    else if language == "JavaScript" then JavaScriptFunctions(content)
    else if language == "RouterOS Script" then RouterOsFunctions(content)
    else []
  }

  /** `analyze_file_content(path)` on a path the file system describes by `stat`. */
  function FileAnalysisOf(path: string, stat: FileStat): (r: FileAnalysis)
    // not a regular file, larger than 1 MiB, or unreadable: the default answer
    ensures !(stat.RegularFile? && stat.size <= MIB && stat.content.Some?) ==>
              r == FileAnalysis(UNKNOWN_PURPOSE, [])
    // records only for the three languages that have an extractor
    ensures r.functions != [] ==> HasExtractor(DetectLanguageAt(path, stat))
  {
    if stat.RegularFile? && stat.size <= MIB && stat.content.Some? then
      var language := DetectLanguageAt(path, stat);
      var content := stat.content.value;
      FileAnalysis(FilePurpose(path, content, language), FunctionsFor(language, content))
    else FileAnalysis(UNKNOWN_PURPOSE, [])
  }

  /** `analyze_file_content` as the source runs it. */
  method AnalyzeFileContent(path: string, stat: FileStat) returns (result: FileAnalysis)
    ensures result == FileAnalysisOf(path, stat)
  {
    var language := DetectLanguageAt(path, stat);
    result := FileAnalysis(UNKNOWN_PURPOSE, []);
    if !stat.RegularFile? || stat.size > MIB {
      return;
    }
    if stat.content.None? {
      return;
    }
    var content := stat.content.value;
    var purpose := DetermineFilePurpose(path, content, language);
    result := result.(purpose := purpose);
    if language == "Python" {
      var functions := ExtractPythonFunctions(content);
      result := result.(functions := functions);
    } else if language == "JavaScript" {
      var functions := ExtractJavaScriptFunctions(content);
      result := result.(functions := functions);
    } else if language == "RouterOS Script" {
      var functions := ExtractRouterOsFunctions(content);
      result := result.(functions := functions);
    }
  }

  /** A file of exactly 1 MiB is analysed, but its language is not sniffed from its content:
      the two size limits differ by one byte. */
  lemma OneMebibyteBoundary(path: string, content: string)
    ensures Sample(RegularFile(MIB, Some(content))).None?
    ensures FileAnalysisOf(path, RegularFile(MIB, Some(content))).purpose ==
            FilePurpose(path, content, DetectLanguage(path, None))
  {
  }
}
