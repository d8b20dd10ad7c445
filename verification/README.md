# MikroTik repository analyzer — a Dafny model of its analysis core

The analyzer clones a GitHub repository and writes a report about it. The report has:

- the repository name;
- file and byte totals;
- an ASCII tree of the directories;
- a histogram of languages;
- the ten "key files", each with its purpose and the functions found in it;
- the "key components": groups of files found by glob patterns;
- the Python dependencies;
- a fixed implementation roadmap.

Three pieces of the repository hold that logic, and this project models all three:

- **`detect_language`** labels a file. It looks at the file's extension first, then at its first kilobyte, then falls back to the extension itself.
- **The file analyzer** works out a file's purpose from an ordered set of rules. It also lists the functions defined in Python, JavaScript and RouterOS script files, using regular expressions and `re.finditer`.
- **The `RepoAnalyzer` class** holds the report-building methods.

The model keeps the source's own form.

- The classifier, the purpose rules and the extractors are pure computations, so they are functions. Each has lemmas about what it returns.
- The parts that loop become methods proved against those functions. These are the comment scans, the `finditer` loops and `analyze_file_content`.
- `RepoAnalyzer` becomes a Dafny class. Its fields are fixed at construction. Each of its methods walks a model of the cloned tree step by step. Each method is proved to build exactly the value that a specification function defines, and further lemmas prove what the source promises about that value.

The file system is a value. A directory listing is a `seq<Entry>`, and an entry is either a file (with its name, size and decoded text, where the text is `None` when the file cannot be opened) or a directory (with its children). On top of that value the model defines:

- `os.walk` with `.git` pruned (`RepoTree.Walk`);
- `sorted(os.listdir(...))` (`RepoTree.Arrange`);
- `glob.glob(..., recursive=True)` for patterns whose only wildcards are `*` and `**` (`Globbing.Glob`).

Python's regular expressions become hand-written scanners (module `Patterns`). Each scanner returns the match the engine would find at a position. `re.finditer` is a generic left-to-right scan over any such matcher, and the model proves it complete: every position where the pattern matches lies inside a reported match.

Modules:

- `Wrappers`: `Option`.
- `Strings`: the `str` methods the source calls: `strip`, `split`, `join`, `lower`, `upper`, `replace`, `startswith`, `in`, `str(int)`, string `<`.
- `Rules`: first-match rule lists and dictionary lookups, as the source's `if/elif` chains and dict literals.
- `Ordering`: `sorted(..., reverse=True)` (stable), `[:n]`, the set used to remove repeats, `sum`, append-if-some loops.
- `Tallies`: the `defaultdict(int)` counter.
- `Patterns`: the extractor regular expressions and `re.finditer`.
- `Summaries`: the docstring and comment summaries shared by the purpose rules and the extractors.
- `Extraction`: the record-building loop shared by the three extractors.
- `LanguageDetector`: `utils/language_detector.py`.
- `FileAnalyzer`: `utils/file_analyzer.py`.
- `RepoTree`: the tree value, `os.walk`, the sorted listing, the ASCII tree.
- `Globbing`: `glob.glob`.
- `RepoReport`: the specification functions of `_calculate_stats`, `_detect_languages`, `_analyze_key_files`, `_identify_key_components`, `_generate_component_description`, `_generate_implementation_roadmap` and the repository name.
- `Dependencies`: `_analyze_dependencies` and `_get_dependency_purpose`.
- `RepoAnalysis`: the class `RepoAnalyzer`.

Some of the code's behaviour is easy to misread from its names and comments. The model follows the code:

- **Dependency type:** every dependency has type "Python Package".
- **Manifest repeats:** a package named twice in `requirements.txt` is listed twice.
- **`README.md`:** its purpose is always the fixed documentation sentence, whatever the file contains.
- **Docstring rule:** it applies to Python files only.
- **Top-of-file comment run:** the run skips blank lines.
- **JavaScript description:** it uses the first `/** … */` block anywhere before the definition, not the block nearest to it.
- **`do={…}` blocks:** the block pass scans the whole script. So the `do={…}` tail of a `foreach` loop that is already reported as a section also lies inside a block-pass match, and can be reported a second time as a numbered "Script Section". The block pattern is lazy and ends at the first `}`, so a block nested inside another one is not matched on its own.

## Model

| member | source | states |
|---|---|---|
| `LanguageDetector.LastIndexOf` | utils/language_detector.py:13 | the index found holds the character and none follows it; `None` exactly when the character is absent |
| `LanguageDetector.Extension` | utils/language_detector.py:13 | `os.path.splitext`'s extension is empty or starts with a dot |
| `LanguageDetector.ExtensionShape` | utils/language_detector.py:13 | a non-empty extension is a suffix of the path without `/` and without a second dot |
| `LanguageDetector.ExtensionsShape` | utils/language_detector.py:17-35 | every extension in the table has at least two characters after its dot, and every label is non-empty |
| `LanguageDetector.KnownExtension` | utils/language_detector.py:17-38 | a label from the table is non-empty and comes from an extension of length at least 3 |
| `LanguageDetector.Sniff` | utils/language_detector.py:46-56 | a label sniffed from the content is non-empty |
| `LanguageDetector.Sample` | utils/language_detector.py:41-44 | there is a sample exactly for a regular file under 1 MiB that can be opened; the sample is a prefix of the content and at most 1024 characters long |
| `LanguageDetector.DetectLanguage` | utils/language_detector.py:11-69 | a known extension decides, whatever the content; otherwise the first signature the sample shows; otherwise the upper-cased extension without its dot, or "Unknown"; the label is empty exactly for a bare trailing "." that no signature explains |
| `LanguageDetector.ExtensionCaseIgnored` | utils/language_detector.py:14 | two paths whose extensions agree once lower-cased get the same label |
| `LanguageDetector.ImportMeansPython` | utils/language_detector.py:47-48 | a sample containing "import " is Python even when it also has RouterOS markers |
| `Rules.FirstFiringSpec` | utils/file_analyzer.py:116-129 | an `if/elif` chain answers nothing exactly when no rule fires, and otherwise the outcome of the earliest rule that fires |
| `Rules.FirstFiringFromRules` | utils/file_analyzer.py:116-129 | every answer is one of the rules' outcomes |
| `Rules.LookupSpec` | utils/file_analyzer.py:142 | `dict.get` finds nothing exactly when the key is absent, and otherwise the entry for the key |
| `Rules.LookupFromTable` | utils/repo_analyzer.py:433 | every value found is an entry of the table |
| `Strings.IsSpaceIff` | utils/file_analyzer.py:97 | the characters `str.strip` removes, listed one by one |
| `Strings.LStrip` | utils/file_analyzer.py:97 | the result is a suffix of the input; what was dropped is whitespace; the result does not start with whitespace |
| `Strings.RStrip` | utils/file_analyzer.py:97 | the result is a prefix of the input; what was dropped is whitespace; the result does not end with whitespace |
| `Strings.Strip` | utils/file_analyzer.py:97 | the result neither starts nor ends with whitespace, and it is empty exactly when the input is all whitespace |
| `Strings.StripPlain` | utils/file_analyzer.py:97 | text that neither starts nor ends with whitespace is its own strip |
| `Strings.StripIndented` | utils/file_analyzer.py:97 | stripping indented text gives the text |
| `Strings.StripKeepsLeading` | utils/repo_analyzer.py:383 | stripping keeps a first character that is not whitespace |
| `Strings.LStripChar` | utils/file_analyzer.py:236 | `lstrip('*')` drops a prefix and leaves text that does not start with `*` |
| `Strings.Take` | utils/file_analyzer.py:81 | `s[:n]` is a prefix of length `min(n, len(s))` |
| `Strings.IndexFrom` | utils/file_analyzer.py:75 | the index found is the first occurrence at or after the start; `None` when there is none |
| `Strings.BeforeFirst` | utils/repo_analyzer.py:353 | `split(sep)[0]` is the longest prefix without the separator, ending at the separator or at the end of the text |
| `Strings.BeforeFirstKeepsLeading` | utils/repo_analyzer.py:383 | a text that does not start with the separator keeps its first character |
| `Strings.BeforeFirstAtStart` | utils/repo_analyzer.py:384 | nothing comes before a separator at the start |
| `Strings.AfterLast` | utils/repo_analyzer.py:22 | `split(c)[-1]` is the suffix after the last `c` and holds no `c` |
| `Strings.Split` | utils/repo_analyzer.py:375 | `split(c)` has at least one part, and no part contains `c` |
| `Strings.SplitJoin` | utils/repo_analyzer.py:160 | joining the parts of a split with the same character gives the original text back |
| `Strings.Lower` | utils/language_detector.py:14 | `lower()` maps each character |
| `Strings.Upper` | utils/language_detector.py:65 | `upper()` maps each character |
| `Strings.UpperFollowsLower` | utils/language_detector.py:14-65 | two texts equal once lower-cased are equal once upper-cased |
| `Strings.LowerDrop` | utils/language_detector.py:65 | lower-casing commutes with dropping a prefix |
| `Strings.ReplaceChar` | utils/repo_analyzer.py:433 | `replace('_', ' ')` replaces each underscore and keeps every other character |
| `Strings.RemoveAll` | utils/repo_analyzer.py:22 | `replace(".git", "")` does not lengthen the text or add characters |
| `Strings.NatToString` | utils/repo_analyzer.py:110 | `str(n)` is a string of decimal digits without a leading zero |
| `Strings.NatToStringRoundTrip` | utils/repo_analyzer.py:110 | reading the digits back gives `n` |
| `Strings.StrLessIrreflexive` | utils/repo_analyzer.py:134 | the string order used by `sorted` is irreflexive |
| `Strings.StrLessTotal` | utils/repo_analyzer.py:134 | the string order is total |
| `Strings.StrLessTransitive` | utils/repo_analyzer.py:134 | the string order is transitive |
| `Ordering.InsertDesc` | utils/repo_analyzer.py:189 | inserting adds exactly one element |
| `Ordering.SortDesc` | utils/repo_analyzer.py:189 | `sorted(..., reverse=True)` is a permutation of its input |
| `Ordering.InsertDescSorted` | utils/repo_analyzer.py:189 | inserting into a descending list keeps it descending |
| `Ordering.SortDescSorted` | utils/repo_analyzer.py:189 | the sorted list is in descending key order |
| `Ordering.InsertDescStable` | utils/repo_analyzer.py:263 | inserting keeps the order of each key's elements and puts the new element last among its key |
| `Ordering.SortDescStable` | utils/repo_analyzer.py:263 | the sort is stable: the elements sharing a key keep their relative order |
| `Ordering.TopN` | utils/repo_analyzer.py:263 | `[:n]` keeps the first `min(n, len)` elements |
| `Ordering.Dedup` | utils/repo_analyzer.py:302 | removing repeats keeps every element once and nothing else |
| `Ordering.SortDescSum` | utils/repo_analyzer.py:189 | sorting does not change a sum over the elements |
| `Ordering.FilterMapSpec` | utils/repo_analyzer.py:254-260 | an append-if-kept loop keeps every value it is given and nothing else |
| `Ordering.FilterMapOrder` | utils/repo_analyzer.py:254-260 | the values kept are in the order of their elements |
| `Ordering.PermutationDistinct` | utils/repo_analyzer.py:189 | a rearrangement of a list without repeats has no repeats |
| `Tallies.Find` | utils/repo_analyzer.py:184 | the counter's entry for a name, or `None` when the name has not been counted |
| `Tallies.CountAllSpec` | utils/repo_analyzer.py:171-185 | the counter lists each name once, in order of first occurrence, with its number of occurrences; the counts add up to the number of names counted |
| `Tallies.BumpSeen` | utils/repo_analyzer.py:184 | `counts[name] += 1` on a name seen before keeps the counter exact |
| `Tallies.BumpNew` | utils/repo_analyzer.py:184 | `counts[name] += 1` on a new name keeps the counter exact |
| `Patterns.RunEnd` | utils/file_analyzer.py:156 | a greedy character-class run ends at the first character outside the class |
| `Patterns.FirstCloser` | utils/file_analyzer.py:156 | a lazy `(.*?)` parameter group stops at the first closer |
| `Patterns.BodyEnd` | utils/file_analyzer.py:156 | a lazy body stops at the first position where its look-ahead holds |
| `Patterns.Definition` | utils/file_analyzer.py:156 | a definition match starts at its position, and its name is made of the name class |
| `Patterns.PyDefAt` | utils/file_analyzer.py:156 | the Python definition pattern's match starts at the position, ends later, spans exactly its text and has a non-empty name |
| `Patterns.JsFunctionAt` | utils/file_analyzer.py:208 | the same for the `function` pattern |
| `Patterns.JsArrowAt` | utils/file_analyzer.py:211 | the same for the arrow-function pattern |
| `Patterns.JsMethodAt` | utils/file_analyzer.py:214 | the same for the method pattern |
| `Patterns.RosLabelAt` | utils/file_analyzer.py:282 | the same for `:label=` |
| `Patterns.RosForeachAt` | utils/file_analyzer.py:285 | the same for `foreach`; its `do={…}` tail is itself a block match ending where the loop ends |
| `Patterns.RosDoAt` | utils/file_analyzer.py:319 | the same for `do={…}` |
| `Patterns.Scan` | utils/file_analyzer.py:158 | `finditer` reports matches the matcher finds, in order and without overlap |
| `Patterns.ScanComplete` | utils/file_analyzer.py:158 | every position where the matcher matches lies inside a reported match |
| `Patterns.FindFromIsScan` | utils/file_analyzer.py:218 | each pattern's `finditer` is the generic scan over its matcher |
| `Patterns.FindAllSpec` | utils/file_analyzer.py:289 | the reported matches are the engine's matches, each the text it spans, without overlap, and cover every match position |
| `Patterns.FindAllCovers` | utils/file_analyzer.py:323 | a match the engine finds at a position lies inside a reported match |
| `Summaries.Shorten` | utils/file_analyzer.py:81 | text of at most 100 characters is kept; longer text is cut to 100 characters and gets "..." |
| `Summaries.ShortenIdempotent` | utils/file_analyzer.py:113 | shortening a summary again changes nothing |
| `Summaries.Delimited` | utils/file_analyzer.py:75 | `re.search('"""(.*?)"""')` finds the text after the first opener of the string up to the first closer that follows it; `None` only when no closer follows any opener |
| `Summaries.DelimitedFirst` | utils/file_analyzer.py:75 | when the first opener is at `o` and the first closer after it at `c`, the block is exactly the text between them, whatever later openers and closers there are |
| `Summaries.DelimitedNone` | utils/file_analyzer.py:168-176 | when no opener is followed by a closer, there is no block |
| `Summaries.FirstSentenceAt` | utils/file_analyzer.py:80 | the first sentence is the text before the first `.` that is followed by whitespace or the end |
| `Summaries.FirstSentence` | utils/file_analyzer.py:80 | `re.split(r'\.(?:\s\|$)')[0]` is the prefix before the first sentence end |
| `Summaries.DocSummary` | utils/file_analyzer.py:77-81 | a docstring summary is at most 103 characters long |
| `Summaries.FirstLines` | utils/file_analyzer.py:71 | `[:20]` of the lines |
| `Summaries.Kinds` | utils/file_analyzer.py:96-108 | each line is classified on its own |
| `Summaries.LeadingRun` | utils/file_analyzer.py:95-108 | the top-of-file comment run holds only non-empty texts |
| `Summaries.LeadingRunStopsAtCode` | utils/file_analyzer.py:106-108 | nothing after the first code line reaches the run |
| `Summaries.LeadingRunSkips` | utils/file_analyzer.py:101-105 | blank lines and empty comments leave the run unchanged |
| `Summaries.CollectLeadingComments` | utils/file_analyzer.py:95-108 | the loop collects exactly the top-of-file run |
| `Summaries.TrailingRunStopsAtCode` | utils/file_analyzer.py:243-248 | nothing before the last code line reaches the comment run above a definition |
| `Summaries.TrailingRunComments` | utils/file_analyzer.py:243-248 | with no code line in between, the run holds exactly the comment texts, in order |
| `Summaries.CollectTrailingComments` | utils/file_analyzer.py:240-248 | the reversed loop that inserts at the front collects exactly the run above a definition |
| `Summaries.FirstCode` | utils/file_analyzer.py:178-182 | the first line that is neither blank nor a comment, and `None` exactly when there is none |
| `Summaries.FindFirstCode` | utils/file_analyzer.py:178-182 | the loop that stops at the first code line finds it |
| `Summaries.ClassifyCode` | utils/file_analyzer.py:179-180 | a line counts as code exactly when, stripped, it is non-empty and does not start with the comment marker; its code is the stripped line |
| `Summaries.FirstCodeLine` | utils/file_analyzer.py:178-182 | the first line that is neither blank nor a comment is the first code line the scan finds |
| `Summaries.NoCodeLine` | utils/file_analyzer.py:178-184 | when every line is blank or a comment, the scan finds no code line |
| `Summaries.FirstNonBlank` | utils/file_analyzer.py:255-257 | `body_lines[0]`: the line found is non-blank and every line before it is blank, and it is given stripped; `None` exactly when every line is blank |
| `Summaries.FirstNonEmpty` | utils/file_analyzer.py:255-257 | the index found holds a non-empty text and every text before it is empty; `None` exactly when all are empty |
| `Extraction.Records` | utils/file_analyzer.py:158-190 | a loop that skips some matches produces at most one record per match |
| `Extraction.RecordsAppend` | utils/file_analyzer.py:217-218 | the records of consecutive stretches of matches follow each other |
| `Extraction.RecordsSound` | utils/file_analyzer.py:163-165 | every record comes from a kept match |
| `Extraction.RecordsComplete` | utils/file_analyzer.py:187-190 | every kept match yields its record |
| `Extraction.RecordsAll` | utils/file_analyzer.py:288-316 | when every match is kept, there is one record per match, in match order |
| `Extraction.PassesKept` | utils/file_analyzer.py:217-264 | every record of several passes comes from a kept match |
| `Extraction.PassesOfThree` | utils/file_analyzer.py:217-218 | three passes give the first pass's records, then the second's, then the third's |
| `Extraction.PassesAllKept` | utils/file_analyzer.py:288-316 | two passes that keep everything give one record per match, named after it, first pass first |
| `FileAnalyzer.DocstringPurpose` | utils/file_analyzer.py:73-81 | the docstring rule answers only for Python, with at most 103 characters; for Python it summarises the block between the file's first `"""` and the next `"""`, and answers nothing when that block is blank or when no `"""` is followed by another |
| `FileAnalyzer.HeaderKinds` | utils/file_analyzer.py:71 | the comment scan reads at most 20 lines |
| `FileAnalyzer.RunSummary` | utils/file_analyzer.py:110-113 | a comment run gives a summary exactly when it is non-empty, of at most 103 characters |
| `FileAnalyzer.DetermineFilePurpose` | utils/file_analyzer.py:47-142 | the method, with its comment loop, returns the purpose the rule chain defines |
| `FileAnalyzer.ReadmePurposeFixed` | utils/file_analyzer.py:61-62 | `README.md` always gets the documentation sentence |
| `FileAnalyzer.RscPurposeFixed` | utils/file_analyzer.py:67-68 | every `.rsc` file gets the RouterOS sentence before any docstring or comment is read |
| `FileAnalyzer.FixedNamePurpose` | utils/file_analyzer.py:61-66 | `README.md`, `requirements.txt` and `setup.py` each get their own fixed sentence, whatever the file holds |
| `FileAnalyzer.NameTableHit` | utils/file_analyzer.py:61-66 | each fixed name finds its own sentence in the name rule |
| `FileAnalyzer.DocstringWinsOverComments` | utils/file_analyzer.py:73-81 | for a Python file without a fixed name, a non-blank first `"""` block decides the purpose, whatever its comments and name |
| `FileAnalyzer.DocstringOfBlock` | utils/file_analyzer.py:75-81 | the docstring rule answers the summary of a non-blank first block |
| `FileAnalyzer.PurposeFromDocstring` | utils/file_analyzer.py:73-81 | without a fixed name, a docstring purpose decides, before comments and keywords |
| `FileAnalyzer.PurposeFallsToComments` | utils/file_analyzer.py:83-113 | without a fixed name or a docstring purpose, the top comment run decides, before any keyword of the name |
| `FileAnalyzer.PurposeFallsToKeyword` | utils/file_analyzer.py:115-129 | without a fixed name, a docstring purpose or a comment run, a keyword of the name decides |
| `FileAnalyzer.PurposeFallsToLanguage` | utils/file_analyzer.py:131-142 | when no earlier rule applies, a listed language gets its table sentence and any other language "<language> code file" |
| `FileAnalyzer.LanguageTable` | utils/file_analyzer.py:132-142 | the language rule gives a listed language its own sentence and any other "<language> code file" |
| `FileAnalyzer.RscNamePurpose` | utils/file_analyzer.py:67-68 | the name rule answers the RouterOS sentence for `.rsc` names |
| `FileAnalyzer.DocstringOnlyForPython` | utils/file_analyzer.py:74 | the docstring rule does not apply to other languages |
| `FileAnalyzer.DocstringFirstSentence` | utils/file_analyzer.py:73-81 | for any Python file whose first `"""` block has its first sentence end at `k` once stripped, the purpose is that block's text before `k`, stripped and cut to 100 characters plus "..." |
| `FileAnalyzer.DefaultCommentMarker` | utils/file_analyzer.py:84-92 | a language missing from the marker table uses `#` |
| `FileAnalyzer.KeywordPriority` | utils/file_analyzer.py:116-119 | "api" in the name wins over every other keyword, and "config" comes next |
| `FileAnalyzer.CommentPurposeStopsAtCode` | utils/file_analyzer.py:106-113 | lines after the first code line never reach the comment purpose |
| `FileAnalyzer.ImplementationNote` | utils/file_analyzer.py:181 | "Implementation: " and the first 50 characters of the line, with "..." added whatever the line's length |
| `FileAnalyzer.PyDescription` | utils/file_analyzer.py:167-185 | a Python description is a summary of at most 103 characters, or the parameter note; when the stripped body has a `"""` block, it is the summary of the block opened by the body's first `"""` |
| `FileAnalyzer.PyDescriptionCodeLine` | utils/file_analyzer.py:176-182 | without a `"""` block, the description is the "Implementation: " note on the body's first line that is neither blank nor a `#` comment |
| `FileAnalyzer.PyDescriptionParameters` | utils/file_analyzer.py:176-185 | without a `"""` block and with only blank and comment lines, the description is "Function with parameters: " and the parameter text |
| `FileAnalyzer.DescribePythonFunction` | utils/file_analyzer.py:167-185 | the description step with its line loop gives the defined description |
| `FileAnalyzer.ExtractPythonFunctions` | utils/file_analyzer.py:144-192 | the `finditer` loop builds the records the extractor defines |
| `FileAnalyzer.CollectPythonRecords` | utils/file_analyzer.py:158-190 | the loop body skips private names and appends the other matches with their descriptions |
| `FileAnalyzer.PythonRecordsPublic` | utils/file_analyzer.py:163-165 | no private name is reported, and every public definition found is reported with its description |
| `FileAnalyzer.JsDescription` | utils/file_analyzer.py:229-259 | a JavaScript description is at most 103 characters long; when the stripped text before the definition has a `/** … */` block, it is the shortened text of the block opened by the first `/**` |
| `FileAnalyzer.JsDescriptionIgnoresNearerBlock` | utils/file_analyzer.py:229-236 | a second `/**` block nearer to the definition does not replace the first one |
| `FileAnalyzer.JsDescriptionCommentRun` | utils/file_analyzer.py:238-252 | without a `/** … */` block, a non-empty `//` run just above the definition gives the description, joined by spaces and shortened |
| `FileAnalyzer.JsDescriptionBodyLine` | utils/file_analyzer.py:253-257 | without a block and without a `//` run, the description is the "Implementation: " note on the body's first non-blank line |
| `FileAnalyzer.JsDescriptionDefault` | utils/file_analyzer.py:253-259 | without a block, without a `//` run and with a blank body, the description is "JavaScript function" |
| `FileAnalyzer.JsPasses` | utils/file_analyzer.py:206-218 | the three passes are the three patterns' `finditer` results, in order |
| `FileAnalyzer.DescribeJavaScriptFunction` | utils/file_analyzer.py:229-259 | the description step with its upward comment loop gives the defined description |
| `FileAnalyzer.ExtractJavaScriptFunctions` | utils/file_analyzer.py:194-266 | the three loops build the records the extractor defines |
| `FileAnalyzer.CollectJavaScriptRecords` | utils/file_analyzer.py:218-264 | one loop skips names starting with `_` and appends the other matches with their descriptions |
| `FileAnalyzer.JavaScriptNamesPublic` | utils/file_analyzer.py:222-224 | no reported name starts with `_` |
| `FileAnalyzer.JavaScriptGroupedByPattern` | utils/file_analyzer.py:217-218 | the records are those of the `function` pass, then the arrow pass, then the method pass, not merged |
| `FileAnalyzer.FunctionDeclarationSeenByMethodPass` | utils/file_analyzer.py:208-214 | the method pattern also matches at the name of every `function` declaration, with the same name, and that position lies inside some method-pass match (not necessarily the one at the name), so the declaration can be reported twice |
| `FileAnalyzer.SectionDescription` | utils/file_analyzer.py:292-311 | a section description is at most 103 characters long |
| `FileAnalyzer.SectionDescriptionRun` | utils/file_analyzer.py:292-307 | a non-empty `#` run just above the section gives its description, joined by spaces and shortened |
| `FileAnalyzer.SectionDescriptionQuote` | utils/file_analyzer.py:308-311 | without a `#` run, the description is "RouterOS script section: ", then the first fifty characters of the matched text (all of it when shorter), then "..." |
| `FileAnalyzer.QuoteNote` | utils/file_analyzer.py:308-311 | the quoting note is the prefix, a prefix of the matched text of at most fifty characters, and "..." |
| `FileAnalyzer.BlockRecords` | utils/file_analyzer.py:323-335 | one record per `do={…}` block, numbered from 1 in the order found |
| `FileAnalyzer.ExtractRouterOsFunctions` | utils/file_analyzer.py:268-337 | the section loops and the block loop build the records the extractor defines |
| `FileAnalyzer.DescribeSection` | utils/file_analyzer.py:292-311 | the description step with its upward `#` loop gives the defined description |
| `FileAnalyzer.CollectSectionRecords` | utils/file_analyzer.py:288-316 | one section loop appends every match with its description |
| `FileAnalyzer.CollectBlockRecords` | utils/file_analyzer.py:320-335 | the block loop with its counter names each block after its place |
| `FileAnalyzer.RouterOsLayout` | utils/file_analyzer.py:288-335 | one record per label, then per `foreach`, then the numbered blocks, each section named after its match |
| `FileAnalyzer.SectionNamesDistinct` | utils/file_analyzer.py:325 | different counter values give different section names |
| `FileAnalyzer.BlockNamesDistinct` | utils/file_analyzer.py:325-326 | no two blocks get the same name |
| `FileAnalyzer.ForeachBlockSeenAgain` | utils/file_analyzer.py:285-323 | the block pattern matches the `do={…}` tail of every `foreach` loop with the same body, and that position lies inside some block-pass match (for a loop nested in another block, the outer block's match) |
| `FileAnalyzer.FunctionsFor` | utils/file_analyzer.py:34-39 | functions are extracted only for Python, JavaScript and RouterOS Script |
| `FileAnalyzer.FileAnalysisOf` | utils/file_analyzer.py:5-45 | a path that is not a regular file, is over 1 MiB or cannot be read gets the default answer; functions only for the three languages with an extractor |
| `FileAnalyzer.AnalyzeFileContent` | utils/file_analyzer.py:5-45 | the method returns the analysis the function defines |
| `FileAnalyzer.OneMebibyteBoundary` | utils/file_analyzer.py:23 | a file of exactly 1 MiB is analysed, but its content is not sniffed (utils/language_detector.py:41 uses `<`) |
| `RepoTree.WalkTotals` | utils/repo_analyzer.py:97-106 | the walk reports each file outside `.git` once: its length and byte sum are the tree's file count and byte count |
| `RepoTree.InsertByName` | utils/repo_analyzer.py:134 | inserting adds exactly one entry |
| `RepoTree.SortByName` | utils/repo_analyzer.py:134 | `sorted(os.listdir(...))` is a permutation of the listing |
| `RepoTree.InsertByNameSorted` | utils/repo_analyzer.py:134 | inserting keeps the listing sorted |
| `RepoTree.SortByNameSorted` | utils/repo_analyzer.py:134 | the sorted listing is in name order |
| `RepoTree.RemoveGit` | utils/repo_analyzer.py:137-138 | `items.remove('.git')` only removes |
| `RepoTree.RemoveGitSorted` | utils/repo_analyzer.py:137-138 | the removal keeps the listing sorted |
| `RepoTree.RemoveGitExact` | utils/repo_analyzer.py:137-138 | exactly the `.git` entry goes |
| `RepoTree.Arrange` | utils/repo_analyzer.py:134-138 | the arranged entries are entries of the directory |
| `RepoTree.ArrangeSpec` | utils/repo_analyzer.py:134-138 | the listing is sorted by name and holds exactly the directory's entries except `.git` |
| `RepoTree.ListingNext` | utils/repo_analyzer.py:140-154 | each item adds its line, with the elbow for the last item and the tee otherwise, then its subtree under the matching prefix |
| `RepoTree.EmptyTreeIsRootLine` | utils/repo_analyzer.py:157-160 | an empty repository shows as its name alone |
| `RepoTree.RemoveGitVisible` | utils/repo_analyzer.py:137-138 | removing `.git` loses no visible entry |
| `RepoTree.SortByNameVisible` | utils/repo_analyzer.py:134 | sorting loses no visible entry |
| `RepoTree.DirLinesCount` | utils/repo_analyzer.py:133-154 | the tree has exactly one line per entry outside `.git`, at every level |
| `RepoTree.ListingCount` | utils/repo_analyzer.py:140-154 | the first `n` items give one line per visible entry below them |
| `RepoTree.DirLinesPrefixed` | utils/repo_analyzer.py:145-154 | every line of a subtree starts with the prefix it was given |
| `RepoTree.ListingPrefixed` | utils/repo_analyzer.py:145-154 | the same for a listing's first `n` items |
| `Globbing.Paths` | utils/repo_analyzer.py:297 | the relative paths of the matches, in order |
| `Globbing.LiteralMatch` | utils/repo_analyzer.py:283 | a pattern without `*` matches only itself |
| `Globbing.StarSuffix` | utils/repo_analyzer.py:212 | `*` followed by a literal matches exactly the names ending in it |
| `Globbing.SplitRecursive` | utils/repo_analyzer.py:213 | `**/x` splits into `**` and `x` |
| `Globbing.FinalSpec` | utils/repo_analyzer.py:225 | the last component finds exactly the entries whose names it matches |
| `Globbing.TopLevel` | utils/repo_analyzer.py:225 | a one-component pattern finds exactly the root entries whose names it matches |
| `Globbing.TopLevelSuffix` | utils/repo_analyzer.py:212-219 | `*.ext` finds exactly the root entries ending in `.ext` that are not hidden |
| `Globbing.RecursiveIncludesTop` | utils/repo_analyzer.py:212-213 | `**/*.py` also finds what `*.py` finds at the root |
| `Globbing.StepSpec` | utils/repo_analyzer.py:282 | `dir/x` finds what `x` finds inside the directory called `dir` |
| `RepoReport.RepoName` | utils/repo_analyzer.py:22 | the name has no `/` |
| `RepoReport.RemoveSuffixOnly` | utils/repo_analyzer.py:22 | `.git` alone becomes empty |
| `RepoReport.RepoNameOfCloneUrl` | utils/repo_analyzer.py:22 | `owner/name` and `owner/name.git` both give `name`, when `name` has no dots |
| `RepoReport.RepoNameDropsInnerGit` | utils/repo_analyzer.py:22 | `.git` goes wherever it occurs in the last segment, not only at its end |
| `RepoReport.TenthsRounds` | utils/repo_analyzer.py:112 | `:.1f` is within half a tenth of the quotient, and an exact half goes to the even tenth |
| `RepoReport.Decimal1Reads` | utils/repo_analyzer.py:112 | the text is digits, a dot and one digit, and reads back as the tenths |
| `RepoReport.FormatSizeUnits` | utils/repo_analyzer.py:109-114 | "bytes" exactly under 1024, "KB" exactly from 1024 up to 1 MiB, "MB" from there on |
| `RepoReport.FormatSizeValue` | utils/repo_analyzer.py:109-114 | the number is the byte count under 1 KiB, and otherwise the size in KiB or MiB to the nearest tenth |
| `RepoReport.FileBytesIsSum` | utils/repo_analyzer.py:104-106 | the running total is the sum of the sizes |
| `RepoReport.StatsCountTree` | utils/repo_analyzer.py:85-120 | the totals are the tree's own file count and byte count, with the byte count formatted |
| `RepoReport.Shares` | utils/repo_analyzer.py:189-195 | one entry per counter item, in order |
| `RepoReport.HistogramFromCounts` | utils/repo_analyzer.py:171-195 | counting the walk's labels and then listing the sorted counter gives the histogram |
| `RepoReport.RankedSameEntries` | utils/repo_analyzer.py:189 | the ranked counter has the counter's items |
| `RepoReport.RankedCountsExact` | utils/repo_analyzer.py:171-189 | each ranked item carries its label's number of occurrences |
| `RepoReport.RankedCountsCover` | utils/repo_analyzer.py:171-189 | every label is ranked, and nothing else is |
| `RepoReport.CountsDistinct` | utils/repo_analyzer.py:171-185 | the counter's items are all different |
| `RepoReport.RankedCountsDistinct` | utils/repo_analyzer.py:189 | no label is ranked twice |
| `RepoReport.RankedCountsSpec` | utils/repo_analyzer.py:171-189 | each label once, with its count, and every label |
| `RepoReport.HistogramCounts` | utils/repo_analyzer.py:162-197 | each language once, with its number of labelled files and the number of labelled files overall; every label seen is listed |
| `RepoReport.HistogramTotal` | utils/repo_analyzer.py:183-190 | the counts add up to the number of labelled files |
| `RepoReport.SharesSum` | utils/repo_analyzer.py:189-195 | listing the counter keeps the sum of the counts |
| `RepoReport.HistogramRanked` | utils/repo_analyzer.py:189 | largest count first; languages with equal counts keep the order in which they were first seen |
| `RepoReport.GlobAllHas` | utils/repo_analyzer.py:223-225 | whatever one pattern finds is among the matches |
| `RepoReport.UniqueByPathSpec` | utils/repo_analyzer.py:228 | each distinct path matched is kept once, and every kept match is a match |
| `RepoReport.KeyFileCandidatesSpec` | utils/repo_analyzer.py:223-260 | every candidate comes from a selected match of at most 1 MiB outside `.git`; every such match gives a candidate; every path matched is considered once |
| `RepoReport.KeyFilesRanked` | utils/repo_analyzer.py:263 | at most ten, in descending function count, a permutation's prefix: nothing left out has more functions than something kept; equal counts keep their order |
| `RepoReport.ComponentNamesDistinct` | utils/repo_analyzer.py:281-288 | the group names are different, and the description table lists them in the same order |
| `RepoReport.ComponentDescriptionSpec` | utils/repo_analyzer.py:314-333 | a name in the table gets its sentence; any other name gets the generic one |
| `RepoReport.ComponentsSound` | utils/repo_analyzer.py:289-310 | every component comes from a group whose patterns found files, with those files, each once, and its description |
| `RepoReport.ComponentFound` | utils/repo_analyzer.py:305-310 | a group whose patterns find files is reported |
| `RepoReport.ComponentNamed` | utils/repo_analyzer.py:305-310 | a reported group's patterns found files |
| `RepoReport.ComponentsSpec` | utils/repo_analyzer.py:281-312 | a group is reported exactly when its patterns find something, and then as built from that group |
| `RepoReport.KeyComponentsSpec` | utils/repo_analyzer.py:267-312 | the same for the six groups of the source |
| `RepoReport.ComponentsOrderedPair` | utils/repo_analyzer.py:281-306 | of two reported components, the earlier one's group comes first |
| `RepoReport.ComponentsOrdered` | utils/repo_analyzer.py:281-306 | components come out in group order |
| `RepoReport.KeyComponentsOrdered` | utils/repo_analyzer.py:281-306 | components come out in table order |
| `RepoReport.ComponentsFindHit` | utils/repo_analyzer.py:291-299 | whatever one of a group's patterns finds is among its files |
| `RepoReport.ComponentFindsHit` | utils/repo_analyzer.py:291-310 | the same for the source's groups, so the group is reported |
| `RepoReport.ReadmeMakesDocumentation` | utils/repo_analyzer.py:283 | a root `README.md` puts "Documentation" in the report with `README.md` among its files |
| `RepoReport.ImplementationRoadmap` | utils/repo_analyzer.py:435-474 | eight steps with different titles, "Setup Environment" first |
| `Dependencies.PurposeFallback` | utils/repo_analyzer.py:433 | a name outside the table gets "Support library for … functionality" with underscores as spaces |
| `Dependencies.PurposesDistinct` | utils/repo_analyzer.py:413-431 | no package appears twice in the table |
| `Dependencies.PurposeKnown` | utils/repo_analyzer.py:413-433 | a name in the table gets the table's sentence |
| `Dependencies.DepNames` | utils/repo_analyzer.py:394 | the names of the dependencies, in order |
| `Dependencies.ManifestEntrySpec` | utils/repo_analyzer.py:351-353 | blank and `#` lines name nothing; any other line names its stripped text up to the first `==` |
| `Dependencies.ImportedModule` | utils/repo_analyzer.py:378-384 | only `import`/`from` lines import; a `from` module has no dot |
| `Dependencies.RelativeImportIsEmpty` | utils/repo_analyzer.py:383-384 | `from .x import y` yields the empty module name |
| `Dependencies.ImportsFailurePersists` | utils/repo_analyzer.py:369-371 | a Python file that cannot be opened ends the whole scan |
| `Dependencies.ImportsStep` | utils/repo_analyzer.py:368-384 | one more walked file: a non-Python file adds nothing, an unreadable Python file ends the scan, and a readable one adds its imports after those found so far |
| `Dependencies.MergeKeepsListed` | utils/repo_analyzer.py:393-400 | the merge keeps what was listed and only appends |
| `Dependencies.MergeAddsFresh` | utils/repo_analyzer.py:393-400 | each appended entry is an imported module outside the standard library, under a name not listed before |
| `Dependencies.MergeCovers` | utils/repo_analyzer.py:393-400 | every imported module outside the standard library ends up listed |
| `Dependencies.ChildNamed` | utils/repo_analyzer.py:347-348 | the entry found has the name, and `None` means no entry has it |
| `Dependencies.Packages` | utils/repo_analyzer.py:354-359 | one package record per name, in order |
| `Dependencies.ManifestListedFirst` | utils/repo_analyzer.py:344-359 | the manifest's packages come first, in manifest order with repeats, and every entry is a package record for its name |
| `Dependencies.ImportsListedAfter` | utils/repo_analyzer.py:387-400 | after them come only imported modules outside the standard library and not in the manifest, each once |
| `Dependencies.ImportsAllListed` | utils/repo_analyzer.py:362-400 | every module a Python file imports that is outside the standard library is listed |
| `RepoAnalysis.RepoAnalyzer.constructor` | utils/repo_analyzer.py:13-22 | keeps the URL and directory, and derives the repository name |
| `RepoAnalysis.RepoAnalyzer.CalculateStats` | utils/repo_analyzer.py:85-120 | the walk loop computes the statistics the specification function defines |
| `RepoAnalysis.RepoAnalyzer.GenerateTree` | utils/repo_analyzer.py:133-154 | the recursive loop appends exactly the directory's listing lines |
| `RepoAnalysis.RepoAnalyzer.GetDirectoryStructure` | utils/repo_analyzer.py:122-160 | the text is the name line and the tree, joined by newlines |
| `RepoAnalysis.RepoAnalyzer.DetectLanguages` | utils/repo_analyzer.py:162-197 | the two loops build the histogram the specification function defines |
| `RepoAnalysis.RepoAnalyzer.CountLanguages` | utils/repo_analyzer.py:174-185 | the counting loop gives the counter of the walk's labels and their number |
| `RepoAnalysis.RepoAnalyzer.AnalyzeKeyFiles` | utils/repo_analyzer.py:199-265 | the glob, filter and analyse loop, then sort and slice, gives the key files the specification function defines |
| `RepoAnalysis.RepoAnalyzer.GlobPatterns` | utils/repo_analyzer.py:223-225 | the `extend` loop gathers each pattern's matches in turn |
| `RepoAnalysis.RepoAnalyzer.ComponentFilesOf` | utils/repo_analyzer.py:289-302 | one group's loop gathers the relative paths found, each once |
| `RepoAnalysis.RepoAnalyzer.IdentifyKeyComponents` | utils/repo_analyzer.py:267-312 | the group loop builds the components the specification function defines |
| `RepoAnalysis.RepoAnalyzer.ReadManifest` | utils/repo_analyzer.py:349-359 | the manifest loop appends one package per line that names one |
| `RepoAnalysis.RepoAnalyzer.ScanImports` | utils/repo_analyzer.py:362-384 | the walk loop gathers the imports of the Python files, and gives `None` when one cannot be opened |
| `RepoAnalysis.RepoAnalyzer.AnalyzeDependencies` | utils/repo_analyzer.py:335-402 | the manifest, the import scan and the merge loop give the dependencies the specification function defines, or `None` where the source raises |

## Left out

- **Cloning, the report driver and the report header.** `clone_repo` runs git. `analyze`, `_get_repo_info` and `_generate_conclusion` (utils/repo_analyzer.py:24-83, 476-494) only assemble the report, with the current date and fixed text.
- **`print`.** The error message of utils/file_analyzer.py:43 is not modelled.
- **The web application and notifications.** app.py, config.py, utils/notifications.py and static/ are not part of this model.
- **The file system is a value, not I/O.**
  - An entry's text is what `open(..., encoding='utf-8', errors='ignore')` would decode; decoding itself is not modelled.
  - `os.walk`'s per-directory loop `total_files += len(files)` is modelled as one step per file over the same walk order.
  - Symbolic links, permissions and files that change during the analysis are not modelled.
- **Exceptions.** They become `None` where the source would raise: a Python file or `requirements.txt` that cannot be opened. A manifest that cannot be decoded is not among them (see `ReadManifest` below). An unreadable file in `analyze_file_content` gets the default answer, as in the source.
- **The size of a directory.** When a glob match is a directory, `os.path.getsize` on it is the `dirSize` parameter of `AnalyzeKeyFiles`.
- **The scratch directory.** `tempDir` is kept as the class's field but not used, since cloning is left out.
- **Python `set` order.** Three results come out of `list(set(...))`: the key-file paths (utils/repo_analyzer.py:228), the component files (302) and the imported modules (362). Their order in CPython depends on string hashing. The model takes the first-occurrence order (`Ordering.Dedup`, `RepoReport.UniqueByPath`). The source gives no order to rely on, so which of several key files with equal function counts make the top ten depends on this choice.
- **Percentages.** `_detect_languages`'s floating-point percentage (utils/repo_analyzer.py:190-194) is not computed. Each `LanguageShare` keeps the count and the total it is `round(100 * count / total, 1)` of.
- **Size formatting.** `:.1f` of `size / 1024` is computed exactly in tenths with half-to-even rounding (`RepoReport.Tenths`). This agrees with Python because the quotient is exact in binary floating point. Floating point itself is not modelled.
- **Regular expressions.** They are hand-written scanners, one per pattern. Each reproduces the leftmost, lazy-group behaviour of its pattern. Python's `re` engine itself is not modelled.
- **Glob.** `*` and `**` are the only wildcards, which are the only ones the source's patterns use; `?` and `[...]` are not modelled. The order of matches within a directory is the listing order.
- **Character case.** `lower()` and `upper()` map ASCII letters only. Other scripts' case mappings are not modelled.
- **`str.isspace`** covers the Unicode whitespace characters listed in `Strings.IsSpaceIff`.
- **The `.lower()` of the extension** is applied before the table lookup, as in the source. Extensions containing non-ASCII capitals are outside the model, for the same reason as above.
- RepoAnalysis.RepoAnalyzer.ReadManifest: `requirements.txt` is opened with the locale encoding and strict errors (utils/repo_analyzer.py:349), so a manifest whose bytes do not decode makes the dependency analysis raise. The model parses the manifest's decoded text like any other file's and does not model that failure.
- Dependencies.ManifestPackages: the same gap. It is `None` only when `requirements.txt` cannot be opened, not when it fails to decode.
- Strings.RemoveAll: its contract states only that the result is no longer than the input and adds no character. What it removes is stated by `RepoReport.RepoNameOfCloneUrl`, `RepoReport.RepoNameDropsInnerGit` and `RepoReport.RemoveSuffixOnly`.
- RepoReport.RepoName: its contract states only that the name has no `/`. The clone-URL cases are stated by the lemmas above.
