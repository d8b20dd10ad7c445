/** `glob.glob(pattern, recursive=True)` over the repository tree, for the patterns the
    analyzer uses: components separated by `/`, each a literal name, a wildcard name in
    which `*` stands for any run of characters, or `**` for any depth of directories. */
module Globbing {

  import opened Strings
  import opened RepoTree

  /** `fnmatch` of one name against a pattern whose only wildcard is `*`. */
  predicate WildMatch(pat: string, name: string)
    decreases |pat| + |name|
  {
    if pat == [] then name == []
    else if pat[0] == '*' then WildMatch(pat[1..], name) || (name != [] && WildMatch(pat, name[1..]))
    else name != [] && pat[0] == name[0] && WildMatch(pat[1..], name[1..])
  }

  predicate HasMagic(component: string) {
    '*' in component
  }

  /** Names starting with a dot are hidden from wildcards. */
  predicate IsHidden(name: string) {
    name != [] && name[0] == '.'
  }

  /** Whether the pattern component `component` finds an entry called `name`: a literal
      finds the entry of that very name; a wildcard matches by `fnmatch` and skips hidden
      names unless it starts with a dot itself. */
  predicate Finds(component: string, name: string) {
    if HasMagic(component) then WildMatch(component, name) && (!IsHidden(name) || IsHidden(component))
    else name == component
  }

  /** A match: its path relative to the repository root, and the entry found there. */
  datatype Hit = Hit(path: string, entry: Entry)

  /** The matches of the pattern components `parts` in the directory listing `es`, whose
      path from the root is `base`. */
  function GlobIn(es: seq<Entry>, base: string, parts: seq<string>): seq<Hit>
    decreases es, |parts|, 1
  {
    if |parts| == 0 then []
    else if |parts| == 1 then Final(es, base, parts[0])
    else if parts[0] == "**" then GlobIn(es, base, parts[1..]) + Descend(es, base, parts)
    else Step(es, base, parts)
  }

  /** The entries of one directory the last component finds, in listing order. */
  function Final(es: seq<Entry>, base: string, component: string): seq<Hit> {
    if es == [] then []
    else
      (if Finds(component, es[0].name) then [Hit(base + es[0].name, es[0])] else []) +
      Final(es[1..], base, component)
  }

  /** `**`: the same pattern again in every subdirectory that is not hidden, at any depth,
      the directories taken in pre-order. */
  function Descend(es: seq<Entry>, base: string, parts: seq<string>): seq<Hit>
    requires |parts| >= 2
    decreases es, |parts|, 0
  {
    if es == [] then []
    else
      (if es[0].Dir? && !IsHidden(es[0].name)
       then GlobIn(es[0].children, base + es[0].name + "/", parts) else []) +
      Descend(es[1..], base, parts)
  }

  /** A directory component: the rest of the pattern in every subdirectory it finds. */
  function Step(es: seq<Entry>, base: string, parts: seq<string>): seq<Hit>
    requires |parts| >= 2
    decreases es, |parts|, 0
  {
    if es == [] then []
    else
      (if es[0].Dir? && Finds(parts[0], es[0].name)
       then GlobIn(es[0].children, base + es[0].name + "/", parts[1..]) else []) +
      Step(es[1..], base, parts)
  }

  /** `glob.glob(os.path.join(repo_path, pattern), recursive=True)`, with the repository
      path taken off each result. */
  function Glob(root: seq<Entry>, pattern: string): seq<Hit> {
    GlobIn(root, "", Split(pattern, '/'))
  }

  /** The paths of the matches, in order. */
  function Paths(hits: seq<Hit>): (r: seq<string>)
    ensures |r| == |hits|
    ensures forall i :: 0 <= i < |hits| ==> r[i] == hits[i].path
  {
    seq(|hits|, i requires 0 <= i < |hits| => hits[i].path)
  }

  lemma PathsAppend(a: seq<Hit>, b: seq<Hit>)
    ensures Paths(a + b) == Paths(a) + Paths(b)
  {
    assert forall i :: 0 <= i < |a + b| ==> Paths(a + b)[i] == (Paths(a) + Paths(b))[i];
  }

  // ---------------------------------------------------------------------------------------
  // What the patterns find
  // ---------------------------------------------------------------------------------------

  /** A pattern without `*` matches only itself. */
  lemma {:induction false} LiteralMatch(lit: string, name: string)
    requires '*' !in lit
    ensures WildMatch(lit, name) <==> name == lit
    decreases |lit|
  {
    if lit != [] {
      assert '*' !in lit[1..] by { SliceKeepsOut(lit, '*', 1); }
      if name != [] {
        LiteralMatch(lit[1..], name[1..]);
        if name[0] == lit[0] && name[1..] == lit[1..] {
          assert name == [name[0]] + name[1..] && lit == [lit[0]] + lit[1..];
        }
      }
    }
  }

  /** `*` followed by a literal matches exactly the names ending in that literal: `*.py`
      finds the names ending in ".py". */
  lemma {:induction false} StarSuffix(lit: string, name: string)
    requires '*' !in lit
    ensures WildMatch("*" + lit, name) <==> EndsWith(name, lit)
    decreases |name|
  {
    var pat := "*" + lit;
    assert pat[1..] == lit;
    LiteralMatch(lit, name);
    if name != [] {
      StarSuffix(lit, name[1..]);
      assert EndsWith(name, lit) <==> name == lit || EndsWith(name[1..], lit) by {
        if |lit| <= |name| - 1 {
          assert name[|name| - |lit|..] == name[1..][|name[1..]| - |lit|..];
        }
      }
    }
  }

  lemma {:induction false} SplitWithout(s: string, c: char)
    requires c !in s
    ensures Split(s, c) == [s]
  {
    if s != [] {
      SliceKeepsOut(s, c, 1);
      SplitWithout(s[1..], c);
      assert s == [s[0]] + s[1..];
    }
  }

  /** The components of `**` followed by `/` and a component. */
  lemma SplitRecursive(rest: string)
    requires '/' !in rest
    ensures Split("**/" + rest, '/') == ["**", rest]
  {
    var t := "/" + rest;
    var u := "*" + t;
    var s := "*" + u;
    assert s == "**/" + rest;
    SplitWithout(rest, '/');
    assert t[1..] == rest;
    assert Split(t, '/') == [[], rest];
    assert u[0] == '*' && u[1..] == t;
    var r := Split(t, '/');
    assert r[0] == [] && r[1..] == [rest];
    assert [u[0]] + r[0] == "*";
    assert Split(u, '/') == [[u[0]] + r[0]] + r[1..] == ["*", rest];
    assert s[0] == '*' && s[1..] == u;
    assert [s[0]] + "*" == "**";
  }

  lemma {:induction false} FinalSpec(es: seq<Entry>, base: string, component: string)
    ensures forall h :: h in Final(es, base, component) <==>
              h.entry in es && h.path == base + h.entry.name && Finds(component, h.entry.name)
  {
    if es != [] {
      FinalSpec(es[1..], base, component);
    }
  }

  /** A pattern of one component finds the entries of the root directory whose names it
      matches, and only those. */
  lemma TopLevel(root: seq<Entry>, component: string)
    requires '/' !in component
    ensures forall h :: h in Glob(root, component) <==>
              h.entry in root && h.path == h.entry.name && Finds(component, h.entry.name)
  {
    SplitWithout(component, '/');
    FinalSpec(root, "", component);
  }

  /** `*<suffix>` finds the root entries whose names end in the suffix and do not start
      with a dot. */
  lemma TopLevelSuffix(root: seq<Entry>, suffix: string)
    requires '/' !in suffix && '*' !in suffix
    ensures forall h :: h in Glob(root, "*" + suffix) <==>
              h.entry in root && h.path == h.entry.name &&
              EndsWith(h.entry.name, suffix) && !IsHidden(h.entry.name)
  {
    var component := "*" + suffix;
    assert '/' !in component;
    assert HasMagic(component) && !IsHidden(component);
    TopLevel(root, component);
    forall h: Hit ensures Finds(component, h.entry.name) <==> EndsWith(h.entry.name, suffix) && !IsHidden(h.entry.name) {
      StarSuffix(suffix, h.entry.name);
    }
  }

  /** The recursive form (`**`, a slash, then the component) finds at least what the
      component alone finds at the root: `**` also stands for no directory at all. */
  lemma RecursiveIncludesTop(root: seq<Entry>, component: string)
    requires '/' !in component
    ensures forall h :: h in Glob(root, component) ==> h in Glob(root, "**/" + component)
  {
    SplitWithout(component, '/');
    SplitRecursive(component);
    assert Glob(root, "**/" + component) == GlobIn(root, "", [component]) + Descend(root, "", ["**", component]);
  }

  /** A literal directory component restricts the search to that directory: `dir`, a
      slash, then `component` finds what `component` finds in the root's subdirectory
      `dir`. */
  lemma {:induction false} StepSpec(es: seq<Entry>, dir: string, component: string)
    requires !HasMagic(dir)
    ensures forall h :: h in Step(es, "", [dir, component]) <==>
              exists i :: 0 <= i < |es| && es[i].Dir? && es[i].name == dir &&
                h in Final(es[i].children, dir + "/", component)
  {
    if es != [] {
      StepSpec(es[1..], dir, component);
      var first := if es[0].Dir? && Finds(dir, es[0].name)
                   then GlobIn(es[0].children, "" + es[0].name + "/", [dir, component][1..]) else [];
      assert Step(es, "", [dir, component]) == first + Step(es[1..], "", [dir, component]);
      assert [dir, component][1..] == [component];
      assert "" + dir + "/" == dir + "/";
      forall h | h in Step(es[1..], "", [dir, component])
        ensures exists i :: 0 <= i < |es| && es[i].Dir? && es[i].name == dir &&
                  h in Final(es[i].children, dir + "/", component)
      {
        var i :| 0 <= i < |es[1..]| && es[1..][i].Dir? && es[1..][i].name == dir &&
                 h in Final(es[1..][i].children, dir + "/", component);
        assert es[i + 1] == es[1..][i];
      }
      forall h | (exists i :: 0 <= i < |es| && es[i].Dir? && es[i].name == dir &&
                    h in Final(es[i].children, dir + "/", component))
        ensures h in Step(es, "", [dir, component])
      {
        var i :| 0 <= i < |es| && es[i].Dir? && es[i].name == dir &&
                 h in Final(es[i].children, dir + "/", component);
        if i > 0 {
          assert es[1..][i - 1] == es[i];
        }
      }
    }
  }
}
