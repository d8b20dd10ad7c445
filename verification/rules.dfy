/** Ordered "first match wins" rule lists, the shape shared by the content signatures of the
    language classifier and the filename keywords of the purpose heuristic. */
module Rules {

  import opened Wrappers
  import opened Strings

  /** A test on a text. */
  datatype Cue =
    | Prefix(start: string)     // the text, once stripped, starts with `start`
    | Has(part: string)         // `part` occurs in the text
    | Both(left: Cue, right: Cue)

  predicate Holds(cue: Cue, text: string) {
    match cue
    case Prefix(start) => StartsWith(Strip(text), start)
    case Has(part) => Contains(text, part)
    case Both(left, right) => Holds(left, text) && Holds(right, text)
  }

  /** A rule yields `outcome` when any one of its cues holds. */
  datatype Rule = Rule(cues: seq<Cue>, outcome: string)

  predicate Fires(rule: Rule, text: string) {
    exists i | 0 <= i < |rule.cues| :: Holds(rule.cues[i], text)
  }

  /** The outcome of the earliest rule that fires, if any does. */
  function FirstFiring(rules: seq<Rule>, text: string): Option<string>
  {
    if rules == [] then None
    else if Fires(rules[0], text) then Some(rules[0].outcome)
    else FirstFiring(rules[1..], text)
  }

  /** `FirstFiring` answers nothing exactly when no rule fires, and otherwise the outcome of
      the earliest rule that fires. */
  lemma {:induction false} FirstFiringSpec(rules: seq<Rule>, text: string)
    ensures FirstFiring(rules, text).None? <==> forall k :: 0 <= k < |rules| ==> !Fires(rules[k], text)
    ensures forall k :: 0 <= k < |rules| && Fires(rules[k], text) ==>
              (forall j :: 0 <= j < k ==> !Fires(rules[j], text)) ==> FirstFiring(rules, text) == Some(rules[k].outcome)
  {
    if rules != [] && !Fires(rules[0], text) {
      FirstFiringSpec(rules[1..], text);
      assert forall k :: 1 <= k < |rules| ==> rules[k] == rules[1..][k - 1];
    }
  }

  /** Every outcome `FirstFiring` can return is the outcome of one of the rules. */
  lemma {:induction false} FirstFiringFromRules(rules: seq<Rule>, text: string)
    requires FirstFiring(rules, text).Some?
    ensures exists k :: 0 <= k < |rules| && rules[k].outcome == FirstFiring(rules, text).value
  {
    if !Fires(rules[0], text) {
      FirstFiringFromRules(rules[1..], text);
      var k :| 0 <= k < |rules[1..]| && rules[1..][k].outcome == FirstFiring(rules, text).value;
      assert rules[k + 1] == rules[1..][k];
    }
  }

  /** A lookup table written as a list of entries, as the source's dictionary literals are;
      the first entry with the key decides. */
  function Lookup<K(==), V>(table: seq<(K, V)>, key: K): Option<V>
  {
    if table == [] then None
    else if table[0].0 == key then Some(table[0].1)
    else Lookup(table[1..], key)
  }

  /** `Lookup` answers nothing exactly when no entry has the key, and otherwise the value of
      the first entry that has it. (Kept apart from `Lookup`, so that code looking up a
      literal table does not pay for these quantifiers on every call.) */
  lemma {:induction false} LookupSpec<K, V>(table: seq<(K, V)>, key: K)
    ensures Lookup(table, key).None? <==> forall i :: 0 <= i < |table| ==> table[i].0 != key
    ensures forall i :: 0 <= i < |table| && table[i].0 == key ==>
              (forall j :: 0 <= j < i ==> table[j].0 != key) ==> Lookup(table, key) == Some(table[i].1)
  {
    if table != [] && table[0].0 != key {
      LookupSpec(table[1..], key);
      assert forall i :: 1 <= i < |table| ==> table[i] == table[1..][i - 1];
    }
  }

  /** Every value `Lookup` can return is one of the table's values. */
  lemma {:induction false} LookupFromTable<K, V>(table: seq<(K, V)>, key: K)
    requires Lookup(table, key).Some?
    ensures exists i :: 0 <= i < |table| && table[i] == (key, Lookup(table, key).value)
  {
    if table[0].0 != key {
      LookupFromTable(table[1..], key);
      var i :| 0 <= i < |table[1..]| && table[1..][i] == (key, Lookup(table, key).value);
      assert table[i + 1] == table[1..][i];
    }
  }
}
