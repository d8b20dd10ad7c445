/** A counter keyed by name that remembers the order in which names were first counted:
    Python's `defaultdict(int)`, whose items come out in insertion order. */
module Tallies {

  import opened Wrappers
  import opened Ordering

  /** The counter's items, in insertion order. */
  type Counts = seq<(string, nat)>

  function Names(t: Counts): (r: seq<string>)
    ensures |r| == |t|
    ensures forall i :: 0 <= i < |t| ==> r[i] == t[i].0
  {
    seq(|t|, i requires 0 <= i < |t| => t[i].0)
  }

  function CountOf(e: (string, nat)): int {
    e.1
  }

  /** Where `name` sits in the counter, if it has been counted. */
  function Find(t: Counts, name: string): (r: Option<nat>)
    ensures r.Some? ==> r.value < |t| && t[r.value].0 == name
    ensures r.None? ==> forall i :: 0 <= i < |t| ==> t[i].0 != name
  {
    if t == [] then None
    else if t[|t| - 1].0 == name then Some(|t| - 1)
    else Find(t[..|t| - 1], name)
  }

  /** `counts[name] += 1`: an existing item goes up by one in place, a new name is added at
      the end with count 1. */
  function Bump(t: Counts, name: string): Counts {
    match Find(t, name)
    case Some(i) => t[i := (name, t[i].1 + 1)]
    case None => t + [(name, 1)]
  }

  /** The counter after counting each of `names` in turn. */
  function CountAll(names: seq<string>): Counts {
    if names == [] then [] else Bump(CountAll(names[..|names| - 1]), names[|names| - 1])
  }

  /** Counting one more name is one `Bump`. */
  lemma CountAllSnoc(names: seq<string>, x: string)
    ensures CountAll(names + [x]) == Bump(CountAll(names), x)
  {
    assert (names + [x])[..|names|] == names;
  }

  /** `names.count(x)`. */
  function Occurrences(names: seq<string>, x: string): nat {
    if names == [] then 0
    else Occurrences(names[..|names| - 1], x) + (if names[|names| - 1] == x then 1 else 0)
  }

  lemma {:induction false} OccurrencesAbsent(names: seq<string>, x: string)
    requires x !in names
    ensures Occurrences(names, x) == 0
  {
    if names != [] {
      OccurrencesAbsent(names[..|names| - 1], x);
    }
  }

  lemma {:induction false} SumByUpdate(t: Counts, i: nat, e: (string, nat))
    requires i < |t|
    ensures SumBy(t[i := e], CountOf) == SumBy(t, CountOf) - t[i].1 + e.1
  {
    if i > 0 {
      SumByUpdate(t[1..], i - 1, e);
      assert t[i := e][1..] == t[1..][i - 1 := e];
    } else {
      assert t[i := e][1..] == t[1..];
    }
  }

  /** The counter for `init` describes `init`. */
  predicate Describes(t: Counts, init: seq<string>) {
    && Names(t) == Dedup(init)
    && (forall i :: 0 <= i < |t| ==> t[i].1 == Occurrences(init, t[i].0))
    && SumBy(t, CountOf) == |init|
  }

  /** Counting a name seen before. */
  lemma BumpSeen(t: Counts, init: seq<string>, x: string, i: nat)
    requires Describes(t, init) && Find(t, x) == Some(i)
    ensures Describes(Bump(t, x), init + [x])
  {
    var names := init + [x];
    assert names[..|names| - 1] == init;
    var e: (string, nat) := (x, t[i].1 + 1);
    var t' := t[i := e];
    assert x in Dedup(init) by { assert Names(t)[i] == x; }
    assert Dedup(names) == Dedup(init);
    assert Names(t') == Names(t);
    forall j | 0 <= j < |t'| ensures t'[j].1 == Occurrences(names, t'[j].0) {
      if j != i {
        assert Names(t)[j] != Names(t)[i];
      }
    }
    SumByUpdate(t, i, e);
  }

  /** Counting a name for the first time. */
  lemma BumpNew(t: Counts, init: seq<string>, x: string)
    requires Describes(t, init) && Find(t, x).None?
    ensures Describes(Bump(t, x), init + [x])
  {
    var names := init + [x];
    assert names[..|names| - 1] == init;
    var e: (string, nat) := (x, 1);
    var t' := t + [e];
    assert x !in Dedup(init) by {
      forall j | 0 <= j < |Dedup(init)| ensures Dedup(init)[j] != x {
        assert Dedup(init)[j] == Names(t)[j];
      }
    }
    assert Dedup(names) == Dedup(init) + [x];
    assert Names(t') == Names(t) + [x];
    OccurrencesAbsent(init, x);
    SumByAppend(t, [e], CountOf);
    assert [e][1..] == [];
  }

  /** What the counter holds after counting `names`: each distinct name once, in the order
      of first appearance, with the number of times it occurs; the counts add up to the
      number of names counted. */
  lemma {:induction false} CountAllSpec(names: seq<string>)
    ensures Names(CountAll(names)) == Dedup(names)
    ensures forall i :: 0 <= i < |CountAll(names)| ==>
              CountAll(names)[i].1 == Occurrences(names, CountAll(names)[i].0)
    ensures SumBy(CountAll(names), CountOf) == |names|
  {
    if names != [] {
      var init, x := names[..|names| - 1], names[|names| - 1];
      CountAllSpec(init);
      assert names == init + [x];
      var t := CountAll(init);
      match Find(t, x)
      case Some(i) => BumpSeen(t, init, x, i);
      case None => BumpNew(t, init, x);
    }
  }
}
