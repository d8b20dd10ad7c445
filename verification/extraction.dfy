/** Function records: what the extractors report for each match they keep, and the passes
    that run several patterns one after another. */
module Extraction {

  import opened Patterns

  datatype FunctionRecord = FunctionRecord(name: string, description: string)

  /** The record a kept match yields. */
  function RecordOf(m: Match, describe: Match -> string): FunctionRecord {
    FunctionRecord(m.name, describe(m))
  }

  /** The loop body every extractor shares: for each match in order, skip it unless `keep`
      accepts it, else append its name and its description. */
  function Records(ms: seq<Match>, keep: Match -> bool, describe: Match -> string): (rs: seq<FunctionRecord>)
    ensures |rs| <= |ms|
  {
    if ms == [] then []
    else
      var m := ms[|ms| - 1];
      Records(ms[..|ms| - 1], keep, describe) + (if keep(m) then [RecordOf(m, describe)] else [])
  }

  /** One more step of the loop: the record of match `i`, if it is kept, goes at the end. */
  lemma RecordsStep(ms: seq<Match>, i: nat, keep: Match -> bool, describe: Match -> string)
    requires i < |ms|
    ensures Records(ms[..i + 1], keep, describe) ==
            Records(ms[..i], keep, describe) + (if keep(ms[i]) then [RecordOf(ms[i], describe)] else [])
  {
    assert ms[..i + 1][..i] == ms[..i];
  }

  /** A step of the loop that keeps match `i` appends its record, described as `d`. */
  lemma RecordsStepKept(ms: seq<Match>, i: nat, keep: Match -> bool, describe: Match -> string, d: string)
    requires i < |ms| && keep(ms[i]) && d == describe(ms[i])
    ensures Records(ms[..i + 1], keep, describe) == Records(ms[..i], keep, describe) + [FunctionRecord(ms[i].name, d)]
  {
    RecordsStep(ms, i, keep, describe);
  }

  /** A step of the loop that skips match `i` leaves the records as they are. */
  lemma RecordsStepSkipped(ms: seq<Match>, i: nat, keep: Match -> bool, describe: Match -> string)
    requires i < |ms| && !keep(ms[i])
    ensures Records(ms[..i + 1], keep, describe) == Records(ms[..i], keep, describe)
  {
    RecordsStep(ms, i, keep, describe);
  }

  /** Records of consecutive stretches of matches follow each other. */
  lemma {:induction false} RecordsAppend(a: seq<Match>, b: seq<Match>, keep: Match -> bool, describe: Match -> string)
    ensures Records(a + b, keep, describe) == Records(a, keep, describe) + Records(b, keep, describe)
    decreases |b|
  {
    if b == [] {
      assert a + b == a;
    } else {
      var init := b[..|b| - 1];
      RecordsAppend(a, init, keep, describe);
      assert (a + b)[..|a + b| - 1] == a + init;
      assert (a + b)[|a + b| - 1] == b[|b| - 1];
    }
  }

  /** Every record comes from a kept match. */
  lemma {:induction false} RecordsSound(ms: seq<Match>, keep: Match -> bool, describe: Match -> string)
    ensures forall r :: r in Records(ms, keep, describe) ==>
              exists i :: 0 <= i < |ms| && keep(ms[i]) && r == RecordOf(ms[i], describe)
  {
    if ms != [] {
      var init := ms[..|ms| - 1];
      RecordsSound(init, keep, describe);
      forall r | r in Records(ms, keep, describe)
        ensures exists i :: 0 <= i < |ms| && keep(ms[i]) && r == RecordOf(ms[i], describe)
      {
        if r in Records(init, keep, describe) {
          var i :| 0 <= i < |init| && keep(init[i]) && r == RecordOf(init[i], describe);
          assert ms[i] == init[i];
        }
      }
    }
  }

  /** Every kept match yields a record. */
  lemma {:induction false} RecordsComplete(ms: seq<Match>, keep: Match -> bool, describe: Match -> string)
    ensures forall i :: 0 <= i < |ms| && keep(ms[i]) ==> RecordOf(ms[i], describe) in Records(ms, keep, describe)
  {
    if ms != [] {
      var init := ms[..|ms| - 1];
      RecordsComplete(init, keep, describe);
      forall i | 0 <= i < |ms| && keep(ms[i])
        ensures RecordOf(ms[i], describe) in Records(ms, keep, describe)
      {
        if i < |init| {
          assert ms[i] == init[i];
        }
      }
    }
  }

  /** When every match is kept, there is exactly one record per match, in match order. */
  lemma {:induction false} RecordsAll(ms: seq<Match>, keep: Match -> bool, describe: Match -> string)
    requires forall i :: 0 <= i < |ms| ==> keep(ms[i])
    ensures |Records(ms, keep, describe)| == |ms|
    ensures forall i :: 0 <= i < |ms| ==> Records(ms, keep, describe)[i] == RecordOf(ms[i], describe)
  {
    if ms != [] {
      var init := ms[..|ms| - 1];
      RecordsAll(init, keep, describe);
      forall i | 0 <= i < |init| ensures Records(ms, keep, describe)[i] == RecordOf(ms[i], describe) {
        assert ms[i] == init[i];
      }
    }
  }

  /** Several `finditer` passes run one after another with no deduplication: the records
      of each pass's matches, pass after pass. */
  function Passes(passes: seq<seq<Match>>, keep: Match -> bool, describe: Match -> string): seq<FunctionRecord> {
    if passes == [] then []
    else Passes(passes[..|passes| - 1], keep, describe) + Records(passes[|passes| - 1], keep, describe)
  }

  /** Every record of the passes comes from a match that `keep` accepts. */
  lemma {:induction false} PassesKept(passes: seq<seq<Match>>, keep: Match -> bool, describe: Match -> string)
    ensures forall r :: r in Passes(passes, keep, describe) ==> exists m :: keep(m) && r == RecordOf(m, describe)
  {
    if passes != [] {
      var init, ms := passes[..|passes| - 1], passes[|passes| - 1];
      PassesKept(init, keep, describe);
      RecordsSound(ms, keep, describe);
      assert Passes(passes, keep, describe) == Passes(init, keep, describe) + Records(ms, keep, describe);
      forall r | r in Passes(passes, keep, describe)
        ensures exists m :: keep(m) && r == RecordOf(m, describe)
      {
        if r in Records(ms, keep, describe) {
          var i :| 0 <= i < |ms| && keep(ms[i]) && r == RecordOf(ms[i], describe);
        } else {
          assert r in Passes(init, keep, describe);
        }
      }
    }
  }

  /** Three passes give the records of the first, then the second, then the third. */
  lemma PassesOfThree(a: seq<Match>, b: seq<Match>, c: seq<Match>, keep: Match -> bool, describe: Match -> string)
    ensures Passes([a, b, c], keep, describe) ==
            Records(a, keep, describe) + Records(b, keep, describe) + Records(c, keep, describe)
  {
    assert [a, b, c][..2] == [a, b] && [a, b, c][2] == c;
    assert [a, b][..1] == [a] && [a, b][1] == b;
    assert [a][..0] == [] && [a][0] == a;
    assert Passes([a], keep, describe) == Records(a, keep, describe);
    assert Passes([a, b], keep, describe) == Records(a, keep, describe) + Records(b, keep, describe);
  }

  /** Two passes that keep every match: one record per match, named after it, those of the
      first pass first. */
  lemma PassesAllKept(a: seq<Match>, b: seq<Match>, keep: Match -> bool, describe: Match -> string)
    requires forall i :: 0 <= i < |a| ==> keep(a[i])
    requires forall i :: 0 <= i < |b| ==> keep(b[i])
    ensures var rs := Passes([a, b], keep, describe);
            && |rs| == |a| + |b|
            && (forall i :: 0 <= i < |a| ==> rs[i].name == a[i].name)
            && (forall i :: 0 <= i < |b| ==> rs[|a| + i].name == b[i].name)
  {
    assert [a, b][..1] == [a] && [a, b][1] == b;
    assert [a][..0] == [] && [a][0] == a;
    assert Passes([a], keep, describe) == Records(a, keep, describe);
    RecordsAll(a, keep, describe);
    RecordsAll(b, keep, describe);
  }
}
