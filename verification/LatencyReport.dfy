/**
 The offline latency report (scripts/latency_report.py, aggregate): the values of every
 stage collected per group, and summary figures of every collection.
 */
module LatencyReport {
  import opened Percentiles
  import opened Tally

  datatype Stage = E2e | Stt | LlmTtft | LlmTotal | TtsTtfb

  const STAGES: seq<Stage> := [E2e, Stt, LlmTtft, LlmTotal, TtsTtfb]

  /** A log record: its value of the group field ("" when missing) and its numeric stage values. */
  datatype Record = Record(group: string, values: map<Stage, real>)

  type Bucket = map<Stage, seq<real>>

  /** The label of a record: "all" without grouping. */
  function Label(r: Record, grouped: bool): string {
    if !grouped then "all" else if r.group == "" then "unknown" else r.group
  }

  function Labels(recs: seq<Record>, grouped: bool): (r: seq<string>)
    ensures |r| == |recs|
  {
    if recs == [] then [] else Labels(recs[..|recs| - 1], grouped) + [Label(recs[|recs| - 1], grouped)]
  }

  function ValueOf(r: Record, stage: Stage): seq<real> {
    if stage in r.values then [r.values[stage]] else []
  }

  /** The stage values of the records with one label, in order. */
  function ValuesOf(recs: seq<Record>, grouped: bool, name: string, stage: Stage): seq<real> {
    if recs == [] then []
    else
      var r := recs[|recs| - 1];
      ValuesOf(recs[..|recs| - 1], grouped, name, stage)
      + (if Label(r, grouped) == name then ValueOf(r, stage) else [])
  }

  /** All values of a stage. */
  function AllValues(recs: seq<Record>, stage: Stage): seq<real> {
    if recs == [] then [] else AllValues(recs[..|recs| - 1], stage) + ValueOf(recs[|recs| - 1], stage)
  }

  /** Without grouping the one label holds all values. */
  lemma {:induction false} UngroupedIsEverything(recs: seq<Record>, stage: Stage)
    ensures ValuesOf(recs, false, "all", stage) == AllValues(recs, stage)
  {
    if recs != [] { UngroupedIsEverything(recs[..|recs| - 1], stage); }
  }

  // --- the collecting loops --------------------------------------------------------------

  /** A bucket for one label: for every stage, the values of the label's records. */
  ghost predicate Holds(bucket: Bucket, recs: seq<Record>, grouped: bool, name: string) {
    forall st: Stage :: st in bucket && bucket[st] == ValuesOf(recs, grouped, name, st)
  }

  /** `for stage in STAGES` for one record: appends the record's values to its bucket. */
  method CollectRecord(r: Record, bucket: Bucket) returns (out: Bucket)
    requires forall st: Stage :: st in bucket
    ensures forall st: Stage :: st in out && out[st] == bucket[st] + ValueOf(r, st)
  {
    out := bucket;
    for i := 0 to 5
      invariant forall st: Stage :: st in out
      invariant forall st: Stage ::
                  out[st] == if st in STAGES[..i] then bucket[st] + ValueOf(r, st) else bucket[st]
    {
      var st := STAGES[i];
      assert STAGES[..i + 1] == STAGES[..i] + [st];
      if st !in r.values { continue; }
      out := out[st := out[st] + [r.values[st]]];
    }
    assert forall st: Stage :: st in STAGES[..5] by {
      forall st: Stage ensures st in STAGES[..5] {
        assert STAGES[..5] == STAGES;
        match st {
          case E2e => assert STAGES[0] == st;
          case Stt => assert STAGES[1] == st;
          case LlmTtft => assert STAGES[2] == st;
          case LlmTotal => assert STAGES[3] == st;
          case TtsTtfb => assert STAGES[4] == st;
        }
      }
    }
  }

  lemma BucketGrows(bucket: Bucket, out: Bucket, recs: seq<Record>, grouped: bool, i: nat, name: string)
    requires i < |recs| && Holds(bucket, recs[..i], grouped, name)
    requires if Label(recs[i], grouped) == name
             then forall st: Stage :: st in out && out[st] == bucket[st] + ValueOf(recs[i], st)
             else out == bucket
    ensures Holds(out, recs[..i + 1], grouped, name)
  {
    assert recs[..i + 1][..i] == recs[..i];
  }

  /** Every label has, for every stage, exactly the values of its own records. */
  method Collect(recs: seq<Record>, grouped: bool) returns (buckets: map<string, Bucket>)
    ensures forall l :: l in buckets <==> l in Labels(recs, grouped)
    ensures forall l | l in buckets :: Holds(buckets[l], recs, grouped, l)
  {
    buckets := map[];
    for i := 0 to |recs|
      invariant forall l :: l in buckets <==> l in Labels(recs[..i], grouped)
      invariant forall l | l in buckets :: Holds(buckets[l], recs[..i], grouped, l)
    {
      var r := recs[i];
      var name := Label(r, grouped);
      assert recs[..i + 1][..i] == recs[..i];
      var bucket: Bucket := map[E2e := [], Stt := [], LlmTtft := [], LlmTotal := [], TtsTtfb := []];
      if name in buckets {
        bucket := buckets[name];
      } else {
        NoValues(recs[..i], grouped, name);
        assert Holds(bucket, recs[..i], grouped, name) by { EmptyBucket(bucket); }
      }
      var out := CollectRecord(r, bucket);
      BucketGrows(bucket, out, recs, grouped, i, name);
      forall l | l in buckets && l != name ensures Holds(buckets[l], recs[..i + 1], grouped, l) {
        BucketGrows(buckets[l], buckets[l], recs, grouped, i, l);
      }
      buckets := buckets[name := out];
    }
    assert recs[..|recs|] == recs;
  }

  lemma EmptyBucket(bucket: Bucket)
    requires bucket == map[E2e := [], Stt := [], LlmTtft := [], LlmTotal := [], TtsTtfb := []]
    ensures forall st: Stage :: st in bucket && bucket[st] == []
  {
    forall st: Stage ensures st in bucket && bucket[st] == [] {
      match st { case E2e => case Stt => case LlmTtft => case LlmTotal => case TtsTtfb => }
    }
  }

  lemma {:induction false} NoValues(recs: seq<Record>, grouped: bool, name: string)
    requires name !in Labels(recs, grouped)
    ensures forall st :: ValuesOf(recs, grouped, name, st) == []
  {
    if recs != [] { NoValues(recs[..|recs| - 1], grouped, name); }
  }

  // --- labels ------------------------------------------------------------------------

  /** Records without a value of the group field are together, the others by that value. */
  lemma SameLabelExactlyWhen(a: Record, b: Record)
    ensures Label(a, true) == Label(b, true) <==>
            a.group == b.group || (a.group in {"", "unknown"} && b.group in {"", "unknown"})
    ensures Label(a, true) == "unknown" <==> a.group in {"", "unknown"}
    ensures a.group != "" ==> Label(a, true) == a.group
    ensures Label(a, false) == "all"
  {
  }

  /** The record is of the group, or of none and the name is "unknown", and x is its value of the stage. */
  predicate Has(r: Record, name: string, stage: Stage, x: real) {
    (r.group == name || (r.group == "" && name == "unknown")) && stage in r.values && r.values[stage] == x
  }

  /** In a label's values each value occurs as often as the label's records have it. */
  lemma {:induction false} ValuesOfTheRecords(recs: seq<Record>, name: string, stage: Stage, x: real)
    requires name != ""
    ensures Percentiles.Count(ValuesOf(recs, true, name, stage), x)
         == |Places(recs, r => Has(r, name, stage, x))|
  {
    var p := r => Has(r, name, stage, x);
    if recs != [] {
      var n := |recs| - 1;
      ValuesOfTheRecords(recs[..n], name, stage, x);
      PlacesOfOneMore(recs, p);
      HasItsValue(recs[n], name, stage, x);
      CountOfConcat(ValuesOf(recs[..n], true, name, stage), recs[n], Label(recs[n], true) == name, stage, x);
    }
  }

  lemma HasItsValue(r: Record, name: string, stage: Stage, x: real)
    requires name != ""
    ensures Has(r, name, stage, x) <==> Label(r, true) == name && ValueOf(r, stage) == [x]
  {
    if stage in r.values { assert ValueOf(r, stage)[0] == r.values[stage]; }
  }

  lemma CountOfConcat(values: seq<real>, r: Record, mine: bool, stage: Stage, x: real)
    ensures Percentiles.Count(values + (if mine then ValueOf(r, stage) else []), x)
         == Percentiles.Count(values, x) + (if mine && ValueOf(r, stage) == [x] then 1 else 0)
  {
    if mine && stage in r.values {
      assert (values + [r.values[stage]])[..|values|] == values;
    } else {
      assert values + [] == values;
    }
  }

  // --- conservation ------------------------------------------------------------------

  /** The sum over the groups, each taken once, of their counts for a stage. */
  function GroupTotal(recs: seq<Record>, stage: Stage): int {
    Total(KeyOrder([], Labels(recs, true)), l => |ValuesOf(recs, true, l, stage)|)
  }

  /** Grouping loses and repeats nothing: over the groups, the counts of a stage add up to
      the ungrouped count. */
  lemma {:induction false} GroupCountsAddUp(recs: seq<Record>, stage: Stage)
    ensures GroupTotal(recs, stage) == |AllValues(recs, stage)|
  {
    if recs != [] {
      var n := |recs| - 1;
      GroupCountsAddUp(recs[..n], stage);
      CountsOfOneMore(recs[..n], recs[n], stage);
      assert recs == recs[..n] + [recs[n]];
    }
  }

  lemma CountsOfOneMore(recs: seq<Record>, r: Record, stage: Stage)
    ensures GroupTotal(recs + [r], stage) == GroupTotal(recs, stage) + |ValueOf(r, stage)|
  {
    var more, k := recs + [r], Label(r, true);
    var f := l => |ValuesOf(recs, true, l, stage)|;
    var g := l => |ValuesOf(more, true, l, stage)|;
    assert more[..|recs|] == recs;
    forall l ensures g(l) == f(l) + (if l == k then |ValueOf(r, stage)| else 0) {
      assert ValuesOf(more, true, l, stage)
          == ValuesOf(recs, true, l, stage) + (if k == l then ValueOf(r, stage) else []);
    }
    if k !in KeyOrder([], Labels(recs, true)) { NoValues(recs, true, k); }
    TotalOfOneMore([], Labels(recs, true), k, f, g, |ValueOf(r, stage)|);
  }

  lemma {:induction false} GroupValueIsAValue(recs: seq<Record>, stage: Stage, name: string, x: real)
    requires x in ValuesOf(recs, true, name, stage)
    ensures x in AllValues(recs, stage) && name in Labels(recs, true)
  {
    var n := |recs| - 1;
    if x in ValuesOf(recs[..n], true, name, stage) { GroupValueIsAValue(recs[..n], stage, name, x); }
  }

  lemma {:induction false} ValueHasAGroup(recs: seq<Record>, stage: Stage, x: real) returns (name: string)
    requires x in AllValues(recs, stage)
    ensures name in Labels(recs, true) && x in ValuesOf(recs, true, name, stage)
  {
    var n := |recs| - 1;
    if x in AllValues(recs[..n], stage) {
      name := ValueHasAGroup(recs[..n], stage, x);
    } else {
      name := Label(recs[n], true);
    }
  }

  /** The least of the groups' minima is the overall minimum: it is one of them, and none is
      below it; and likewise for the maxima. */
  lemma GroupExtremesCombine(recs: seq<Record>, stage: Stage, lo: real, hi: real)
    requires IsMin(AllValues(recs, stage), lo) && IsMax(AllValues(recs, stage), hi)
    ensures exists l | l in Labels(recs, true) :: IsMin(ValuesOf(recs, true, l, stage), lo)
    ensures exists l | l in Labels(recs, true) :: IsMax(ValuesOf(recs, true, l, stage), hi)
    ensures forall l, x | l in Labels(recs, true) && x in ValuesOf(recs, true, l, stage) :: lo <= x <= hi
  {
    forall l, x | l in Labels(recs, true) && x in ValuesOf(recs, true, l, stage) ensures lo <= x <= hi {
      GroupValueIsAValue(recs, stage, l, x);
    }
    var a := ValueHasAGroup(recs, stage, lo);
    var b := ValueHasAGroup(recs, stage, hi);
    var va, vb := ValuesOf(recs, true, a, stage), ValuesOf(recs, true, b, stage);
    assert forall k | 0 <= k < |va| :: va[k] in va;
    assert forall k | 0 <= k < |vb| :: vb[k] in vb;
    assert IsMin(va, lo) && IsMax(vb, hi);
  }
}
