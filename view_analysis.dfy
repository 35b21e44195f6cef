/**
 * The single-handle analysis page: one pass over the submission list fills a verdict
 * histogram, the Set of solved keys and the level and tag histograms of the solved
 * problems; small helpers format verdicts and contest names and pick the top tags.
 */
module ViewAnalysis {
  import opened Wrappers
  import opened Seqs
  import opened Histogram
  import opened Codeforces
  import Sorting

  /** The four results of the aggregation loop. */
  datatype Analysis = Analysis(
    solved: seq<Key>,
    levelCounts: Counts<int>,
    verdictCounts: Counts<string>,
    tagCounts: Counts<string>)

  /** An accepted submission of a problem with a truthy rating. */
  predicate Credited(s: Submission) {
    s.verdict == "OK" && s.problem.Some? && Truthy(s.problem.value.rating)
  }

  /** Every submission has a `problem`; otherwise building the key throws. */
  predicate AllHaveProblems(subs: seq<Submission>) {
    forall i :: 0 <= i < |subs| ==> subs[i].problem.Some?
  }

  /** The keys of the credited submissions, in list order, repeats included. */
  function CreditedKeys(subs: seq<Submission>): seq<Key> {
    if subs == [] then []
    else
      var s := subs[|subs| - 1];
      CreditedKeys(subs[..|subs| - 1]) + (if Credited(s) then [KeyOf(s.problem.value)] else [])
  }

  /** `solvedSet`: the credited keys in order of first occurrence. */
  function SolvedSet(subs: seq<Submission>): seq<Key> {
    Dedupe(CreditedKeys(subs))
  }

  /** The credited submissions whose key was not credited before: the ones that add to `solvedSet`. */
  function FirstSolves(subs: seq<Submission>): (r: seq<Submission>)
    ensures forall i :: 0 <= i < |r| ==> Credited(r[i])
  {
    if subs == [] then []
    else
      var s := subs[|subs| - 1];
      var p := subs[..|subs| - 1];
      FirstSolves(p) + (if Credited(s) && KeyOf(s.problem.value) !in CreditedKeys(p) then [s] else [])
  }

  /** `problem.rating` of a credited submission. */
  function Level(s: Submission): int {
    if s.problem.Some? then s.problem.value.rating.GetOr(0) else 0
  }

  /** `problem.tags` of a submission; none without a problem. */
  function Tags(s: Submission): seq<string> {
    if s.problem.Some? then s.problem.value.tags else []
  }

  /** The ratings of the given submissions, one each. */
  function Levels(subs: seq<Submission>): (r: seq<int>)
    ensures |r| == |subs|
  {
    if subs == [] then [] else Levels(subs[..|subs| - 1]) + [Level(subs[|subs| - 1])]
  }

  /** The tags of the given submissions, one problem after another. */
  function TagsOf(subs: seq<Submission>): seq<string> {
    if subs == [] then [] else TagsOf(subs[..|subs| - 1]) + Tags(subs[|subs| - 1])
  }

  /** The verdict of every submission, in list order. */
  function Verdicts(subs: seq<Submission>): (r: seq<string>)
    ensures |r| == |subs|
  {
    if subs == [] then [] else Verdicts(subs[..|subs| - 1]) + [subs[|subs| - 1].verdict]
  }

  /** What the loop leaves behind when every submission has a problem. */
  function Expected(subs: seq<Submission>): Analysis {
    Analysis(
      SolvedSet(subs),
      Of(Levels(FirstSolves(subs))),
      Of(Verdicts(subs)),
      Of(TagsOf(FirstSolves(subs))))
  }

  lemma FirstSolvesSnoc(p: seq<Submission>, s: Submission)
    ensures
      var isNew := Credited(s) && KeyOf(s.problem.value) !in SolvedSet(p);
      && FirstSolves(p + [s]) == FirstSolves(p) + (if isNew then [s] else [])
      && SolvedSet(p + [s]) == SolvedSet(p) + (if isNew then [KeyOf(s.problem.value)] else [])
  {
    var q := p + [s];
    assert q[..|p|] == p;
    if Credited(s) {
      assert CreditedKeys(q) == CreditedKeys(p) + [KeyOf(s.problem.value)];
      DedupeSnoc(CreditedKeys(p), KeyOf(s.problem.value));
    } else {
      assert CreditedKeys(q) == CreditedKeys(p);
    }
  }

  lemma LevelsSnoc(f: seq<Submission>, s: Submission)
    ensures Levels(f + [s]) == Levels(f) + [Level(s)]
    ensures TagsOf(f + [s]) == TagsOf(f) + Tags(s)
    ensures Verdicts(f + [s]) == Verdicts(f) + [s.verdict]
  {
    assert (f + [s])[..|f|] == f;
  }

  /** One iteration of the `forEach`, for a submission that has a problem. */
  method Step(a: Analysis, ghost p: seq<Submission>, s: Submission) returns (b: Analysis)
    requires s.problem.Some?
    requires a == Expected(p)
    ensures b.solved == SolvedSet(p + [s])
    ensures b.levelCounts == Of(Levels(FirstSolves(p + [s])))
    ensures b.verdictCounts == Of(Verdicts(p + [s]))
    ensures b.tagCounts == Of(TagsOf(FirstSolves(p + [s])))
    ensures b == Expected(p + [s])
  {
    FirstSolvesSnoc(p, s);
    ghost var f := FirstSolves(p);
    LevelsSnoc(f, s);
    LevelsSnoc(p, s);
    var problem := s.problem.value;
    var key := KeyOf(problem);
    var solved, levelCounts, tagCounts := a.solved, a.levelCounts, a.tagCounts;
    assert solved == SolvedSet(p) && levelCounts == Of(Levels(f)) && tagCounts == Of(TagsOf(f));
    if s.verdict == "OK" && Truthy(problem.rating) && key !in solved {
      solved := solved + [key];
      assert FirstSolves(p + [s]) == f + [s];
      assert Level(s) == problem.rating.value;
      OfSnoc(Levels(f), problem.rating.value);
      levelCounts := Bump(levelCounts, problem.rating.value);
      tagCounts := BumpAll(tagCounts, TagsOf(f), problem.tags);
    } else {
      assert FirstSolves(p + [s]) == f;
    }
    OfSnoc(Verdicts(p), s.verdict);
    b := Analysis(solved, levelCounts, Bump(a.verdictCounts, s.verdict), tagCounts);
  }

  /**
   * The `forEach` over `submissionsJson.result`. A submission without a problem makes the
   * key expression throw, and the page shows its error message instead: `None`.
   */
  method Aggregate(subs: seq<Submission>) returns (r: Option<Analysis>)
    ensures r.None? <==> !AllHaveProblems(subs)
    ensures r.Some? ==> r.value == Expected(subs)
  {
    var a := Analysis([], Empty(), Empty(), Empty());
    var i := 0;
    ghost var done: seq<Submission> := [];
    ExpectedEmpty();
    while i < |subs|
      invariant 0 <= i <= |subs|
      invariant done == subs[..i]
      invariant AllHaveProblems(done)
      invariant a == Expected(done)
    {
      if subs[i].problem.None? {
        assert !AllHaveProblems(subs) by {
          assert subs[i].problem.None?;
        }
        return None;
      }
      a := Step(a, done, subs[i]);
      assert subs[..i + 1] == done + [subs[i]];
      done := done + [subs[i]];
      i := i + 1;
    }
    assert done == subs;
    return Some(a);
  }

  /** Before the loop: an empty solved set and empty histograms. */
  lemma ExpectedEmpty()
    ensures Expected([]) == Analysis([], Empty(), Empty(), Empty())
  {
  }

  /** Submission `i` is credited and carries key `k`. */
  predicate CreditedAt(subs: seq<Submission>, i: int, k: Key) {
    0 <= i < |subs| && Credited(subs[i]) && KeyOf(subs[i].problem.value) == k
  }

  /**
   * A key enters `solvedSet` at most once, and it is there exactly when some accepted
   * submission of a rated problem carries it: a solve of an unrated problem never counts.
   */
  lemma {:induction false} SolvedSetSpec(subs: seq<Submission>, k: Key)
    ensures Distinct(SolvedSet(subs))
    ensures k in SolvedSet(subs) <==> exists i :: CreditedAt(subs, i, k)
  {
    if subs != [] {
      var p := subs[..|subs| - 1];
      SolvedSetSpec(p, k);
      assert subs == p + [subs[|subs| - 1]];
      if k in CreditedKeys(p) {
        var i :| CreditedAt(p, i, k);
        assert CreditedAt(subs, i, k);
      } else if k in CreditedKeys(subs) {
        assert CreditedAt(subs, |p|, k);
      }
      if exists i :: CreditedAt(subs, i, k) {
        var i :| CreditedAt(subs, i, k);
        if i < |p| {
          assert CreditedAt(p, i, k);
        }
      }
    }
  }

  /** The key of a submission's problem. */
  function SubmissionKey(s: Submission): Key {
    if s.problem.Some? then KeyOf(s.problem.value) else Key(None, "undefined")
  }

  /** The keys of a list of submissions. */
  function KeysOf(subs: seq<Submission>): (r: seq<Key>)
    ensures |r| == |subs|
  {
    if subs == [] then [] else KeysOf(subs[..|subs| - 1]) + [SubmissionKey(subs[|subs| - 1])]
  }

  /** The submissions that add to `solvedSet` carry its keys, one each and in order. */
  lemma {:induction false} FirstSolvesKeys(subs: seq<Submission>)
    ensures KeysOf(FirstSolves(subs)) == SolvedSet(subs)
  {
    if subs != [] {
      var p := subs[..|subs| - 1];
      var s := subs[|subs| - 1];
      FirstSolvesKeys(p);
      assert subs == p + [s];
      if s.problem.Some? {
        FirstSolvesSnoc(p, s);
        var f := FirstSolves(p);
        if Credited(s) && KeyOf(s.problem.value) !in SolvedSet(p) {
          assert (f + [s])[..|f|] == f;
          assert KeysOf(f + [s]) == KeysOf(f) + [KeyOf(s.problem.value)];
          assert FirstSolves(subs) == f + [s];
          assert SolvedSet(subs) == SolvedSet(p) + [KeyOf(s.problem.value)];
        } else {
          assert FirstSolves(subs) == f;
          assert SolvedSet(subs) == SolvedSet(p);
        }
      } else {
        assert CreditedKeys(subs) == CreditedKeys(p);
        assert FirstSolves(subs) == FirstSolves(p);
      }
    }
  }

  /** `Object.values(data).reduce((acc, curr) => acc + curr, 0)`. */
  function CalculateTotal<K>(data: Counts<K>): (r: nat)
    ensures data.order == [] ==> r == 0
  {
    Total(data)
  }

  /** Every submission lands in exactly one verdict bucket: the verdict total is the submission count. */
  lemma VerdictTotal(subs: seq<Submission>)
    ensures CalculateTotal(Of(Verdicts(subs))) == |subs|
  {
    OfTotal(Verdicts(subs));
  }

  /** The submissions with verdict `v`. */
  function HasVerdict(v: string): Submission -> bool {
    (s: Submission) => s.verdict == v
  }

  /** Bucket `v` holds the number of submissions with verdict `v`. */
  lemma {:induction false} VerdictBucket(subs: seq<Submission>, v: string)
    ensures Get(Of(Verdicts(subs)), v) == |Filter(subs, HasVerdict(v))|
  {
    OfGet(Verdicts(subs), v);
    VerdictMultiplicity(subs, v);
  }

  lemma {:induction false} VerdictMultiplicity(subs: seq<Submission>, v: string)
    ensures multiset(Verdicts(subs))[v] == |Filter(subs, HasVerdict(v))|
  {
    if subs != [] {
      var p := subs[..|subs| - 1];
      VerdictMultiplicity(p, v);
      assert subs == p + [subs[|subs| - 1]];
      FilterSnoc(p, subs[|subs| - 1], HasVerdict(v));
    }
  }

  /** The level histogram holds one entry per solved key: its total is the shown "Problems Solved". */
  lemma LevelTotal(subs: seq<Submission>)
    ensures CalculateTotal(Of(Levels(FirstSolves(subs)))) == |SolvedSet(subs)|
  {
    OfTotal(Levels(FirstSolves(subs)));
    FirstSolvesKeys(subs);
  }

  /** The submissions whose problem has rating `r`. */
  function RatedAt(r: int): Submission -> bool {
    (s: Submission) => Level(s) == r
  }

  /**
   * Bucket `r` counts the first solves of problems rated `r`; no solved problem lands
   * in a bucket 0.
   */
  lemma LevelBucket(subs: seq<Submission>, r: int)
    ensures Get(Of(Levels(FirstSolves(subs))), r) == |Filter(FirstSolves(subs), RatedAt(r))|
    ensures Get(Of(Levels(FirstSolves(subs))), 0) == 0
  {
    var f := FirstSolves(subs);
    OfGet(Levels(f), r);
    LevelMultiplicity(f, r);
    OfGet(Levels(f), 0);
    LevelMultiplicity(f, 0);
    NoLevelZero(f);
  }

  /** Credited submissions have non-zero ratings, so none is rated 0. */
  lemma NoLevelZero(f: seq<Submission>)
    requires forall i :: 0 <= i < |f| ==> Credited(f[i])
    ensures Filter(f, RatedAt(0)) == []
  {
  }

  lemma {:induction false} LevelMultiplicity(f: seq<Submission>, r: int)
    ensures multiset(Levels(f))[r] == |Filter(f, RatedAt(r))|
  {
    if f != [] {
      var p := f[..|f| - 1];
      LevelMultiplicity(p, r);
      assert f == p + [f[|f| - 1]];
      FilterSnoc(p, f[|f| - 1], RatedAt(r));
    }
  }

  /** The submissions whose problem carries tag `t`. */
  function Tagged(t: string): Submission -> bool {
    (s: Submission) => t in Tags(s)
  }

  /**
   * When no problem lists a tag twice, the count under tag `t` is the number of first
   * solves whose problem carries `t`; other submissions never touch the tag counts.
   */
  lemma {:induction false} TagBucket(f: seq<Submission>, t: string)
    requires forall i :: 0 <= i < |f| ==> Distinct(Tags(f[i]))
    ensures Get(Of(TagsOf(f)), t) == |Filter(f, Tagged(t))|
  {
    OfGet(TagsOf(f), t);
    TagMultiplicity(f, t);
  }

  lemma TagMultiplicity(f: seq<Submission>, t: string)
    requires forall i :: 0 <= i < |f| ==> Distinct(Tags(f[i]))
    ensures multiset(TagsOf(f))[t] == |Filter(f, Tagged(t))|
  {
    TagsOfFlat(f);
    FlattenMultiplicity(f, Tags, t, Tagged(t));
  }

  /** The tag list is the flattened per-submission tag lists. */
  lemma {:induction false} TagsOfFlat(f: seq<Submission>)
    ensures TagsOf(f) == Flatten(f, Tags)
  {
    if f != [] {
      TagsOfFlat(f[..|f| - 1]);
    }
  }


  /** `contestName.substring(0, 20) + (contestName.length > 20 ? '...' : '')`. */
  function ContestLabel(name: string): (r: string)
    ensures |r| == if |name| <= 20 then |name| else 23
    ensures |name| <= 20 ==> r == name
    ensures |name| > 20 ==> r[..20] == name[..20] && r[20..] == "..."
  {
    if |name| > 20 then name[..20] + "..." else name
  }

  /** A name is its own label exactly when it fits in 20 characters or already reads as a truncation. */
  lemma ContestLabelFixed(name: string)
    ensures ContestLabel(name) == name <==> |name| <= 20 || (|name| == 23 && name[20..] == "...")
  {
    if |name| > 20 && ContestLabel(name) == name {
      assert name == name[..20] + name[20..];
      assert name[20..] == ContestLabel(name)[20..];
    }
    if |name| == 23 && name[20..] == "..." {
      assert name == name[..20] + name[20..];
    }
  }

  /** The chart labels, one per rated contest. */
  function ContestLabels(hist: seq<RatingChange>): (r: seq<string>)
    ensures |r| == |hist|
    ensures forall i :: 0 <= i < |hist| ==> r[i] == ContestLabel(hist[i].contestName)
  {
    seq(|hist|, i requires 0 <= i < |hist| => ContestLabel(hist[i].contestName))
  }

  /** `verdictMap` of `formatVerdict`. */
  const VerdictLabels: map<string, string> := map[
    "OK" := "Accepted",
    "WRONG_ANSWER" := "Wrong Answer",
    "TIME_LIMIT_EXCEEDED" := "Time Limit",
    "MEMORY_LIMIT_EXCEEDED" := "Memory Limit",
    "RUNTIME_ERROR" := "Runtime Error",
    "COMPILATION_ERROR" := "Compilation Error",
    "SKIPPED" := "Skipped",
    "CHALLENGED" := "Challenged",
    "PARTIAL" := "Partial",
    "REJECTED" := "Rejected"]

  /** `verdictMap[verdict] || verdict`. */
  function FormatVerdict(verdict: string): string {
    if verdict in VerdictLabels && VerdictLabels[verdict] != "" then VerdictLabels[verdict] else verdict
  }

  /** The ten known codes get their labels; any other verdict is shown as it is. */
  lemma FormatVerdictSpec(verdict: string)
    ensures verdict in VerdictLabels ==> FormatVerdict(verdict) == VerdictLabels[verdict]
    ensures FormatVerdict(verdict) == verdict <==> verdict !in VerdictLabels
    ensures FormatVerdict("WRONG_ANSWER") == "Wrong Answer" && FormatVerdict("OK") == "Accepted"
  {
  }

  /** The count of an entry of `Object.entries(tagData)`. */
  function EntryCount(e: (string, nat)): int {
    e.1
  }

  /** `(a, b) => b[1] - a[1]`. */
  function ByCountDesc(): ((string, nat), (string, nat)) -> bool {
    Sorting.ByKeyDesc(EntryCount)
  }

  /** `getTopTags`: the entries sorted by descending count, cut to the first five. */
  function TopTags(tagData: Counts<string>): seq<(string, nat)> {
    var sorted := Sorting.Sort(Entries(tagData), ByCountDesc());
    if |sorted| <= 5 then sorted else sorted[..5]
  }

  /** At most five entries, each a tag of `tagData` with its count, in non-increasing count order. */
  lemma TopTagsSpec(tagData: Counts<string>)
    ensures |TopTags(tagData)| == if |tagData.order| < 5 then |tagData.order| else 5
    ensures forall i :: 0 <= i < |TopTags(tagData)| ==>
      TopTags(tagData)[i].0 in tagData.order && TopTags(tagData)[i].1 == Get(tagData, TopTags(tagData)[i].0)
    ensures forall i, j :: 0 <= i < j < |TopTags(tagData)| ==> TopTags(tagData)[i].1 >= TopTags(tagData)[j].1
    ensures multiset(TopTags(tagData)) <= multiset(Entries(tagData))
  {
    var es := Entries(tagData);
    var sorted := Sorting.Sort(es, ByCountDesc());
    var r := TopTags(tagData);
    Sorting.ByKeyDescWeak(EntryCount);
    Sorting.SortSorted(es, ByCountDesc());
    assert forall i :: 0 <= i < |r| ==> r[i] == sorted[i];
    if |sorted| > 5 {
      assert sorted == sorted[..5] + sorted[5..];
    }
    forall i, j | 0 <= i < j < |r|
      ensures r[i].1 >= r[j].1
    {
      assert !ByCountDesc()(sorted[j], sorted[i]);
      assert EntryCount(sorted[j]) <= EntryCount(sorted[i]);
    }
    forall i | 0 <= i < |r|
      ensures r[i].0 in tagData.order && r[i].1 == Get(tagData, r[i].0)
    {
      assert multiset(sorted)[r[i]] == multiset(es)[r[i]];
      assert r[i] in es;
    }
  }

  /**
   * Equal counts keep their `Object.entries` order: the entries shown with any given
   * count are the first ones of that count in key order.
   */
  lemma TopTagsStable(tagData: Counts<string>, z: (string, nat))
    ensures Filter(TopTags(tagData), Sorting.TiedWith(ByCountDesc(), z))
         <= Filter(Entries(tagData), Sorting.TiedWith(ByCountDesc(), z))
  {
    var es := Entries(tagData);
    var sorted := Sorting.Sort(es, ByCountDesc());
    Sorting.ByKeyDescWeak(EntryCount);
    Sorting.SortStable(es, ByCountDesc(), z);
    if |sorted| > 5 {
      FilterPrefix(sorted, 5, Sorting.TiedWith(ByCountDesc(), z));
    }
  }

  /** No tag left out of the top five has a larger count than one chosen. */
  lemma TopTagsBest(tagData: Counts<string>, t: string, i: int)
    requires t in tagData.order && (t, Get(tagData, t)) !in TopTags(tagData)
    requires 0 <= i < |TopTags(tagData)|
    ensures Get(tagData, t) <= TopTags(tagData)[i].1
  {
    var es := Entries(tagData);
    var sorted := Sorting.Sort(es, ByCountDesc());
    var r := TopTags(tagData);
    Sorting.ByKeyDescWeak(EntryCount);
    Sorting.SortSorted(es, ByCountDesc());
    var e := (t, Get(tagData, t));
    var k :| 0 <= k < |tagData.order| && tagData.order[k] == t;
    assert es[k] == e;
    assert multiset(sorted)[e] == multiset(es)[e];
    assert e in sorted;
    var j :| 0 <= j < |sorted| && sorted[j] == e;
    assert r[i] == sorted[i];
    assert !ByCountDesc()(sorted[j], sorted[i]);
    assert EntryCount(sorted[j]) <= EntryCount(sorted[i]);
  }

  /** `Object.keys(levelData).sort((a, b) => Number(a) - Number(b))`. */
  function LevelAxis(levelData: Counts<int>): seq<int> {
    Sorting.Sort(levelData.order, Sorting.ByKey(x => x))
  }

  /** The level axis lists each solved rating once, in strictly increasing order. */
  lemma LevelAxisSpec(levelData: Counts<int>)
    requires WellFormed(levelData)
    ensures forall x :: x in LevelAxis(levelData) <==> x in levelData.order
    ensures forall i, j :: 0 <= i < j < |LevelAxis(levelData)| ==> LevelAxis(levelData)[i] < LevelAxis(levelData)[j]
  {
    var r := LevelAxis(levelData);
    Sorting.ByKeyWeak<int>(x => x);
    Sorting.SortSorted(levelData.order, Sorting.ByKey(x => x));
    Sorting.SortDistinct(levelData.order, Sorting.ByKey(x => x));
    forall x
      ensures x in r <==> x in levelData.order
    {
      assert multiset(r)[x] == multiset(levelData.order)[x];
    }
  }
}
