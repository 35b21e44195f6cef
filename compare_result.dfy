/**
 * The two-handle comparison page: `safeProcess` turns one handle's profile, rating
 * history and submission list into a statistics record, and the page then lays the
 * two records' histograms on shared chart axes.
 */
module CompareResult {
  import opened Wrappers
  import opened Seqs
  import opened Histogram
  import opened Codeforces
  import Sorting
  import Text

  /**
   * The statistics record. `lastDate` is the last contest's `ratingUpdateTimeSeconds`;
   * `recentCount` is the size of the 45-day set, which the page divides by 45 for `avg45`.
   */
  datatype Stats = Stats(
    handle: string,
    avatar: string,
    rating: int,
    maxRating: int,
    rank: string,
    maxRank: string,
    contribution: int,
    organization: string,
    totalContests: nat,
    lastDate: Option<int>,
    solvedCount: nat,
    acceptance: int,
    recentCount: nat,
    ratingHist: seq<RatingChange>,
    ratingCounts: Counts<int>,
    tagCounts: Counts<string>)

  /** 45 days, in seconds. */
  const RecentWindow: int := 45 * 24 * 3600

  /** The record returned when the handle has no profile. */
  function DefaultStats(): Stats {
    Stats("N/A", "", 0, 0, "unrated", "unrated", 0, "", 0, None, 0, 0, 0, [], Empty(), Empty())
  }

  /** `avatar = info.avatar || info.titlePhoto || ""`, applied only when `avatar` is undefined. */
  function AvatarOf(p: Profile): string {
    match p.avatar
    case Some(a) => a
    case None => if TruthyText(p.titlePhoto) then p.titlePhoto.value else ""
  }

  /** An accepted submission whose problem has a truthy contest id and index. */
  predicate Counted(s: Submission) {
    && s.verdict == "OK"
    && s.problem.Some?
    && Truthy(s.problem.value.contestId)
    && TruthyText(s.problem.value.index)
  }

  /** `s.problem?.contestId + "-" + s.problem?.index`: the key `find` compares. */
  function LookupKey(s: Submission): Key {
    match s.problem
    case Some(p) => KeyOf(p)
    case None => Key(None, "undefined")
  }

  /** The key of every counted submission, in list order, repeats included. */
  function CountedKeys(subs: seq<Submission>): (r: seq<Key>)
    ensures |r| <= |subs|
  {
    if subs == [] then []
    else
      var s := subs[|subs| - 1];
      CountedKeys(subs[..|subs| - 1]) + (if Counted(s) then [LookupKey(s)] else [])
  }

  /** The keys of the counted submissions created at or after `cutoff`. */
  function RecentKeys(subs: seq<Submission>, cutoff: int): seq<Key> {
    if subs == [] then []
    else
      var s := subs[|subs| - 1];
      RecentKeys(subs[..|subs| - 1], cutoff)
        + (if Counted(s) && s.creationTimeSeconds >= cutoff then [LookupKey(s)] else [])
  }

  /** One more submission adds its key when it is counted. */
  lemma CountedSnoc(subs: seq<Submission>, i: int)
    requires 0 <= i < |subs|
    ensures CountedKeys(subs[..i + 1])
      == CountedKeys(subs[..i]) + (if Counted(subs[i]) then [LookupKey(subs[i])] else [])
  {
    assert subs[..i + 1][..i] == subs[..i];
  }

  /** One more submission adds its key when it is counted and recent. */
  lemma RecentSnoc(subs: seq<Submission>, cutoff: int, i: int)
    requires 0 <= i < |subs|
    ensures RecentKeys(subs[..i + 1], cutoff) == RecentKeys(subs[..i], cutoff)
      + (if Counted(subs[i]) && subs[i].creationTimeSeconds >= cutoff then [LookupKey(subs[i])] else [])
  {
    assert subs[..i + 1][..i] == subs[..i];
  }

  /** The Set `seen` of solved keys, in insertion order. */
  function Solved(subs: seq<Submission>): seq<Key> {
    Dedupe(CountedKeys(subs))
  }

  /** `subs.find(...)` on keys: the position of the first submission whose key is `key`. */
  function FindIndex(subs: seq<Submission>, key: Key): (r: Option<nat>)
    ensures r.Some? ==> r.value < |subs| && LookupKey(subs[r.value]) == key
    ensures r.Some? ==> forall j :: 0 <= j < r.value ==> LookupKey(subs[j]) != key
    ensures r.None? ==> forall j :: 0 <= j < |subs| ==> LookupKey(subs[j]) != key
  {
    if subs == [] then None
    else if LookupKey(subs[0]) == key then Some(0)
    else match FindIndex(subs[1..], key)
      case None => None
      case Some(i) => Some(i + 1)
  }

  /** `subs.find(...)?.problem`: the problem of the first submission with key `key`. */
  function Representative(subs: seq<Submission>, key: Key): Option<Problem> {
    match FindIndex(subs, key)
    case None => None
    case Some(i) => subs[i].problem
  }

  /** `sub?.problem?.rating || 0` for the first submission with key `key`. */
  function RepRating(subs: seq<Submission>, key: Key): int {
    match Representative(subs, key)
    case Some(p) => if Truthy(p.rating) then p.rating.value else 0
    case None => 0
  }

  /** `sub?.problem?.tags || []` for the first submission with key `key`. */
  function RepTags(subs: seq<Submission>, key: Key): seq<string> {
    match Representative(subs, key)
    case Some(p) => p.tags
    case None => []
  }

  /** The rating bucket of each key, in key order. */
  function RepRatings(subs: seq<Submission>, keys: seq<Key>): (r: seq<int>)
    ensures |r| == |keys|
  {
    if keys == [] then []
    else RepRatings(subs, keys[..|keys| - 1]) + [RepRating(subs, keys[|keys| - 1])]
  }

  /** The tags of each key's representative, one after another, in key order. */
  function RepTagList(subs: seq<Submission>, keys: seq<Key>): seq<string> {
    if keys == [] then []
    else RepTagList(subs, keys[..|keys| - 1]) + RepTags(subs, keys[|keys| - 1])
  }

  /**
   * `Math.round((ac / n) * 100)`, or 0 for an empty list: the nearest integer to
   * 100·ac/n, halves rounded up.
   */
  function Acceptance(ac: nat, n: nat): (r: int)
    ensures n == 0 ==> r == 0
    ensures n > 0 ==> 2 * n * r <= 200 * ac + n < 2 * n * r + 2 * n
    ensures ac <= n ==> 0 <= r <= 100
  {
    if n == 0 then 0
    else
      var d, a := 2 * n, 200 * ac + n;
      var q := a / d;
      DivBounds(a, d);
      ScaleLess(d, -1, q);
      if ac <= n then
        ScaleLess(d, q, 101);
        q
      else q
  }

  /** Euclidean division brackets its dividend. */
  lemma DivBounds(a: int, d: int)
    requires d > 0
    ensures d * (a / d) <= a < d * (a / d) + d
  {
  }

  /** A strict inequality between multiples of a positive number holds between the factors. */
  lemma ScaleLess(d: int, x: int, y: int)
    requires d > 0 && d * x < d * y
    ensures x < y
  {
  }

  /** `ratingHist[ratingHist.length - 1].ratingUpdateTimeSeconds`, or null for no contests. */
  function LastDate(ratingHist: seq<RatingChange>): (r: Option<int>)
    ensures r.None? <==> ratingHist == []
    ensures r.Some? ==> r.value == ratingHist[|ratingHist| - 1].ratingUpdateTimeSeconds
  {
    if |ratingHist| > 0 then Some(ratingHist[|ratingHist| - 1].ratingUpdateTimeSeconds) else None
  }

  /** The first loop of `safeProcess`: the accepted count and the Set of solved keys. */
  method CountAccepted(subs: seq<Submission>) returns (acCount: nat, seen: seq<Key>)
    ensures acCount == |CountedKeys(subs)|
    ensures seen == Solved(subs)
  {
    seen := [];
    acCount := 0;
    var i := 0;
    ghost var keys: seq<Key> := [];
    while i < |subs|
      invariant 0 <= i <= |subs|
      invariant keys == CountedKeys(subs[..i])
      invariant acCount == |keys|
      invariant seen == Dedupe(keys)
    {
      var s := subs[i];
      CountedSnoc(subs, i);
      if Counted(s) {
        acCount := acCount + 1;
        seen := SetAdd(seen, keys, LookupKey(s));
        keys := keys + [LookupKey(s)];
      }
      i := i + 1;
    }
    assert subs[..|subs|] == subs;
  }

  /** The second loop of `safeProcess`: the Set of keys solved at or after `cutoff`. */
  method CountRecent(subs: seq<Submission>, cutoff: int) returns (recent: seq<Key>)
    ensures recent == Dedupe(RecentKeys(subs, cutoff))
  {
    recent := [];
    var i := 0;
    ghost var keys: seq<Key> := [];
    while i < |subs|
      invariant 0 <= i <= |subs|
      invariant keys == RecentKeys(subs[..i], cutoff)
      invariant recent == Dedupe(keys)
    {
      var s := subs[i];
      RecentSnoc(subs, cutoff, i);
      if Counted(s) && s.creationTimeSeconds >= cutoff {
        recent := SetAdd(recent, keys, LookupKey(s));
        keys := keys + [LookupKey(s)];
      }
      i := i + 1;
    }
    assert subs[..|subs|] == subs;
  }

  /** The `seen.forEach` loop: one rating bucket and one tag list per solved key. */
  method CountBuckets(subs: seq<Submission>, seen: seq<Key>)
    returns (ratingCounts: Counts<int>, tagCounts: Counts<string>)
    ensures ratingCounts == Of(RepRatings(subs, seen))
    ensures tagCounts == Of(RepTagList(subs, seen))
  {
    ratingCounts := Empty();
    tagCounts := Empty();
    var j := 0;
    while j < |seen|
      invariant 0 <= j <= |seen|
      invariant ratingCounts == Of(RepRatings(subs, seen[..j]))
      invariant tagCounts == Of(RepTagList(subs, seen[..j]))
    {
      var key := seen[j];
      var sub := Representative(subs, key);
      var pr := 0;
      var tags: seq<string> := [];
      if sub.Some? {
        pr := if Truthy(sub.value.rating) then sub.value.rating.value else 0;
        tags := sub.value.tags;
      }
      RepSnoc(subs, seen, j);
      OfSnoc(RepRatings(subs, seen[..j]), pr);
      ratingCounts := Bump(ratingCounts, pr);
      tagCounts := BumpAll(tagCounts, RepTagList(subs, seen[..j]), tags);
      j := j + 1;
    }
    assert seen[..|seen|] == seen;
  }

  /** One more key adds its bucket and its tags at the end. */
  lemma RepSnoc(subs: seq<Submission>, keys: seq<Key>, j: int)
    requires 0 <= j < |keys|
    ensures RepRatings(subs, keys[..j + 1]) == RepRatings(subs, keys[..j]) + [RepRating(subs, keys[j])]
    ensures RepTagList(subs, keys[..j + 1]) == RepTagList(subs, keys[..j]) + RepTags(subs, keys[j])
  {
    assert keys[..j + 1][..j] == keys[..j];
  }

  /** `safeProcess(info, ratingHist, subs)` with the clock reading `now` (in seconds) passed in. */
  method SafeProcess(info: Option<Profile>, ratingHist: seq<RatingChange>, subs: seq<Submission>, now: int)
    returns (st: Stats)
    ensures info.None? ==> st == DefaultStats()
    ensures info.Some? ==> st == Stats(
      info.value.handle, AvatarOf(info.value),
      info.value.rating.GetOr(0), info.value.maxRating.GetOr(0),
      info.value.rank.GetOr("unrated"), info.value.maxRank.GetOr("unrated"),
      info.value.contribution.GetOr(0), info.value.organization.GetOr(""),
      |ratingHist|, LastDate(ratingHist),
      |Solved(subs)|, Acceptance(|CountedKeys(subs)|, |subs|),
      |Dedupe(RecentKeys(subs, now - RecentWindow))|,
      ratingHist,
      Of(RepRatings(subs, Solved(subs))),
      Of(RepTagList(subs, Solved(subs))))
  {
    if info.None? {
      return DefaultStats();
    }
    var p := info.value;
    var acCount, seen := CountAccepted(subs);
    var acceptance := Acceptance(acCount, |subs|);
    var recent := CountRecent(subs, now - RecentWindow);
    var lastDate := if |ratingHist| > 0 then Some(ratingHist[|ratingHist| - 1].ratingUpdateTimeSeconds) else None;
    var ratingCounts, tagCounts := CountBuckets(subs, seen);
    st := Stats(
      p.handle, AvatarOf(p), p.rating.GetOr(0), p.maxRating.GetOr(0),
      p.rank.GetOr("unrated"), p.maxRank.GetOr("unrated"), p.contribution.GetOr(0),
      p.organization.GetOr(""), |ratingHist|, lastDate, |seen|, acceptance,
      |recent|, ratingHist, ratingCounts, tagCounts);
  }

  /** Submission `i` is counted and carries key `k`. */
  predicate CountedAt(subs: seq<Submission>, i: int, k: Key) {
    0 <= i < |subs| && Counted(subs[i]) && LookupKey(subs[i]) == k
  }

  /** A key is listed by `CountedKeys` exactly when some counted submission carries it. */
  lemma {:induction false} CountedKeysMember(subs: seq<Submission>, k: Key)
    ensures k in CountedKeys(subs) <==> exists i :: CountedAt(subs, i, k)
  {
    if subs != [] {
      var p := subs[..|subs| - 1];
      CountedKeysMember(p, k);
      if k in CountedKeys(p) {
        var i :| CountedAt(p, i, k);
        assert CountedAt(subs, i, k);
      } else if k in CountedKeys(subs) {
        assert CountedAt(subs, |p|, k);
      }
      if exists i :: CountedAt(subs, i, k) {
        var i :| CountedAt(subs, i, k);
        if i < |p| {
          assert CountedAt(p, i, k);
        }
      }
    }
  }

  /** `seen` holds exactly the keys of the accepted submissions with a contest id and an index. */
  lemma SolvedMember(subs: seq<Submission>, k: Key)
    ensures k in Solved(subs) <==> exists i :: CountedAt(subs, i, k)
  {
    CountedKeysMember(subs, k);
  }

  /** `solvedCount` is the number of distinct counted keys. */
  lemma SolvedCount(subs: seq<Submission>)
    ensures |Solved(subs)| == |set k | k in CountedKeys(subs)|
    ensures |Solved(subs)| <= |CountedKeys(subs)| <= |subs|
  {
    DistinctCard(Solved(subs));
    assert (set k | k in Solved(subs)) == (set k | k in CountedKeys(subs));
  }

  /** Submission `i` is counted, carries `k` and was created at or after `cutoff`. */
  predicate RecentAt(subs: seq<Submission>, cutoff: int, i: int, k: Key) {
    CountedAt(subs, i, k) && subs[i].creationTimeSeconds >= cutoff
  }

  /** A key is listed by `RecentKeys` exactly when a counted submission created at or after `cutoff` carries it. */
  lemma {:induction false} RecentKeysMember(subs: seq<Submission>, cutoff: int, k: Key)
    ensures k in RecentKeys(subs, cutoff) <==> exists i :: RecentAt(subs, cutoff, i, k)
  {
    if subs != [] {
      var p, s := subs[..|subs| - 1], subs[|subs| - 1];
      var last := if Counted(s) && s.creationTimeSeconds >= cutoff then [LookupKey(s)] else [];
      assert RecentKeys(subs, cutoff) == RecentKeys(p, cutoff) + last;
      RecentKeysMember(p, cutoff, k);
      if k in RecentKeys(p, cutoff) {
        var i :| RecentAt(p, cutoff, i, k);
        assert p[i] == subs[i];
        assert RecentAt(subs, cutoff, i, k);
      } else if k in last {
        assert RecentAt(subs, cutoff, |p|, k);
      }
      if exists i :: RecentAt(subs, cutoff, i, k) {
        var i :| RecentAt(subs, cutoff, i, k);
        if i < |p| {
          assert p[i] == subs[i];
          assert RecentAt(p, cutoff, i, k);
        } else {
          assert k in last;
        }
      }
    }
  }

  /** Every recently solved key is a solved key, so the 45-day count never exceeds `solvedCount`. */
  lemma RecentWithinSolved(subs: seq<Submission>, cutoff: int)
    ensures forall k :: k in Dedupe(RecentKeys(subs, cutoff)) ==> k in Solved(subs)
    ensures |Dedupe(RecentKeys(subs, cutoff))| <= |Solved(subs)|
  {
    forall k | k in Dedupe(RecentKeys(subs, cutoff))
      ensures k in Solved(subs)
    {
      RecentKeysMember(subs, cutoff, k);
      SolvedMember(subs, k);
    }
    DistinctSubsetLength(Dedupe(RecentKeys(subs, cutoff)), Solved(subs));
  }

  /**
   * Every solved key finds a submission with a problem carrying that key. The first such
   * submission is the one found, whatever its verdict.
   */
  lemma SolvedRepresentative(subs: seq<Submission>, k: Key)
    requires k in Solved(subs)
    ensures FindIndex(subs, k).Some?
    ensures Representative(subs, k).Some? && KeyOf(Representative(subs, k).value) == k
  {
    SolvedMember(subs, k);
    var i :| CountedAt(subs, i, k);
    assert LookupKey(subs[i]) == k;
    assert k.contest.Some?;
  }

  /** One rating bucket per solved problem: the buckets hold `solvedCount` problems in all. */
  lemma RatingCountsTotal(subs: seq<Submission>)
    ensures Total(Of(RepRatings(subs, Solved(subs)))) == |Solved(subs)|
  {
    OfTotal(RepRatings(subs, Solved(subs)));
  }

  /** The keys whose representative problem has rating bucket `r`. */
  function RatedAs(subs: seq<Submission>, r: int): Key -> bool {
    k => RepRating(subs, k) == r
  }

  /** Bucket `r` counts the keys whose representative problem has rating `r` (0 for an unrated one). */
  lemma {:induction false} RatingBucket(subs: seq<Submission>, keys: seq<Key>, r: int)
    ensures Get(Of(RepRatings(subs, keys)), r) == |Filter(keys, RatedAs(subs, r))|
  {
    OfGet(RepRatings(subs, keys), r);
    RatingMultiplicity(subs, keys, r);
  }

  lemma {:induction false} RatingMultiplicity(subs: seq<Submission>, keys: seq<Key>, r: int)
    ensures multiset(RepRatings(subs, keys))[r] == |Filter(keys, RatedAs(subs, r))|
  {
    if keys != [] {
      var p := keys[..|keys| - 1];
      var k := keys[|keys| - 1];
      RatingMultiplicity(subs, p, r);
      assert keys == p + [k];
      assert multiset(RepRatings(subs, keys)) == multiset(RepRatings(subs, p)) + multiset{RepRating(subs, k)};
      FilterSnoc(p, k, RatedAs(subs, r));
      assert |Filter(keys, RatedAs(subs, r))| == |Filter(p, RatedAs(subs, r))| + (if RepRating(subs, k) == r then 1 else 0);
    }
  }

  /** The keys whose representative problem carries tag `t`. */
  function TaggedWith(subs: seq<Submission>, t: string): Key -> bool {
    k => t in RepTags(subs, k)
  }

  /**
   * When no problem lists a tag twice, the count under tag `t` is the number of keys whose
   * representative problem carries `t`.
   */
  lemma {:induction false} TagBucket(subs: seq<Submission>, keys: seq<Key>, t: string)
    requires forall i :: 0 <= i < |keys| ==> Distinct(RepTags(subs, keys[i]))
    ensures Get(Of(RepTagList(subs, keys)), t) == |Filter(keys, TaggedWith(subs, t))|
  {
    OfGet(RepTagList(subs, keys), t);
    TagMultiplicity(subs, keys, t);
  }

  lemma TagMultiplicity(subs: seq<Submission>, keys: seq<Key>, t: string)
    requires forall i :: 0 <= i < |keys| ==> Distinct(RepTags(subs, keys[i]))
    ensures multiset(RepTagList(subs, keys))[t] == |Filter(keys, TaggedWith(subs, t))|
  {
    RepTagListFlat(subs, keys);
    FlattenMultiplicity(keys, RepTagsOf(subs), t, TaggedWith(subs, t));
  }

  /** `RepTags` as a function of the key. */
  function RepTagsOf(subs: seq<Submission>): Key -> seq<string> {
    k => RepTags(subs, k)
  }

  /** The tag list is the flattened per-key tag lists. */
  lemma {:induction false} RepTagListFlat(subs: seq<Submission>, keys: seq<Key>)
    ensures RepTagList(subs, keys) == Flatten(keys, RepTagsOf(subs))
  {
    if keys != [] {
      RepTagListFlat(subs, keys[..|keys| - 1]);
    }
  }


  /** `i` is a position of `users` and no later user has the lower-cased handle `key`. */
  predicate NoneAfter(users: seq<Profile>, key: string, i: int) {
    0 <= i < |users| && forall j :: i < j < |users| ==> Text.ToLower(users[j].handle) != key
  }

  /** `mapInfo[h.toLowerCase()]` after the `forEach`: the last user whose lower-cased handle is `key`. */
  function LastWithHandle(users: seq<Profile>, key: string): (r: Option<Profile>)
    ensures r.Some? ==> r.value in users && Text.ToLower(r.value.handle) == key
    ensures r.None? ==> forall i :: 0 <= i < |users| ==> Text.ToLower(users[i].handle) != key
    ensures r.Some? ==> exists i :: NoneAfter(users, key, i) && users[i] == r.value
  {
    if users == [] then None
    else if Text.ToLower(users[|users| - 1].handle) == key then Some(users[|users| - 1])
    else
      NoneAfterPrefix(users, key);
      LastWithHandle(users[..|users| - 1], key)
  }

  /** When the last user does not have the handle, dropping it keeps every `NoneAfter` position. */
  lemma NoneAfterPrefix(users: seq<Profile>, key: string)
    requires users != [] && Text.ToLower(users[|users| - 1].handle) != key
    ensures forall i :: NoneAfter(users[..|users| - 1], key, i) ==>
      NoneAfter(users, key, i) && users[..|users| - 1][i] == users[i]
  {
  }

  /** The `forEach` filling `mapInfo`: later users overwrite earlier ones with the same handle. */
  method IndexByHandle(users: seq<Profile>) returns (m: map<string, Profile>)
    ensures forall key :: key in m <==> LastWithHandle(users, key).Some?
    ensures forall key :: key in m ==> m[key] == LastWithHandle(users, key).value
  {
    m := map[];
    var i := 0;
    while i < |users|
      invariant 0 <= i <= |users|
      invariant forall key :: key in m <==> LastWithHandle(users[..i], key).Some?
      invariant forall key :: key in m ==> m[key] == LastWithHandle(users[..i], key).value
    {
      assert users[..i + 1][..i] == users[..i];
      m := m[Text.ToLower(users[i].handle) := users[i]];
      i := i + 1;
    }
    assert users[..|users|] == users;
  }

  /** `mapInfo[h.toLowerCase()]`: the profile `safeProcess` receives for handle `h`. */
  method ProfileFor(users: seq<Profile>, h: string) returns (p: Option<Profile>)
    ensures p == LastWithHandle(users, Text.ToLower(h))
  {
    var m := IndexByHandle(users);
    var key := Text.ToLower(h);
    p := if key in m then Some(m[key]) else None;
  }

  /** `(a, b) => a - b` on ratings. */
  function Ascending(): (int, int) -> bool {
    Sorting.ByKey(x => x)
  }

  /** `allRatings`: the union of both users' rating buckets, numerically sorted. */
  function RatingAxis(a: Counts<int>, b: Counts<int>): seq<int> {
    Sorting.Sort(Dedupe(a.order + b.order), Ascending())
  }

  /** The rating axis lists every bucket of either user once, in strictly increasing order. */
  lemma RatingAxisSpec(a: Counts<int>, b: Counts<int>)
    ensures forall i, j :: 0 <= i < j < |RatingAxis(a, b)| ==> RatingAxis(a, b)[i] < RatingAxis(a, b)[j]
    ensures forall x :: x in RatingAxis(a, b) <==> x in a.order || x in b.order
  {
    var u := Dedupe(a.order + b.order);
    var r := RatingAxis(a, b);
    Sorting.ByKeyWeak<int>(x => x);
    Sorting.SortSorted(u, Ascending());
    Sorting.SortDistinct(u, Ascending());
    forall x
      ensures x in r <==> x in u
    {
      assert multiset(r)[x] == multiset(u)[x];
    }
  }

  /** The combined count of a tag over both users. */
  function Combined(a: Counts<string>, b: Counts<string>): string -> int {
    t => Get(b, t) + Get(a, t)
  }

  /** `allTags`: the union of both users' tags, by combined count, most frequent first. */
  function TagAxis(a: Counts<string>, b: Counts<string>): seq<string> {
    Sorting.Sort(Dedupe(a.order + b.order), Sorting.ByKeyDesc(Combined(a, b)))
  }

  /**
   * The tag axis lists every tag of either user once, by non-increasing combined count;
   * tags with equal counts keep the order in which the union first lists them.
   */
  lemma TagAxisSpec(a: Counts<string>, b: Counts<string>, z: string)
    ensures Distinct(TagAxis(a, b))
    ensures forall x :: x in TagAxis(a, b) <==> x in a.order || x in b.order
    ensures forall i, j :: 0 <= i < j < |TagAxis(a, b)| ==>
      Combined(a, b)(TagAxis(a, b)[i]) >= Combined(a, b)(TagAxis(a, b)[j])
    ensures Filter(TagAxis(a, b), Sorting.TiedWith(Sorting.ByKeyDesc(Combined(a, b)), z))
      == Filter(Dedupe(a.order + b.order), Sorting.TiedWith(Sorting.ByKeyDesc(Combined(a, b)), z))
  {
    var u := Dedupe(a.order + b.order);
    var lt := Sorting.ByKeyDesc(Combined(a, b));
    var r := TagAxis(a, b);
    Sorting.ByKeyDescWeak(Combined(a, b));
    Sorting.SortSorted(u, lt);
    Sorting.SortDistinct(u, lt);
    Sorting.SortStable(u, lt, z);
    forall x
      ensures x in r <==> x in u
    {
      assert multiset(r)[x] == multiset(u)[x];
    }
  }
}
