/**
 * The resume controller of the backend: the upload handler's decision
 * logic, and the dashboard and analytics reductions over a user's records.
 * Extraction, scoring, the clock, the store's availability and the socket
 * server are inputs.
 */
module ResumeController {
  import opened Wrappers
  import opened Models
  import Arith

  // ---------------------------------------------------------------------
  // Rounding and averages
  // ---------------------------------------------------------------------

  /**
   * `Math.round(n / d)` for a positive divisor: the nearest integer, a half
   * rounded up. The source divides in floating point first.
   */
  function RoundDiv(n: int, d: int): (r: int)
    requires d > 0
    ensures 2 * (d * r) - d <= 2 * n < 2 * (d * r) + d
  {
    Arith.DivBounds(2 * n + d, 2 * d);
    (2 * n + d) / (2 * d)
  }

  /** A rounded quotient stays within any bounds the exact quotient respects. */
  lemma RoundDivBetween(n: int, d: int, lo: int, hi: int)
    requires d > 0 && d * lo <= n <= d * hi
    ensures lo <= RoundDiv(n, d) <= hi
  {
    RoundDivAtLeast(n, d, lo);
    RoundDivAtMost(n, d, hi);
  }

  lemma RoundDivAtLeast(n: int, d: int, lo: int)
    requires d > 0 && d * lo <= n
    ensures lo <= RoundDiv(n, d)
  {
    var r := RoundDiv(n, d);
    if r < lo {
      Arith.MulMono(d, r + 1, lo);
    }
  }

  lemma RoundDivAtMost(n: int, d: int, hi: int)
    requires d > 0 && n <= d * hi
    ensures RoundDiv(n, d) <= hi
  {
    var r := RoundDiv(n, d);
    if r > hi {
      Arith.MulMono(d, hi + 1, r);
    }
  }

  /** The rounded quotient of an exact multiple is the exact quotient. */
  lemma RoundDivExact(c: int, d: int)
    requires d > 0
    ensures RoundDiv(d * c, d) == c
  {
    RoundDivBetween(d * c, d, c, c);
  }

  /** `Math.round((end - start) / 1000)`: the elapsed seconds, rounded. */
  function ProcessingTime(start: int, end: int): (r: int)
    ensures start <= end ==> r >= 0
    ensures 2000 * r - 1000 <= 2 * (end - start) < 2000 * r + 1000
  {
    var r := RoundDiv(end - start, 1000);
    assert start <= end ==> r >= 0 by {
      if start <= end {
        RoundDivBetween(end - start, 1000, 0, end - start);
      }
    }
    r
  }

  /** `rs.reduce((s, r) => s + f(r), 0)` */
  function Sum(rs: seq<Resume>, f: Resume -> int): int {
    if rs == [] then 0 else Sum(rs[..|rs| - 1], f) + f(rs[|rs| - 1])
  }

  /** A sum of values between `lo` and `hi` lies between `|rs|·lo` and `|rs|·hi`. */
  lemma {:induction false} SumBounds(rs: seq<Resume>, f: Resume -> int, lo: int, hi: int)
    requires forall i :: 0 <= i < |rs| ==> lo <= f(rs[i]) <= hi
    ensures |rs| * lo <= Sum(rs, f) <= |rs| * hi
  {
    if rs != [] {
      SumBounds(rs[..|rs| - 1], f, lo, hi);
    }
  }

  /** A sum over a concatenation is the sum of the sums. */
  lemma {:induction false} SumAppend(a: seq<Resume>, b: seq<Resume>, f: Resume -> int)
    ensures Sum(a + b, f) == Sum(a, f) + Sum(b, f)
    decreases |b|
  {
    if b == [] {
      assert a + b == a;
    } else {
      var b' := b[..|b| - 1];
      assert (a + b)[..|a + b| - 1] == a + b';
      SumAppend(a, b', f);
    }
  }

  /** Reordering the records does not change a sum over them. */
  lemma {:induction false} SumPermutation(xs: seq<Resume>, ys: seq<Resume>, f: Resume -> int)
    requires multiset(xs) == multiset(ys)
    ensures Sum(xs, f) == Sum(ys, f)
    decreases |xs|
  {
    if xs != [] {
      var x := xs[|xs| - 1];
      var init := xs[..|xs| - 1];
      assert xs == init + [x];
      assert multiset(init) == multiset(xs) - multiset{x};
      assert x in multiset(ys);
      var k :| 0 <= k < |ys| && ys[k] == x;
      var rest := ys[..k] + ys[k + 1..];
      RemoveAt(ys, k);
      SumPermutation(init, rest, f);
      SumRemoveAt(ys, k, f);
    }
  }

  /** Taking out the record at `k` takes one copy of it out of the multiset. */
  lemma RemoveAt(ys: seq<Resume>, k: nat)
    requires k < |ys|
    ensures multiset(ys[..k] + ys[k + 1..]) == multiset(ys) - multiset{ys[k]}
  {
    assert ys == ys[..k] + [ys[k]] + ys[k + 1..];
  }

  /** The sum with the record at `k` taken out, plus that record. */
  lemma SumRemoveAt(ys: seq<Resume>, k: nat, f: Resume -> int)
    requires k < |ys|
    ensures Sum(ys, f) == Sum(ys[..k] + ys[k + 1..], f) + f(ys[k])
  {
    var x := ys[k];
    assert ys == ys[..k] + [x] + ys[k + 1..];
    SumAppend(ys[..k] + [x], ys[k + 1..], f);
    SumAppend(ys[..k], [x], f);
    SumAppend(ys[..k], ys[k + 1..], f);
    assert Sum([x], f) == f(x) by {
      assert [x][..0] == [];
    }
  }

  /**
   * The rounded average of `f` over `rs`, 0 for no records: `avgScore`,
   * `avgTime` and `avgProcessingTime`.
   */
  function Average(rs: seq<Resume>, f: Resume -> int): (r: int)
    ensures rs == [] ==> r == 0
    ensures rs != [] ==> 2 * (|rs| * r) - |rs| <= 2 * Sum(rs, f) < 2 * (|rs| * r) + |rs|
  {
    if |rs| == 0 then 0 else RoundDiv(Sum(rs, f), |rs|)
  }

  /**
   * An average of values between `lo` and `hi` lies between them; with no
   * records the average is 0, so the bounds must then admit 0.
   */
  lemma AverageBounds(rs: seq<Resume>, f: Resume -> int, lo: int, hi: int)
    requires rs != [] || lo <= 0 <= hi
    requires forall i :: 0 <= i < |rs| ==> lo <= f(rs[i]) <= hi
    ensures lo <= Average(rs, f) <= hi
  {
    SumBounds(rs, f, lo, hi);
    if rs != [] {
      RoundDivBetween(Sum(rs, f), |rs|, lo, hi);
    }
  }

  /** Records whose values all equal `v` average to exactly `v`. */
  lemma AverageOfConstant(rs: seq<Resume>, f: Resume -> int, v: int)
    requires rs != []
    requires forall i :: 0 <= i < |rs| ==> f(rs[i]) == v
    ensures Average(rs, f) == v
  {
    SumBounds(rs, f, v, v);
    RoundDivExact(v, |rs|);
  }

  /** A record's score. */
  function ScoreOf(r: Resume): int { r.score }

  /** A record's processing time. */
  function TimeOf(r: Resume): int { r.processingTime }

  // ---------------------------------------------------------------------
  // Top skills
  // ---------------------------------------------------------------------

  /** How many times `s` appears in `xs`. */
  function CountIn(xs: seq<string>, s: string): nat {
    if xs == [] then 0 else CountIn(xs[..|xs| - 1], s) + (if xs[|xs| - 1] == s then 1 else 0)
  }

  /** How many times `s` appears across the skill lists of all records. */
  function Occurrences(rs: seq<Resume>, s: string): nat {
    if rs == [] then 0 else Occurrences(rs[..|rs| - 1], s) + CountIn(rs[|rs| - 1].skills, s)
  }

  /**
   * `skillMap`, filled by the two nested `forEach` loops: one key per skill
   * string that occurs in some record, counting every occurrence.
   */
  method CountSkills(rs: seq<Resume>) returns (skillMap: map<string, nat>)
    ensures forall s :: s in skillMap <==> Occurrences(rs, s) > 0
    ensures forall s :: s in skillMap ==> skillMap[s] == Occurrences(rs, s)
  {
    skillMap := map[];
    for i := 0 to |rs|
      invariant forall s :: s in skillMap <==> Occurrences(rs[..i], s) > 0
      invariant forall s :: s in skillMap ==> skillMap[s] == Occurrences(rs[..i], s)
    {
      var skills := rs[i].skills;
      assert rs[..i + 1][..i] == rs[..i];
      for j := 0 to |skills|
        invariant forall s :: s in skillMap <==> Occurrences(rs[..i], s) + CountIn(skills[..j], s) > 0
        invariant forall s :: s in skillMap ==>
          skillMap[s] == Occurrences(rs[..i], s) + CountIn(skills[..j], s)
      {
        var skill := skills[j];
        assert skills[..j + 1][..j] == skills[..j];
        skillMap := skillMap[skill := (if skill in skillMap then skillMap[skill] else 0) + 1];
      }
      assert skills[..|skills|] == skills;
    }
    assert rs[..|rs|] == rs;
  }

  /** A skill is counted in a list iff the list holds it. */
  lemma {:induction false} CountInPositive(xs: seq<string>, s: string)
    ensures CountIn(xs, s) > 0 <==> s in xs
  {
    if xs != [] {
      CountInPositive(xs[..|xs| - 1], s);
      assert xs == xs[..|xs| - 1] + [xs[|xs| - 1]];
    }
  }

  /** A list without repeated entries holds each skill at most once. */
  lemma {:induction false} CountInDistinct(xs: seq<string>, s: string)
    requires forall i, j :: 0 <= i < j < |xs| ==> xs[i] != xs[j]
    ensures CountIn(xs, s) == if s in xs then 1 else 0
  {
    if xs != [] {
      var init := xs[..|xs| - 1];
      CountInDistinct(init, s);
      assert xs == init + [xs[|xs| - 1]];
      if xs[|xs| - 1] == s {
        assert s !in init;
      }
    }
  }

  /** A skill has a `topSkills` entry iff some record lists it. */
  lemma {:induction false} OccurrencesPositive(rs: seq<Resume>, s: string)
    ensures Occurrences(rs, s) > 0 <==> exists i :: 0 <= i < |rs| && s in rs[i].skills
  {
    if rs != [] {
      var init := rs[..|rs| - 1];
      OccurrencesPositive(init, s);
      CountInPositive(rs[|rs| - 1].skills, s);
      if exists i :: 0 <= i < |rs| && s in rs[i].skills {
        var i :| 0 <= i < |rs| && s in rs[i].skills;
        if i < |rs| - 1 {
          assert init[i] == rs[i];
        }
      }
    }
  }

  /**
   * When no record lists a skill twice, a skill's count is the number of
   * records that list it.
   */
  lemma {:induction false} OccurrencesCountRecords(rs: seq<Resume>, s: string)
    requires forall k, i, j :: 0 <= k < |rs| && 0 <= i < j < |rs[k].skills| ==> rs[k].skills[i] != rs[k].skills[j]
    ensures Occurrences(rs, s) == |Filter(rs, (r: Resume) => s in r.skills)|
  {
    if rs != [] {
      var init := rs[..|rs| - 1];
      OccurrencesCountRecords(init, s);
      CountInDistinct(rs[|rs| - 1].skills, s);
    }
  }

  /** `Occurrences` is a sum over the records, so it does not depend on their order. */
  lemma {:induction false} OccurrencesIgnoreOrder(xs: seq<Resume>, ys: seq<Resume>, s: string)
    requires multiset(xs) == multiset(ys)
    ensures Occurrences(xs, s) == Occurrences(ys, s)
  {
    var f := (r: Resume) => CountIn(r.skills, s);
    OccurrencesAsSum(xs, s);
    OccurrencesAsSum(ys, s);
    SumPermutation(xs, ys, f);
  }

  lemma {:induction false} OccurrencesAsSum(rs: seq<Resume>, s: string)
    ensures Occurrences(rs, s) == Sum(rs, (r: Resume) => CountIn(r.skills, s))
  {
    if rs != [] {
      OccurrencesAsSum(rs[..|rs| - 1], s);
    }
  }

  // ---------------------------------------------------------------------
  // Score distribution
  // ---------------------------------------------------------------------

  /** One entry of `scoreDistribution`. */
  datatype Bucket = Bucket(rangeLabel: string, percent: int)

  /** The bucket labels, in order. */
  const LABELS: seq<string> := ["0-40", "41-60", "61-80", "81-100"]

  /** The `if`/`else if` chain choosing a score's bucket. */
  function BucketOf(score: int): (b: nat)
    ensures b < 4
  {
    if score <= 40 then 0 else if score <= 60 then 1 else if score <= 80 then 2 else 3
  }

  /** How many records fall into bucket `b`. */
  function BucketCount(rs: seq<Resume>, b: nat): nat {
    if rs == [] then 0
    else BucketCount(rs[..|rs| - 1], b) + (if BucketOf(rs[|rs| - 1].score) == b then 1 else 0)
  }

  /** Counting record `i` after the ones before it adds one to its own bucket only. */
  lemma BucketCountStep(rs: seq<Resume>, i: nat)
    requires i < |rs|
    ensures forall b ::
      BucketCount(rs[..i + 1], b) == BucketCount(rs[..i], b) + (if BucketOf(rs[i].score) == b then 1 else 0)
  {
    assert rs[..i + 1][..i] == rs[..i];
  }

  /** Every record falls into exactly one bucket, so the counts add up to the total. */
  lemma {:induction false} BucketPartition(rs: seq<Resume>)
    ensures BucketCount(rs, 0) + BucketCount(rs, 1) + BucketCount(rs, 2) + BucketCount(rs, 3) == |rs|
  {
    if rs != [] {
      BucketPartition(rs[..|rs| - 1]);
    }
  }

  /** A bucket count is the number of records whose score maps to the bucket. */
  lemma {:induction false} BucketCountIsFilter(rs: seq<Resume>, b: nat)
    ensures BucketCount(rs, b) == |Filter(rs, (r: Resume) => BucketOf(r.score) == b)|
  {
    if rs != [] {
      BucketCountIsFilter(rs[..|rs| - 1], b);
    }
  }

  /** `BucketCount` is a sum over the records, so it does not depend on their order. */
  lemma {:induction false} BucketCountIgnoresOrder(xs: seq<Resume>, ys: seq<Resume>, b: nat)
    requires multiset(xs) == multiset(ys)
    ensures BucketCount(xs, b) == BucketCount(ys, b)
  {
    var f := (r: Resume) => if BucketOf(r.score) == b then 1 else 0;
    BucketCountAsSum(xs, b);
    BucketCountAsSum(ys, b);
    SumPermutation(xs, ys, f);
  }

  lemma {:induction false} BucketCountAsSum(rs: seq<Resume>, b: nat)
    ensures BucketCount(rs, b) == Sum(rs, (r: Resume) => if BucketOf(r.score) == b then 1 else 0)
  {
    if rs != [] {
      BucketCountAsSum(rs[..|rs| - 1], b);
    }
  }

  /** `Math.round((count / total) * 100)`, 0 for no records. */
  function Percent(count: nat, total: nat): (p: int)
    ensures total == 0 ==> p == 0
    ensures count <= total ==> 0 <= p <= 100
    ensures total > 0 ==> 2 * (total * p) - total <= 200 * count < 2 * (total * p) + total
  {
    if total == 0 then 0
    else
      var p := RoundDiv(100 * count, total);
      assert count <= total ==> 0 <= p <= 100 by {
        if count <= total {
          Arith.MulMono(100, count, total);
          RoundDivBetween(100 * count, total, 0, 100);
        }
      }
      p
  }

  /**
   * The four rounded percentages of a partition of `n > 0` records add up
   * to between 99 and 102.
   */
  lemma PercentSum(c0: nat, c1: nat, c2: nat, c3: nat)
    requires c0 + c1 + c2 + c3 > 0
    ensures var n := c0 + c1 + c2 + c3;
      99 <= Percent(c0, n) + Percent(c1, n) + Percent(c2, n) + Percent(c3, n) <= 102
  {
    var n := c0 + c1 + c2 + c3;
    RoundedShares(n, c0, c1, c2, c3, Percent(c0, n), Percent(c1, n), Percent(c2, n), Percent(c3, n));
  }

  /** Four integers each within half a unit of their exact share of 100 add up to 99..102. */
  lemma RoundedShares(n: int, c0: int, c1: int, c2: int, c3: int, p0: int, p1: int, p2: int, p3: int)
    requires n > 0 && c0 + c1 + c2 + c3 == n
    requires 2 * (n * p0) - n <= 200 * c0 < 2 * (n * p0) + n
    requires 2 * (n * p1) - n <= 200 * c1 < 2 * (n * p1) + n
    requires 2 * (n * p2) - n <= 200 * c2 < 2 * (n * p2) + n
    requires 2 * (n * p3) - n <= 200 * c3 < 2 * (n * p3) + n
    ensures 99 <= p0 + p1 + p2 + p3 <= 102
  {
    var total := p0 + p1 + p2 + p3;
    assert n * total == n * p0 + n * p1 + n * p2 + n * p3;
    if total > 102 {
      Arith.MulMono(n, 103, total);
    }
    if total < 99 {
      Arith.MulMono(n, total, 98);
    }
  }

  /** Both ends of the range are reached: 3 records in three buckets, 8 records split 1, 1, 1, 5. */
  lemma PercentSumExtremes()
    ensures Percent(1, 3) + Percent(1, 3) + Percent(1, 3) + Percent(0, 3) == 99
    ensures Percent(1, 8) + Percent(1, 8) + Percent(1, 8) + Percent(5, 8) == 102
  {
  }

  /**
   * `scoreDistribution`: counts each record into its bucket in place, then
   * rewrites every count as a rounded percentage of the total.
   */
  method ScoreDistribution(rs: seq<Resume>) returns (dist: seq<Bucket>)
    ensures |dist| == 4
    ensures forall b :: 0 <= b < 4 ==>
      dist[b] == Bucket(LABELS[b], Percent(BucketCount(rs, b), |rs|))
  {
    var buckets := CountBuckets(rs);
    for k := 0 to 4
      invariant forall b :: 0 <= b < k ==> buckets[b] == Bucket(LABELS[b], Percent(BucketCount(rs, b), |rs|))
      invariant forall b :: k <= b < 4 ==> buckets[b] == Bucket(LABELS[b], BucketCount(rs, b))
    {
      buckets[k] := buckets[k].(percent := Percent(buckets[k].percent, |rs|));
    }
    dist := buckets[..];
  }

  /** The first phase of `scoreDistribution`: the four buckets holding raw counts. */
  method CountBuckets(rs: seq<Resume>) returns (buckets: array<Bucket>)
    ensures fresh(buckets) && buckets.Length == 4
    ensures forall b :: 0 <= b < 4 ==> buckets[b] == Bucket(LABELS[b], BucketCount(rs, b))
  {
    buckets := new Bucket[4][Bucket(LABELS[0], 0), Bucket(LABELS[1], 0), Bucket(LABELS[2], 0), Bucket(LABELS[3], 0)];
    for i := 0 to |rs|
      invariant forall b :: 0 <= b < 4 ==> buckets[b] == Bucket(LABELS[b], BucketCount(rs[..i], b))
    {
      var k := BucketOf(rs[i].score);
      BucketCountStep(rs, i);
      buckets[k] := buckets[k].(percent := buckets[k].percent + 1);
    }
    assert rs[..|rs|] == rs;
  }

  // ---------------------------------------------------------------------
  // Dashboard
  // ---------------------------------------------------------------------

  /** Records in descending `createdAt` order. */
  predicate NewestFirstOrder(rs: seq<Resume>) {
    forall i, j :: 0 <= i < j < |rs| ==> rs[i].createdAt >= rs[j].createdAt
  }

  /** Places `r` before the first record that is not newer than it. */
  function InsertByDate(r: Resume, rs: seq<Resume>): (out: seq<Resume>)
    requires NewestFirstOrder(rs)
    ensures NewestFirstOrder(out)
    ensures multiset(out) == multiset(rs) + multiset{r}
    ensures out[0] == r || (rs != [] && out[0] == rs[0])
  {
    if rs == [] || r.createdAt >= rs[0].createdAt then
      ConsNewestFirst(r, rs);
      [r] + rs
    else
      var tail := InsertByDate(r, rs[1..]);
      assert tail[0].createdAt <= rs[0].createdAt;
      ConsNewestFirst(rs[0], tail);
      assert rs == [rs[0]] + rs[1..];
      [rs[0]] + tail
  }

  /** A record no older than the head of a newest-first list can go in front of it. */
  lemma ConsNewestFirst(x: Resume, t: seq<Resume>)
    requires NewestFirstOrder(t) && (t == [] || x.createdAt >= t[0].createdAt)
    ensures NewestFirstOrder([x] + t)
  {
    var s := [x] + t;
    forall i, j | 0 <= i < j < |s|
      ensures s[i].createdAt >= s[j].createdAt
    {
      if i == 0 {
        assert s[j] == t[j - 1];
        assert t[0].createdAt >= t[j - 1].createdAt;
      } else {
        assert s[i] == t[i - 1] && s[j] == t[j - 1];
      }
    }
  }

  /** `.sort({ createdAt: -1 })`: the same records, newest first. */
  function NewestFirst(rs: seq<Resume>): (out: seq<Resume>)
    ensures NewestFirstOrder(out)
    ensures multiset(out) == multiset(rs)
  {
    if rs == [] then []
    else
      assert rs == [rs[0]] + rs[1..];
      InsertByDate(rs[0], NewestFirst(rs[1..]))
  }

  /** The smaller of two numbers. */
  function Min(a: nat, b: nat): nat { if a <= b then a else b }

  /**
   * `m` is the `topSkills` map of `rs`: one key per skill some record lists,
   * with the number of times it is listed.
   */
  ghost predicate IsTopSkills(m: map<string, nat>, rs: seq<Resume>) {
    && (forall s :: s in m <==> exists i :: 0 <= i < |rs| && s in rs[i].skills)
    && (forall s :: s in m ==> m[s] == Occurrences(rs, s))
  }

  /** `recent` holds the `min(3, |rs|)` newest records of `rs`, newest first. */
  ghost predicate IsRecent(recent: seq<Resume>, rs: seq<Resume>) {
    && |recent| == Min(3, |rs|)
    && NewestFirstOrder(recent)
    && multiset(recent) <= multiset(rs)
    && (forall i, x :: 0 <= i < |recent| && x in multiset(rs) - multiset(recent) ==>
          recent[i].createdAt >= x.createdAt)
  }

  /** `dist` is the score distribution of `rs`. */
  predicate IsDistribution(dist: seq<Bucket>, rs: seq<Resume>) {
    && |dist| == 4
    && (forall b :: 0 <= b < 4 ==> dist[b] == Bucket(LABELS[b], Percent(BucketCount(rs, b), |rs|)))
  }

  /** Every `topSkills` count is at least 1. */
  lemma TopSkillCountsPositive(m: map<string, nat>, rs: seq<Resume>)
    requires IsTopSkills(m, rs)
    ensures forall s :: s in m ==> m[s] >= 1
  {
    forall s | s in m
      ensures m[s] >= 1
    {
      OccurrencesPositive(rs, s);
    }
  }

  /**
   * The distribution's percentages lie in 0..100; they are all 0 for no
   * records, and otherwise add up to between 99 and 102.
   */
  lemma DistributionBounds(dist: seq<Bucket>, rs: seq<Resume>)
    requires IsDistribution(dist, rs)
    ensures forall b :: 0 <= b < 4 ==> 0 <= dist[b].percent <= 100
    ensures rs == [] ==> forall b :: 0 <= b < 4 ==> dist[b].percent == 0
    ensures rs != [] ==> 99 <= dist[0].percent + dist[1].percent + dist[2].percent + dist[3].percent <= 102
  {
    BucketPartition(rs);
    if rs != [] {
      PercentSum(BucketCount(rs, 0), BucketCount(rs, 1), BucketCount(rs, 2), BucketCount(rs, 3));
    }
  }

  /** The `stats` block of the dashboard. */
  datatype DashboardStats = DashboardStats(total: nat, analyzed: nat, avgScore: int, avgTime: int)

  /** The dashboard response body. */
  datatype Dashboard = Dashboard(
    stats: DashboardStats,
    topSkills: map<string, nat>,
    recentResumes: seq<Resume>,
    scoreDistribution: seq<Bucket>)

  /**
   * `getDashboardData`: every figure is computed over the requesting user's
   * records, fetched newest first.
   */
  method GetDashboardData(db: Database, user: UserId) returns (view: Dashboard)
    ensures var owned := OwnedBy(db.resumes, user);
      && view.stats.total == |owned|
      && view.stats.analyzed == view.stats.total
      && view.stats.avgScore == Average(owned, ScoreOf)
      && view.stats.avgTime == Average(owned, TimeOf)
      && IsTopSkills(view.topSkills, owned)
      && IsRecent(view.recentResumes, owned)
      && IsDistribution(view.scoreDistribution, owned)
  {
    var owned := OwnedBy(db.resumes, user);
    var resumes := NewestFirst(owned);
    var total := |resumes|;
    var avgScore := Average(resumes, ScoreOf);
    var avgTime := Average(resumes, TimeOf);
    SumPermutation(resumes, owned, ScoreOf);
    SumPermutation(resumes, owned, TimeOf);
    var skillMap := CountSkills(resumes);
    TopSkillsIgnoreOrder(skillMap, resumes, owned);
    var dist := ScoreDistribution(resumes);
    DistributionIgnoresOrder(dist, resumes, owned);
    var recent := resumes[..Min(3, total)];
    RecentAreNewest(resumes, Min(3, total));
    view := Dashboard(DashboardStats(total, total, avgScore, avgTime), skillMap, recent, dist);
  }

  /** The skill counts of a reordering of the records are the same. */
  lemma TopSkillsIgnoreOrder(m: map<string, nat>, xs: seq<Resume>, ys: seq<Resume>)
    requires multiset(xs) == multiset(ys)
    requires forall s :: s in m <==> Occurrences(xs, s) > 0
    requires forall s :: s in m ==> m[s] == Occurrences(xs, s)
    ensures IsTopSkills(m, ys)
  {
    forall s
      ensures s in m <==> exists i :: 0 <= i < |ys| && s in ys[i].skills
      ensures s in m ==> m[s] == Occurrences(ys, s)
    {
      OccurrencesIgnoreOrder(xs, ys, s);
      OccurrencesPositive(ys, s);
    }
  }

  /** The score distribution of a reordering of the records is the same. */
  lemma DistributionIgnoresOrder(dist: seq<Bucket>, xs: seq<Resume>, ys: seq<Resume>)
    requires multiset(xs) == multiset(ys)
    requires IsDistribution(dist, xs)
    ensures IsDistribution(dist, ys)
  {
    assert |xs| == |ys| by {
      assert |multiset(xs)| == |multiset(ys)|;
    }
    forall b | 0 <= b < 4
      ensures BucketCount(xs, b) == BucketCount(ys, b)
    {
      BucketCountIgnoresOrder(xs, ys, b);
    }
  }

  /** The first `k` records of a newest-first list are the `k` newest. */
  lemma RecentAreNewest(rs: seq<Resume>, k: nat)
    requires NewestFirstOrder(rs) && k == Min(3, |rs|)
    ensures IsRecent(rs[..k], rs)
  {
    PrefixKeepsOrder(rs, k);
    PrefixIsNewest(rs, k);
    assert rs == rs[..k] + rs[k..];
    assert multiset(rs) == multiset(rs[..k]) + multiset(rs[k..]);
  }

  /** A prefix of a newest-first list is newest first. */
  lemma PrefixKeepsOrder(rs: seq<Resume>, k: nat)
    requires NewestFirstOrder(rs) && k <= |rs|
    ensures NewestFirstOrder(rs[..k])
  {
    var pre := rs[..k];
    forall i, j | 0 <= i < j < |pre|
      ensures pre[i].createdAt >= pre[j].createdAt
    {
      assert pre[i] == rs[i] && pre[j] == rs[j];
    }
  }

  /** A prefix of a newest-first list is at least as new as what it leaves out. */
  lemma PrefixIsNewest(rs: seq<Resume>, k: nat)
    requires NewestFirstOrder(rs) && k <= |rs|
    ensures forall i, x :: 0 <= i < k && x in multiset(rs) - multiset(rs[..k]) ==> rs[..k][i].createdAt >= x.createdAt
  {
    var pre, post := rs[..k], rs[k..];
    LeftOut(rs, k);
    forall i, x | 0 <= i < k && x in multiset(rs) - multiset(pre)
      ensures pre[i].createdAt >= x.createdAt
    {
      assert x in post;
      var j :| 0 <= j < |post| && post[j] == x;
      assert rs[k + j] == x && pre[i] == rs[i];
    }
  }

  /** What a prefix leaves out is the rest of the list. */
  lemma LeftOut(rs: seq<Resume>, k: nat)
    requires k <= |rs|
    ensures multiset(rs) - multiset(rs[..k]) == multiset(rs[k..])
  {
    assert rs == rs[..k] + rs[k..];
  }

  // ---------------------------------------------------------------------
  // Analytics
  // ---------------------------------------------------------------------

  /** Milliseconds in a day. */
  const MS_PER_DAY := 24 * 60 * 60 * 1000

  /** `parseInt(req.query.days || "7", 10)` for a query that is absent or a whole number. */
  function EffectiveDays(days: Option<int>): (d: int)
    ensures days == None ==> d == 7
    ensures days.Some? ==> d == days.value
  {
    days.GetOr(7)
  }

  /** `fromDate`: `days` whole days before `now`, in ms. */
  function WindowStart(now: int, days: int): (from: int)
    ensures days >= 0 ==> from <= now
    ensures now - from == days * MS_PER_DAY
  {
    now - days * MS_PER_DAY
  }

  /** The query `{ user, createdAt: { $gte: fromDate } }`. */
  predicate InWindow(r: Resume, user: UserId, from: int) {
    r.owner == user && r.createdAt >= from
  }

  /**
   * The UTC calendar day of a timestamp, as a day number since the epoch:
   * `toISOString().split("T")[0]` names exactly one such day.
   */
  function DayOf(t: int): (day: int)
    ensures MS_PER_DAY * day <= t < MS_PER_DAY * day + MS_PER_DAY
  {
    Arith.DivBounds(t, MS_PER_DAY);
    t / MS_PER_DAY
  }

  /** Two timestamps share a day key iff they fall in the same 24-hour UTC day. */
  lemma SameDay(t: int, u: int)
    ensures DayOf(t) == DayOf(u) <==> exists d :: MS_PER_DAY * d <= t < MS_PER_DAY * d + MS_PER_DAY
                                             && MS_PER_DAY * d <= u < MS_PER_DAY * d + MS_PER_DAY
  {
    if exists d :: MS_PER_DAY * d <= t < MS_PER_DAY * d + MS_PER_DAY
                  && MS_PER_DAY * d <= u < MS_PER_DAY * d + MS_PER_DAY {
      var d :| MS_PER_DAY * d <= t < MS_PER_DAY * d + MS_PER_DAY
              && MS_PER_DAY * d <= u < MS_PER_DAY * d + MS_PER_DAY;
      DayUnique(t, d);
      DayUnique(u, d);
    }
  }

  /** A timestamp lies in only one day. */
  lemma DayUnique(t: int, d: int)
    requires MS_PER_DAY * d <= t < MS_PER_DAY * d + MS_PER_DAY
    ensures DayOf(t) == d
  {
    var e := DayOf(t);
    if e < d {
      Arith.MulMono(MS_PER_DAY, e + 1, d);
    }
    if e > d {
      Arith.MulMono(MS_PER_DAY, d + 1, e);
    }
  }

  /** How many records were created on day `d`. */
  function DayCount(rs: seq<Resume>, d: int): nat {
    if rs == [] then 0
    else DayCount(rs[..|rs| - 1], d) + (if DayOf(rs[|rs| - 1].createdAt) == d then 1 else 0)
  }

  /** The sum of the values of a map. */
  ghost function MapTotal(m: map<int, nat>): nat
    decreases |m|
  {
    if m == map[] then 0
    else
      assert exists k :: k in m by {
        if forall k :: k !in m {
          assert false;
        }
      }
      var k :| k in m;
      m[k] + MapTotal(m - {k})
  }

  /** Any key can be taken out first when summing a map. */
  lemma {:induction false} MapTotalRemove(m: map<int, nat>, k: int)
    requires k in m
    ensures MapTotal(m) == m[k] + MapTotal(m - {k})
    decreases |m|
  {
    var j :| j in m && MapTotal(m) == m[j] + MapTotal(m - {j});
    if j != k {
      MapTotalRemove(m - {j}, k);
      MapTotalRemove(m - {k}, j);
      assert m - {j} - {k} == m - {k} - {j};
    }
  }

  /** `map[key] = (map[key] || 0) + 1` */
  function Tally(m: map<int, nat>, k: int): (r: map<int, nat>)
    ensures k in r && r[k] == (if k in m then m[k] else 0) + 1
    ensures forall j :: j != k ==> (j in r <==> j in m) && (j in m ==> r[j] == m[j])
  {
    m[k := (if k in m then m[k] else 0) + 1]
  }

  /** Raising one entry of a map by one raises its total by one. */
  lemma MapTotalIncrement(m: map<int, nat>, k: int)
    ensures MapTotal(Tally(m, k)) == MapTotal(m) + 1
  {
    var m' := Tally(m, k);
    MapTotalRemove(m', k);
    if k in m {
      MapTotalRemove(m, k);
      assert m' - {k} == m - {k};
    } else {
      assert m' - {k} == m;
    }
  }

  /**
   * `volume` is the per-day count of `rs`: one key per day with records,
   * and the counts add up to the number of records.
   */
  ghost predicate IsVolume(volume: map<int, nat>, rs: seq<Resume>) {
    && (forall d :: d in volume <==> exists i :: 0 <= i < |rs| && DayOf(rs[i].createdAt) == d)
    && (forall d :: d in volume ==> volume[d] == DayCount(rs, d) >= 1)
    && MapTotal(volume) == |rs|
  }

  /**
   * `applicationVolume`: the records per UTC day, accumulated into a map;
   * only days with records have keys, and the counts add up to the number
   * of records.
   */
  method ApplicationVolume(rs: seq<Resume>) returns (volume: map<int, nat>)
    ensures IsVolume(volume, rs)
  {
    volume := map[];
    for i := 0 to |rs|
      invariant IsVolume(volume, rs[..i])
    {
      var day := DayOf(rs[i].createdAt);
      VolumeStep(volume, rs, i);
      volume := Tally(volume, day);
    }
    assert rs[..|rs|] == rs;
  }

  /** Counting record `i` after the ones before it keeps the volume map exact. */
  lemma VolumeStep(volume: map<int, nat>, rs: seq<Resume>, i: nat)
    requires i < |rs| && IsVolume(volume, rs[..i])
    ensures var day := DayOf(rs[i].createdAt);
      IsVolume(Tally(volume, day), rs[..i + 1])
  {
    var prefix := rs[..i + 1];
    assert prefix[..|prefix| - 1] == rs[..i];
    assert prefix[|prefix| - 1] == rs[i];
    VolumeAppend(volume, prefix);
  }

  /** Counting one more record keeps the volume map exact. */
  lemma VolumeAppend(volume: map<int, nat>, rs: seq<Resume>)
    requires rs != [] && IsVolume(volume, rs[..|rs| - 1])
    ensures var day := DayOf(rs[|rs| - 1].createdAt);
      IsVolume(Tally(volume, day), rs)
  {
    var day := DayOf(rs[|rs| - 1].createdAt);
    MapTotalIncrement(volume, day);
    VolumeAppendKeys(volume, rs);
    VolumeAppendCounts(volume, rs);
  }

  /** The keys after counting one more record are the days with records. */
  lemma VolumeAppendKeys(volume: map<int, nat>, rs: seq<Resume>)
    requires rs != [] && IsVolume(volume, rs[..|rs| - 1])
    ensures var day := DayOf(rs[|rs| - 1].createdAt);
      forall d :: d in Tally(volume, day) <==> exists i :: 0 <= i < |rs| && DayOf(rs[i].createdAt) == d
  {
    var init, day := rs[..|rs| - 1], DayOf(rs[|rs| - 1].createdAt);
    var v := Tally(volume, day);
    forall d
      ensures d in v <==> exists i :: 0 <= i < |rs| && DayOf(rs[i].createdAt) == d
    {
      if d in volume {
        var i :| 0 <= i < |init| && DayOf(init[i].createdAt) == d;
        assert rs[i] == init[i];
      }
      if exists i :: 0 <= i < |rs| && DayOf(rs[i].createdAt) == d {
        var i :| 0 <= i < |rs| && DayOf(rs[i].createdAt) == d;
        if i < |init| {
          assert init[i] == rs[i];
        }
      }
    }
  }

  /** The counts after counting one more record are the per-day counts. */
  lemma VolumeAppendCounts(volume: map<int, nat>, rs: seq<Resume>)
    requires rs != [] && IsVolume(volume, rs[..|rs| - 1])
    ensures var day := DayOf(rs[|rs| - 1].createdAt);
      forall d :: d in Tally(volume, day) ==> Tally(volume, day)[d] == DayCount(rs, d) >= 1
  {
    var init, day := rs[..|rs| - 1], DayOf(rs[|rs| - 1].createdAt);
    var v := Tally(volume, day);
    forall d | d in v
      ensures v[d] == DayCount(rs, d) >= 1
    {
      if d != day && d in volume {
        assert DayCount(rs, d) == DayCount(init, d);
      }
      if d == day && day !in volume {
        DayCountZero(init, d);
      }
    }
  }

  /** A day on which no record was created has count 0. */
  lemma {:induction false} DayCountZero(rs: seq<Resume>, d: int)
    requires forall i :: 0 <= i < |rs| ==> DayOf(rs[i].createdAt) != d
    ensures DayCount(rs, d) == 0
  {
    if rs != [] {
      DayCountZero(rs[..|rs| - 1], d);
    }
  }

  /** One point of `scoreTrends`. */
  datatype Trend = Trend(date: int, score: int)

  /** The `stats` block of the analytics view. */
  datatype AnalyticsStats = AnalyticsStats(
    totalApplications: nat,
    avgScore: int,
    excellentCandidates: nat,
    avgProcessingTime: int)

  /** The analytics response body; `performanceMetrics` is always null and is not modelled. */
  datatype Analytics = Analytics(
    stats: AnalyticsStats,
    scoreTrends: seq<Trend>,
    topSkills: map<string, nat>,
    applicationVolume: map<int, nat>)

  /** A score of 85 or more marks an excellent candidate. */
  predicate Excellent(r: Resume) {
    r.score >= 85
  }

  /**
   * An excellent record always lies in the "81-100" bucket, but that bucket
   * also holds the scores 81 to 84, which are not excellent.
   */
  lemma ExcellentInTopBucket(r: Resume)
    ensures Excellent(r) ==> BucketOf(r.score) == 3
    ensures 81 <= r.score < 85 ==> BucketOf(r.score) == 3 && !Excellent(r)
  {
  }

  /**
   * `getAnalyticsData`: the figures over the user's records created in the
   * last `days` days (7 by default), in the store's natural order.
   */
  method GetAnalyticsData(db: Database, user: UserId, now: int, days: Option<int>) returns (view: Analytics)
    ensures var from := WindowStart(now, EffectiveDays(days));
            var rs := Filter(db.resumes, (r: Resume) => InWindow(r, user, from));
      && view.stats.totalApplications == |rs|
      && view.stats.avgScore == Average(rs, ScoreOf)
      && view.stats.excellentCandidates == |Filter(rs, Excellent)| <= |rs|
      && view.stats.avgProcessingTime == Average(rs, TimeOf)
      && |view.scoreTrends| == |rs|
      && (forall i :: 0 <= i < |rs| ==> view.scoreTrends[i] == Trend(rs[i].createdAt, rs[i].score))
      && IsTopSkills(view.topSkills, rs)
      && IsVolume(view.applicationVolume, rs)
  {
    var from := WindowStart(now, EffectiveDays(days));
    var rs := Filter(db.resumes, (r: Resume) => InWindow(r, user, from));
    var total := |rs|;
    var avgScore := Average(rs, ScoreOf);
    var excellent := |Filter(rs, Excellent)|;
    var avgTime := Average(rs, TimeOf);
    var trends := seq(|rs|, i requires 0 <= i < |rs| => Trend(rs[i].createdAt, rs[i].score));
    var skillMap := CountSkills(rs);
    TopSkillsIgnoreOrder(skillMap, rs, rs);
    var volume := ApplicationVolume(rs);
    view := Analytics(AnalyticsStats(total, avgScore, excellent, avgTime), trends, skillMap, volume);
  }

  // ---------------------------------------------------------------------
  // Upload
  // ---------------------------------------------------------------------

  /**
   * The job description used when the request carries none. Its lines
   * name catalogue skills.
   */
  const DEFAULT_JOB_DESCRIPTION :=
    "\n" + "python" + " java javascript react node express django flask fastapi\n"
    + "mongodb mysql postgresql sql\n"
    + "git github docker linux aws\n"
    + "machine learning pandas numpy scikit-learn\n"

  /** The characters `String.prototype.trim` removes: white space and line terminators. */
  predicate IsJsWhitespace(c: char) {
    c == '\t' || c == '\n' || c == '\U{0B}' || c == '\U{0C}' || c == '\r' || c == ' '
    || c == '\U{A0}' || c == '\U{1680}' || ('\U{2000}' <= c <= '\U{200A}')
    || c == '\U{2028}' || c == '\U{2029}' || c == '\U{202F}' || c == '\U{205F}'
    || c == '\U{3000}' || c == '\U{FEFF}'
  }

  /** `s.trim().length > 0`: `s` has a character other than white space. */
  predicate HasContent(s: string) {
    exists i :: 0 <= i < |s| && !IsJsWhitespace(s[i])
  }

  /**
   * The job description sent to the AI service: the submitted one, untrimmed,
   * when it has content; otherwise the built-in default.
   */
  function EffectiveJobDescription(submitted: Option<string>): (jd: string)
    ensures HasContent(jd)
    ensures submitted.Some? && HasContent(submitted.value) ==> jd == submitted.value
    ensures !(submitted.Some? && HasContent(submitted.value)) ==> jd == DEFAULT_JOB_DESCRIPTION
  {
    if submitted.Some? && HasContent(submitted.value) then submitted.value
    else
      assert DEFAULT_JOB_DESCRIPTION[1] == 'p';
      DEFAULT_JOB_DESCRIPTION
  }

  /**
   * A missing description or one of only white space falls back to the
   * default; one with a word in it is sent as typed, surrounding spaces
   * included.
   */
  lemma BlankDescriptionFallsBack()
    ensures EffectiveJobDescription(None) == DEFAULT_JOB_DESCRIPTION
    ensures EffectiveJobDescription(Some(" \t\n")) == DEFAULT_JOB_DESCRIPTION
    ensures EffectiveJobDescription(Some(" go ")) == " go "
  {
    var typed := " go ";
    assert !IsJsWhitespace(typed[1]);
  }

  /** The file multer stored: its client-side name and its path on disk. */
  datatype UploadedFile = UploadedFile(originalName: string, path: string)

  /** What the handler reads from the request. */
  datatype UploadRequest = UploadRequest(user: UserId, file: Option<UploadedFile>, jobDescription: Option<string>)

  /** The fields of the scoring result; each may be missing. */
  datatype ScoringResult = ScoringResult(
    extractedSkills: Option<seq<string>>,
    missingSkills: Option<seq<string>>,
    matchPercentage: Option<int>)

  /** The calls the handler makes to its collaborators, in order. */
  datatype Call =
    | ExtractText(path: string)
    | Score(resumeText: string, jobDescription: string)
    | Create(record: Resume)

  /** The response: a status and either a message or the created record. */
  datatype ResponseBody = Message(text: string) | Created(record: Resume)
  datatype Response = Response(status: int, body: ResponseBody)

  /** The socket server: the events it has broadcast. */
  class Notifier {
    var emitted: seq<string>

    constructor ()
      ensures emitted == []
    {
      emitted := [];
    }

    /** `io.emit(event)` */
    method Emit(event: string)
      modifies this
      ensures emitted == old(emitted) + [event]
    {
      emitted := emitted + [event];
    }
  }

  /**
   * The record `Resume.create` is given: missing result fields become empty
   * lists and a score of 0.
   */
  function NewRecord(user: UserId, file: UploadedFile, result: ScoringResult, processingTime: int, createdAt: int): (r: Resume)
    ensures r.owner == user && r.filename == file.originalName
    ensures r.skills == (if result.extractedSkills.Some? then result.extractedSkills.value else [])
    ensures r.missingSkills == (if result.missingSkills.Some? then result.missingSkills.value else [])
    ensures r.score == (if result.matchPercentage.Some? then result.matchPercentage.value else 0)
    ensures r.processingTime == processingTime && r.createdAt == createdAt
  {
    Resume(user, file.originalName, result.extractedSkills.GetOr([]), result.missingSkills.GetOr([]),
           result.matchPercentage.GetOr(0), processingTime, createdAt)
  }

  /** `Resume.create` succeeds when the store is reachable and the required filename is non-empty. */
  predicate CreateSucceeds(storeAvailable: bool, record: Resume) {
    storeAvailable && record.filename != ""
  }

  /**
   * The record the handler builds always names its owner, so with the store
   * reachable it is refused exactly when the uploaded file has no name; with
   * the store unreachable nothing is saved.
   */
  lemma NewRecordStorable(user: UserId, file: UploadedFile, result: ScoringResult, processingTime: int, createdAt: int)
    ensures CreateSucceeds(true, NewRecord(user, file, result, processingTime, createdAt)) <==> file.originalName != ""
    ensures !CreateSucceeds(false, NewRecord(user, file, result, processingTime, createdAt))
  {
  }

  const NO_FILE := Response(400, Message("No resume file uploaded"))
  const ANALYSIS_FAILED := Response(500, Message("Resume analysis failed"))

  /**
   * `uploadResume`. The collaborators' outcomes are inputs: `extracted` is
   * the text `extractText` returns (None: it throws), `scored` the result of
   * the AI call (None: it throws), `storeAvailable` whether the database
   * accepts writes, `start` the clock read before the text extraction,
   * `end` the clock read after the AI call, and
   * `savedAt` the creation timestamp. `calls` lists the collaborator calls
   * made, in order.
   */
  method UploadResume(
    db: Database, io: Notifier?, req: UploadRequest,
    extracted: Option<string>, scored: Option<ScoringResult>, storeAvailable: bool,
    start: int, end: int, savedAt: int)
    returns (resp: Response, calls: seq<Call>)
    modifies db, io
    ensures db.users == old(db.users)
    ensures req.file.None? ==>
      resp == NO_FILE && calls == [] && db.resumes == old(db.resumes)
      && (io != null ==> io.emitted == old(io.emitted))
    ensures req.file.Some? ==> |calls| >= 1 && calls[0] == ExtractText(req.file.value.path)
    ensures req.file.Some? && extracted.None? ==>
      resp == ANALYSIS_FAILED && calls == [ExtractText(req.file.value.path)] && db.resumes == old(db.resumes)
      && (io != null ==> io.emitted == old(io.emitted))
    ensures req.file.Some? && extracted.Some? ==>
      |calls| >= 2 && calls[1] == Score(extracted.value, EffectiveJobDescription(req.jobDescription))
    ensures req.file.Some? && extracted.Some? && scored.None? ==>
      resp == ANALYSIS_FAILED && |calls| == 2 && db.resumes == old(db.resumes)
      && (io != null ==> io.emitted == old(io.emitted))
    ensures req.file.Some? && extracted.Some? && scored.Some? ==>
      var record := NewRecord(req.user, req.file.value, scored.value, ProcessingTime(start, end), savedAt);
      && calls == [calls[0], calls[1], Create(record)]
      && (CreateSucceeds(storeAvailable, record) ==>
            resp == Response(201, Created(record))
            && db.resumes == old(db.resumes) + [record]
            && (io != null ==> io.emitted == old(io.emitted) + ["dashboard:update", "analytics:update"]))
      && (!CreateSucceeds(storeAvailable, record) ==>
            resp == ANALYSIS_FAILED && db.resumes == old(db.resumes)
            && (io != null ==> io.emitted == old(io.emitted)))
  {
    if req.file.None? {
      return NO_FILE, [];
    }
    var file := req.file.value;
    calls := [ExtractText(file.path)];
    if extracted.None? {
      return ANALYSIS_FAILED, calls;
    }
    var resumeText := extracted.value;
    var jobDescription := EffectiveJobDescription(req.jobDescription);
    calls := calls + [Score(resumeText, jobDescription)];
    if scored.None? {
      return ANALYSIS_FAILED, calls;
    }
    var aiResult := scored.value;
    var processingTime := ProcessingTime(start, end);
    var record := NewRecord(req.user, file, aiResult, processingTime, savedAt);
    calls := calls + [Create(record)];
    if !CreateSucceeds(storeAvailable, record) {
      return ANALYSIS_FAILED, calls;
    }
    db.resumes := db.resumes + [record];
    if io != null {
      io.Emit("dashboard:update");
      io.Emit("analytics:update");
    }
    resp := Response(201, Created(record));
  }

  /**
   * A saved upload joins the end of its owner's records, so the owner's
   * dashboard counts it, and leaves every other user's records as they were.
   */
  lemma SavedRecordReachesOwner(rs: seq<Resume>, record: Resume, user: UserId)
    ensures record.owner == user ==> OwnedBy(rs + [record], user) == OwnedBy(rs, user) + [record]
    ensures record.owner != user ==> OwnedBy(rs + [record], user) == OwnedBy(rs, user)
  {
    FilterAppend(rs, [record], (x: Resume) => x.owner == user);
    assert [record][..0] == [];
  }
}
