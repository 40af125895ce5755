/**
  The ranking service's scoring helpers: the reciprocal pairwise-comparison
  matrix it builds from the judgments the pairwise page posts, min-max
  normalisation of a criterion column, and the ranking of candidate sites by
  final score cut down to the best 500.
*/
module Backend {
  import opened Records
  import opened Sites

  // ----- Criteria -----

  /** UI label to the column key of the candidate-site data, in declaration order. */
  const FeatureMap: Entries<string> := [
    ("Transit Access", "transit_dist"),
    ("Homeless Services Nearby", "homeless_service_dist"),
    ("Affordable Housing Nearby", "public_housing_dist"),
    ("Access to Water Infrastructure", "water_infrastructure_dist"),
    ("Nearby City Facilities", "city_facility_dist"),
    ("Urban Plan Priority Area", "general_plan_dist")
  ]

  /** `list(feature_map.keys())` */
  const Features: seq<string> := Keys(FeatureMap)

  // ----- Decoding one judgment -----

  /** The key a pair's judgment is posted under. */
  function PairKey(f1: string, f2: string): (key: string)
    ensures |key| == |f1| + 6 + |f2|
    ensures key[..|f1|] == f1 && key[|f1| + 6..] == f2
  {
    f1 + "__vs__" + f2
  }

  /** `comparisons.get(key, "Equal")` */
  function Lookup(comparisons: map<string, string>, key: string): (val: string)
    ensures key !in comparisons ==> val == "Equal"
    ensures key in comparisons ==> val == comparisons[key]
  {
    if key in comparisons then comparisons[key] else "Equal"
  }

  /**
    The scale dictionary of a pair (f1, f2) applied to a judgment text, with
    1 for any other text. Where two of the dictionary's keys coincide the
    later one wins, so the keys are tried from the last to the first.
  */
  function Scale(f1: string, f2: string, val: string): (r: real)
    ensures r in {5.0, 3.0, 1.0, 1.0 / 3.0, 1.0 / 5.0}
    ensures r > 0.0
    ensures val !in {f1 + " much more", f1 + " more", "Equal", f2 + " more", f2 + " much more"} ==> r == 1.0
  {
    if val == f2 + " much more" then 1.0 / 5.0
    else if val == f2 + " more" then 1.0 / 3.0
    else if val == "Equal" then 1.0
    else if val == f1 + " more" then 3.0
    else if val == f1 + " much more" then 5.0
    else 1.0
  }

  /** The scale the matrix holds above the diagonal at (i, j). */
  function PairScale(features: seq<string>, comparisons: map<string, string>, i: nat, j: nat): (r: real)
    requires i < j < |features|
    ensures r > 0.0
    ensures PairKey(features[i], features[j]) !in comparisons ==> r == 1.0
  {
    EqualDecodesToOne(features[i], features[j]);
    Scale(features[i], features[j], Lookup(comparisons, PairKey(features[i], features[j])))
  }

  /** The default text "Equal" decodes to 1 whatever the pair: no other option of the pair spells it. */
  lemma EqualDecodesToOne(f1: string, f2: string)
    ensures Scale(f1, f2, "Equal") == 1.0
  {
    if |f2| == 0 {
      assert (f2 + " more")[0] == ' ';
    } else {
      assert |f2 + " more"| != |"Equal"|;
    }
  }

  // ----- The comparison matrix -----

  /** The scale of the pair {a, b}, read in the order the features are listed. */
  function Upper(features: seq<string>, comparisons: map<string, string>, a: nat, b: nat): (r: real)
    requires a < |features| && b < |features|
    ensures r > 0.0
  {
    if a < b then PairScale(features, comparisons, a, b)
    else if b < a then PairScale(features, comparisons, b, a)
    else 1.0
  }

  /** An entry of a reciprocal matrix: the pair's scale above the diagonal, its reciprocal below, 1 on it. */
  function Mirrored(upper: real, a: nat, b: nat): real
    requires upper > 0.0
  {
    if a < b then upper else if b < a then 1.0 / upper else 1.0
  }

  /** What the finished matrix holds at (a, b). */
  function Entry(features: seq<string>, comparisons: map<string, string>, a: nat, b: nat): (r: real)
    requires a < |features| && b < |features|
    ensures r > 0.0
    ensures a == b ==> r == 1.0
  {
    DivInverse(Upper(features, comparisons, a, b));
    Mirrored(Upper(features, comparisons, a, b), a, b)
  }

  /** Whether the loops have written the pair {a, b} by the time they reach row i, column j. */
  predicate Written(a: nat, b: nat, i: nat, j: nat) {
    var lo := if a < b then a else b;
    var hi := if a < b then b else a;
    lo < hi && (lo < i || (lo == i && hi < j))
  }

  /**
    The matrix of `calculate_ahp` over its list of features (the route passes
    `Features`): all ones, then for every i < j the pair's scale at (i, j) and
    its reciprocal at (j, i).
  */
  method ComparisonMatrix(features: seq<string>, comparisons: map<string, string>) returns (m: array2<real>)
    ensures m.Length0 == |features| && m.Length1 == |features|
    ensures forall i | 0 <= i < |features| :: m[i, i] == 1.0
    ensures forall i, j | 0 <= i < j < |features| ::
      m[i, j] == PairScale(features, comparisons, i, j) && m[j, i] == 1.0 / PairScale(features, comparisons, i, j)
    ensures forall i, j | 0 <= i < |features| && 0 <= j < |features| :: m[i, j] == Entry(features, comparisons, i, j)
  {
    var size := |features|;
    m := new real[size, size]((_, _) => 1.0);
    for i := 0 to size
      invariant forall a, b | 0 <= a < size && 0 <= b < size ::
        m[a, b] == if Written(a, b, i, 0) then Entry(features, comparisons, a, b) else 1.0
    {
      for j := 0 to size
        invariant forall a, b | 0 <= a < size && 0 <= b < size ::
          m[a, b] == if Written(a, b, i, j) then Entry(features, comparisons, a, b) else 1.0
      {
        if i < j {
          var scale := PairScale(features, comparisons, i, j);
          m[i, j] := scale;
          m[j, i] := 1.0 / scale;
        }
      }
    }
  }

  /** Every entry of the matrix is positive, and mirrored entries are reciprocal. */
  lemma EntryReciprocal(features: seq<string>, comparisons: map<string, string>, a: nat, b: nat)
    requires a < |features| && b < |features|
    ensures Entry(features, comparisons, a, b) > 0.0
    ensures Entry(features, comparisons, b, a) == 1.0 / Entry(features, comparisons, a, b)
  {
    EntryPair(features, comparisons, a, b);
    MirroredPair(Upper(features, comparisons, a, b), a, b, Entry(features, comparisons, a, b), Entry(features, comparisons, b, a));
  }

  /** The entries at (a, b) and (b, a) mirror the same pair scale. */
  lemma EntryPair(features: seq<string>, comparisons: map<string, string>, a: nat, b: nat)
    requires a < |features| && b < |features|
    ensures Entry(features, comparisons, a, b) == Mirrored(Upper(features, comparisons, a, b), a, b)
    ensures Entry(features, comparisons, b, a) == Mirrored(Upper(features, comparisons, a, b), b, a)
  {
    assert Upper(features, comparisons, b, a) == Upper(features, comparisons, a, b);
  }

  lemma MirroredPair(x: real, a: nat, b: nat, p: real, q: real)
    requires x > 0.0 && p == Mirrored(x, a, b) && q == Mirrored(x, b, a)
    ensures p > 0.0 && q == 1.0 / p
  {
    if a != b {
      DivInverse(x);
    }
  }

  lemma DivInverse(x: real)
    requires x > 0.0
    ensures 1.0 / x > 0.0 && x * (1.0 / x) == 1.0 && (1.0 / x) * x == 1.0
  {
  }

  // ----- Min-max normalisation -----

  function Min(xs: seq<real>): (m: real)
    requires |xs| > 0
    ensures m in xs
    ensures forall i | 0 <= i < |xs| :: m <= xs[i]
  {
    if |xs| == 1 then xs[0]
    else
      var rest := Min(xs[1..]);
      assert forall i | 1 <= i < |xs| :: xs[i] == xs[1..][i - 1];
      if xs[0] <= rest then xs[0] else rest
  }

  function Max(xs: seq<real>): (m: real)
    requires |xs| > 0
    ensures m in xs
    ensures forall i | 0 <= i < |xs| :: xs[i] <= m
  {
    if |xs| == 1 then xs[0]
    else
      var rest := Max(xs[1..]);
      assert forall i | 1 <= i < |xs| :: xs[i] == xs[1..][i - 1];
      if rest <= xs[0] then xs[0] else rest
  }

  /** What `min_max_normalize` returns: a column of scaled values, or the scalar 0. */
  datatype Normalized = Scaled(values: seq<real>) | Zero

  predicate Constant(xs: seq<real>) {
    forall i, j | 0 <= i < |xs| && 0 <= j < |xs| :: xs[i] == xs[j]
  }

  /**
    `min_max_normalize`: each value's position between the column's minimum
    and maximum, or 0 when they coincide. An empty column stays empty, since
    its minimum and maximum are both undefined and compare as different.
  */
  function MinMaxNormalize(xs: seq<real>): (r: Normalized)
    ensures r.Zero? <==> |xs| > 0 && Constant(xs)
    ensures r.Scaled? ==> |r.values| == |xs|
  {
    if |xs| == 0 then Scaled([])
    else
      var lo, hi := Min(xs), Max(xs);
      if hi != lo then
        assert !Constant(xs) by {
          var a :| 0 <= a < |xs| && xs[a] == lo;
          var b :| 0 <= b < |xs| && xs[b] == hi;
        }
        Scaled(Rescaled(xs, lo, hi))
      else
        Zero
  }

  /** `(series - lo) / (hi - lo)` */
  function Rescaled(xs: seq<real>, lo: real, hi: real): (vs: seq<real>)
    requires lo < hi
    ensures |vs| == |xs|
  {
    seq(|xs|, i requires 0 <= i < |xs| => (xs[i] - lo) / (hi - lo))
  }

  /** A column that is not constant is scaled between its own minimum and maximum. */
  lemma ScaledRange(xs: seq<real>)
    requires |xs| > 0 && MinMaxNormalize(xs).Scaled?
    ensures Min(xs) < Max(xs)
    ensures MinMaxNormalize(xs).values == Rescaled(xs, Min(xs), Max(xs))
  {
    assert Min(xs) <= xs[0] <= Max(xs);
  }

  lemma RescaledInUnit(xs: seq<real>, lo: real, hi: real, i: nat)
    requires lo < hi && i < |xs| && lo <= xs[i] <= hi
    ensures 0.0 <= Rescaled(xs, lo, hi)[i] <= 1.0
  {
    Fraction(xs[i] - lo, hi - lo);
  }

  lemma Fraction(a: real, b: real)
    requires 0.0 <= a <= b && b > 0.0
    ensures 0.0 <= a / b <= 1.0
  {
  }

  lemma RescaledEndpoints(xs: seq<real>, lo: real, hi: real, i: nat)
    requires lo < hi && i < |xs|
    ensures xs[i] == lo ==> Rescaled(xs, lo, hi)[i] == 0.0
    ensures xs[i] == hi ==> Rescaled(xs, lo, hi)[i] == 1.0
  {
    EndpointFractions(xs[i], lo, hi);
  }

  lemma EndpointFractions(x: real, lo: real, hi: real)
    requires lo < hi
    ensures x == lo ==> (x - lo) / (hi - lo) == 0.0
    ensures x == hi ==> (x - lo) / (hi - lo) == 1.0
  {
  }

  lemma RescaledMonotone(xs: seq<real>, lo: real, hi: real, i: nat, j: nat)
    requires lo < hi && i < |xs| && j < |xs|
    ensures xs[i] <= xs[j] <==> Rescaled(xs, lo, hi)[i] <= Rescaled(xs, lo, hi)[j]
  {
    DivMonotone(xs[i] - lo, xs[j] - lo, hi - lo);
  }

  lemma DivMonotone(a: real, b: real, d: real)
    requires d > 0.0
    ensures a <= b <==> a / d <= b / d
  {
    assert a / d * d == a && b / d * d == b;
  }

  /** Every scaled value lies in [0, 1]. */
  lemma NormalizeInUnit(xs: seq<real>, i: nat)
    requires i < |xs| && MinMaxNormalize(xs).Scaled?
    ensures 0.0 <= MinMaxNormalize(xs).values[i] <= 1.0
  {
    ScaledRange(xs);
    RescaledInUnit(xs, Min(xs), Max(xs), i);
  }

  /** A minimum of the column normalises to 0 and a maximum to 1. */
  lemma NormalizeEndpoints(xs: seq<real>, i: nat)
    requires i < |xs| && MinMaxNormalize(xs).Scaled?
    ensures xs[i] == Min(xs) ==> MinMaxNormalize(xs).values[i] == 0.0
    ensures xs[i] == Max(xs) ==> MinMaxNormalize(xs).values[i] == 1.0
  {
    ScaledRange(xs);
    RescaledEndpoints(xs, Min(xs), Max(xs), i);
  }

  /** Normalisation keeps the order of the values, in both directions. */
  lemma NormalizeMonotone(xs: seq<real>, i: nat, j: nat)
    requires i < |xs| && j < |xs| && MinMaxNormalize(xs).Scaled?
    ensures xs[i] <= xs[j] <==> MinMaxNormalize(xs).values[i] <= MinMaxNormalize(xs).values[j]
  {
    ScaledRange(xs);
    RescaledMonotone(xs, Min(xs), Max(xs), i, j);
  }

  // ----- Ranking -----

  /** A candidate site with its centroid and weighted final score (lower is better). */
  datatype Candidate = Candidate(lat: real, lon: real, finalScore: real)

  predicate SortedByScore(s: seq<Candidate>) {
    forall i, j | 0 <= i < j < |s| :: s[i].finalScore <= s[j].finalScore
  }

  function Insert(x: Candidate, s: seq<Candidate>): (r: seq<Candidate>)
    requires SortedByScore(s)
    ensures SortedByScore(r)
    ensures multiset(r) == multiset(s) + multiset{x}
    ensures r[0] == x || (s != [] && r[0] == s[0])
  {
    if s == [] || x.finalScore <= s[0].finalScore then [x] + s
    else
      var rest := Insert(x, s[1..]);
      assert s == [s[0]] + s[1..];
      ConsSorted(s[0], rest);
      [s[0]] + rest
  }

  /** Putting a row no worse than the first of a sorted sequence in front keeps it sorted. */
  lemma ConsSorted(h: Candidate, rest: seq<Candidate>)
    requires SortedByScore(rest) && (rest == [] || h.finalScore <= rest[0].finalScore)
    ensures SortedByScore([h] + rest)
  {
    var r := [h] + rest;
    forall i, j | 0 <= i < j < |r| ensures r[i].finalScore <= r[j].finalScore {
      if i > 0 {
        assert r[i] == rest[i - 1];
      } else {
        assert rest[0].finalScore <= rest[j - 1].finalScore;
      }
    }
  }

  /** `sort_values("final_score", ascending=True)`: the rows in ascending score order. */
  function SortByScore(rows: seq<Candidate>): (s: seq<Candidate>)
    ensures SortedByScore(s)
    ensures multiset(s) == multiset(rows)
    ensures |s| == |rows|
  {
    if rows == [] then []
    else
      assert rows == rows[..|rows| - 1] + [rows[|rows| - 1]];
      var s := Insert(rows[|rows| - 1], SortByScore(rows[..|rows| - 1]));
      assert |multiset(s)| == |multiset(rows)|;
      s
  }

  /** Every sorted row is one of the input rows. */
  lemma SortedFromRows(rows: seq<Candidate>, k: nat)
    requires k < |rows|
    ensures SortByScore(rows)[k] in rows
  {
    var s := SortByScore(rows);
    assert s[k] in multiset(s);
  }

  /** `ranked["rank"] = ranked.index + 1` on the sorted rows. */
  function Ranked(s: seq<Candidate>): (ranked: seq<RankedSite>)
    ensures |ranked| == |s|
    ensures forall k | 0 <= k < |s| :: ranked[k].rank == k + 1 && Unrank(ranked[k]) == s[k]
  {
    seq(|s|, k requires 0 <= k < |s| => RankedSite(s[k].lat, s[k].lon, k + 1, s[k].finalScore))
  }

  function Unrank(site: RankedSite): Candidate {
    Candidate(site.lat, site.lon, site.finalScore)
  }

  function Unranked(top: seq<RankedSite>): (rows: seq<Candidate>)
    ensures |rows| == |top| && forall k | 0 <= k < |top| :: rows[k] == Unrank(top[k])
  {
    seq(|top|, k requires 0 <= k < |top| => Unrank(top[k]))
  }

  const TopCount: nat := 500

  /** `ranked.head(500)`: the first 500 ranked rows, or all of them when there are fewer. */
  function TopSites(rows: seq<Candidate>): (top: seq<RankedSite>)
    ensures |top| == if |rows| < TopCount then |rows| else TopCount
    ensures forall k | 0 <= k < |top| :: top[k].rank == k + 1
    ensures forall k, l | 0 <= k < l < |top| :: top[k].finalScore <= top[l].finalScore
    ensures forall k | 0 <= k < |top| :: Unrank(top[k]) in rows
    ensures multiset(Unranked(top)) <= multiset(rows)
  {
    var s := SortByScore(rows);
    var ranked := Ranked(s);
    var n := if |rows| < TopCount then |rows| else TopCount;
    assert forall k | 0 <= k < n :: Unrank(ranked[k]) in rows by {
      forall k | 0 <= k < n ensures Unrank(ranked[k]) in rows {
        SortedFromRows(rows, k);
      }
    }
    PrefixOfSorted(s, ranked[..n], rows);
    ranked[..n]
  }

  /** A prefix of the ranked sorted rows, unranked, is a sub-multiset of the rows. */
  lemma PrefixOfSorted(s: seq<Candidate>, top: seq<RankedSite>, rows: seq<Candidate>)
    requires multiset(s) == multiset(rows)
    requires |top| <= |s| && top == Ranked(s)[..|top|]
    ensures multiset(Unranked(top)) <= multiset(rows)
  {
    var n := |top|;
    assert Unranked(top) == s[..n];
    assert s == s[..n] + s[n..];
  }

  /** The top sites are the sorted rows' first entries, ranked. */
  lemma TopSitesArePrefix(rows: seq<Candidate>)
    ensures |TopSites(rows)| <= |SortByScore(rows)|
    ensures Unranked(TopSites(rows)) == SortByScore(rows)[..|TopSites(rows)|]
  {
    var s := SortByScore(rows);
    var top := TopSites(rows);
    assert top == Ranked(s)[..|top|];
  }

  /** No candidate left out of the top sites scores better than any site kept, duplicates counted. */
  lemma TopSitesLeftOutNoBetter(rows: seq<Candidate>)
    ensures forall r | r in multiset(rows) - multiset(Unranked(TopSites(rows))) ::
      forall k | 0 <= k < |TopSites(rows)| :: TopSites(rows)[k].finalScore <= r.finalScore
  {
    TopSitesArePrefix(rows);
    PrefixLeftOutNoBetter(SortByScore(rows), rows, TopSites(rows));
  }

  /** Ranking a prefix of a sorted permutation of rows leaves out nothing that scores better. */
  lemma PrefixLeftOutNoBetter(s: seq<Candidate>, rows: seq<Candidate>, top: seq<RankedSite>)
    requires SortedByScore(s) && multiset(s) == multiset(rows)
    requires |top| <= |s| && Unranked(top) == s[..|top|]
    ensures forall r | r in multiset(rows) - multiset(Unranked(top)) ::
      forall k | 0 <= k < |top| :: top[k].finalScore <= r.finalScore
  {
    var n := |top|;
    SuffixRemains(s, rows, n);
    SuffixNoBetter(s, n);
    forall r | r in multiset(rows) - multiset(Unranked(top))
      ensures forall k | 0 <= k < n :: top[k].finalScore <= r.finalScore
    {
      forall k | 0 <= k < n ensures top[k].finalScore <= r.finalScore {
        assert Unranked(top)[k] == s[k];
      }
    }
  }

  /** Taking a prefix of a permutation of rows away from the rows leaves the suffix. */
  lemma SuffixRemains(s: seq<Candidate>, rows: seq<Candidate>, n: nat)
    requires multiset(s) == multiset(rows) && n <= |s|
    ensures multiset(rows) - multiset(s[..n]) == multiset(s[n..])
  {
    assert s == s[..n] + s[n..];
  }

  /** In a sequence sorted by score, nothing past position n scores better than what precedes it. */
  lemma SuffixNoBetter(s: seq<Candidate>, n: nat)
    requires SortedByScore(s) && n <= |s|
    ensures forall r | r in multiset(s[n..]) :: forall k | 0 <= k < n :: s[k].finalScore <= r.finalScore
  {
    forall r | r in multiset(s[n..]) ensures forall k | 0 <= k < n :: s[k].finalScore <= r.finalScore {
      var p :| 0 <= p < |s[n..]| && s[n..][p] == r;
      assert s[n + p] == r;
    }
  }

  /** Whether row r is one of the first k top sites. */
  predicate KeptBefore(top: seq<RankedSite>, k: nat, r: Candidate) {
    exists p | 0 <= p < k && p < |top| :: Unrank(top[p]) == r
  }

  /** A row scoring strictly better than the k-th top site is among the sites ranked before it. */
  lemma TopSitesAreBest(rows: seq<Candidate>, k: nat, r: Candidate)
    requires k < |TopSites(rows)| && r in rows
    requires r.finalScore < TopSites(rows)[k].finalScore
    ensures KeptBefore(TopSites(rows), k, r)
  {
    var s := SortByScore(rows);
    var top := TopSites(rows);
    TopSitesArePrefix(rows);
    assert r in multiset(s);
    var p :| 0 <= p < |s| && s[p] == r;
    assert Unranked(top)[k] == s[k];
    ScoresBelowComeFirst(s, p, k);
    assert Unranked(top)[p] == r;
  }

  /** In a sequence sorted by score, an entry scoring strictly below the k-th stands before it. */
  lemma ScoresBelowComeFirst(s: seq<Candidate>, p: nat, k: nat)
    requires SortedByScore(s) && p < |s| && k < |s|
    requires s[p].finalScore < s[k].finalScore
    ensures p < k
  {
  }

  /** The first top site scores no worse than any candidate. */
  lemma TopSiteIsBest(rows: seq<Candidate>)
    requires |rows| > 0
    ensures |TopSites(rows)| > 0
    ensures forall r | r in rows :: TopSites(rows)[0].finalScore <= r.finalScore
  {
    var s := SortByScore(rows);
    forall r | r in rows ensures TopSites(rows)[0].finalScore <= r.finalScore {
      assert r in multiset(s);
      var p :| 0 <= p < |s| && s[p] == r;
      assert TopSites(rows)[0].finalScore == s[0].finalScore;
    }
  }

  /** With at most 500 candidates none is dropped: the top sites are the rows, reordered. */
  lemma TopSitesKeepAll(rows: seq<Candidate>)
    requires |rows| <= TopCount
    ensures multiset(Unranked(TopSites(rows))) == multiset(rows)
  {
    var s := SortByScore(rows);
    var top := TopSites(rows);
    assert |multiset(s)| == |multiset(rows)|;
    var unranked := Unranked(top);
    assert |unranked| == |s|;
    forall k | 0 <= k < |s| ensures unranked[k] == s[k] {
      assert top[k] == Ranked(s)[k];
    }
    assert unranked == s;
  }
}
