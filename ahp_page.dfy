/**
  The pairwise-comparison (AHP) elicitation page: the catalogue of the six
  criteria, the list of criterion pairs the page asks about, the key under
  which each pair's judgment is stored, the five judgment options, the chart
  labels of the returned weights, and the page state that the select boxes,
  the "Compute Priorities" button and the "Save My Map" button update.
*/
module AhpPage {
  import opened Records
  import opened Sites

  // ----- Feature catalogue -----

  /** The criteria in the order the page lists them. */
  const Features: seq<string> := [
    "Transit Access",
    "Homeless Services Nearby",
    "Affordable Housing Nearby",
    "Access to Water Infrastructure",
    "Nearby City Facilities",
    "Urban Plan Priority Area"
  ]

  /** Display label to the column key the ranking service uses. */
  const FeatureMap: Entries<string> := [
    ("Transit Access", "transit_dist"),
    ("Homeless Services Nearby", "homeless_service_dist"),
    ("Affordable Housing Nearby", "public_housing_dist"),
    ("Access to Water Infrastructure", "water_infrastructure_dist"),
    ("Nearby City Facilities", "city_facility_dist"),
    ("Urban Plan Priority Area", "general_plan_dist")
  ]

  function Swapped(r: Entries<string>): (s: Entries<string>)
    ensures |s| == |r| && forall i | 0 <= i < |r| :: s[i] == (r[i].1, r[i].0)
  {
    seq(|r|, i requires 0 <= i < |r| => (r[i].1, r[i].0))
  }

  /** Column key back to display label, built with `Object.fromEntries`. */
  const ReverseMap: Entries<string> := FromEntries(Swapped(FeatureMap))

  predicate Distinct(fs: seq<string>) {
    forall i, j | 0 <= i < j < |fs| :: fs[i] != fs[j]
  }

  /** Neither two labels nor two column keys of the catalogue coincide. */
  lemma FeatureMapDistinct()
    ensures DistinctKeys(FeatureMap) && DistinctKeys(Swapped(FeatureMap))
  {
    var s := Swapped(FeatureMap);
    assert |s[0].0| == 12 && |s[1].0| == 21 && |s[2].0| == 19;
    assert |s[3].0| == 25 && |s[4].0| == 18 && |s[5].0| == 17;
    assert |FeatureMap[0].0| == 14 && |FeatureMap[1].0| == 24 && |FeatureMap[2].0| == 25;
    assert |FeatureMap[3].0| == 30 && |FeatureMap[4].0| == 22 && |FeatureMap[5].0| == 24;
    assert FeatureMap[1].0[0] == 'H' && FeatureMap[5].0[0] == 'U';
  }

  /** The column keys are distinct, so the reverse map loses no entry. */
  lemma ReverseMapIsSwapped()
    ensures ReverseMap == Swapped(FeatureMap)
    ensures DistinctKeys(FeatureMap) && DistinctKeys(ReverseMap)
  {
    FeatureMapDistinct();
    FromDistinctEntries(Swapped(FeatureMap));
  }

  /** Looking a label's column key up in the reverse map gives the label back. */
  lemma ReverseMapInverts(i: nat)
    requires i < |Features|
    ensures Get(FeatureMap, Features[i]) == Some(FeatureMap[i].1)
    ensures Get(ReverseMap, FeatureMap[i].1) == Some(Features[i])
  {
    ReverseMapIsSwapped();
    FeatureLabelNonEmpty(i);
    GetEntry(FeatureMap, i);
    GetEntry(ReverseMap, i);
    assert ReverseMap[i] == (FeatureMap[i].1, FeatureMap[i].0);
  }

  // ----- Pairs of criteria -----

  /** The index pairs (i, j), i < j < n, of row i. */
  function RowIndices(i: nat, j: nat): (row: seq<(nat, nat)>)
    requires i < j
    ensures |row| == j - i - 1
    ensures forall k | 0 <= k < |row| :: row[k] == (i, i + 1 + k)
  {
    seq(j - i - 1, k requires 0 <= k < j - i - 1 => (i, i + 1 + k))
  }

  /** The index pairs of rows 0 .. rows-1, in the order of the nested loops of `allPairs`. */
  function PairIndices(n: nat, rows: nat): (ps: seq<(nat, nat)>)
    requires rows <= n
    ensures forall k | 0 <= k < |ps| :: ps[k].0 < rows && ps[k].0 < ps[k].1 < n
  {
    if rows == 0 then [] else PairIndices(n, rows - 1) + RowIndices(rows - 1, n)
  }

  function Label(fs: seq<string>, ix: seq<(nat, nat)>): seq<(string, string)>
    requires forall k | 0 <= k < |ix| :: ix[k].0 < |fs| && ix[k].1 < |fs|
  {
    seq(|ix|, k requires 0 <= k < |ix| => (fs[ix[k].0], fs[ix[k].1]))
  }

  /** Pushing pair (i, j) extends the labelled list by row i's next pair. */
  lemma LabelPush(fs: seq<string>, done: seq<(nat, nat)>, i: nat, j: nat)
    requires i < j < |fs|
    requires forall k | 0 <= k < |done| :: done[k].0 < |fs| && done[k].1 < |fs|
    ensures Label(fs, done + RowIndices(i, j)) + [(fs[i], fs[j])] == Label(fs, done + RowIndices(i, j + 1))
  {
    assert done + RowIndices(i, j + 1) == (done + RowIndices(i, j)) + [(i, j)];
  }

  /** p is (fs[i], fs[j]) for some i < j: the earlier label comes first. */
  predicate OrderedPairOf(fs: seq<string>, p: (string, string)) {
    exists i, j | 0 <= i < j < |fs| :: p == (fs[i], fs[j])
  }

  /** The pairs `allPairs` lists for the given labels. */
  function Pairs(fs: seq<string>): (ps: seq<(string, string)>)
    ensures 2 * |ps| == |fs| * (|fs| - 1)
  {
    PairIndicesCount(|fs|, |fs|);
    Label(fs, PairIndices(|fs|, |fs|))
  }

  /** `allPairs`: two nested loops that push every pair, the earlier label first. */
  method AllPairs(features: seq<string>) returns (pairs: seq<(string, string)>)
    ensures pairs == Pairs(features)
    ensures |pairs| == |features| * (|features| - 1) / 2
    ensures forall k | 0 <= k < |pairs| :: OrderedPairOf(features, pairs[k])
  {
    var n := |features|;
    pairs := [];
    for i := 0 to n
      invariant pairs == Label(features, PairIndices(n, i))
    {
      for j := i + 1 to n
        invariant pairs == Label(features, PairIndices(n, i) + RowIndices(i, j))
      {
        LabelPush(features, PairIndices(n, i), i, j);
        pairs := pairs + [(features[i], features[j])];
      }
    }
    PairsCount(features);
    PairsShape(features);
  }

  lemma {:induction false} PairIndicesCount(n: nat, rows: nat)
    requires rows <= n
    ensures 2 * |PairIndices(n, rows)| == rows * (2 * n - rows - 1)
  {
    if rows > 0 {
      PairIndicesCount(n, rows - 1);
      RowStep(n, rows - 1);
    }
  }

  lemma RowStep(n: int, r: int)
    ensures (r + 1) * (2 * n - (r + 1) - 1) == r * (2 * n - r - 1) + 2 * (n - r - 1)
  {
    assert (r + 1) * (2 * n - r - 2) == r * (2 * n - r - 2) + (2 * n - r - 2);
    assert r * (2 * n - r - 2) == r * (2 * n - r - 1) - r;
  }

  /** Pairs come out in strictly increasing lexicographic order of their index pairs. */
  predicate LexLess(p: (nat, nat), q: (nat, nat)) {
    p.0 < q.0 || (p.0 == q.0 && p.1 < q.1)
  }

  lemma {:induction false} PairIndicesSorted(n: nat, rows: nat)
    requires rows <= n
    ensures forall a, b | 0 <= a < b < |PairIndices(n, rows)| :: LexLess(PairIndices(n, rows)[a], PairIndices(n, rows)[b])
  {
    if rows > 0 {
      PairIndicesSorted(n, rows - 1);
      var prev, row := PairIndices(n, rows - 1), RowIndices(rows - 1, n);
      var ps := PairIndices(n, rows);
      forall a, b | 0 <= a < b < |ps| ensures LexLess(ps[a], ps[b]) {
        if b < |prev| {
          assert ps[a] == prev[a] && ps[b] == prev[b];
        } else if a < |prev| {
          assert ps[a] == prev[a] && ps[b] == row[b - |prev|];
        } else {
          assert ps[a] == row[a - |prev|] && ps[b] == row[b - |prev|];
        }
      }
    }
  }

  lemma {:induction false} PairIndicesComplete(n: nat, rows: nat, a: nat, b: nat)
    requires a < b < n && a < rows <= n
    ensures (a, b) in PairIndices(n, rows)
  {
    if a == rows - 1 {
      var row := RowIndices(rows - 1, n);
      assert row[b - a - 1] == (a, b);
      assert PairIndices(n, rows)[|PairIndices(n, rows - 1)| + b - a - 1] == (a, b);
    } else {
      PairIndicesComplete(n, rows - 1, a, b);
    }
  }

  /** n labels give n(n-1)/2 pairs, none when n < 2. */
  lemma PairsCount(fs: seq<string>)
    ensures |Pairs(fs)| == |fs| * (|fs| - 1) / 2
    ensures |fs| < 2 ==> Pairs(fs) == []
  {
    PairIndicesCount(|fs|, |fs|);
  }

  /** Every listed pair is (fs[i], fs[j]) with i < j, and every such pair is listed. */
  lemma PairsShape(fs: seq<string>)
    ensures forall k | 0 <= k < |Pairs(fs)| :: OrderedPairOf(fs, Pairs(fs)[k])
    ensures forall i, j | 0 <= i < j < |fs| :: (fs[i], fs[j]) in Pairs(fs)
  {
    var ix := PairIndices(|fs|, |fs|);
    forall k | 0 <= k < |Pairs(fs)|
      ensures OrderedPairOf(fs, Pairs(fs)[k])
    {
      var i, j := ix[k].0, ix[k].1;
      assert 0 <= i < j < |fs| && Pairs(fs)[k] == (fs[i], fs[j]);
    }
    forall i, j | 0 <= i < j < |fs| ensures (fs[i], fs[j]) in Pairs(fs) {
      PairIndicesComplete(|fs|, |fs|, i, j);
      var k :| 0 <= k < |ix| && ix[k] == (i, j);
      assert Pairs(fs)[k] == (fs[i], fs[j]);
    }
  }

  /**
    For distinct labels: no pair repeats a label, no pair is listed twice, and
    a pair of earlier labels (in the catalogue's lexicographic index order) is
    listed before a pair of later ones.
  */
  lemma PairsOrdered(fs: seq<string>, a: nat, b: nat, i1: nat, j1: nat, i2: nat, j2: nat)
    requires Distinct(fs)
    requires a < |Pairs(fs)| && b < |Pairs(fs)|
    requires i1 < j1 < |fs| && i2 < j2 < |fs|
    requires Pairs(fs)[a] == (fs[i1], fs[j1]) && Pairs(fs)[b] == (fs[i2], fs[j2])
    ensures a < b <==> LexLess((i1, j1), (i2, j2))
    ensures a == b <==> (i1, j1) == (i2, j2)
  {
    var ix := PairIndices(|fs|, |fs|);
    PairIndicesSorted(|fs|, |fs|);
    assert fs[ix[a].0] == fs[i1] && fs[ix[a].1] == fs[j1];
    assert fs[ix[b].0] == fs[i2] && fs[ix[b].1] == fs[j2];
    assert ix[a] == (i1, j1) && ix[b] == (i2, j2);
  }

  /** For distinct labels no listed pair pairs a label with itself, and no pair is listed twice. */
  lemma PairsDistinct(fs: seq<string>)
    requires Distinct(fs)
    ensures forall k | 0 <= k < |Pairs(fs)| :: Pairs(fs)[k].0 != Pairs(fs)[k].1
    ensures forall a, b | 0 <= a < b < |Pairs(fs)| :: Pairs(fs)[a] != Pairs(fs)[b]
  {
    var ix := PairIndices(|fs|, |fs|);
    PairIndicesSorted(|fs|, |fs|);
    forall a, b | 0 <= a < b < |Pairs(fs)| ensures Pairs(fs)[a] != Pairs(fs)[b] {
      assert LexLess(ix[a], ix[b]);
      if ix[a].0 == ix[b].0 {
        assert fs[ix[a].1] != fs[ix[b].1];
      } else {
        assert fs[ix[a].0] != fs[ix[b].0];
      }
    }
  }

  // ----- Comparison keys -----

  const Separator: string := "__vs__"

  /** The key a pair's judgment is stored under. */
  function ComparisonKey(f1: string, f2: string): (key: string)
    ensures |key| == |f1| + |Separator| + |f2|
    ensures key[..|f1|] == f1 && key[|f1| + |Separator|..] == f2
  {
    f1 + Separator + f2
  }

  /** A key decodes to one pair when the first label cannot contain the separator's '_'. */
  lemma KeyInjective(a: string, b: string, c: string, d: string)
    requires '_' !in a && '_' !in c
    requires ComparisonKey(a, b) == ComparisonKey(c, d)
    ensures a == c && b == d
  {
    var key := ComparisonKey(a, b);
    assert key == a + Separator + b && key == c + Separator + d;
    // the first '_' of the key ends the first label
    assert key[|a|] == '_' && forall i | 0 <= i < |a| :: key[i] != '_';
    assert key[|c|] == '_' && forall i | 0 <= i < |c| :: key[i] != '_';
    assert |a| == |c|;
  }

  /** No catalogue label contains '_'. */
  lemma FeaturesWithoutUnderscore()
    ensures forall i | 0 <= i < |Features| :: '_' !in Features[i]
  {
  }

  lemma FeaturesDistinct()
    ensures Distinct(Features)
  {
    assert |Features[0]| == 14 && |Features[1]| == 24 && |Features[2]| == 25;
    assert |Features[3]| == 30 && |Features[4]| == 22 && |Features[5]| == 24;
    assert Features[1][0] == 'H' && Features[5][0] == 'U';
  }

  /** The fifteen pairs of the catalogue have fifteen different keys. */
  lemma CatalogKeysDistinct()
    ensures |Pairs(Features)| == 15
    ensures forall a, b | 0 <= a < b < |Pairs(Features)| ::
      ComparisonKey(Pairs(Features)[a].0, Pairs(Features)[a].1) != ComparisonKey(Pairs(Features)[b].0, Pairs(Features)[b].1)
  {
    PairsCount(Features);
    FeaturesDistinct();
    PairsDistinct(Features);
    FeaturesWithoutUnderscore();
    PairsShape(Features);
    var ps := Pairs(Features);
    forall a, b | 0 <= a < b < |ps| ensures ComparisonKey(ps[a].0, ps[a].1) != ComparisonKey(ps[b].0, ps[b].1) {
      if ComparisonKey(ps[a].0, ps[a].1) == ComparisonKey(ps[b].0, ps[b].1) {
        assert ps[a].0 in Features && ps[b].0 in Features;
        KeyInjective(ps[a].0, ps[a].1, ps[b].0, ps[b].1);
        assert false;
      }
    }
  }

  // ----- Judgments -----

  datatype Judgment = FirstMuchMore | FirstMore | Equal | SecondMore | SecondMuchMore

  /** The text of the option a judgment is stored as. */
  function OptionText(f1: string, f2: string, j: Judgment): (t: string)
    ensures t == "Equal" <==> j == Equal
  {
    match j
    case FirstMuchMore => NotEqualText(f1 + " much more"); f1 + " much more"
    case FirstMore => NotEqualText(f1 + " more"); f1 + " more"
    case Equal => "Equal"
    case SecondMore => NotEqualText(f2 + " more"); f2 + " more"
    case SecondMuchMore => NotEqualText(f2 + " much more"); f2 + " much more"
  }

  /** The option a select box shows for a value: the first option whose text it is. */
  function SelectedOption(f1: string, f2: string, value: string): (o: Option<Judgment>)
    ensures o.Some? ==> OptionText(f1, f2, o.value) == value
  {
    if value == OptionText(f1, f2, FirstMuchMore) then Some(FirstMuchMore)
    else if value == OptionText(f1, f2, FirstMore) then Some(FirstMore)
    else if value == OptionText(f1, f2, Equal) then Some(Equal)
    else if value == OptionText(f1, f2, SecondMore) then Some(SecondMore)
    else if value == OptionText(f1, f2, SecondMuchMore) then Some(SecondMuchMore)
    else None
  }

  /** Two labels whose five option texts cannot coincide. */
  predicate Distinguishable(f1: string, f2: string) {
    f1 != f2 && f1 != f2 + " much" && f2 != f1 + " much"
  }

  lemma AppendDiffers(x: string, y: string, s: string)
    requires x != y
    ensures x + s != y + s
  {
    if |x| == |y| {
      assert !(forall i | 0 <= i < |x| :: x[i] == y[i]);
      var i :| 0 <= i < |x| && x[i] != y[i];
      assert (x + s)[i] != (y + s)[i];
    }
  }

  lemma PrependDiffers(s: string, x: string, y: string)
    requires x != y
    ensures s + x != s + y
  {
    if |x| == |y| {
      assert !(forall i | 0 <= i < |x| :: x[i] == y[i]);
      var i :| 0 <= i < |x| && x[i] != y[i];
      assert (s + x)[|s| + i] != (s + y)[|s| + i];
    }
  }

  /** For distinguishable labels, different judgments are stored as different texts. */
  lemma OptionTextsDiffer(f1: string, f2: string, j1: Judgment, j2: Judgment)
    requires Distinguishable(f1, f2) && j1 != j2
    ensures OptionText(f1, f2, j1) != OptionText(f1, f2, j2)
  {
    assert f1 + " much more" == (f1 + " much") + " more";
    assert f2 + " much more" == (f2 + " much") + " more";
    match (j1, j2)
    case (FirstMuchMore, FirstMore) => PrependDiffers(f1, " much more", " more");
    case (FirstMore, FirstMuchMore) => PrependDiffers(f1, " more", " much more");
    case (SecondMuchMore, SecondMore) => PrependDiffers(f2, " much more", " more");
    case (SecondMore, SecondMuchMore) => PrependDiffers(f2, " more", " much more");
    case (FirstMuchMore, SecondMuchMore) => AppendDiffers(f1, f2, " much more");
    case (SecondMuchMore, FirstMuchMore) => AppendDiffers(f2, f1, " much more");
    case (FirstMore, SecondMore) => AppendDiffers(f1, f2, " more");
    case (SecondMore, FirstMore) => AppendDiffers(f2, f1, " more");
    case (FirstMuchMore, SecondMore) => AppendDiffers(f1 + " much", f2, " more");
    case (SecondMore, FirstMuchMore) => AppendDiffers(f2, f1 + " much", " more");
    case (SecondMuchMore, FirstMore) => AppendDiffers(f2 + " much", f1, " more");
    case (FirstMore, SecondMuchMore) => AppendDiffers(f1, f2 + " much", " more");
    case (FirstMore, Equal) => NotEqualText(f1 + " more");
    case (Equal, FirstMore) => NotEqualText(f1 + " more");
    case (SecondMore, Equal) => NotEqualText(f2 + " more");
    case (Equal, SecondMore) => NotEqualText(f2 + " more");
    case (FirstMuchMore, Equal) => NotEqualText(f1 + " much more");
    case (Equal, FirstMuchMore) => NotEqualText(f1 + " much more");
    case (SecondMuchMore, Equal) => NotEqualText(f2 + " much more");
    case (Equal, SecondMuchMore) => NotEqualText(f2 + " much more");
    case _ =>
  }

  /** A text ending in " more" is never the text "Equal". */
  lemma NotEqualText(t: string)
    requires |t| >= 5 && t[|t| - 5] == ' '
    ensures t != "Equal"
  {
    assert "Equal"[0] == 'E';
  }

  /** Different judgments of distinguishable labels are stored as different texts. */
  lemma OptionTextInjective(f1: string, f2: string)
    requires Distinguishable(f1, f2)
    ensures forall j1, j2 | OptionText(f1, f2, j1) == OptionText(f1, f2, j2) :: j1 == j2
  {
    forall j1, j2 ensures OptionText(f1, f2, j1) == OptionText(f1, f2, j2) ==> j1 == j2 {
      if j1 != j2 {
        OptionTextsDiffer(f1, f2, j1, j2);
      }
    }
  }

  /** Selecting an option and showing it again gives back the same judgment. */
  lemma SelectRoundTrip(f1: string, f2: string, j: Judgment)
    requires Distinguishable(f1, f2)
    ensures SelectedOption(f1, f2, OptionText(f1, f2, j)) == Some(j)
  {
    var o := SelectedOption(f1, f2, OptionText(f1, f2, j));
    assert o.Some? by {
      match j
      case FirstMuchMore =>
      case FirstMore =>
      case Equal =>
      case SecondMore =>
      case SecondMuchMore =>
    }
    OptionTextInjective(f1, f2);
  }

  /** The select box's value for a key: the stored text, or "Equal" for an unset or empty one. */
  function DisplayedValue(comparisons: map<string, string>, key: string): (v: string)
    ensures v != ""
    ensures key !in comparisons ==> v == "Equal"
    ensures key in comparisons && comparisons[key] != "" ==> v == comparisons[key]
    ensures v == "Equal" || (key in comparisons && v == comparisons[key])
  {
    if key in comparisons && comparisons[key] != "" then comparisons[key] else "Equal"
  }

  /** An unset pair shows "Equal"; a pair set to an option shows that option. */
  lemma DisplayedJudgment(comparisons: map<string, string>, f1: string, f2: string, j: Judgment)
    requires Distinguishable(f1, f2)
    ensures ComparisonKey(f1, f2) !in comparisons ==>
      SelectedOption(f1, f2, DisplayedValue(comparisons, ComparisonKey(f1, f2))) == Some(Equal)
    ensures SelectedOption(f1, f2, DisplayedValue(comparisons[ComparisonKey(f1, f2) := OptionText(f1, f2, j)], ComparisonKey(f1, f2))) == Some(j)
  {
    SelectRoundTrip(f1, f2, Equal);
    SelectRoundTrip(f1, f2, j);
    assert OptionText(f1, f2, j) != "" by {
      match j
      case FirstMuchMore =>
      case FirstMore =>
      case Equal =>
      case SecondMore =>
      case SecondMuchMore =>
    }
  }

  // ----- Result chart -----

  /** The bar label of a returned weight: the catalogue label, or the raw key. */
  function ChartLabel(key: string): (shown: string)
    ensures shown == key || (key, shown) in ReverseMap
    ensures key != "" ==> shown != ""
  {
    GetOrFallback(ReverseMap, key, key)
  }

  /** A column key of the catalogue is shown as its label. */
  lemma ChartLabelKnown(i: nat)
    requires i < |FeatureMap|
    ensures ChartLabel(FeatureMap[i].1) == FeatureMap[i].0
  {
    ReverseMapInverts(i);
    FeatureLabelNonEmpty(i);
    GetOrFallbackFound(ReverseMap, FeatureMap[i].1, Features[i], FeatureMap[i].1);
  }

  lemma FeatureLabelNonEmpty(i: nat)
    requires i < |FeatureMap|
    ensures Features[i] == FeatureMap[i].0 && Features[i] != ""
  {
  }

  /** Any other key is shown as itself. */
  lemma ChartLabelUnknown(key: string)
    requires forall i | 0 <= i < |FeatureMap| :: key != FeatureMap[i].1
    ensures ChartLabel(key) == key
  {
    ReverseMapIsSwapped();
    assert key !in Keys(Swapped(FeatureMap));
  }

  /** The chart data: one bar per returned weight, in the response's order. */
  function ChartRows(result: Entries<real>): (rows: seq<(string, real)>)
    ensures |rows| == |result|
    ensures forall k | 0 <= k < |rows| :: rows[k] == (ChartLabel(result[k].0), result[k].1)
  {
    seq(|result|, k requires 0 <= k < |result| => (ChartLabel(result[k].0), result[k].1))
  }

  // ----- Page state -----

  /** The response of the pairwise ranking request. */
  datatype AhpResponse = AhpResponse(weights: Entries<real>, topSites: seq<RankedSite>)

  class AhpSession {
    var comparisons: map<string, string>
    var result: Entries<real>
    var mapData: seq<RankedSite>
    var loading: bool
    var userName: string
    var occupation: string
    var location: string
    var feedback: string
    var saveMessage: string
    /** Ranking requests sent and not yet settled. */
    ghost var inFlight: nat

    /** A request is in flight exactly while the page shows it is loading. */
    ghost predicate Valid()
      reads this
    {
      inFlight == if loading then 1 else 0
    }

    constructor ()
      ensures Valid() && inFlight == 0
      ensures comparisons == map[] && result == [] && mapData == [] && !loading
      ensures userName == "" && occupation == "" && location == "" && feedback == "" && saveMessage == ""
    {
      comparisons, result, mapData, loading := map[], [], [], false;
      userName, occupation, location, feedback, saveMessage := "", "", "", "", "";
      inFlight := 0;
    }

    /** `handleChange`: record the option chosen for one pair; every other pair keeps its value. */
    method HandleChange(key: string, value: string)
      requires Valid()
      modifies this`comparisons
      ensures Valid()
      ensures comparisons == old(comparisons)[key := value]
      ensures forall k | k != key :: (k in comparisons <==> k in old(comparisons))
      ensures forall k | k != key && k in comparisons :: comparisons[k] == old(comparisons)[k]
    {
      comparisons := comparisons[key := value];
    }

    /**
      A click on "Compute Priorities": `submit` sets `loading` and sends the
      comparisons. The button is disabled while loading, so a click then does nothing.
    */
    method Submit() returns (request: Option<map<string, string>>)
      requires Valid()
      modifies this`loading, this`inFlight
      ensures Valid() && loading && inFlight == 1
      ensures old(loading) ==> request == None
      ensures !old(loading) ==> request == Some(comparisons)
    {
      if loading {
        request := None;
      } else {
        loading := true;
        inFlight := inFlight + 1;
        request := Some(comparisons);
      }
    }

    /** The awaited request settles: a response replaces the results, an error leaves them. */
    method SettleSubmit(outcome: Outcome<AhpResponse>)
      requires Valid() && loading
      modifies this`result, this`mapData, this`loading, this`inFlight
      ensures Valid() && !loading && inFlight == 0
      ensures outcome.Ok? ==> result == outcome.body.weights && mapData == outcome.body.topSites
      ensures outcome.Failed? ==> result == old(result) && mapData == old(mapData)
    {
      if outcome.Ok? {
        result := outcome.body.weights;
        mapData := outcome.body.topSites;
      }
      loading := false;
      inFlight := inFlight - 1;
    }

    /**
      The body "Save My Map" posts: the user's details, the returned weights and sites, no method tag.
      The button is only on the page once there are sites to show.
    */
    function SaveRequest(): (p: SavePayload)
      reads this
      requires |mapData| > 0
      ensures p.methodTag.None? && p.weights == result && p.topSites == mapData
      ensures p.name == userName && p.occupation == occupation && p.location == location && p.feedback == feedback
    {
      SavePayload(userName, occupation, location, feedback, None, result, mapData)
    }

    /** The save request settles: only the message changes. */
    method SettleSave(saved: bool)
      requires Valid()
      modifies this`saveMessage
      ensures Valid()
      ensures saveMessage == SaveMessage(saved)
    {
      saveMessage := SaveMessage(saved);
    }
  }
}
