/**
  The weighted-sum (WSM) elicitation page: one slider of 0..100 per feature,
  the total of the sliders, the weights normalised to sum to 1 (with a
  denominator of 1 when every slider is at 0), the bar chart of the weights,
  and the page state that the sliders, the "Generate Rankings" button and the
  "Save My Map" button update.
*/
module WeightingPage {
  import opened Records
  import opened Sites

  /** Column key to display label, in the order the sliders are listed. */
  const FeatureLabels: Entries<string> := [
    ("homeless_service_dist", "Homeless Services Nearby"),
    ("transit_dist", "Transit Access"),
    ("assisted_housing_dist", "Assisted Housing Nearby"),
    ("public_housing_dist", "Affordable Housing Nearby"),
    ("city_facility_dist", "Nearby City Facilities"),
    ("general_plan_dist", "Urban Plan Priority Area"),
    ("water_fountain_dist", "Public Water Fountain Nearby"),
    ("man_water_dist", "Manual Water Access Nearby"),
    ("mobile_vending_dist", "Mobile Vending Access"),
    ("water_infrastructure_dist", "Access to Water Infrastructure"),
    ("streams_oakland_dist", "Proximity to Oakland Streams"),
    ("sewer_collection_dist", "Sewer Collection Distance"),
    ("wildfire_dist", "Wildfire Risk Proximity")
  ]

  /** The largest value a slider can take. */
  const MaxPct: nat := 100

  lemma FeatureLabelsDistinct()
    ensures DistinctKeys(FeatureLabels)
  {
    var f := FeatureLabels;
    assert |f[0].0| == 21 && |f[1].0| == 12 && |f[2].0| == 21 && |f[3].0| == 19;
    assert |f[4].0| == 18 && |f[5].0| == 17 && |f[6].0| == 19 && |f[7].0| == 14;
    assert |f[8].0| == 19 && |f[9].0| == 25 && |f[10].0| == 20 && |f[11].0| == 21;
    assert |f[12].0| == 13;
    assert f[0].0[0] == 'h' && f[2].0[0] == 'a' && f[11].0[0] == 's';
    assert f[3].0[0] == 'p' && f[6].0[0] == 'w' && f[8].0[0] == 'm';
  }

  function ZeroEntries(labels: Entries<string>): (zeros: Entries<nat>)
    ensures Keys(zeros) == Keys(labels)
    ensures forall i | 0 <= i < |zeros| :: zeros[i].1 == 0
  {
    seq(|labels|, i requires 0 <= i < |labels| => (labels[i].0, 0))
  }

  /** Every key of a record at 0, in the record's order, built with `Object.fromEntries`. */
  function Zeros(labels: Entries<string>): (w: Entries<nat>)
    requires DistinctKeys(labels)
    ensures w == ZeroEntries(labels)
  {
    var zeros := ZeroEntries(labels);
    assert DistinctKeys(zeros) by {
      forall i, j | 0 <= i < j < |zeros| ensures zeros[i].0 != zeros[j].0 {
        assert zeros[i].0 == Keys(zeros)[i] == labels[i].0;
        assert zeros[j].0 == Keys(zeros)[j] == labels[j].0;
      }
    }
    FromDistinctEntries(zeros);
    FromEntries(zeros)
  }

  /** The initial slider values: every feature of the catalogue at 0, in catalogue order. */
  function InitialWeights(): (w: Entries<nat>)
    ensures Keys(w) == Keys(FeatureLabels)
    ensures forall i | 0 <= i < |w| :: w[i].1 == 0
  {
    FeatureLabelsDistinct();
    Zeros(FeatureLabels)
  }

  lemma InitialWeightsValid()
    ensures Keys(InitialWeights()) == Keys(FeatureLabels)
    ensures forall e | e in InitialWeights() :: e.1 <= MaxPct
  {
    var w := InitialWeights();
    forall e | e in w ensures e.1 <= MaxPct {
      var i :| 0 <= i < |w| && w[i] == e;
    }
  }

  /** `totalPct`: the sum of the slider values (`b || 0` is b itself for a slider's number). */
  function TotalPct(w: Entries<nat>): (t: nat)
    ensures forall i | 0 <= i < |w| :: w[i].1 <= t
    ensures t == 0 <==> forall i | 0 <= i < |w| :: w[i].1 == 0
  {
    if w == [] then 0
    else
      var t := w[0].1 + TotalPct(w[1..]);
      assert forall i | 1 <= i < |w| :: w[i] == w[1..][i - 1];
      t
  }

  /** The denominator of the normalisation: the total, or 1 when it is 0. */
  function Denominator(w: Entries<nat>): (d: nat)
    ensures d > 0
    ensures TotalPct(w) > 0 ==> d == TotalPct(w)
    ensures TotalPct(w) == 0 ==> d == 1
  {
    if TotalPct(w) > 0 then TotalPct(w) else 1
  }

  function Divided(w: Entries<nat>, d: nat): (r: Entries<real>)
    requires d > 0
  {
    seq(|w|, i requires 0 <= i < |w| => (w[i].0, w[i].1 as real / d as real))
  }

  /** `weights01`: each slider value divided by the denominator, under the same key and in the same order. */
  function Weights01(w: Entries<nat>): (r: Entries<real>)
    ensures Keys(r) == Keys(w)
    ensures TotalPct(w) == 0 ==> forall i | 0 <= i < |r| :: r[i].1 == 0.0
    ensures forall i | 0 <= i < |r| :: 0.0 <= r[i].1 <= 1.0
  {
    var r := Divided(w, Denominator(w));
    assert forall i | 0 <= i < |r| :: 0.0 <= r[i].1 <= 1.0 by {
      forall i | 0 <= i < |r| ensures 0.0 <= r[i].1 <= 1.0 {
        FractionAtMostOne(w[i].1, Denominator(w));
      }
    }
    r
  }

  lemma FractionAtMostOne(x: nat, d: nat)
    requires d > 0 && (x <= d || x == 0)
    ensures 0.0 <= x as real / d as real <= 1.0
  {
  }

  /** The sum of the values of a record. */
  function WeightSum(r: Entries<real>): real {
    if r == [] then 0.0 else r[0].1 + WeightSum(r[1..])
  }

  lemma {:induction false} DividedSum(w: Entries<nat>, d: nat)
    requires d > 0
    ensures WeightSum(Divided(w, d)) == TotalPct(w) as real / d as real
  {
    if w != [] {
      DividedSum(w[1..], d);
      assert Divided(w, d)[1..] == Divided(w[1..], d);
      DivAdd(w[0].1 as real, TotalPct(w[1..]) as real, d as real);
    }
  }

  lemma DivAdd(a: real, b: real, d: real)
    requires d > 0.0
    ensures a / d + b / d == (a + b) / d
  {
  }

  /** Whenever some slider is above 0, the weights sum to 1. */
  lemma WeightsSumToOne(w: Entries<nat>)
    requires TotalPct(w) > 0
    ensures WeightSum(Weights01(w)) == 1.0
  {
    var t := TotalPct(w);
    assert Weights01(w) == Divided(w, t);
    DividedSum(w, t);
    DivSelf(t as real);
  }

  lemma DivSelf(x: real)
    requires x > 0.0
    ensures x / x == 1.0
  {
  }

  /** With some slider above 0, each weight is the slider's share of the total. */
  lemma WeightIsShare(w: Entries<nat>, i: nat)
    requires TotalPct(w) > 0 && i < |w|
    ensures Weights01(w)[i] == (w[i].0, w[i].1 as real / TotalPct(w) as real)
  {
  }

  // ----- Chart -----

  /** The bar label of a feature key: its catalogue label, or the key itself. */
  function ChartLabel(key: string): (shown: string)
    ensures shown == key || (key, shown) in FeatureLabels
    ensures key != "" ==> shown != ""
  {
    GetOrFallback(FeatureLabels, key, key)
  }

  /** `chartData`: one bar per weight, in the weights' order. */
  function ChartData(w01: Entries<real>): (rows: seq<(string, real)>)
    ensures |rows| == |w01|
    ensures forall k | 0 <= k < |rows| :: rows[k] == (ChartLabel(w01[k].0), w01[k].1)
  {
    seq(|w01|, k requires 0 <= k < |w01| => (ChartLabel(w01[k].0), w01[k].1))
  }

  /** A catalogue key is shown as its label; any other key as itself. */
  lemma ChartLabels(key: string, i: nat)
    requires i < |FeatureLabels|
    ensures key == FeatureLabels[i].0 ==> ChartLabel(key) == FeatureLabels[i].1
    ensures key !in Keys(FeatureLabels) ==> ChartLabel(key) == key
  {
    FeatureLabelsDistinct();
    GetEntry(FeatureLabels, i);
    assert FeatureLabels[i].1 != "";
    if key == FeatureLabels[i].0 {
      GetOrFallbackFound(FeatureLabels, key, FeatureLabels[i].1, key);
    }
  }

  // ----- Page state -----

  class WeightingSession {
    var weightsPct: Entries<nat>
    var mapData: seq<RankedSite>
    var loading: bool
    var userName: string
    var occupation: string
    var location: string
    var feedback: string
    var saveMessage: string
    /** Ranking requests sent and not yet settled. */
    ghost var inFlight: nat

    /**
      One slider value of 0..100 per catalogue feature, in catalogue order, and a
      request is in flight exactly while the page shows it is loading.
    */
    ghost predicate Valid()
      reads this
    {
      && inFlight == (if loading then 1 else 0)
      && Keys(weightsPct) == Keys(FeatureLabels)
      && forall e | e in weightsPct :: e.1 <= MaxPct
    }

    constructor ()
      ensures Valid() && inFlight == 0
      ensures weightsPct == InitialWeights() && mapData == [] && !loading
      ensures userName == "" && occupation == "" && location == "" && feedback == "" && saveMessage == ""
    {
      InitialWeightsValid();
      weightsPct, mapData, loading := InitialWeights(), [], false;
      userName, occupation, location, feedback, saveMessage := "", "", "", "", "";
      inFlight := 0;
    }

    /** Moving the slider of one feature: only that feature's value changes. */
    method SetSlider(key: string, value: nat)
      requires Valid() && key in Keys(FeatureLabels) && value <= MaxPct
      modifies this`weightsPct
      ensures Valid()
      ensures weightsPct == Set(old(weightsPct), key, value)
      ensures Get(weightsPct, key) == Some(value)
      ensures forall k | k != key :: Get(weightsPct, k) == Get(old(weightsPct), k)
    {
      SetExisting(weightsPct, key, value);
      SetEntries(weightsPct, key, value);
      weightsPct := Set(weightsPct, key, value);
    }

    /**
      A click on "Generate Rankings": `generate` sets `loading` and sends the
      normalised weights. The button is disabled while loading, so a click then does nothing.
    */
    method Generate() returns (request: Option<Entries<real>>)
      requires Valid()
      modifies this`loading, this`inFlight
      ensures Valid() && loading && inFlight == 1
      ensures old(loading) ==> request == None
      ensures !old(loading) ==> request == Some(Weights01(weightsPct))
    {
      if loading {
        request := None;
      } else {
        loading := true;
        inFlight := inFlight + 1;
        request := Some(Weights01(weightsPct));
      }
    }

    /** The request settles: a response replaces the sites (none if it lists none), an error leaves them. */
    method SettleGenerate(outcome: Outcome<Option<seq<RankedSite>>>)
      requires Valid() && loading
      modifies this`mapData, this`loading, this`inFlight
      ensures Valid() && !loading && inFlight == 0
      ensures outcome.Ok? ==> mapData == outcome.body.GetOr([])
      ensures outcome.Failed? ==> mapData == old(mapData)
    {
      if outcome.Ok? {
        mapData := outcome.body.GetOr([]);
      }
      loading := false;
      inFlight := inFlight - 1;
    }

    /**
      `saveSubmission`'s body: the user's details, the method tag "WSM", the weights and the sites.
      The button is only on the page once there are sites to show.
    */
    function SubmissionRequest(): (p: SavePayload)
      reads this
      requires |mapData| > 0
      ensures p.methodTag == Some("WSM") && p.weights == Weights01(weightsPct) && p.topSites == mapData
      ensures p.name == userName && p.occupation == occupation && p.location == location && p.feedback == feedback
    {
      SavePayload(userName, occupation, location, feedback, Some("WSM"), Weights01(weightsPct), mapData)
    }

    /** The save request settles: only the message changes. */
    method SettleSaveSubmission(saved: bool)
      requires Valid()
      modifies this`saveMessage
      ensures Valid()
      ensures saveMessage == SaveMessage(saved)
    {
      saveMessage := SaveMessage(saved);
    }
  }

  /** On a page in a valid state the weights sent are one per catalogue feature, each in [0, 1]. */
  lemma ValidWeights(w: Entries<nat>)
    requires Keys(w) == Keys(FeatureLabels)
    ensures Keys(Weights01(w)) == Keys(FeatureLabels)
    ensures |Weights01(w)| == 13
  {
  }

  /** At the start every slider is at 0, so the weights are all 0 and no division by zero occurs. */
  lemma InitialWeightsAllZero()
    ensures TotalPct(InitialWeights()) == 0
    ensures Denominator(InitialWeights()) == 1
    ensures forall i | 0 <= i < |Weights01(InitialWeights())| :: Weights01(InitialWeights())[i].1 == 0.0
  {
  }
}
