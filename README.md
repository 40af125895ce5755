# Tiny-home siting: preference capture and ranking inputs

This project models the part of the tiny-home siting tool that turns a
user's preferences into the inputs of the site ranking, and the part that
presents the ranked result. It has two elicitation pages and one ranking
service:

- The **pairwise (AHP) page** lists every pair of six siting criteria.
  - It stores the user's judgment for each pair under the key `f1__vs__f2`.
  - Each judgment is one of five texts ("X much more", "X more", "Equal",
    "Y more", "Y much more"). A pair never touched reads as "Equal".
- The **ranking service** decodes those judgments into a reciprocal
  pairwise-comparison matrix over the scale {5, 3, 1, 1/3, 1/5}.
  - It min-max normalises each criterion column.
  - It sorts the candidate sites by their final score, lowest first, numbers
    them 1, 2, … and returns the best 500.
- The **weighted-sum (WSM) page** has one slider of 0–100 per criterion (13
  criteria).
  - The weights it sends are the slider values divided by their total.
  - When every slider is at 0, the divisor is 1.
- **Both pages** share the rest of the behaviour:
  - They colour the returned sites in five rank bands.
  - They centre the map on the first site, or on a fixed point in Oakland
    when there are no sites.
  - They label chart bars by the catalogue label, falling back to the raw key.
  - They run a small state machine: edit the inputs, send one ranking
    request at a time, settle it with a response or an error, and optionally
    save the result.

The model has six modules:

- `Records`: JavaScript objects as ordered entries. A spread update replaces
  a key in place or appends it. `Object.fromEntries` applies the updates in
  order.
- `Sites`: ranked sites, colour bands, the map centre, the save payload and
  its messages.
- `AhpPage`: the pairwise page.
  - The six-criterion catalogue and its reverse map.
  - `allPairs` as an imperative nested loop, the comparison key, the five
    options and the displayed default.
  - The page state as a class.
- `WeightingPage`: the weighted-sum page.
  - The 13-feature catalogue, the initial zero weights, `totalPct`,
    `weights01` and the chart data.
  - The page state as a class.
- `Backend`: the service's criteria.
  - The comparison matrix, built in place in an `array2` by the service's
    nested loops.
  - `min_max_normalize`, and the sorting, ranking and top-500 cut.
- `Agreement`: how the page and the service fit together.
  - Both list the same criteria in the same order and build the same keys.
  - Every offered option decodes to the scale it names, never to the
    fallback 1.
  - What the page displays for a pair is what enters the matrix.
  - The map opens on the best site.

A few conventions are modelled explicitly:

- An asynchronous request is two steps: a *begin* step that sets `loading`
  and returns the request, and a *settle* step that takes either the
  response body or a failure. The button is disabled while `loading`, so a
  begin step while loading does nothing. A ghost counter of requests in
  flight shows that there is never more than one.
- JavaScript's `x || d` also falls back when `x` is the empty string, and
  the model keeps this:
  - in `comparisons[key] || "Equal"`;
  - in `reverseMap[k] || k`;
  - in `FEATURE_LABELS[k] || k`.
- In the service's scale table, a later duplicate key would win over an
  earlier one, so the decoder tries the options from the last to the first.
- Slider values are `nat`. Weights, matrix entries, scores and coordinates
  are exact `real`s.

## Model

| member | source | states |
|---|---|---|
| Records.Get | frontend/src/pages/AHPPage.tsx:142 | Looking up a key gives nothing exactly when the key is absent, and otherwise the value of an entry with that key. |
| Records.Set | frontend/src/pages/LinearWeightingPage.tsx:146-149 | After `{ ...prev, [k]: v }`, k maps to v and every other key maps to what it did before. |
| Records.SetExisting | frontend/src/pages/LinearWeightingPage.tsx:146-149 | Updating a key that is already present keeps the keys and their order unchanged. |
| Records.SetNew | frontend/src/pages/LinearWeightingPage.tsx:146-149 | Updating a key that is absent appends the new entry at the end. |
| Records.SetEntries | frontend/src/pages/LinearWeightingPage.tsx:146-149 | The update adds no entry other than (k, v). |
| Records.FromEntries | frontend/src/pages/AHPPage.tsx:26-28 | `Object.fromEntries` has exactly the keys of its input entries, and each entry comes from the input. |
| Records.SetKeys | frontend/src/pages/LinearWeightingPage.tsx:146-149 | After the update, the keys are the old keys plus k. |
| Records.FromDistinctEntries | frontend/src/pages/AHPPage.tsx:26-28 | `Object.fromEntries` over entries with distinct keys returns exactly those entries, in order. |
| Records.GetEntry | frontend/src/pages/AHPPage.tsx:142 | In a record without repeated keys, looking up an entry's key gives that entry's value. |
| Records.GetOrFallback | frontend/src/pages/AHPPage.tsx:142 | `r[k] \|\| fallback` gives the fallback for a missing key, and otherwise the stored value or the fallback. It is empty only if the fallback is. |
| Records.GetOrFallbackFound | frontend/src/pages/AHPPage.tsx:142 | A stored non-empty value is returned rather than the fallback. |
| Sites.Band | frontend/src/pages/AHPPage.tsx:78-84 | A reference definition of the five bands: every rank falls in band 1..5, band 1 exactly for ranks ≤ 100, and band 5 exactly for ranks > 400. |
| Sites.RankColor | frontend/src/pages/AHPPage.tsx:78-84 | `getRankColor` always returns a palette colour. It returns the most emphasised colour exactly for ranks ≤ 100, and the least emphasised colour exactly for ranks > 400. |
| Sites.RankColorIsBandColor | frontend/src/pages/AHPPage.tsx:78-84 | `getRankColor` is total and returns the palette colour of the rank's band. |
| Sites.BandMonotone | frontend/src/pages/AHPPage.tsx:78-84 | The band never becomes more emphasised as the rank grows. |
| Sites.ColorDeterminesBand | frontend/src/pages/AHPPage.tsx:78-84 | Two ranks get the same colour if and only if they are in the same band. |
| Sites.MapCenter | frontend/src/pages/AHPPage.tsx:86-88 | The map centre is the first site's position, or (37.8044, -122.2712) when there are no sites. |
| Sites.SaveMessage | frontend/src/pages/AHPPage.tsx:240-243 | The message after a save is never empty, and it is the success text exactly when the save succeeded. |
| Backend.PairKey | backend/app.py:39 | The key is the first label, a 6-character separator and then the second label. |
| Backend.Lookup | backend/app.py:40 | A missing key reads as "Equal"; a present key reads as its stored text. |
| Backend.Scale | backend/app.py:41-47 | A judgment text decodes to one of 5, 3, 1, 1/3 and 1/5, always positive. Any text other than the five options decodes to 1. |
| Backend.PairScale | backend/app.py:39-47 | The scale of pair (i, j) is positive, and it is 1 when no judgment was posted for the pair. |
| Backend.EqualDecodesToOne | backend/app.py:40-47 | The default text "Equal" decodes to 1 for every pair of labels, because no other option of the pair spells "Equal". |
| Backend.Entry | backend/app.py:33-49 | The reference definition of a finished entry: always positive, and 1 on the diagonal. |
| Backend.ComparisonMatrix | backend/app.py:32-49 | The matrix is n×n and its diagonal is 1. For i < j it holds the pair's scale at (i, j) and the reciprocal at (j, i). Every entry equals the reference definition `Entry`. |
| Backend.EntryReciprocal | backend/app.py:48-49 | Every matrix entry is positive, and the entry at (b, a) is the reciprocal of the entry at (a, b), so their product is 1. |
| Backend.Min | backend/app.py:25 | `series.min()` is an element of the column and no larger than any element. |
| Backend.Max | backend/app.py:25 | `series.max()` is an element of the column and no smaller than any element. |
| Backend.MinMaxNormalize | backend/app.py:24-25 | The result is the scalar 0 exactly when the column is non-empty and constant. Otherwise it is a column of the same length. |
| Backend.ScaledRange | backend/app.py:25 | A scaled column has min < max, and each value is (x − min) / (max − min). |
| Backend.NormalizeInUnit | backend/app.py:24-25 | Every scaled value lies in [0, 1]. |
| Backend.NormalizeEndpoints | backend/app.py:24-25 | A minimum of the column maps to 0 and a maximum maps to 1. |
| Backend.NormalizeMonotone | backend/app.py:24-25 | Normalisation preserves the order of any two values, in both directions. |
| Backend.Insert | backend/app.py:76 | Inserting a row into a score-sorted sequence keeps it sorted and adds exactly that row. |
| Backend.SortByScore | backend/app.py:76 | Sorting by final score gives an ascending sequence that is a permutation of the rows. |
| Backend.Ranked | backend/app.py:77 | Ranking gives one ranked site per sorted row. The row at position k gets rank k + 1 and keeps its coordinates and score. |
| Backend.TopSites | backend/app.py:76-83 | There are min(n, 500) top sites. Their ranks are 1, 2, … in order and their scores never decrease. Taken together, they are a sub-multiset of the candidate rows, so no row is repeated. |
| Backend.TopSitesAreBest | backend/app.py:76-83 | A candidate scoring strictly better than the k-th top site is one of the sites ranked before it. |
| Backend.TopSiteIsBest | backend/app.py:76-83 | With at least one candidate, the first top site scores no worse than every candidate. |
| Backend.TopSitesLeftOutNoBetter | backend/app.py:76-83 | Counting duplicate rows, every candidate left out of the top sites scores no better than every site kept. Up to ties, the top sites are therefore the min(n, 500) best-scoring rows. |
| Backend.PrefixLeftOutNoBetter | backend/app.py:76-83 | For any prefix of a score-sorted permutation of the rows, ranked, every row outside the prefix (counting duplicates) scores no better than every ranked site. |
| Backend.TopSitesKeepAll | backend/app.py:76-83 | With at most 500 candidates, the top sites are all the candidates, reordered. |
| AhpPage.Swapped | frontend/src/pages/AHPPage.tsx:26-27 | Each (label, key) entry becomes (key, label), in the same order. |
| AhpPage.FeatureMapDistinct | frontend/src/pages/AHPPage.tsx:17-24 | The six labels are distinct, and so are the six column keys. |
| AhpPage.ReverseMapIsSwapped | frontend/src/pages/AHPPage.tsx:26-28 | The reverse map holds every swapped entry, none lost to a duplicate key. |
| AhpPage.ReverseMapInverts | frontend/src/pages/AHPPage.tsx:17-28 | For each of the six labels, `featureMap` gives its key, and `reverseMap` of that key gives back the label. |
| AhpPage.PairIndices | frontend/src/pages/AHPPage.tsx:32-34 | Every index pair visited by the loops has i < j < n. |
| AhpPage.Pairs | frontend/src/pages/AHPPage.tsx:30-38 | The reference list of pairs for n labels has n(n−1)/2 entries. |
| AhpPage.AllPairs | frontend/src/pages/AHPPage.tsx:30-38 | The loops produce `Pairs(features)`: n(n−1)/2 pairs, each of the form (features[i], features[j]) with i < j. |
| AhpPage.PairIndicesSorted | frontend/src/pages/AHPPage.tsx:32-34 | The index pairs come out in strictly increasing lexicographic order. |
| AhpPage.PairIndicesComplete | frontend/src/pages/AHPPage.tsx:32-34 | Every index pair i < j < n is visited. |
| AhpPage.PairsCount | frontend/src/pages/AHPPage.tsx:30-38 | n labels give n(n−1)/2 pairs, and none when n < 2. |
| AhpPage.PairsShape | frontend/src/pages/AHPPage.tsx:32-34 | Every listed pair puts the earlier label first, and every such pair is listed. |
| AhpPage.PairsOrdered | frontend/src/pages/AHPPage.tsx:32-34 | For distinct labels, one pair precedes another exactly when its index pair is lexicographically smaller, and two positions hold the same pair exactly when they are the same position. |
| AhpPage.PairsDistinct | frontend/src/pages/AHPPage.tsx:32-34 | For distinct labels, no pair pairs a label with itself and no pair is listed twice. |
| AhpPage.ComparisonKey | frontend/src/pages/AHPPage.tsx:96 | The key is the first label, the separator "__vs__" and then the second label. |
| AhpPage.KeyInjective | frontend/src/pages/AHPPage.tsx:96 | If the first labels contain no '_', equal keys come from equal pairs. |
| AhpPage.FeaturesWithoutUnderscore | frontend/src/pages/AHPPage.tsx:8-15 | No catalogue label contains '_'. |
| AhpPage.FeaturesDistinct | frontend/src/pages/AHPPage.tsx:8-15 | The six catalogue labels are distinct. |
| AhpPage.CatalogKeysDistinct | frontend/src/pages/AHPPage.tsx:95-96 | The catalogue has 15 pairs, and they are stored under 15 different keys. |
| AhpPage.OptionText | frontend/src/pages/AHPPage.tsx:105-109 | An option's text is "Equal" exactly for the neutral judgment. |
| AhpPage.SelectedOption | frontend/src/pages/AHPPage.tsx:100-110 | The option a select box shows for a value is one whose text is that value. |
| AhpPage.OptionTextsDiffer | frontend/src/pages/AHPPage.tsx:105-109 | For distinguishable labels, different judgments have different option texts. |
| AhpPage.OptionTextInjective | frontend/src/pages/AHPPage.tsx:105-109 | For distinguishable labels, an option text determines its judgment. |
| AhpPage.SelectRoundTrip | frontend/src/pages/AHPPage.tsx:100-110 | Storing an option's text and showing it again selects the same option. |
| AhpPage.DisplayedValue | frontend/src/pages/AHPPage.tsx:102 | The select box's value is the stored text when it is present and non-empty, and "Equal" otherwise. It is never empty. |
| AhpPage.DisplayedJudgment | frontend/src/pages/AHPPage.tsx:100-110 | An unset pair shows the "Equal" option. A pair set to an option shows that option. |
| AhpPage.ChartLabel | frontend/src/pages/AHPPage.tsx:142 | A bar's label is either the key itself or the label the reverse map stores for it, and it is non-empty for a non-empty key. |
| AhpPage.ChartLabelKnown | frontend/src/pages/AHPPage.tsx:142 | A catalogue column key is labelled with its catalogue label. |
| AhpPage.ChartLabelUnknown | frontend/src/pages/AHPPage.tsx:142 | Any other key is labelled with the key itself. |
| AhpPage.ChartRows | frontend/src/pages/AHPPage.tsx:142 | The chart has one bar per returned weight, in the response's order, with its label and value. |
| AhpPage.AhpSession.constructor | frontend/src/pages/AHPPage.tsx:48-58 | The page starts with no judgments, no results and no sites, not loading, with empty user fields. |
| AhpPage.AhpSession.HandleChange | frontend/src/pages/AHPPage.tsx:60-62 | `handleChange` sets the judgment of one key, and every other key keeps its presence and value. The one-request-at-a-time invariant is kept. |
| AhpPage.AhpSession.Submit | frontend/src/pages/AHPPage.tsx:64-67 | A click while idle sets `loading` and sends the current comparisons. A click while loading (disabled button) sends nothing. In both cases one request is then in flight. |
| AhpPage.AhpSession.SettleSubmit | frontend/src/pages/AHPPage.tsx:66-75 | On success the result and sites are replaced by the response. On error they are unchanged. `loading` ends in both cases. |
| AhpPage.AhpSession.SaveRequest | frontend/src/pages/AHPPage.tsx:232-239 | The save body carries the user fields, the weights and the sites, and no method tag. It can only be sent once there are sites, because the button is shown only then (line 160). |
| AhpPage.AhpSession.SettleSave | frontend/src/pages/AHPPage.tsx:240-243 | Settling the save changes only the message, to the success or the failure text, and keeps the session invariant. |
| WeightingPage.FeatureLabelsDistinct | frontend/src/pages/LinearWeightingPage.tsx:13-27 | The 13 feature keys are distinct. |
| WeightingPage.Zeros | frontend/src/pages/LinearWeightingPage.tsx:39 | `Object.fromEntries` of (key, 0) over distinct keys gives each key at 0, in order. |
| WeightingPage.InitialWeights | frontend/src/pages/LinearWeightingPage.tsx:38-40 | The initial weights have exactly the 13 catalogue keys, in order, each at 0. |
| WeightingPage.InitialWeightsValid | frontend/src/pages/LinearWeightingPage.tsx:38-40 | The initial weights are a valid slider state: the catalogue keys, each value at most 100. |
| WeightingPage.TotalPct | frontend/src/pages/LinearWeightingPage.tsx:51-54 | The total is at least every slider value, and it is 0 exactly when every slider is at 0. |
| WeightingPage.Denominator | frontend/src/pages/LinearWeightingPage.tsx:58 | The divisor is positive. It equals the total whenever the total is positive, and it is 1 when the total is 0. |
| WeightingPage.Weights01 | frontend/src/pages/LinearWeightingPage.tsx:57-63 | The weights have the sliders' keys in the same order. Each lies in [0, 1]. All are 0 when the total is 0. |
| WeightingPage.WeightsSumToOne | frontend/src/pages/LinearWeightingPage.tsx:57-63 | Whenever some slider is above 0, the weights sum to exactly 1. |
| WeightingPage.WeightIsShare | frontend/src/pages/LinearWeightingPage.tsx:58-61 | With a positive total, each weight is its slider's value divided by the total. |
| WeightingPage.ChartLabel | frontend/src/pages/LinearWeightingPage.tsx:68 | A bar's label is either the key itself or the catalogue label stored for it, and it is non-empty for a non-empty key. |
| WeightingPage.ChartData | frontend/src/pages/LinearWeightingPage.tsx:65-72 | The chart has one bar per weight, in the weights' order, with its label and value. |
| WeightingPage.ChartLabels | frontend/src/pages/LinearWeightingPage.tsx:68 | A catalogue key is labelled with its label; any other key with the key itself. |
| WeightingPage.WeightingSession.constructor | frontend/src/pages/LinearWeightingPage.tsx:38-49 | The page starts with every slider at 0, no sites, not loading, and empty user fields. |
| WeightingPage.WeightingSession.SetSlider | frontend/src/pages/LinearWeightingPage.tsx:145-150 | Moving one slider sets that feature's value and leaves every other key's value unchanged. |
| WeightingPage.WeightingSession.Generate | frontend/src/pages/LinearWeightingPage.tsx:87-94 | A click while idle sets `loading` and sends the normalised weights. A click while loading (disabled button) sends nothing. |
| WeightingPage.WeightingSession.SettleGenerate | frontend/src/pages/LinearWeightingPage.tsx:95-103 | On success the sites become the response's `top_sites`, or none if it has none. On error they are unchanged. `loading` ends in both cases. |
| WeightingPage.WeightingSession.SubmissionRequest | frontend/src/pages/LinearWeightingPage.tsx:108-117 | The save body carries the user fields, the method tag "WSM", the normalised weights and the sites. It can only be sent once there are sites, because the button is shown only then (line 227). |
| WeightingPage.WeightingSession.SettleSaveSubmission | frontend/src/pages/LinearWeightingPage.tsx:118-121 | Settling the save changes only the message, to the success or the failure text, and keeps the session invariant. |
| WeightingPage.ValidWeights | frontend/src/pages/LinearWeightingPage.tsx:59-61 | On a valid page, the weights sent are one per catalogue feature (13), in catalogue order. |
| WeightingPage.InitialWeightsAllZero | frontend/src/pages/LinearWeightingPage.tsx:51-63 | At the start the total is 0, so the divisor is 1 and every weight is 0. |
| Agreement.CataloguesAgree | backend/app.py:13-21 | The service's feature map and feature list equal the pairwise page's (same six labels, same order, same keys). |
| Agreement.KeysAgree | backend/app.py:39 | The service looks a pair up under the key the page stores it under. |
| Agreement.CatalogueDistinguishable | frontend/src/pages/AHPPage.tsx:105-109 | Any two different catalogue criteria offer five different option texts, in either order. |
| Agreement.OptionDecodes | backend/app.py:41-47 | Each option text of a pair decodes to the scale it names, never to the fallback 1. |
| Agreement.NeutralTextsDecodeToOne | backend/app.py:40-47 | "Equal" and the empty text both decode to 1. |
| Agreement.ChoiceReachesMatrix | backend/app.py:39-48 | Choosing an option for a catalogue pair on the page puts that option's scale in the matrix above the diagonal. |
| Agreement.DisplayMatchesMatrix | frontend/src/pages/AHPPage.tsx:102 | The select's value for a pair decodes to exactly the scale the service uses for it, including unset and empty entries. |
| Agreement.UnsetPairIsNeutral | backend/app.py:40-49 | A pair never touched shows "Equal" and enters the matrix as 1, in both directions. |
| Agreement.MapOpensOnBestSite | frontend/src/pages/AHPPage.tsx:86-88 | The pairwise page's map opens on a candidate that scores no worse than any other. |

## Left out

- HTTP traffic is not modelled: `axios.post`, the Flask route, CORS and `app.run`. A request is a value returned by a begin step, and its settlement is an input (a response body or a failure). The alert and console messages on failure are not modelled.
- The eigenvector weights (backend/app.py:52-59) are floating-point numerics in a foreign library. They are not modelled, and the returned weights are an input to `SettleSubmit`.
- Loading the candidate data is file I/O plus dataframe and geospatial library calls, and is not modelled (backend/app.py:62-68, 72-75, 80-81). This covers:
  - GeoPandas loading;
  - CRS conversion;
  - `to_numeric`/`fillna`;
  - the weighted sum of the normalised columns;
  - centroids.

  Candidates enter the ranking as (lat, lon, final score) rows.
- Backend.SortByScore: pandas' sort is not stable, so the order among equal scores is not modelled. An insertion sort stands in, and its contracts (ascending, a permutation) hold for any sort.
- Backend.MinMaxNormalize: an empty column gives an empty column, because pandas' min and max of an empty column are NaN and compare as different. NaN values inside a column are not modelled (the source fills them before normalising).
- Backend.ComparisonMatrix takes its list of features as a parameter. The route passes `features`, and Agreement.CataloguesAgree shows that this list is the page's catalogue of six.
- Backend.EntryReciprocal states reciprocity as `m[b,a] == 1 / m[a,b]` together with positivity. The product form `m[a,b] * m[b,a] == 1` follows from this, but it is not stated as its own clause.
- Float rounding in JavaScript and Python is not modelled. Slider values are `nat`, and weights, scores, matrix entries and coordinates are exact reals, so "sums to 1" is exact here.
- WeightingPage.WeightingSession.SetSlider requires the key to be one of the 13 features and the value to be at most 100. Those are the only values the range inputs can produce, and with them `v || 0` is `v` itself.
- AhpPage.AhpSession.SettleSubmit assumes a successful response has both `weights` and `top_sites`. A response without `top_sites` would leave `mapData` undefined in the source, and that case is not modelled.
- AhpPage.AhpSession.Submit and WeightingPage.WeightingSession.Generate treat a click while loading as doing nothing. The source's handlers have no such check: the button's `disabled={loading}` prevents the click.
- On a failed ranking request, the code keeps the previous results and sites, and does not clear them. The model follows the code.
- Records: keys are assumed to be neither names of `Object.prototype` properties (such as "constructor", "toString" or "__proto__") nor array indices (such as "7"). For such keys a JavaScript lookup reads an inherited property instead of falling back, and `Object.entries` lists integer-like keys first. The model covers neither. Every key the pages use is one of the fixed column names or catalogue labels, none of which is such a key. The statements affected are Records.SetNew, AhpPage.ChartLabelUnknown and WeightingPage.ChartLabels, for keys outside the catalogues.
- AhpPage.SelectedOption gives no option for a value that matches none of the five texts. A controlled `<select>` with such a value would show its first option. The page never stores such a value, because values come only from the options. Agreement.DisplayMatchesMatrix is therefore stated about the select's value, not about the option drawn on screen.
- AhpPage.AhpSession.SettleSave and WeightingPage.WeightingSession.SettleSaveSubmission carry no non-empty-sites guard. Only the request, taken when the click happens, is guarded, because the save's outcome arrives after an await.
- There is no cancellation of a request still in flight when the page is left, because the code has none.
- The user-detail setters (name, occupation, location, feedback) are plain field assignments from text inputs. They are not separate operations. The save bodies read those fields.
- JSX rendering, Leaflet and Recharts, spinners and `toFixed(4)` formatting are not modelled. Only the data they are given is.
- frontend/src/pages/HomePage.tsx is not modelled. Its only logic, `getRankColor`, is identical to the pairwise page's and is covered by the Sites lemmas.
- frontend/src/App.tsx and frontend/src/pages/AboutPage.tsx are routing and static text. They are not part of this model.
