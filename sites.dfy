/**
  Ranked sites as the ranking service returns them and the two elicitation
  pages display them: the five colour bands of the map markers, the map
  centre, the outcome of an asynchronous request and the optional
  "Save My Map" submission.
*/
module Sites {
  import opened Records

  datatype RankedSite = RankedSite(lat: real, lon: real, rank: int, finalScore: real)

  /** How an awaited request settles: the response body, or a thrown error. */
  datatype Outcome<T> = Ok(body: T) | Failed

  // ----- Rank colour bands -----

  /** Marker colours from the most emphasised (best ranks) to the least. */
  const Palette: seq<string> := ["#1b5e20", "#388e3c", "#66bb6a", "#a5d6a7", "#e8f5e9"]

  /** Reference definition of the band of a rank: hundreds of ranks per band, the last band open-ended. */
  function Band(rank: int): (b: nat)
    ensures 1 <= b <= |Palette|
    ensures b == 1 <==> rank <= 100
    ensures b == |Palette| <==> rank > 400
  {
    if rank <= 100 then 1 else if rank > 400 then 5 else (rank - 1) / 100 + 1
  }

  /** `getRankColor`: the marker colour of a site with the given rank. */
  function RankColor(rank: int): (c: string)
    ensures c in Palette
    ensures c == Palette[0] <==> rank <= 100
    ensures c == Palette[|Palette| - 1] <==> rank > 400
  {
    assert "#1b5e20"[1] == '1' && "#388e3c"[1] == '3' && "#66bb6a"[1] == '6';
    assert "#a5d6a7"[1] == 'a' && "#e8f5e9"[1] == 'e';
    if rank <= 100 then "#1b5e20"
    else if rank <= 200 then "#388e3c"
    else if rank <= 300 then "#66bb6a"
    else if rank <= 400 then "#a5d6a7"
    else "#e8f5e9"
  }

  /** Every rank gets a colour, and it is the palette colour of the rank's band. */
  lemma RankColorIsBandColor(rank: int)
    ensures RankColor(rank) == Palette[Band(rank) - 1]
  {
    if 100 < rank <= 400 {
      assert 1 <= (rank - 1) / 100 <= 3;
    }
  }

  /** Bands never become more emphasised as the rank grows. */
  lemma BandMonotone(r1: int, r2: int)
    requires r1 <= r2
    ensures Band(r1) <= Band(r2)
  {
    if 100 < r1 && r2 <= 400 {
      assert (r1 - 1) / 100 <= (r2 - 1) / 100;
    }
  }

  /** Different bands are drawn in different colours, so the colour tells the band. */
  lemma ColorDeterminesBand(r1: int, r2: int)
    ensures RankColor(r1) == RankColor(r2) <==> Band(r1) == Band(r2)
  {
    RankColorIsBandColor(r1);
    RankColorIsBandColor(r2);
    assert forall i, j | 0 <= i < j < |Palette| :: Palette[i] != Palette[j] by {
      assert Palette[0][1] == '1' && Palette[1][1] == '3' && Palette[2][1] == '6';
      assert Palette[3][1] == 'a' && Palette[4][1] == 'e';
    }
  }

  // ----- Map centre -----

  /** Oakland, where the map is centred when there is no site to show. */
  const FallbackCenter: (real, real) := (37.8044, -122.2712)

  /** `mapCenter`: the first listed site, or the fallback point for an empty list. */
  function MapCenter(mapData: seq<RankedSite>): (c: (real, real))
    ensures |mapData| == 0 ==> c == FallbackCenter
    ensures |mapData| > 0 ==> c == (mapData[0].lat, mapData[0].lon)
  {
    if |mapData| > 0 then (mapData[0].lat, mapData[0].lon) else FallbackCenter
  }

  // ----- Optional submission of the result -----

  const SavedText: string := "\U{2705} Your submission was saved. Thank you!"
  const SaveFailedText: string := "\U{274C} There was a problem saving your map."

  /** The body posted to the logging service; the `method` tag is absent on the pairwise page. */
  datatype SavePayload = SavePayload(
    name: string, occupation: string, location: string, feedback: string,
    methodTag: Option<string>, weights: Entries<real>, topSites: seq<RankedSite>)

  /** The message shown once the save request settles. */
  function SaveMessage(saved: bool): (m: string)
    ensures m != ""
    ensures saved <==> m == SavedText
  {
    if saved then SavedText else SaveFailedText
  }
}
