/**
  How the pairwise page and the ranking service fit together: both list the
  same criteria in the same order, both build the same keys, every option
  the page offers decodes to the scale it names, what the page displays for
  a pair is what the service uses for it, and the map opens on the best
  ranked site.
*/
module Agreement {
  import opened Records
  import opened Sites
  import AhpPage
  import Backend

  /** The scale an option is meant to stand for. */
  function IntendedScale(j: AhpPage.Judgment): real {
    match j
    case FirstMuchMore => 5.0
    case FirstMore => 3.0
    case Equal => 1.0
    case SecondMore => 1.0 / 3.0
    case SecondMuchMore => 1.0 / 5.0
  }

  /** The page and the service list the same six criteria, in the same order, with the same column keys. */
  lemma CataloguesAgree()
    ensures Backend.FeatureMap == AhpPage.FeatureMap
    ensures Backend.Features == AhpPage.Features
    ensures |Backend.Features| == 6
  {
    assert Keys(Backend.FeatureMap) == AhpPage.Features;
  }

  /** The page stores a pair's judgment under the key the service looks it up by. */
  lemma KeysAgree(f1: string, f2: string)
    ensures Backend.PairKey(f1, f2) == AhpPage.ComparisonKey(f1, f2)
  {
  }

  /** Any two different catalogue criteria have five different option texts. */
  lemma CatalogueDistinguishable(i: nat, j: nat)
    requires i < j < |AhpPage.Features|
    ensures AhpPage.Distinguishable(AhpPage.Features[i], AhpPage.Features[j])
    ensures AhpPage.Distinguishable(AhpPage.Features[j], AhpPage.Features[i])
  {
    AhpPage.FeaturesDistinct();
    var fi, fj := AhpPage.Features[i], AhpPage.Features[j];
    // no label ends in 'h', and every label followed by " much" does
    assert fi[|fi| - 1] != 'h' && fj[|fj| - 1] != 'h';
    assert (fi + " much")[|fi| + 4] == 'h' && (fj + " much")[|fj| + 4] == 'h';
  }

  /** Each option text of a pair decodes to the scale it stands for, never to the fallback. */
  lemma OptionDecodes(f1: string, f2: string, j: AhpPage.Judgment)
    requires AhpPage.Distinguishable(f1, f2)
    ensures Backend.Scale(f1, f2, AhpPage.OptionText(f1, f2, j)) == IntendedScale(j)
  {
    var t := AhpPage.OptionText(f1, f2, j);
    // the service tries the options from the last to the first; every earlier try misses
    forall k: AhpPage.Judgment | k != j
      ensures t != AhpPage.OptionText(f1, f2, k)
    {
      AhpPage.OptionTextsDiffer(f1, f2, j, k);
    }
    assert t != AhpPage.OptionText(f1, f2, AhpPage.SecondMuchMore) || j == AhpPage.SecondMuchMore;
    assert t != AhpPage.OptionText(f1, f2, AhpPage.SecondMore) || j == AhpPage.SecondMore;
    assert t != AhpPage.OptionText(f1, f2, AhpPage.Equal) || j == AhpPage.Equal;
    assert t != AhpPage.OptionText(f1, f2, AhpPage.FirstMore) || j == AhpPage.FirstMore;
  }

  /** The text "Equal", or no text at all, decodes to 1. */
  lemma NeutralTextsDecodeToOne(f1: string, f2: string)
    ensures Backend.Scale(f1, f2, "Equal") == 1.0
    ensures Backend.Scale(f1, f2, "") == 1.0
  {
    Backend.EqualDecodesToOne(f1, f2);
  }

  /**
    Choosing an option for a catalogue pair on the page sets the matrix entry
    above the diagonal to the option's scale.
  */
  lemma ChoiceReachesMatrix(comparisons: map<string, string>, i: nat, j: nat, choice: AhpPage.Judgment)
    requires i < j < |AhpPage.Features|
    ensures
      var f1, f2 := AhpPage.Features[i], AhpPage.Features[j];
      var chosen := comparisons[AhpPage.ComparisonKey(f1, f2) := AhpPage.OptionText(f1, f2, choice)];
      Backend.PairScale(Backend.Features, chosen, i, j) == IntendedScale(choice)
  {
    CataloguesAgree();
    CatalogueDistinguishable(i, j);
    OptionDecodes(AhpPage.Features[i], AhpPage.Features[j], choice);
  }

  /**
    What the page shows for a catalogue pair is what the service decodes for
    it: an unset or empty entry reads as "Equal" on the page and as 1 in the matrix.
  */
  lemma DisplayMatchesMatrix(comparisons: map<string, string>, i: nat, j: nat)
    requires i < j < |AhpPage.Features|
    ensures
      var f1, f2 := AhpPage.Features[i], AhpPage.Features[j];
      Backend.Scale(f1, f2, AhpPage.DisplayedValue(comparisons, AhpPage.ComparisonKey(f1, f2)))
        == Backend.PairScale(Backend.Features, comparisons, i, j)
  {
    CataloguesAgree();
    NeutralTextsDecodeToOne(AhpPage.Features[i], AhpPage.Features[j]);
  }

  /** A pair the user never touched shows "Equal" and enters the matrix as 1, in both directions. */
  lemma UnsetPairIsNeutral(comparisons: map<string, string>, i: nat, j: nat)
    requires i < j < |AhpPage.Features|
    requires AhpPage.ComparisonKey(AhpPage.Features[i], AhpPage.Features[j]) !in comparisons
    ensures AhpPage.DisplayedValue(comparisons, AhpPage.ComparisonKey(AhpPage.Features[i], AhpPage.Features[j])) == "Equal"
    ensures Backend.Entry(Backend.Features, comparisons, i, j) == 1.0 && Backend.Entry(Backend.Features, comparisons, j, i) == 1.0
  {
    CataloguesAgree();
  }

  /** The pairwise page opens its map on the best (lowest-scoring) candidate site. */
  lemma MapOpensOnBestSite(rows: seq<Backend.Candidate>)
    requires |rows| > 0
    ensures Backend.Unrank(Backend.TopSites(rows)[0]) in rows
    ensures MapCenter(Backend.TopSites(rows)) == (Backend.TopSites(rows)[0].lat, Backend.TopSites(rows)[0].lon)
    ensures forall r | r in rows :: Backend.TopSites(rows)[0].finalScore <= r.finalScore
  {
    Backend.TopSiteIsBest(rows);
  }
}
