/** The digest of `Dseq("ggatccnnngaattc")` from the `cut` docstring, with
    BamHI (G^GATCC) and EcoRI (G^AATTC). Both leave a four-base 5' stagger,
    `ovhg == -4`; their sites are the 1-based positions the enzyme search
    reports on this molecule. */
module CuttingExamples {
  import opened Nucleotides
  import opened Results
  import opened Strands
  import opened Slicing
  import opened Ligation
  import opened Cutting
  import opened CuttingFacts

  const Sample: seq<char> := "ggatccnnngaattc"
  const BamHI: Enzyme := Enzyme("BamHI", -4, [2])
  const EcoRI: Enzyme := Enzyme("EcoRI", -4, [11])

  /** `Sample` holds no whitespace. */
  lemma SampleNoSpace()
    ensures NoSpace(Sample)
  {
    forall k | 0 <= k < |Sample| ensures !IsSpace(Sample[k]) {
    }
  }

  /** Each enzyme alone: BamHI cuts after the first base, EcoRI after the
      tenth; each crick cut lies four bases further on. */
  lemma SingleDigestSites()
    ensures var d := SingleStrand(Sample, false, 0);
      && CollectCuts(d, [BamHI]) == [Cutsite(1, 5, Some(BamHI))]
      && CollectCuts(d, [EcoRI]) == [Cutsite(10, 14, Some(EcoRI))]
  {
    var d := SingleStrand(Sample, false, 0);
    assert Len(d) == 15;
    assert [BamHI][..0] == [] && [EcoRI][..0] == [];
    assert EnzymeCuts(d, BamHI)[0] == CutAt(d, BamHI, 2);
    assert EnzymeCuts(d, EcoRI)[0] == CutAt(d, EcoRI, 11);
  }

  /** BamHI alone: one cut site. */
  lemma BamHISites()
    ensures SortCuts(CollectCuts(SingleStrand(Sample, false, 0), [BamHI])) == [Cutsite(1, 5, Some(BamHI))]
  {
    SingleDigestSites();
  }

  /** Both enzymes, listed either way round, before sorting. */
  lemma DoubleDigestCollected()
    ensures var d := SingleStrand(Sample, false, 0);
      && CollectCuts(d, [EcoRI, BamHI]) == [Cutsite(10, 14, Some(EcoRI)), Cutsite(1, 5, Some(BamHI))]
      && CollectCuts(d, [BamHI, EcoRI]) == [Cutsite(1, 5, Some(BamHI)), Cutsite(10, 14, Some(EcoRI))]
  {
    SingleDigestSites();
    assert [EcoRI, BamHI][..1] == [EcoRI] && [BamHI, EcoRI][..1] == [BamHI];
  }

  /** `seq.cut(EcoRI, BamHI) == seq.cut(BamHI, EcoRI)`: the same two cut
      sites in either order. */
  lemma DoubleDigestSites()
    ensures var d := SingleStrand(Sample, false, 0);
      && SortCuts(CollectCuts(d, [EcoRI, BamHI])) == [Cutsite(1, 5, Some(BamHI)), Cutsite(10, 14, Some(EcoRI))]
      && SortCuts(CollectCuts(d, [BamHI, EcoRI])) == [Cutsite(1, 5, Some(BamHI)), Cutsite(10, 14, Some(EcoRI))]
  {
    DoubleDigestCollected();
    SortTwo(Cutsite(1, 5, Some(BamHI)), Cutsite(10, 14, Some(EcoRI)));
  }

  /** Sorting two cut sites puts the one with the smaller watson cut first,
      whichever order they come in. */
  lemma SortTwo(x: Cutsite, y: Cutsite)
    requires x.watsonCut < y.watsonCut
    ensures SortCuts([x, y]) == [x, y] && SortCuts([y, x]) == [x, y]
  {
    assert [x, y][..1] == [x] && [y, x][..1] == [y];
    assert [x][..0] == [] && [y][..0] == [];
  }

  /** The fragments of the BamHI digest are the pieces of `Sample` on
      either side of its cut. */
  lemma BamHIPieces()
    ensures var frags := Fragments(SingleStrand(Sample, false, 0), [Cutsite(1, 5, Some(BamHI))]);
      && |frags| == 2 && IsPiece(frags[0], Sample, 0, 0, 1, 5) && IsPiece(frags[1], Sample, 1, 5, 15, 15)
  {
    BamHIPiece(0, 0, 0, 1, 5);
    BamHIPiece(1, 1, 5, 15, 15);
  }

  /** Fragment `i` of the BamHI digest, with its bounds written out. */
  lemma BamHIPiece(i: nat, a: int, a2: int, b: int, b2: int)
    requires (i == 0 && a == 0 && a2 == 0 && b == 1 && b2 == 5) || (i == 1 && a == 1 && a2 == 5 && b == 15 && b2 == 15)
    ensures var frags := Fragments(SingleStrand(Sample, false, 0), [Cutsite(1, 5, Some(BamHI))]);
      |frags| == 2 && IsPiece(frags[i], Sample, a, a2, b, b2)
  {
    var br := Bracketed(Sample, [Cutsite(1, 5, Some(BamHI))]);
    assert |Sample| == 15;
    assert br[i].watsonCut == a && br[i].crickCut == a2 && br[i + 1].watsonCut == b && br[i + 1].crickCut == b2;
    BamHIClean();
    FragmentIsPiece(Sample, [Cutsite(1, 5, Some(BamHI))], i);
  }

  /** The BamHI cut lies cleanly inside `Sample`. */
  lemma BamHIClean()
    ensures NoSpace(Sample) && CleanCuts(Sample, [Cutsite(1, 5, Some(BamHI))])
  {
    SampleNoSpace();
  }

  /** The stretches of `Sample` those pieces hold. */
  lemma BamHIStretches()
    ensures Sample[0..1] == "g" && Sample[1..15] == "gatccnnngaattc"
    ensures RC(Sample[0..5]) == "gatcc" && RC(Sample[5..15]) == "gaattcnnng"
  {
    assert Sample[0..5] == "ggatc" && Sample[5..15] == "cnnngaattc";
    PartnerStrands();
  }

  /** `seq.cut(BamHI)`: `g` over `cctag`, and `gatccnnngaattc` over
      `gnnncttaag` set four bases in. */
  lemma BamHIDigest()
    ensures var frags := Fragments(SingleStrand(Sample, false, 0), [Cutsite(1, 5, Some(BamHI))]);
      && |frags| == 2
      && frags[0].watson == "g" && frags[0].crick == "gatcc" && frags[0].ovhg == 0
      && frags[1].watson == "gatccnnngaattc" && frags[1].crick == "gaattcnnng" && frags[1].ovhg == -4
  {
    BamHIStretches();
    BamHIPieces();
  }

  /** The reverse complements of the two stretches the BamHI pieces pair
      with. */
  lemma PartnerStrands()
    ensures RC("ggatc") == "gatcc" && RC("cnnngaattc") == "gaattcnnng"
  {
    assert RC("ggatc") == [Complement('c'), Complement('t'), Complement('a'), Complement('g'), Complement('g')];
    assert RC("cnnngaattc") == [Complement('c'), Complement('t'), Complement('t'), Complement('a'), Complement('a'),
                                Complement('g'), Complement('n'), Complement('n'), Complement('n'), Complement('c')];
  }

  /** `a + b + c` after the double digest gives the molecule back. */
  lemma DoubleDigestRejoins()
    ensures var frags := Fragments(SingleStrand(Sample, false, 0),
                                   [Cutsite(1, 5, Some(BamHI)), Cutsite(10, 14, Some(EcoRI))]);
      && |frags| == 3 && LigateAll(frags).Ok?
      && LigateAll(frags).value.watson == Sample && LigateAll(frags).value.crick == RC(Sample)
      && LigateAll(frags).value.ovhg == 0
  {
    var cuts := [Cutsite(1, 5, Some(BamHI)), Cutsite(10, 14, Some(EcoRI))];
    SampleNoSpace();
    assert CleanCuts(Sample, cuts);
    CutThenLigate(Sample, cuts);
  }
}
