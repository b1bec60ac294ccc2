/** The two ends of a linear molecule: blunt, or a 5' or 3' single-stranded
    protrusion, and whether two ends can be joined. */
module Ends {
  import opened Nucleotides
  import opened PySlice
  import opened Strands

  datatype EndKind = FivePrime | ThreePrime | Blunt

  /** An end as `five_prime_end` and `three_prime_end` describe it: its kind
      and the protruding bases in lower case, read 5' to 3'. */
  datatype End = End(kind: EndKind, sticky: seq<char>)

  /** `watson_ovhg`: the stagger at the right end, positive when watson's 3'
      end sticks out past crick's 5' end. */
  function WatsonOvhg(d: Dseq): int {
    |d.watson| - |d.crick| + d.ovhg
  }

  /** `five_prime_end`: the left end of the molecule. A lone watson strand is
      all 5' protrusion and a lone crick strand all 3' protrusion. */
  function FivePrimeEnd(d: Dseq): (e: End)
    ensures e.kind == Blunt ==> e.sticky == []
    ensures d.watson != [] && d.crick == [] ==> e == End(FivePrime, Lower(d.watson))
    ensures d.watson == [] && d.crick != [] ==> e == End(ThreePrime, Lower(d.crick))
    ensures (d.watson == []) == (d.crick == []) ==>
              (e.kind == FivePrime <==> d.ovhg < 0) && (e.kind == ThreePrime <==> d.ovhg > 0)
    ensures (d.watson == []) == (d.crick == []) && d.ovhg < 0 ==>
              e.sticky == Lower(d.watson[..Min(-d.ovhg, |d.watson|)])
    ensures (d.watson == []) == (d.crick == []) && d.ovhg > 0 ==>
              e.sticky == Lower(d.crick[|d.crick| - Min(d.ovhg, |d.crick|)..])
  {
    if d.watson != [] && d.crick == [] then End(FivePrime, Lower(d.watson))
    else if d.watson == [] && d.crick != [] then End(ThreePrime, Lower(d.crick))
    else if d.ovhg < 0 then End(FivePrime, Lower(To(d.watson, -d.ovhg)))
    else if d.ovhg > 0 then End(ThreePrime, Lower(From(d.crick, -d.ovhg)))
    else End(Blunt, [])
  }

  /** `three_prime_end`: the right end of the molecule. */
  function ThreePrimeEnd(d: Dseq): (e: End)
    ensures e.kind == Blunt <==> WatsonOvhg(d) == 0
    ensures WatsonOvhg(d) < 0 ==>
              e.kind == FivePrime && e.sticky == Lower(d.crick[..Min(-WatsonOvhg(d), |d.crick|)])
    ensures WatsonOvhg(d) > 0 ==>
              e.kind == ThreePrime && e.sticky == Lower(d.watson[|d.watson| - Min(WatsonOvhg(d), |d.watson|)..])
    ensures e.kind == Blunt ==> e.sticky == []
  {
    var k := WatsonOvhg(d);
    if k < 0 then End(FivePrime, Lower(To(d.crick, -k)))
    else if k > 0 then End(ThreePrime, Lower(From(d.watson, -k)))
    else End(Blunt, [])
  }

  /** `isblunt`: linear with no stagger at either end. */
  predicate IsBlunt(d: Dseq) {
    d.ovhg == 0 && |d.watson| == |d.crick| && !d.circular
  }

  /** The test `__add__` and `looped` make before joining a right end to a
      left end: same kind, and the protrusions pair base for base. */
  predicate Compatible(right: End, left: End) {
    right.kind == left.kind && right.sticky == RC(left.sticky)
  }

  /** Seen from the other strand, the left end becomes the right end and the
      right end the left one (for a molecule with both strands present). */
  lemma {:induction false} EndsSwapUnderReverseComplement(d: Dseq)
    requires d.watson != [] && d.crick != []
    ensures FivePrimeEnd(ReverseComplement(d)) == ThreePrimeEnd(d)
    ensures ThreePrimeEnd(ReverseComplement(d)) == FivePrimeEnd(d)
    ensures WatsonOvhg(ReverseComplement(d)) == d.ovhg
    ensures ReverseComplement(d).ovhg == WatsonOvhg(d)
  {
    var r := ReverseComplement(d);
    assert r.watson == d.crick && r.crick == d.watson && r.ovhg == WatsonOvhg(d);
    assert WatsonOvhg(r) == d.ovhg;
  }

  /** `isblunt` holds exactly for a linear molecule whose two ends are both blunt. */
  lemma IsBluntIffBluntEnds(d: Dseq)
    ensures IsBlunt(d) <==> !d.circular && FivePrimeEnd(d).kind == Blunt && ThreePrimeEnd(d).kind == Blunt
  {
  }

  /** Compatible ends pair in both directions: the left protrusion is the
      reverse complement of the right one too. */
  lemma CompatibleBothWays(right: End, left: End)
    requires Compatible(right, left)
    ensures left.sticky == RC(right.sticky)
  {
    RCInvolutive(left.sticky);
  }
}
