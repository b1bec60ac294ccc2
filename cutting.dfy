/** Restriction digestion: cut sites of a set of enzymes, how consecutive
    cut sites pair up, and the fragment each pair delimits. */
module Cutting {
  import opened Nucleotides
  import opened PySlice
  import opened Results
  import opened Strands
  import opened Slicing

  /** A restriction enzyme as far as one digestion goes: its name, its
      stagger `ovhg` (negative for a 5' overhang), and the 1-based cut
      positions its motif search reports on the molecule. */
  datatype Enzyme = Enzyme(name: string, ovhg: int, sites: seq<int>)

  /** A cut: the watson and crick cut positions and the enzyme that made it;
      the two ends of a linear molecule are cut sites without an enzyme. */
  datatype Cutsite = Cutsite(watsonCut: int, crickCut: int, enzyme: Option<Enzyme>)

  /** The stagger a fragment gets from the cut at its left end. */
  function CutOvhg(x: Cutsite): int {
    if x.enzyme.None? then 0 else x.enzyme.value.ovhg
  }

  /** The crick cut is taken modulo the length, so a molecule of length 0
      cannot be cut by an enzyme that reports a site. */
  predicate Cuttable(d: Dseq, enzymes: seq<Enzyme>) {
    Len(d) > 0 || forall i :: 0 <= i < |enzymes| ==> enzymes[i].sites == []
  }

  /** One site of an enzyme: the 0-based watson cut, and the crick cut
      `ovhg` to the left of it, taken modulo the length. */
  function CutAt(d: Dseq, e: Enzyme, site: int): (r: Cutsite)
    requires Len(d) > 0
    ensures r.watsonCut == site - 1 && r.enzyme == Some(e) && 0 <= r.crickCut < Len(d)
    ensures 0 <= r.watsonCut - e.ovhg < Len(d) ==> r.crickCut == r.watsonCut - e.ovhg
  {
    ModInRange(site - 1 - e.ovhg, Len(d));
    Cutsite(site - 1, (site - 1 - e.ovhg) % Len(d), Some(e))
  }

  /** The cut sites of one enzyme, in the order its search reports them. */
  function EnzymeCuts(d: Dseq, e: Enzyme): (r: seq<Cutsite>)
    requires Len(d) > 0 || e.sites == []
    ensures |r| == |e.sites|
    ensures forall k :: 0 <= k < |r| ==> r[k] == CutAt(d, e, e.sites[k])
  {
    seq(|e.sites|, k requires 0 <= k < |e.sites| => CutAt(d, e, e.sites[k]))
  }

  /** All cut sites, enzyme after enzyme, before sorting. */
  function CollectCuts(d: Dseq, enzymes: seq<Enzyme>): seq<Cutsite>
    requires Cuttable(d, enzymes)
    decreases |enzymes|
  {
    if |enzymes| == 0 then []
    else CollectCuts(d, enzymes[..|enzymes| - 1]) + EnzymeCuts(d, enzymes[|enzymes| - 1])
  }

  /** Python's order on cut sites: by watson cut, then by crick cut. */
  predicate Precedes(x: Cutsite, y: Cutsite) {
    x.watsonCut < y.watsonCut || (x.watsonCut == y.watsonCut && x.crickCut < y.crickCut)
  }

  predicate SortedCuts(s: seq<Cutsite>) {
    forall i, j :: 0 <= i < j < |s| ==> !Precedes(s[j], s[i])
  }

  /** Inserts `x` after every cut site that does not come after it. */
  function InsertCut(s: seq<Cutsite>, x: Cutsite): (r: seq<Cutsite>)
    requires SortedCuts(s)
    ensures SortedCuts(r) && multiset(r) == multiset(s) + multiset{x}
    decreases |s|
  {
    if |s| == 0 then [x]
    else if Precedes(x, s[0]) then
      PrependSmaller(x, s);
      [x] + s
    else
      var rest := InsertCut(s[1..], x);
      assert s == [s[0]] + s[1..];
      PrependFirst(s[0], s[1..], x, rest);
      [s[0]] + rest
  }

  /** A cut site that precedes the head of a sorted list may go in front. */
  lemma PrependSmaller(x: Cutsite, s: seq<Cutsite>)
    requires SortedCuts(s) && s != [] && Precedes(x, s[0])
    ensures SortedCuts([x] + s)
  {
    assert forall j :: 0 <= j < |s| ==> !Precedes(s[j], s[0]);
  }

  /** Inserting `x` after the head keeps the head first, since `x` does not
      precede it. */
  lemma PrependFirst(first: Cutsite, tail: seq<Cutsite>, x: Cutsite, rest: seq<Cutsite>)
    requires SortedCuts([first] + tail) && !Precedes(x, first)
    requires SortedCuts(rest) && multiset(rest) == multiset(tail) + multiset{x}
    ensures SortedCuts([first] + rest)
  {
    forall j | 0 <= j < |rest|
      ensures !Precedes(rest[j], first)
    {
      assert rest[j] in multiset(rest);
      if rest[j] != x {
        assert rest[j] in multiset(tail);
        var k :| 0 <= k < |tail| && tail[k] == rest[j];
        var whole := [first] + tail;
        assert whole[0] == first && whole[k + 1] == rest[j];
        assert !Precedes(whole[k + 1], whole[0]);
      }
    }
  }

  /** `sorted`: an insertion sort, stable for cut sites at the same place. */
  function SortCuts(s: seq<Cutsite>): (r: seq<Cutsite>)
    ensures SortedCuts(r) && multiset(r) == multiset(s)
    decreases |s|
  {
    if |s| == 0 then []
    else
      assert s == s[..|s| - 1] + [s[|s| - 1]];
      InsertCut(SortCuts(s[..|s| - 1]), s[|s| - 1])
  }

  /** `get_cutsites`: the loop collecting each enzyme's cut sites, then the
      sort. A zero-length molecule with a reported site fails, as the
      modulo by its length does. */
  method GetCutsites(d: Dseq, enzymes: seq<Enzyme>) returns (r: Result<seq<Cutsite>>)
    ensures r.Err? <==> !Cuttable(d, enzymes)
    ensures r.Err? ==> r.error == ZeroLength
    ensures r.Ok? ==> r.value == SortCuts(CollectCuts(d, enzymes))
  {
    var out := [];
    for i := 0 to |enzymes|
      invariant Cuttable(d, enzymes[..i])
      invariant out == CollectCuts(d, enzymes[..i])
    {
      var e := enzymes[i];
      if Len(d) == 0 && e.sites != [] {
        return Err(ZeroLength);
      }
      assert enzymes[..i + 1][..i] == enzymes[..i];
      out := out + EnzymeCuts(d, e);
    }
    assert enzymes[..|enzymes|] == enzymes;
    return Ok(SortCuts(out));
  }

  /** The pseudo cut at the left end of a linear molecule. */
  function LeftEdge(d: Dseq): Cutsite {
    if d.ovhg < 0 then Cutsite(0, 0, None) else Cutsite(d.ovhg, -d.ovhg, None)
  }

  /** The pseudo cut at the right end: the left edge moved by the length of
      each strand. */
  function RightEdge(d: Dseq): Cutsite {
    var l := LeftEdge(d);
    Cutsite(l.watsonCut + |d.watson|, l.crickCut + |d.crick|, None)
  }

  /** `itertools.pairwise` */
  function Pairwise<T>(s: seq<T>): (r: seq<(T, T)>)
    ensures |r| == Max(0, |s| - 1)
    ensures forall i :: 0 <= i < |r| ==> r[i] == (s[i], s[i + 1])
  {
    if |s| < 2 then [] else [(s[0], s[1])] + Pairwise(s[1..])
  }

  /** `get_cutsite_pairs`: the cut sites that delimit each fragment. A linear
      molecule is bracketed by its two edges; on a circular one the
      fragments start at the last cut and go round back to it. */
  function CutsitePairs(d: Dseq, cuts: seq<Cutsite>): (r: seq<(Cutsite, Cutsite)>)
    ensures |cuts| == 0 ==> r == []
    ensures |cuts| == 1 && d.circular ==> r == [(cuts[0], cuts[0])]
    ensures |cuts| > 0 && !d.circular ==>
      |r| == |cuts| + 1 && r[0].0 == LeftEdge(d) && r[|cuts|].1 == RightEdge(d)
      && forall i :: 0 <= i < |cuts| ==> r[i].1 == cuts[i] && r[i + 1].0 == cuts[i]
    ensures |cuts| > 1 && d.circular ==>
      |r| == |cuts| && r[0] == (cuts[|cuts| - 1], cuts[0])
      && forall i :: 1 <= i < |cuts| ==> r[i] == (cuts[i - 1], cuts[i])
  {
    if |cuts| == 0 then []
    else if |cuts| == 1 && d.circular then [(cuts[0], cuts[0])]
    else if !d.circular then
      var bracketed := [LeftEdge(d)] + cuts + [RightEdge(d)];
      assert forall i :: 0 <= i < |cuts| ==> bracketed[i + 1] == cuts[i];
      var r := Pairwise(bracketed);
      forall i | 0 <= i < |cuts|
        ensures r[i].1 == cuts[i] && r[i + 1].0 == cuts[i]
      {
        assert r[i] == (bracketed[i], bracketed[i + 1]);
        assert r[i + 1] == (bracketed[i + 1], bracketed[i + 2]);
      }
      assert r[0] == (bracketed[0], bracketed[1]) && bracketed[0] == LeftEdge(d);
      assert r[|cuts|] == (bracketed[|cuts|], bracketed[|cuts| + 1]) && bracketed[|cuts| + 1] == RightEdge(d);
      r
    else
      var rotated := [cuts[|cuts| - 1]] + cuts[..|cuts| - 1];
      var closed := rotated + [rotated[0]];
      assert forall i :: 1 <= i < |cuts| ==> closed[i] == cuts[i - 1];
      assert closed[|cuts|] == cuts[|cuts| - 1];
      var r := Pairwise(closed);
      forall i | 1 <= i < |cuts|
        ensures r[i] == (cuts[i - 1], cuts[i])
      {
        assert r[i] == (closed[i], closed[i + 1]);
      }
      r
  }

  /** `apply_cut`: watson is the full sequence of the slice between the
      watson cuts; crick the full sequence of the matching slice of the
      reverse complement; the stagger comes from the left cut's enzyme. */
  function ApplyCut(d: Dseq, left: Cutsite, right: Cutsite): (r: Dseq)
    ensures !r.circular && r.ovhg == CutOvhg(left)
    ensures r.data == FullSequence(r.watson, r.crick, r.ovhg)
  {
    var n := Len(d);
    FromStrands(GetItem(d, Some(left.watsonCut), Some(right.watsonCut)).data,
                CrickSlice(d, n - right.crickCut, n - left.crickCut),
                CutOvhg(left), false, 0)
  }

  /** `str(self.reverse_complement()[lo:hi])`: a stretch of the molecule
      read on the crick strand. */
  function CrickSlice(d: Dseq, lo: int, hi: int): seq<char> {
    GetItem(ReverseComplement(d), Some(lo), Some(hi)).data
  }

  /** The fragments `cut` returns for sorted cut sites. */
  function Fragments(d: Dseq, cuts: seq<Cutsite>): (r: seq<Dseq>)
    ensures |r| == |CutsitePairs(d, cuts)|
    ensures forall i :: 0 <= i < |r| ==> !r[i].circular
  {
    var pairs := CutsitePairs(d, cuts);
    seq(|pairs|, i requires 0 <= i < |pairs| => ApplyCut(d, pairs[i].0, pairs[i].1))
  }

  /** `cut` */
  method Cut(d: Dseq, enzymes: seq<Enzyme>) returns (r: Result<seq<Dseq>>)
    ensures r.Err? <==> !Cuttable(d, enzymes)
    ensures r.Ok? ==> r.value == Fragments(d, SortCuts(CollectCuts(d, enzymes)))
  {
    var cutsites := GetCutsites(d, enzymes);
    if cutsites.Err? {
      return Err(cutsites.error);
    }
    return Ok(Fragments(d, cutsites.value));
  }
}

/** What digestion promises: the order the enzymes are given in does not
    matter, and the fragments of a cut ligate back into the molecule. */
module CuttingFacts {
  import opened Nucleotides
  import opened PySlice
  import opened Results
  import opened Strands
  import opened Ends
  import opened Slicing
  import opened SlicingFacts
  import opened Ligation
  import opened LigationFacts
  import opened Cutting

  /** No two cut sites at the same place. */
  predicate StrictlySortedCuts(s: seq<Cutsite>) {
    forall i, j :: 0 <= i < j < |s| ==> Precedes(s[i], s[j])
  }

  /** With no two cut sites at the same place there is only one sorted
      order. */
  lemma {:induction false} SortedCutsUnique(a: seq<Cutsite>, b: seq<Cutsite>)
    requires StrictlySortedCuts(a) && SortedCuts(b) && multiset(a) == multiset(b)
    ensures a == b
    decreases |a|
  {
    assert |a| == |multiset(a)| == |multiset(b)| == |b|;
    if |a| > 0 {
      HeadsAgree(a, b);
      TailMultiset(a);
      TailMultiset(b);
      SortedCutsUnique(a[1..], b[1..]);
      assert a == [a[0]] + a[1..] && b == [b[0]] + b[1..];
    }
  }

  /** The first cut site of a strictly sorted list is the first of any
      sorted list holding the same cut sites. */
  lemma HeadsAgree(a: seq<Cutsite>, b: seq<Cutsite>)
    requires StrictlySortedCuts(a) && SortedCuts(b) && multiset(a) == multiset(b)
    requires |a| > 0 && |b| > 0
    ensures a[0] == b[0]
  {
    assert b[0] in multiset(a) && a[0] in multiset(b);
    var j :| 0 <= j < |a| && a[j] == b[0];
    var k :| 0 <= k < |b| && b[k] == a[0];
    if j > 0 && k > 0 {
      assert Precedes(a[0], a[j]);
      assert !Precedes(b[k], b[0]);
    }
  }

  lemma TailMultiset(a: seq<Cutsite>)
    requires |a| > 0
    ensures multiset(a[1..]) == multiset(a) - multiset{a[0]}
  {
    assert a == [a[0]] + a[1..];
  }

  /** Collecting the cut sites of two lists of enzymes one after the other. */
  lemma {:induction false} CollectCutsAppend(d: Dseq, a: seq<Enzyme>, b: seq<Enzyme>)
    requires Cuttable(d, a + b)
    ensures Cuttable(d, a) && Cuttable(d, b)
    ensures CollectCuts(d, a + b) == CollectCuts(d, a) + CollectCuts(d, b)
    decreases |b|
  {
    assert forall i :: 0 <= i < |a| ==> (a + b)[i] == a[i];
    assert forall i :: 0 <= i < |b| ==> (a + b)[|a| + i] == b[i];
    if |b| == 0 {
      assert a + b == a;
    } else {
      var front := b[..|b| - 1];
      assert (a + b)[..|a + b| - 1] == a + front;
      assert (a + b)[|a + b| - 1] == b[|b| - 1];
      CollectCutsAppend(d, a, front);
    }
  }

  /** `cut(EcoRI, BamHI) == cut(BamHI, EcoRI)`: the enzymes' order changes
      neither the cut sites found nor, when no two of them coincide, their
      sorted order and the fragments. */
  lemma EnzymeOrderIrrelevant(d: Dseq, a: seq<Enzyme>, b: seq<Enzyme>)
    requires Cuttable(d, a + b)
    ensures Cuttable(d, b + a)
    ensures multiset(SortCuts(CollectCuts(d, a + b))) == multiset(SortCuts(CollectCuts(d, b + a)))
    ensures StrictlySortedCuts(SortCuts(CollectCuts(d, a + b))) ==>
      SortCuts(CollectCuts(d, a + b)) == SortCuts(CollectCuts(d, b + a))
      && Fragments(d, SortCuts(CollectCuts(d, a + b))) == Fragments(d, SortCuts(CollectCuts(d, b + a)))
  {
    CollectCutsSwap(d, a, b);
    var s, t := SortCuts(CollectCuts(d, a + b)), SortCuts(CollectCuts(d, b + a));
    if StrictlySortedCuts(s) {
      SortedCutsUnique(s, t);
    }
  }

  /** Swapping two groups of enzymes collects the same cut sites, in
      another order. */
  lemma CollectCutsSwap(d: Dseq, a: seq<Enzyme>, b: seq<Enzyme>)
    requires Cuttable(d, a + b)
    ensures Cuttable(d, b + a)
    ensures multiset(CollectCuts(d, a + b)) == multiset(CollectCuts(d, b + a))
  {
    CollectCutsAppend(d, a, b);
    assert forall i :: 0 <= i < |b| ==> (b + a)[i] == b[i];
    assert forall i :: 0 <= i < |a| ==> (b + a)[|b| + i] == a[i];
    CollectCutsAppend(d, b, a);
    var x, y := CollectCuts(d, a), CollectCuts(d, b);
    assert multiset(x + y) == multiset(y + x);
  }

  /** The fragments read left to right and joined as `a + b + c` does. */
  function LigateAll(frags: seq<Dseq>): Result<Dseq>
    requires |frags| > 0
    decreases |frags|
  {
    if |frags| == 1 then Ok(frags[0])
    else match LigateAll(frags[..|frags| - 1])
      case Err(e) => Err(e)
      case Ok(x) => Ligate(x, frags[|frags| - 1])
  }

  /** `p` is the stretch of `Dseq(w)` with watson from `a` to `b` and crick
      opposite `a2` to `b2`. */
  predicate IsPiece(p: Dseq, w: seq<char>, a: int, a2: int, b: int, b2: int) {
    0 <= a <= b <= |w| && 0 <= a2 <= b2 <= |w|
    && p.watson == w[a..b] && p.crick == RC(w[a2..b2]) && p.ovhg == a - a2 && !p.circular
  }

  lemma ComplementNoSpace(c: char)
    requires !IsSpace(c)
    ensures !IsSpace(Complement(c))
  {
  }

  lemma NoSpaceRC(w: seq<char>)
    requires NoSpace(w)
    ensures NoSpace(RC(w))
  {
    forall k | 0 <= k < |w|
      ensures !IsSpace(RC(w)[k])
    {
      ComplementNoSpace(w[|w| - 1 - k]);
    }
  }

  /** Blunt strands of equal length lay out as watson alone. */
  lemma FullSequenceBlunt(w: seq<char>, c: seq<char>)
    requires |w| == |c|
    ensures FullSequence(w, c, 0) == w
  {
    assert From(c, |c|) == [] && To(c, 0) == [];
    assert RC([]) == [];
  }

  /** The full sequence of a slice of a blunt molecule is that stretch of
      watson. */
  lemma BluntSliceData(d: Dseq, i: nat, j: nat)
    requires !d.circular && d.ovhg == 0 && |d.watson| == |d.crick|
    requires NoSpace(d.watson) && NoSpace(d.crick)
    requires i <= j <= |d.watson|
    ensures GetItem(d, Some(i), Some(j)).data == d.watson[i..j]
  {
    BluntLinearSlice(d, i, j);
    var r := GetItem(d, Some(i), Some(j));
    FullSequenceBlunt(r.watson, r.crick);
  }

  /** A slice of `Dseq(w)` reads the same stretch of `w`. */
  lemma SliceOfDseq(w: seq<char>, i: nat, j: nat)
    requires NoSpace(w) && i <= j <= |w|
    ensures GetItem(SingleStrand(w, false, 0), Some(i), Some(j)).data == w[i..j]
  {
    NoSpaceRC(w);
    BluntSliceData(SingleStrand(w, false, 0), i, j);
  }

  /** The reverse complement of `Dseq(w)` is `Dseq(rc(w))`. */
  lemma ReverseComplementOfDseq(w: seq<char>)
    ensures ReverseComplement(SingleStrand(w, false, 0)) == SingleStrand(RC(w), false, 0)
  {
    RCInvolutive(w);
    FullSequenceBlunt(RC(w), w);
  }

  /** A slice of the reverse complement of `Dseq(w)`, at the mirrored
      bounds `lo`, `hi`, reads the partner of that stretch of `w`. */
  lemma CrickSliceOfDseq(w: seq<char>, i: nat, j: nat, lo: nat, hi: nat)
    requires NoSpace(w) && i <= j <= |w| && lo == |w| - j && hi == |w| - i
    ensures CrickSlice(SingleStrand(w, false, 0), lo, hi) == RC(w[i..j])
  {
    NoSpaceRC(w);
    RCSlice(w, i, j);
    assert RC(w[i..j]) == RC(w)[lo..hi];
    SliceOfDseq(RC(w), lo, hi);
    ReverseComplementOfDseq(w);
  }

  /** `d[s:s]` of a circle reads the whole circle, starting at `s`. */
  lemma CircularSliceWhole(d: Dseq, s: nat)
    requires CircularShape(d) && 0 < Len(d) && s <= Len(d)
    ensures GetItem(d, Some(s), Some(s)).data == Rotate(d.watson, s)
  {
    var n := Len(d);
    if s == 0 {
      CircularSliceInside(d, 0, n);
      assert GetItem(d, Some(0), Some(0)) == CircularSliceBetween(d, 0, n);
      assert d.watson[0..n] == Rotate(d.watson, 0);
    } else {
      CircularSliceAcrossOrigin(d, s, s);
      assert GetItem(d, Some(s), Some(s)) == CircularSliceBetween(d, s, s);
    }
    var r := GetItem(d, Some(s), Some(s));
    FullSequenceBlunt(r.watson, r.crick);
  }

  /** One cut opens a circular `Dseq(w)` into a single fragment: watson is
      `w` read from the watson cut, crick is the partner of `w` read from the
      crick cut, and the stagger is the enzyme's. */
  lemma LinearisedCircle(w: seq<char>, x: Cutsite)
    requires 0 <= x.watsonCut < |w| && 0 <= x.crickCut < |w|
    ensures var frags := Fragments(SingleStrand(w, true, 0), [x]);
      && |frags| == 1 && !frags[0].circular
      && frags[0].watson == Rotate(w, x.watsonCut)
      && frags[0].crick == RC(Rotate(w, x.crickCut))
      && frags[0].ovhg == CutOvhg(x)
  {
    var d := SingleStrand(w, true, 0);
    var n := |w|;
    assert Len(d) == n;
    CircleWatsonCut(w, x.watsonCut);
    CircleCrickCut(w, x.crickCut, n - x.crickCut);
    OneCutPair(d, x);
    ApplyCutBuilds(d, x, x, n - x.crickCut, n - x.crickCut);
  }

  /** The watson half of the fragment of a circle cut once. */
  lemma CircleWatsonCut(w: seq<char>, s: nat)
    requires s < |w|
    ensures GetItem(SingleStrand(w, true, 0), Some(s), Some(s)).data == Rotate(w, s)
  {
    CircularSliceWhole(SingleStrand(w, true, 0), s);
  }

  /** The crick half of the fragment of a circle cut once: the reverse
      complement read from the mirrored position. */
  lemma CircleCrickCut(w: seq<char>, s: nat, lo: nat)
    requires s < |w| && lo == |w| - s
    ensures CrickSlice(SingleStrand(w, true, 0), lo, lo) == RC(Rotate(w, s))
  {
    var rc := ReverseComplement(SingleStrand(w, true, 0));
    RCInvolutive(w);
    FullSequenceBlunt(RC(w), w);
    assert rc.watson == RC(w) && Len(rc) == |w|;
    CircularSliceWhole(rc, lo);
    RCRotate(w, s);
  }

  /** A circle cut once: one fragment, between the cut and itself. */
  lemma OneCutPair(d: Dseq, x: Cutsite)
    requires d.circular
    ensures |Fragments(d, [x])| == 1 && Fragments(d, [x])[0] == ApplyCut(d, x, x)
  {
    assert CutsitePairs(d, [x]) == [(x, x)];
  }

  /** `apply_cut` is `Dseq(w, c, ovhg)` on the two slices; `lo` and `hi`
      are the crick cuts counted from the other end. */
  lemma ApplyCutBuilds(d: Dseq, left: Cutsite, right: Cutsite, lo: int, hi: int)
    requires lo == Len(d) - right.crickCut && hi == Len(d) - left.crickCut
    ensures ApplyCut(d, left, right)
         == FromStrands(GetItem(d, Some(left.watsonCut), Some(right.watsonCut)).data,
                        CrickSlice(d, lo, hi), CutOvhg(left), false, 0)
  {
  }

  /** `apply_cut` on `Dseq(w)` between two cut sites whose stagger matches
      their enzyme: watson between the watson cuts, crick opposite the
      stretch between the crick cuts. */
  lemma PieceOfApplyCut(w: seq<char>, left: Cutsite, right: Cutsite)
    requires NoSpace(w)
    requires left.crickCut == left.watsonCut - CutOvhg(left)
    requires 0 <= left.watsonCut <= right.watsonCut <= |w|
    requires 0 <= left.crickCut <= right.crickCut <= |w|
    ensures IsPiece(ApplyCut(SingleStrand(w, false, 0), left, right), w,
                    left.watsonCut, left.crickCut, right.watsonCut, right.crickCut)
  {
    var d := SingleStrand(w, false, 0);
    var lo, hi := |w| - right.crickCut, |w| - left.crickCut;
    SliceOfDseq(w, left.watsonCut, right.watsonCut);
    CrickSliceOfDseq(w, left.crickCut, right.crickCut, lo, hi);
    ApplyCutBuilds(d, left, right, lo, hi);
  }

  /** The right end of a piece: a 5' protrusion of crick when watson stops
      first, a 3' protrusion of watson when crick stops first. */
  lemma RightEndOfPiece(p: Dseq, w: seq<char>, a: int, a2: int, b: int, b2: int)
    requires IsPiece(p, w, a, a2, b, b2) && Max(a, a2) < Min(b, b2)
    ensures b < b2 ==> ThreePrimeEnd(p) == End(FivePrime, Lower(RC(w[b..b2])))
    ensures b > b2 ==> ThreePrimeEnd(p) == End(ThreePrime, Lower(w[b2..b]))
  {
    if b < b2 {
      RightCrickProtrudes(p, w, a, a2, b, b2);
    } else if b > b2 {
      RightWatsonProtrudes(p, w, a, a2, b, b2);
    }
  }

  /** The right end of a piece whose crick runs on past watson: a 5' overhang
      of the bases `b..b2` read on crick. */
  lemma RightCrickProtrudes(p: Dseq, w: seq<char>, a: int, a2: int, b: int, b2: int)
    requires IsPiece(p, w, a, a2, b, b2) && Max(a, a2) < Min(b, b2) && b < b2
    ensures ThreePrimeEnd(p) == End(FivePrime, Lower(RC(w[b..b2])))
  {
    assert WatsonOvhg(p) == b - b2;
    var t := w[a2..b2];
    RCSlice(t, b - a2, b2 - a2);
    assert t[b - a2..b2 - a2] == w[b..b2];
  }

  /** The right end of a piece whose watson runs on past crick: a 3' overhang
      of the watson bases `b2..b`. */
  lemma RightWatsonProtrudes(p: Dseq, w: seq<char>, a: int, a2: int, b: int, b2: int)
    requires IsPiece(p, w, a, a2, b, b2) && Max(a, a2) < Min(b, b2) && b > b2
    ensures ThreePrimeEnd(p) == End(ThreePrime, Lower(w[b2..b]))
  {
    assert WatsonOvhg(p) == b - b2;
    assert p.watson[b2 - a..] == w[b2..b];
  }

  /** The left end of a piece: a 5' protrusion of watson when watson starts
      first, a 3' protrusion of crick when crick starts first. */
  lemma LeftEndOfPiece(q: Dseq, w: seq<char>, b: int, b2: int, c: int, c2: int)
    requires IsPiece(q, w, b, b2, c, c2) && Max(b, b2) < Min(c, c2)
    ensures b < b2 ==> FivePrimeEnd(q) == End(FivePrime, Lower(w[b..b2]))
    ensures b > b2 ==> FivePrimeEnd(q) == End(ThreePrime, Lower(RC(w[b2..b])))
  {
    if b < b2 {
      LeftWatsonProtrudes(q, w, b, b2, c, c2);
    } else if b > b2 {
      LeftCrickProtrudes(q, w, b, b2, c, c2);
    }
  }

  /** The left end of a piece whose watson starts before crick: a 5' overhang
      of the watson bases `b..b2`. */
  lemma LeftWatsonProtrudes(q: Dseq, w: seq<char>, b: int, b2: int, c: int, c2: int)
    requires IsPiece(q, w, b, b2, c, c2) && Max(b, b2) < Min(c, c2) && b < b2
    ensures FivePrimeEnd(q) == End(FivePrime, Lower(w[b..b2]))
  {
    assert q.watson[..b2 - b] == w[b..b2];
  }

  /** The left end of a piece whose crick starts before watson: a 3' overhang
      of the bases `b2..b` read on crick. */
  lemma LeftCrickProtrudes(q: Dseq, w: seq<char>, b: int, b2: int, c: int, c2: int)
    requires IsPiece(q, w, b, b2, c, c2) && Max(b, b2) < Min(c, c2) && b > b2
    ensures FivePrimeEnd(q) == End(ThreePrime, Lower(RC(w[b2..b])))
  {
    var u := w[b2..c2];
    RCSlice(u, 0, b - b2);
    assert u[0..b - b2] == w[b2..b];
  }

  /** Two neighbouring pieces of one molecule have pairing ends. */
  lemma PiecesFit(w: seq<char>, p: Dseq, q: Dseq, a: int, a2: int, b: int, b2: int, c: int, c2: int)
    requires IsPiece(p, w, a, a2, b, b2) && IsPiece(q, w, b, b2, c, c2)
    requires Max(a, a2) < Min(b, b2) && Max(b, b2) < Min(c, c2)
    ensures Compatible(ThreePrimeEnd(p), FivePrimeEnd(q))
  {
    RightEndOfPiece(p, w, a, a2, b, b2);
    LeftEndOfPiece(q, w, b, b2, c, c2);
    if b < b2 {
      LowerRC(w[b..b2]);
    } else if b > b2 {
      LowerRC(w[b2..b]);
      RCInvolutive(Lower(w[b2..b]));
    } else {
      assert RC([]) == [];
    }
  }

  /** Adjacent stretches of `w`, and their partners, join into one. */
  lemma Splice(w: seq<char>, a: int, b: int, c: int)
    requires 0 <= a <= b <= c <= |w|
    ensures w[a..b] + w[b..c] == w[a..c]
    ensures RC(w[b..c]) + RC(w[a..b]) == RC(w[a..c])
  {
    assert w[a..b] + w[b..c] == w[a..c];
    RCAppend(w[a..b], w[b..c]);
  }

  /** Neighbouring pieces of one molecule ligate into the piece spanning
      both. */
  lemma JoinAtCut(w: seq<char>, p: Dseq, q: Dseq, a: int, a2: int, b: int, b2: int, c: int, c2: int)
    requires IsPiece(p, w, a, a2, b, b2) && IsPiece(q, w, b, b2, c, c2)
    requires Max(a, a2) < Min(b, b2) && Max(b, b2) < Min(c, c2)
    ensures Ligate(p, q).Ok? && IsPiece(Ligate(p, q).value, w, a, a2, c, c2)
  {
    PiecesFit(w, p, q, a, a2, b, b2, c, c2);
    LigateFields(p, q);
    Splice(w, a, b, c);
    Splice(w, a2, b2, c2);
  }

  /** Consecutive cut sites leave every fragment a double-stranded core. */
  predicate Chain(cuts: seq<Cutsite>) {
    forall i :: 0 <= i < |cuts| - 1 ==>
      Max(cuts[i].watsonCut, cuts[i].crickCut) < Min(cuts[i + 1].watsonCut, cuts[i + 1].crickCut)
  }

  lemma {:induction false} ChainBounds(cuts: seq<Cutsite>, i: nat, j: nat)
    requires Chain(cuts) && i < j < |cuts|
    ensures Max(cuts[i].watsonCut, cuts[i].crickCut) < Min(cuts[j].watsonCut, cuts[j].crickCut)
    decreases j - i
  {
    if j > i + 1 {
      ChainBounds(cuts, i, j - 1);
    }
  }

  /** Every cut of a chain running from 0 to `n` lies within `[0, n]`. */
  lemma ChainRange(cuts: seq<Cutsite>, n: int, i: nat)
    requires Chain(cuts) && 2 <= |cuts| && i < |cuts|
    requires cuts[0].watsonCut == cuts[0].crickCut == 0
    requires cuts[|cuts| - 1].watsonCut == cuts[|cuts| - 1].crickCut == n
    ensures 0 <= cuts[i].watsonCut <= n && 0 <= cuts[i].crickCut <= n
  {
    if i > 0 {
      ChainBounds(cuts, 0, i);
    }
    if i < |cuts| - 1 {
      ChainBounds(cuts, i, |cuts| - 1);
    }
  }

  /** Ligating the first `k` fragments gives the piece from the start to
      the `k`-th cut. */
  lemma {:induction false} LigatePrefix(w: seq<char>, bounds: seq<Cutsite>, frags: seq<Dseq>, k: nat)
    requires |frags| + 1 == |bounds| && Chain(bounds)
    requires bounds[0].watsonCut == bounds[0].crickCut == 0
    requires forall i :: 0 <= i < |frags| ==>
      IsPiece(frags[i], w, bounds[i].watsonCut, bounds[i].crickCut, bounds[i + 1].watsonCut, bounds[i + 1].crickCut)
    requires 1 <= k <= |frags|
    ensures LigateAll(frags[..k]).Ok?
    ensures IsPiece(LigateAll(frags[..k]).value, w, 0, 0, bounds[k].watsonCut, bounds[k].crickCut)
    decreases k
  {
    if k == 1 {
      assert frags[..1] == [frags[0]];
    } else {
      LigatePrefix(w, bounds, frags, k - 1);
      LigatePrefixStep(w, bounds, frags, k);
    }
  }

  /** The inductive step of `LigatePrefix`. */
  lemma LigatePrefixStep(w: seq<char>, bounds: seq<Cutsite>, frags: seq<Dseq>, k: nat)
    requires |frags| + 1 == |bounds| && Chain(bounds)
    requires bounds[0].watsonCut == bounds[0].crickCut == 0
    requires forall i :: 0 <= i < |frags| ==>
      IsPiece(frags[i], w, bounds[i].watsonCut, bounds[i].crickCut, bounds[i + 1].watsonCut, bounds[i + 1].crickCut)
    requires 2 <= k <= |frags|
    requires LigateAll(frags[..k - 1]).Ok?
    requires IsPiece(LigateAll(frags[..k - 1]).value, w, 0, 0, bounds[k - 1].watsonCut, bounds[k - 1].crickCut)
    ensures LigateAll(frags[..k]).Ok?
    ensures IsPiece(LigateAll(frags[..k]).value, w, 0, 0, bounds[k].watsonCut, bounds[k].crickCut)
  {
    var b, b2, c, c2 := bounds[k - 1].watsonCut, bounds[k - 1].crickCut, bounds[k].watsonCut, bounds[k].crickCut;
    assert IsPiece(frags[k - 1], w, b, b2, c, c2);
    assert Max(b, b2) < Min(c, c2);
    ChainBounds(bounds, 0, k - 1);
    assert frags[..k] == frags[..k - 1] + [frags[k - 1]];
    LigateStep(w, frags[..k - 1], frags[k - 1], b, b2, c, c2);
  }

  /** One more fragment ligated onto a prefix that reaches cut `(b, b2)`
      extends it to the fragment's far cut. */
  lemma LigateStep(w: seq<char>, prefix: seq<Dseq>, q: Dseq, b: int, b2: int, c: int, c2: int)
    requires |prefix| > 0 && LigateAll(prefix).Ok? && IsPiece(LigateAll(prefix).value, w, 0, 0, b, b2)
    requires IsPiece(q, w, b, b2, c, c2) && 0 < Min(b, b2) && Max(b, b2) < Min(c, c2)
    ensures LigateAll(prefix + [q]).Ok? && IsPiece(LigateAll(prefix + [q]).value, w, 0, 0, c, c2)
  {
    var s := prefix + [q];
    assert s[..|s| - 1] == prefix;
    JoinAtCut(w, LigateAll(prefix).value, q, 0, 0, b, b2, c, c2);
  }

  /** Cut sites whose stagger matches their enzyme and that leave every
      fragment of `Dseq(w)` a double-stranded core. */
  predicate CleanCuts(w: seq<char>, cuts: seq<Cutsite>) {
    && (forall i :: 0 <= i < |cuts| ==> cuts[i].crickCut == cuts[i].watsonCut - CutOvhg(cuts[i]))
    && Chain(Bracketed(w, cuts))
  }

  /** The cut sites with the two ends of `Dseq(w)` around them. */
  function Bracketed(w: seq<char>, cuts: seq<Cutsite>): seq<Cutsite> {
    [Cutsite(0, 0, None)] + cuts + [Cutsite(|w|, |w|, None)]
  }

  /** Each fragment is the piece between two neighbouring cut sites. */
  lemma FragmentIsPiece(w: seq<char>, cuts: seq<Cutsite>, i: nat)
    requires NoSpace(w) && |cuts| > 0 && CleanCuts(w, cuts) && i <= |cuts|
    ensures var b := Bracketed(w, cuts);
      IsPiece(Fragments(SingleStrand(w, false, 0), cuts)[i], w, b[i].watsonCut, b[i].crickCut,
              b[i + 1].watsonCut, b[i + 1].crickCut)
  {
    var d := SingleStrand(w, false, 0);
    var b := Bracketed(w, cuts);
    assert LeftEdge(d) == b[0] && RightEdge(d) == b[|cuts| + 1];
    var pairs := CutsitePairs(d, cuts);
    assert pairs[i] == (b[i], b[i + 1]);
    ChainRange(b, |w|, i);
    ChainRange(b, |w|, i + 1);
    PieceOfApplyCut(w, b[i], b[i + 1]);
  }

  /** Cutting `Dseq(w)` at clean cut sites, then ligating the fragments in
      order, gives back the linear `Dseq(w)`: `w` paired with its reverse
      complement, with no stagger. */
  lemma CutThenLigate(w: seq<char>, cuts: seq<Cutsite>)
    requires NoSpace(w) && |cuts| > 0 && CleanCuts(w, cuts)
    ensures var frags := Fragments(SingleStrand(w, false, 0), cuts);
      |frags| == |cuts| + 1 && LigateAll(frags).Ok?
      && LigateAll(frags).value.watson == w && LigateAll(frags).value.crick == RC(w)
      && LigateAll(frags).value.ovhg == 0 && !LigateAll(frags).value.circular
  {
    var frags := Fragments(SingleStrand(w, false, 0), cuts);
    var b := Bracketed(w, cuts);
    forall i | 0 <= i < |frags|
      ensures IsPiece(frags[i], w, b[i].watsonCut, b[i].crickCut, b[i + 1].watsonCut, b[i + 1].crickCut)
    {
      FragmentIsPiece(w, cuts, i);
    }
    LigatePrefix(w, b, frags, |frags|);
    assert frags[..|frags|] == frags;
    assert w[0..|w|] == w;
  }
}
