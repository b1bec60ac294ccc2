/** Joining molecules end to end: ligation (`__add__`), repetition
    (`__mul__`), circularisation (`looped`) and moving the origin of a
    circular molecule (`shifted`). */
module Ligation {
  import opened Nucleotides
  import opened PySlice
  import opened Results
  import opened Strands
  import opened Ends
  import opened Slicing

  /** `a + b`: the right end of `a` is joined to the left end of `b`. When
      the ends do not fit, an empty operand gives back the other one. */
  function Ligate(a: Dseq, b: Dseq): (r: Result<Dseq>)
    ensures r.Err? <==> a.circular || b.circular
                        || (!Compatible(ThreePrimeEnd(a), FivePrimeEnd(b)) && Len(a) > 0 && Len(b) > 0)
    ensures r.Err? && (a.circular || b.circular) ==> r.error == CircularLigation
    ensures r.Err? && !a.circular && !b.circular ==> r.error == IncompatibleEnds
    ensures r.Ok? ==> !r.value.circular
  {
    if a.circular || b.circular then Err(CircularLigation)
    else if Compatible(ThreePrimeEnd(a), FivePrimeEnd(b)) then
      Ok(Quick(a.watson + b.watson, b.crick + a.crick, a.ovhg, false, 0))
    else if Len(a) == 0 then Ok(b)
    else if Len(b) == 0 then Ok(a)
    else Err(IncompatibleEnds)
  }

  /** One round of `new += self`; a failed round stays failed. */
  function Step(acc: Result<Dseq>, d: Dseq): Result<Dseq> {
    if acc.Err? then acc else Ligate(acc.value, d)
  }

  /** `rounds` more rounds of `new += self` starting from `acc`. */
  function Rounds(acc: Result<Dseq>, d: Dseq, rounds: nat): Result<Dseq>
    decreases rounds
  {
    if rounds == 0 then acc else Rounds(Step(acc, d), d, rounds - 1)
  }

  /** Once a round has failed, the later rounds report the same error. */
  lemma {:induction false} RoundsAfterError(acc: Result<Dseq>, d: Dseq, rounds: nat)
    requires acc.Err?
    ensures Rounds(acc, d, rounds) == acc
  {
    if rounds > 0 {
      RoundsAfterError(acc, d, rounds - 1);
    }
  }

  /** `d * number`: `number - 1` rounds of `new += self` from a copy of
      `d`; no copies give the empty molecule. */
  function Power(d: Dseq, number: int): Result<Dseq> {
    if number <= 0 then Ok(Empty()) else Rounds(Ok(d), d, number - 1)
  }

  /** `__mul__`, with its loop; the first failed round ends it. */
  method Multiply(d: Dseq, number: int) returns (r: Result<Dseq>)
    ensures r == Power(d, number)
  {
    if number <= 0 {
      return Ok(Empty());
    }
    r := Ok(d);
    var i := 0;
    while i < number - 1 && r.Ok?
      invariant 0 <= i <= number - 1
      invariant Rounds(r, d, number - 1 - i) == Power(d, number)
    {
      r := Ligate(r.value, d);
      i := i + 1;
    }
    if r.Err? {
      RoundsAfterError(r, d, number - 1 - i);
    }
  }

  /** `looped`: a linear molecule whose two ends fit is closed into a
      circle; crick is rotated by the stagger so that both strands start at
      the same place. A circular molecule is returned as it is. */
  function Looped(d: Dseq): (r: Result<Dseq>)
    ensures d.circular ==> r == Ok(d)
    ensures r.Err? <==> !d.circular && !Compatible(FivePrimeEnd(d), ThreePrimeEnd(d))
    ensures r.Err? ==> r.error == CannotCircularize
    ensures r.Ok? ==> r.value.circular && r.value.watson == d.watson
    ensures r.Ok? && !d.circular ==> r.value.ovhg == 0 && |r.value.crick| == |d.crick|
  {
    if d.circular then Ok(d)
    else if Compatible(FivePrimeEnd(d), ThreePrimeEnd(d)) then
      Ok(Quick(d.watson, From(d.crick, -d.ovhg) + To(d.crick, -d.ovhg), 0, true, 0))
    else Err(CannotCircularize)
  }

  /** `shifted`: the same circle read from position `shift` (taken modulo
      the length) by cutting it there into two pieces and joining them in
      the other order. */
  function Shifted(d: Dseq, shift: int): (r: Result<Dseq>)
    ensures !d.circular ==> r == Err(NotCircular)
    ensures d.circular && Len(d) == 0 ==> r == Err(ZeroLength)
    ensures d.circular && Len(d) > 0 && shift % Len(d) == 0 ==> r == Ok(d)
  {
    if !d.circular then Err(NotCircular)
    else if Len(d) == 0 then Err(ZeroLength)
    else
      var s := shift % Len(d);
      if s == 0 then Ok(d)
      else Rejoin(GetItem(d, Some(s), None), GetItem(d, None, Some(s)))
  }

  /** `(tail + head).looped()` */
  function Rejoin(tail: Dseq, head: Dseq): Result<Dseq> {
    match Ligate(tail, head)
    case Err(e) => Err(e)
    case Ok(joined) => Looped(joined)
  }

  /** `s` read from position `k`: `s[k:] + s[:k]`. */
  function Rotate<T>(s: seq<T>, k: nat): (r: seq<T>)
    requires k <= |s|
    ensures |r| == |s| && multiset(r) == multiset(s)
  {
    assert s == s[..k] + s[k..];
    s[k..] + s[..k]
  }

  /** `s` repeated `k` times. */
  function Concat<T>(s: seq<T>, k: nat): (r: seq<T>)
    ensures |r| == k * |s|
  {
    if k == 0 then [] else s + Concat(s, k - 1)
  }
}

/** What ligation, repetition, circularisation and shifting promise. */
module LigationFacts {
  import opened Nucleotides
  import opened PySlice
  import opened Results
  import opened Strands
  import opened StrandsFacts
  import opened Ends
  import opened Slicing
  import opened SlicingFacts
  import opened Ligation

  /** Both strands present and no gap between them. */
  predicate Solid(d: Dseq) {
    d.watson != [] && d.crick != [] && NoGap(|d.watson|, |d.crick|, d.ovhg)
  }

  /** Ends that fit have the same stagger: the right-end stagger of `a` is
      the left-end stagger of `b`. */
  lemma CompatibleStagger(a: Dseq, b: Dseq)
    requires Solid(a) && Solid(b)
    requires Compatible(ThreePrimeEnd(a), FivePrimeEnd(b))
    ensures WatsonOvhg(a) == b.ovhg
  {
    var e, f := ThreePrimeEnd(a), FivePrimeEnd(b);
    assert |e.sticky| == |f.sticky|;
  }

  /** The two ends of one molecule fit when, read as right end and left
      end, they would fit in a ligation. */
  lemma CompatibleSelf(d: Dseq)
    ensures Compatible(FivePrimeEnd(d), ThreePrimeEnd(d)) <==> Compatible(ThreePrimeEnd(d), FivePrimeEnd(d))
  {
    if Compatible(FivePrimeEnd(d), ThreePrimeEnd(d)) {
      CompatibleBothWays(FivePrimeEnd(d), ThreePrimeEnd(d));
    }
    if Compatible(ThreePrimeEnd(d), FivePrimeEnd(d)) {
      CompatibleBothWays(ThreePrimeEnd(d), FivePrimeEnd(d));
    }
  }

  /** The joined molecule `__add__` builds, by its strands. */
  lemma LigateFields(a: Dseq, b: Dseq)
    requires !a.circular && !b.circular
    requires Compatible(ThreePrimeEnd(a), FivePrimeEnd(b))
    ensures var r := Ligate(a, b);
      && r.Ok? && r.value.watson == a.watson + b.watson && r.value.crick == b.crick + a.crick
      && r.value.ovhg == a.ovhg && !r.value.circular
  {
  }

  /** Joining keeps the left end of the left molecule. */
  lemma JoinedLeftEnd(a: Dseq, b: Dseq, j: Dseq)
    requires Solid(a) && Solid(b)
    requires j.watson == a.watson + b.watson && j.crick == b.crick + a.crick && j.ovhg == a.ovhg
    ensures FivePrimeEnd(j) == FivePrimeEnd(a)
  {
    var o := a.ovhg;
    if o < 0 {
      assert j.watson[..Min(-o, |j.watson|)] == a.watson[..Min(-o, |a.watson|)];
    } else if o > 0 {
      assert j.crick[|j.crick| - Min(o, |j.crick|)..] == a.crick[|a.crick| - Min(o, |a.crick|)..];
    }
  }

  /** Joining keeps the right end of the right molecule, once the ends fit. */
  lemma JoinedRightEnd(a: Dseq, b: Dseq, j: Dseq)
    requires Solid(a) && Solid(b)
    requires WatsonOvhg(a) == b.ovhg
    requires j.watson == a.watson + b.watson && j.crick == b.crick + a.crick && j.ovhg == a.ovhg
    ensures WatsonOvhg(j) == WatsonOvhg(b)
    ensures ThreePrimeEnd(j) == ThreePrimeEnd(b)
  {
    var k := WatsonOvhg(b);
    assert WatsonOvhg(j) == k;
    if k < 0 {
      assert j.crick[..Min(-k, |j.crick|)] == b.crick[..Min(-k, |b.crick|)];
    } else if k > 0 {
      assert j.watson[|j.watson| - Min(k, |j.watson|)..] == b.watson[|b.watson| - Min(k, |b.watson|)..];
    }
  }

  /** Ligating two molecules whose ends fit gives a molecule with the left
      end of the first and the right end of the second, and no gap. */
  lemma LigationKeepsOuterEnds(a: Dseq, b: Dseq)
    requires Solid(a) && Solid(b) && !a.circular && !b.circular
    requires Compatible(ThreePrimeEnd(a), FivePrimeEnd(b))
    ensures var r := Ligate(a, b);
      && r.Ok? && Solid(r.value) && !r.value.circular
      && FivePrimeEnd(r.value) == FivePrimeEnd(a)
      && ThreePrimeEnd(r.value) == ThreePrimeEnd(b)
  {
    var r := Ligate(a, b);
    LigateFields(a, b);
    CompatibleStagger(a, b);
    JoinedLeftEnd(a, b, r.value);
    JoinedRightEnd(a, b, r.value);
  }

  /** Empty is a left identity of ligation: the strands and stagger of a
      linear molecule come back. */
  lemma LigateEmptyLeft(b: Dseq)
    requires !b.circular
    ensures var r := Ligate(Empty(), b);
      r.Ok? && r.value.watson == b.watson && r.value.crick == b.crick && r.value.ovhg == b.ovhg
  {
    assert RC([]) == [];
    assert [] + b.watson == b.watson && b.crick + [] == b.crick;
  }

  /** Empty is a right identity of ligation for a linear molecule that is
      not empty itself or whose right end is blunt. */
  lemma LigateEmptyRight(a: Dseq)
    requires !a.circular
    requires Len(a) > 0 || WatsonOvhg(a) == 0
    ensures var r := Ligate(a, Empty());
      r.Ok? && r.value.watson == a.watson && r.value.crick == a.crick && r.value.ovhg == a.ovhg
  {
    assert RC([]) == [];
    assert a.watson + [] == a.watson && [] + a.crick == a.crick;
  }

  /** Ligating two blunt molecules gives the blunt molecule whose full
      sequence is the two full sequences one after the other. */
  lemma BluntLigation(a: Dseq, b: Dseq)
    requires IsBlunt(a) && IsBlunt(b)
    ensures var r := Ligate(a, b);
      && r.Ok? && IsBlunt(r.value)
      && r.value.watson == a.watson + b.watson && r.value.crick == b.crick + a.crick
      && r.value.data == FullSequence(a.watson, a.crick, 0) + FullSequence(b.watson, b.crick, 0)
  {
    assert RC([]) == [];
    var w, c := a.watson + b.watson, b.crick + a.crick;
    assert From(c, |c|) == [] && To(c, 0) == [];
    assert From(a.crick, |a.crick|) == [] && To(a.crick, 0) == [];
    assert From(b.crick, |b.crick|) == [] && To(b.crick, 0) == [];
  }

  /** Rounds of `new += self` on a molecule whose right end fits its own
      left end: each round puts one more copy of each strand in place. */
  lemma {:induction false} RoundsSelfCompatible(x: Dseq, d: Dseq, rounds: nat)
    requires Solid(d) && !d.circular
    requires Compatible(ThreePrimeEnd(d), FivePrimeEnd(d))
    requires Solid(x) && !x.circular && ThreePrimeEnd(x) == ThreePrimeEnd(d)
    ensures var r := Rounds(Ok(x), d, rounds);
      && r.Ok? && r.value.watson == x.watson + Concat(d.watson, rounds)
      && r.value.crick == Concat(d.crick, rounds) + x.crick
      && r.value.ovhg == x.ovhg
    decreases rounds
  {
    if rounds == 0 {
      assert x.watson + [] == x.watson && [] + x.crick == x.crick;
    } else {
      var st := Step(Ok(x), d);
      RoundStep(x, d);
      RoundsUnfold(Ok(x), d, rounds);
      RoundsSelfCompatible(st.value, d, rounds - 1);
      ConcatAround(x.watson, x.crick, d.watson, d.crick, rounds);
    }
  }

  /** One round of `__mul__`'s loop, taken off the front. */
  lemma RoundsUnfold(acc: Result<Dseq>, d: Dseq, rounds: nat)
    requires rounds > 0 && Step(acc, d).Ok?
    ensures Rounds(acc, d, rounds) == Rounds(Ok(Step(acc, d).value), d, rounds - 1)
  {
  }

  /** One round keeps the right end and adds a copy of each strand. */
  lemma RoundStep(x: Dseq, d: Dseq)
    requires Solid(d) && !d.circular
    requires Solid(x) && !x.circular
    requires Compatible(ThreePrimeEnd(x), FivePrimeEnd(d))
    ensures var st := Step(Ok(x), d);
      && st.Ok? && Solid(st.value) && !st.value.circular && ThreePrimeEnd(st.value) == ThreePrimeEnd(d)
      && st.value.watson == x.watson + d.watson && st.value.crick == d.crick + x.crick
      && st.value.ovhg == x.ovhg
  {
    LigationKeepsOuterEnds(x, d);
    LigateFields(x, d);
  }

  /** The strands after one more round, regrouped. */
  lemma ConcatAround<T>(xw: seq<T>, xc: seq<T>, dw: seq<T>, dc: seq<T>, k: nat)
    requires k > 0
    ensures (xw + dw) + Concat(dw, k - 1) == xw + Concat(dw, k)
    ensures Concat(dc, k - 1) + (dc + xc) == Concat(dc, k) + xc
  {
    ConcatCommutes(dc, k - 1);
  }

  lemma {:induction false} ConcatCommutes<T>(s: seq<T>, k: nat)
    ensures Concat(s, k) + s == s + Concat(s, k)
  {
    if k > 0 {
      ConcatCommutes(s, k - 1);
      calc {
        Concat(s, k) + s;
        s + Concat(s, k - 1) + s;
        s + (Concat(s, k - 1) + s);
        s + (s + Concat(s, k - 1));
      }
    }
  }

  /** `d * number` of a molecule whose right end fits its own left end:
      each strand repeated `number` times, the stagger kept. */
  lemma PowerSelfCompatible(d: Dseq, number: int)
    requires Solid(d) && !d.circular
    requires Compatible(ThreePrimeEnd(d), FivePrimeEnd(d))
    requires number >= 1
    ensures var r := Power(d, number);
      && r.Ok? && r.value.watson == Concat(d.watson, number)
      && r.value.crick == Concat(d.crick, number) && r.value.ovhg == d.ovhg
  {
    RoundsSelfCompatible(d, d, number - 1);
    ConcatCommutes(d.crick, number - 1);
  }

  /** `d * 0` and negative powers are the empty molecule. */
  lemma PowerNotPositive(d: Dseq, number: int)
    requires number <= 0
    ensures var r := Power(d, number);
      r.Ok? && r.value.watson == [] && r.value.crick == [] && Len(r.value) == 0
  {
    assert RC([]) == [];
  }

  /** Ends that fit on one molecule: the right-end stagger equals the left one. */
  lemma LoopStagger(d: Dseq)
    requires Solid(d)
    requires Compatible(FivePrimeEnd(d), ThreePrimeEnd(d))
    ensures WatsonOvhg(d) == d.ovhg && |d.watson| == |d.crick|
  {
    CompatibleSelf(d);
    CompatibleStagger(d, d);
  }

  /** `looped` closes a linear molecule with fitting ends into a circle of
      the right shape: both strands as long as the circle. */
  lemma LoopedShape(d: Dseq)
    requires Solid(d) && !d.circular
    requires Compatible(FivePrimeEnd(d), ThreePrimeEnd(d))
    ensures var r := Looped(d);
      r.Ok? && CircularShape(r.value) && Len(r.value) == |d.watson| == |d.crick|
  {
    LoopStagger(d);
    var c2 := From(d.crick, -d.ovhg) + To(d.crick, -d.ovhg);
    FromToRotation(d.crick, -d.ovhg);
    assert Looped(d) == Ok(Quick(d.watson, c2, 0, true, 0));
    QuickCircle(d.watson, c2);
  }

  /** `looped` moves the protruding 3' end of crick round to the other side:
      crick is rotated by the stagger, as Python's `crick[-ovhg:] + crick[:-ovhg]`. */
  lemma LoopedCrick(d: Dseq)
    requires !d.circular && Compatible(FivePrimeEnd(d), ThreePrimeEnd(d))
    ensures var r := Looped(d);
      r.Ok? && r.value.crick == Rotate(d.crick, Bound(-d.ovhg, |d.crick|))
  {
    FromToRotation(d.crick, -d.ovhg);
  }

  /** Two strands of the same length, no stagger, closed: a circle. */
  lemma QuickCircle(w: seq<char>, c: seq<char>)
    requires |w| == |c|
    ensures CircularShape(Quick(w, c, 0, true, 0)) && Len(Quick(w, c, 0, true, 0)) == |w|
  {
    assert To(c, 0) == [];
    assert From(c, |c|) == [];
    assert RC([]) == [];
  }

  /** A blunt linear molecule closes with both strands as they are, as in
      `Dseq("catcgatc").looped()`. */
  lemma LoopedBlunt(d: Dseq)
    requires IsBlunt(d)
    ensures var r := Looped(d);
      && r.Ok? && CircularShape(r.value) && Len(r.value) == |d.watson|
      && r.value.watson == d.watson && r.value.crick == d.crick
  {
    assert RC([]) == [];
    assert From(d.crick, 0) + To(d.crick, 0) == d.crick;
    QuickCircle(d.watson, d.crick);
  }

  /** The two pieces `d[s:]` and `d[:s]` that `shifted` joins. */
  lemma ShiftPieces(d: Dseq, s: nat)
    requires CircularShape(d) && 0 < s < Len(d)
    ensures var n := Len(d);
      var p, q := GetItem(d, Some(s), None), GetItem(d, None, Some(s));
      && p.watson == d.watson[s..] && p.crick == d.crick[..n - s] && IsBlunt(p)
      && q.watson == d.watson[..s] && q.crick == d.crick[n - s..] && IsBlunt(q)
  {
    var n := Len(d);
    CircularSliceInside(d, s, n);
    CircularSliceInside(d, 0, s);
    assert GetItem(d, Some(s), None) == CircularSliceBetween(d, s, n);
    assert GetItem(d, None, Some(s)) == CircularSliceBetween(d, 0, s);
  }

  /** `shifted` reads the circle from position `s == shift % len`: watson is
      rotated left by `s` and crick, read the other way, by `len - s`. */
  lemma ShiftedRotates(d: Dseq, shift: int, s: nat)
    requires CircularShape(d) && Len(d) > 0 && s == shift % Len(d) && s < Len(d)
    ensures var r := Shifted(d, shift);
      && r.Ok? && CircularShape(r.value)
      && r.value.watson == Rotate(d.watson, s)
      && r.value.crick == Rotate(d.crick, Len(d) - s)
  {
    if s == 0 {
      ShiftedWhole(d, shift);
    } else {
      ShiftedBy(d, shift, s);
    }
  }

  /** `shifted` by a multiple of the length gives the molecule back. */
  lemma ShiftedWhole(d: Dseq, shift: int)
    requires CircularShape(d) && Len(d) > 0 && shift % Len(d) == 0
    ensures var r := Shifted(d, shift);
      && r.Ok? && CircularShape(r.value)
      && r.value.watson == Rotate(d.watson, 0)
      && r.value.crick == Rotate(d.crick, Len(d))
  {
    assert Shifted(d, shift) == Ok(d);
    assert Rotate(d.watson, 0) == d.watson;
    assert Rotate(d.crick, Len(d)) == d.crick;
  }

  /** `shifted` by an amount whose remainder `s` lies strictly inside. */
  lemma ShiftedBy(d: Dseq, shift: int, s: nat)
    requires CircularShape(d) && 0 < s < Len(d) && s == shift % Len(d)
    ensures var r := Shifted(d, shift);
      && r.Ok? && CircularShape(r.value)
      && r.value.watson == Rotate(d.watson, s)
      && r.value.crick == Rotate(d.crick, Len(d) - s)
  {
    RotateAt(d, s);
    ShiftedAt(d, shift, s);
  }

  /** For a non-zero remainder, `shifted` joins `d[s:]` to `d[:s]`. */
  lemma ShiftedAt(d: Dseq, shift: int, s: nat)
    requires d.circular && Len(d) > 0 && s == shift % Len(d) && s != 0
    ensures Shifted(d, shift) == Rejoin(GetItem(d, Some(s), None), GetItem(d, None, Some(s)))
  {
  }

  /** `d[s:] + d[:s]` of a circle is the circle with both strands rotated. */
  lemma RotateAt(d: Dseq, s: nat)
    requires CircularShape(d) && 0 < s < Len(d)
    ensures var r := Rejoin(GetItem(d, Some(s), None), GetItem(d, None, Some(s)));
      && r.Ok? && CircularShape(r.value)
      && r.value.watson == Rotate(d.watson, s)
      && r.value.crick == Rotate(d.crick, Len(d) - s)
  {
    var p, q := GetItem(d, Some(s), None), GetItem(d, None, Some(s));
    ShiftJoin(d, s);
    RejoinBlunt(p, q);
  }

  /** Closing the join of two blunt pieces keeps its strands. */
  lemma RejoinBlunt(p: Dseq, q: Dseq)
    requires Ligate(p, q).Ok? && IsBlunt(Ligate(p, q).value)
    ensures var j, r := Ligate(p, q).value, Rejoin(p, q);
      && r.Ok? && CircularShape(r.value)
      && r.value.watson == j.watson && r.value.crick == j.crick
  {
    LoopedBlunt(Ligate(p, q).value);
  }

  /** The linear molecule `d[s:] + d[:s]` that `shifted` closes again. */
  lemma ShiftJoin(d: Dseq, s: nat)
    requires CircularShape(d) && 0 < s < Len(d)
    ensures var n := Len(d);
      var j := Ligate(GetItem(d, Some(s), None), GetItem(d, None, Some(s)));
      && j.Ok? && IsBlunt(j.value)
      && j.value.watson == Rotate(d.watson, s) && j.value.crick == Rotate(d.crick, n - s)
  {
    var p, q := GetItem(d, Some(s), None), GetItem(d, None, Some(s));
    ShiftPieces(d, s);
    BluntLigation(p, q);
  }

  /** Rotating a strand turns its reverse complement the other way. */
  lemma RCRotate(w: seq<char>, s: nat)
    requires s <= |w|
    ensures RC(Rotate(w, s)) == Rotate(RC(w), |w| - s)
  {
    var n := |w|;
    assert w[s..] == w[s..n] && w[..s] == w[0..s];
    RCAppend(w[s..], w[..s]);
    RCSlice(w, s, n);
    RCSlice(w, 0, s);
    assert RC(Rotate(w, s)) == RC(w)[n - s..] + RC(w)[..n - s];
  }

  /** Shifting a fully paired circle gives a fully paired circle. */
  lemma ShiftedPaired(d: Dseq, shift: int)
    requires CircularShape(d) && Paired(d) && Len(d) > 0
    ensures var r := Shifted(d, shift);
      r.Ok? && CircularShape(r.value) && Paired(r.value)
  {
    ModInRange(shift, Len(d));
    ShiftedPairedBy(d, shift, shift % Len(d));
  }

  /** `ShiftedPaired` with the remainder `s` named. */
  lemma ShiftedPairedBy(d: Dseq, shift: int, s: nat)
    requires CircularShape(d) && Paired(d) && Len(d) > 0 && s == shift % Len(d) && s < Len(d)
    ensures var r := Shifted(d, shift);
      r.Ok? && CircularShape(r.value) && Paired(r.value)
  {
    PairedRotation(d.watson, d.crick, s);
    ShiftedRotates(d, shift, s);
  }

  /** Rotating watson one way and crick the other keeps them paired. */
  lemma PairedRotation(w: seq<char>, c: seq<char>, s: nat)
    requires c == RC(w) && s <= |w|
    ensures Rotate(c, |w| - s) == RC(Rotate(w, s))
  {
    RCRotate(w, s);
  }
}
