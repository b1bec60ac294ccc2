/** `Dseq.__getitem__` with a step-1 slice: a linear molecule is cut out of
    its two-row layout padded with spaces; a circular molecule is read from
    `start` up to `stop`, going round the origin when `stop` is not past
    `start`. */
module Slicing {
  import opened Nucleotides
  import opened PySlice
  import opened Results
  import opened Strands

  /** `s[start:stop]` where either bound may be None. */
  function SliceOpt<T>(s: seq<T>, start: Option<int>, stop: Option<int>): (r: seq<T>)
    ensures start.None? && stop.None? ==> r == s
  {
    Slice(s, if start.Some? then start.value else 0, if stop.Some? then stop.value else |s|)
  }

  /** The watson row of the layout of a linear molecule. */
  function TopRow(d: Dseq): seq<char> {
    Spaces(d.ovhg) + d.watson + Spaces(|d.crick| - d.ovhg - |d.watson|)
  }

  /** The crick row of the layout, crick read 3' to 5'. */
  function BottomRow(d: Dseq): seq<char> {
    Spaces(-d.ovhg) + Reverse(d.crick) + Spaces(-(|d.crick| - d.ovhg - |d.watson|))
  }

  /** The linear branch of `__getitem__`: both rows are sliced, stripped of
      padding, and the new stagger is the larger of the two indentations,
      the watson one winning a tie. */
  function LinearSlice(d: Dseq, start: Option<int>, stop: Option<int>): (r: Dseq)
    ensures !r.circular && r.pos == 0
    ensures r.data == FullSequence(r.watson, r.crick, r.ovhg)
  {
    var sns := SliceOpt(TopRow(d), start, stop);
    var asn := SliceOpt(BottomRow(d), start, stop);
    var top, bottom := Leading(sns), Leading(asn);
    var ovhg: int := if top >= bottom then top else -(bottom as int);
    FromStrands(Strip(sns), Strip(Reverse(asn)), ovhg, false, 0)
  }

  /** The circular branch of `__getitem__`. A missing or zero stop means the
      whole length. */
  function CircularSlice(d: Dseq, start: Option<int>, stop: Option<int>): (r: Dseq)
    ensures !r.circular && r.pos == 0 && r.ovhg == 0
    ensures r.data == FullSequence(r.watson, r.crick, r.ovhg)
  {
    var s := if start.Some? then start.value else 0;
    var t := if stop.None? || stop.value == 0 then Len(d) else stop.value;
    CircularSliceBetween(d, s, t)
  }

  /** The circular branch once its bounds are filled in: bounds past the
      length give an empty molecule, and `t <= s` goes round the origin. */
  function CircularSliceBetween(d: Dseq, s: int, t: int): (r: Dseq)
    ensures !r.circular && r.pos == 0 && r.ovhg == 0
    ensures r.data == FullSequence(r.watson, r.crick, r.ovhg)
  {
    var n := Len(d);
    if s > n || t > n then SingleStrand([], false, 0)
    else if s < t then
      FromStrands(Slice(d.watson, s, t), Reverse(Slice(Reverse(d.crick), s, t)), 0, false, 0)
    else
      FromStrands(From(d.watson, if s == 0 then n else s) + To(d.watson, t),
                  From(d.crick, n - t) + To(d.crick, n - s), 0, false, 0)
  }

  /** `d[start:stop]` */
  function GetItem(d: Dseq, start: Option<int>, stop: Option<int>): (r: Dseq)
    ensures !r.circular && r.pos == 0
    ensures r.data == FullSequence(r.watson, r.crick, r.ovhg)
  {
    if d.circular then CircularSlice(d, start, stop) else LinearSlice(d, start, stop)
  }

  /** No whitespace anywhere in a strand. */
  predicate NoSpace(s: seq<char>) {
    forall k :: 0 <= k < |s| ==> !IsSpace(s[k])
  }

  /** A circular molecule as `looped` and `Dseq(..., circular=True)` build
      it: two strands of the full length, no stagger. */
  predicate CircularShape(d: Dseq) {
    d.circular && d.ovhg == 0 && |d.watson| == |d.crick| == Len(d)
  }
}

/** What slicing promises. */
module SlicingFacts {
  import opened Nucleotides
  import opened PySlice
  import opened Results
  import opened Strands
  import opened StrandsFacts
  import opened Slicing

  lemma TrailingSpaces(s: seq<char>, n: int)
    requires s != [] && !IsSpace(s[|s| - 1])
    ensures Trailing(s + Spaces(n)) == Max(0, n)
  {
    if n > 0 {
      assert (s + Spaces(n))[..|s + Spaces(n)| - 1] == s + Spaces(n - 1);
      TrailingSpaces(s, n - 1);
    } else {
      assert s + Spaces(n) == s;
    }
  }

  /** A padded strand strips back to the strand and its indentation is the
      left padding. */
  lemma PaddedLine(a: int, s: seq<char>, b: int)
    requires s != [] && !IsSpace(s[0]) && !IsSpace(s[|s| - 1])
    ensures Leading(Spaces(a) + s + Spaces(b)) == Max(0, a)
    ensures Strip(Spaces(a) + s + Spaces(b)) == s
  {
    assert Spaces(a) + s + Spaces(b) == Spaces(a) + (s + Spaces(b));
    LeadingSpaces(a, s + Spaces(b));
    assert (Spaces(a) + s + Spaces(b))[Max(0, a)..] == s + Spaces(b);
    TrailingSpaces(s, b);
    assert (s + Spaces(b))[..|s|] == s;
  }

  /** The strip half of `PaddedLine`, for a line known only to equal a padded strand. */
  lemma PaddedStrip(line: seq<char>, a: int, s: seq<char>, b: int)
    requires s != [] && !IsSpace(s[0]) && !IsSpace(s[|s| - 1])
    requires line == Spaces(a) + s + Spaces(b)
    ensures Strip(line) == s
  {
    PaddedLine(a, s, b);
  }

  lemma ReverseSpaces(n: int)
    ensures Reverse(Spaces(n)) == Spaces(n)
  {
  }

  /** The linear branch, read field by field. */
  lemma LinearSliceFields(d: Dseq, start: Option<int>, stop: Option<int>)
    requires !d.circular
    ensures var sns, asn := SliceOpt(TopRow(d), start, stop), SliceOpt(BottomRow(d), start, stop);
      var r := GetItem(d, start, stop);
      && r.watson == Strip(sns) && r.crick == Strip(Reverse(asn))
      && r.ovhg == (if Leading(sns) >= Leading(asn) then Leading(sns) as int else -(Leading(asn) as int))
  {
  }

  /** `d[:]` of a linear molecule gives back its strands and stagger, when
      neither strand is empty nor begins or ends with whitespace. */
  lemma WholeLinearSlice(d: Dseq)
    requires !d.circular
    requires d.watson != [] && !IsSpace(d.watson[0]) && !IsSpace(d.watson[|d.watson| - 1])
    requires d.crick != [] && !IsSpace(d.crick[0]) && !IsSpace(d.crick[|d.crick| - 1])
    ensures var r := GetItem(d, None, None);
      r.watson == d.watson && r.crick == d.crick && r.ovhg == d.ovhg && !r.circular
  {
    WholeRows(d);
    assert SliceOpt(TopRow(d), None, None) == TopRow(d);
    assert SliceOpt(BottomRow(d), None, None) == BottomRow(d);
    LinearSliceFields(d, None, None);
  }

  /** The rows of the layout strip back to the strands, and their
      indentations are the two sides of the stagger. */
  lemma WholeRows(d: Dseq)
    requires d.watson != [] && !IsSpace(d.watson[0]) && !IsSpace(d.watson[|d.watson| - 1])
    requires d.crick != [] && !IsSpace(d.crick[0]) && !IsSpace(d.crick[|d.crick| - 1])
    ensures Leading(TopRow(d)) == Max(0, d.ovhg) && Strip(TopRow(d)) == d.watson
    ensures Leading(BottomRow(d)) == Max(0, -d.ovhg) && Strip(Reverse(BottomRow(d))) == d.crick
  {
    PaddedLine(d.ovhg, d.watson, |d.crick| - d.ovhg - |d.watson|);
    BottomRowIndent(d);
    BottomRowStrips(d);
  }

  lemma BottomRowStrips(d: Dseq)
    requires d.crick != [] && !IsSpace(d.crick[0]) && !IsSpace(d.crick[|d.crick| - 1])
    ensures Strip(Reverse(BottomRow(d))) == d.crick
  {
    ReversedBottomRow(d);
    PaddedStrip(Reverse(BottomRow(d)), -(|d.crick| - d.ovhg - |d.watson|), d.crick, -d.ovhg);
  }

  lemma BottomRowIndent(d: Dseq)
    requires d.crick != [] && !IsSpace(d.crick[0]) && !IsSpace(d.crick[|d.crick| - 1])
    ensures Leading(BottomRow(d)) == Max(0, -d.ovhg)
  {
    var rc := Reverse(d.crick);
    assert rc[0] == d.crick[|d.crick| - 1] && rc[|rc| - 1] == d.crick[0];
    PaddedLine(-d.ovhg, rc, -(|d.crick| - d.ovhg - |d.watson|));
  }

  lemma ReversedBottomRow(d: Dseq)
    ensures var x := |d.crick| - d.ovhg - |d.watson|;
      Reverse(BottomRow(d)) == Spaces(-x) + d.crick + Spaces(-d.ovhg)
  {
    var x := |d.crick| - d.ovhg - |d.watson|;
    var rc := Reverse(d.crick);
    ReverseAppend(Spaces(-d.ovhg) + rc, Spaces(-x));
    ReverseAppend(Spaces(-d.ovhg), rc);
    ReverseSpaces(-x);
    ReverseSpaces(-d.ovhg);
    ReverseInvolutive(d.crick);
  }

  /** A strand with no whitespace strips to itself. */
  lemma StripNoSpace(s: seq<char>)
    requires NoSpace(s)
    ensures Strip(s) == s && Leading(s) == 0
  {
    if s != [] {
      PaddedLine(0, s, 0);
      assert Spaces(0) + s + Spaces(0) == s;
    }
  }

  /** A slice `d[i:j]` of a blunt linear molecule is the blunt molecule of
      the watson bases `i..j` and the crick bases opposite them. */
  lemma BluntLinearSlice(d: Dseq, i: nat, j: nat)
    requires !d.circular && d.ovhg == 0 && |d.watson| == |d.crick|
    requires NoSpace(d.watson) && NoSpace(d.crick)
    requires i <= j <= |d.watson|
    ensures var n := |d.watson|;
      var r := GetItem(d, Some(i), Some(j));
      r.watson == d.watson[i..j] && r.crick == d.crick[n - j..n - i] && r.ovhg == 0
  {
    BluntTopRow(d, i, j);
    BluntBottomRow(d, i, j);
    LinearSliceFields(d, Some(i), Some(j));
  }

  lemma BluntTopRow(d: Dseq, i: nat, j: nat)
    requires d.ovhg == 0 && |d.watson| == |d.crick|
    requires NoSpace(d.watson)
    requires i <= j <= |d.watson|
    ensures var sns := SliceOpt(TopRow(d), Some(i), Some(j));
      Strip(sns) == d.watson[i..j] && Leading(sns) == 0
  {
    assert TopRow(d) == d.watson;
    assert SliceOpt(TopRow(d), Some(i), Some(j)) == d.watson[i..j];
    StripNoSpace(d.watson[i..j]);
  }

  lemma BluntBottomRow(d: Dseq, i: nat, j: nat)
    requires d.ovhg == 0 && |d.watson| == |d.crick|
    requires NoSpace(d.crick)
    requires i <= j <= |d.watson|
    ensures var n := |d.crick|;
      var asn := SliceOpt(BottomRow(d), Some(i), Some(j));
      Strip(Reverse(asn)) == d.crick[n - j..n - i] && Leading(asn) == 0
  {
    StrippedReversedSlice(d.crick, i, j);
    BluntBottomRowIsCrick(d);
    SliceIn(BottomRow(d), i, j);
  }

  /** With no stagger and equal strands the crick row has no padding. */
  lemma BluntBottomRowIsCrick(d: Dseq)
    requires d.ovhg == 0 && |d.watson| == |d.crick|
    ensures BottomRow(d) == Reverse(d.crick)
  {
    assert Spaces(0) == [];
  }

  /** A stretch of a reversed strand without whitespace, reversed back and
      stripped, is the matching stretch of the strand. */
  lemma StrippedReversedSlice(c: seq<char>, i: nat, j: nat)
    requires NoSpace(c) && i <= j <= |c|
    ensures Strip(Reverse(Reverse(c)[i..j])) == c[|c| - j..|c| - i]
    ensures Leading(Reverse(c)[i..j]) == 0
  {
    var n := |c|;
    NoSpaceReversedSlice(c, i, j);
    StripNoSpace(Reverse(c)[i..j]);
    ReversedSlice(c, i, j);
    StripNoSpace(c[n - j..n - i]);
    StripOfEqual(Reverse(Reverse(c)[i..j]), c[n - j..n - i]);
  }

  lemma StripOfEqual(a: seq<char>, b: seq<char>)
    requires a == b
    ensures Strip(a) == Strip(b)
  {
  }

  lemma ReversedSlice<T>(c: seq<T>, i: nat, j: nat)
    requires i <= j <= |c|
    ensures Reverse(Reverse(c)[i..j]) == c[|c| - j..|c| - i]
  {
    ReverseSlice(Reverse(c), i, j);
    ReverseInvolutive(c);
  }

  lemma NoSpaceReversedSlice(c: seq<char>, i: nat, j: nat)
    requires NoSpace(c) && i <= j <= |c|
    ensures NoSpace(Reverse(c)[i..j])
  {
    var rc := Reverse(c);
    forall k | 0 <= k < j - i ensures !IsSpace(rc[i..j][k]) {
      assert rc[i..j][k] == c[|c| - 1 - (i + k)];
    }
  }

  /** A slice `d[s:t]` of a circular molecule with `s < t` is the stretch
      `s..t` of watson and the crick bases opposite it. */
  lemma CircularSliceInside(d: Dseq, s: nat, t: nat)
    requires CircularShape(d)
    requires s < t <= Len(d)
    ensures var n := Len(d);
      var r := CircularSliceBetween(d, s, t);
      r.watson == d.watson[s..t] && r.crick == d.crick[n - t..n - s] && r.ovhg == 0
  {
    var n := Len(d);
    assert Slice(Reverse(d.crick), s, t) == Reverse(d.crick)[s..t];
    ReverseSlice(Reverse(d.crick), s, t);
    ReverseInvolutive(d.crick);
  }

  /** A slice `d[s:t]` of a circular molecule with `t <= s` runs through the
      origin: watson from `s` to the end and then up to `t`, crick likewise. */
  lemma CircularSliceAcrossOrigin(d: Dseq, s: nat, t: nat)
    requires CircularShape(d)
    requires 0 < t <= s <= Len(d)
    ensures var n := Len(d);
      var r := CircularSliceBetween(d, s, t);
      r.watson == d.watson[s..] + d.watson[..t] && r.crick == d.crick[n - t..] + d.crick[..n - s] && r.ovhg == 0
  {
    var n := Len(d);
    assert From(d.watson, s) == d.watson[s..] && To(d.watson, t) == d.watson[..t];
    assert From(d.crick, n - t) == d.crick[n - t..] && To(d.crick, n - s) == d.crick[..n - s];
  }

  /** A fully paired strand pair: crick is the reverse complement of watson. */
  predicate Paired(d: Dseq) {
    d.ovhg == 0 && d.crick == RC(d.watson)
  }

  /** Every slice of a fully paired circular molecule with bounds that are
      not negative is fully paired. */
  lemma CircularSlicePaired(d: Dseq, start: Option<int>, stop: Option<int>)
    requires CircularShape(d) && Paired(d)
    requires start.None? || start.value >= 0
    requires stop.None? || stop.value >= 0
    ensures Paired(GetItem(d, start, stop))
  {
    var n := Len(d);
    var s := if start.Some? then start.value else 0;
    var t := if stop.None? || stop.value == 0 then n else stop.value;
    if s > n || t > n {
      assert RC([]) == [];
    } else if s < t {
      InsidePaired(d, s, t);
    } else if n > 0 {
      AcrossOriginPaired(d, s, t);
    }
  }

  lemma InsidePaired(d: Dseq, s: nat, t: nat)
    requires CircularShape(d) && Paired(d)
    requires s < t <= Len(d)
    ensures Paired(CircularSliceBetween(d, s, t))
  {
    var r := CircularSliceBetween(d, s, t);
    CircularSliceInside(d, s, t);
    PairedStretch(d.watson, d.crick, s, t);
    assert r.crick == RC(r.watson);
  }

  /** Opposite stretches of two paired strands are paired. */
  lemma PairedStretch(w: seq<char>, c: seq<char>, s: nat, t: nat)
    requires c == RC(w) && s <= t <= |w|
    ensures c[|w| - t..|w| - s] == RC(w[s..t])
  {
    RCSlice(w, s, t);
  }

  lemma AcrossOriginPaired(d: Dseq, s: nat, t: nat)
    requires CircularShape(d) && Paired(d)
    requires 0 < t <= s <= Len(d)
    ensures Paired(CircularSliceBetween(d, s, t))
  {
    var r := CircularSliceBetween(d, s, t);
    CircularSliceAcrossOrigin(d, s, t);
    PairedWrap(d.watson, d.crick, s, t);
    assert r.crick == RC(r.watson);
  }

  /** The stretches of two paired strands that run through the origin are paired. */
  lemma PairedWrap(w: seq<char>, c: seq<char>, s: nat, t: nat)
    requires c == RC(w) && t <= s <= |w|
    ensures c[|w| - t..] + c[..|w| - s] == RC(w[s..] + w[..t])
  {
    RCAppend(w[s..], w[..t]);
    RCSlice(w, s, |w|);
    RCSlice(w, 0, t);
  }
}
