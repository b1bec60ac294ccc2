/** The double-stranded sequence value (pydna's Dseq) and its constructors.

    `watson` and `crick` are both stored 5' to 3'. `ovhg` is the stagger at
    the left end: positive when crick's 3' end sticks out past watson's 5'
    end, negative when watson's 5' end sticks out. `data` is the flattened
    full sequence (Python `_data`), `length` the stored length attribute. */
module Strands {
  import opened Nucleotides
  import opened PySlice
  import opened Results

  datatype Dseq = Dseq(
    watson: seq<char>,
    crick: seq<char>,
    ovhg: int,
    circular: bool,
    pos: int,
    data: seq<char>,
    length: int)

  /** `len(self)`: the length of the full sequence. */
  function Len(d: Dseq): nat {
    |d.data|
  }

  /** Width of the two strands laid out with stagger `ovhg`. */
  function Span(lw: nat, lc: nat, ovhg: int): nat {
    Max(lw + Max(0, ovhg), lc + Max(0, -ovhg))
  }

  /** Full sequence as `quick` builds it: the crick flank sticking out on the
      left (reverse complemented), watson, and the crick flank sticking out on
      the right. For ovhg <= 0 the left flank is `cb[len(cb):]`, empty. */
  function FullSequence(w: seq<char>, c: seq<char>, ovhg: int): seq<char> {
    RC(From(c, if ovhg > 0 then -ovhg else |c|)) + w + RC(To(c, Max(0, |c| - ovhg - |w|)))
  }

  /** The trusted builder: no checks, length from the span formula. */
  function Quick(w: seq<char>, c: seq<char>, ovhg: int, circular: bool, pos: int): Dseq {
    Dseq(w, c, ovhg, circular, pos, FullSequence(w, c, ovhg), Span(|w|, |c|, ovhg))
  }

  /** `Dseq(watson)`: crick is the reverse complement, ovhg 0. */
  function SingleStrand(w: seq<char>, circular: bool, pos: int): (r: Dseq)
    ensures r.data == FullSequence(r.watson, r.crick, r.ovhg)
    ensures r.crick == RC(w) && r.ovhg == 0 && Len(r) == |w| == Span(|r.watson|, |r.crick|, 0)
  {
    RCInvolutive(w);
    Dseq(w, RC(w), 0, circular, pos, w, |w|)
  }

  /** `Dseq("")`, the identity of ligation. */
  function Empty(): Dseq {
    SingleStrand([], false, 0)
  }

  /** Full sequence as `__init__` builds it when ovhg is given, branch by branch. */
  function ExplicitData(w: seq<char>, c: seq<char>, ovhg: int): seq<char> {
    if ovhg == 0 then
      if |w| == |c| then w
      else if |w| > |c| then w
      else w + RC(To(c, |c| - |w|))
    else if ovhg > 0 then
      if ovhg + |w| > |c| then RC(From(c, -ovhg)) + w
      else RC(From(c, -ovhg)) + w + RC(To(c, |c| - ovhg - |w|))
    else
      if -ovhg + |c| > |w| then w + RC(To(c, -ovhg + |c| - |w|))
      else w
  }

  /** `Dseq(watson, crick, ovhg=ovhg)`: the strands are placed as given. Its
      full sequence is the one `quick` computes. */
  function FromStrands(w: seq<char>, c: seq<char>, ovhg: int, circular: bool, pos: int): (r: Dseq)
    ensures r.data == FullSequence(w, c, ovhg)
    ensures r.watson == w && r.crick == c && r.ovhg == ovhg && r.circular == circular
  {
    var data := ExplicitData(w, c, ovhg);
    assert data == FullSequence(w, c, ovhg) by {
      assert RC([]) == [];
      if ovhg <= 0 {
        assert From(c, |c|) == [];
      }
    }
    Dseq(w, c, ovhg, circular, pos, data, |data|)
  }

  /** A position of the padded layout used when annealing and slicing: a
      blank (Python's space padding) or a nucleotide. */
  datatype Slot = Blank | Base(nt: char)

  function Blanks(n: int): seq<Slot> {
    seq(Max(0, n), _ => Blank)
  }

  function Bases(s: seq<char>): seq<Slot> {
    seq(|s|, i requires 0 <= i < |s| => Base(s[i]))
  }

  /** Python `"".join(a.strip() or b.strip() for a, b in zip_longest(x, y, fillvalue=" "))`. */
  function Merge(x: seq<Slot>, y: seq<Slot>): seq<char>
    decreases |x| + |y|
  {
    if x == [] && y == [] then []
    else
      var a := if x == [] then Blank else x[0];
      var b := if y == [] then Blank else y[0];
      var here := if a.Base? then [a.nt] else if b.Base? then [b.nt] else [];
      here + Merge(if x == [] then [] else x[1..], if y == [] then [] else y[1..])
  }

  /** `Dseq(watson, crick, ovhg=None, ...)`, `Dseq(watson)` and the error of
      an ovhg given without crick. When crick is given without ovhg the
      stagger comes from an annealing search outside this model: `annealed`
      is its outcome, None when it found no alignment or more than one. */
  function Init(watson: seq<char>, crick: Option<seq<char>>, ovhg: Option<int>,
                annealed: Option<int>, circular: bool, pos: int): (r: Result<Dseq>)
    ensures r.Err? <==> (crick.None? && ovhg.Some?) || (crick.Some? && ovhg.None? && annealed.None?)
    ensures r.Err? && crick.None? ==> r.error == OvhgWithoutCrick
    ensures r.Ok? ==> r.value.watson == watson && r.value.circular == circular && r.value.pos == pos
    ensures r.Ok? && crick.None? ==> r.value.crick == RC(watson) && r.value.ovhg == 0
    ensures r.Ok? && crick.Some? ==> r.value.crick == crick.value
    ensures r.Ok? && ovhg.Some? ==> r.value.ovhg == ovhg.value
    ensures r.Ok? && ovhg.None? && crick.Some? ==> r.value.ovhg == annealed.value
    ensures r.Ok? && (crick.None? || ovhg.Some?) ==>
              r.value.data == FullSequence(r.value.watson, r.value.crick, r.value.ovhg)
    ensures r.Ok? ==> r.value.length == Len(r.value)
  {
    match crick
    case None =>
      if ovhg.None? then Ok(SingleStrand(watson, circular, pos)) else Err(OvhgWithoutCrick)
    case Some(c) =>
      match ovhg
      case Some(o) => Ok(FromStrands(watson, c, o, circular, pos))
      case None =>
        match annealed
        case None => Err(CannotAnneal)
        case Some(o) =>
          var data := Merge(Blanks(o) + Bases(watson), Blanks(-o) + Bases(RC(c)));
          Ok(Dseq(watson, c, o, circular, pos, data, |data|))
  }

  /** `Dseq.from_string`: a blunt molecule built from one strand. */
  function FromString(dna: seq<char>, circular: bool): (r: Dseq)
    ensures r == SingleStrand(dna, circular, 0)
    ensures r == Quick(dna, RC(dna), 0, circular, 0)
  {
    Dseq(dna, RC(dna), 0, circular, 0, dna, |dna|)
  }

  /** Python's `str.isspace` on ASCII characters. */
  predicate IsSpace(c: char) {
    c == ' ' || 9 <= c as int <= 13 || 28 <= c as int <= 31
  }

  /** Number of leading whitespace characters, `len(s) - len(s.lstrip())`. */
  function Leading(s: seq<char>): (n: nat)
    ensures n <= |s|
  {
    if |s| == 0 || !IsSpace(s[0]) then 0 else 1 + Leading(s[1..])
  }

  function Trailing(s: seq<char>): (n: nat)
    ensures n <= |s|
  {
    if |s| == 0 || !IsSpace(s[|s| - 1]) then 0 else 1 + Trailing(s[..|s| - 1])
  }

  /** `s.strip()` */
  function Strip(s: seq<char>): seq<char> {
    var t := s[Leading(s)..];
    t[..|t| - Trailing(t)]
  }

  /** `n * " "` */
  function Spaces(n: int): seq<char> {
    seq(Max(0, n), _ => ' ')
  }

  function NonEmptyLines(lines: seq<seq<char>>): seq<seq<char>> {
    if lines == [] then []
    else (if lines[0] == [] then [] else [lines[0]]) + NonEmptyLines(lines[1..])
  }

  /** The two strand lines of the short text picture of a molecule: watson
      indented by ovhg, crick reversed and indented by -ovhg. */
  function Picture(d: Dseq): seq<seq<char>> {
    [Spaces(d.ovhg) + d.watson, Spaces(-d.ovhg) + Reverse(d.crick)]
  }

  /** `Dseq.from_representation`, on the text already split into lines: the
      first two non-empty lines are watson and (reversed) crick, and ovhg is
      the difference of their indentations. */
  function FromRepresentation(lines: seq<seq<char>>): (r: Result<Dseq>)
    ensures r.Err? <==> |NonEmptyLines(lines)| < 2
    ensures r.Ok? ==> !r.value.circular && r.value.pos == 0
    ensures r.Ok? ==> r.value.ovhg == Leading(NonEmptyLines(lines)[0]) - Leading(NonEmptyLines(lines)[1])
  {
    var ls := NonEmptyLines(lines);
    if |ls| < 2 then Err(TooFewLines)
    else
      var w, c := ls[0], ls[1];
      var ovhg := Leading(w) - Leading(c);
      Ok(Quick(Strip(w), Reverse(Strip(c)), ovhg, false, 0))
  }

  /** `Dseq.from_full_sequence_and_overhangs`: watson is the full sequence
      and crick its reverse complement, each trimmed at the ends by the two
      3' overhangs. */
  function FromFullSequenceAndOverhangs(full: seq<char>, crickOvhg: int, watsonOvhg: int): Dseq {
    var fullRev := ReverseComplement(SingleStrand(full, false, 0)).data;
    // trim the left end
    var w1 := if crickOvhg > 0 then From(full, crickOvhg) else full;
    var c1 := if crickOvhg < 0 then To(fullRev, crickOvhg) else fullRev;
    // trim the right end
    var w2 := if watsonOvhg < 0 then To(w1, watsonOvhg) else w1;
    var c2 := if watsonOvhg > 0 then From(c1, watsonOvhg) else c1;
    FromStrands(w2, c2, crickOvhg, false, 0)
  }

  /** The same molecule seen from the other strand. */
  function ReverseComplement(d: Dseq): Dseq {
    Quick(d.crick, d.watson, |d.watson| - |d.crick| + d.ovhg, d.circular, 0)
  }

  function UpperCase(d: Dseq): Dseq {
    Quick(Upper(d.watson), Upper(d.crick), d.ovhg, d.circular, d.pos)
  }

  function LowerCase(d: Dseq): Dseq {
    Quick(Lower(d.watson), Lower(d.crick), d.ovhg, d.circular, d.pos)
  }

  /** `__eq__`: same strands ignoring case, same stagger and topology. */
  predicate Eq(a: Dseq, b: Dseq) {
    Lower(b.watson) == Lower(a.watson) && Lower(b.crick) == Lower(a.crick)
    && b.ovhg == a.ovhg && a.circular == b.circular
  }
}

/** What the constructors promise about the values they build. */
module StrandsFacts {
  import opened Nucleotides
  import opened PySlice
  import opened Results
  import opened Strands

  /** The strands touch or overlap: no stretch of the layout is covered by neither. */
  predicate NoGap(lw: nat, lc: nat, ovhg: int) {
    -(lw as int) <= ovhg <= lc
  }

  /** Without a gap, the crick flanks of the full sequence are plain stretches of crick. */
  lemma FullSequenceFlanks(w: seq<char>, c: seq<char>, ovhg: int)
    requires NoGap(|w|, |c|, ovhg)
    ensures Max(0, |c| - ovhg - |w|) <= |c|
    ensures FullSequence(w, c, ovhg)
         == RC(c[|c| - Max(0, ovhg)..]) + w + RC(c[..Max(0, |c| - ovhg - |w|)])
  {
    var m := Max(0, |c| - ovhg - |w|);
    assert To(c, m) == c[..m];
    if ovhg <= 0 {
      assert From(c, |c|) == c[|c|..];
    } else {
      assert From(c, -ovhg) == c[|c| - ovhg..];
    }
  }

  /** The full sequence `quick` builds is exactly as long as the span formula
      says if and only if the strands leave no gap between them. */
  lemma FullSequenceLength(w: seq<char>, c: seq<char>, ovhg: int)
    ensures |FullSequence(w, c, ovhg)| == Span(|w|, |c|, ovhg) <==> NoGap(|w|, |c|, ovhg)
  {
    var left := From(c, if ovhg > 0 then -ovhg else |c|);
    var right := To(c, Max(0, |c| - ovhg - |w|));
    assert |FullSequence(w, c, ovhg)| == |left| + |w| + |right|;
    if ovhg > 0 {
      assert |left| == Min(ovhg, |c|);
    } else {
      assert |left| == 0;
    }
    assert |right| == Min(Max(0, |c| - ovhg - |w|), |c|);
  }

  /** Each position of the full sequence reads watson where watson covers it,
      and otherwise the complement of the crick base opposite. */
  lemma FullSequenceReadsStrands(w: seq<char>, c: seq<char>, ovhg: int, p: nat)
    requires NoGap(|w|, |c|, ovhg)
    requires p < Span(|w|, |c|, ovhg)
    ensures |FullSequence(w, c, ovhg)| == Span(|w|, |c|, ovhg)
    ensures Max(0, ovhg) <= p < Max(0, ovhg) + |w| ==> FullSequence(w, c, ovhg)[p] == w[p - Max(0, ovhg)]
    ensures !(Max(0, ovhg) <= p < Max(0, ovhg) + |w|) ==>
              0 <= p - Max(0, -ovhg) < |c|
              && FullSequence(w, c, ovhg)[p] == Complement(c[|c| - 1 - (p - Max(0, -ovhg))])
  {
    FullSequenceLength(w, c, ovhg);
    var left := From(c, if ovhg > 0 then -ovhg else |c|);
    var m := Max(0, |c| - ovhg - |w|);
    var right := To(c, m);
    var fs := FullSequence(w, c, ovhg);
    assert fs == RC(left) + w + RC(right);
    if ovhg > 0 {
      assert left == c[|c| - ovhg..];
    } else {
      assert left == [];
    }
    assert right == c[..m];
    if p < |left| {
      assert fs[p] == RC(left)[p];
    } else if p >= |left| + |w| {
      assert fs[p] == RC(right)[p - |left| - |w|];
    }
  }

  lemma LeadingSpaces(n: int, s: seq<char>)
    requires s != [] && !IsSpace(s[0])
    ensures Leading(Spaces(n) + s) == Max(0, n)
  {
    if n > 0 {
      assert (Spaces(n) + s)[1..] == Spaces(n - 1) + s;
      LeadingSpaces(n - 1, s);
    } else {
      assert Spaces(n) + s == s;
    }
  }

  lemma StripSpaces(n: int, s: seq<char>)
    requires s != [] && !IsSpace(s[0]) && !IsSpace(s[|s| - 1])
    ensures Strip(Spaces(n) + s) == s
  {
    LeadingSpaces(n, s);
    assert (Spaces(n) + s)[Max(0, n)..] == s;
  }

  /** On two non-empty lines, `from_representation` reads the first as watson
      and the second as reversed crick. */
  lemma FromRepresentationOfPair(top: seq<char>, bottom: seq<char>)
    requires top != [] && bottom != []
    ensures var r := FromRepresentation([top, bottom]);
      && r.Ok? && r.value.watson == Strip(top) && r.value.crick == Reverse(Strip(bottom))
      && r.value.ovhg == Leading(top) - Leading(bottom)
      && r.value.data == FullSequence(r.value.watson, r.value.crick, r.value.ovhg)
  {
    assert [top, bottom][1..] == [bottom];
    assert [bottom][1..] == [];
    assert NonEmptyLines([bottom]) == [bottom] + NonEmptyLines([]);
    assert NonEmptyLines([top, bottom]) == [top] + NonEmptyLines([bottom]);
  }

  /** A line indented by `n` spaces strips back to its text and counts `n`
      leading spaces. */
  lemma IndentedLine(n: int, s: seq<char>)
    requires s != [] && !IsSpace(s[0]) && !IsSpace(s[|s| - 1])
    ensures Strip(Spaces(n) + s) == s && Leading(Spaces(n) + s) == Max(0, n)
  {
    LeadingSpaces(n, s);
    StripSpaces(n, s);
  }

  /** `from_representation` reads back the strands and stagger of the picture
      of a molecule whose strands are non-empty and neither begin nor end with
      whitespace. */
  lemma RepresentationRoundTrip(d: Dseq)
    requires d.watson != [] && d.crick != []
    requires !IsSpace(d.watson[0]) && !IsSpace(d.watson[|d.watson| - 1])
    requires !IsSpace(d.crick[0]) && !IsSpace(d.crick[|d.crick| - 1])
    ensures var r := FromRepresentation(Picture(d));
      && r.Ok? && r.value.watson == d.watson && r.value.crick == d.crick && r.value.ovhg == d.ovhg
      && r.value.data == FullSequence(d.watson, d.crick, d.ovhg)
  {
    var rc := Reverse(d.crick);
    assert rc[0] == d.crick[|d.crick| - 1] && rc[|rc| - 1] == d.crick[0];
    ReverseInvolutive(d.crick);
    IndentedLines(Picture(d), d.watson, rc, d.ovhg);
  }

  /** The two lines of a picture, read back by `from_representation`. */
  lemma IndentedLines(lines: seq<seq<char>>, w: seq<char>, rc: seq<char>, o: int)
    requires w != [] && !IsSpace(w[0]) && !IsSpace(w[|w| - 1])
    requires rc != [] && !IsSpace(rc[0]) && !IsSpace(rc[|rc| - 1])
    requires lines == [Spaces(o) + w, Spaces(-o) + rc]
    ensures var r := FromRepresentation(lines);
      r.Ok? && r.value.watson == w && r.value.crick == Reverse(rc) && r.value.ovhg == o
      && r.value.data == FullSequence(w, Reverse(rc), o)
  {
    IndentedLine(o, w);
    IndentedLine(-o, rc);
    FromRepresentationOfPair(Spaces(o) + w, Spaces(-o) + rc);
  }

  /** `Dseq(s).reverse_complement()` reads as the reverse complement of `s`. */
  lemma ReverseComplementOfSingleStrand(s: seq<char>)
    ensures ReverseComplement(SingleStrand(s, false, 0)).data == RC(s)
  {
    RCInvolutive(s);
    assert To(s, 0) == [];
    assert From(s, |s|) == [];
  }

  /** Dropping `lo` elements at the front (when positive) and then `-hi` at
      the back (when negative), as watson is trimmed. */
  lemma TrimFrontThenBack<T>(s: seq<T>, lo: int, hi: int)
    requires Max(0, lo) + Max(0, -hi) <= |s|
    ensures var s1 := if lo > 0 then From(s, lo) else s;
      (if hi < 0 then To(s1, hi) else s1) == s[Max(0, lo)..|s| - Max(0, -hi)]
  {
  }

  /** Dropping `-hi` elements at the back (when negative) and then `lo` at the
      front (when positive), as crick is trimmed. */
  lemma TrimBackThenFront<T>(s: seq<T>, lo: int, hi: int)
    requires Max(0, lo) + Max(0, -hi) <= |s|
    ensures var s1 := if hi < 0 then To(s, hi) else s;
      (if lo > 0 then From(s1, lo) else s1) == s[Max(0, lo)..|s| - Max(0, -hi)]
  {
  }

  /** The strands `from_full_sequence_and_overhangs` passes on: stretches of
      the full sequence and of its reverse complement. */
  lemma TrimmedStrands(full: seq<char>, crickOvhg: int, watsonOvhg: int)
    requires Max(crickOvhg, -crickOvhg) + Max(watsonOvhg, -watsonOvhg) <= |full|
    ensures var r := FromFullSequenceAndOverhangs(full, crickOvhg, watsonOvhg);
      && r.watson == full[Max(0, crickOvhg)..|full| - Max(0, -watsonOvhg)]
      && r.crick == RC(full)[Max(0, watsonOvhg)..|full| - Max(0, -crickOvhg)]
      && r.ovhg == crickOvhg && !r.circular
      && r.data == FullSequence(r.watson, r.crick, r.ovhg)
  {
    ReverseComplementOfSingleStrand(full);
    TrimFrontThenBack(full, crickOvhg, watsonOvhg);
    TrimBackThenFront(RC(full), watsonOvhg, crickOvhg);
  }

  /** `from_full_sequence_and_overhangs` keeps the full sequence and gives the
      requested 3' overhangs on the left (crick) and right (watson) ends, as
      long as both overhangs fit in the sequence. */
  lemma FullSequenceAndOverhangs(full: seq<char>, crickOvhg: int, watsonOvhg: int)
    requires Max(crickOvhg, -crickOvhg) + Max(watsonOvhg, -watsonOvhg) <= |full|
    ensures var r := FromFullSequenceAndOverhangs(full, crickOvhg, watsonOvhg);
      && r.ovhg == crickOvhg
      && |r.watson| - |r.crick| + r.ovhg == watsonOvhg
      && r.data == full
      && !r.circular
  {
    TrimmedStrands(full, crickOvhg, watsonOvhg);
    var r := FromFullSequenceAndOverhangs(full, crickOvhg, watsonOvhg);
    TrimmedStrandsRebuildFull(full, crickOvhg, watsonOvhg, r.watson, r.crick);
  }

  /** Laying the trimmed stretches of `full` and of its reverse complement
      with stagger `crickOvhg` reads `full` again. */
  lemma TrimmedStrandsRebuildFull(full: seq<char>, crickOvhg: int, watsonOvhg: int, w: seq<char>, c: seq<char>)
    requires Max(crickOvhg, -crickOvhg) + Max(watsonOvhg, -watsonOvhg) <= |full|
    requires w == full[Max(0, crickOvhg)..|full| - Max(0, -watsonOvhg)]
    requires c == RC(full)[Max(0, watsonOvhg)..|full| - Max(0, -crickOvhg)]
    ensures FullSequence(w, c, crickOvhg) == full
  {
    var n := |full|;
    var a, b, m := Max(0, crickOvhg), n - Max(0, -watsonOvhg), Max(0, -watsonOvhg);
    assert |c| - a == n - Max(0, watsonOvhg) - Max(0, -crickOvhg) - a;
    assert Max(0, |c| - crickOvhg - |w|) == m;
    TrimmedFlanks(full, crickOvhg, watsonOvhg);
    FlanksRebuild(full, w, c, crickOvhg, a, b, m);
  }

  /** Strands whose crick flanks are the two ends of `full` that watson
      lacks lay out as `full`. */
  lemma FlanksRebuild(full: seq<char>, w: seq<char>, c: seq<char>, ovhg: int, a: nat, b: nat, m: nat)
    requires NoGap(|w|, |c|, ovhg) && a == Max(0, ovhg) && m == Max(0, |c| - ovhg - |w|)
    requires a <= b <= |full| && w == full[a..b] && a <= |c| && m <= |c|
    requires RC(c[|c| - a..]) == full[..a] && RC(c[..m]) == full[b..]
    ensures FullSequence(w, c, ovhg) == full
  {
    FullSequenceFlanks(w, c, ovhg);
    SplitInThree(full, a, b);
  }

  /** The crick flanks of the trimmed strands are the ends of `full` that
      watson lacks. */
  lemma TrimmedFlanks(full: seq<char>, crickOvhg: int, watsonOvhg: int)
    requires Max(crickOvhg, -crickOvhg) + Max(watsonOvhg, -watsonOvhg) <= |full|
    ensures var n := |full|;
      var c := RC(full)[Max(0, watsonOvhg)..n - Max(0, -crickOvhg)];
      && RC(c[|c| - Max(0, crickOvhg)..]) == full[..Max(0, crickOvhg)]
      && RC(c[..Max(0, -watsonOvhg)]) == full[n - Max(0, -watsonOvhg)..]
  {
    var n := |full|;
    var a, m := Max(0, crickOvhg), Max(0, -watsonOvhg);
    var i, j := Max(0, watsonOvhg), n - Max(0, -crickOvhg);
    SliceOfSlice(RC(full), i, j, a, m);
    RCOfRCSlice(full, j - a, j);
    RCOfRCSlice(full, i, i + m);
    if crickOvhg <= 0 {
      assert full[n - j..n - j + a] == full[..a] == [];
    }
    if watsonOvhg > 0 {
      assert full[n - i - m..n - i] == full[n - m..] == [];
    }
  }

  /** The first `m` and the last `a` elements of `s[i..j]`. */
  lemma SliceOfSlice<T>(s: seq<T>, i: nat, j: nat, a: nat, m: nat)
    requires i <= j <= |s| && a <= j - i && m <= j - i
    ensures var c := s[i..j];
      c[|c| - a..] == s[j - a..j] && c[..m] == s[i..i + m]
  {
  }

  lemma RCOfRCSlice(s: seq<char>, i: nat, j: nat)
    requires i <= j <= |s|
    ensures RC(RC(s)[i..j]) == s[|s| - j..|s| - i]
  {
    RCSlice(RC(s), i, j);
    RCInvolutive(s);
  }

  lemma SplitInThree<T>(s: seq<T>, a: nat, b: nat)
    requires a <= b <= |s|
    ensures s == s[..a] + s[a..b] + s[b..]
  {
  }

  /** Reverse complementing twice gives back the strands, stagger and topology. */
  lemma ReverseComplementInvolutive(d: Dseq)
    ensures var r := ReverseComplement(ReverseComplement(d));
      r.watson == d.watson && r.crick == d.crick && r.ovhg == d.ovhg && r.circular == d.circular
  {
  }

  /** Changing the case gives a molecule equal to the original. */
  lemma CaseChangeIsEqual(d: Dseq)
    ensures Eq(d, UpperCase(d)) && Eq(d, LowerCase(d))
    ensures Eq(UpperCase(d), LowerCase(d))
  {
    LowerIdempotent(d.watson);
    LowerIdempotent(d.crick);
  }
}
