/** What the linear branch of `__getitem__` promises for any stagger: the
    slice `d[i:j]` is columns `i..j` of the two-row layout of `d`. */
module LinearSliceFacts {
  import opened Nucleotides
  import opened PySlice
  import opened Results
  import opened Strands
  import opened StrandsFacts
  import opened Slicing
  import opened SlicingFacts

  /** `x` held inside `[0, n]`. */
  function Clip(x: int, n: nat): (k: nat)
    ensures k <= n
  {
    if x < 0 then 0 else if x > n then n else x
  }

  /** A row of blanks has all of its width as indentation and strips to nothing. */
  lemma {:induction false} AllBlank(n: nat)
    ensures Leading(Spaces(n)) == n && Strip(Spaces(n)) == []
  {
    if n > 0 {
      assert Spaces(n)[1..] == Spaces(n - 1);
      AllBlank(n - 1);
    }
  }

  /** Columns `i..j` of a padded row: blanks, the part of the strand in
      those columns, blanks. */
  lemma RowSlice(row: seq<char>, p: int, s: seq<char>, q: int, i: nat, j: nat, si: nat, sj: nat)
    requires row == Spaces(p) + s + Spaces(q)
    requires i <= j <= |row| && si == Clip(i - Max(0, p), |s|) && sj == Clip(j - Max(0, p), |s|)
    ensures si <= sj
    ensures si < sj ==> row[i..j] == Spaces(Max(p, i) - i) + s[si..sj] + Spaces(j - Max(p, i) - (sj - si))
    ensures si == sj ==> row[i..j] == Spaces(j - i)
  {
    var a := Max(0, p);
    forall m | 0 <= m < |row|
      ensures row[m] == if a <= m < a + |s| then s[m - a] else ' '
    {
    }
    if si < sj {
      var rhs := Spaces(Max(p, i) - i) + s[si..sj] + Spaces(j - Max(p, i) - (sj - si));
      forall k | 0 <= k < j - i ensures row[i..j][k] == rhs[k] {
      }
    } else {
      forall k | 0 <= k < j - i ensures row[i..j][k] == Spaces(j - i)[k] {
      }
    }
  }

  /** A strand padded with blanks strips back to itself, read either way. */
  lemma PaddedBothWays(lead: int, t: seq<char>, trail: int)
    requires t != [] && NoSpace(t)
    ensures Leading(Spaces(lead) + t + Spaces(trail)) == Max(0, lead)
    ensures Strip(Spaces(lead) + t + Spaces(trail)) == t
    ensures Strip(Reverse(Spaces(lead) + t + Spaces(trail))) == Reverse(t)
  {
    PaddedLine(lead, t, trail);
    var front, back, rt := Spaces(lead), Spaces(trail), Reverse(t);
    calc {
      Reverse(front + t + back);
      { ReverseAppend(front + t, back); }
      Reverse(back) + Reverse(front + t);
      { ReverseAppend(front, t); }
      Reverse(back) + (rt + Reverse(front));
      { ReverseSpaces(lead); ReverseSpaces(trail); }
      back + rt + front;
    }
    assert rt[0] == t[|t| - 1] && rt[|rt| - 1] == t[0];
    PaddedLine(trail, rt, lead);
  }

  /** Columns `i..j` of a padded row strip to the part of the strand in
      them, read either way, and are indented up to where that part starts
      (all of the width when there is none). */
  lemma RowSliceStrip(row: seq<char>, p: int, s: seq<char>, q: int, i: nat, j: nat, si: nat, sj: nat)
    requires row == Spaces(p) + s + Spaces(q) && NoSpace(s)
    requires i <= j <= |row| && si == Clip(i - Max(0, p), |s|) && sj == Clip(j - Max(0, p), |s|)
    ensures si <= sj
    ensures Strip(row[i..j]) == s[si..sj]
    ensures Strip(Reverse(row[i..j])) == Reverse(s[si..sj])
    ensures Leading(row[i..j]) == if si < sj then Max(p, i) - i else j - i
  {
    RowSlice(row, p, s, q, i, j, si, sj);
    var cols := row[i..j];
    if si < sj {
      var lead, t, trail := Max(p, i) - i, s[si..sj], j - Max(p, i) - (sj - si);
      assert NoSpace(t);
      assert cols == Spaces(lead) + t + Spaces(trail);
      PaddedBothWays(lead, t, trail);
    } else {
      assert cols == Spaces(j - i);
      AllBlank(j - i);
      ReverseSpaces(j - i);
    }
  }

  /** The width of both rows is the span of the molecule. */
  lemma RowLengths(d: Dseq)
    ensures |TopRow(d)| == |BottomRow(d)| == Span(|d.watson|, |d.crick|, d.ovhg)
  {
  }

  /** Without a gap the two strands together cover every column. `top` and
      `bottom` are how far the rows of columns `i..j` are indented: columns
      that miss one strand lie wholly on the other, at most one row is
      indented, the wider row spans exactly `j - i` columns, and the pieces
      laid out with stagger `top - bottom` leave no gap. */
  lemma Cover(lw: nat, lc: nat, o: int, i: nat, j: nat, wi: nat, wj: nat, ci: nat, cj: nat, top: int, bottom: int)
    requires NoGap(lw, lc, o) && i <= j <= Span(lw, lc, o)
    requires wi == Clip(i - Max(0, o), lw) && wj == Clip(j - Max(0, o), lw)
    requires ci == Clip(i - Max(0, -o), lc) && cj == Clip(j - Max(0, -o), lc)
    requires top == if wi < wj then Max(o, i) - i else j - i
    requires bottom == if ci < cj then Max(-o, i) - i else j - i
    ensures wi == wj ==> cj - ci == j - i
    ensures ci == cj ==> wj - wi == j - i
    ensures top == 0 || bottom == 0
    ensures Max(wj - wi + top, cj - ci + bottom) == j - i
    ensures NoGap(wj - wi, cj - ci, top - bottom)
    ensures Max(0, top - bottom) == top && Max(0, -(top - bottom)) == bottom
    ensures Span(wj - wi, cj - ci, top - bottom) == j - i
  {
  }

  /** The linear branch of `d[i:j]` with bounds inside the molecule reads
      columns `i..j` of both rows. */
  lemma LinearSliceRows(d: Dseq, i: nat, j: nat, r: Dseq)
    requires !d.circular && i <= j <= Span(|d.watson|, |d.crick|, d.ovhg)
    requires r == GetItem(d, Some(i), Some(j))
    ensures j <= |TopRow(d)| && j <= |BottomRow(d)|
    ensures r.watson == Strip(TopRow(d)[i..j]) && r.crick == Strip(Reverse(BottomRow(d)[i..j]))
    ensures var top, bottom := Leading(TopRow(d)[i..j]), Leading(BottomRow(d)[i..j]);
      r.ovhg == if top >= bottom then top as int else -(bottom as int)
  {
    RowLengths(d);
    SliceIn(TopRow(d), i, j);
    SliceIn(BottomRow(d), i, j);
    LinearSliceFields(d, Some(i), Some(j));
  }

  /** Columns `i..j` of the watson row: the watson bases there, indented
      up to the first of them. */
  lemma TopRowColumns(d: Dseq, i: nat, j: nat, wi: nat, wj: nat)
    requires NoSpace(d.watson) && i <= j <= |TopRow(d)|
    requires wi == Clip(i - Max(0, d.ovhg), |d.watson|) && wj == Clip(j - Max(0, d.ovhg), |d.watson|)
    ensures wi <= wj && Strip(TopRow(d)[i..j]) == d.watson[wi..wj]
    ensures Leading(TopRow(d)[i..j]) == if wi < wj then Max(d.ovhg, i) - i else j - i
  {
    var w, c, o := d.watson, d.crick, d.ovhg;
    RowSliceStrip(TopRow(d), o, w, |c| - o - |w|, i, j, wi, wj);
  }

  lemma NoSpaceReverse(c: seq<char>)
    requires NoSpace(c)
    ensures NoSpace(Reverse(c))
  {
    NoSpaceReversedSlice(c, 0, |c|);
    assert Reverse(c)[0..|c|] == Reverse(c);
  }

  /** Columns `i..j` of the crick row: read 5' to 3', the crick bases
      there, indented up to the first of them. */
  lemma BottomRowColumns(d: Dseq, i: nat, j: nat, ci: nat, cj: nat)
    requires NoSpace(d.crick) && i <= j <= |BottomRow(d)|
    requires ci == Clip(i - Max(0, -d.ovhg), |d.crick|) && cj == Clip(j - Max(0, -d.ovhg), |d.crick|)
    ensures ci <= cj <= |d.crick|
    ensures Strip(Reverse(BottomRow(d)[i..j])) == d.crick[|d.crick| - cj..|d.crick| - ci]
    ensures Leading(BottomRow(d)[i..j]) == if ci < cj then Max(-d.ovhg, i) - i else j - i
  {
    var w, c, o := d.watson, d.crick, d.ovhg;
    NoSpaceReverse(c);
    ReversedRowSlice(BottomRow(d), -o, c, -(|c| - o - |w|), i, j, ci, cj);
  }

  /** `RowSliceStrip` for a row holding a strand read backwards. */
  lemma ReversedRowSlice(row: seq<char>, p: int, c: seq<char>, q: int, i: nat, j: nat, ci: nat, cj: nat)
    requires row == Spaces(p) + Reverse(c) + Spaces(q) && NoSpace(Reverse(c))
    requires i <= j <= |row| && ci == Clip(i - Max(0, p), |c|) && cj == Clip(j - Max(0, p), |c|)
    ensures ci <= cj <= |c|
    ensures Strip(Reverse(row[i..j])) == c[|c| - cj..|c| - ci]
    ensures Leading(row[i..j]) == if ci < cj then Max(p, i) - i else j - i
  {
    RowSliceStrip(row, p, Reverse(c), q, i, j, ci, cj);
    ReversedSlice(c, ci, cj);
  }

  /** Column `k` of columns `i..j` is column `i + k` of the layout: the
      watson piece covers it exactly when watson covers `i + k`, likewise
      for crick, and the bases there are the same ones. */
  lemma ColumnArith(lw: nat, lc: nat, o: int, i: nat, j: nat, wi: nat, wj: nat, ci: nat, cj: nat, top: int, bottom: int, k: nat)
    requires NoGap(lw, lc, o) && i <= j <= Span(lw, lc, o) && k < j - i
    requires wi == Clip(i - Max(0, o), lw) && wj == Clip(j - Max(0, o), lw)
    requires ci == Clip(i - Max(0, -o), lc) && cj == Clip(j - Max(0, -o), lc)
    requires top == if wi < wj then Max(o, i) - i else j - i
    requires bottom == if ci < cj then Max(-o, i) - i else j - i
    ensures (top <= k < top + (wj - wi)) <==> (Max(0, o) <= i + k < Max(0, o) + lw)
    ensures top <= k < top + (wj - wi) ==> wi + (k - top) == i + k - Max(0, o)
    ensures (bottom <= k < bottom + (cj - ci)) <==> (Max(0, -o) <= i + k < Max(0, -o) + lc)
    ensures bottom <= k < bottom + (cj - ci) ==> ci + (k - bottom) == i + k - Max(0, -o)
    ensures !(top <= k < top + (wj - wi)) ==> bottom <= k < bottom + (cj - ci)
    ensures bottom <= k < bottom + (cj - ci) ==>
              lc - cj + ((cj - ci) - 1 - (k - bottom)) == lc - 1 - (i + k - Max(0, -o))
  {
  }

  /** Column `k` of the layout of `sw`, `sc` with stagger `so` holds the
      same kind of base as column `i + k` of the layout of `w`, `c` with
      stagger `o`: a watson base in both or in neither, the same watson
      base, and the same crick base where both have one. */
  predicate ColumnsAgree(sw: seq<char>, sc: seq<char>, so: int, w: seq<char>, c: seq<char>, o: int, i: nat, k: nat) {
    && ((Max(0, so) <= k < Max(0, so) + |sw|) <==> (Max(0, o) <= i + k < Max(0, o) + |w|))
    && (Max(0, so) <= k < Max(0, so) + |sw| && Max(0, o) <= i + k < Max(0, o) + |w| ==>
          sw[k - Max(0, so)] == w[i + k - Max(0, o)])
    && (0 <= k - Max(0, -so) < |sc| && 0 <= i + k - Max(0, -o) < |c| ==>
          sc[|sc| - 1 - (k - Max(0, -so))] == c[|c| - 1 - (i + k - Max(0, -o))])
  }

  /** Layouts that agree on a column read the same base there. */
  lemma SameColumn(sw: seq<char>, sc: seq<char>, so: int, w: seq<char>, c: seq<char>, o: int, i: nat, k: nat)
    requires NoGap(|sw|, |sc|, so) && k < Span(|sw|, |sc|, so)
    requires NoGap(|w|, |c|, o) && i + k < Span(|w|, |c|, o)
    requires ColumnsAgree(sw, sc, so, w, c, o, i, k)
    ensures k < |FullSequence(sw, sc, so)| && i + k < |FullSequence(w, c, o)|
    ensures FullSequence(sw, sc, so)[k] == FullSequence(w, c, o)[i + k]
  {
    FullSequenceReadsStrands(sw, sc, so, k);
    FullSequenceReadsStrands(w, c, o, i + k);
  }

  /** Column `k` of the slice holds what column `i + k` of `d` holds: the
      strands `sw`, `sc` of the slice are the pieces `wi..wj` of watson and
      `|c| - cj..|c| - ci` of crick, laid out with stagger `top - bottom`. */
  lemma SliceColumn(w: seq<char>, c: seq<char>, o: int, i: nat, j: nat, wi: nat, wj: nat, ci: nat, cj: nat,
                    top: int, bottom: int, sw: seq<char>, sc: seq<char>, so: int, k: nat)
    requires NoGap(|w|, |c|, o) && i <= j <= Span(|w|, |c|, o) && k < j - i
    requires wi == Clip(i - Max(0, o), |w|) && wj == Clip(j - Max(0, o), |w|)
    requires ci == Clip(i - Max(0, -o), |c|) && cj == Clip(j - Max(0, -o), |c|)
    requires top == if wi < wj then Max(o, i) - i else j - i
    requires bottom == if ci < cj then Max(-o, i) - i else j - i
    requires wi <= wj && ci <= cj && sw == w[wi..wj] && sc == c[|c| - cj..|c| - ci] && so == top - bottom
    ensures ColumnsAgree(sw, sc, so, w, c, o, i, k)
  {
    Cover(|w|, |c|, o, i, j, wi, wj, ci, cj, top, bottom);
    ColumnArith(|w|, |c|, o, i, j, wi, wj, ci, cj, top, bottom, k);
    if top <= k < top + (wj - wi) {
      assert sw[k - top] == w[i + k - Max(0, o)];
    }
    if bottom <= k < bottom + (cj - ci) {
      var x := (cj - ci) - 1 - (k - bottom);
      assert sc[x] == c[|c| - 1 - (i + k - Max(0, -o))];
    }
  }

  /** Every column of the slice holds what the matching column of `d` holds. */
  lemma SliceColumns(w: seq<char>, c: seq<char>, o: int, i: nat, j: nat, wi: nat, wj: nat, ci: nat, cj: nat,
                     top: int, bottom: int, sw: seq<char>, sc: seq<char>, so: int)
    requires NoGap(|w|, |c|, o) && i <= j <= Span(|w|, |c|, o)
    requires wi == Clip(i - Max(0, o), |w|) && wj == Clip(j - Max(0, o), |w|)
    requires ci == Clip(i - Max(0, -o), |c|) && cj == Clip(j - Max(0, -o), |c|)
    requires top == if wi < wj then Max(o, i) - i else j - i
    requires bottom == if ci < cj then Max(-o, i) - i else j - i
    requires wi <= wj && ci <= cj && sw == w[wi..wj] && sc == c[|c| - cj..|c| - ci] && so == top - bottom
    ensures NoGap(|sw|, |sc|, so) && Span(|sw|, |sc|, so) == j - i
    ensures forall k :: 0 <= k < j - i ==> ColumnsAgree(sw, sc, so, w, c, o, i, k)
  {
    Cover(|w|, |c|, o, i, j, wi, wj, ci, cj, top, bottom);
    forall k | 0 <= k < j - i ensures ColumnsAgree(sw, sc, so, w, c, o, i, k) {
      SliceColumn(w, c, o, i, j, wi, wj, ci, cj, top, bottom, sw, sc, so, k);
    }
  }

  /** A sequence that agrees with `b` from `i` on, element by element, is `b[i..j]`. */
  lemma Pointwise<T>(a: seq<T>, b: seq<T>, i: nat, j: nat)
    requires i <= j <= |b| && |a| == j - i
    requires forall k :: 0 <= k < j - i ==> a[k] == b[i + k]
    ensures a == b[i..j]
  {
  }

  /** A layout that agrees column by column with columns `i..j` of another
      has their full sequence as its own. */
  lemma SliceData(sw: seq<char>, sc: seq<char>, so: int, w: seq<char>, c: seq<char>, o: int, i: nat, j: nat)
    requires NoGap(|w|, |c|, o) && i <= j <= Span(|w|, |c|, o)
    requires NoGap(|sw|, |sc|, so) && Span(|sw|, |sc|, so) == j - i
    requires forall k :: 0 <= k < j - i ==> ColumnsAgree(sw, sc, so, w, c, o, i, k)
    ensures j <= |FullSequence(w, c, o)|
    ensures FullSequence(sw, sc, so) == FullSequence(w, c, o)[i..j]
  {
    FullSequenceLength(w, c, o);
    FullSequenceLength(sw, sc, so);
    forall k | 0 <= k < j - i
      ensures FullSequence(sw, sc, so)[k] == FullSequence(w, c, o)[i + k]
    {
      SameColumn(sw, sc, so, w, c, o, i, k);
    }
    Pointwise(FullSequence(sw, sc, so), FullSequence(w, c, o), i, j);
  }

  /** How many watson bases of `d` lie left of column `i`. */
  function WatsonBefore(d: Dseq, i: int): (k: nat)
    ensures k <= |d.watson|
  {
    Clip(i - Max(0, d.ovhg), |d.watson|)
  }

  /** How many crick bases of `d` lie left of column `i`. */
  function CrickBefore(d: Dseq, i: int): (k: nat)
    ensures k <= |d.crick|
  {
    Clip(i - Max(0, -d.ovhg), |d.crick|)
  }

  /** How many blanks precede, in columns `i..j` of its row, a strand that
      begins at column `start` and has its bases `si..sj` there. */
  function Indent(si: int, sj: int, start: int, i: int, j: int): int {
    if si < sj then Max(start, i) - i else j - i
  }

  /** The watson strand of `d[i:j]` for a linear `d` is the watson bases in
      columns `i..j`, and `top` blanks precede them in the top row. */
  lemma SliceWatson(d: Dseq, i: nat, j: nat, r: Dseq, wi: nat, wj: nat, top: int)
    requires !d.circular && i <= j <= Span(|d.watson|, |d.crick|, d.ovhg) && NoSpace(d.watson)
    requires r == GetItem(d, Some(i), Some(j))
    requires wi == WatsonBefore(d, i) && wj == WatsonBefore(d, j)
    requires top == Indent(wi, wj, d.ovhg, i, j)
    ensures j <= |TopRow(d)| && wi <= wj
    ensures r.watson == d.watson[wi..wj] && Leading(TopRow(d)[i..j]) == top
  {
    LinearSliceRows(d, i, j, r);
    TopRowColumns(d, i, j, wi, wj);
  }

  /** The crick strand of `d[i:j]` for a linear `d` is the crick bases in
      columns `i..j`, and `bottom` blanks precede them in the bottom row. */
  lemma SliceCrick(d: Dseq, i: nat, j: nat, r: Dseq, ci: nat, cj: nat, bottom: int)
    requires !d.circular && i <= j <= Span(|d.watson|, |d.crick|, d.ovhg) && NoSpace(d.crick)
    requires r == GetItem(d, Some(i), Some(j))
    requires ci == CrickBefore(d, i) && cj == CrickBefore(d, j)
    requires bottom == Indent(ci, cj, -d.ovhg, i, j)
    ensures j <= |BottomRow(d)| && ci <= cj <= |d.crick|
    ensures r.crick == d.crick[|d.crick| - cj..|d.crick| - ci] && Leading(BottomRow(d)[i..j]) == bottom
  {
    LinearSliceRows(d, i, j, r);
    BottomRowColumns(d, i, j, ci, cj);
  }

  /** Columns `i..j` begin with a base on at least one of the two rows. */
  lemma IndentOnOneRow(d: Dseq, i: nat, j: nat, wi: nat, wj: nat, ci: nat, cj: nat, top: int, bottom: int)
    requires NoGap(|d.watson|, |d.crick|, d.ovhg) && i <= j <= Span(|d.watson|, |d.crick|, d.ovhg)
    requires wi == WatsonBefore(d, i) && wj == WatsonBefore(d, j)
    requires ci == CrickBefore(d, i) && cj == CrickBefore(d, j)
    requires top == Indent(wi, wj, d.ovhg, i, j) && bottom == Indent(ci, cj, -d.ovhg, i, j)
    ensures 0 <= top && 0 <= bottom && (top == 0 || bottom == 0)
  {
    Cover(|d.watson|, |d.crick|, d.ovhg, i, j, wi, wj, ci, cj, top, bottom);
  }

  /** The stagger of `d[i:j]` for a linear `d` is the difference of the
      indentations of its two rows, one of which is zero. */
  lemma SliceOvhg(d: Dseq, i: nat, j: nat, r: Dseq, top: int, bottom: int)
    requires !d.circular && i <= j <= Span(|d.watson|, |d.crick|, d.ovhg)
    requires r == GetItem(d, Some(i), Some(j))
    requires j <= |TopRow(d)| && Leading(TopRow(d)[i..j]) == top
    requires j <= |BottomRow(d)| && Leading(BottomRow(d)[i..j]) == bottom
    requires 0 <= top && 0 <= bottom && (top == 0 || bottom == 0)
    ensures r.ovhg == top - bottom
  {
    LinearSliceRows(d, i, j, r);
  }

  /** The strands and stagger of `d[i:j]` for a linear `d`, in terms of the
      columns of `d`. */
  lemma LinearSliceStrands(d: Dseq, i: nat, j: nat, r: Dseq, wi: nat, wj: nat, ci: nat, cj: nat, top: int, bottom: int)
    requires !d.circular && NoGap(|d.watson|, |d.crick|, d.ovhg) && i <= j <= Span(|d.watson|, |d.crick|, d.ovhg)
    requires NoSpace(d.watson) && NoSpace(d.crick)
    requires r == GetItem(d, Some(i), Some(j))
    requires wi == WatsonBefore(d, i) && wj == WatsonBefore(d, j)
    requires ci == CrickBefore(d, i) && cj == CrickBefore(d, j)
    requires top == Indent(wi, wj, d.ovhg, i, j)
    requires bottom == Indent(ci, cj, -d.ovhg, i, j)
    ensures wi <= wj && ci <= cj <= |d.crick|
    ensures r.watson == d.watson[wi..wj] && r.crick == d.crick[|d.crick| - cj..|d.crick| - ci]
    ensures r.ovhg == top - bottom
  {
    SliceWatson(d, i, j, r, wi, wj, top);
    SliceCrick(d, i, j, r, ci, cj, bottom);
    IndentOnOneRow(d, i, j, wi, wj, ci, cj, top, bottom);
    SliceOvhg(d, i, j, r, top, bottom);
  }

  /** The layout of the pieces `wi..wj` of watson and `|c| - cj..|c| - ci`
      of crick, with stagger `top - bottom`, reads columns `i..j` of the
      layout of `w` and `c`. */
  lemma SliceLayout(w: seq<char>, c: seq<char>, o: int, i: nat, j: nat, wi: nat, wj: nat, ci: nat, cj: nat,
                    top: int, bottom: int, sw: seq<char>, sc: seq<char>, so: int)
    requires NoGap(|w|, |c|, o) && i <= j <= Span(|w|, |c|, o)
    requires wi == Clip(i - Max(0, o), |w|) && wj == Clip(j - Max(0, o), |w|)
    requires ci == Clip(i - Max(0, -o), |c|) && cj == Clip(j - Max(0, -o), |c|)
    requires top == if wi < wj then Max(o, i) - i else j - i
    requires bottom == if ci < cj then Max(-o, i) - i else j - i
    requires wi <= wj && ci <= cj && sw == w[wi..wj] && sc == c[|c| - cj..|c| - ci] && so == top - bottom
    ensures j <= |FullSequence(w, c, o)|
    ensures FullSequence(sw, sc, so) == FullSequence(w, c, o)[i..j]
  {
    SliceColumns(w, c, o, i, j, wi, wj, ci, cj, top, bottom, sw, sc, so);
    SliceData(sw, sc, so, w, c, o, i, j);
  }

  /** A molecule whose strands are the pieces of watson and crick in
      columns `i..j` of `d`, staggered by `top - bottom`, reads `d.data[i..j]`. */
  lemma ColumnsData(d: Dseq, i: nat, j: nat, r: Dseq, wi: nat, wj: nat, ci: nat, cj: nat, top: int, bottom: int)
    requires NoGap(|d.watson|, |d.crick|, d.ovhg) && i <= j <= Span(|d.watson|, |d.crick|, d.ovhg)
    requires d.data == FullSequence(d.watson, d.crick, d.ovhg)
    requires wi == WatsonBefore(d, i) && wj == WatsonBefore(d, j)
    requires ci == CrickBefore(d, i) && cj == CrickBefore(d, j)
    requires top == Indent(wi, wj, d.ovhg, i, j)
    requires bottom == Indent(ci, cj, -d.ovhg, i, j)
    requires wi <= wj && ci <= cj <= |d.crick|
    requires r.watson == d.watson[wi..wj] && r.crick == d.crick[|d.crick| - cj..|d.crick| - ci]
    requires r.ovhg == top - bottom && r.data == FullSequence(r.watson, r.crick, r.ovhg)
    ensures j <= |d.data| && r.data == d.data[i..j]
  {
    SliceLayout(d.watson, d.crick, d.ovhg, i, j, wi, wj, ci, cj, top, bottom, r.watson, r.crick, r.ovhg);
  }

  /** The stagger of the slice, `top - bottom`, is the offset between the
      first watson column and the first crick column of `i..j`. */
  lemma SliceOffset(o: int, i: nat, j: nat, wi: nat, wj: nat, ci: nat, cj: nat, top: int, bottom: int)
    requires i <= j
    requires top == Indent(wi, wj, o, i, j)
    requires bottom == Indent(ci, cj, -o, i, j)
    ensures top - bottom == (if wi < wj then Max(Max(0, o), i) else j) - (if ci < cj then Max(Max(0, -o), i) else j)
  {
  }

  /** The watson bases of `d` in columns `i..j`. */
  function WatsonColumns(d: Dseq, i: int, j: int): seq<char>
    requires i <= j
  {
    d.watson[WatsonBefore(d, i)..WatsonBefore(d, j)]
  }

  /** The crick bases of `d` in columns `i..j`, read 5' to 3' as crick is. */
  function CrickColumns(d: Dseq, i: int, j: int): seq<char>
    requires i <= j
  {
    d.crick[|d.crick| - CrickBefore(d, j)..|d.crick| - CrickBefore(d, i)]
  }

  /** The pieces `wi..wj` of watson and `|c| - cj..|c| - ci` of crick, with
      the bounds counted by `WatsonBefore` and `CrickBefore`, are the bases
      in columns `i..j`. */
  lemma ColumnsNamed(d: Dseq, i: nat, j: nat, wi: nat, wj: nat, ci: nat, cj: nat, sw: seq<char>, sc: seq<char>)
    requires i <= j
    requires wi == WatsonBefore(d, i) && wj == WatsonBefore(d, j) && ci == CrickBefore(d, i) && cj == CrickBefore(d, j)
    requires wi <= wj && ci <= cj && sw == d.watson[wi..wj] && sc == d.crick[|d.crick| - cj..|d.crick| - ci]
    ensures sw == WatsonColumns(d, i, j) && sc == CrickColumns(d, i, j)
  {
  }

  /** A molecule whose sequence is the layout of its strands, with no gap
      between them, is as long as that layout is wide. */
  lemma LenIsSpan(d: Dseq)
    requires NoGap(|d.watson|, |d.crick|, d.ovhg) && d.data == FullSequence(d.watson, d.crick, d.ovhg)
    ensures Len(d) == Span(|d.watson|, |d.crick|, d.ovhg)
  {
    FullSequenceLength(d.watson, d.crick, d.ovhg);
  }

  /** `d[i:j]` of a linear molecule whose strands leave no gap between them
      and hold no whitespace is columns `i..j` of `d`: its watson strand is
      the watson bases in those columns, its crick strand the crick bases
      in those columns, its stagger the offset between the first column of
      each, and its sequence `d.data[i..j]`. */
  lemma LinearSliceColumns(d: Dseq, i: nat, j: nat)
    requires !d.circular && NoGap(|d.watson|, |d.crick|, d.ovhg)
    requires NoSpace(d.watson) && NoSpace(d.crick)
    requires d.data == FullSequence(d.watson, d.crick, d.ovhg)
    requires i <= j <= Len(d)
    ensures GetItem(d, Some(i), Some(j)).watson == WatsonColumns(d, i, j)
    ensures GetItem(d, Some(i), Some(j)).crick == CrickColumns(d, i, j)
    ensures GetItem(d, Some(i), Some(j)).ovhg ==
      (if WatsonBefore(d, i) < WatsonBefore(d, j) then Max(Max(0, d.ovhg), i) else j) -
      (if CrickBefore(d, i) < CrickBefore(d, j) then Max(Max(0, -d.ovhg), i) else j)
    ensures GetItem(d, Some(i), Some(j)).data == d.data[i..j]
  {
    var o := d.ovhg;
    LenIsSpan(d);
    var r := GetItem(d, Some(i), Some(j));
    var wi, wj := WatsonBefore(d, i), WatsonBefore(d, j);
    var ci, cj := CrickBefore(d, i), CrickBefore(d, j);
    var top, bottom := Indent(wi, wj, o, i, j), Indent(ci, cj, -o, i, j);
    LinearSliceStrands(d, i, j, r, wi, wj, ci, cj, top, bottom);
    ColumnsData(d, i, j, r, wi, wj, ci, cj, top, bottom);
    SliceOffset(o, i, j, wi, wj, ci, cj, top, bottom);
    ColumnsNamed(d, i, j, wi, wj, ci, cj, r.watson, r.crick);
  }
}
