/** Enzyme treatments of the ends of a molecule: polymerase fill-in, T4 DNA
    polymerase, mung bean nuclease, exonuclease I resection and terminal
    transferase. */
module Treatments {
  import opened Nucleotides
  import opened PySlice
  import opened Strands
  import opened Ends

  /** The nucleotides a treatment may use: both cases of the given letters,
      or of all IUPAC letters when none are given. */
  function Allowed(nucleotides: seq<char>): set<char> {
    AllowedSet(if |nucleotides| == 0 then IupacLetters else nucleotides)
  }

  /** The longest prefix of `s` made only of allowed characters: what the
      stuffer loop of the fill-in collects before its `break`. */
  function AllowedPrefix(s: seq<char>, allowed: set<char>): (p: seq<char>)
    ensures p <= s
    ensures forall i :: 0 <= i < |p| ==> p[i] in allowed
    ensures |p| < |s| ==> s[|p|] !in allowed
  {
    if |s| == 0 || s[0] !in allowed then [] else [s[0]] + AllowedPrefix(s[1..], allowed)
  }

  /** The stuffer loop: take characters while they are allowed. */
  method Stuffer(s: seq<char>, allowed: set<char>) returns (stuffer: seq<char>)
    ensures stuffer == AllowedPrefix(s, allowed)
  {
    stuffer := [];
    var i := 0;
    while i < |s|
      invariant 0 <= i <= |s| && stuffer == s[..i]
      invariant forall j :: 0 <= j < i ==> s[j] in allowed
    {
      if s[i] in allowed {
        stuffer := stuffer + [s[i]];
      } else {
        break;
      }
      i := i + 1;
    }
    AllowedPrefixIs(s, allowed, |stuffer|);
  }

  /** A maximal allowed prefix is the one `AllowedPrefix` finds. */
  lemma AllowedPrefixIs(s: seq<char>, allowed: set<char>, i: nat)
    requires i <= |s|
    requires forall j :: 0 <= j < i ==> s[j] in allowed
    requires i < |s| ==> s[i] !in allowed
    ensures AllowedPrefix(s, allowed) == s[..i]
  {
  }

  /** The bases `_fill_in_five_prime` adds to crick: the complement of the
      protruding 5' end of watson, as far as the nucleotides allow. */
  function FivePrimeStuffer(d: Dseq, allowed: set<char>): seq<char> {
    var e := FivePrimeEnd(d);
    if e.kind == FivePrime then AllowedPrefix(RC(e.sticky), allowed) else []
  }

  /** The bases `_fill_in_three_prime` adds to watson. */
  function ThreePrimeStuffer(d: Dseq, allowed: set<char>): seq<char> {
    var e := ThreePrimeEnd(d);
    if e.kind == FivePrime then AllowedPrefix(RC(e.sticky), allowed) else []
  }

  /** `_fill_in_five_prime`: crick extended at its 3' end, under the
      protruding 5' end of watson; ovhg grows with it. */
  method FillInFivePrime(d: Dseq, allowed: set<char>) returns (crick: seq<char>, ovhg: int)
    ensures crick == d.crick + FivePrimeStuffer(d, allowed)
    ensures ovhg == d.ovhg + |FivePrimeStuffer(d, allowed)|
  {
    var stuffer := [];
    var e := FivePrimeEnd(d);
    if e.kind == FivePrime {
      stuffer := Stuffer(RC(e.sticky), allowed);
    }
    return d.crick + stuffer, d.ovhg + |stuffer|;
  }

  /** `_fill_in_three_prime`: watson extended at its 3' end. */
  method FillInThreePrime(d: Dseq, allowed: set<char>) returns (watson: seq<char>)
    ensures watson == d.watson + ThreePrimeStuffer(d, allowed)
  {
    var stuffer := [];
    var e := ThreePrimeEnd(d);
    if e.kind == FivePrime {
      stuffer := Stuffer(RC(e.sticky), allowed);
    }
    return d.watson + stuffer;
  }

  /** What `fill_in` builds: both recessed 3' ends extended. */
  function FilledIn(d: Dseq, nucleotides: seq<char>): (r: Dseq)
    ensures d.watson <= r.watson && d.crick <= r.crick
    ensures r.ovhg - d.ovhg == |r.crick| - |d.crick|
    ensures FivePrimeEnd(d).kind != FivePrime ==> r.crick == d.crick && r.ovhg == d.ovhg
    ensures ThreePrimeEnd(d).kind != FivePrime ==> r.watson == d.watson
    ensures !r.circular
  {
    var allowed := Allowed(nucleotides);
    var s5 := FivePrimeStuffer(d, allowed);
    FromStrands(d.watson + ThreePrimeStuffer(d, allowed), d.crick + s5, d.ovhg + |s5|, false, 0)
  }

  /** `fill_in` */
  method FillIn(d: Dseq, nucleotides: seq<char>) returns (r: Dseq)
    ensures r == FilledIn(d, nucleotides)
  {
    var allowed := Allowed(nucleotides);
    var crick, ovhg := FillInFivePrime(d, allowed);
    var watson := FillInThreePrime(d, allowed);
    r := FromStrands(watson, crick, ovhg, false, 0);
  }

  /** `s` up to and including its last allowed character: what is left of
      a strand after the 3'-5' exonuclease has chewed back every base it
      cannot replace. */
  function ThroughLastAllowed(s: seq<char>, allowed: set<char>): (p: seq<char>)
    ensures p <= s
    ensures p == [] || p[|p| - 1] in allowed
    ensures forall j :: |p| <= j < |s| ==> s[j] !in allowed
  {
    if |s| == 0 then []
    else if s[|s| - 1] in allowed then s
    else ThroughLastAllowed(s[..|s| - 1], allowed)
  }

  /** The backward scan of `T4`: the index of the last allowed character,
      or -1. */
  method ScanBack(s: seq<char>, allowed: set<char>) returns (x: int)
    ensures x == |ThroughLastAllowed(s, allowed)| - 1
    ensures s[..x + 1] == ThroughLastAllowed(s, allowed)
  {
    x := |s| - 1;
    while x >= 0
      invariant -1 <= x < |s|
      invariant forall j :: x < j < |s| ==> s[j] !in allowed
    {
      if s[x] in allowed {
        break;
      }
      x := x - 1;
    }
    ThroughLastAllowedIs(s, allowed, x + 1);
  }

  /** A prefix ending in an allowed character after which nothing is allowed
      is the one `ThroughLastAllowed` finds. */
  lemma ThroughLastAllowedIs(s: seq<char>, allowed: set<char>, k: nat)
    requires k <= |s|
    requires k == 0 || s[k - 1] in allowed
    requires forall j :: k <= j < |s| ==> s[j] !in allowed
    ensures |ThroughLastAllowed(s, allowed)| == k
  {
  }

  /** Crick and ovhg once `T4` has dealt with the left end: a recessed crick
      is filled in, a protruding one chewed off; a blunt end keeps crick and
      gets ovhg 0. */
  function T4LeftPrepared(d: Dseq, allowed: set<char>): (seq<char>, int) {
    var e := FivePrimeEnd(d);
    if e.kind == FivePrime then
      var s5 := FivePrimeStuffer(d, allowed);
      (d.crick + s5, d.ovhg + |s5|)
    else if e.kind == ThreePrime then (To(d.crick, -|e.sticky|), 0)
    else (d.crick, 0)
  }

  /** Crick and ovhg after `T4` has treated the left end: the prepared crick
      loses the bases after its last allowed one, and an emptied crick
      leaves ovhg 0. */
  function T4Left(d: Dseq, allowed: set<char>): (seq<char>, int) {
    var (crick0, ovhg0) := T4LeftPrepared(d, allowed);
    var crick1 := ThroughLastAllowed(crick0, allowed);
    (crick1, if crick1 == [] then 0 else ovhg0 + |crick1| - |crick0|)
  }

  /** Watson once `T4` has dealt with the right end. */
  function T4RightPrepared(d: Dseq, allowed: set<char>): seq<char> {
    var e := ThreePrimeEnd(d);
    if e.kind == FivePrime then d.watson + ThreePrimeStuffer(d, allowed)
    else if e.kind == ThreePrime then To(d.watson, -|e.sticky|)
    else d.watson
  }

  /** Watson after `T4` has treated the right end. */
  function T4Right(d: Dseq, allowed: set<char>): seq<char> {
    ThroughLastAllowed(T4RightPrepared(d, allowed), allowed)
  }

  /** What `T4` builds. */
  function T4Treated(d: Dseq, nucleotides: seq<char>): Dseq {
    var allowed := Allowed(nucleotides);
    var left := T4Left(d, allowed);
    FromStrands(T4Right(d, allowed), left.0, left.1, false, 0)
  }

  /** The first step of `T4` at the left end. */
  method T4PrepareLeft(d: Dseq, allowed: set<char>) returns (crick: seq<char>, ovhg: int)
    ensures (crick, ovhg) == T4LeftPrepared(d, allowed)
  {
    var e := FivePrimeEnd(d);
    if e.kind == FivePrime {
      crick, ovhg := FillInFivePrime(d, allowed);
    } else if e.kind == ThreePrime {
      ovhg := 0;
      crick := To(d.crick, -|e.sticky|);
    } else {
      ovhg := 0;
      crick := d.crick;
    }
  }

  /** The left-end half of `T4`. */
  method T4LeftEnd(d: Dseq, allowed: set<char>) returns (crick: seq<char>, ovhg: int)
    ensures (crick, ovhg) == T4Left(d, allowed)
  {
    crick, ovhg := T4PrepareLeft(d, allowed);
    var x := ScanBack(crick, allowed);
    ovhg := x - |crick| + 1 + ovhg;
    crick := crick[..x + 1];
    if crick == [] {
      ovhg := 0;
    }
  }

  /** The right-end half of `T4`. */
  method T4RightEnd(d: Dseq, allowed: set<char>) returns (watson: seq<char>)
    ensures watson == T4Right(d, allowed)
  {
    watson := d.watson;
    var e := ThreePrimeEnd(d);
    if e.kind == FivePrime {
      watson := FillInThreePrime(d, allowed);
    } else if e.kind == ThreePrime {
      watson := To(d.watson, -|e.sticky|);
    }
    var x := ScanBack(watson, allowed);
    watson := watson[..x + 1];
  }

  /** `T4`: the left end, then the right end, treated. */
  method T4(d: Dseq, nucleotides: seq<char>) returns (r: Dseq)
    ensures r == T4Treated(d, nucleotides)
  {
    var allowed := Allowed(nucleotides);
    var crick, ovhg := T4LeftEnd(d, allowed);
    var watson := T4RightEnd(d, allowed);
    r := FromStrands(watson, crick, ovhg, false, 0);
  }

  /** `mung`: both single-stranded protrusions removed; what is left is the
      stretch of watson that has crick opposite, as a blunt molecule. */
  function Mung(d: Dseq): (r: Dseq)
    ensures r.ovhg == 0 && r.crick == RC(r.watson) && !r.circular
  {
    SingleStrand(Slice(d.watson, Max(0, -d.ovhg), Min(|d.watson|, |d.crick| - d.ovhg)), false, 0)
  }

  /** `exo1_front`: a copy with `n` bases resected from the 5' end of
      watson; the remaining bases keep their place opposite crick, so the
      right end is untouched. The stored full sequence and length are
      copied unchanged. */
  method Exo1Front(d: Dseq, n: int) returns (r: Dseq)
    ensures r.watson == From(d.watson, n) && r.ovhg == d.ovhg + n
    ensures r.crick == d.crick && r.circular == d.circular && r.pos == d.pos
    ensures r.data == d.data && r.length == d.length
    ensures 0 <= n <= |d.watson| ==> WatsonOvhg(r) == WatsonOvhg(d)
  {
    r := d;
    r := r.(ovhg := r.ovhg + n);
    r := r.(watson := From(r.watson, n));
  }

  /** `exo1_end`: a copy with `n` bases resected from the 5' end of crick,
      at the right end: watson's 3' end protrudes `n` bases further. */
  method Exo1End(d: Dseq, n: int) returns (r: Dseq)
    ensures r.crick == From(d.crick, n)
    ensures r.watson == d.watson && r.ovhg == d.ovhg && r.circular == d.circular && r.pos == d.pos
    ensures r.data == d.data && r.length == d.length
    ensures 0 <= n <= |d.crick| ==> WatsonOvhg(r) == WatsonOvhg(d) + n
  {
    r := d;
    r := r.(crick := From(r.crick, n));
  }

  /** `terminal_transferase` as written: both strands get the nucleotides
      at their 3' ends, but ovhg only grows when it is not negative. */
  function TerminalTransferase(d: Dseq, nucleotides: seq<char>): (r: Dseq)
    ensures r.watson == d.watson + nucleotides && r.crick == d.crick + nucleotides
    ensures d.ovhg >= 0 ==> r.ovhg == d.ovhg + |nucleotides|
    ensures d.ovhg < 0 ==> r.ovhg == d.ovhg
  {
    var ovhg := if d.ovhg >= 0 then d.ovhg + |nucleotides| else d.ovhg;
    FromStrands(d.watson + nucleotides, d.crick + nucleotides, ovhg, false, 0)
  }

  /** Terminal transferase with crick's new 3' bases placed to the left of
      crick, where its 3' end is: ovhg always grows by the number of bases
      added. */
  function TerminalTransferaseCorrected(d: Dseq, nucleotides: seq<char>): (r: Dseq)
    ensures r.watson == d.watson + nucleotides && r.crick == d.crick + nucleotides
    ensures r.ovhg == d.ovhg + |nucleotides|
  {
    FromStrands(d.watson + nucleotides, d.crick + nucleotides, d.ovhg + |nucleotides|, false, 0)
  }
}

/** What the treatments achieve: fill-in and T4 leave blunt ends when the
    nucleotides allow it, mung bean nuclease keeps the paired stretch, and
    terminal transferase extends both 3' ends. */
module TreatmentsFacts {
  import opened Nucleotides
  import opened PySlice
  import opened Strands
  import opened StrandsFacts
  import opened Ends
  import opened LigationFacts
  import opened Treatments

  const LowerIupac: seq<char> := "gatcrywsmkhbvdn"

  /** Every character of `s` is in `allowed`. */
  predicate AllIn(s: seq<char>, allowed: set<char>) {
    forall i :: 0 <= i < |s| ==> s[i] in allowed
  }

  lemma IupacCases()
    ensures Lower(IupacLetters) == LowerIupac && Upper(IupacLetters) == IupacLetters
    ensures forall i :: 0 <= i < |LowerIupac| ==> 'a' <= LowerIupac[i] <= 'z'
  {
  }

  lemma LowerOfIupac(c: char)
    requires c in Allowed([])
    ensures LowerChar(c) in LowerIupac
  {
    IupacCases();
    if c in LowerIupac {
      var i :| 0 <= i < |LowerIupac| && LowerIupac[i] == c;
    } else {
      var i :| 0 <= i < |IupacLetters| && IupacLetters[i] == c;
      assert LowerChar(c) == Lower(IupacLetters)[i];
    }
  }

  lemma ComplementOfLowerIupac(c: char)
    requires c in LowerIupac
    ensures Complement(c) in LowerIupac
  {
  }

  lemma LowerIupacAllowed(c: char)
    requires c in LowerIupac
    ensures c in Allowed([])
  {
    IupacCases();
  }

  /** The default nucleotides can pair every IUPAC letter. */
  lemma IupacClosed(c: char)
    requires c in Allowed([])
    ensures Complement(LowerChar(c)) in Allowed([])
  {
    LowerOfIupac(c);
    ComplementOfLowerIupac(LowerChar(c));
    LowerIupacAllowed(Complement(LowerChar(c)));
  }

  /** A set of nucleotides that holds the (lower-case) partner of each of
      its members. */
  predicate PairClosed(allowed: set<char>) {
    forall c :: c in allowed ==> Complement(LowerChar(c)) in allowed
  }

  lemma DefaultPairClosed()
    ensures PairClosed(Allowed([]))
  {
    forall c | c in Allowed([])
      ensures Complement(LowerChar(c)) in Allowed([])
    {
      IupacClosed(c);
    }
  }

  /** A protrusion written in nucleotides of a closed set can be filled in
      completely from that set. */
  lemma PairableStretch(s: seq<char>, allowed: set<char>, i: nat, j: nat)
    requires PairClosed(allowed) && AllIn(s, allowed) && i <= j <= |s|
    ensures AllIn(RC(Lower(s[i..j])), allowed)
  {
    var t := s[i..j];
    forall k | 0 <= k < |t|
      ensures RC(Lower(t))[k] in allowed
    {
      assert t[|t| - 1 - k] == s[i + |t| - 1 - k];
    }
  }

  lemma SliceAllIn(s: seq<char>, allowed: set<char>, i: nat, j: nat)
    requires AllIn(s, allowed) && i <= j <= |s|
    ensures AllIn(s[i..j], allowed)
  {
    assert forall k :: 0 <= k < j - i ==> s[i..j][k] == s[i + k];
  }

  /** The stuffer takes the whole protrusion exactly when every base of it
      is allowed. */
  lemma FullStuffer(s: seq<char>, allowed: set<char>)
    ensures AllowedPrefix(s, allowed) == s <==> AllIn(s, allowed)
  {
    if AllIn(s, allowed) {
      AllowedPrefixIs(s, allowed, |s|);
    }
  }

  /** A strand of allowed bases loses nothing to the exonuclease. */
  lemma ThroughAllAllowed(s: seq<char>, allowed: set<char>)
    requires AllIn(s, allowed)
    ensures ThroughLastAllowed(s, allowed) == s
  {
    ThroughLastAllowedIs(s, allowed, |s|);
  }

  /** Fill-in blunts a protruding 5' end of watson exactly when every base
      needed opposite it is allowed. */
  lemma FillInBluntsLeft(d: Dseq, nucleotides: seq<char>)
    requires Solid(d) && d.ovhg < 0
    ensures FilledIn(d, nucleotides).ovhg == 0 <==> AllIn(RC(FivePrimeEnd(d).sticky), Allowed(nucleotides))
  {
    var e := FivePrimeEnd(d);
    assert |RC(e.sticky)| == -d.ovhg;
    FullStuffer(RC(e.sticky), Allowed(nucleotides));
  }

  /** Fill-in blunts a protruding 5' end of crick exactly when every base
      needed opposite it is allowed. */
  lemma FillInBluntsRight(d: Dseq, nucleotides: seq<char>)
    requires Solid(d) && WatsonOvhg(d) < 0
    ensures WatsonOvhg(FilledIn(d, nucleotides)) == 0 <==> AllIn(RC(ThreePrimeEnd(d).sticky), Allowed(nucleotides))
  {
    var e := ThreePrimeEnd(d);
    assert |RC(e.sticky)| == -WatsonOvhg(d);
    FullStuffer(RC(e.sticky), Allowed(nucleotides));
  }

  /** With nucleotides that can pair every base of the molecule, fill-in
      blunts a protruding 5' end of watson and leaves any other left end. */
  lemma FillInCompleteLeft(d: Dseq, nucleotides: seq<char>, allowed: set<char>)
    requires allowed == Allowed(nucleotides) && PairClosed(allowed)
    requires Solid(d) && AllIn(d.watson, allowed)
    ensures FilledIn(d, nucleotides).ovhg == Max(d.ovhg, 0)
  {
    if d.ovhg < 0 {
      PairableStretch(d.watson, allowed, 0, -d.ovhg);
      FillInBluntsLeft(d, nucleotides);
    }
  }

  /** ... and likewise at the right end. */
  lemma FillInCompleteRight(d: Dseq, nucleotides: seq<char>, allowed: set<char>)
    requires allowed == Allowed(nucleotides) && PairClosed(allowed)
    requires Solid(d) && AllIn(d.crick, allowed)
    ensures WatsonOvhg(FilledIn(d, nucleotides)) == Max(WatsonOvhg(d), 0)
  {
    var k := WatsonOvhg(d);
    if k < 0 {
      PairableStretch(d.crick, allowed, 0, -k);
      FillInBluntsRight(d, nucleotides);
    }
  }

  /** `fill_in()` with its default nucleotides on a molecule written in
      IUPAC letters leaves no recessed 3' end. */
  lemma FillInDefault(d: Dseq)
    requires Solid(d) && AllIn(d.watson, Allowed([])) && AllIn(d.crick, Allowed([]))
    ensures FilledIn(d, []).ovhg == Max(d.ovhg, 0)
    ensures WatsonOvhg(FilledIn(d, [])) == Max(WatsonOvhg(d), 0)
  {
    DefaultPairClosed();
    FillInCompleteLeft(d, [], Allowed([]));
    FillInCompleteRight(d, [], Allowed([]));
  }

  /** The doctest of `fill_in`: caaa over tttc (crick cttt, ovhg -1) fills to
      caaag over gtttc, while thymine, adenine and cytosine alone cannot
      fill it at all. */
  lemma FillInExample()
    ensures var d := FromStrands("caaa", "cttt", -1, false, 0);
      var r := FilledIn(d, []);
      r.watson == "caaag" && r.crick == "ctttg" && r.ovhg == 0
    ensures var d := FromStrands("caaa", "cttt", -1, false, 0);
      var r := FilledIn(d, "tac");
      r.watson == "caaa" && r.crick == "cttt" && r.ovhg == -1
  {
    var d := FromStrands("caaa", "cttt", -1, false, 0);
    assert FivePrimeEnd(d).sticky == "c";
    assert ThreePrimeEnd(d).sticky == "c";
    assert RC("c")[0] == Complement('c') == 'g';
    assert RC("c") == "g";
    assert 'g' in Allowed([]) by {
      assert Lower(IupacLetters)[0] == 'g';
    }
    assert 'g' !in Allowed("tac");
  }

  /** T4 with nucleotides that can pair every base blunts the left end;
      crick then starts where watson does, and all its bases are allowed. */
  lemma T4LeftPreparedComplete(d: Dseq, allowed: set<char>)
    requires PairClosed(allowed)
    requires Solid(d) && AllIn(d.watson, allowed) && AllIn(d.crick, allowed)
    ensures T4LeftPrepared(d, allowed).1 == 0
    ensures |T4LeftPrepared(d, allowed).0| == |d.crick| - d.ovhg
    ensures AllIn(T4LeftPrepared(d, allowed).0, allowed)
  {
    var e := FivePrimeEnd(d);
    if d.ovhg < 0 {
      PairableStretch(d.watson, allowed, 0, -d.ovhg);
      FullStuffer(RC(e.sticky), allowed);
    } else if d.ovhg > 0 {
      assert To(d.crick, -|e.sticky|) == d.crick[..|d.crick| - d.ovhg];
      SliceAllIn(d.crick, allowed, 0, |d.crick| - d.ovhg);
    }
  }

  /** ... and the exonuclease then removes nothing. */
  lemma T4LeftComplete(d: Dseq, allowed: set<char>)
    requires PairClosed(allowed)
    requires Solid(d) && AllIn(d.watson, allowed) && AllIn(d.crick, allowed)
    ensures T4Left(d, allowed).1 == 0
    ensures |T4Left(d, allowed).0| == |d.crick| - d.ovhg
  {
    T4LeftPreparedComplete(d, allowed);
    ThroughAllAllowed(T4LeftPrepared(d, allowed).0, allowed);
  }

  /** The same at the right end: watson then ends where crick starts. */
  lemma T4RightPreparedComplete(d: Dseq, allowed: set<char>)
    requires PairClosed(allowed)
    requires Solid(d) && AllIn(d.watson, allowed) && AllIn(d.crick, allowed)
    ensures |T4RightPrepared(d, allowed)| == |d.crick| - d.ovhg
    ensures AllIn(T4RightPrepared(d, allowed), allowed)
  {
    var e := ThreePrimeEnd(d);
    var k := WatsonOvhg(d);
    if k < 0 {
      PairableStretch(d.crick, allowed, 0, -k);
      FullStuffer(RC(e.sticky), allowed);
    } else if k > 0 {
      assert To(d.watson, -|e.sticky|) == d.watson[..|d.watson| - k];
      SliceAllIn(d.watson, allowed, 0, |d.watson| - k);
    }
  }

  lemma T4RightComplete(d: Dseq, allowed: set<char>)
    requires PairClosed(allowed)
    requires Solid(d) && AllIn(d.watson, allowed) && AllIn(d.crick, allowed)
    ensures |T4Right(d, allowed)| == |d.crick| - d.ovhg
  {
    T4RightPreparedComplete(d, allowed);
    ThroughAllAllowed(T4RightPrepared(d, allowed), allowed);
  }

  /** `T4()` with its default nucleotides turns a molecule written in IUPAC
      letters into a blunt one, as long as crick reached from its 3' end to
      the 5' end of watson's partner. */
  lemma T4Default(d: Dseq)
    requires Solid(d) && AllIn(d.watson, Allowed([])) && AllIn(d.crick, Allowed([]))
    ensures IsBlunt(T4Treated(d, []))
    ensures |T4Treated(d, []).watson| == |d.crick| - d.ovhg
  {
    DefaultPairClosed();
    T4LeftComplete(d, Allowed([]));
    T4RightComplete(d, Allowed([]));
  }

  lemma GatcPalindrome()
    ensures RC("gatcgatc") == "gatcgatc"
  {
    var s := "gatcgatc";
    assert forall i :: 0 <= i < 8 ==> RC(s)[i] == Complement(s[7 - i]);
  }

  lemma ChewBackToThymine()
    ensures ThroughLastAllowed("gatcgatc", Allowed("t")) == "gatcgat"
  {
    var allowed := Allowed("t");
    assert 'c' !in allowed;
    assert 't' in allowed by {
      assert Lower("t")[0] == 't';
    }
    ThroughLastAllowedIs("gatcgatc", allowed, 7);
  }

  /** The doctest of `T4`: gatcgatc treated with thymine alone is chewed
      back to the last t of each strand. */
  lemma T4Example()
    ensures var r := T4Treated(SingleStrand("gatcgatc", false, 0), "t");
      r.watson == "gatcgat" && r.crick == "gatcgat" && r.ovhg == -1
  {
    var d := SingleStrand("gatcgatc", false, 0);
    var allowed := Allowed("t");
    GatcPalindrome();
    ChewBackToThymine();
    assert FivePrimeEnd(d).kind == Blunt && ThreePrimeEnd(d).kind == Blunt;
    assert T4LeftPrepared(d, allowed) == ("gatcgatc", 0);
    assert T4Left(d, allowed) == ("gatcgat", -1);
    assert T4Right(d, allowed) == "gatcgat";
  }

  /** A crick base lies opposite watson index `p` in the layout. */
  predicate Opposite(d: Dseq, p: int) {
    0 <= p + d.ovhg < |d.crick|
  }

  /** Mung bean nuclease keeps, in order, exactly the watson bases that have
      a crick base opposite them: `s..e` is the stretch of watson indices
      with a partner, whatever the stagger. */
  lemma MungKeepsPairedStretch(d: Dseq, s: nat, e: nat)
    requires NoGap(|d.watson|, |d.crick|, d.ovhg)
    requires s <= e <= |d.watson|
    requires forall p :: 0 <= p < |d.watson| ==> (s <= p < e <==> Opposite(d, p))
    ensures Mung(d).watson == d.watson[s..e]
    ensures IsBlunt(Mung(d))
  {
    var lo, hi := Max(0, -d.ovhg), Min(|d.watson|, |d.crick| - d.ovhg);
    if lo < hi {
      assert Opposite(d, lo) && Opposite(d, hi - 1);
      assert Opposite(d, s) && Opposite(d, e - 1);
      assert s == lo && e == hi;
      SliceIn(d.watson, s, e);
    } else {
      assert s < e ==> Opposite(d, s);
    }
  }

  /** A second mung bean treatment changes nothing. */
  lemma MungIdempotent(d: Dseq)
    ensures Mung(Mung(d)) == Mung(d)
  {
    var m := Mung(d);
    assert Slice(m.watson, 0, |m.watson|) == m.watson;
  }

  /** Terminal transferase as written, on ggaa over tt (ovhg -2) with one c:
      crick's 5' end moves one place to the right, breaking the pairing of
      tt with aa, and watson's 3' protrusion does not grow. */
  lemma TerminalTransferaseMisplacesCrick()
    ensures var d := FromStrands("ggaa", "tt", -2, false, 0);
      var r := TerminalTransferase(d, "c");
      |r.crick| - r.ovhg == |d.crick| - d.ovhg + 1 && WatsonOvhg(r) == WatsonOvhg(d)
  {
  }

  /** Where the molecule has no protruding 5' end of watson, the code as
      written already does what the corrected version does. */
  lemma TerminalTransferaseAgrees(d: Dseq, nucleotides: seq<char>)
    requires d.ovhg >= 0
    ensures TerminalTransferase(d, nucleotides) == TerminalTransferaseCorrected(d, nucleotides)
  {
  }

  /** Corrected terminal transferase: both 3' ends protrude further by the
      number of bases added, and crick's 5' end stays where it was, so every
      existing base keeps its partner. */
  lemma TerminalTransferaseExtendsThreePrimeEnds(d: Dseq, nucleotides: seq<char>)
    ensures var r := TerminalTransferaseCorrected(d, nucleotides);
      r.ovhg == d.ovhg + |nucleotides| && WatsonOvhg(r) == WatsonOvhg(d) + |nucleotides|
      && |r.crick| - r.ovhg == |d.crick| - d.ovhg
  {
  }
}
