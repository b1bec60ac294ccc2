/** Nucleotide characters: complement, reverse complement and letter case.
    A strand is a `seq<char>` read 5' to 3'. */
module Nucleotides {

  /** Complement of one IUPAC nucleotide code, keeping its case. S, W and N
      (and every character outside the table) are their own complement. */
  function Complement(c: char): char {
    match c
    case 'a' => 't'
    case 't' => 'a'
    case 'c' => 'g'
    case 'g' => 'c'
    case 'r' => 'y'
    case 'y' => 'r'
    case 'k' => 'm'
    case 'm' => 'k'
    case 'b' => 'v'
    case 'v' => 'b'
    case 'd' => 'h'
    case 'h' => 'd'
    case 'A' => 'T'
    case 'T' => 'A'
    case 'C' => 'G'
    case 'G' => 'C'
    case 'R' => 'Y'
    case 'Y' => 'R'
    case 'K' => 'M'
    case 'M' => 'K'
    case 'B' => 'V'
    case 'V' => 'B'
    case 'D' => 'H'
    case 'H' => 'D'
    case _ => c
  }

  function LowerChar(c: char): char {
    if 'A' <= c <= 'Z' then (c as int - 'A' as int + 'a' as int) as char else c
  }

  function UpperChar(c: char): char {
    if 'a' <= c <= 'z' then (c as int - 'a' as int + 'A' as int) as char else c
  }

  /** The strand read backwards (Python `s[::-1]`). */
  function Reverse<T>(s: seq<T>): seq<T> {
    seq(|s|, i requires 0 <= i < |s| => s[|s| - 1 - i])
  }

  /** Reverse complement: the partner strand, read 5' to 3'. */
  function RC(s: seq<char>): seq<char> {
    seq(|s|, i requires 0 <= i < |s| => Complement(s[|s| - 1 - i]))
  }

  function Lower(s: seq<char>): seq<char> {
    seq(|s|, i requires 0 <= i < |s| => LowerChar(s[i]))
  }

  function Upper(s: seq<char>): seq<char> {
    seq(|s|, i requires 0 <= i < |s| => UpperChar(s[i]))
  }

  /** The nucleotide letters "GATCRYWSMKHBVDN" in both cases: what fill-in and
      T4 use when no nucleotides are given. */
  const IupacLetters: seq<char> := "GATCRYWSMKHBVDN"

  /** `set(nucleotides.lower() + nucleotides.upper())`. */
  function AllowedSet(nucleotides: seq<char>): set<char> {
    set c | c in Lower(nucleotides) || c in Upper(nucleotides)
  }

  lemma ComplementInvolutive(c: char)
    ensures Complement(Complement(c)) == c
  {
  }

  lemma ComplementKeepsCase(c: char)
    ensures LowerChar(Complement(c)) == Complement(LowerChar(c))
    ensures UpperChar(Complement(c)) == Complement(UpperChar(c))
  {
  }

  lemma RCInvolutive(s: seq<char>)
    ensures RC(RC(s)) == s
  {
    forall i | 0 <= i < |s| ensures RC(RC(s))[i] == s[i] {
      ComplementInvolutive(s[i]);
    }
  }

  lemma ReverseInvolutive<T>(s: seq<T>)
    ensures Reverse(Reverse(s)) == s
  {
  }

  lemma RCAppend(a: seq<char>, b: seq<char>)
    ensures RC(a + b) == RC(b) + RC(a)
  {
  }

  lemma ReverseAppend<T>(a: seq<T>, b: seq<T>)
    ensures Reverse(a + b) == Reverse(b) + Reverse(a)
  {
  }

  /** Reverse complement of a stretch is the mirrored stretch of the reverse
      complement. */
  lemma RCSlice(s: seq<char>, i: nat, j: nat)
    requires i <= j <= |s|
    ensures RC(s[i..j]) == RC(s)[|s| - j..|s| - i]
  {
    forall k | 0 <= k < j - i ensures RC(s[i..j])[k] == RC(s)[|s| - j + k] {
    }
  }

  lemma ReverseSlice<T>(s: seq<T>, i: nat, j: nat)
    requires i <= j <= |s|
    ensures Reverse(s[i..j]) == Reverse(s)[|s| - j..|s| - i]
  {
  }

  lemma LowerRC(s: seq<char>)
    ensures Lower(RC(s)) == RC(Lower(s))
    ensures Upper(RC(s)) == RC(Upper(s))
  {
    forall i | 0 <= i < |s|
      ensures Lower(RC(s))[i] == RC(Lower(s))[i] && Upper(RC(s))[i] == RC(Upper(s))[i]
    {
      ComplementKeepsCase(s[|s| - 1 - i]);
    }
  }

  lemma LowerAppend(a: seq<char>, b: seq<char>)
    ensures Lower(a + b) == Lower(a) + Lower(b)
    ensures Upper(a + b) == Upper(a) + Upper(b)
  {
  }

  lemma LowerIdempotent(s: seq<char>)
    ensures Lower(Lower(s)) == Lower(s)
    ensures Upper(Upper(s)) == Upper(s)
    ensures Lower(Upper(s)) == Lower(s)
    ensures Upper(Lower(s)) == Upper(s)
  {
  }
}
