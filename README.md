# pydna `Dseq` in Dafny

A model of pydna's double-stranded DNA value, `Dseq` (`src/pydna/dseq.py`),
with proofs of what its operations promise.

A `Dseq` holds two strands, `watson` and `crick`, both read 5' to 3'. `ovhg`
is the stagger at the left end: positive when crick's 3' end sticks out past
watson's 5' end, negative when watson's 5' end sticks out. The flattened full
sequence `_data` is built by the constructors and fixes `len()`. A molecule
is linear or circular.

The model has one module per part of the class. Each operation sits in a
plain module, and the properties proved about it in a `...Facts` module next
to it.

- `Nucleotides`: complement, reverse complement and letter case.
- `PySlice`: Python slicing with negative and clamped bounds.
- `Results`: `Option`, `Result` and the errors the operations raise.
- `Strands` / `StrandsFacts`: the value and its constructors: `__init__`,
  `quick`, `from_string`, `from_representation`,
  `from_full_sequence_and_overhangs`, `reverse_complement`, `upper`,
  `lower` and `__eq__`.
- `Ends`: `five_prime_end`, `three_prime_end`, `watson_ovhg`, `isblunt`,
  and the end-compatibility test that ligation and circularisation use.
- `Slicing` / `SlicingFacts`: `__getitem__` on linear and circular
  molecules.
- `LinearSliceFacts`: what the linear branch of `__getitem__` gives for any
  stagger, column by column.
- `Ligation` / `LigationFacts`: `__add__`, `__mul__`, `looped` and
  `shifted`.
- `Treatments` / `TreatmentsFacts`: `fill_in`, `T4`, `mung`, `exo1_front`,
  `exo1_end` and `terminal_transferase`.
- `Cutting` / `CuttingFacts`: `get_cutsites`, `get_cutsite_pairs`,
  `apply_cut` and `cut`.
- `CuttingExamples`: the BamHI/EcoRI digest from the `cut` docstring.

`Dseq` is an immutable value in the source: every operation returns a new
object. So it is a Dafny `datatype`, and the operations are functions. The
source's loops are methods proved equal to those functions:

- the fill-in stuffer loop;
- the backward scans of `T4`;
- `__mul__`'s repeated `+=`;
- the enzyme loop of `get_cutsites`.

Errors the source raises become `Result.Err` values.

Two places need a note:

- The linear branch of `__getitem__` pads the two rows with spaces and
  strips them again, as the code does. A strand that itself begins or ends
  with whitespace therefore loses it; the lemmas about slicing assume
  strands without whitespace at their ends.
- `get_cutsites` sorts `((watson_cut, crick_cut), enzyme)` tuples, which on
  a tie compares the enzyme objects. The model sorts stably by position only
  (see "Left out").

## Model

| member | source | states |
|---|---|---|
| Strands.SingleStrand | src/pydna/dseq.py:305-314 | `Dseq(watson)`: crick is the reverse complement, ovhg 0, and `_data` is what `quick`'s formula gives for those strands, of length `len(watson)` |
| Strands.FromStrands | src/pydna/dseq.py:341-367 | the six explicit-ovhg branches of `__init__` all build the full sequence `quick` builds, and keep the strands and stagger given |
| Strands.Init | src/pydna/dseq.py:296-374 | construction fails exactly when ovhg is given without crick (`ValueError`) or crick is given without ovhg and the annealing search finds no unique alignment; otherwise the strands, stagger, topology and `length == len(_data)` are as given or computed |
| Strands.FromString | src/pydna/dseq.py:398-415 | `from_string(dna)` builds the same value as `Dseq(dna)` and as `quick(dna, rc(dna))` |
| Strands.FromRepresentation | src/pydna/dseq.py:418-431 | fails exactly when the text has fewer than two non-empty lines; the stagger is the difference of the two lines' indentations; the result is linear |
| StrandsFacts.FullSequenceFlanks | src/pydna/dseq.py:390-394 | when the strands leave no gap, `quick`'s full sequence is the left crick flank (reverse complemented), watson, then the right crick flank |
| StrandsFacts.FullSequenceLength | src/pydna/dseq.py:390-394 | `len(_data)` equals `quick`'s `length` formula if and only if the strands leave no gap between them |
| StrandsFacts.FullSequenceReadsStrands | src/pydna/dseq.py:394 | each position of the full sequence reads the watson base where watson covers it, and otherwise the complement of the crick base opposite |
| StrandsFacts.FromRepresentationOfPair | src/pydna/dseq.py:420-423 | on two lines, the first strips to watson and the second, reversed, to crick |
| StrandsFacts.RepresentationRoundTrip | src/pydna/dseq.py:418-431 | reading back the two-line picture of a molecule gives its strands, stagger and full sequence back (strands non-empty, no whitespace at their ends) |
| StrandsFacts.ReverseComplementOfSingleStrand | src/pydna/dseq.py:478 | `str(Dseq(s).reverse_complement())` is `rc(s)` |
| StrandsFacts.TrimmedStrands | src/pydna/dseq.py:478-494 | `from_full_sequence_and_overhangs` gives watson and crick as the trimmed stretches of the full sequence and of its reverse complement, with ovhg `crick_ovhg` |
| StrandsFacts.TrimmedStrandsRebuildFull | src/pydna/dseq.py:478-494 | those trimmed strands, laid out with stagger `crick_ovhg`, read the full sequence again |
| StrandsFacts.FullSequenceAndOverhangs | src/pydna/dseq.py:434-494 | the result keeps the full sequence, has left stagger `crick_ovhg` and right stagger `watson_ovhg`, and is linear, whenever both overhangs fit |
| StrandsFacts.ReverseComplementInvolutive | src/pydna/dseq.py:780-806 | reverse complementing twice gives back the strands, stagger and topology |
| StrandsFacts.CaseChangeIsEqual | src/pydna/dseq.py:534-597 | `upper()` and `lower()` give molecules `__eq__` to the original and to each other |
| Ends.FivePrimeEnd | src/pydna/dseq.py:913-961 | a lone watson strand is all 5' end and a lone crick strand all 3' end, in lower case; otherwise the left end is 5' exactly when ovhg < 0 and 3' exactly when ovhg > 0, the sticky bases are the protruding watson or crick bases in lower case, and a blunt end has no sticky bases |
| Ends.ThreePrimeEnd | src/pydna/dseq.py:963-1008 | the right end is blunt exactly when `watson_ovhg() == 0`, 5' (crick protruding) when it is negative and 3' (watson protruding) when positive, with those bases in lower case |
| Ends.EndsSwapUnderReverseComplement | src/pydna/dseq.py:801-805 | for a molecule with both strands present, seen from the other strand, the left end becomes the right end and the right end the left one, and the two staggers swap |
| Ends.IsBluntIffBluntEnds | src/pydna/dseq.py:1339-1377 | `isblunt()` holds exactly when the molecule is linear and both its ends are blunt |
| Ends.CompatibleBothWays | src/pydna/dseq.py:1044 | ends that pass the ligation test pair in both directions |
| Slicing.LinearSlice | src/pydna/dseq.py:646-659 | the linear branch gives a linear molecule at position 0 whose full sequence is the one its strands and stagger build |
| Slicing.CircularSlice | src/pydna/dseq.py:660-682 | the circular branch gives a linear molecule at position 0 with no stagger, whose full sequence is the one its strands build |
| Slicing.GetItem | src/pydna/dseq.py:643-682 | every slice is a linear molecule, at position 0, whose full sequence is the one `Dseq(w, c, ovhg)` builds from its strands |
| SlicingFacts.PaddedLine | src/pydna/dseq.py:649-656 | a padded row strips back to its strand, and its indentation is the left padding |
| SlicingFacts.WholeRows | src/pydna/dseq.py:647-652 | the two layout rows strip back to watson and crick, indented by the two sides of the stagger |
| SlicingFacts.WholeLinearSlice | src/pydna/dseq.py:646-659 | `d[:]` of a linear molecule gives back its strands and stagger |
| SlicingFacts.BluntLinearSlice | src/pydna/dseq.py:646-659 | `d[i:j]` of a blunt linear molecule is blunt, with watson bases `i..j` and the crick bases opposite them |
| SlicingFacts.CircularSliceInside | src/pydna/dseq.py:664-670 | on a circle, `d[s:t]` with `s < t` takes watson `s..t` and the crick bases opposite, with no stagger |
| SlicingFacts.CircularSliceAcrossOrigin | src/pydna/dseq.py:671-682 | on a circle, `d[s:t]` with `t <= s` runs through the origin on both strands |
| LinearSliceFacts.LinearSliceColumns | src/pydna/dseq.py:646-659 | for a linear molecule whose strands leave no gap and hold no whitespace, `d[i:j]` has as watson the watson bases in columns `i..j`, as crick the crick bases in those columns, as stagger the offset between the first watson column and the first crick column of the stretch, and `_data[i:j]` as its full sequence |
| SlicingFacts.CircularSlicePaired | src/pydna/dseq.py:660-682 | every slice of a fully paired circle (bounds not negative) is fully paired |
| Ligation.Ligate | src/pydna/dseq.py:1014-1052 | `a + b` fails exactly when either is circular (`TypeError`, circular) or the ends do not fit and neither operand is empty (`TypeError`, sticky ends not compatible); the result is linear |
| LigationFacts.CompatibleStagger | src/pydna/dseq.py:1041-1044 | for molecules with both strands present and no gap between them, ends that fit have the same stagger: the right stagger of `a` is the left stagger of `b` |
| LigationFacts.LigationKeepsOuterEnds | src/pydna/dseq.py:1014-1052 | for linear molecules with both strands present and no gap, whose ends fit, the ligated molecule has no gap, the left end of `a` and the right end of `b` |
| LigationFacts.LigateEmptyLeft | src/pydna/dseq.py:1044-1047 | `Dseq("") + b` gives back b's strands and stagger |
| LigationFacts.LigateEmptyRight | src/pydna/dseq.py:1044-1049 | `a + Dseq("")` gives back a's strands and stagger when `a` is not empty or its right end is blunt |
| LigationFacts.BluntLigation | src/pydna/dseq.py:1044-1045 | two blunt molecules ligate into a blunt one whose full sequence is theirs one after the other |
| Ligation.RoundsAfterError | src/pydna/dseq.py:1059-1061 | once a round of `new += self` has raised, the later rounds report the same error |
| Ligation.Multiply | src/pydna/dseq.py:1054-1062 | the loop computes `Power`: nothing for `number <= 0`, otherwise `number - 1` rounds of `+=` from a copy |
| LigationFacts.RoundsSelfCompatible | src/pydna/dseq.py:1059-1061 | each round on a linear molecule with both strands present and no gap, whose right end fits its own left end, started from such a molecule with the same right end, adds one more copy of each strand and keeps the stagger |
| LigationFacts.PowerSelfCompatible | src/pydna/dseq.py:1054-1062 | for a linear molecule with both strands present and no gap, whose right end fits its left end, `d * n` for `n >= 1` has each strand repeated `n` times and the stagger of `d` |
| LigationFacts.PowerNotPositive | src/pydna/dseq.py:1057-1058 | `d * 0` and negative powers give the empty molecule |
| Ligation.Looped | src/pydna/dseq.py:820-875 | a circular molecule comes back as it is; a linear one fails (`TypeError`) exactly when its ends do not fit; the result is circular with the same watson and no stagger, crick keeping its length |
| LigationFacts.CompatibleSelf | src/pydna/dseq.py:862-864 | the ends of one molecule fit for `looped` exactly when they fit in a ligation of the molecule to itself |
| LigationFacts.LoopStagger | src/pydna/dseq.py:862-864 | on a molecule with both strands present and no gap, ends that fit have equal staggers, so both strands have the same length |
| LigationFacts.LoopedShape | src/pydna/dseq.py:864-873 | for a linear molecule with both strands present and no gap, whose ends fit, `looped` gives a circle both of whose strands are as long as the circle |
| LigationFacts.LoopedCrick | src/pydna/dseq.py:867 | for a linear molecule whose ends fit, `looped` succeeds and crick is rotated by the stagger, `crick[-ovhg:] + crick[:-ovhg]` |
| LigationFacts.LoopedBlunt | src/pydna/dseq.py:826-837 | a blunt linear molecule closes with both strands unchanged |
| Ligation.Shifted | src/pydna/dseq.py:810-818 | a linear molecule fails with `TypeError`, an empty circle with the modulo by zero, and a shift by a multiple of the length gives the molecule back |
| LigationFacts.ShiftPieces | src/pydna/dseq.py:818 | the two pieces `d[s:]` and `d[:s]` are blunt, each holding its stretch of watson and the crick bases opposite |
| LigationFacts.ShiftJoin | src/pydna/dseq.py:818 | `d[s:] + d[:s]` is blunt, with watson rotated by `s` and crick by `len - s` |
| LigationFacts.ShiftedRotates | src/pydna/dseq.py:810-818 | `shifted(shift)` is the same circle read from `shift % len`: watson rotated left by that much and crick by the rest |
| LigationFacts.ShiftedPaired | src/pydna/dseq.py:810-818 | shifting a fully paired circle gives a fully paired circle |
| Treatments.AllowedPrefix | src/pydna/dseq.py:1068-1072 | the stuffer is the longest prefix of allowed nucleotides: every base in it is allowed, and the next one is not |
| Treatments.Stuffer | src/pydna/dseq.py:1065-1072 | the stuffer loop with its `break` computes that longest allowed prefix |
| TreatmentsFacts.FullStuffer | src/pydna/dseq.py:1068-1072 | the stuffer takes the whole protrusion exactly when every base of it is allowed |
| Treatments.FillInFivePrime | src/pydna/dseq.py:1064-1073 | crick grows at its 3' end by the stuffer opposite watson's 5' protrusion, and ovhg grows with it |
| Treatments.FillInThreePrime | src/pydna/dseq.py:1075-1084 | watson grows at its 3' end by the stuffer opposite crick's 5' protrusion |
| Treatments.FilledIn | src/pydna/dseq.py:1086-1148 | fill-in only extends the strands, ovhg grows as crick does, and an end without a 5' protrusion is left alone |
| Treatments.FillIn | src/pydna/dseq.py:1143-1148 | `fill_in` builds `FilledIn` from the given nucleotides, or from all IUPAC letters when none are given |
| TreatmentsFacts.FillInBluntsLeft | src/pydna/dseq.py:1064-1073 | fill-in blunts a protruding 5' watson end exactly when every base needed opposite it is allowed |
| TreatmentsFacts.FillInBluntsRight | src/pydna/dseq.py:1075-1084 | fill-in blunts a protruding 5' crick end exactly when every base needed opposite it is allowed |
| TreatmentsFacts.FillInCompleteLeft | src/pydna/dseq.py:1146 | with nucleotides that pair every base, the left stagger becomes `max(ovhg, 0)` |
| TreatmentsFacts.FillInCompleteRight | src/pydna/dseq.py:1147 | with nucleotides that pair every base, the right stagger becomes `max(watson_ovhg, 0)` |
| TreatmentsFacts.IupacClosed | src/pydna/dseq.py:1143-1145 | the default nucleotide set holds the partner of each of its members |
| TreatmentsFacts.FillInDefault | src/pydna/dseq.py:1143-1148 | `fill_in()` on a molecule of IUPAC letters leaves no recessed 3' end |
| TreatmentsFacts.FillInExample | src/pydna/dseq.py:1110-1126 | the docstring: `caaa`/`tttc` fills to `caaag`/`gtttc`, and `fill_in("tac")` changes nothing |
| Treatments.ThroughLastAllowed | src/pydna/dseq.py:1254-1260 | what is left after chewing back is a prefix of the strand ending in an allowed base, and nothing after it is allowed |
| Treatments.ScanBack | src/pydna/dseq.py:1254-1258 | the backward `while` loop finds the index of the last allowed base, or -1 |
| Treatments.T4PrepareLeft | src/pydna/dseq.py:1244-1253 | the left end is filled in, has its 3' protrusion removed, or is kept, by its kind |
| Treatments.T4LeftEnd | src/pydna/dseq.py:1244-1262 | the left half of `T4`: prepare, chew back crick, ovhg 0 when crick is emptied |
| Treatments.T4RightEnd | src/pydna/dseq.py:1263-1275 | the right half of `T4`: prepare watson, then chew it back |
| Treatments.T4 | src/pydna/dseq.py:1199-1276 | the method builds `T4Treated`: the left end, then the right end, treated |
| TreatmentsFacts.ThroughAllAllowed | src/pydna/dseq.py:1254-1260 | a strand of allowed bases loses nothing to the exonuclease |
| TreatmentsFacts.T4LeftComplete | src/pydna/dseq.py:1244-1262 | with nucleotides that pair every base, the left end becomes blunt and crick reaches watson's 5' end |
| TreatmentsFacts.T4RightComplete | src/pydna/dseq.py:1263-1275 | with nucleotides that pair every base, watson ends where crick starts |
| TreatmentsFacts.T4Default | src/pydna/dseq.py:1199-1276 | `T4()` with the default nucleotides makes a molecule of IUPAC letters blunt |
| TreatmentsFacts.T4Example | src/pydna/dseq.py:1225-1228 | the docstring: `gatcgatc` treated with `t` chews back to `gatcgat` on each strand, with ovhg -1 |
| Treatments.Mung | src/pydna/dseq.py:1156-1197 | the result is blunt and fully paired |
| TreatmentsFacts.MungKeepsPairedStretch | src/pydna/dseq.py:1197 | mung bean nuclease keeps, in order, exactly the watson bases that have a crick base opposite them, whatever the stagger, and the result is blunt |
| TreatmentsFacts.MungIdempotent | src/pydna/dseq.py:1197 | a second treatment changes nothing |
| Treatments.Exo1Front | src/pydna/dseq.py:1280-1285 | `n` bases go from watson's 5' end and ovhg grows by `n`; the right end is unchanged when `n` fits; `_data` and `length` are copied as they were |
| Treatments.Exo1End | src/pydna/dseq.py:1287-1291 | `n` bases go from crick's 5' end, so watson's 3' end protrudes `n` further; `_data` and `length` are copied as they were |
| Treatments.TerminalTransferase | src/pydna/dseq.py:1390-1395 | as written: both strands get the nucleotides at their 3' ends, and ovhg grows only when it is not negative |
| TreatmentsFacts.TerminalTransferaseMisplacesCrick | src/pydna/dseq.py:1390-1395 | on `ggaa` over `tt` (ovhg -2) with `c`, crick's 5' end moves, and watson's 3' protrusion does not grow |
| TreatmentsFacts.TerminalTransferaseAgrees | src/pydna/dseq.py:1392-1395 | when ovhg is not negative, the code as written and the corrected version agree |
| TreatmentsFacts.TerminalTransferaseExtendsThreePrimeEnds | src/pydna/dseq.py:1390-1395 | corrected: both 3' ends protrude further by the number of bases added, and crick's 5' end stays put |
| Cutting.CutAt | src/pydna/dseq.py:1470-1471 | the watson cut is the 0-based site, and the crick cut is `ovhg` to its left, reduced modulo the length into `[0, len)` |
| Cutting.SortCuts | src/pydna/dseq.py:1475 | `sorted` returns a permutation of the cut sites ordered by watson cut, then crick cut |
| CuttingFacts.SortedCutsUnique | src/pydna/dseq.py:1475 | when no two cut sites coincide, there is only one sorted order |
| CuttingFacts.CollectCutsAppend | src/pydna/dseq.py:1466-1473 | the loop over two lists of enzymes collects the first list's cut sites, then the second's |
| Cutting.GetCutsites | src/pydna/dseq.py:1447-1475 | fails exactly when a site is reported on an empty molecule (modulo by zero); otherwise the sorted cut sites of all enzymes |
| Cutting.Pairwise | src/pydna/dseq.py:1506 | `pairwise` pairs each element with the next |
| Cutting.CutsitePairs | src/pydna/dseq.py:1491-1506 | no cuts give no pairs; one cut on a circle pairs with itself; a linear molecule is bracketed by its two edges; on a circle the pairs start at the last cut and go round |
| Cutting.ApplyCut | src/pydna/dseq.py:1477-1489 | the fragment is linear, with the stagger of the left cut's enzyme (0 at an edge) |
| CuttingFacts.SliceOfDseq | src/pydna/dseq.py:1485 | `str(Dseq(w)[i:j])` is `w[i:j]` |
| CuttingFacts.CrickSliceOfDseq | src/pydna/dseq.py:1487 | the slice of the reverse complement at the mirrored crick cuts reads the partner of that stretch |
| CuttingFacts.PieceOfApplyCut | src/pydna/dseq.py:1477-1489 | on `Dseq(w)`, the fragment has watson between the watson cuts and crick opposite the stretch between the crick cuts |
| CuttingFacts.RightEndOfPiece | src/pydna/dseq.py:963-1008 | a fragment's right end is a 5' crick protrusion when watson stops first, and a 3' watson protrusion when crick stops first |
| CuttingFacts.LeftEndOfPiece | src/pydna/dseq.py:913-961 | a fragment's left end is a 5' watson protrusion when watson starts first, and a 3' crick protrusion when crick starts first |
| CuttingFacts.PiecesFit | src/pydna/dseq.py:1041-1044 | neighbouring fragments of one molecule have ends that pass the ligation test |
| CuttingFacts.JoinAtCut | src/pydna/dseq.py:1044-1045 | neighbouring fragments ligate into the fragment spanning both |
| CuttingFacts.CircularSliceWhole | src/pydna/dseq.py:660-682 | on a circle, `d[s:s]` reads the whole circle starting at `s` |
| CuttingFacts.OneCutPair | src/pydna/dseq.py:1494-1495 | a circle cut once gives one fragment, cut from the site to itself |
| CuttingFacts.LinearisedCircle | src/pydna/dseq.py:1477-1489 | one cut opens a circular `Dseq(w)` into one linear fragment: watson is `w` read round from the watson cut, crick is the partner of `w` read round from the crick cut, and the stagger is the enzyme's |
| Cutting.Fragments | src/pydna/dseq.py:1443-1445 | one linear fragment per pair of cut sites |
| Cutting.Cut | src/pydna/dseq.py:1397-1445 | `cut` fails exactly when `get_cutsites` does, and otherwise gives the fragments of the sorted cut sites |
| CuttingFacts.FragmentIsPiece | src/pydna/dseq.py:1443-1445 | each fragment of `Dseq(w)` is the piece between two neighbouring cut sites |
| CuttingFacts.LigatePrefix | src/pydna/dseq.py:1014-1052 | ligating the first `k` fragments gives the piece from the start to the `k`-th cut |
| CuttingFacts.CutThenLigate | src/pydna/dseq.py:1397-1445 | cutting `Dseq(w)` and ligating the fragments in order gives back a linear molecule with no stagger, `w` paired with its reverse complement, as `Dseq(w)` is |
| CuttingFacts.EnzymeOrderIrrelevant | src/pydna/dseq.py:1431-1432 | `cut(EcoRI, BamHI) == cut(BamHI, EcoRI)`: the same cut sites either way, and the same sorted sites and fragments when no two sites coincide |
| CuttingExamples.DoubleDigestSites | src/pydna/dseq.py:1431-1432 | the docstring's two enzymes, in either order, give the same two sorted cut sites |
| CuttingExamples.BamHIDigest | src/pydna/dseq.py:1424-1431 | the docstring's BamHI digest: `g` over `cctag`, and `gatccnnngaattc` over `gnnncttaag` |
| CuttingExamples.DoubleDigestRejoins | src/pydna/dseq.py:1433-1438 | `a + b + c` after the double digest gives the molecule back |

## Left out

- The annealing search that `__init__` runs when crick is given without
  ovhg (`_common_sub_strings`) is outside this model. `Init` takes its
  outcome as a parameter: the stagger it found, or none.
- `Init`: for that annealing branch the contract does not relate `_data`
  to `quick`'s formula. The code builds `_data` by merging the two padded
  rows.
- `_pretty_str` and the ASCII `bytes` encoding of `_data` are not
  modelled. Strands and `_data` are character sequences, and `_data` is
  compared as text.
- The complement table is written out in `Nucleotides.Complement`, since
  `pydna.utils` is not part of this model.
- `mw`, `find`, `transcribe`, `translate`, `seguid`, `cas9` and the cutter
  queries (`no_cutters`, `unique_cutters`, `twice_cutters`, `n_cutters`,
  `cutters`) are left out. They are not part of this model's core, and
  they call Biopython.
- `tolinear` is left out: it is deprecated, and the source marks it
  `pragma: no cover`.
- `__repr__` is modelled only as the two strand lines (`Picture`). The
  `Dseq(-n)` header and the shortened form of long molecules are left out.
- Enzyme recognition (`e.search`) is left out. An `Enzyme` carries the
  1-based sites the search reports on the molecule.
- Passing a `RestrictionBatch`, and `_flatten` of nested enzyme lists, are
  left out. Enzymes come as one flat sequence.
- SortCuts: ties on both cut positions keep the order the cut sites were
  collected in. The code compares the enzyme objects on such a tie.
- FromRepresentation: takes the text already split into lines. The
  `splitlines()` call is not modelled, so its line-break rules (`\r\n`,
  `\v`, `\x1c` and the other separators) are not captured.
- `IsSpace`, `LowerChar` and `UpperChar` follow ASCII only. Python's
  `str.strip`, `lower` and `upper` act on all of Unicode, so the model does
  not capture non-ASCII whitespace or non-ASCII case changes.
- `__getitem__` is modelled only with step 1.
- LinearSlice and GetItem: their own contracts state only the shape of the
  result. What a linear slice holds is stated by `LinearSliceColumns`.
- LinearSliceColumns: stated only for strands that leave no gap and hold no
  whitespace at all, since `strip()` would also remove whitespace that a
  slice exposes at its ends.
- ApplyCut: for a staggered linear molecule, `str()` of the slices fills
  in the bases opposite single-stranded stretches, as the TODO at
  src/pydna/dseq.py:1482-1483 says. Fragment contents are stated only for
  a linear `Dseq(w)` (`PieceOfApplyCut`) and for a circle cut once
  (`LinearisedCircle`).
- ApplyCut: for a circle cut more than once, the fragments' contents are
  not stated; only their number and stagger are.
- CircularSlicePaired: negative bounds on a circular slice are not covered.
- RepresentationRoundTrip: stated only for strands that are non-empty and
  have no whitespace at either end, because `strip()` would remove it.
- WholeLinearSlice: stated only for strands that are non-empty and have no
  whitespace at either end, for the same reason.
- `__mul__` with a non-integer raises a `TypeError`; the model's integer
  parameter rules this out.
- `__eq__` with an object that has no strands returns `False`; the model's
  types rule this out.
- `__add__` copies an operand with `copy.copy` when the other is empty. The
  model returns the operand itself, so object identity is not captured.
- `reverse_complement(inplace=...)`: the source ignores the flag, and the
  model omits it.
- EndsSwapUnderReverseComplement: stated only for molecules with both
  strands present. `five_prime_end` has branches for a lone strand
  (src/pydna/dseq.py:948-951) and `three_prime_end` has none
  (src/pydna/dseq.py:997-1008), so for a lone strand the two ends do not
  swap under `reverse_complement`.

## Findings

| source | as written | input that shows it | evidently intended | confidence | as-written member | corrected member |
|---|---|---|---|---|---|---|
| src/pydna/dseq.py:1390-1395 | `terminal_transferase` adds the nucleotides to the 3' end of both strands, but grows `ovhg` only when it is not negative | `Dseq("ggaa", "tt", ovhg=-2).terminal_transferase("c")`: crick's 5' end moves one place right, so `tt` no longer sits opposite `aa`, and watson's 3' protrusion does not grow | crick's new bases go to the left of crick, where its 3' end is, so `ovhg` always grows by `len(nucleotides)` and both 3' ends protrude further | medium, not executed | TreatmentsFacts.TerminalTransferaseMisplacesCrick | TreatmentsFacts.TerminalTransferaseExtendsThreePrimeEnds |
