# bioutils core in Dafny

This project models the computational core of two small sequence tools from
the `bioutils` collection and proves properties about them.

* **orf** (`orf.dfy`, module `Orf`): `findAll` scans a sequence for open
  reading frames. At every index `i` where the codon `ATG` starts, it walks
  forward in steps of three to the first stop codon (`TAG`, `TAA` or `TGA`).
  If it finds one at `j`, it records the frame `[i, j+3)`. The Go code's
  labelled `continue START` becomes a `found` flag that ends the inner loop.
  `FindAll` is proved equal to the specification function `Orfs`. The lemmas
  then show that `Orfs` holds exactly the frames that start with a start
  codon and end at the first in-frame stop codon after it. They also show the
  frames come in increasing order of start, with one frame per start codon
  that has a stop, and they prove the result for four concrete inputs.
* **nt-composition** (`nt_composition.dfy`, module `NtComposition`): this is
  the part of `main` between reading and printing. It accumulates a
  `count[Key{pos, letter}]` map, the list of `letters` seen and the greatest
  index `maxPos`, one sequence at a time. It then sorts the letters and, for
  every position `0..maxPos`, emits one row per letter with its count and the
  position's total count. The accumulator is the class `CompositionTable`,
  whose fields `AddSequence` and `Emit` update in place. Its invariant
  `Valid()` ties the fields to the sequences read so far (`Seen`):
  * every count is the number of sequences with that (upper-cased) letter at
    that position;
  * the letters are distinct and are exactly the symbols seen;
  * `maxPos` is the greatest index of any sequence, or 0.

  `Composition` runs the whole accumulation and emission over a list of
  sequences. Its contract states what every printed row means:
  * a row's count is the number of sequences with that letter at that
    position;
  * `total_count` is the number of sequences long enough to reach that
    position;
  * rows are ordered by position and then by letter;
  * there are `(maxPos+1) × |letters|` rows;
  * no rows come out exactly when every sequence is empty.

Go's map lookup of a missing key yields 0; the model writes this out as
`Lookup`. `sort.Strings` on the one-symbol strings is modelled as an
insertion sort on characters (`SortStrings`), proved to be sorted and a
permutation of its input.

## Model

| member | source | states |
|---|---|---|
| Orf.ScanFrame | orf/src/orf.go:66-72 | the inner loop from a start offset `i` ends with `found` and `j` exactly when the first in-frame stop codon is at `j`, and without `found` exactly when the frame has no stop codon |
| Orf.FindAll | orf/src/orf.go:62-76 | the ORFs found are exactly `Orfs(s)`, the start-by-start list of frames from each `ATG` to its first in-frame stop codon |
| Orf.FirstStopSpec | orf/src/orf.go:66-72 | the inner scan from `j` stops at an in-frame stop codon with no earlier in-frame stop, and finds nothing exactly when no in-frame stop exists |
| Orf.FirstStopIs | orf/src/orf.go:66-72 | the inner scan returns `k` if and only if `k` is the first in-frame stop codon at or after `j` |
| Orf.OrfsBeforeMembers | orf/src/orf.go:64-73 | after the outer loop has handled starts below `n`, an ORF has been recorded iff its start is below `n`, is `ATG`, and its end is 3 past the first in-frame stop |
| Orf.OrfsBeforeIncreasing | orf/src/orf.go:64-73 | the ORFs recorded before start `n` all start below `n`, in strictly increasing order |
| Orf.OrfsMembers | orf/src/orf.go:62-76 | an ORF is in the result iff its start is a start codon whose first in-frame stop codon begins at end-3 |
| Orf.OrfsSound | orf/src/orf.go:65-70 | every ORF begins with `ATG`, ends with a stop codon, lies inside the sequence, has a length that is a multiple of 3 and at least 6, and has no earlier in-frame stop |
| Orf.OrfsExact | orf/src/orf.go:62-76 | membership in the result is equivalent to the independent definition `IsOrfOf` of an open reading frame |
| Orf.OrfsIncreasing | orf/src/orf.go:64-69 | the ORFs are listed with strictly increasing starts, so no start occurs twice |
| Orf.OneOrfPerStart | orf/src/orf.go:65-71 | a start codon with an in-frame stop yields exactly one ORF; any other index yields none |
| Orf.NoStartNoOrfs | orf/src/orf.go:64-65 | a sequence shorter than 3, or one with no `ATG`, yields no ORFs |
| Orf.StartIsNotStop | orf/src/orf.go:65-68 | the start codon is never a stop codon, so the scan from `i` never stops at `i` itself |
| Orf.CodonLetters | orf/src/orf.go:65-68 | the codon tests compare exactly three letters at the given index |
| Orf.ExampleSingle | orf/src/orf.go:62-76 | `ATGAAATAG` has the single ORF [0, 9); the out-of-frame `TGA` at index 1 is ignored |
| Orf.ExampleNested | orf/src/orf.go:62-76 | `ATGATGTAG` has the ORFs [0, 9) and [3, 9), which share one stop codon |
| Orf.ExampleEmpty | orf/src/orf.go:62-76 | `GGGCCC` (no start codon) and `ATGCCC` (a start codon with no stop after it) have no ORFs |
| NtComposition.Upper | nt-composition/src/nt-composition.go:66 | upper-casing leaves no lower-case ASCII letter, changes nothing else, and maps `a`-`z` onto `A`-`Z` |
| NtComposition.UpperString | nt-composition/src/nt-composition.go:64-67 | `seqString` has the sequence's length, and each symbol is the upper-cased symbol at that index |
| NtComposition.StringInSlice | nt-composition/src/nt-composition.go:94-101 | returns true exactly when the symbol is in the list |
| NtComposition.CountSymbols | nt-composition/src/nt-composition.go:69-78 | each `count[Key{i, s}]` grows by one where the sequence has `s` at `i`; new letters are appended without duplicates and the old list stays a prefix; `maxPos` becomes the larger of itself and the last index |
| NtComposition.Insert | nt-composition/src/nt-composition.go:80 | inserting into a sorted list keeps it sorted and adds exactly that one element |
| NtComposition.SortStrings | nt-composition/src/nt-composition.go:80 | the letters come out sorted and are a permutation of the input |
| NtComposition.SortedDistinct | nt-composition/src/nt-composition.go:72-80 | sorting a duplicate-free letter list gives a strictly increasing list of the same letters |
| NtComposition.DistinctCard | nt-composition/src/nt-composition.go:72-74 | a duplicate-free letter list has as many entries as distinct letters |
| NtComposition.PositionRows | nt-composition/src/nt-composition.go:84-90 | one position's rows: one row per letter, in letter order, with its count and the sum of all letters' counts at that position |
| NtComposition.TableRowsUpTo | nt-composition/src/nt-composition.go:83-91 | the output loop emits the rows of positions `0..maxPos` in order, and none when `maxPos` is negative |
| NtComposition.CompositionTable.constructor | nt-composition/src/nt-composition.go:52-54 | starts with `maxPos` 0, no letters and an empty map, which meets the invariant for no sequences read |
| NtComposition.CompositionTable.AddSequence | nt-composition/src/nt-composition.go:64-78 | keeps the invariant after one more sequence: counts +1 per (index, upper-cased symbol), `maxPos` is the larger of itself and the last index, letters extended by the new symbols |
| NtComposition.CompositionTable.Emit | nt-composition/src/nt-composition.go:80-91 | sorts the letters without changing them as a set; every row's count is the occurrences of its letter at its position, and its total is the number of sequences reaching that position; `(maxPos+1)·|letters|` rows ordered by position then letter |
| NtComposition.Accumulate | nt-composition/src/nt-composition.go:51-79 | the read loop leaves a fresh table whose invariant holds for exactly the input sequences, in order |
| NtComposition.Composition | nt-composition/src/nt-composition.go:51-91 | over all input sequences: row count, meaning of each row's count and total, order, and "no rows iff every sequence is empty" |
| NtComposition.TableLength | nt-composition/src/nt-composition.go:83-91 | `n` positions over `|letters|` letters give `n·|letters|` rows |
| NtComposition.TableRows | nt-composition/src/nt-composition.go:83-91 | every emitted row has a position below `n`, a known letter, the count for its key and its position's total |
| NtComposition.TableCovers | nt-composition/src/nt-composition.go:83-91 | every (position, letter) pair below `n` is emitted |
| NtComposition.TableOrdered | nt-composition/src/nt-composition.go:80-91 | with sorted letters, rows are ordered by position and then by letter |
| NtComposition.OutputMeaning | nt-composition/src/nt-composition.go:80-91 | the emitted table has `(maxPos+1)·|letters|` rows; each row's count is its letter's occurrences at its position and its total is the number of sequences reaching that position; rows are ordered, and there are none exactly when every sequence is empty |
| NtComposition.TableMeaning | nt-composition/src/nt-composition.go:80-91 | when the map counts the sequences read, each row's count is that letter's occurrences at that position and its total is the number of sequences reaching that position |
| NtComposition.PosTotalIsLetterTotal | nt-composition/src/nt-composition.go:84-87 | the summed map counts at a position equal the summed occurrences of the listed letters |
| NtComposition.LetterTotalStep | nt-composition/src/nt-composition.go:69-71 | one more sequence adds to the summed occurrences at a position its one symbol there, if that symbol is listed |
| NtComposition.LetterTotalIsNumLonger | nt-composition/src/nt-composition.go:84-87 | when every seen letter is listed once, `totalCnt` is the number of sequences longer than the position |
| NtComposition.LetterTotalOfNothing | nt-composition/src/nt-composition.go:84-87 | with no sequences read, every position's total is 0 |
| NtComposition.OccurrencesAtMostLonger | nt-composition/src/nt-composition.go:84-89 | a letter's count at a position never exceeds that position's total count |
| NtComposition.AccumulateOne | nt-composition/src/nt-composition.go:64-78 | reading one more sequence adds its upper-cased symbols to the counts and its symbols to the letters, and raises `maxPos` to its last index when that is larger |
| NtComposition.AccumulateAppend | nt-composition/src/nt-composition.go:55-79 | the accumulation over two concatenated inputs is the sum of counts, union of letters and maximum of `maxPos` |
| NtComposition.AccumulateTwice | nt-composition/src/nt-composition.go:55-79 | reading the same input twice doubles every count and total and leaves the letters and `maxPos` unchanged |
| NtComposition.MaxPosIsLargestIndex | nt-composition/src/nt-composition.go:52-77 | `maxPos` is at least every sequence's last index and is either 0 or one sequence's last index |
| NtComposition.NoLettersIffAllEmpty | nt-composition/src/nt-composition.go:69-74 | no letter is discovered exactly when every sequence is empty |
| NtComposition.DistinctMultiplicity | nt-composition/src/nt-composition.go:72-74 | in a duplicate-free list every letter occurs once or not at all |
| NtComposition.RepeatCounts | nt-composition/src/nt-composition.go:72-74 | a letter found at two indices occurs at least twice |
| NtComposition.InsertSorted | nt-composition/src/nt-composition.go:80 | placing an element after every smaller one and before the next keeps a sorted list sorted |

## Left out

- Reading input, for both tools: FASTA and FASTQ parsing, file opening, standard input, and command-line parsing are left out. Each tool's core takes the sequences as a parameter.
- Printing is left out: `main` in orf prints BED lines, and nt-composition prints a header and tab-separated rows. `FindAll` and `Composition` return the values those lines print.
- Error paths on input are left out: `panic` and `log.Fatal` fire only on reading or option errors, which are not part of this model.
- orf `main` upper-cases each record before calling `findAll` (orf/src/orf.go:51). That step is not modelled: `FindAll` takes the sequence as the scanner sees it.
- NtComposition.Upper: only ASCII `a`-`z` is upper-cased. Go's `strings.ToUpper` also maps other Unicode letters, and can change the byte length of non-ASCII symbols. `seqString[i]` indexes bytes, so counts for non-ASCII symbols are not modelled.
- NtComposition.CompositionTable.AddSequence: the order in which new letters are appended (first occurrence in the sequence) is not stated. The contract says only that the old list stays a prefix, that no duplicate is added, and which letters are added. The order is sorted away before any row is emitted.
- NtComposition.CountSymbols: the same gap as `AddSequence`. The order of the appended letters is not stated, only the prefix, the absence of duplicates and the set of letters.
- Orf.FindAll: each `char` of `s` stands for one byte of the Go string, because `findAll` indexes and slices bytes (orf/src/orf.go:64-67). `Start` and `End` are therefore byte offsets. Read as Unicode characters, the model agrees with the Go code only on ASCII input. A multi-byte symbol before a frame shifts Go's offsets but not the model's.
- Symbols are modelled as single characters rather than one-symbol Go strings. `sort.Strings` on one-symbol ASCII strings orders the same way as the characters.
- Integer width: the counts and `maxPos` are Go `int` values; the model uses unbounded integers, because no realistic input reaches 2^63 symbols.
- The labelled `continue START` in `findAll` is modelled by a `found` flag that ends the inner loop. The recorded ORFs and their order are the same.
