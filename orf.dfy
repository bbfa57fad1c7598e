/**
 * The open-reading-frame scanner of the `orf` tool: for every "ATG" start
 * codon of a (already upper-cased) nucleotide string, the span up to and
 * including the first in-frame stop codon.
 */
module Orf {

  datatype Option<T> = None | Some(value: T)

  /** A half-open span [start, end) of one sequence; the Go struct `orf`. */
  datatype Orf = Orf(start: int, end: int)

  /** The codon at offset i is the start codon "ATG". */
  predicate IsStartCodon(s: seq<char>, i: int) {
    0 <= i && i + 3 <= |s| && s[i..i + 3] == "ATG"
  }

  /** The codon at offset j is one of the stop codons "TAG", "TAA", "TGA". */
  predicate IsStopCodon(s: seq<char>, j: int) {
    0 <= j && j + 3 <= |s| && (s[j..j + 3] == "TAG" || s[j..j + 3] == "TAA" || s[j..j + 3] == "TGA")
  }

  /** Offset j lies in the reading frame that starts at offset i. */
  predicate InFrame(i: int, j: int) {
    i <= j && (j - i) % 3 == 0
  }

  /** Some stop codon lies in the reading frame that starts at offset i. */
  ghost predicate HasInFrameStop(s: seq<char>, i: int) {
    exists k :: InFrame(i, k) && IsStopCodon(s, k)
  }

  /**
   * What `findAll` promises of each reported span: a start codon at `start`,
   * a stop codon ending at `end`, in frame, and no earlier stop in that frame.
   */
  ghost predicate IsOrfOf(s: seq<char>, o: Orf) {
    && IsStartCodon(s, o.start)
    && InFrame(o.start, o.end - 3)
    && IsStopCodon(s, o.end - 3)
    && forall m :: InFrame(o.start, m) && m < o.end - 3 ==> !IsStopCodon(s, m)
  }

  /** The inner scan: the first stop codon at j, j + 3, j + 6, ... that fits in s. */
  function FirstStop(s: seq<char>, j: nat): Option<int>
    decreases |s| - j
  {
    if j + 3 > |s| then None
    else if IsStopCodon(s, j) then Some(j)
    else FirstStop(s, j + 3)
  }

  /** The span reported for offset i, if any: at most one per start codon. */
  function StartingAt(s: seq<char>, i: nat): seq<Orf> {
    if IsStartCodon(s, i) && FirstStop(s, i).Some? then [Orf(i, FirstStop(s, i).value + 3)] else []
  }

  /** The spans reported for the offsets below n, by increasing start. */
  function OrfsBefore(s: seq<char>, n: nat): seq<Orf> {
    if n == 0 then [] else OrfsBefore(s, n - 1) + StartingAt(s, n - 1)
  }

  /** What `findAll` returns for s. */
  function Orfs(s: seq<char>): seq<Orf> {
    OrfsBefore(s, if |s| < 3 then 0 else |s| - 2)
  }

  /**
   * The inner loop of `findAll`: walks the frame that starts at offset i,
   * codon by codon, and stops at the first stop codon; the `found` flag plays
   * the part of the source's labelled `continue START`.
   */
  method ScanFrame(s: seq<char>, i: nat) returns (found: bool, j: int)
    ensures found ==> FirstStop(s, i) == Some(j)
    ensures !found ==> FirstStop(s, i) == None
  {
    found := false;
    j := i;
    while j < |s| - 2 && !found
      invariant i <= j && InFrame(i, j)
      invariant !found ==> FirstStop(s, i) == FirstStop(s, j)
      invariant found ==> FirstStop(s, i) == Some(j)
      decreases !found, |s| - j
    {
      var cod := s[j..j + 3];
      if cod == "TAG" || cod == "TAA" || cod == "TGA" {
        found := true;
      } else {
        j := j + 3;
      }
    }
  }

  /** `findAll`: the outer loop tries every offset and scans the frame of each start codon. */
  method FindAll(s: seq<char>) returns (orfs: seq<Orf>)
    ensures orfs == Orfs(s)
  {
    orfs := [];
    var i := 0;
    while i < |s| - 2
      invariant 0 <= i <= if |s| < 3 then 0 else |s| - 2
      invariant orfs == OrfsBefore(s, i)
    {
      if s[i..i + 3] == "ATG" {
        var found, j := ScanFrame(s, i);
        if found {
          orfs := orfs + [Orf(i, j + 3)];
        }
      }
      i := i + 1;
    }
  }

  // ---------------------------------------------------------------------------
  // Properties of the specification

  /** A start codon is never a stop codon. */
  lemma StartIsNotStop(s: seq<char>, i: int)
    requires IsStartCodon(s, i)
    ensures !IsStopCodon(s, i)
  {
    assert s[i..i + 3][0] == 'A';
  }

  /**
   * The inner scan finds the nearest stop codon of the frame, and finds none
   * only when the frame has none.
   */
  lemma {:induction false} FirstStopSpec(s: seq<char>, j: nat)
    decreases |s| - j
    ensures FirstStop(s, j).Some? ==> InFrame(j, FirstStop(s, j).value) && IsStopCodon(s, FirstStop(s, j).value)
    ensures FirstStop(s, j).Some? ==>
      forall m :: InFrame(j, m) && m < FirstStop(s, j).value ==> !IsStopCodon(s, m)
    ensures FirstStop(s, j).None? <==> !HasInFrameStop(s, j)
  {
    if j + 3 <= |s| && !IsStopCodon(s, j) {
      FirstStopSpec(s, j + 3);
      assert FirstStop(s, j) == FirstStop(s, j + 3);
      forall m | InFrame(j, m) && m != j
        ensures InFrame(j + 3, m)
      {
      }
      if HasInFrameStop(s, j) {
        var k :| InFrame(j, k) && IsStopCodon(s, k);
        assert InFrame(j + 3, k);
      }
      if HasInFrameStop(s, j + 3) {
        var k :| InFrame(j + 3, k) && IsStopCodon(s, k);
        assert InFrame(j, k);
      }
    }
  }

  /** FirstStop finds exactly the stop codon that IsOrfOf describes. */
  lemma FirstStopIs(s: seq<char>, j: nat, k: int)
    ensures FirstStop(s, j) == Some(k) <==>
      InFrame(j, k) && IsStopCodon(s, k) && forall m :: InFrame(j, m) && m < k ==> !IsStopCodon(s, m)
  {
    FirstStopSpec(s, j);
    if InFrame(j, k) && IsStopCodon(s, k) && forall m :: InFrame(j, m) && m < k ==> !IsStopCodon(s, m) {
      assert HasInFrameStop(s, j);
      var r := FirstStop(s, j).value;
      assert !(r < k);
      assert !(k < r);
    }
  }

  /** Membership in OrfsBefore, span by span. */
  lemma {:induction false} OrfsBeforeMembers(s: seq<char>, n: nat, o: Orf)
    ensures o in OrfsBefore(s, n) <==>
      0 <= o.start < n && IsStartCodon(s, o.start) && FirstStop(s, o.start) == Some(o.end - 3)
  {
    if n > 0 {
      OrfsBeforeMembers(s, n - 1, o);
      assert OrfsBefore(s, n) == OrfsBefore(s, n - 1) + StartingAt(s, n - 1);
      assert o in StartingAt(s, n - 1) <==>
        o.start == n - 1 && IsStartCodon(s, o.start) && FirstStop(s, o.start) == Some(o.end - 3);
    }
  }

  /** Starts in OrfsBefore(s, n) are below n and strictly increasing. */
  lemma {:induction false} OrfsBeforeIncreasing(s: seq<char>, n: nat)
    ensures forall k :: 0 <= k < |OrfsBefore(s, n)| ==> OrfsBefore(s, n)[k].start < n
    ensures forall a, b :: 0 <= a < b < |OrfsBefore(s, n)| ==> OrfsBefore(s, n)[a].start < OrfsBefore(s, n)[b].start
  {
    if n > 0 {
      OrfsBeforeIncreasing(s, n - 1);
    }
  }

  /** Membership in Orfs(s), span by span. */
  lemma OrfsMembers(s: seq<char>, o: Orf)
    ensures o in Orfs(s) <==> IsStartCodon(s, o.start) && FirstStop(s, o.start) == Some(o.end - 3)
  {
    OrfsBeforeMembers(s, if |s| < 3 then 0 else |s| - 2, o);
  }

  /**
   * Every reported span starts on "ATG", ends on a stop codon, is in frame,
   * lies inside s, is at least two codons long, and ends at the first stop.
   */
  lemma OrfsSound(s: seq<char>)
    ensures forall o :: o in Orfs(s) ==>
      && IsStartCodon(s, o.start)
      && IsStopCodon(s, o.end - 3)
      && 0 <= o.start < o.end <= |s|
      && (o.end - o.start) % 3 == 0
      && o.end - o.start >= 6
      && forall m :: InFrame(o.start, m) && m < o.end - 3 ==> !IsStopCodon(s, m)
  {
    forall o | o in Orfs(s)
      ensures IsStartCodon(s, o.start) && IsStopCodon(s, o.end - 3) && o.end - o.start >= 6
      ensures InFrame(o.start, o.end - 3)
      ensures forall m :: InFrame(o.start, m) && m < o.end - 3 ==> !IsStopCodon(s, m)
    {
      OrfsMembers(s, o);
      FirstStopSpec(s, o.start);
      StartIsNotStop(s, o.start);
    }
  }

  /** A span is reported exactly when it is an ORF of s in the sense of IsOrfOf. */
  lemma OrfsExact(s: seq<char>, o: Orf)
    ensures o in Orfs(s) <==> IsOrfOf(s, o)
  {
    OrfsMembers(s, o);
    if IsStartCodon(s, o.start) {
      FirstStopIs(s, o.start, o.end - 3);
    }
  }

  /** Reported spans come out by strictly increasing start offset. */
  lemma OrfsIncreasing(s: seq<char>)
    ensures forall a, b :: 0 <= a < b < |Orfs(s)| ==> Orfs(s)[a].start < Orfs(s)[b].start
  {
    OrfsBeforeIncreasing(s, if |s| < 3 then 0 else |s| - 2);
  }

  /**
   * A start codon with an in-frame stop somewhere downstream yields exactly one
   * span; a start codon without one, and an offset without a start codon, yield none.
   */
  lemma OneOrfPerStart(s: seq<char>, i: int)
    ensures IsStartCodon(s, i) && HasInFrameStop(s, i) ==>
      exists n :: 0 <= n < |Orfs(s)| && Orfs(s)[n].start == i &&
        forall m :: 0 <= m < |Orfs(s)| && Orfs(s)[m].start == i ==> m == n
    ensures !(IsStartCodon(s, i) && HasInFrameStop(s, i)) ==>
      forall o :: o in Orfs(s) ==> o.start != i
  {
    var r := Orfs(s);
    OrfsIncreasing(s);
    if IsStartCodon(s, i) && HasInFrameStop(s, i) {
      FirstStopSpec(s, i);
      var o := Orf(i, FirstStop(s, i).value + 3);
      OrfsMembers(s, o);
      var n :| 0 <= n < |r| && r[n] == o;
      assert forall m :: 0 <= m < |r| && r[m].start == i ==> m == n;
    } else {
      forall o | o in r
        ensures o.start != i
      {
        OrfsMembers(s, o);
        FirstStopSpec(s, o.start);
      }
    }
  }

  /** A sequence shorter than one codon, or without any "ATG", has no ORFs. */
  lemma NoStartNoOrfs(s: seq<char>)
    requires |s| < 3 || forall i :: !IsStartCodon(s, i)
    ensures Orfs(s) == []
  {
    if Orfs(s) != [] {
      OrfsMembers(s, Orfs(s)[0]);
    }
  }

  /** The codon predicates, letter by letter. */
  lemma CodonLetters(s: seq<char>, i: int)
    ensures IsStartCodon(s, i) <==> 0 <= i && i + 3 <= |s| && s[i] == 'A' && s[i + 1] == 'T' && s[i + 2] == 'G'
    ensures IsStopCodon(s, i) <==> (0 <= i && i + 3 <= |s| && s[i] == 'T' &&
      ((s[i + 1] == 'A' && (s[i + 2] == 'G' || s[i + 2] == 'A')) || (s[i + 1] == 'G' && s[i + 2] == 'A')))
  {
    if 0 <= i && i + 3 <= |s| {
      assert s[i..i + 3] == [s[i], s[i + 1], s[i + 2]];
    }
  }

  /** "ATGAAATAG" holds one ORF: ATG, AAA, TAG. */
  lemma ExampleSingle()
    ensures Orfs("ATGAAATAG") == [Orf(0, 9)]
  {
    var s := "ATGAAATAG";
    forall i | 0 <= i < 7 ensures IsStartCodon(s, i) <==> i == 0 ensures IsStopCodon(s, i) <==> i == 1 || i == 6 {
      CodonLetters(s, i);
    }
    assert FirstStop(s, 6) == Some(6);
    assert FirstStop(s, 3) == Some(6);
    assert FirstStop(s, 0) == Some(6);
    assert OrfsBefore(s, 1) == [Orf(0, 9)];
    assert OrfsBefore(s, 4) == [Orf(0, 9)];
    assert OrfsBefore(s, 7) == [Orf(0, 9)];
  }

  /** In "ATGATGTAG" both start codons reach the same stop codon, and both spans are kept. */
  lemma ExampleNested()
    ensures Orfs("ATGATGTAG") == [Orf(0, 9), Orf(3, 9)]
  {
    var s := "ATGATGTAG";
    forall i | 0 <= i < 7 ensures IsStartCodon(s, i) <==> (i == 0 || i == 3) {
      CodonLetters(s, i);
    }
    CodonLetters(s, 0);
    CodonLetters(s, 3);
    CodonLetters(s, 6);
    assert FirstStop(s, 6) == Some(6);
    assert FirstStop(s, 3) == Some(6);
    assert FirstStop(s, 0) == Some(6);
    assert OrfsBefore(s, 1) == [Orf(0, 9)];
    assert OrfsBefore(s, 3) == [Orf(0, 9)];
    assert OrfsBefore(s, 4) == [Orf(0, 9), Orf(3, 9)];
    assert OrfsBefore(s, 7) == [Orf(0, 9), Orf(3, 9)];
  }

  /** "GGGCCC" has no start codon and "ATGCCC" no stop codon: neither has an ORF. */
  lemma ExampleEmpty()
    ensures Orfs("GGGCCC") == []
    ensures Orfs("ATGCCC") == []
  {
    var s := "GGGCCC";
    forall i ensures !IsStartCodon(s, i) {
      CodonLetters(s, i);
    }
    NoStartNoOrfs(s);
    s := "ATGCCC";
    forall i | 0 <= i < 4 ensures IsStartCodon(s, i) <==> i == 0 ensures !IsStopCodon(s, i) {
      CodonLetters(s, i);
    }
    assert FirstStop(s, 3) == None;
    assert FirstStop(s, 0) == None;
    assert OrfsBefore(s, 1) == [];
    assert OrfsBefore(s, 4) == [];
  }
}
