/**
 * The per-position nucleotide composition of the `nt-composition` tool: the
 * sequences of a FASTA/FASTQ file are read one at a time, every symbol is
 * upper-cased and counted under its (position, symbol) key, and a table with
 * one row per position and discovered symbol is emitted at the end.
 */
module NtComposition {

  /** A cell of the composition table; the Go struct `Key` (Pos, Let). */
  datatype Key = Key(pos: int, letter: char)

  /** One output line: `pos`, `nt`, `count`, `total_count`. */
  datatype Row = Row(pos: int, letter: char, count: int, totalCount: int)

  /** ASCII upper-casing of one symbol, as `strings.ToUpper` does for ASCII input. */
  function Upper(c: char): (r: char)
    ensures !('a' <= r <= 'z')
    ensures !('a' <= c <= 'z') ==> r == c
    ensures 'a' <= c <= 'z' ==> 'A' <= r <= 'Z' && r as int - 'A' as int == c as int - 'a' as int
  {
    if 'a' <= c <= 'z' then (c as int - 'a' as int + 'A' as int) as char else c
  }

  /** A map read in Go: a missing key reads as the zero value. */
  function Lookup(count: map<Key, int>, k: Key): int {
    if k in count then count[k] else 0
  }

  function Max(a: int, b: int): int {
    if a < b then b else a
  }

  predicate NoDups(s: seq<char>) {
    forall a, b :: 0 <= a < b < |s| ==> s[a] != s[b]
  }

  predicate Sorted(s: seq<char>) {
    forall a, b :: 0 <= a < b < |s| ==> s[a] <= s[b]
  }

  predicate StrictlySorted(s: seq<char>) {
    forall a, b :: 0 <= a < b < |s| ==> s[a] < s[b]
  }

  ghost function Elems(s: seq<char>): set<char> {
    set c | c in s
  }

  /** Rows come out by position, then by symbol. */
  predicate RowBefore(a: Row, b: Row) {
    a.pos < b.pos || (a.pos == b.pos && a.letter < b.letter)
  }

  // ---------------------------------------------------------------------------
  // What the accumulation computes, as functions of the sequences read so far

  /** The upper-cased symbols of one sequence. */
  ghost function Symbols(sq: seq<char>): set<char> {
    set m | 0 <= m < |sq| :: Upper(sq[m])
  }

  /** The upper-cased symbols of all sequences. */
  ghost function SeenLetters(seqs: seq<seq<char>>): set<char> {
    if seqs == [] then {} else SeenLetters(seqs[..|seqs| - 1]) + Symbols(seqs[|seqs| - 1])
  }

  /** How many sequences hold symbol c, after upper-casing, at position pos. */
  ghost function Occurrences(seqs: seq<seq<char>>, pos: int, c: char): (n: nat)
    ensures n <= |seqs|
  {
    if seqs == [] then 0
    else
      var last := seqs[|seqs| - 1];
      Occurrences(seqs[..|seqs| - 1], pos, c) + if 0 <= pos < |last| && Upper(last[pos]) == c then 1 else 0
  }

  /** How many sequences are longer than pos, that is, have a symbol at pos. */
  ghost function NumLonger(seqs: seq<seq<char>>, pos: int): (n: nat)
    ensures n <= |seqs|
  {
    if seqs == [] then 0
    else NumLonger(seqs[..|seqs| - 1], pos) + if 0 <= pos < |seqs[|seqs| - 1]| then 1 else 0
  }

  /** The largest index of any sequence, 0 when there is none. */
  ghost function MaxPos(seqs: seq<seq<char>>): (m: int)
    ensures 0 <= m
  {
    if seqs == [] then 0 else Max(MaxPos(seqs[..|seqs| - 1]), |seqs[|seqs| - 1]| - 1)
  }

  /** The counts of one position summed over the symbols ls, from the map. */
  function PosTotal(count: map<Key, int>, ls: seq<char>, pos: int): int {
    if ls == [] then 0 else PosTotal(count, ls[..|ls| - 1], pos) + Lookup(count, Key(pos, ls[|ls| - 1]))
  }

  /** The counts of one position summed over the symbols ls, from the sequences. */
  ghost function LetterTotal(seqs: seq<seq<char>>, ls: seq<char>, pos: int): int {
    if ls == [] then 0 else LetterTotal(seqs, ls[..|ls| - 1], pos) + Occurrences(seqs, pos, ls[|ls| - 1])
  }

  /** The rows of one position, one per symbol of ls, in the order of ls. */
  function PosRows(count: map<Key, int>, ls: seq<char>, pos: int, total: int): seq<Row> {
    seq(|ls|, k requires 0 <= k < |ls| => Row(pos, ls[k], Lookup(count, Key(pos, ls[k])), total))
  }

  /** The rows of the positions below n, position by position. */
  function Table(count: map<Key, int>, ls: seq<char>, n: nat): seq<Row> {
    if n == 0 then []
    else Table(count, ls, n - 1) + PosRows(count, ls, n - 1, PosTotal(count, ls, n - 1))
  }

  // ---------------------------------------------------------------------------
  // Operations

  /** The loop that builds `seqString`: the sequence, upper-cased symbol by symbol. */
  method UpperString(sq: seq<char>) returns (u: seq<char>)
    ensures |u| == |sq|
    ensures forall m :: 0 <= m < |sq| ==> u[m] == Upper(sq[m])
  {
    u := "";
    var i := 0;
    while i < |sq|
      invariant 0 <= i <= |sq|
      invariant |u| == i
      invariant forall m :: 0 <= m < i ==> u[m] == Upper(sq[m])
    {
      u := u + [Upper(sq[i])];
      i := i + 1;
    }
  }

  /** `stringInSlice`: a linear membership test with an early return. */
  method StringInSlice(b: char, letters: seq<char>) returns (found: bool)
    ensures found <==> b in letters
  {
    var i := 0;
    while i < |letters|
      invariant 0 <= i <= |letters|
      invariant b !in letters[..i]
    {
      if letters[i] == b {
        return true;
      }
      assert letters[..i + 1] == letters[..i] + [letters[i]];
      i := i + 1;
    }
    assert letters[..i] == letters;
    return false;
  }

  /** Insertion of one symbol into a sorted sequence. */
  method Insert(r: seq<char>, x: char) returns (t: seq<char>)
    requires Sorted(r)
    ensures Sorted(t) && multiset(t) == multiset(r) + multiset{x}
  {
    var k := 0;
    while k < |r| && r[k] < x
      invariant 0 <= k <= |r|
      invariant forall m :: 0 <= m < k ==> r[m] < x
    {
      k := k + 1;
    }
    t := r[..k] + [x] + r[k..];
    assert r == r[..k] + r[k..];
    InsertSorted(r, x, k);
  }

  /** Placing x after the entries below it and before the rest keeps a sequence sorted. */
  lemma InsertSorted(r: seq<char>, x: char, k: int)
    requires Sorted(r) && 0 <= k <= |r|
    requires forall m :: 0 <= m < k ==> r[m] < x
    requires k < |r| ==> x <= r[k]
    ensures Sorted(r[..k] + [x] + r[k..])
  {
    var t := r[..k] + [x] + r[k..];
    forall a, b | 0 <= a < b < |t| ensures t[a] <= t[b] {
      if b < k {
        assert t[a] == r[a] && t[b] == r[b];
      } else if b == k {
        assert t[a] == r[a] && t[b] == x;
      } else if a < k {
        assert t[a] == r[a] && t[b] == r[b - 1];
      } else if a == k {
        assert t[a] == x && t[b] == r[b - 1] && r[k] <= r[b - 1];
      } else {
        assert t[a] == r[a - 1] && t[b] == r[b - 1];
      }
    }
  }

  /** `sort.Strings` on single-symbol strings: a sorted permutation of s. */
  method SortStrings(s: seq<char>) returns (r: seq<char>)
    ensures Sorted(r) && multiset(r) == multiset(s)
  {
    r := [];
    var i := 0;
    while i < |s|
      invariant 0 <= i <= |s|
      invariant Sorted(r) && multiset(r) == multiset(s[..i])
    {
      r := Insert(r, s[i]);
      assert s[..i + 1] == s[..i] + [s[i]];
      i := i + 1;
    }
    assert s[..|s|] == s;
  }

  /**
   * The counting loop over one upper-cased sequence: each symbol is counted
   * under its (position, symbol) key, added to the letters when new, and its
   * index raises the largest position.
   */
  method CountSymbols(count: map<Key, int>, letters: seq<char>, maxPos: int, seqString: seq<char>)
    returns (count': map<Key, int>, letters': seq<char>, maxPos': int)
    ensures forall k :: Lookup(count', k) ==
                        Lookup(count, k) + if 0 <= k.pos < |seqString| && seqString[k.pos] == k.letter then 1 else 0
    ensures (forall k :: k in count ==> count[k] > 0) ==> forall k :: k in count' ==> count'[k] > 0
    ensures NoDups(letters) ==> NoDups(letters')
    ensures |letters| <= |letters'| && letters'[..|letters|] == letters
    ensures Elems(letters') == Elems(letters) + Elems(seqString)
    ensures maxPos' == if seqString == [] then maxPos else Max(maxPos, |seqString| - 1)
  {
    count', letters', maxPos' := count, letters, maxPos;
    var i := 0;
    while i < |seqString|
      invariant 0 <= i <= |seqString|
      invariant forall k :: Lookup(count', k) ==
                          Lookup(count, k) + if 0 <= k.pos < i && seqString[k.pos] == k.letter then 1 else 0
      invariant (forall k :: k in count ==> count[k] > 0) ==> forall k :: k in count' ==> count'[k] > 0
      invariant NoDups(letters) ==> NoDups(letters')
      invariant |letters| <= |letters'| && letters'[..|letters|] == letters
      invariant Elems(letters') == Elems(letters) + Elems(seqString[..i])
      invariant maxPos' == if i == 0 then maxPos else Max(maxPos, i - 1)
    {
      var s := seqString[i];
      count' := count'[Key(i, s) := Lookup(count', Key(i, s)) + 1];
      var present := StringInSlice(s, letters');
      if !present {
        assert Elems(letters' + [s]) == Elems(letters') + {s};
        letters' := letters' + [s];
      }
      if i > maxPos' {
        maxPos' := i;
      }
      assert seqString[..i + 1] == seqString[..i] + [s];
      assert Elems(seqString[..i + 1]) == Elems(seqString[..i]) + {s};
      i := i + 1;
    }
    assert seqString[..i] == seqString;
  }

  /**
   * The body of the emission loop for one position: the position's total over
   * all letters, then one row per letter in the order of `letters`.
   */
  method PositionRows(count: map<Key, int>, letters: seq<char>, pos: int) returns (rows: seq<Row>)
    ensures rows == PosRows(count, letters, pos, PosTotal(count, letters, pos))
  {
    var totalCnt := 0;
    var k := 0;
    while k < |letters|
      invariant 0 <= k <= |letters|
      invariant totalCnt == PosTotal(count, letters[..k], pos)
    {
      assert letters[..k + 1][..k] == letters[..k];
      totalCnt := totalCnt + Lookup(count, Key(pos, letters[k]));
      k := k + 1;
    }
    assert letters[..k] == letters;
    rows := [];
    k := 0;
    while k < |letters|
      invariant 0 <= k <= |letters|
      invariant |rows| == k
      invariant forall m :: 0 <= m < k ==> rows[m] == Row(pos, letters[m], Lookup(count, Key(pos, letters[m])), totalCnt)
    {
      rows := rows + [Row(pos, letters[k], Lookup(count, Key(pos, letters[k])), totalCnt)];
      k := k + 1;
    }
  }

  /** The emission loop over positions `0..maxPos`. */
  method TableRowsUpTo(count: map<Key, int>, letters: seq<char>, maxPos: int) returns (rows: seq<Row>)
    ensures rows == Table(count, letters, if maxPos < 0 then 0 else maxPos + 1)
  {
    rows := [];
    var pos := 0;
    while pos <= maxPos
      invariant 0 <= pos <= if maxPos < 0 then 0 else maxPos + 1
      invariant rows == Table(count, letters, pos)
    {
      var posRows := PositionRows(count, letters, pos);
      rows := rows + posRows;
      pos := pos + 1;
    }
  }

  /**
   * The state of the accumulation in `main`: the `count` map, the discovered
   * `letters` and `maxPos`. `Seen` records the sequences read so far.
   */
  class CompositionTable {
    var count: map<Key, int>
    var letters: seq<char>
    var maxPos: int
    ghost var Seen: seq<seq<char>>

    ghost predicate Valid()
      reads this
    {
      && maxPos == MaxPos(Seen)
      && (forall k :: Lookup(count, k) == Occurrences(Seen, k.pos, k.letter))
      && (forall k :: k in count ==> count[k] > 0)
      && NoDups(letters)
      && Elems(letters) == SeenLetters(Seen)
    }

    /** The initial state: `maxPos := 0`, no letters, an empty map. */
    constructor ()
      ensures Valid() && Seen == []
      ensures count == map[] && letters == [] && maxPos == 0
    {
      maxPos := 0;
      letters := [];
      count := map[];
      Seen := [];
    }

    /** The body of the read loop for one sequence. */
    method AddSequence(sq: seq<char>)
      requires Valid()
      modifies this
      ensures Valid() && Seen == old(Seen) + [sq]
      ensures forall k :: Lookup(count, k) ==
                          Lookup(old(count), k) + if 0 <= k.pos < |sq| && Upper(sq[k.pos]) == k.letter then 1 else 0
      ensures maxPos == Max(old(maxPos), |sq| - 1)
      ensures |old(letters)| <= |letters| && letters[..|old(letters)|] == old(letters)
      ensures Elems(letters) == Elems(old(letters)) + Symbols(sq)
    {
      var seqString := UpperString(sq);
      var cnt, lets, mp := CountSymbols(count, letters, maxPos, seqString);
      assert Elems(seqString) == Symbols(sq);
      AccumulateOne(Seen, sq);
      forall k ensures Lookup(cnt, k) == Occurrences(Seen + [sq], k.pos, k.letter) {
        assert Lookup(count, k) == Occurrences(Seen, k.pos, k.letter);
      }
      count, letters, maxPos := cnt, lets, mp;
      Seen := Seen + [sq];
    }

    /** Sorting the letters and producing the rows that `main` prints. */
    method Emit() returns (rows: seq<Row>)
      requires Valid()
      modifies this
      ensures Valid() && Seen == old(Seen) && count == old(count) && maxPos == old(maxPos)
      ensures StrictlySorted(letters) && multiset(letters) == multiset(old(letters))
      ensures rows == Table(count, letters, maxPos + 1)
      ensures |rows| == (maxPos + 1) * |letters|
      ensures forall r :: r in rows ==>
        && 0 <= r.pos <= maxPos
        && r.letter in letters
        && r.count == Occurrences(Seen, r.pos, r.letter)
        && r.totalCount == NumLonger(Seen, r.pos)
      ensures forall a, b :: 0 <= a < b < |rows| ==> RowBefore(rows[a], rows[b])
    {
      ghost var unsorted := letters;
      letters := SortStrings(letters);
      SortedDistinct(unsorted, letters);
      TableMeaning(count, letters, Seen, maxPos + 1);
      rows := TableRowsUpTo(count, letters, maxPos);
    }
  }

  /** The read loop of `main`: every input sequence is added to a fresh table. */
  method Accumulate(input: seq<seq<char>>) returns (table: CompositionTable)
    ensures fresh(table) && table.Valid() && table.Seen == input
  {
    table := new CompositionTable();
    var n := 0;
    while n < |input|
      invariant 0 <= n <= |input|
      invariant fresh(table) && table.Valid() && table.Seen == input[..n]
    {
      assert input[..n + 1] == input[..n] + [input[n]];
      table.AddSequence(input[n]);
      n := n + 1;
    }
    assert input[..n] == input;
  }

  /** The whole of `main` without its I/O: accumulate every sequence, then emit. */
  method Composition(input: seq<seq<char>>) returns (rows: seq<Row>)
    ensures |rows| == (MaxPos(input) + 1) * |SeenLetters(input)|
    ensures forall r :: r in rows ==>
      && 0 <= r.pos <= MaxPos(input)
      && r.letter in SeenLetters(input)
      && r.count == Occurrences(input, r.pos, r.letter)
      && r.totalCount == NumLonger(input, r.pos)
    ensures forall a, b :: 0 <= a < b < |rows| ==> RowBefore(rows[a], rows[b])
    ensures rows == [] <==> forall n :: 0 <= n < |input| ==> input[n] == []
  {
    var table := Accumulate(input);
    rows := table.Emit();
    OutputMeaning(table.count, table.letters, input, rows);
  }

  // ---------------------------------------------------------------------------
  // Lemmas

  /** A product with a positive factor is zero exactly when the other factor is. */
  lemma ProductZeroIff(p: int, w: nat)
    requires 1 <= p
    ensures p * w == 0 <==> w == 0
  {
    if w > 0 {
      assert p * w >= w;
    }
  }

  /** A sequence without duplicates holds each symbol at most once. */
  lemma {:induction false} DistinctMultiplicity(s: seq<char>, c: char)
    requires NoDups(s)
    ensures multiset(s)[c] == if c in s then 1 else 0
  {
    if s != [] {
      var init := s[..|s| - 1];
      assert s == init + [s[|s| - 1]];
      DistinctMultiplicity(init, c);
    }
  }

  /** Two equal entries make a symbol occur at least twice. */
  lemma RepeatCounts(t: seq<char>, a: int, b: int)
    requires 0 <= a < b < |t| && t[a] == t[b]
    ensures multiset(t)[t[a]] >= 2
  {
    assert t == t[..b] + [t[b]] + t[b + 1..];
    assert t[..b][a] == t[a];
  }

  /** Sorting symbols that are distinct gives a strictly increasing sequence of the same symbols. */
  lemma SortedDistinct(s: seq<char>, t: seq<char>)
    requires NoDups(s) && Sorted(t) && multiset(t) == multiset(s)
    ensures StrictlySorted(t) && NoDups(t) && Elems(t) == Elems(s)
  {
    forall a, b | 0 <= a < b < |t| ensures t[a] != t[b] {
      if t[a] == t[b] {
        RepeatCounts(t, a, b);
        DistinctMultiplicity(s, t[a]);
      }
    }
    forall c ensures c in t <==> c in s {
      assert c in t <==> c in multiset(t);
      assert c in s <==> c in multiset(s);
    }
  }

  /** A sequence without duplicates has as many elements as its set. */
  lemma {:induction false} DistinctCard(s: seq<char>)
    requires NoDups(s)
    ensures |Elems(s)| == |s|
  {
    if s != [] {
      var init := s[..|s| - 1];
      assert Elems(s) == Elems(init) + {s[|s| - 1]};
      assert s[|s| - 1] !in Elems(init);
      DistinctCard(init);
    }
  }

  /** No symbol is discovered exactly when every sequence is empty. */
  lemma {:induction false} NoLettersIffAllEmpty(seqs: seq<seq<char>>)
    ensures SeenLetters(seqs) == {} <==> forall n :: 0 <= n < |seqs| ==> seqs[n] == []
  {
    if seqs != [] {
      var init := seqs[..|seqs| - 1];
      var last := seqs[|seqs| - 1];
      NoLettersIffAllEmpty(init);
      if last != [] {
        assert Upper(last[0]) in Symbols(last);
      }
      assert forall n :: 0 <= n < |init| ==> init[n] == seqs[n];
    }
  }

  /** maxPos bounds the last index of every sequence, and is one of them unless it is 0. */
  lemma {:induction false} MaxPosIsLargestIndex(seqs: seq<seq<char>>)
    ensures forall n :: 0 <= n < |seqs| ==> |seqs[n]| - 1 <= MaxPos(seqs)
    ensures MaxPos(seqs) == 0 || exists n :: 0 <= n < |seqs| && |seqs[n]| - 1 == MaxPos(seqs)
  {
    if seqs != [] {
      var init := seqs[..|seqs| - 1];
      MaxPosIsLargestIndex(init);
      assert forall n :: 0 <= n < |init| ==> init[n] == seqs[n];
      if MaxPos(seqs) != 0 && MaxPos(seqs) != |seqs[|seqs| - 1]| - 1 {
        var n :| 0 <= n < |init| && |init[n]| - 1 == MaxPos(init);
        assert |seqs[n]| - 1 == MaxPos(seqs);
      }
    }
  }

  /** Reading one more sequence, by the definitions. */
  lemma AccumulateOne(seqs: seq<seq<char>>, sq: seq<char>)
    ensures forall pos, c :: Occurrences(seqs + [sq], pos, c) ==
                             Occurrences(seqs, pos, c) + if 0 <= pos < |sq| && Upper(sq[pos]) == c then 1 else 0
    ensures SeenLetters(seqs + [sq]) == SeenLetters(seqs) + Symbols(sq)
    ensures MaxPos(seqs + [sq]) == Max(MaxPos(seqs), |sq| - 1)
  {
    assert (seqs + [sq])[..|seqs|] == seqs;
  }

  /** Reading a ∥ b gives the counts of a plus those of b. */
  lemma {:induction false} AccumulateAppend(a: seq<seq<char>>, b: seq<seq<char>>, pos: int, c: char)
    ensures Occurrences(a + b, pos, c) == Occurrences(a, pos, c) + Occurrences(b, pos, c)
    ensures NumLonger(a + b, pos) == NumLonger(a, pos) + NumLonger(b, pos)
    ensures SeenLetters(a + b) == SeenLetters(a) + SeenLetters(b)
    ensures MaxPos(a + b) == Max(MaxPos(a), MaxPos(b))
  {
    if b == [] {
      assert a + b == a;
    } else {
      var init := b[..|b| - 1];
      assert (a + b)[..|a + b| - 1] == a + init;
      assert (a + b)[|a + b| - 1] == b[|b| - 1];
      AccumulateAppend(a, init, pos, c);
    }
  }

  /** Reading the same sequences twice doubles every count and discovers nothing new. */
  lemma AccumulateTwice(seqs: seq<seq<char>>, pos: int, c: char)
    ensures Occurrences(seqs + seqs, pos, c) == 2 * Occurrences(seqs, pos, c)
    ensures NumLonger(seqs + seqs, pos) == 2 * NumLonger(seqs, pos)
    ensures SeenLetters(seqs + seqs) == SeenLetters(seqs)
    ensures MaxPos(seqs + seqs) == MaxPos(seqs)
  {
    AccumulateAppend(seqs, seqs, pos, c);
  }

  /** A symbol occurs at a position in no more sequences than reach that position. */
  lemma {:induction false} OccurrencesAtMostLonger(seqs: seq<seq<char>>, pos: int, c: char)
    ensures Occurrences(seqs, pos, c) <= NumLonger(seqs, pos)
  {
    if seqs != [] {
      OccurrencesAtMostLonger(seqs[..|seqs| - 1], pos, c);
    }
  }

  /** Summing the map over ls is summing the occurrences over ls, when the map holds them. */
  lemma {:induction false} PosTotalIsLetterTotal(count: map<Key, int>, seqs: seq<seq<char>>, ls: seq<char>, pos: int)
    requires forall k :: Lookup(count, k) == Occurrences(seqs, k.pos, k.letter)
    ensures PosTotal(count, ls, pos) == LetterTotal(seqs, ls, pos)
  {
    if ls != [] {
      PosTotalIsLetterTotal(count, seqs, ls[..|ls| - 1], pos);
      assert Lookup(count, Key(pos, ls[|ls| - 1])) == Occurrences(seqs, pos, ls[|ls| - 1]);
    }
  }

  /** One more sequence adds, to the sum over ls, the multiplicity in ls of its symbol at pos. */
  lemma {:induction false} LetterTotalStep(seqs: seq<seq<char>>, sq: seq<char>, ls: seq<char>, pos: int)
    ensures LetterTotal(seqs + [sq], ls, pos) ==
      LetterTotal(seqs, ls, pos) + if 0 <= pos < |sq| then multiset(ls)[Upper(sq[pos])] else 0
  {
    if ls != [] {
      var init := ls[..|ls| - 1];
      LetterTotalStep(seqs, sq, init, pos);
      assert ls == init + [ls[|ls| - 1]];
      assert (seqs + [sq])[..|seqs|] == seqs;
    }
  }

  /**
   * Over a duplicate-free list holding every discovered symbol, the sum of one
   * position's counts is the number of sequences that reach that position.
   */
  lemma {:induction false} LetterTotalIsNumLonger(seqs: seq<seq<char>>, ls: seq<char>, pos: int)
    requires NoDups(ls) && SeenLetters(seqs) <= Elems(ls)
    ensures LetterTotal(seqs, ls, pos) == NumLonger(seqs, pos)
  {
    if seqs == [] {
      LetterTotalOfNothing(ls, pos);
    } else {
      var init := seqs[..|seqs| - 1];
      var last := seqs[|seqs| - 1];
      assert seqs == init + [last];
      LetterTotalIsNumLonger(init, ls, pos);
      LetterTotalStep(init, last, ls, pos);
      if 0 <= pos < |last| {
        assert Upper(last[pos]) in Symbols(last);
        DistinctMultiplicity(ls, Upper(last[pos]));
      }
    }
  }

  /** With no sequences read, every sum is zero. */
  lemma {:induction false} LetterTotalOfNothing(ls: seq<char>, pos: int)
    ensures LetterTotal([], ls, pos) == 0
  {
    if ls != [] {
      LetterTotalOfNothing(ls[..|ls| - 1], pos);
    }
  }

  /** The table has one row per position below n and symbol of ls. */
  lemma {:induction false} TableLength(count: map<Key, int>, ls: seq<char>, n: nat)
    ensures |Table(count, ls, n)| == n * |ls|
  {
    if n > 0 {
      TableLength(count, ls, n - 1);
      assert n * |ls| == (n - 1) * |ls| + |ls|;
    }
  }

  /** Each row lies in range, names a symbol of ls, and carries its count and its position's total. */
  lemma {:induction false} TableRows(count: map<Key, int>, ls: seq<char>, n: nat)
    ensures forall r :: r in Table(count, ls, n) ==>
      && 0 <= r.pos < n
      && r.letter in ls
      && r.count == Lookup(count, Key(r.pos, r.letter))
      && r.totalCount == PosTotal(count, ls, r.pos)
  {
    if n > 0 {
      TableRows(count, ls, n - 1);
      var prev := Table(count, ls, n - 1);
      var last := PosRows(count, ls, n - 1, PosTotal(count, ls, n - 1));
      forall r | r in Table(count, ls, n)
        ensures 0 <= r.pos < n && r.letter in ls
        ensures r.count == Lookup(count, Key(r.pos, r.letter)) && r.totalCount == PosTotal(count, ls, r.pos)
      {
        if r !in prev {
          assert r in last;
          var k :| 0 <= k < |last| && last[k] == r;
        }
      }
    }
  }

  /** Every (position, symbol) pair below n has its row. */
  lemma {:induction false} TableCovers(count: map<Key, int>, ls: seq<char>, n: nat, pos: int, k: int)
    requires 0 <= pos < n && 0 <= k < |ls|
    ensures Row(pos, ls[k], Lookup(count, Key(pos, ls[k])), PosTotal(count, ls, pos)) in Table(count, ls, n)
  {
    if pos < n - 1 {
      TableCovers(count, ls, n - 1, pos, k);
    } else {
      assert PosRows(count, ls, pos, PosTotal(count, ls, pos))[k] ==
        Row(pos, ls[k], Lookup(count, Key(pos, ls[k])), PosTotal(count, ls, pos));
    }
  }

  /** With the symbols strictly sorted, rows are strictly ordered by position, then symbol. */
  lemma {:induction false} TableOrdered(count: map<Key, int>, ls: seq<char>, n: nat)
    requires StrictlySorted(ls)
    ensures forall a, b :: 0 <= a < b < |Table(count, ls, n)| ==> RowBefore(Table(count, ls, n)[a], Table(count, ls, n)[b])
  {
    if n > 0 {
      TableOrdered(count, ls, n - 1);
      TableRows(count, ls, n - 1);
      var prev := Table(count, ls, n - 1);
      var last := PosRows(count, ls, n - 1, PosTotal(count, ls, n - 1));
      var t := Table(count, ls, n);
      assert t == prev + last;
      forall a, b | 0 <= a < b < |t| ensures RowBefore(t[a], t[b]) {
        if b < |prev| {
          assert t[a] == prev[a] && t[b] == prev[b];
        } else if a < |prev| {
          assert t[a] == prev[a] && t[a] in prev;
          assert t[b] == last[b - |prev|];
        } else {
          assert t[a] == last[a - |prev|] && t[b] == last[b - |prev|];
        }
      }
    }
  }

  /**
   * The table built from a map that holds the counts of seqs, over the sorted
   * discovered symbols: its size, what each row says, and its order.
   */
  lemma TableMeaning(count: map<Key, int>, ls: seq<char>, seqs: seq<seq<char>>, n: nat)
    requires forall k :: Lookup(count, k) == Occurrences(seqs, k.pos, k.letter)
    requires StrictlySorted(ls) && Elems(ls) == SeenLetters(seqs)
    ensures |Table(count, ls, n)| == n * |ls|
    ensures forall r :: r in Table(count, ls, n) ==>
      && 0 <= r.pos < n
      && r.letter in ls
      && r.count == Occurrences(seqs, r.pos, r.letter)
      && r.totalCount == NumLonger(seqs, r.pos)
    ensures forall a, b :: 0 <= a < b < |Table(count, ls, n)| ==> RowBefore(Table(count, ls, n)[a], Table(count, ls, n)[b])
  {
    TableLength(count, ls, n);
    TableRows(count, ls, n);
    TableOrdered(count, ls, n);
    forall p ensures PosTotal(count, ls, p) == NumLonger(seqs, p) {
      PosTotalIsLetterTotal(count, seqs, ls, p);
      LetterTotalIsNumLonger(seqs, ls, p);
    }
  }

  /**
   * What the emission prints once every sequence has been read: one row per
   * position up to the largest index and per distinct letter, in order, each
   * carrying the letter's occurrences and the number of sequences reaching
   * that position; no rows exactly when every sequence is empty.
   */
  lemma OutputMeaning(count: map<Key, int>, ls: seq<char>, seqs: seq<seq<char>>, rows: seq<Row>)
    requires forall k :: Lookup(count, k) == Occurrences(seqs, k.pos, k.letter)
    requires StrictlySorted(ls) && Elems(ls) == SeenLetters(seqs)
    requires rows == Table(count, ls, MaxPos(seqs) + 1)
    ensures |rows| == (MaxPos(seqs) + 1) * |SeenLetters(seqs)|
    ensures forall r :: r in rows ==>
      && 0 <= r.pos <= MaxPos(seqs)
      && r.letter in SeenLetters(seqs)
      && r.count == Occurrences(seqs, r.pos, r.letter)
      && r.totalCount == NumLonger(seqs, r.pos)
    ensures forall a, b :: 0 <= a < b < |rows| ==> RowBefore(rows[a], rows[b])
    ensures rows == [] <==> forall n :: 0 <= n < |seqs| ==> seqs[n] == []
  {
    var n := MaxPos(seqs) + 1;
    TableMeaning(count, ls, seqs, n);
    assert NoDups(ls);
    DistinctCard(ls);
    NoLettersIffAllEmpty(seqs);
    ProductZeroIff(n, |ls|);
  }
}
