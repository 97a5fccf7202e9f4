/**
 * The sentence splitter gram_to_sentences.py. The lines of a bracket file are
 * joined, each followed by a space; the joined text is cut after every `)`
 * that brings the bracket depth back to 0, the character after each cut is
 * skipped, and the pieces that do not begin with `(c` are written one per
 * line (the file write itself is not modelled: the written pieces are the
 * result).
 */
module GramToSentences {
  import opened Text

  /** How a character moves the bracket depth. */
  function Delta(c: char): int {
    if c == '(' then 1 else if c == ')' then -1 else 0
  }

  /** The bracket depth after the first `n` characters (the script's `sentence_help`). */
  function Depth(s: string, n: nat): int
    requires n <= |s|
  {
    if n == 0 then 0 else Depth(s, n - 1) + Delta(s[n - 1])
  }

  /** The depth is the number of `(` minus the number of `)` read so far. */
  lemma {:induction false} DepthCounts(s: string, n: nat)
    requires n <= |s|
    ensures Depth(s, n) == Count(s[..n], '(') - Count(s[..n], ')')
  {
    if n == 0 {
      assert s[..0] == [];
    } else {
      DepthCounts(s, n - 1);
      CountSnoc(s, n - 1, '(');
      CountSnoc(s, n - 1, ')');
    }
  }

  /** Index `i` holds a `)` that brings the depth back to 0. */
  predicate Closes(s: string, i: nat) {
    i < |s| && s[i] == ')' && Depth(s, i + 1) == 0
  }

  /** The closing indices among the first `n` characters, left to right. */
  function CutsUpTo(s: string, n: nat): seq<nat>
    requires n <= |s|
  {
    if n == 0 then [] else CutsUpTo(s, n - 1) + (if Closes(s, n - 1) then [n - 1] else [])
  }

  /** Where the piece after cut number `k - 1` starts: two past that cut, skipping one separator. */
  function PieceStart(cs: seq<nat>, k: nat): nat
    requires k <= |cs|
  {
    if k == 0 then 0 else cs[k - 1] + 2
  }

  /** Every listed cut is a closing index among the first `n` characters. */
  predicate Sound(s: string, n: nat, cs: seq<nat>) {
    forall k :: 0 <= k < |cs| ==> cs[k] < n && Closes(s, cs[k])
  }

  /** Every piece starts at or before its cut: each cut lies at least two past the one before. */
  predicate Separated(cs: seq<nat>) {
    forall k {:trigger PieceStart(cs, k)} :: 0 <= k < |cs| ==> PieceStart(cs, k) <= cs[k]
  }

  /** Every closing index among the first `n` characters is listed. */
  predicate Complete(s: string, n: nat, cs: seq<nat>) {
    forall i :: 0 <= i < n && Closes(s, i) ==> i in cs
  }

  /**
   * The cuts are closing indices, each at least two past the one before, so
   * that every piece is a well-formed slice ending at its cut.
   */
  predicate CutsSpec(s: string, n: nat, cs: seq<nat>) {
    Sound(s, n, cs) && Separated(cs)
  }

  /** Before a closing `)` the depth is 1. */
  lemma DepthBeforeClose(s: string, n: nat)
    requires Closes(s, n)
    ensures Depth(s, n) == 1
  {
    assert Depth(s, n + 1) == Depth(s, n) + Delta(s[n]);
  }

  /** The cut list after one more character. */
  lemma CutsSnoc(s: string, n: nat)
    requires n < |s|
    ensures CutsUpTo(s, n + 1) == CutsUpTo(s, n) + (if Closes(s, n) then [n] else [])
  {
  }

  /** A new cut lies at least two past the last one. */
  lemma SeparatedStep(s: string, n: nat, cs: seq<nat>)
    requires n < |s| && Sound(s, n, cs) && Separated(cs) && Closes(s, n)
    ensures Separated(cs + [n])
  {
    var cs' := cs + [n];
    forall k | 0 <= k < |cs'|
      ensures PieceStart(cs', k) <= cs'[k]
    {
      if k < |cs| {
        assert PieceStart(cs', k) == PieceStart(cs, k);
      } else if k > 0 {
        var j := cs[k - 1];
        assert Closes(s, j) && j < n;
        DepthBeforeClose(s, n);
        assert j + 1 != n;
      }
    }
  }

  /** One more character keeps the cut list exact. */
  lemma CutsStep(s: string, n: nat)
    requires n < |s| && CutsSpec(s, n, CutsUpTo(s, n))
    ensures CutsSpec(s, n + 1, CutsUpTo(s, n + 1))
  {
    var cs := CutsUpTo(s, n);
    CutsSnoc(s, n);
    if Closes(s, n) {
      SeparatedStep(s, n, cs);
      assert Sound(s, n + 1, cs + [n]);
    } else {
      assert cs + [] == cs;
    }
  }

  /** The cut list of every prefix is exact. */
  lemma {:induction false} CutsUpToSpec(s: string, n: nat)
    requires n <= |s|
    ensures CutsSpec(s, n, CutsUpTo(s, n))
  {
    if n > 0 {
      CutsUpToSpec(s, n - 1);
      CutsStep(s, n - 1);
    }
  }

  /** No closing index is missed. */
  lemma {:induction false} CutsUpToComplete(s: string, n: nat)
    requires n <= |s|
    ensures Complete(s, n, CutsUpTo(s, n))
  {
    if n > 0 {
      CutsUpToComplete(s, n - 1);
      CutsSnoc(s, n - 1);
      var cs := CutsUpTo(s, n - 1);
      forall i | 0 <= i < n && Closes(s, i)
        ensures i in CutsUpTo(s, n)
      {
        if i < n - 1 {
          assert i in cs;
        } else {
          assert CutsUpTo(s, n) == cs + [n - 1];
        }
      }
    }
  }

  /** Cuts inside `s`, each piece starting at or before its cut. */
  predicate Fits(s: string, cs: seq<nat>) {
    Separated(cs) && forall k :: 0 <= k < |cs| ==> cs[k] < |s|
  }

  /** The pieces cut at the closing indices `cs`: from each start to its cut, inclusive. */
  function Slices(s: string, cs: seq<nat>): seq<string>
    requires Fits(s, cs)
  {
    seq(|cs|, k requires 0 <= k < |cs| => s[PieceStart(cs, k)..cs[k] + 1])
  }

  /** A cut after the current start, inside `s`, keeps the cuts fitting. */
  lemma FitsSnoc(s: string, cs: seq<nat>, j: nat)
    requires Fits(s, cs) && PieceStart(cs, |cs|) <= j < |s|
    ensures Fits(s, cs + [j])
  {
    var cs' := cs + [j];
    forall k | 0 <= k < |cs'|
      ensures PieceStart(cs', k) <= cs'[k] < |s|
    {
      if k < |cs| {
        assert PieceStart(cs', k) == PieceStart(cs, k);
      }
    }
  }

  /** Piece `k` of the slices. */
  lemma SliceAt(s: string, cs: seq<nat>, k: nat)
    requires Fits(s, cs) && k < |cs|
    ensures PieceStart(cs, k) <= cs[k] < |s|
    ensures Slices(s, cs)[k] == s[PieceStart(cs, k)..cs[k] + 1]
  {
  }

  /** One more cut adds one more slice, from the current start to the cut. */
  lemma SlicesSnoc(s: string, cs: seq<nat>, j: nat)
    requires Fits(s, cs) && PieceStart(cs, |cs|) <= j < |s|
    ensures Fits(s, cs + [j])
    ensures Slices(s, cs + [j]) == Slices(s, cs) + [s[PieceStart(cs, |cs|)..j + 1]]
  {
    var cs' := cs + [j];
    FitsSnoc(s, cs, j);
    var longer, shorter := Slices(s, cs'), Slices(s, cs) + [s[PieceStart(cs, |cs|)..j + 1]];
    forall k | 0 <= k < |cs'|
      ensures longer[k] == shorter[k]
    {
      SliceAt(s, cs', k);
      if k < |cs| {
        SliceAt(s, cs, k);
        assert PieceStart(cs', k) == PieceStart(cs, k);
      } else {
        assert PieceStart(cs', k) == PieceStart(cs, |cs|);
      }
    }
    assert longer == shorter;
  }

  /** Every piece the splitter cuts out of `s`, in order. */
  function Pieces(s: string): seq<string> {
    CutsUpToSpec(s, |s|);
    Slices(s, CutsUpTo(s, |s|))
  }

  /** Python's `sentence[:2] != "(c"`: the piece is not a punctuation tree. */
  predicate Kept(p: string) {
    !StartsWith(p, "(c")
  }

  /** The pieces that are written, in order. */
  function Written(ps: seq<string>): seq<string> {
    if ps == [] then [] else Written(DropLast(ps)) + (if Kept(ps[|ps| - 1]) then [ps[|ps| - 1]] else [])
  }

  /** Later cuts lie further right: a piece starts at least two past every earlier cut. */
  lemma {:induction false} CutsOrdered(cs: seq<nat>, a: nat, b: nat)
    requires Separated(cs) && a < b < |cs|
    ensures cs[a] + 2 <= PieceStart(cs, b) <= cs[b]
    decreases b - a
  {
    assert PieceStart(cs, b) <= cs[b];
    if a + 1 < b {
      CutsOrdered(cs, a, b - 1);
    }
  }

  /** A piece is emitted at index `i` exactly when `i` holds a `)` that brings the depth back to 0. */
  lemma CutsExact(s: string, i: nat)
    ensures i in CutsUpTo(s, |s|) <==> Closes(s, i)
  {
    CutsUpToSpec(s, |s|);
    CutsUpToComplete(s, |s|);
  }

  /**
   * The pieces, in order: piece `k` runs from two past the previous cut (from
   * the beginning for the first) to cut `k`, inclusive, and so ends with `)`;
   * pieces do not overlap, and none reaches past the last cut.
   */
  lemma PiecesAtCuts(s: string)
    ensures var cs, ps := CutsUpTo(s, |s|), Pieces(s);
      |ps| == |cs| &&
      (forall k :: 0 <= k < |cs| ==>
        PieceStart(cs, k) <= cs[k] < |s| && Closes(s, cs[k]) &&
        ps[k] == s[PieceStart(cs, k)..cs[k] + 1] && ps[k][|ps[k]| - 1] == ')') &&
      (forall a, b :: 0 <= a < b < |cs| ==> cs[a] + 2 <= PieceStart(cs, b))
  {
    var cs := CutsUpTo(s, |s|);
    CutsUpToSpec(s, |s|);
    forall a, b | 0 <= a < b < |cs|
      ensures cs[a] + 2 <= PieceStart(cs, b)
    {
      CutsOrdered(cs, a, b);
    }
  }

  /** The text after the last cut (all of it when there is none) holds no closing index, so it is never emitted. */
  lemma TailDropped(s: string, i: nat)
    requires i < |s|
    requires var cs := CutsUpTo(s, |s|); cs == [] || cs[|cs| - 1] < i
    ensures !Closes(s, i)
  {
    var cs := CutsUpTo(s, |s|);
    CutsUpToSpec(s, |s|);
    if Closes(s, i) {
      CutsExact(s, i);
      var m :| 0 <= m < |cs| && cs[m] == i;
      if m < |cs| - 1 {
        CutsOrdered(cs, m, |cs| - 1);
      }
      assert false;
    }
  }

  /** Filtering a concatenation filters each part, so the written pieces keep their order. */
  lemma {:induction false} WrittenAppend(a: seq<string>, b: seq<string>)
    ensures Written(a + b) == Written(a) + Written(b)
    decreases |b|
  {
    if b == [] {
      assert a + b == a;
    } else {
      assert DropLast(a + b) == a + DropLast(b);
      WrittenAppend(a, DropLast(b));
      var last := if Kept(b[|b| - 1]) then [b[|b| - 1]] else [];
      assert (a + b)[|a + b| - 1] == b[|b| - 1];
      ConcatAssoc(Written(a), Written(DropLast(b)), last);
    }
  }

  /** A piece is written exactly when it is one of the pieces and does not begin with `(c`. */
  lemma {:induction false} WrittenMembers(ps: seq<string>, x: string)
    ensures x in Written(ps) <==> x in ps && Kept(x)
    decreases |ps|
  {
    if ps != [] {
      WrittenMembers(DropLast(ps), x);
      assert ps == DropLast(ps) + [ps[|ps| - 1]];
    }
  }

  /** The scan after `i` characters: the pieces so far are the slices at the cuts so far. */
  predicate CutInv(s: string, i: nat, depth: int, start: nat, pieces: seq<string>)
    requires i <= |s|
  {
    var cs := CutsUpTo(s, i);
    CutsSpec(s, i, cs) &&
    depth == Depth(s, i) &&
    start == PieceStart(cs, |cs|) &&
    pieces == Slices(s, cs)
  }

  /** Nothing is read yet. */
  lemma ScanStart(s: string)
    ensures CutInv(s, 0, 0, 0, [])
  {
  }

  /** A character that does not close a piece leaves the pieces and the start alone. */
  lemma ScanOther(s: string, i: nat, depth: int, start: nat, pieces: seq<string>)
    requires i < |s| && CutInv(s, i, depth, start, pieces) && !Closes(s, i)
    ensures CutInv(s, i + 1, depth + Delta(s[i]), start, pieces)
  {
    CutsStep(s, i);
    CutsSnoc(s, i);
    assert CutsUpTo(s, i + 1) == CutsUpTo(s, i) + [];
  }

  /** A `)` that brings the depth to 0 closes the piece from `start` and moves `start` past the separator. */
  lemma ScanCut(s: string, i: nat, depth: int, start: nat, pieces: seq<string>)
    requires i < |s| && CutInv(s, i, depth, start, pieces) && Closes(s, i)
    ensures start <= i
    ensures CutInv(s, i + 1, 0, i + 2, pieces + [s[start..i + 1]])
  {
    CutsStep(s, i);
    CutsSnoc(s, i);
    var cs := CutsUpTo(s, i);
    assert PieceStart(cs + [i], |cs|) <= i;
    assert PieceStart(cs + [i], |cs|) == start;
    SlicesSnoc(s, cs, i);
  }

  /** One character of the `make_sentences` loop: track the depth and cut a piece where it returns to 0. */
  method ScanChar(s: string, i: nat, depth: int, start: nat, pieces: seq<string>)
    returns (depth': int, start': nat, pieces': seq<string>)
    requires i < |s| && CutInv(s, i, depth, start, pieces)
    ensures CutInv(s, i + 1, depth', start', pieces')
  {
    depth', start', pieces' := depth, start, pieces;
    if s[i] == '(' {
      ScanOther(s, i, depth, start, pieces);
      depth' := depth + 1;
    } else if s[i] == ')' {
      depth' := depth - 1;
      if depth' == 0 {
        ScanCut(s, i, depth, start, pieces);
        pieces' := pieces + [s[start..i + 1]];
        start' := i + 2;
      } else {
        ScanOther(s, i, depth, start, pieces);
      }
    } else {
      ScanOther(s, i, depth, start, pieces);
    }
  }

  /** The writing loop of `make_sentences`: the pieces that do not start with `(c`, in order. */
  method KeepSentences(pieces: seq<string>) returns (written: seq<string>)
    ensures written == Written(pieces)
  {
    written := [];
    var k := 0;
    while k < |pieces|
      invariant 0 <= k <= |pieces|
      invariant written == Written(pieces[..k])
    {
      assert DropLast(pieces[..k + 1]) == pieces[..k];
      if Kept(pieces[k]) {
        written := written + [pieces[k]];
      }
      k := k + 1;
    }
    assert pieces[..k] == pieces;
  }

  /** `make_sentences` without the file write: the pieces it cuts and, of those, the ones it writes. */
  method MakeSentences(s: string) returns (pieces: seq<string>, written: seq<string>)
    ensures pieces == Pieces(s)
    ensures written == Written(pieces)
  {
    var depth := 0;
    var start: nat := 0;
    pieces := [];
    var i: nat := 0;
    ScanStart(s);
    while i < |s|
      invariant i <= |s|
      invariant CutInv(s, i, depth, start, pieces)
    {
      depth, start, pieces := ScanChar(s, i, depth, start, pieces);
      i := i + 1;
    }
    CutsUpToSpec(s, |s|);
    written := KeepSentences(pieces);
  }

  /** The main block: every line followed by one space, concatenated. */
  method JoinLines(lines: seq<string>) returns (s: string)
    ensures s == Spaced(lines)
  {
    s := "";
    var k := 0;
    while k < |lines|
      invariant 0 <= k <= |lines|
      invariant s + Spaced(lines[k..]) == Spaced(lines)
    {
      assert lines[k..][1..] == lines[k + 1..];
      ConcatAssoc(s, lines[k] + " ", Spaced(lines[k + 1..]));
      s := s + (lines[k] + " ");
      k := k + 1;
    }
    assert Spaced(lines[k..]) == "";
    assert s + "" == s;
  }

  /** The script: join the lines, split the text, write the pieces that are kept. */
  method SplitFile(lines: seq<string>) returns (written: seq<string>)
    ensures written == Written(Pieces(Spaced(lines)))
  {
    var s := JoinLines(lines);
    var pieces;
    pieces, written := MakeSentences(s);
  }
}
