/**
 * Span extraction of the evaluation script (RNNG/scripts/evaluation.py; the file
 * evaluation_fab.py holds the same code line for line): reading the ground-truth
 * and prediction streams, and the two loops that walk a token stream with a
 * position counter and append `(token, position, weight)` span records.
 */
module Extraction {
  import opened Text

  /** A span record `(token, position, weight)` as the script appends it. */
  datatype Span = Span(text: string, pos: nat, weight: nat)

  // Token classes. Every test is Python's substring test `"..." in token`.
  predicate IsCharOpener(t: string) { HasInfix(t, "(c") }
  predicate IsWordOpener(t: string) { HasInfix(t, "(w") }
  predicate IsPlaceholder(t: string) { HasInfix(t, "(XX") }
  predicate IsStructural(t: string) { HasInfix(t, "(t") || HasInfix(t, "(s") || HasInfix(t, "(seg") }
  predicate IsCloser(t: string) { HasInfix(t, "))") }

  /** Content that counts as one position whatever its length: it holds `»`, `«` or `€`. */
  predicate IsAtomicSymbol(t: string) { '»' in t || '«' in t || '€' in t }

  /** How far the content token after a `(c` moves the counter: one, or its number of non-`)` characters. */
  function CharAdvance(content: string): nat {
    if IsAtomicSymbol(content) then 1 else |content| - Count(content, ')')
  }

  /** A token holding `))` holds at least two `)`. */
  lemma {:induction false} CloserHasTwo(t: string)
    requires IsCloser(t)
    ensures Count(t, ')') >= 2
    decreases |t|
  {
    if StartsWith(t, "))") {
      assert t == "))" + t[2..];
      CountAppend("))", t[2..], ')');
      assert "))"[..1] == ")";
      assert ")"[..0] == "";
    } else {
      assert t == [t[0]] + t[1..];
      CloserHasTwo(t[1..]);
      CountAppend([t[0]], t[1..], ')');
    }
  }

  /** Weight of the record a token opens: 1 for a text, sentence or segment tag, else its number of `)` minus one. */
  function Weight(t: string): (w: nat)
    requires IsStructural(t) || IsCloser(t)
    ensures w >= 1
    ensures !IsStructural(t) ==> w == Count(t, ')') - 1
  {
    if IsStructural(t) then 1 else CloserHasTwo(t); Count(t, ')') - 1
  }

  /** The record token `t` adds when the counter stands at `pos` (none for other tokens). */
  function Record(t: string, pos: nat): seq<Span> {
    if IsStructural(t) || IsCloser(t) then [Span(t, pos, Weight(t))] else []
  }

  /** Every record carries the weight its own text gives it, so equal text means equal weight. */
  predicate WellWeighted(spans: seq<Span>) {
    forall s :: s in spans ==> (IsStructural(s.text) || IsCloser(s.text)) && s.weight == Weight(s.text)
  }

  /** Positions never decrease along the list. */
  predicate Sorted(spans: seq<Span>) {
    forall i, j :: 0 <= i < j < |spans| ==> spans[i].pos <= spans[j].pos
  }

  /** The loop that counts the `)` of a closing token, starting from -1. */
  method ClosingWeight(tok: string) returns (number: int)
    ensures number + 1 == Count(tok, ')')
    ensures IsCloser(tok) ==> number >= 1
  {
    number := -1;
    var j := 0;
    while j < |tok|
      invariant 0 <= j <= |tok|
      invariant number == Count(tok[..j], ')') - 1
    {
      CountSnoc(tok, j, ')');
      if tok[j] == ')' {
        number := number + 1;
      }
      j := j + 1;
    }
    assert tok[..j] == tok;
    if IsCloser(tok) {
      CloserHasTwo(tok);
    }
  }

  // ---------------------------------------------------------------------------
  // Ground truth

  /** The walk reaches the end: a `(c` is never the last token, since its content is read at `i+1`. */
  predicate GtReadable(toks: seq<string>) {
    |toks| == 0 || !IsCharOpener(toks[|toks| - 1])
  }

  /** How far token `i` moves the ground-truth counter: `(c` by its content, `(w` by one. */
  function GtAdvance(toks: seq<string>, i: nat): nat
    requires i < |toks| && (IsCharOpener(toks[i]) ==> i + 1 < |toks|)
  {
    if IsCharOpener(toks[i]) then CharAdvance(toks[i + 1])
    else if IsWordOpener(toks[i]) then 1
    else 0
  }

  /** The ground-truth counter before token `n`. */
  function GtPos(toks: seq<string>, n: nat): nat
    requires n <= |toks| && (n == |toks| ==> GtReadable(toks))
  {
    if n == 0 then 0 else GtPos(toks, n - 1) + GtAdvance(toks, n - 1)
  }

  /** The records appended while walking the first `n` ground-truth tokens. */
  function GtSpans(toks: seq<string>, n: nat): seq<Span>
    requires n <= |toks|
  {
    if n == 0 then []
    else
      var t := toks[n - 1];
      GtSpans(toks, n - 1) + (if IsCharOpener(t) || IsWordOpener(t) then [] else Record(t, GtPos(toks, n - 1)))
  }

  /** How far the content after a `(c` moves the ground-truth counter, counted as the loop does. */
  method CharContentAdvance(content: string) returns (n: nat)
    ensures n == CharAdvance(content)
  {
    if IsAtomicSymbol(content) {
      return 1;
    }
    n := 0;
    var j := 0;
    while j < |content|
      invariant 0 <= j <= |content|
      invariant n == j - Count(content[..j], ')')
    {
      CountSnoc(content, j, ')');
      n := n + (if content[j] != ')' then 1 else 0);
      j := j + 1;
    }
    assert content[..j] == content;
  }

  /** One readable token of the ground-truth walk: move the counter or append the token's record. */
  method GtToken(gt: seq<string>, i: nat, counter: nat, listGt: seq<Span>) returns (counter': nat, listGt': seq<Span>)
    requires i < |gt| && (IsCharOpener(gt[i]) ==> i + 1 < |gt|)
    requires counter == GtPos(gt, i) && listGt == GtSpans(gt, i)
    ensures counter' == counter + GtAdvance(gt, i)
    ensures listGt' == GtSpans(gt, i + 1)
  {
    var tok := gt[i];
    counter', listGt' := counter, listGt;
    if HasInfix(tok, "(c") {
      var n := CharContentAdvance(gt[i + 1]);
      counter' := counter + n;
    } else if HasInfix(tok, "(w") {
      counter' := counter + 1;
    } else if IsStructural(tok) {
      listGt' := listGt + [Span(tok, counter, 1)];
    } else if HasInfix(tok, "))") {
      var number := ClosingWeight(tok);
      listGt' := listGt + [Span(tok, counter, number)];
    }
  }

  /** The ground-truth extraction loop; an IndexError when a `(c` is the last token. */
  method ExtractGroundTruth(gt: seq<string>) returns (r: Result<seq<Span>>)
    ensures r.IndexError? <==> !GtReadable(gt)
    ensures r.Ok? ==> r.value == GtSpans(gt, |gt|) && Sorted(r.value) && WellWeighted(r.value)
  {
    var listGt: seq<Span> := [];
    var counter: nat := 0;
    var i := 0;
    while i < |gt|
      invariant 0 <= i <= |gt|
      invariant i < |gt| || GtReadable(gt)
      invariant counter == GtPos(gt, i)
      invariant listGt == GtSpans(gt, i)
    {
      if HasInfix(gt[i], "(c") && i + 1 == |gt| {
        return IndexError;
      }
      counter, listGt := GtToken(gt, i, counter, listGt);
      i := i + 1;
    }
    GtSorted(gt, |gt|);
    GtWellWeighted(gt, |gt|);
    return Ok(listGt);
  }

  /** A token gives at most one record, at the position it is read at. */
  lemma RecordAt(t: string, pos: nat)
    ensures |Record(t, pos)| <= 1 && forall s :: s in Record(t, pos) ==> s.pos == pos
  {
  }

  /** The ground-truth counter never goes down. */
  lemma GtPosGrows(toks: seq<string>, n: nat)
    requires 0 < n <= |toks| && (n == |toks| ==> GtReadable(toks))
    ensures GtPos(toks, n - 1) <= GtPos(toks, n)
  {
  }

  /** Records at the counter `p` after sorted records none of which is past `p` keep the list sorted. */
  lemma SortedSnoc(spans: seq<Span>, rec: seq<Span>, p: nat, q: nat)
    requires Sorted(spans) && (forall s :: s in spans ==> s.pos <= p) && p <= q
    requires |rec| <= 1 && forall s :: s in rec ==> s.pos == p
    ensures Sorted(spans + rec)
    ensures forall s :: s in spans + rec ==> s.pos <= q
  {
    var all := spans + rec;
    forall i, j | 0 <= i < j < |all|
      ensures all[i].pos <= all[j].pos
    {
      if j >= |spans| {
        assert all[i] in spans && all[j] in rec;
      }
    }
  }

  /** Ground-truth records are in non-decreasing position order, none past the counter. */
  lemma {:induction false} GtSorted(toks: seq<string>, n: nat)
    requires n <= |toks| && (n == |toks| ==> GtReadable(toks))
    ensures Sorted(GtSpans(toks, n))
    ensures forall s :: s in GtSpans(toks, n) ==> s.pos <= GtPos(toks, n)
  {
    if n > 0 {
      GtSorted(toks, n - 1);
      var t := toks[n - 1];
      var rec := if IsCharOpener(t) || IsWordOpener(t) then [] else Record(t, GtPos(toks, n - 1));
      RecordAt(t, GtPos(toks, n - 1));
      GtPosGrows(toks, n);
      SortedSnoc(GtSpans(toks, n - 1), rec, GtPos(toks, n - 1), GtPos(toks, n));
    }
  }

  /** Every ground-truth record has the weight its token gives it. */
  lemma {:induction false} GtWellWeighted(toks: seq<string>, n: nat)
    requires n <= |toks|
    ensures WellWeighted(GtSpans(toks, n))
  {
    if n > 0 {
      GtWellWeighted(toks, n - 1);
    }
  }

  // ---------------------------------------------------------------------------
  // Prediction

  /** The prediction counter before token `n`: one per `(XX` placeholder. */
  function PredPos(toks: seq<string>, n: nat): nat
    requires n <= |toks|
  {
    if n == 0 then 0 else PredPos(toks, n - 1) + (if IsPlaceholder(toks[n - 1]) then 1 else 0)
  }

  /** The records appended while walking the first `n` prediction tokens. */
  function PredSpans(toks: seq<string>, n: nat): seq<Span>
    requires n <= |toks|
  {
    if n == 0 then []
    else
      var t := toks[n - 1];
      PredSpans(toks, n - 1) + (if IsPlaceholder(t) then [] else Record(t, PredPos(toks, n - 1)))
  }

  /** One token of the prediction walk: move the counter at an `(XX` or append the token's record. */
  method PredToken(pred: seq<string>, i: nat, counter: nat, listPred: seq<Span>)
    returns (counter': nat, listPred': seq<Span>)
    requires i < |pred| && counter == PredPos(pred, i) && listPred == PredSpans(pred, i)
    ensures counter' == PredPos(pred, i + 1)
    ensures listPred' == PredSpans(pred, i + 1)
  {
    var tok := pred[i];
    counter', listPred' := counter, listPred;
    if HasInfix(tok, "(XX") {
      counter' := counter + 1;
    } else if IsStructural(tok) {
      listPred' := listPred + [Span(tok, counter, 1)];
    } else if HasInfix(tok, "))") {
      var number := ClosingWeight(tok);
      listPred' := listPred + [Span(tok, counter, number)];
    }
  }

  /** The prediction extraction loop. */
  method ExtractPrediction(pred: seq<string>) returns (listPred: seq<Span>)
    ensures listPred == PredSpans(pred, |pred|)
    ensures Sorted(listPred) && WellWeighted(listPred)
  {
    listPred := [];
    var counter: nat := 0;
    var i := 0;
    while i < |pred|
      invariant 0 <= i <= |pred|
      invariant counter == PredPos(pred, i)
      invariant listPred == PredSpans(pred, i)
    {
      counter, listPred := PredToken(pred, i, counter, listPred);
      i := i + 1;
    }
    PredSorted(pred, |pred|);
    PredWellWeighted(pred, |pred|);
  }

  /** Prediction records are in non-decreasing position order, none past the counter. */
  lemma {:induction false} PredSorted(toks: seq<string>, n: nat)
    requires n <= |toks|
    ensures Sorted(PredSpans(toks, n))
    ensures forall s :: s in PredSpans(toks, n) ==> s.pos <= PredPos(toks, n)
  {
    if n > 0 {
      PredSorted(toks, n - 1);
      var t := toks[n - 1];
      var rec := if IsPlaceholder(t) then [] else Record(t, PredPos(toks, n - 1));
      RecordAt(t, PredPos(toks, n - 1));
      SortedSnoc(PredSpans(toks, n - 1), rec, PredPos(toks, n - 1), PredPos(toks, n));
    }
  }

  /** Every prediction record has the weight its token gives it. */
  lemma {:induction false} PredWellWeighted(toks: seq<string>, n: nat)
    requires n <= |toks|
    ensures WellWeighted(PredSpans(toks, n))
  {
    if n > 0 {
      PredWellWeighted(toks, n - 1);
    }
  }

  // ---------------------------------------------------------------------------
  // Reading the two files, given as their lists of lines

  /** The ground-truth stream: every line split on single spaces, in order. */
  function GtTokens(lines: seq<string>): seq<string> {
    if |lines| == 0 then [] else GtTokens(DropLast(lines)) + Split(lines[|lines| - 1], ' ')
  }

  /** The ground-truth reading loop `gt += line.split(" ")`. */
  method ReadGroundTruth(lines: seq<string>) returns (gt: seq<string>)
    ensures gt == GtTokens(lines)
  {
    gt := [];
    var k := 0;
    while k < |lines|
      invariant 0 <= k <= |lines|
      invariant gt == GtTokens(lines[..k])
    {
      assert DropLast(lines[..k + 1]) == lines[..k];
      gt := gt + Split(lines[k], ' ');
      k := k + 1;
    }
    assert lines[..k] == lines;
  }

  /** The part of a prediction line the script keeps: from its first exact `(t` on, nothing when there is none. */
  function FromTextTag(words: seq<string>): (r: seq<string>)
    ensures |r| <= |words| && r == words[|words| - |r|..]
    ensures |r| > 0 ==> r[0] == "(t"
    ensures forall j :: 0 <= j < |words| - |r| ==> words[j] != "(t"
  {
    words[IndexOf(words, "(t")..]
  }

  /** The prediction stream: the kept part of every line, in order. */
  function PredTokens(lines: seq<string>): seq<string> {
    if |lines| == 0 then [] else PredTokens(DropLast(lines)) + FromTextTag(Split(lines[|lines| - 1], ' '))
  }

  /** Reading one more line appends its tokens after the text tag. */
  lemma PredTokensStep(lines: seq<string>, k: nat)
    requires k < |lines|
    ensures PredTokens(lines[..k + 1]) == PredTokens(lines[..k]) + FromTextTag(Split(lines[k], ' '))
  {
    assert DropLast(lines[..k + 1]) == lines[..k];
  }

  /** The prediction reading loop with its search for the first `(t`. */
  method ReadPrediction(lines: seq<string>) returns (pred: seq<string>)
    ensures pred == PredTokens(lines)
  {
    pred := [];
    var k := 0;
    assert PredTokens(lines[..0]) == [] by {
      assert lines[..0] == [];
    }
    while k < |lines|
      invariant 0 <= k <= |lines|
      invariant pred == PredTokens(lines[..k])
    {
      PredTokensStep(lines, k);
      var split := Split(lines[k], ' ');
      var help := FindFirst(split, "(t");
      pred := pred + split[help..];
      k := k + 1;
    }
    assert lines[..k] == lines;
  }
}
