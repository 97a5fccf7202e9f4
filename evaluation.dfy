/**
 * The top level of the evaluation script (RNNG/scripts/evaluation.py; the same
 * code in evaluation_fab.py): read both files, build the two record lists, read
 * the position of their last records, and compute one report row per category.
 * The rows are what the script prints, each as its `eval_char` call finishes;
 * printing itself is not modelled.
 */
module Evaluation {
  import opened Text
  import opened Extraction
  import opened Scoring

  /** What a run of the script prints and how it ends: the rows, in order, and whether an IndexError stopped it. */
  datatype Printed = Printed(rows: seq<Score>, raised: bool)

  /** The rows for the categories `cs`, in order; the first category whose test fails stops the script after the rows before it. */
  function Rows(gt: seq<Span>, pred: seq<Span>, cs: seq<Named>): Printed
  {
    if cs == [] then Printed([], false)
    else
      var before := Rows(gt, pred, DropLast(cs));
      if before.raised then before
      else
        match ScoreOf(cs[|cs| - 1], gt, pred)
        case IndexError => Printed(before.rows, true)
        case Ok(row) => Printed(before.rows + [row], false)
  }

  /** The whole script on the lines of the ground-truth file and of the prediction file. */
  function Report(gtLines: seq<string>, predLines: seq<string>): Printed {
    var gt := GtTokens(gtLines);
    if !GtReadable(gt) then Printed([], true)
    else
      var listGt := GtSpans(gt, |gt|);
      var pred := PredTokens(predLines);
      var listPred := PredSpans(pred, |pred|);
      if listGt == [] || listPred == [] then Printed([], true)
      else Rows(listGt, listPred, Categories)
  }

  /** One more category prints its row after those of its prefix, unless the script has already stopped or stops there. */
  lemma RowsStep(gt: seq<Span>, pred: seq<Span>, cs: seq<Named>, k: nat)
    requires k < |cs|
    ensures var before := Rows(gt, pred, cs[..k]);
      Rows(gt, pred, cs[..k + 1]) ==
        if before.raised then before
        else (match ScoreOf(cs[k], gt, pred)
              case IndexError => Printed(before.rows, true)
              case Ok(row) => Printed(before.rows + [row], false))
  {
    assert DropLast(cs[..k + 1]) == cs[..k];
  }

  /** Once a category fails, the script stops: later categories print nothing. */
  lemma {:induction false} RowsFailStays(gt: seq<Span>, pred: seq<Span>, cs: seq<Named>, k: nat)
    requires k <= |cs| && Rows(gt, pred, cs[..k]).raised
    ensures Rows(gt, pred, cs) == Rows(gt, pred, cs[..k])
    decreases |cs| - k
  {
    if k < |cs| {
      RowsStep(gt, pred, cs, k);
      RowsFailStays(gt, pred, cs, k + 1);
    } else {
      assert cs[..k] == cs;
    }
  }

  /**
   * Row `k` is the score of category `k`. The script stops exactly when some
   * category fails, and then the first category without a row is one that fails;
   * otherwise every category has its row.
   */
  lemma {:induction false} RowsShape(gt: seq<Span>, pred: seq<Span>, cs: seq<Named>)
    ensures var r := Rows(gt, pred, cs);
      |r.rows| <= |cs| &&
      (forall k :: 0 <= k < |r.rows| ==> ScoreOf(cs[k], gt, pred) == Ok(r.rows[k])) &&
      (r.raised <==> exists k :: 0 <= k < |cs| && ScoreOf(cs[k], gt, pred).IndexError?) &&
      (r.raised ==> |r.rows| < |cs| && ScoreOf(cs[|r.rows|], gt, pred).IndexError?) &&
      (!r.raised ==> |r.rows| == |cs|)
    decreases |cs|
  {
    if cs != [] {
      var init := DropLast(cs);
      RowsShape(gt, pred, init);
      assert forall k :: 0 <= k < |init| ==> init[k] == cs[k];
    }
  }

  /** Some record carries seven `)` in a row. */
  predicate HasLongRun(spans: seq<Span>) {
    exists k :: 0 <= k < |spans| && LongestRun(spans[k].text) >= 7
  }

  /** Only `T6` can fail a category, and it fails exactly on a record with a run of seven `)`. */
  lemma OnlyLastBucketFails(c: Category, spans: seq<Span>)
    requires ValidCategory(c)
    ensures AnyFails(c, spans) <==> c == Bucket(6) && HasLongRun(spans)
  {
    AnyFailsSome(c, spans);
    if c.Bucket? {
      forall k | 0 <= k < |spans|
        ensures SelectFails(c, spans[k].text) <==> c.n == 6 && LongestRun(spans[k].text) >= 7
      {
        BucketMeaning(c.n, spans[k].text);
      }
    }
  }

  /** The script stops inside the category rows exactly when a record of either list has a run of seven `)`. */
  lemma RowsFail(gt: seq<Span>, pred: seq<Span>)
    ensures Rows(gt, pred, Categories).raised <==> HasLongRun(gt) || HasLongRun(pred)
  {
    RowsShape(gt, pred, Categories);
    forall k | 0 <= k < |Categories|
      ensures ScoreOf(Categories[k], gt, pred).IndexError? <==>
        Categories[k] == Bucket(6) && (HasLongRun(gt) || HasLongRun(pred))
    {
      OnlyLastBucketFails(Categories[k], gt);
      OnlyLastBucketFails(Categories[k], pred);
    }
    assert Categories[9] == Bucket(6);
  }

  /** Every printed row is within its bounds. */
  lemma RowsBounds(gt: seq<Span>, pred: seq<Span>)
    ensures var r := Rows(gt, pred, Categories);
      forall k :: 0 <= k < |r.rows| ==>
        r.rows[k].matches <= r.rows[k].gtTotal && r.rows[k].matches <= r.rows[k].predTotal &&
        0.0 <= r.rows[k].precision <= 100.0 && 0.0 <= r.rows[k].recall <= 100.0
  {
    RowsShape(gt, pred, Categories);
    forall k | 0 <= k < |Categories| {
      ScoreBounds(Categories[k], gt, pred);
    }
  }

  /** A run through all the categories prints one row per category, the `T6` row all zeros. */
  lemma RowsComplete(gt: seq<Span>, pred: seq<Span>)
    ensures var r := Rows(gt, pred, Categories);
      !r.raised ==> |r.rows| == |Categories| && r.rows[9] == Score(0, 0, 0, 0.0, 0.0)
  {
    RowsShape(gt, pred, Categories);
    assert Categories[9] == Bucket(6);
    LastBucketEmpty(gt, pred);
  }

  /** When no category fails, the run goes through and prints one row per category. */
  lemma {:induction false} RowsRunThrough(gt: seq<Span>, pred: seq<Span>, cs: seq<Named>)
    requires forall k :: 0 <= k < |cs| ==> ScoreOf(cs[k], gt, pred).Ok?
    ensures !Rows(gt, pred, cs).raised && |Rows(gt, pred, cs).rows| == |cs|
    decreases |cs|
  {
    if cs != [] {
      var init := DropLast(cs);
      assert forall k :: 0 <= k < |init| ==> init[k] == cs[k];
      RowsRunThrough(gt, pred, init);
    }
  }

  /** When only the last category can fail, a run that stops has printed the rows of all the others, which themselves run through. */
  lemma StopsAtLast(gt: seq<Span>, pred: seq<Span>, cs: seq<Named>)
    requires cs != [] && forall k :: 0 <= k < |cs| - 1 ==> ScoreOf(cs[k], gt, pred).Ok?
    ensures var r := Rows(gt, pred, cs);
      r.raised ==> |r.rows| == |cs| - 1 && Rows(gt, pred, DropLast(cs)) == Printed(r.rows, false)
  {
    var init := DropLast(cs);
    assert forall k :: 0 <= k < |init| ==> init[k] == cs[k];
    RowsRunThrough(gt, pred, init);
  }

  /** The categories before `T6` never fail. */
  lemma LeadingRunThrough(gt: seq<Span>, pred: seq<Span>)
    ensures forall k :: 0 <= k < |Categories| - 1 ==> ScoreOf(Categories[k], gt, pred).Ok?
  {
    forall k | 0 <= k < |Categories| - 1
      ensures ScoreOf(Categories[k], gt, pred).Ok?
    {
      OnlyLastBucketFails(Categories[k], gt);
      OnlyLastBucketFails(Categories[k], pred);
    }
  }

  /** A run that stops has printed the rows of the nine categories before `T6`, which themselves run through. */
  lemma RowsStopAtLast(gt: seq<Span>, pred: seq<Span>)
    ensures var r := Rows(gt, pred, Categories);
      r.raised ==> |r.rows| == 9 && Rows(gt, pred, Leading) == Printed(r.rows, false)
  {
    LeadingRunThrough(gt, pred);
    assert DropLast(Categories) == Leading;
    StopsAtLast(gt, pred, Categories);
  }

  /**
   * The script ends with an IndexError exactly when the ground truth ends inside a
   * `(c` token, when either record list is empty, or when a record carries seven
   * `)` in a row; otherwise it prints one row per category.
   */
  lemma ReportOutcome(gtLines: seq<string>, predLines: seq<string>)
    ensures var gt := GtTokens(gtLines);
      var pred := PredTokens(predLines);
      Report(gtLines, predLines).raised <==>
        !GtReadable(gt) || GtSpans(gt, |gt|) == [] || PredSpans(pred, |pred|) == [] ||
        HasLongRun(GtSpans(gt, |gt|)) || HasLongRun(PredSpans(pred, |pred|))
    ensures !Report(gtLines, predLines).raised ==> |Report(gtLines, predLines).rows| == |Categories|
  {
    var gt := GtTokens(gtLines);
    var pred := PredTokens(predLines);
    if GtReadable(gt) {
      RowsFail(GtSpans(gt, |gt|), PredSpans(pred, |pred|));
      RowsComplete(GtSpans(gt, |gt|), PredSpans(pred, |pred|));
    }
  }

  /**
   * What a stopped run has printed: nothing when the ground truth is unreadable or
   * a record list is empty, and otherwise the rows of the nine categories before `T6`.
   */
  lemma ReportStopped(gtLines: seq<string>, predLines: seq<string>)
    ensures var gt := GtTokens(gtLines);
      var pred := PredTokens(predLines);
      (!GtReadable(gt) || GtSpans(gt, |gt|) == [] || PredSpans(pred, |pred|) == []) ==>
        Report(gtLines, predLines).rows == []
    ensures var gt := GtTokens(gtLines);
      var pred := PredTokens(predLines);
      var r := Report(gtLines, predLines);
      GtReadable(gt) && GtSpans(gt, |gt|) != [] && PredSpans(pred, |pred|) != [] && r.raised ==>
        |r.rows| == 9 && Rows(GtSpans(gt, |gt|), PredSpans(pred, |pred|), Leading) == Printed(r.rows, false)
  {
    var gt := GtTokens(gtLines);
    var pred := PredTokens(predLines);
    if GtReadable(gt) {
      var listGt := GtSpans(gt, |gt|);
      var listPred := PredSpans(pred, |pred|);
      if listGt != [] && listPred != [] {
        assert Report(gtLines, predLines) == Rows(listGt, listPred, Categories);
        RowsStopAtLast(listGt, listPred);
      }
    }
  }

  /** The script's top level: read, extract, check the last records, and one `eval_char` per category. */
  method Evaluate(gtLines: seq<string>, predLines: seq<string>) returns (r: Printed)
    ensures r == Report(gtLines, predLines)
  {
    var gt := ReadGroundTruth(gtLines);
    var extracted := ExtractGroundTruth(gt);
    if extracted.IndexError? {
      return Printed([], true);
    }
    var listGt := extracted.value;
    var pred := ReadPrediction(predLines);
    var listPred := ExtractPrediction(pred);
    if |listGt| == 0 || |listPred| == 0 {
      return Printed([], true);
    }
    var rows: seq<Score> := [];
    var k := 0;
    while k < |Categories|
      invariant 0 <= k <= |Categories|
      invariant Rows(listGt, listPred, Categories[..k]) == Printed(rows, false)
    {
      RowsStep(listGt, listPred, Categories, k);
      var row := EvalChar(listGt, listPred, Categories[k]);
      if row.IndexError? {
        RowsFailStays(listGt, listPred, Categories, k + 1);
        return Printed(rows, true);
      }
      rows := rows + [row.value];
      k := k + 1;
    }
    assert Categories[..k] == Categories;
    return Printed(rows, false);
  }
}
