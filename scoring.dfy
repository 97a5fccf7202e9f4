/**
 * Category scoring of the evaluation script (`eval_char` in
 * RNNG/scripts/evaluation.py, repeated line for line in evaluation_fab.py):
 * selecting the records of one category, summing their weights, matching
 * predicted records greedily one-to-one against a copy of the ground truth,
 * and the two guarded percentages.
 */
module Scoring {
  import opened Text
  import opened Extraction

  /** A report category: a tag compared by text (`(t`, `(s`, `(seg`, `))`) or a depth bucket `Tn`. */
  datatype Category = Tag(name: string) | Bucket(n: nat)

  /** The script's `t_list`: runs of two to seven `)`. */
  const TList: seq<string> := ["))", ")))", "))))", ")))))", "))))))", ")))))))"]

  /** `T1` to `T6` are the buckets the script knows how to name. */
  predicate ValidCategory(c: Category) {
    c.Bucket? ==> 1 <= c.n <= 6
  }

  /** A category the script can name. */
  type Named = c: Category | ValidCategory(c) witness Tag("(t")

  /** The report's categories before `T6`, in order. */
  const Leading: seq<Named> := [Tag("(t"), Tag("(s"), Tag("(seg"), Tag("))"),
    Bucket(1), Bucket(2), Bucket(3), Bucket(4), Bucket(5)]

  /** The report's categories in order (the script's `chars`). */
  const Categories: seq<Named> := Leading + [Bucket(6)]

  /** The test of bucket `Tn` reads `t_list[n]` once it has found `t_list[n-1]`; for `T6` that read is out of range. */
  predicate SelectFails(c: Category, text: string)
    requires ValidCategory(c)
  {
    c.Bucket? && HasInfix(text, TList[c.n - 1]) && c.n >= |TList|
  }

  /** The category test of `eval_char`, when it does not fail. */
  predicate Selects(c: Category, text: string)
    requires ValidCategory(c)
  {
    match c
    case Bucket(n) => HasInfix(text, TList[n - 1]) && n < |TList| && !HasInfix(text, TList[n])
    case Tag(name) => name == text || (HasInfix(text, name) && name == "))")
  }

  /** Some record of the list makes the category test fail. */
  predicate AnyFails(c: Category, spans: seq<Span>)
    requires ValidCategory(c)
  {
    spans != [] && (AnyFails(c, DropLast(spans)) || SelectFails(c, spans[|spans| - 1].text))
  }

  /** `AnyFails` holds exactly when some record of the list makes the test fail. */
  lemma {:induction false} AnyFailsSome(c: Category, spans: seq<Span>)
    requires ValidCategory(c)
    ensures AnyFails(c, spans) <==> exists k :: 0 <= k < |spans| && SelectFails(c, spans[k].text)
    decreases |spans|
  {
    if spans != [] {
      var init := DropLast(spans);
      AnyFailsSome(c, init);
      assert forall k :: 0 <= k < |init| ==> init[k] == spans[k];
    }
  }

  /** A failure in a prefix is a failure of the whole list. */
  lemma {:induction false} AnyFailsPrefix(c: Category, spans: seq<Span>, n: nat)
    requires ValidCategory(c) && n <= |spans| && AnyFails(c, spans[..n])
    ensures AnyFails(c, spans)
    decreases |spans| - n
  {
    if n < |spans| {
      assert DropLast(spans[..n + 1]) == spans[..n];
      AnyFailsPrefix(c, spans, n + 1);
    } else {
      assert spans[..n] == spans;
    }
  }

  // ---------------------------------------------------------------------------
  // What the bucket and tag tests mean

  /** Length of the run of `)` that `s` starts with. */
  function LeadingCloses(s: string): nat {
    if |s| > 0 && s[0] == ')' then 1 + LeadingCloses(s[1..]) else 0
  }

  /** Length of the longest run of `)` in `s`. */
  function LongestRun(s: string): nat {
    if s == [] then 0 else if LeadingCloses(s) >= LongestRun(s[1..]) then LeadingCloses(s) else LongestRun(s[1..])
  }

  /** `s` starts with `k` closing brackets exactly when its leading run is at least `k` long. */
  lemma {:induction false} StartsWithRun(s: string, k: nat)
    ensures StartsWith(s, Repeat(')', k)) <==> LeadingCloses(s) >= k
    decreases k
  {
    if k > 0 && |s| > 0 {
      var r := Repeat(')', k);
      var r' := Repeat(')', k - 1);
      StartsWithRun(s[1..], k - 1);
      assert r == [')'] + r' by {
        assert forall i :: 0 <= i < k ==> r[i] == ([')'] + r')[i];
      }
      if k <= |s| {
        assert s[..k] == [s[0]] + s[1..][..k - 1];
      }
    }
  }

  /** `k` closing brackets in a row occur in `s` exactly when its longest run is at least `k` long. */
  lemma {:induction false} HasRun(s: string, k: nat)
    ensures HasInfix(s, Repeat(')', k)) <==> LongestRun(s) >= k
    decreases |s|
  {
    StartsWithRun(s, k);
    if s == [] {
      assert StartsWith(s, Repeat(')', k)) <==> k == 0;
    } else {
      HasRun(s[1..], k);
    }
  }

  /** Entry `n` of `t_list` is a run of `n + 2` closing brackets. */
  lemma TListRuns(n: nat)
    requires n < |TList|
    ensures TList[n] == Repeat(')', n + 2)
  {
    var r := Repeat(')', n + 2);
    assert TList[n] == r by {
      assert forall i :: 0 <= i < n + 2 ==> r[i] == ')';
    }
  }

  /**
   * Bucket `Tn` selects exactly the records whose longest run of `)` has length
   * `n + 1` (closers of depth `n`), and fails exactly on a run of seven or more
   * when `n` is 6.
   */
  lemma BucketMeaning(n: nat, text: string)
    requires 1 <= n <= 6
    ensures Selects(Bucket(n), text) <==> n < 6 && LongestRun(text) == n + 1
    ensures SelectFails(Bucket(n), text) <==> n == 6 && LongestRun(text) >= 7
  {
    TListRuns(n - 1);
    HasRun(text, n + 1);
    if n < 6 {
      TListRuns(n);
      HasRun(text, n + 2);
    }
  }

  /** No record is counted by two buckets. */
  lemma BucketsExclusive(a: nat, b: nat, text: string)
    requires 1 <= a <= 6 && 1 <= b <= 6
    requires Selects(Bucket(a), text) && Selects(Bucket(b), text)
    ensures a == b
  {
    BucketMeaning(a, text);
    BucketMeaning(b, text);
  }

  /** A tag other than `))` selects only its own exact text; `))` selects every text with two `)` in a row. */
  lemma TagMeaning(name: string, text: string)
    ensures name != "))" ==> (Selects(Tag(name), text) <==> text == name)
    ensures Selects(Tag("))"), text) <==> LongestRun(text) >= 2
  {
    TListRuns(0);
    HasRun(text, 2);
  }

  // ---------------------------------------------------------------------------
  // Selection and totals

  /** What one selected record adds to a total: 1 in a bucket, its weight otherwise. */
  function Unit(c: Category, s: Span): nat {
    if c.Bucket? then 1 else s.weight
  }

  /** Sum of `Unit` over a list. */
  function Weigh(c: Category, spans: seq<Span>): nat {
    if spans == [] then 0 else Weigh(c, DropLast(spans)) + Unit(c, spans[|spans| - 1])
  }

  /** The total of a concatenation is the sum of the totals. */
  lemma {:induction false} WeighAppend(c: Category, a: seq<Span>, b: seq<Span>)
    ensures Weigh(c, a + b) == Weigh(c, a) + Weigh(c, b)
    decreases |b|
  {
    if b == [] {
      assert a + b == a;
    } else {
      assert DropLast(a + b) == a + DropLast(b);
      WeighAppend(c, a, DropLast(b));
    }
  }

  /** The total read from the front: the first record's unit plus the rest. */
  lemma WeighCons(c: Category, s: seq<Span>)
    requires s != []
    ensures Weigh(c, s) == Unit(c, s[0]) + Weigh(c, s[1..])
  {
    assert s == [s[0]] + s[1..];
    WeighAppend(c, [s[0]], s[1..]);
    assert DropLast([s[0]]) == [];
  }

  /** The records of a list that belong to the category, in list order (`char_list` for the prediction). */
  function Selected(c: Category, spans: seq<Span>): seq<Span>
    requires ValidCategory(c)
  {
    if spans == [] then []
    else
      var s := spans[|spans| - 1];
      Selected(c, DropLast(spans)) + (if Selects(c, s.text) then [s] else [])
  }

  /** `Selected` keeps records of the list, each at most as often as it occurs there. */
  lemma {:induction false} SelectedSublist(c: Category, spans: seq<Span>)
    requires ValidCategory(c)
    ensures multiset(Selected(c, spans)) <= multiset(spans)
    decreases |spans|
  {
    if spans != [] {
      var s := spans[|spans| - 1];
      SelectedSublist(c, DropLast(spans));
      assert spans == DropLast(spans) + [s];
    }
  }

  /** `Selected` is a filter: it keeps only selected records, and all of them. */
  lemma {:induction false} SelectedFilter(c: Category, spans: seq<Span>)
    requires ValidCategory(c)
    ensures forall s :: s in Selected(c, spans) ==> Selects(c, s.text)
    ensures forall s :: s in spans && Selects(c, s.text) ==> s in Selected(c, spans)
    decreases |spans|
  {
    if spans != [] {
      var s := spans[|spans| - 1];
      SelectedFilter(c, DropLast(spans));
      assert spans == DropLast(spans) + [s];
    }
  }

  /** Selecting from a list with one more record at the end: that record is added when it is selected. */
  lemma SelectedSnoc(c: Category, a: seq<Span>, b: seq<Span>)
    requires ValidCategory(c) && b != []
    ensures Selected(c, a + b) == Selected(c, a + DropLast(b)) + (if Selects(c, b[|b| - 1].text) then [b[|b| - 1]] else [])
  {
    var ab := a + b;
    assert ab[|ab| - 1] == b[|b| - 1];
    assert DropLast(ab) == a + DropLast(b);
  }

  /** Selection distributes over concatenation. */
  lemma {:induction false} SelectedAppend(c: Category, a: seq<Span>, b: seq<Span>)
    requires ValidCategory(c)
    ensures Selected(c, a + b) == Selected(c, a) + Selected(c, b)
    decreases |b|
  {
    if b == [] {
      assert a + b == a;
    } else {
      SelectedSnoc(c, a, b);
      SelectedSnoc(c, [], b);
      assert [] + b == b && [] + DropLast(b) == DropLast(b);
      SelectedAppend(c, a, DropLast(b));
      var last := if Selects(c, b[|b| - 1].text) then [b[|b| - 1]] else [];
      ConcatAssoc(Selected(c, a), Selected(c, DropLast(b)), last);
    }
  }

  // ---------------------------------------------------------------------------
  // Greedy matching

  /** Same text and same position: the key the matching compares. */
  predicate SameKey(a: Span, b: Span) {
    a.text == b.text && a.pos == b.pos
  }

  /** Index of the first record of `pool` with the key of `s`, or `|pool|`. */
  function FirstMatch(pool: seq<Span>, s: Span): (j: nat)
    ensures j <= |pool|
    ensures j < |pool| ==> SameKey(pool[j], s)
    ensures forall k :: 0 <= k < j ==> !SameKey(pool[k], s)
  {
    if pool == [] || SameKey(pool[0], s) then 0 else 1 + FirstMatch(pool[1..], s)
  }

  /** A scan that has not reached the first hit and sees another key may move on. */
  lemma FirstMatchSkips(pool: seq<Span>, s: Span, i: nat)
    requires i <= FirstMatch(pool, s) && i < |pool| && !SameKey(pool[i], s)
    ensures i < FirstMatch(pool, s)
  {
  }

  /** A record of the pool is always found. */
  lemma FirstMatchFinds(pool: seq<Span>, s: Span)
    requires s in pool
    ensures FirstMatch(pool, s) < |pool|
  {
    var k :| 0 <= k < |pool| && pool[k] == s;
    assert SameKey(pool[k], s);
  }

  /** The credit of a hit: 1 in a bucket, else the smaller of the two weights. */
  function Credit(c: Category, cand: Span, g: Span): (m: nat)
    ensures m <= Unit(c, cand) && m <= Unit(c, g)
    ensures m == Unit(c, cand) <==> c.Bucket? || cand.weight <= g.weight
  {
    if c.Bucket? then 1 else if cand.weight <= g.weight then cand.weight else g.weight
  }

  /** `pool.pop(j)`. */
  function RemoveAt(pool: seq<Span>, j: nat): (r: seq<Span>)
    requires j < |pool|
    ensures |r| == |pool| - 1
  {
    pool[..j] + pool[j + 1..]
  }

  /** Popping takes exactly that one record out of the pool. */
  lemma RemoveAtParts(pool: seq<Span>, j: nat)
    requires j < |pool|
    ensures multiset(RemoveAt(pool, j)) + multiset{pool[j]} == multiset(pool)
    ensures forall s :: s in RemoveAt(pool, j) ==> s in pool
  {
    assert pool == pool[..j] + [pool[j]] + pool[j + 1..];
  }

  /**
   * Greedy one-to-one matching: each candidate in turn takes the first remaining
   * record with its key, and that record leaves the pool. The result is the
   * credit and what is left of the pool.
   */
  function Match(c: Category, cands: seq<Span>, pool: seq<Span>): (nat, seq<Span>)
    decreases |cands|
  {
    if cands == [] then (0, pool)
    else
      var j := FirstMatch(pool, cands[0]);
      if j == |pool| then Match(c, cands[1..], pool)
      else
        var m := Match(c, cands[1..], RemoveAt(pool, j));
        (Credit(c, cands[0], pool[j]) + m.0, m.1)
  }

  /** Each candidate consumes at most one record, and only records of the pool. */
  lemma {:induction false} MatchConsumes(c: Category, cands: seq<Span>, pool: seq<Span>)
    ensures multiset(Match(c, cands, pool).1) <= multiset(pool)
    ensures |pool| - |Match(c, cands, pool).1| <= |cands|
    decreases |cands|
  {
    if cands != [] {
      var j := FirstMatch(pool, cands[0]);
      if j == |pool| {
        MatchConsumes(c, cands[1..], pool);
      } else {
        MatchConsumes(c, cands[1..], RemoveAt(pool, j));
        RemoveAtParts(pool, j);
      }
    }
  }

  /** The credit never exceeds the candidates' own total. */
  lemma {:induction false} MatchWithinCandidates(c: Category, cands: seq<Span>, pool: seq<Span>)
    ensures Match(c, cands, pool).0 <= Weigh(c, cands)
    decreases |cands|
  {
    if cands != [] {
      WeighCons(c, cands);
      var j := FirstMatch(pool, cands[0]);
      if j == |pool| {
        MatchWithinCandidates(c, cands[1..], pool);
      } else {
        MatchWithinCandidates(c, cands[1..], RemoveAt(pool, j));
      }
    }
  }

  /** Removing a selected record takes its unit out of the selected total. */
  lemma RemoveSelected(c: Category, pool: seq<Span>, j: nat)
    requires ValidCategory(c) && j < |pool| && Selects(c, pool[j].text)
    ensures Weigh(c, Selected(c, pool)) == Weigh(c, Selected(c, RemoveAt(pool, j))) + Unit(c, pool[j])
  {
    var a, x, b := pool[..j], pool[j], pool[j + 1..];
    assert pool == a + [x] + b;
    SelectedAppend(c, a + [x], b);
    SelectedAppend(c, a, [x]);
    SelectedAppend(c, a, b);
    assert Selected(c, [x]) == [x] by {
      assert DropLast([x]) == [];
    }
    WeighAppend(c, Selected(c, a) + [x], Selected(c, b));
    WeighAppend(c, Selected(c, a), [x]);
    WeighAppend(c, Selected(c, a), Selected(c, b));
    assert DropLast([x]) == [];
  }

  /** The credit of selected candidates never exceeds the selected total of the ground truth they are matched against. */
  lemma {:induction false} MatchWithinPool(c: Category, cands: seq<Span>, pool: seq<Span>)
    requires ValidCategory(c)
    requires forall s :: s in cands ==> Selects(c, s.text)
    ensures Match(c, cands, pool).0 <= Weigh(c, Selected(c, pool))
    decreases |cands|
  {
    if cands != [] {
      var j := FirstMatch(pool, cands[0]);
      assert cands[0] in cands;
      assert forall s :: s in cands[1..] ==> s in cands;
      if j == |pool| {
        MatchWithinPool(c, cands[1..], pool);
      } else {
        MatchWithinPool(c, cands[1..], RemoveAt(pool, j));
        RemoveSelected(c, pool, j);
      }
    }
  }

  /** Taking one copy of `x` from both sides keeps one multiset inside the other. */
  lemma MultisetCancel(a: multiset<Span>, b: multiset<Span>, x: Span)
    requires a + multiset{x} <= b + multiset{x}
    ensures a <= b
  {
    forall y ensures a[y] <= b[y] {
      assert (a + multiset{x})[y] <= (b + multiset{x})[y];
    }
  }

  /** When weights follow texts and every candidate is still in the pool, every candidate gets its full credit. */
  lemma {:induction false} MatchAll(c: Category, cands: seq<Span>, pool: seq<Span>)
    requires WellWeighted(pool)
    requires multiset(cands) <= multiset(pool)
    ensures Match(c, cands, pool).0 == Weigh(c, cands)
    decreases |cands|
  {
    if cands != [] {
      var x := cands[0];
      assert cands == [x] + cands[1..];
      assert x in multiset(cands);
      FirstMatchFinds(pool, x);
      var j := FirstMatch(pool, x);
      assert pool[j] in pool;
      assert pool[j] == x;
      var rest := RemoveAt(pool, j);
      RemoveAtParts(pool, j);
      assert multiset(cands) == multiset(cands[1..]) + multiset{x};
      MultisetCancel(multiset(cands[1..]), multiset(rest), x);
      MatchAll(c, cands[1..], rest);
      WeighCons(c, cands);
    }
  }

  // ---------------------------------------------------------------------------
  // One row of the report

  /** A category's row: the two totals, the credit and the two guarded percentages. */
  datatype Score = Score(gtTotal: nat, predTotal: nat, matches: nat, precision: real, recall: real)

  /** `0 if total == 0 else (m / total) * 100`, exact. */
  function Percent(m: nat, total: nat): (r: real)
    ensures total == 0 ==> r == 0.0
    ensures m <= total ==> 0.0 <= r <= 100.0
    ensures 0 < total && m == total ==> r == 100.0
  {
    if total == 0 then 0.0 else (m as real / total as real) * 100.0
  }

  /** What `eval_char` computes for one category. */
  function ScoreOf(c: Category, gt: seq<Span>, pred: seq<Span>): Result<Score>
    requires ValidCategory(c)
  {
    if AnyFails(c, gt) || AnyFails(c, pred) then IndexError
    else
      var g := Weigh(c, Selected(c, gt));
      var p := Weigh(c, Selected(c, pred));
      var m := Match(c, Selected(c, pred), gt).0;
      Ok(Score(g, p, m, Percent(m, g), Percent(m, p)))
  }

  /** The credit is bounded by both totals, so both percentages lie between 0 and 100. */
  lemma ScoreBounds(c: Category, gt: seq<Span>, pred: seq<Span>)
    requires ValidCategory(c)
    ensures ScoreOf(c, gt, pred).Ok? ==>
      var s := ScoreOf(c, gt, pred).value;
      s.matches <= s.gtTotal && s.matches <= s.predTotal &&
      0.0 <= s.precision <= 100.0 && 0.0 <= s.recall <= 100.0
  {
    SelectedFilter(c, pred);
    MatchWithinPool(c, Selected(c, pred), gt);
    MatchWithinCandidates(c, Selected(c, pred), gt);
  }

  /** A prediction identical to the ground truth scores full marks in every category. */
  lemma PerfectPrediction(c: Category, spans: seq<Span>)
    requires ValidCategory(c) && WellWeighted(spans)
    ensures ScoreOf(c, spans, spans).Ok? <==> !AnyFails(c, spans)
    ensures ScoreOf(c, spans, spans).Ok? ==>
      var s := ScoreOf(c, spans, spans).value;
      s.matches == s.gtTotal == s.predTotal &&
      (s.gtTotal > 0 ==> s.precision == 100.0 && s.recall == 100.0)
  {
    SelectedSublist(c, spans);
    MatchAll(c, Selected(c, spans), spans);
  }

  /** The `T6` test never selects a record. */
  lemma {:induction false} LastBucketSelectsNothing(spans: seq<Span>)
    ensures Selected(Bucket(6), spans) == []
    decreases |spans|
  {
    if spans != [] {
      LastBucketSelectsNothing(DropLast(spans));
    }
  }

  /** `T6` never counts anything: it fails on a run of seven `)`, and otherwise reports zeros. */
  lemma LastBucketEmpty(gt: seq<Span>, pred: seq<Span>)
    ensures ScoreOf(Bucket(6), gt, pred).IndexError? <==> AnyFails(Bucket(6), gt) || AnyFails(Bucket(6), pred)
    ensures ScoreOf(Bucket(6), gt, pred).Ok? ==> ScoreOf(Bucket(6), gt, pred).value == Score(0, 0, 0, 0.0, 0.0)
  {
    LastBucketSelectsNothing(gt);
    LastBucketSelectsNothing(pred);
  }

  // ---------------------------------------------------------------------------
  // The loops of `eval_char`

  /** What a selection loop holds after the first `i` records: no failure, the selected records and their total. */
  predicate SelectInv(c: Category, spans: seq<Span>, i: nat, total: int, charList: seq<Span>)
    requires ValidCategory(c) && i <= |spans|
  {
    !AnyFails(c, spans[..i]) && charList == Selected(c, spans[..i]) && total == Weigh(c, charList)
  }

  /** One record of a selection loop: a failure, a selected record, or a skipped one. */
  lemma SelectStep(c: Category, spans: seq<Span>, i: nat, total: int, charList: seq<Span>)
    requires ValidCategory(c) && i < |spans| && SelectInv(c, spans, i, total, charList)
    ensures SelectFails(c, spans[i].text) ==> AnyFails(c, spans)
    ensures !SelectFails(c, spans[i].text) && Selects(c, spans[i].text) ==>
      SelectInv(c, spans, i + 1, total + Unit(c, spans[i]), charList + [spans[i]])
    ensures !SelectFails(c, spans[i].text) && !Selects(c, spans[i].text) ==>
      SelectInv(c, spans, i + 1, total, charList)
  {
    assert DropLast(spans[..i + 1]) == spans[..i];
    assert DropLast(charList + [spans[i]]) == charList;
    if SelectFails(c, spans[i].text) {
      AnyFailsPrefix(c, spans, i + 1);
    }
  }

  /**
   * The category test of `eval_char` on one record: whether it fails (`T6`
   * reading `t_list[6]`) and, when it does not, whether the record is selected.
   */
  method Classify(c: Category, text: string) returns (fails: bool, picked: bool)
    requires ValidCategory(c)
    ensures fails == SelectFails(c, text)
    ensures !fails ==> picked == Selects(c, text)
  {
    fails, picked := false, false;
    if c.Bucket? {
      if HasInfix(text, TList[c.n - 1]) {
        if c.n >= |TList| {
          fails := true;
        } else if !HasInfix(text, TList[c.n]) {
          picked := true;
        }
      }
    } else if c.name == text || (HasInfix(text, c.name) && c.name == "))") {
      picked := true;
    }
  }

  /**
   * One selection loop of `eval_char` (the script runs it on the ground truth for
   * `chars_gt` and on the prediction for `chars_pred` and `char_list`): the total
   * of the selected records and the records themselves, in order, or the failure.
   */
  method SelectCategory(spans: seq<Span>, c: Category) returns (r: Result<(nat, seq<Span>)>)
    requires ValidCategory(c)
    ensures r.IndexError? <==> AnyFails(c, spans)
    ensures r.Ok? ==> r.value.1 == Selected(c, spans) && r.value.0 == Weigh(c, r.value.1)
  {
    var total := 0;
    var charList: seq<Span> := [];
    var i := 0;
    while i < |spans|
      invariant 0 <= i <= |spans|
      invariant SelectInv(c, spans, i, total, charList)
    {
      var elem := spans[i];
      SelectStep(c, spans, i, total, charList);
      var fails, picked := Classify(c, elem.text);
      if fails {
        return IndexError;
      }
      if picked {
        // a bucket counts each record once, any other category by its weight
        total := total + (if c.Bucket? then 1 else elem.weight);
        charList := charList + [elem];
      }
      i := i + 1;
    }
    assert spans[..i] == spans;
    return Ok((total, charList));
  }

  /** The matching loop of `eval_char`: each candidate removes the first ground-truth record with its key. */
  method GreedyMatch(charList: seq<Span>, listGt: seq<Span>, c: Category) returns (matches: nat)
    ensures matches == Match(c, charList, listGt).0
    ensures matches <= Weigh(c, charList)
  {
    matches := 0;
    var gtCopy := listGt;
    var k := 0;
    while k < |charList|
      invariant 0 <= k <= |charList|
      invariant matches + Match(c, charList[k..], gtCopy).0 == Match(c, charList, listGt).0
    {
      var elem := charList[k];
      assert charList[k..][0] == elem && charList[k..][1..] == charList[k + 1..];
      var j := 0;
      while j < |gtCopy| && !(elem.text == gtCopy[j].text && elem.pos == gtCopy[j].pos)
        invariant 0 <= j <= FirstMatch(gtCopy, elem)
      {
        FirstMatchSkips(gtCopy, elem, j);
        j := j + 1;
      }
      if j < |gtCopy| {
        if c.Bucket? {
          matches := matches + 1;
        } else {
          matches := matches + (if elem.weight <= gtCopy[j].weight then elem.weight else gtCopy[j].weight);
        }
        gtCopy := RemoveAt(gtCopy, j);
      }
      k := k + 1;
    }
    assert charList[k..] == [];
    MatchWithinCandidates(c, charList, listGt);
  }

  /** `eval_char`: the two selection loops, the greedy matching against a copy of the ground truth, the percentages. */
  method EvalChar(listGt: seq<Span>, listPred: seq<Span>, c: Category) returns (r: Result<Score>)
    requires ValidCategory(c)
    ensures r == ScoreOf(c, listGt, listPred)
    ensures r.Ok? ==> r.value.matches <= r.value.gtTotal && r.value.matches <= r.value.predTotal
    ensures r.Ok? ==> 0.0 <= r.value.precision <= 100.0 && 0.0 <= r.value.recall <= 100.0
  {
    var gtSide := SelectCategory(listGt, c);
    if gtSide.IndexError? {
      return IndexError;
    }
    var predSide := SelectCategory(listPred, c);
    if predSide.IndexError? {
      return IndexError;
    }
    var charsGt := gtSide.value.0;
    var charsPred, charList := predSide.value.0, predSide.value.1;
    var matches := GreedyMatch(charList, listGt, c);
    var prec := Percent(matches, charsGt);
    var rec := Percent(matches, charsPred);
    ScoreBounds(c, listGt, listPred);
    r := Ok(Score(charsGt, charsPred, matches, prec, rec));
  }
}
