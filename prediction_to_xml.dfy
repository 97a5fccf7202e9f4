/**
 * The correction step of RNNG/scripts/prediction_to_XML.py. The network writes
 * every terminal of its parse as `(XX guess)` followed by the closing brackets
 * of the constituents it ends; the script puts back the real `(w word)` or
 * `(c char)` from the network's input, keeps the brackets beyond the first, and
 * copies every other token. The result is the corrected bracket string from
 * which the TEI file is built (building the XML is not modelled).
 */
module PredictionToXml {
  import opened Text
  import opened Extraction

  // ---------------------------------------------------------------------------
  // get_clips

  /** The number of `)` that `get_clips` keeps: all of them but the first. */
  function ClipCount(s: string): nat {
    if Count(s, ')') == 0 then 0 else Count(s, ')') - 1
  }

  /** The brackets a network token closes beyond the terminal itself. */
  function Clips(s: string): string {
    Repeat(')', ClipCount(s))
  }

  /** `get_clips`: one `)` for every `)` of `s` after the first. */
  method GetClips(s: string) returns (clips: string)
    ensures clips == Clips(s)
    ensures forall k :: 0 <= k < |clips| ==> clips[k] == ')'
    ensures Count(s, ')') == 0 ==> clips == ""
    ensures Count(s, ')') > 0 ==> |clips| == Count(s, ')') - 1
  {
    var first := true;
    clips := "";
    var i := 0;
    while i < |s|
      invariant 0 <= i <= |s|
      invariant first <==> Count(s[..i], ')') == 0
      invariant clips == Clips(s[..i])
    {
      CountSnoc(s, i, ')');
      if s[i] == ')' {
        clips := clips + (if first then "" else ")");
        first := false;
      }
      i := i + 1;
    }
    assert s[..i] == s;
  }

  /** Characters other than `)` around a token do not change its clips. */
  lemma ClipsIgnoresOthers(s: string, t: string)
    requires Count(t, ')') == 0
    ensures Clips(t + s) == Clips(s) && Clips(s + t) == Clips(s)
  {
    CountAppend(t, s, ')');
    CountAppend(s, t, ')');
  }

  /** A guess without brackets followed by `d + 1` closing brackets yields the last `d` of them. */
  lemma ClipsOfRun(g: string, d: nat)
    requires Count(g, ')') == 0
    ensures Clips(g + Repeat(')', d + 1)) == Repeat(')', d)
  {
    CountAppend(g, Repeat(')', d + 1), ')');
    CountRepeat(')', ')', d + 1);
  }

  // ---------------------------------------------------------------------------
  // The pairs `(w word)` / `(c char)` of the network input

  /** A token that opens a terminal of the network input. */
  predicate IsLeafOpener(t: string) {
    IsWordOpener(t) || IsCharOpener(t)
  }

  /** `w_and_c`: every terminal opener joined to the token after it; an opener at the very end fails. */
  function WordsAndChars(ni: seq<string>): Result<seq<string>>
    decreases |ni|
  {
    if ni == [] then Ok([])
    else if IsLeafOpener(ni[0]) then
      if |ni| == 1 then IndexError else Prepend([ni[0] + " " + ni[1]], WordsAndChars(ni[1..]))
    else WordsAndChars(ni[1..])
  }

  /** The first loop of `get_full_prediction`. */
  method CollectWordsAndChars(ni: seq<string>) returns (r: Result<seq<string>>)
    ensures r == WordsAndChars(ni)
  {
    var wc: seq<string> := [];
    var i := 0;
    while i < |ni|
      invariant 0 <= i <= |ni|
      invariant WordsAndChars(ni) == Prepend(wc, WordsAndChars(ni[i..]))
    {
      assert ni[i..][1..] == ni[i + 1..];
      if IsWordOpener(ni[i]) || IsCharOpener(ni[i]) {
        if i + 1 >= |ni| {
          return IndexError;
        }
        PrependTwice(wc, [ni[i] + " " + ni[i + 1]], WordsAndChars(ni[i + 1..]));
        wc := wc + [ni[i] + " " + ni[i + 1]];
      }
      i := i + 1;
    }
    assert ni[i..] == [] && wc + [] == wc;
    return Ok(wc);
  }

  /** Collecting the pairs fails exactly when the input ends with a terminal opener. */
  lemma {:induction false} WordsAndCharsFails(ni: seq<string>)
    ensures WordsAndChars(ni).IndexError? <==> |ni| > 0 && IsLeafOpener(ni[|ni| - 1])
    decreases |ni|
  {
    if |ni| > 1 {
      WordsAndCharsFails(ni[1..]);
    }
  }

  /** The number of terminal openers in the network input. */
  function OpenerCount(ni: seq<string>): nat
    decreases |ni|
  {
    if ni == [] then 0 else (if IsLeafOpener(ni[0]) then 1 else 0) + OpenerCount(ni[1..])
  }

  /** When collecting succeeds there is exactly one pair per terminal opener. */
  lemma {:induction false} WordsAndCharsCount(ni: seq<string>)
    ensures WordsAndChars(ni).Ok? ==> |WordsAndChars(ni).value| == OpenerCount(ni)
    decreases |ni|
  {
    if ni != [] {
      WordsAndCharsCount(ni[1..]);
    }
  }

  // ---------------------------------------------------------------------------
  // get_full_prediction

  /**
   * The corrected prediction before its last two characters are dropped: every
   * `(XX` token and the token after it become the next pair of `wc` plus that
   * token's clips, every other token is copied, each followed by a space. Running
   * out of pairs, or an `(XX` as the last token, fails.
   */
  function Repair(pred: seq<string>, wc: seq<string>): Result<string>
    decreases |pred|
  {
    if pred == [] then Ok("")
    else if IsPlaceholder(pred[0]) then
      if wc == [] || |pred| == 1 then IndexError
      else Prepend(wc[0] + Clips(pred[1]) + " ", Repair(pred[2..], wc[1..]))
    else Prepend(pred[0] + " ", Repair(pred[1..], wc))
  }

  /** Python's `s[:-2]`. */
  function DropTwo(s: string): (r: string)
    ensures |s| >= 2 ==> s == r + s[|s| - 2..]
    ensures |s| < 2 ==> r == ""
  {
    if |s| >= 2 then s[..|s| - 2] else ""
  }

  /** `get_full_prediction(network_input, pred)`. */
  function FullPrediction(ni: seq<string>, pred: seq<string>): Result<string> {
    match WordsAndChars(ni)
    case IndexError => IndexError
    case Ok(wc) =>
      match Repair(pred, wc)
      case IndexError => IndexError
      case Ok(s) => Ok(DropTwo(s))
  }

  /**
   * The state of the correcting loop before position `i`: `full` is written, the
   * pairs before `counter` are used, and when `skip` is set the token at `i`
   * was already consumed as the word of an `(XX`.
   */
  predicate RepairInv(pred: seq<string>, wc: seq<string>, i: nat, counter: nat, skip: bool, full: string) {
    var j := if skip then i + 1 else i;
    j <= |pred| && counter <= |wc| &&
    Repair(pred, wc) == Prepend(full, Repair(pred[j..], wc[counter..]))
  }

  /** The loop's step at an `(XX` token. */
  lemma RepairSlotStep(pred: seq<string>, wc: seq<string>, i: nat, counter: nat, full: string)
    requires RepairInv(pred, wc, i, counter, false, full)
    requires i < |pred| && IsPlaceholder(pred[i])
    ensures counter == |wc| || i + 1 == |pred| ==> Repair(pred, wc).IndexError?
    ensures counter < |wc| && i + 1 < |pred| ==>
      RepairInv(pred, wc, i + 1, counter + 1, true, full + (wc[counter] + Clips(pred[i + 1]) + " "))
  {
    assert pred[i..][0] == pred[i];
    if counter < |wc| && i + 1 < |pred| {
      assert pred[i..][1] == pred[i + 1];
      assert pred[i..][2..] == pred[i + 2..];
      assert wc[counter..][0] == wc[counter];
      assert wc[counter..][1..] == wc[counter + 1..];
      PrependTwice(full, wc[counter] + Clips(pred[i + 1]) + " ", Repair(pred[i + 2..], wc[counter + 1..]));
    }
  }

  /** The loop's step at any other token that is not skipped. */
  lemma RepairCopyStep(pred: seq<string>, wc: seq<string>, i: nat, counter: nat, full: string)
    requires RepairInv(pred, wc, i, counter, false, full)
    requires i < |pred| && !IsPlaceholder(pred[i])
    ensures RepairInv(pred, wc, i + 1, counter, false, full + (pred[i] + " "))
  {
    assert pred[i..][0] == pred[i];
    assert pred[i..][1..] == pred[i + 1..];
    PrependTwice(full, pred[i] + " ", Repair(pred[i + 1..], wc[counter..]));
  }

  /** `get_full_prediction`, both loops and the final `[:-2]`. */
  method GetFullPrediction(ni: seq<string>, pred: seq<string>) returns (r: Result<string>)
    ensures r == FullPrediction(ni, pred)
  {
    var collected := CollectWordsAndChars(ni);
    if collected.IndexError? {
      return IndexError;
    }
    var wc := collected.value;
    var counter := 0;
    var helpBool := false;
    var full := "";
    var i := 0;
    while i < |pred|
      invariant i <= |pred|
      invariant RepairInv(pred, wc, i, counter, helpBool, full)
    {
      if helpBool {
        helpBool := false;
      } else if IsPlaceholder(pred[i]) {
        RepairSlotStep(pred, wc, i, counter, full);
        if counter >= |wc| || i + 1 >= |pred| {
          return IndexError;
        }
        var clips := GetClips(pred[i + 1]);
        full := full + (wc[counter] + clips + " ");
        counter := counter + 1;
        helpBool := true;
      } else {
        RepairCopyStep(pred, wc, i, counter, full);
        full := full + (pred[i] + " ");
      }
      i := i + 1;
    }
    assert pred[i..] == [] && full + "" == full;
    return Ok(DropTwo(full));
  }

  /** Without any `(XX`, the correction copies the prediction token by token. */
  lemma {:induction false} RepairCopies(pred: seq<string>, wc: seq<string>)
    requires forall k :: 0 <= k < |pred| ==> !IsPlaceholder(pred[k])
    ensures Repair(pred, wc) == Ok(Spaced(pred))
    decreases |pred|
  {
    if pred != [] {
      RepairCopies(pred[1..], wc);
    }
  }

  /** The number of `(XX` slots the correction meets, each slot taking the token after it along. */
  function Slots(pred: seq<string>): nat
    decreases |pred|
  {
    if pred == [] then 0
    else if IsPlaceholder(pred[0]) then (if |pred| == 1 then 1 else 1 + Slots(pred[2..]))
    else Slots(pred[1..])
  }

  /** The correction meets an `(XX` slot as the very last token. */
  predicate SlotAtEnd(pred: seq<string>)
    decreases |pred|
  {
    if pred == [] then false
    else if IsPlaceholder(pred[0]) then |pred| == 1 || SlotAtEnd(pred[2..])
    else SlotAtEnd(pred[1..])
  }

  /**
   * The correction fails exactly when the prediction has more `(XX` slots than
   * there are pairs (`w_and_c[counter]` past the end), or an `(XX` is its last
   * token (`pred[i+1]` past the end).
   */
  lemma {:induction false} RepairFails(pred: seq<string>, wc: seq<string>)
    ensures Repair(pred, wc).IndexError? <==> Slots(pred) > |wc| || SlotAtEnd(pred)
    decreases |pred|
  {
    if pred != [] {
      if IsPlaceholder(pred[0]) {
        if |pred| > 1 && wc != [] {
          RepairFails(pred[2..], wc[1..]);
        }
      } else {
        RepairFails(pred[1..], wc);
      }
    }
  }

  // ---------------------------------------------------------------------------
  // The correction restores the parse with the real terminals

  /**
   * One position of a parse in the bracket format: a structural token such as
   * `(s`, or a terminal `opener word` (`(w`/`(c`) closed by its own bracket and
   * `depth` more, which the network writes as `(XX guess` with the same brackets.
   */
  datatype Item =
    | Node(tok: string)
    | Leaf(opener: string, word: string, guess: string, depth: nat)

  /** The items a correction can restore: no structural token is an `(XX`, terminals start with an opener, words hold no `(` and guesses no `)`. */
  predicate WellFormed(it: Item) {
    match it
    case Node(tok) => !IsPlaceholder(tok)
    case Leaf(opener, word, guess, _) => IsLeafOpener(opener) && '(' !in word && Count(guess, ')') == 0
  }

  /** The tokens of the intended parse. */
  function Gold(items: seq<Item>): seq<string> {
    if items == [] then []
    else
      match items[0]
      case Node(tok) => [tok] + Gold(items[1..])
      case Leaf(o, w, _, d) => [o, w + Repeat(')', d + 1)] + Gold(items[1..])
  }

  /** The tokens the network answers: every terminal as `(XX` and its guess. */
  function Predicted(items: seq<Item>): seq<string> {
    if items == [] then []
    else
      match items[0]
      case Node(tok) => [tok] + Predicted(items[1..])
      case Leaf(_, _, g, d) => ["(XX", g + Repeat(')', d + 1)] + Predicted(items[1..])
  }

  /** The tokens of the network input: the terminals only, each with its own bracket. */
  function Network(items: seq<Item>): seq<string> {
    if items == [] then []
    else
      match items[0]
      case Node(_) => Network(items[1..])
      case Leaf(o, w, _, _) => [o, w + ")"] + Network(items[1..])
  }

  /** The pairs `get_full_prediction` collects from the network input. */
  function Pairs(items: seq<Item>): seq<string> {
    if items == [] then []
    else
      match items[0]
      case Node(_) => Pairs(items[1..])
      case Leaf(o, w, _, _) => [o + " " + w + ")"] + Pairs(items[1..])
  }

  /** A string without `(` contains no terminal opener. */
  lemma {:induction false} NoOpenerWithoutParen(s: string)
    requires '(' !in s
    ensures !IsLeafOpener(s)
  {
    NoInfixWithout(s, "(w");
    NoInfixWithout(s, "(c");
  }

  /** A string that lacks the first character of `sub` does not contain `sub`. */
  lemma {:induction false} NoInfixWithout(s: string, sub: string)
    requires |sub| > 0 && sub[0] !in s
    ensures !HasInfix(s, sub)
    decreases |s|
  {
    if |s| > 0 {
      assert |sub| <= |s| ==> s[..|sub|][0] == s[0];
      NoInfixWithout(s[1..], sub);
    }
  }

  /** The network input of a leading terminal: its opener, then its word, which opens nothing. */
  lemma NetworkLeaf(o: string, w: string, rest: seq<string>)
    requires IsLeafOpener(o) && '(' !in w
    ensures WordsAndChars([o, w + ")"] + rest) == Prepend([o + " " + w + ")"], WordsAndChars(rest))
  {
    var ni := [o, w + ")"] + rest;
    assert ni[0] == o && ni[1] == w + ")";
    assert ni[1..] == [w + ")"] + rest;
    assert ni[1..][0] == w + ")" && ni[1..][1..] == rest;
    NoOpenerWithoutParen(w + ")");
    assert o + " " + (w + ")") == o + " " + w + ")";
  }

  /** The pairs of a network input followed by `tail` are the items' pairs followed by those of `tail`. */
  lemma {:induction false} NetworkPairs(items: seq<Item>, tail: seq<string>)
    requires forall k :: 0 <= k < |items| ==> WellFormed(items[k])
    ensures WordsAndChars(Network(items) + tail) == Prepend(Pairs(items), WordsAndChars(tail))
    decreases |items|
  {
    if items == [] {
      assert Network(items) + tail == tail;
    } else {
      NetworkPairs(items[1..], tail);
      var rest := Network(items[1..]) + tail;
      var it := items[0];
      if it.Node? {
        assert Network(items) + tail == rest;
      } else {
        assert WellFormed(it);
        assert Network(items) + tail == [it.opener, it.word + ")"] + rest;
        NetworkLeaf(it.opener, it.word, rest);
        PrependTwice([it.opener + " " + it.word + ")"], Pairs(items[1..]), WordsAndChars(tail));
      }
    }
  }

  /** `)` followed by `d` more is `d + 1` of them. */
  lemma RepeatCons(d: nat)
    ensures ")" + Repeat(')', d) == Repeat(')', d + 1)
  {
  }

  /** Spacing a list with one more word in front. */
  lemma SpacedCons(x: string, ws: seq<string>)
    ensures Spaced([x] + ws) == x + " " + Spaced(ws)
  {
    assert ([x] + ws)[1..] == ws;
  }

  /** The correction copies a structural token. */
  lemma RepairNode(tok: string, rest: seq<string>, wc: seq<string>)
    requires !IsPlaceholder(tok)
    ensures Repair([tok] + rest, wc) == Prepend(tok + " ", Repair(rest, wc))
  {
    assert ([tok] + rest)[1..] == rest;
  }

  /** The correction writes one terminal of the intended parse for an `(XX` and its guess. */
  lemma RepairLeaf(o: string, w: string, g: string, d: nat, rest: seq<string>, wcRest: seq<string>)
    requires Count(g, ')') == 0
    ensures Repair(["(XX", g + Repeat(')', d + 1)] + rest, [o + " " + w + ")"] + wcRest) ==
      Prepend(o + " " + (w + Repeat(')', d + 1)) + " ", Repair(rest, wcRest))
  {
    var p := ["(XX", g + Repeat(')', d + 1)] + rest;
    var wc := [o + " " + w + ")"] + wcRest;
    assert p[0] == "(XX" && p[1] == g + Repeat(')', d + 1) && p[2..] == rest;
    assert wc[0] == o + " " + w + ")" && wc[1..] == wcRest;
    assert IsPlaceholder("(XX") by {
      assert StartsWith("(XX", "(XX");
    }
    ClipsOfRun(g, d);
    RepeatCons(d);
    calc {
      o + " " + w + ")" + Clips(p[1]) + " ";
      o + " " + w + ")" + Repeat(')', d) + " ";
      { ConcatAssoc(o + " " + w, ")", Repeat(')', d)); }
      o + " " + w + (")" + Repeat(')', d)) + " ";
      o + " " + w + Repeat(')', d + 1) + " ";
      { ConcatAssoc(o + " ", w, Repeat(')', d + 1)); }
      o + " " + (w + Repeat(')', d + 1)) + " ";
    }
  }

  /** The correction of a network answer that is one `(XX` and its guess. */
  lemma RepairLastLeaf(o: string, w: string, g: string, d: nat)
    requires Count(g, ')') == 0
    ensures Repair(["(XX", g + Repeat(')', d + 1)], [o + " " + w + ")"]) ==
      Ok(o + " " + (w + Repeat(')', d + 1)) + " ")
  {
    RepairLeaf(o, w, g, d, [], []);
    assert ["(XX", g + Repeat(')', d + 1)] + [] == ["(XX", g + Repeat(')', d + 1)];
    assert [o + " " + w + ")"] + [] == [o + " " + w + ")"];
    var piece := o + " " + (w + Repeat(')', d + 1)) + " ";
    assert Repair([], []) == Ok("");
    assert piece + "" == piece;
  }

  /** The spaced tokens of one terminal and what follows it. */
  lemma SpacedLeaf(o: string, x: string, ws: seq<string>)
    ensures Spaced([o, x] + ws) == o + " " + x + " " + Spaced(ws)
  {
    assert [o, x] + ws == [o] + ([x] + ws);
    SpacedCons(o, [x] + ws);
    SpacedCons(x, ws);
    ConcatAssoc(o + " ", x + " ", Spaced(ws));
  }

  /** The restoring step at a structural token `tok`, given the restoring of what follows it. */
  lemma RestoreNode(tok: string, gold: seq<string>, pred: seq<string>, wc: seq<string>, after: Result<string>)
    requires !IsPlaceholder(tok)
    requires Repair(pred, wc) == Prepend(Spaced(gold), after)
    ensures Repair([tok] + pred, wc) == Prepend(Spaced([tok] + gold), after)
  {
    RepairNode(tok, pred, wc);
    SpacedCons(tok, gold);
    PrependTwice(tok + " ", Spaced(gold), after);
  }

  /** The restoring step at a terminal, given the restoring of what follows it. */
  lemma RestoreLeaf(o: string, w: string, g: string, d: nat, gold: seq<string>, pred: seq<string>,
                    wc: seq<string>, after: Result<string>)
    requires Count(g, ')') == 0
    requires Repair(pred, wc) == Prepend(Spaced(gold), after)
    ensures Repair(["(XX", g + Repeat(')', d + 1)] + pred, [o + " " + w + ")"] + wc) ==
      Prepend(Spaced([o, w + Repeat(')', d + 1)] + gold), after)
  {
    var x := w + Repeat(')', d + 1);
    RepairLeaf(o, w, g, d, pred, wc);
    SpacedLeaf(o, x, gold);
    PrependTwice(o + " " + x + " ", Spaced(gold), after);
  }

  /** The token lists of items that start with a structural token, followed by more tokens. */
  lemma NodeShapes(items: seq<Item>, tail: seq<string>, tw: seq<string>)
    requires items != [] && items[0].Node?
    ensures Predicted(items) + tail == [items[0].tok] + (Predicted(items[1..]) + tail)
    ensures Pairs(items) + tw == Pairs(items[1..]) + tw
    ensures Gold(items) == [items[0].tok] + Gold(items[1..])
  {
    ConcatAssoc([items[0].tok], Predicted(items[1..]), tail);
  }

  /** The token lists of items that start with a terminal, followed by more tokens. */
  lemma LeafShapes(items: seq<Item>, tail: seq<string>, tw: seq<string>)
    requires items != [] && items[0].Leaf?
    ensures Predicted(items) + tail ==
      ["(XX", items[0].guess + Repeat(')', items[0].depth + 1)] + (Predicted(items[1..]) + tail)
    ensures Pairs(items) + tw == [items[0].opener + " " + items[0].word + ")"] + (Pairs(items[1..]) + tw)
    ensures Gold(items) == [items[0].opener, items[0].word + Repeat(')', items[0].depth + 1)] + Gold(items[1..])
  {
    var it := items[0];
    ConcatAssoc(["(XX", it.guess + Repeat(')', it.depth + 1)], Predicted(items[1..]), tail);
    ConcatAssoc([it.opener + " " + it.word + ")"], Pairs(items[1..]), tw);
  }

  /** Correcting the network's answer with the pairs of its input writes the intended parse, token by token. */
  lemma {:induction false} RepairRestores(items: seq<Item>, tail: seq<string>, tw: seq<string>)
    requires forall k :: 0 <= k < |items| ==> WellFormed(items[k])
    ensures Repair(Predicted(items) + tail, Pairs(items) + tw) ==
      Prepend(Spaced(Gold(items)), Repair(tail, tw))
    decreases |items|
  {
    if items == [] {
      assert Predicted(items) + tail == tail;
      assert Pairs(items) + tw == tw;
    } else {
      var rest := items[1..];
      assert forall k :: 0 <= k < |rest| ==> rest[k] == items[k + 1];
      RepairRestores(rest, tail, tw);
      assert WellFormed(items[0]);
      match items[0]
      case Node(tok) =>
        NodeShapes(items, tail, tw);
        RestoreNode(tok, Gold(rest), Predicted(rest) + tail, Pairs(rest) + tw, Repair(tail, tw));
      case Leaf(o, w, g, d) =>
        LeafShapes(items, tail, tw);
        RestoreLeaf(o, w, g, d, Gold(rest), Predicted(rest) + tail, Pairs(rest) + tw, Repair(tail, tw));
    }
  }

  /** Python's `ts[-1] += ")"`. */
  function CloseLast(ts: seq<string>): (r: seq<string>)
    requires ts != []
    ensures |r| == |ts| && r[..|ts| - 1] == ts[..|ts| - 1] && r[|ts| - 1] == ts[|ts| - 1] + ")"
  {
    ts[|ts| - 1 := ts[|ts| - 1] + ")"]
  }

  /** The intended parse of a concatenation of items is the concatenation of their parses. */
  lemma {:induction false} GoldAppend(a: seq<Item>, b: seq<Item>)
    ensures Gold(a + b) == Gold(a) + Gold(b)
    decreases |a|
  {
    if a == [] {
      assert a + b == b;
    } else {
      assert (a + b)[0] == a[0] && (a + b)[1..] == a[1..] + b;
      GoldAppend(a[1..], b);
      match a[0]
      case Node(tok) => ConcatAssoc([tok], Gold(a[1..]), Gold(b));
      case Leaf(o, w, _, d) => ConcatAssoc([o, w + Repeat(')', d + 1)], Gold(a[1..]), Gold(b));
    }
  }

  /** The network's answer to a concatenation of items is the concatenation of its answers. */
  lemma {:induction false} PredictedAppend(a: seq<Item>, b: seq<Item>)
    ensures Predicted(a + b) == Predicted(a) + Predicted(b)
    decreases |a|
  {
    if a == [] {
      assert a + b == b;
    } else {
      assert (a + b)[0] == a[0] && (a + b)[1..] == a[1..] + b;
      PredictedAppend(a[1..], b);
      match a[0]
      case Node(tok) => ConcatAssoc([tok], Predicted(a[1..]), Predicted(b));
      case Leaf(_, _, g, d) => ConcatAssoc(["(XX", g + Repeat(')', d + 1)], Predicted(a[1..]), Predicted(b));
    }
  }

  /** The network input of a concatenation of items is the concatenation of their inputs. */
  lemma {:induction false} NetworkAppend(a: seq<Item>, b: seq<Item>)
    ensures Network(a + b) == Network(a) + Network(b)
    decreases |a|
  {
    if a == [] {
      assert a + b == b;
    } else {
      assert (a + b)[0] == a[0] && (a + b)[1..] == a[1..] + b;
      NetworkAppend(a[1..], b);
      match a[0]
      case Node(_) =>
      case Leaf(o, w, _, _) => ConcatAssoc([o, w + ")"], Network(a[1..]), Network(b));
    }
  }

  /** The sequences of tokens of a concatenation of items are the concatenations of their sequences. */
  lemma ItemsAppend(a: seq<Item>, b: seq<Item>)
    ensures Gold(a + b) == Gold(a) + Gold(b)
    ensures Predicted(a + b) == Predicted(a) + Predicted(b)
    ensures Network(a + b) == Network(a) + Network(b)
  {
    GoldAppend(a, b);
    PredictedAppend(a, b);
    NetworkAppend(a, b);
  }

  /** The outermost tag is neither a terminal opener nor an `(XX`. */
  lemma TextTagIsPlain()
    ensures !IsLeafOpener("(t") && !IsPlaceholder("(t")
  {
    var t := "(t";
    NoInfixInShorter(t, "(XX");
    NoInfixInShorter(t[1..], "(w");
    NoInfixInShorter(t[1..], "(c");
    assert t[..2][1] == 't';
    assert !StartsWith(t, "(w") && !StartsWith(t, "(c");
  }

  /** Nothing longer than `s` is found in `s`. */
  lemma {:induction false} NoInfixInShorter(s: string, sub: string)
    requires |s| < |sub|
    ensures !HasInfix(s, sub)
    decreases |s|
  {
    if |s| > 0 {
      NoInfixInShorter(s[1..], sub);
    }
  }

  /** `ts[-1] += ")"` on a list that ends with `x, y`. */
  lemma CloseLastSnoc(front: seq<string>, x: string, y: string)
    ensures CloseLast(front + [x, y]) == front + [x, y + ")"]
  {
    var ts := front + [x, y];
    var r := CloseLast(ts);
    assert r == r[..|ts| - 1] + [r[|ts| - 1]];
    assert ts[..|ts| - 1] == front + [x];
  }

  /** The last token with one more `)`: the last terminal closes one more constituent. */
  lemma CloseLastLeaf(front: seq<string>, x: string, y: string, d: nat)
    ensures CloseLast(front + [x, y + Repeat(')', d + 1)]) == front + [x, y + Repeat(')', d + 2)]
  {
    CloseLastSnoc(front, x, y + Repeat(')', d + 1));
    assert Repeat(')', d + 2) == Repeat(')', d + 1) + ")";
    ConcatAssoc(y, Repeat(')', d + 1), ")");
  }

  /** A token that opens no terminal adds no pair. */
  lemma WordsAndCharsPlain(t: string, rest: seq<string>)
    requires !IsLeafOpener(t)
    ensures WordsAndChars([t] + rest) == WordsAndChars(rest)
  {
    assert ([t] + rest)[1..] == rest;
  }

  /** The pairs of the network input as the script assembles it for a parse ending in a terminal. */
  lemma NetworkSide(init: seq<Item>, o: string, w: string, g: string, d: nat)
    requires forall k :: 0 <= k < |init| ==> WellFormed(init[k])
    requires WellFormed(Leaf(o, w, g, d))
    ensures WordsAndChars(CloseLast(["(t"] + Network(init + [Leaf(o, w, g, d)]))) ==
      Ok(Pairs(init) + [o + " " + (w + ")") + ")"])
  {
    var w1 := w + ")";
    var n := Network(init);
    var tail := [o, w1 + ")"];
    var pair := o + " " + w1 + ")";
    ItemsAppend(init, [Leaf(o, w, g, d)]);
    assert Network([Leaf(o, w, g, d)]) == [o, w1];
    ConcatAssoc(["(t"], n, [o, w1]);
    CloseLastSnoc(["(t"] + n, o, w1);
    ConcatAssoc(["(t"], n, tail);
    var ni := CloseLast(["(t"] + Network(init + [Leaf(o, w, g, d)]));
    assert ni == ["(t"] + (n + tail);
    TextTagIsPlain();
    WordsAndCharsPlain("(t", n + tail);
    NetworkPairs(init, tail);
    NetworkLeaf(o, w1, []);
    assert tail + [] == tail && [pair] + [] == [pair];
    assert WordsAndChars(tail) == Ok([pair]);
    assert WordsAndChars(ni) == Prepend(Pairs(init), Ok([pair]));
  }

  /** The network's answer as the script assembles it for a parse ending in a terminal. */
  lemma PredictedSide(init: seq<Item>, o: string, w: string, g: string, d: nat)
    ensures CloseLast(["(t"] + Predicted(init + [Leaf(o, w, g, d)])) ==
      ["(t"] + (Predicted(init) + ["(XX", g + Repeat(')', d + 2)])
  {
    var p := Predicted(init);
    ItemsAppend(init, [Leaf(o, w, g, d)]);
    assert Predicted([Leaf(o, w, g, d)]) == ["(XX", g + Repeat(')', d + 1)];
    ConcatAssoc(["(t"], p, ["(XX", g + Repeat(')', d + 1)]);
    CloseLastLeaf(["(t"] + p, "(XX", g, d);
    ConcatAssoc(["(t"], p, ["(XX", g + Repeat(')', d + 2)]);
  }

  /** Spacing a head word, a list, and a final pair of words. */
  lemma SpacedAround(h: string, ws: seq<string>, o: string, x: string)
    ensures Spaced([h] + ws + [o, x]) == h + " " + Spaced(ws) + (o + " " + x + " ")
  {
    SpacedAppend([h] + ws, [o, x]);
    SpacedCons(h, ws);
    SpacedLeaf(o, x, []);
    assert [o, x] + [] == [o, x];
    assert Spaced([o, x]) == o + " " + x + " " + "";
  }

  /** The intended parse with its `(t` closed, spaced. */
  lemma GoldSpaced(init: seq<Item>, o: string, w: string, g: string, d: nat)
    ensures Spaced(CloseLast(["(t"] + Gold(init + [Leaf(o, w, g, d)]))) ==
      "(t " + Spaced(Gold(init)) + (o + " " + (w + Repeat(')', d + 2)) + " ")
  {
    var gi := Gold(init);
    var x := w + Repeat(')', d + 2);
    assert CloseLast(["(t"] + Gold(init + [Leaf(o, w, g, d)])) == ["(t"] + gi + [o, x] by {
      ItemsAppend(init, [Leaf(o, w, g, d)]);
      assert Gold([Leaf(o, w, g, d)]) == [o, w + Repeat(')', d + 1)];
      ConcatAssoc(["(t"], gi, [o, w + Repeat(')', d + 1)]);
      CloseLastLeaf(["(t"] + gi, o, w, d);
    }
    SpacedAround("(t", gi, o, x);
    assert "(t" + " " == "(t ";
  }

  /** Two strings that are equal after one space each are equal. */
  lemma DropSpace(a: string, b: string)
    requires a + " " == b + " "
    ensures a == b
  {
    assert a == (a + " ")[..|a|];
    assert b == (b + " ")[..|b|];
  }

  /** The intended parse with its `(t` closed, joined by spaces. */
  lemma GoldSide(init: seq<Item>, o: string, w: string, g: string, d: nat)
    ensures Join(CloseLast(["(t"] + Gold(init + [Leaf(o, w, g, d)])), ' ') ==
      "(t " + Spaced(Gold(init)) + o + " " + (w + Repeat(')', d + 2))
  {
    var gs := CloseLast(["(t"] + Gold(init + [Leaf(o, w, g, d)]));
    var head := "(t " + Spaced(Gold(init));
    var x := w + Repeat(')', d + 2);
    GoldSpaced(init, o, w, g, d);
    SpacedIsJoin(gs);
    assert head + (o + " " + x + " ") == head + o + " " + x + " " by {
      ConcatAssoc(head, o + " " + x, " ");
      ConcatAssoc(head, o + " ", x);
      ConcatAssoc(head, o, " ");
    }
    DropSpace(Join(gs, ' '), head + o + " " + x);
  }

  /**
   * The correction restores the intended parse. When the network input is the
   * parse's terminals (`(t` in front, one more `)` at the end, as the script
   * assembles it) and the network answers the parse's structure with `(XX` in
   * place of every terminal (again with `(t` in front and one more `)`), the
   * corrected string is the intended parse with its outermost `(t` closed,
   * tokens joined by single spaces. The extra `)` the script puts on the last
   * network token is exactly what the final `[:-2]` cuts again.
   */
  lemma CorrectionRestoresGold(init: seq<Item>, o: string, w: string, g: string, d: nat)
    requires forall k :: 0 <= k < |init| ==> WellFormed(init[k])
    requires WellFormed(Leaf(o, w, g, d))
    ensures var items := init + [Leaf(o, w, g, d)];
      FullPrediction(CloseLast(["(t"] + Network(items)), CloseLast(["(t"] + Predicted(items))) ==
        Ok(Join(CloseLast(["(t"] + Gold(items)), ' '))
  {
    var w1 := w + ")";
    var last := o + " " + w1 + ")";
    var wc := Pairs(init) + [last];
    NetworkSide(init, o, w, g, d);
    var tail := ["(XX", g + Repeat(')', d + 2)];
    PredictedSide(init, o, w, g, d);
    TextTagIsPlain();
    RepairNode("(t", Predicted(init) + tail, wc);
    RepairRestores(init, tail, [last]);
    var x := w + Repeat(')', d + 2);
    var piece := o + " " + (w1 + Repeat(')', d + 2)) + " ";
    RepairLastLeaf(o, w1, g, d + 1);
    assert Repeat(')', d + 1 + 1) == Repeat(')', d + 2);
    assert Repair(tail, [last]) == Ok(piece);
    var sg := Spaced(Gold(init));
    var full := "(t " + (sg + piece);
    var pred := CloseLast(["(t"] + Predicted(init + [Leaf(o, w, g, d)]));
    assert "(t" + " " == "(t ";
    assert Repair(pred, wc) == Prepend("(t ", Repair(Predicted(init) + tail, wc));
    assert Repair(Predicted(init) + tail, wc) == Prepend(sg, Ok(piece));
    assert Repair(pred, wc) == Ok(full);
    GoldSide(init, o, w, g, d);
    RepeatCons(d + 2);
    TrailingBracket(o, w, d + 2);
    var body := "(t " + sg + o + " " + x;
    Regroup("(t ", sg, o, x, ") ");
    assert full == body + ") ";
    assert DropTwo(full) == body;
  }

  /** Regrouping the concatenation of a written prefix and a terminal's piece. */
  lemma Regroup(a: string, b: string, c: string, x: string, t: string)
    ensures a + (b + (c + " " + x + t)) == a + b + c + " " + x + t
  {
  }

  /** The piece written for the last terminal: its word, its brackets, the extra `)` and a space. */
  lemma TrailingBracket(o: string, w: string, n: nat)
    ensures o + " " + (w + ")" + Repeat(')', n)) + " " == o + " " + (w + Repeat(')', n)) + ") "
  {
    RepeatCons(n);
    assert Repeat(')', n + 1) == Repeat(')', n) + ")";
    ConcatAssoc(w, ")", Repeat(')', n));
    ConcatAssoc(w, Repeat(')', n), ")");
  }

  // ---------------------------------------------------------------------------
  // Assembling the two token streams from the files' lines

  /** Python's `line[3:-1]`: the line without its leading `(t ` and its final character. */
  function Inner(line: string): string {
    if |line| >= 4 then line[3..|line| - 1] else ""
  }

  /** The network input lines' tokens, in order. */
  function NetworkTokens(lines: seq<string>): seq<string> {
    if lines == [] then [] else NetworkTokens(DropLast(lines)) + Split(Inner(lines[|lines| - 1]), ' ')
  }

  /** One more line of network input appends its tokens. */
  lemma NetworkTokensStep(lines: seq<string>, k: nat)
    requires k < |lines|
    ensures NetworkTokens(lines[..k + 1]) == NetworkTokens(lines[..k]) + Split(Inner(lines[k]), ' ')
  {
    assert DropLast(lines[..k + 1]) == lines[..k];
  }

  /** `network_input`: `(t`, the tokens of every line, and one more `)` on the last token. */
  function NetworkStream(lines: seq<string>): seq<string> {
    CloseLast(["(t"] + NetworkTokens(lines))
  }

  /** The loop that assembles `network_input`. */
  method ReadNetworkInput(lines: seq<string>) returns (ni: seq<string>)
    ensures ni == NetworkStream(lines)
  {
    var toks: seq<string> := ["(t"];
    var k := 0;
    assert toks == ["(t"] + NetworkTokens(lines[..0]) by {
      assert lines[..0] == [];
    }
    while k < |lines|
      invariant 0 <= k <= |lines|
      invariant toks == ["(t"] + NetworkTokens(lines[..k])
    {
      NetworkTokensStep(lines, k);
      ConcatAssoc(["(t"], NetworkTokens(lines[..k]), Split(Inner(lines[k]), ' '));
      toks := toks + Split(Inner(lines[k]), ' ');
      k := k + 1;
    }
    assert lines[..k] == lines;
    ni := toks[|toks| - 1 := toks[|toks| - 1] + ")"];
  }

  /** The tokens the script keeps of one prediction line: those after its first exact `(t`, none when there is none. */
  function AfterTextTag(line: string): seq<string> {
    var split := Split(DropLast(line), ' ');
    From(split, IndexOf(split, "(t") + 1)
  }

  /** The prediction lines' kept tokens, in order. */
  function PredictionTokens(lines: seq<string>): seq<string> {
    if lines == [] then [] else PredictionTokens(DropLast(lines)) + AfterTextTag(lines[|lines| - 1])
  }

  /** One more prediction line appends its kept tokens. */
  lemma PredictionTokensStep(lines: seq<string>, k: nat)
    requires k < |lines|
    ensures PredictionTokens(lines[..k + 1]) == PredictionTokens(lines[..k]) + AfterTextTag(lines[k])
  {
    assert DropLast(lines[..k + 1]) == lines[..k];
  }

  /** `pred`: `(t`, the kept tokens of every line, and one more `)` on the last token. */
  function PredictionStream(lines: seq<string>): seq<string> {
    CloseLast(["(t"] + PredictionTokens(lines))
  }

  /** The state of the `pred` loop after `k` lines: `(t` and the kept tokens of those lines. */
  predicate PredictionRead(lines: seq<string>, k: nat, toks: seq<string>) {
    k <= |lines| && toks == ["(t"] + PredictionTokens(lines[..k])
  }

  /** One line of the `pred` loop: its tokens after the first exact `(t`. */
  method ReadPredictionLine(lines: seq<string>, k: nat, toks: seq<string>) returns (toks': seq<string>)
    requires k < |lines| && PredictionRead(lines, k, toks)
    ensures PredictionRead(lines, k + 1, toks')
  {
    PredictionTokensStep(lines, k);
    var split := Split(DropLast(lines[k]), ' ');
    var help := FindFirst(split, "(t");
    ConcatAssoc(["(t"], PredictionTokens(lines[..k]), From(split, help + 1));
    toks' := toks + From(split, help + 1);
  }

  /** The loop that assembles `pred`, with its search for the first `(t` of each line. */
  method ReadPredictionStream(lines: seq<string>) returns (pred: seq<string>)
    ensures pred == PredictionStream(lines)
  {
    var toks: seq<string> := ["(t"];
    var k := 0;
    assert PredictionRead(lines, 0, toks) by {
      assert lines[..0] == [];
    }
    while k < |lines|
      invariant k <= |lines| && PredictionRead(lines, k, toks)
    {
      toks := ReadPredictionLine(lines, k, toks);
      k := k + 1;
    }
    assert toks == ["(t"] + PredictionTokens(lines) by {
      assert lines[..k] == lines;
    }
    pred := toks[|toks| - 1 := toks[|toks| - 1] + ")"];
  }

  /** Both streams start with `(t` once there is a line, and their last token ends with `)`. */
  lemma StreamsShape(lines: seq<string>)
    ensures var ni := NetworkStream(lines);
      ni != [] && ni[|ni| - 1][|ni[|ni| - 1]| - 1] == ')' && (lines != [] ==> ni[0] == "(t")
    ensures var pred := PredictionStream(lines);
      pred != [] && pred[|pred| - 1][|pred[|pred| - 1]| - 1] == ')'
  {
    if lines != [] {
      assert |Split(Inner(lines[|lines| - 1]), ' ')| >= 1;
    }
  }

  /**
   * Where the evaluation script keeps a prediction line from its first `(t` on,
   * the correction keeps only what follows that `(t`; on a line without `(t`
   * both keep nothing.
   */
  lemma KeptAfterTextTag(line: string)
    ensures var words := Split(DropLast(line), ' ');
      var kept := FromTextTag(words);
      (kept == [] ==> AfterTextTag(line) == []) && (kept != [] ==> AfterTextTag(line) == kept[1..])
  {
  }
}
