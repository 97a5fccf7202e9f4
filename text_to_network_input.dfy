/**
 * The raw-text encoder RNNG/scripts/text_to_network_input.py. The text is split
 * on single spaces; within each word every maximal run of alphabet characters
 * becomes ` (w run)` and every other character ` (c x)`, with `(` and `)`
 * written as `[` and `]`. The tokens follow `(t`, and the written line ends
 * with one more `)`. The alphabet is a parameter of the model.
 */
module TextToNetworkInput {
  import opened Text

  /** One token of a word: a run of alphabet characters, or a single other character. */
  datatype Piece = Run(run: string) | Mark(c: char)

  /** The character a `(c` token writes: brackets become square brackets. */
  function Escape(c: char): char {
    if c == '(' then '[' else if c == ')' then ']' else c
  }

  /** The inverse of `Escape` on characters that are not square brackets. */
  function Unescape(c: char): char {
    if c == '[' then '(' else if c == ']' then ')' else c
  }

  /** A run as a token list: nothing when it is empty. */
  function RunPieces(run: string): seq<Piece> {
    if run == [] then [] else [Run(run)]
  }

  /** The pieces after one more character: outside the alphabet it is a piece of its own, inside it extends an open run or starts one. */
  function Step(ps: seq<Piece>, c: char, alpha: set<char>): seq<Piece> {
    if c !in alpha then ps + [Mark(c)]
    else if ps != [] && ps[|ps| - 1].Run? then ps[..|ps| - 1] + [Run(ps[|ps| - 1].run + [c])]
    else ps + [Run([c])]
  }

  /** The pieces of the first `n` characters of a word, read character by character. */
  function TokensUpTo(w: string, n: nat, alpha: set<char>): seq<Piece>
    requires n <= |w|
  {
    if n == 0 then [] else Step(TokensUpTo(w, n - 1, alpha), w[n - 1], alpha)
  }

  /** The pieces of one word. */
  function Tokenize(w: string, alpha: set<char>): seq<Piece> {
    TokensUpTo(w, |w|, alpha)
  }

  /** No run is open at the end of `ps`. */
  predicate Closed(ps: seq<Piece>) {
    ps == [] || ps[|ps| - 1].Mark?
  }

  /** The text the encoder appends for one piece. */
  function Render(p: Piece): string {
    match p
    case Run(r) => " (w " + r + ")"
    case Mark(c) => " (c " + [Escape(c)] + ")"
  }

  /** The text the encoder appends for a list of pieces. */
  function RenderAll(ps: seq<Piece>): string {
    if ps == [] then "" else Render(ps[0]) + RenderAll(ps[1..])
  }

  /** Rendering a concatenation renders each part. */
  lemma {:induction false} RenderAllAppend(a: seq<Piece>, b: seq<Piece>)
    ensures RenderAll(a + b) == RenderAll(a) + RenderAll(b)
    decreases |a|
  {
    if a == [] {
      assert a + b == b;
    } else {
      assert (a + b)[0] == a[0] && (a + b)[1..] == a[1..] + b;
      RenderAllAppend(a[1..], b);
      ConcatAssoc(Render(a[0]), RenderAll(a[1..]), RenderAll(b));
    }
  }

  /** An alphabet character after a closed list and an open run extends the run. */
  lemma ExtendRun(done: seq<Piece>, run: string, c: char, alpha: set<char>)
    requires Closed(done) && c in alpha
    ensures Step(done + RunPieces(run), c, alpha) == done + RunPieces(run + [c])
  {
    if run != [] {
      var ps := done + [Run(run)];
      assert ps[..|ps| - 1] == done;
    } else {
      assert run + [c] == [c];
    }
  }

  /** Another character closes the open run and is a piece of its own. */
  lemma CloseRun(done: seq<Piece>, run: string, c: char, alpha: set<char>)
    requires c !in alpha
    ensures Step(done + RunPieces(run), c, alpha) == done + RunPieces(run) + [Mark(c)]
    ensures Closed(Step(done + RunPieces(run), c, alpha))
    ensures RenderAll(Step(done + RunPieces(run), c, alpha)) == RenderAll(done) + RenderAll(RunPieces(run)) + Render(Mark(c))
  {
    RenderAllAppend(done + RunPieces(run), [Mark(c)]);
    RenderAllAppend(done, RunPieces(run));
    assert RenderAll([Mark(c)]) == Render(Mark(c)) + "";
  }

  /**
   * The state of the encoder inside a word: the pieces before `last` are
   * written, no run is open there, and the characters from `last` to `i` are the
   * open run.
   */
  predicate WordInv(word: string, alpha: set<char>, last: nat, i: nat) {
    last <= i <= |word| &&
    Closed(TokensUpTo(word, last, alpha)) &&
    TokensUpTo(word, i, alpha) == TokensUpTo(word, last, alpha) + RunPieces(word[last..i])
  }

  /** Nothing of a word is read yet. */
  lemma WordStart(gram: string, word: string, alpha: set<char>)
    ensures Emitted(gram, gram, word, alpha, 0, 0)
  {
    assert gram + "" == gram;
    assert word[0..0] == [];
    assert TokensUpTo(word, 0, alpha) + RunPieces([]) == [];
  }

  /** The encoder's step at an alphabet character. */
  lemma AlphaStep(word: string, alpha: set<char>, last: nat, i: nat)
    requires WordInv(word, alpha, last, i) && i < |word| && word[i] in alpha
    ensures WordInv(word, alpha, last, i + 1)
  {
    SliceSnoc(word, last, i);
    ExtendRun(TokensUpTo(word, last, alpha), word[last..i], word[i], alpha);
  }

  /** The encoder's step at another character. */
  lemma MarkStep(word: string, alpha: set<char>, last: nat, i: nat)
    requires WordInv(word, alpha, last, i) && i < |word| && word[i] !in alpha
    ensures WordInv(word, alpha, i + 1, i + 1)
    ensures RenderAll(TokensUpTo(word, i + 1, alpha)) ==
      RenderAll(TokensUpTo(word, last, alpha)) + RenderAll(RunPieces(word[last..i])) + Render(Mark(word[i]))
  {
    CloseRun(TokensUpTo(word, last, alpha), word[last..i], word[i], alpha);
    assert word[i + 1..i + 1] == [];
    assert TokensUpTo(word, i + 1, alpha) + [] == TokensUpTo(word, i + 1, alpha);
  }

  /** At the end of the word, the open run is its last piece. */
  lemma EndStep(word: string, alpha: set<char>, last: nat)
    requires WordInv(word, alpha, last, |word|)
    ensures RenderAll(Tokenize(word, alpha)) ==
      RenderAll(TokensUpTo(word, last, alpha)) + RenderAll(RunPieces(word[last..]))
  {
    assert word[last..|word|] == word[last..];
    RenderAllAppend(TokensUpTo(word, last, alpha), RunPieces(word[last..]));
  }

  /** What a run adds to the text written so far: ` (w run)` when it is not empty, nothing otherwise. */
  lemma RunText(out: string, run: string)
    ensures run != "" ==> out + (" (w " + run + ")") == out + RenderAll(RunPieces(run))
    ensures run == "" ==> out == out + RenderAll(RunPieces(run))
  {
    if run != [] {
      assert RenderAll([Run(run)]) == Render(Run(run)) + "";
    } else {
      assert out + "" == out;
    }
  }

  /** The text after a character outside the alphabet: the open run, if any, then the character. */
  lemma MarkOut(gram: string, out: string, word: string, alpha: set<char>, last: nat, i: nat)
    requires WordInv(word, alpha, last, i) && i < |word| && word[i] !in alpha
    requires out == gram + RenderAll(TokensUpTo(word, last, alpha))
    ensures out + RenderAll(RunPieces(word[last..i])) + Render(Mark(word[i])) ==
      gram + RenderAll(TokensUpTo(word, i + 1, alpha))
  {
    MarkStep(word, alpha, last, i);
    var done := RenderAll(TokensUpTo(word, last, alpha));
    ConcatAssoc(gram, done, RenderAll(RunPieces(word[last..i])));
    ConcatAssoc(gram, done + RenderAll(RunPieces(word[last..i])), Render(Mark(word[i])));
  }

  /** The text at the end of a word: the open run, if any. */
  lemma EndOut(gram: string, out: string, word: string, alpha: set<char>, last: nat)
    requires WordInv(word, alpha, last, |word|)
    requires out == gram + RenderAll(TokensUpTo(word, last, alpha))
    ensures out + RenderAll(RunPieces(word[last..])) == gram + RenderAll(Tokenize(word, alpha))
  {
    EndStep(word, alpha, last);
    ConcatAssoc(gram, RenderAll(TokensUpTo(word, last, alpha)), RenderAll(RunPieces(word[last..])));
  }

  /** The encoder's state inside a word: `out` is `gram` followed by the pieces before `last`. */
  predicate Emitted(gram: string, out: string, word: string, alpha: set<char>, last: nat, i: nat) {
    WordInv(word, alpha, last, i) && out == gram + RenderAll(TokensUpTo(word, last, alpha))
  }

  /**
   * One character of the inner loop: outside the alphabet the encoder writes
   * the open run, if any, then the character, and a new run starts after it;
   * inside the alphabet the open run grows.
   */
  method EncodeChar(gram: string, out: string, word: string, alpha: set<char>, last: nat, i: nat)
    returns (next: string, last': nat)
    requires i < |word| && Emitted(gram, out, word, alpha, last, i)
    ensures Emitted(gram, next, word, alpha, last', i + 1)
  {
    if word[i] !in alpha {
      MarkOut(gram, out, word, alpha, last, i);
      MarkStep(word, alpha, last, i);
      var run := word[last..i];
      RunText(out, run);
      next := out;
      if run != "" {
        next := next + (" (w " + run + ")");
      }
      next := next + (" (c " + [Escape(word[i])] + ")");
      last' := i + 1;
    } else {
      AlphaStep(word, alpha, last, i);
      next, last' := out, last;
    }
  }

  /** After the inner loop: the encoder writes the open run, if any. */
  method FinishWord(gram: string, out: string, word: string, alpha: set<char>, last: nat) returns (next: string)
    requires Emitted(gram, out, word, alpha, last, |word|)
    ensures next == gram + RenderAll(Tokenize(word, alpha))
  {
    EndOut(gram, out, word, alpha, last);
    var run := word[last..];
    RunText(out, run);
    next := out;
    if run != "" {
      next := next + (" (w " + run + ")");
    }
  }

  /** The inner loop over one word: appends the word's tokens to `gram`. */
  method AppendWord(gram: string, word: string, alpha: set<char>) returns (out: string)
    ensures out == gram + RenderAll(Tokenize(word, alpha))
  {
    out := gram;
    var i: nat := 0;
    var last: nat := 0;
    WordStart(gram, word, alpha);
    while i < |word|
      invariant i <= |word|
      invariant Emitted(gram, out, word, alpha, last, i)
    {
      out, last := EncodeChar(gram, out, word, alpha, last, i);
      i := i + 1;
    }
    out := FinishWord(gram, out, word, alpha, last);
  }

  /** The tokens of a list of words, in order. */
  function Encoded(words: seq<string>, alpha: set<char>): string {
    if words == [] then "" else Encoded(DropLast(words), alpha) + RenderAll(Tokenize(words[|words| - 1], alpha))
  }

  /** One more word appends its tokens. */
  lemma EncodedStep(words: seq<string>, k: nat, alpha: set<char>)
    requires k < |words|
    ensures Encoded(words[..k + 1], alpha) == Encoded(words[..k], alpha) + RenderAll(Tokenize(words[k], alpha))
  {
    assert DropLast(words[..k + 1]) == words[..k];
  }

  /** The line the encoder writes for a text: `(t`, the tokens of every word, and `)`. */
  function GramLine(text: string, alpha: set<char>): string {
    "(t" + Encoded(Split(text, ' '), alpha) + ")"
  }

  /** The script: split on spaces, skip empty words, encode each word, close with `)`. */
  method EncodeText(text: string, alpha: set<char>) returns (line: string)
    ensures line == GramLine(text, alpha)
  {
    var words := Split(text, ' ');
    var gram := "(t";
    var k := 0;
    while k < |words|
      invariant 0 <= k <= |words|
      invariant gram == "(t" + Encoded(words[..k], alpha)
    {
      EncodedStep(words, k, alpha);
      ConcatAssoc("(t", Encoded(words[..k], alpha), RenderAll(Tokenize(words[k], alpha)));
      var word := words[k];
      if word == "" {
        assert Tokenize(word, alpha) == [] && gram + "" == gram;
      } else {
        gram := AppendWord(gram, word, alpha);
      }
      k := k + 1;
    }
    assert words[..k] == words;
    line := gram + ")";
  }
  /** The characters a piece stands for. */
  function Source(p: Piece): string {
    match p
    case Run(r) => r
    case Mark(c) => [c]
  }

  /** The characters a list of pieces stands for, in order. */
  function Original(ps: seq<Piece>): string {
    if ps == [] then "" else Original(DropLast(ps)) + Source(ps[|ps| - 1])
  }

  /** Appending a piece appends the characters it stands for. */
  lemma OriginalSnoc(ps: seq<Piece>, p: Piece)
    ensures Original(ps + [p]) == Original(ps) + Source(p)
  {
    assert DropLast(ps + [p]) == ps;
  }

  /** Every step of the tokenizer accounts for exactly the character it reads. */
  lemma OriginalStep(ps: seq<Piece>, c: char, alpha: set<char>)
    ensures Original(Step(ps, c, alpha)) == Original(ps) + [c]
  {
    if c !in alpha {
      OriginalSnoc(ps, Mark(c));
    } else if ps != [] && ps[|ps| - 1].Run? {
      var front, r := ps[..|ps| - 1], ps[|ps| - 1].run;
      assert ps == front + [Run(r)];
      OriginalSnoc(front, Run(r));
      OriginalSnoc(front, Run(r + [c]));
      ConcatAssoc(Original(front), r, [c]);
    } else {
      OriginalSnoc(ps, Run([c]));
    }
  }

  /** A prefix one longer is the prefix and one more character. */
  lemma PrefixSnoc(w: string, n: nat)
    requires n < |w|
    ensures w[..n + 1] == w[..n] + [w[n]]
  {
  }

  /** Reading character `n - 1` adds exactly that character to what the pieces stand for. */
  lemma OriginalAt(w: string, n: nat, alpha: set<char>)
    requires 0 < n <= |w|
    ensures Original(TokensUpTo(w, n, alpha)) == Original(TokensUpTo(w, n - 1, alpha)) + [w[n - 1]]
  {
    OriginalStep(TokensUpTo(w, n - 1, alpha), w[n - 1], alpha);
  }

  /** The tokenizer loses no character: the pieces of a prefix stand for that prefix. */
  lemma {:induction false} TokensUpToOriginal(w: string, n: nat, alpha: set<char>)
    requires n <= |w|
    ensures Original(TokensUpTo(w, n, alpha)) == w[..n]
  {
    if n > 0 {
      TokensUpToOriginal(w, n - 1, alpha);
      OriginalAt(w, n, alpha);
      PrefixSnoc(w, n - 1);
    }
  }

  /** The pieces of a word stand for the word. */
  lemma TokenizeOriginal(w: string, alpha: set<char>)
    ensures Original(Tokenize(w, alpha)) == w
  {
    TokensUpToOriginal(w, |w|, alpha);
    assert w[..|w|] == w;
  }

  /** A run is a non-empty string of alphabet characters; a mark is a character outside the alphabet. */
  predicate GoodPiece(p: Piece, alpha: set<char>) {
    match p
    case Run(r) => r != [] && forall j :: 0 <= j < |r| ==> r[j] in alpha
    case Mark(c) => c !in alpha
  }

  /** Pieces as the encoder cuts them: each piece good, and no two runs side by side. */
  predicate Maximal(ps: seq<Piece>, alpha: set<char>) {
    (forall k :: 0 <= k < |ps| ==> GoodPiece(ps[k], alpha)) &&
    (forall k :: 0 < k < |ps| ==> ps[k - 1].Mark? || ps[k].Mark?)
  }

  /** A step keeps the pieces maximal. */
  lemma StepMaximal(ps: seq<Piece>, c: char, alpha: set<char>)
    requires Maximal(ps, alpha)
    ensures Maximal(Step(ps, c, alpha), alpha)
  {
    var qs := Step(ps, c, alpha);
    if c in alpha && ps != [] && ps[|ps| - 1].Run? {
      var r := ps[|ps| - 1].run;
      assert qs[|qs| - 1] == Run(r + [c]);
      assert GoodPiece(ps[|ps| - 1], alpha);
      forall j | 0 <= j < |r + [c]|
        ensures (r + [c])[j] in alpha
      {
        if j < |r| {
          assert (r + [c])[j] == r[j];
        }
      }
      assert forall k :: 0 <= k < |qs| - 1 ==> qs[k] == ps[k];
    } else {
      assert forall k :: 0 <= k < |ps| ==> qs[k] == ps[k];
    }
  }

  /** The pieces of every prefix are maximal. */
  lemma {:induction false} TokensUpToMaximal(w: string, n: nat, alpha: set<char>)
    requires n <= |w|
    ensures Maximal(TokensUpTo(w, n, alpha), alpha)
  {
    if n > 0 {
      TokensUpToMaximal(w, n - 1, alpha);
      StepMaximal(TokensUpTo(w, n - 1, alpha), w[n - 1], alpha);
    }
  }

  /** The pieces of a word are maximal. */
  lemma TokenizeMaximal(w: string, alpha: set<char>)
    ensures Maximal(Tokenize(w, alpha), alpha)
  {
    TokensUpToMaximal(w, |w|, alpha);
  }

  /** Reading a longer string does not change the pieces of a prefix. */
  lemma {:induction false} TokensUpToExtend(w: string, v: string, n: nat, alpha: set<char>)
    requires n <= |w|
    ensures TokensUpTo(w + v, n, alpha) == TokensUpTo(w, n, alpha)
  {
    if n > 0 {
      TokensUpToExtend(w, v, n - 1, alpha);
      assert (w + v)[n - 1] == w[n - 1];
    }
  }

  /** One more character at the end of a word is one more step. */
  lemma TokenizeSnoc(w: string, c: char, alpha: set<char>)
    ensures Tokenize(w + [c], alpha) == Step(Tokenize(w, alpha), c, alpha)
  {
    TokensUpToExtend(w, [c], |w|, alpha);
    assert (w + [c])[|w|] == c;
  }

  /** A run of alphabet characters after closed pieces becomes one run piece. */
  lemma {:induction false} TokenizeAppendRun(w: string, r: string, alpha: set<char>)
    requires Closed(Tokenize(w, alpha))
    requires r != [] && forall j :: 0 <= j < |r| ==> r[j] in alpha
    ensures Tokenize(w + r, alpha) == Tokenize(w, alpha) + [Run(r)]
    decreases |r|
  {
    var front, c := DropLast(r), r[|r| - 1];
    ConcatAssoc(w, front, [c]);
    TokenizeSnoc(w + front, c, alpha);
    if front == [] {
      assert w + front == w;
    } else {
      TokenizeAppendRun(w, front, alpha);
      var ps := Tokenize(w, alpha) + [Run(front)];
      assert ps[..|ps| - 1] == Tokenize(w, alpha);
    }
  }

  /**
   * Maximal pieces are exactly the pieces of the characters they stand for:
   * the tokenizer is the only maximal cut of a word.
   */
  lemma {:induction false} TokenizeUnique(ps: seq<Piece>, alpha: set<char>)
    requires Maximal(ps, alpha)
    ensures Tokenize(Original(ps), alpha) == ps
    decreases |ps|
  {
    if ps == [] {
      assert Tokenize([], alpha) == [];
    } else {
      var front, p := DropLast(ps), ps[|ps| - 1];
      assert forall k :: 0 <= k < |front| ==> front[k] == ps[k];
      assert Maximal(front, alpha);
      TokenizeUnique(front, alpha);
      assert GoodPiece(p, alpha);
      match p
      case Mark(c) =>
        TokenizeSnoc(Original(front), c, alpha);
      case Run(r) =>
        if front != [] {
          assert ps[|ps| - 2] == front[|front| - 1];
        }
        TokenizeAppendRun(Original(front), r, alpha);
    }
  }
  /** The content a piece's token carries: the run itself, or the escaped character. */
  function Content(p: Piece): string {
    match p
    case Run(r) => r
    case Mark(c) => [Escape(c)]
  }

  /** The contents of a list of tokens, concatenated in order. */
  function Contents(ps: seq<Piece>): string {
    if ps == [] then "" else Contents(DropLast(ps)) + Content(ps[|ps| - 1])
  }

  /** Square brackets read back as round ones, character by character. */
  function UnescapeAll(s: string): string {
    seq(|s|, i requires 0 <= i < |s| => Unescape(s[i]))
  }

  /** Reading back one token's content gives the characters it stands for, when those hold no square bracket. */
  lemma ContentRoundTrip(p: Piece)
    requires '[' !in Source(p) && ']' !in Source(p)
    ensures UnescapeAll(Content(p)) == Source(p)
  {
    if p.Run? {
      assert forall i :: 0 <= i < |p.run| ==> Unescape(p.run[i]) == p.run[i];
    } else {
      assert p.c in Source(p);
    }
  }

  /** Reading back a concatenation reads back each part. */
  lemma UnescapeAppend(a: string, b: string)
    ensures UnescapeAll(a + b) == UnescapeAll(a) + UnescapeAll(b)
  {
  }

  /** A text without a character has no part with it. */
  lemma AbsentFromParts(a: string, b: string, c: char)
    requires c !in a + b
    ensures c !in a && c !in b
  {
    assert forall i :: 0 <= i < |a| ==> (a + b)[i] == a[i];
    assert forall i :: 0 <= i < |b| ==> (a + b)[|a| + i] == b[i];
  }

  /** Reading back the contents of a token list gives the characters it stands for. */
  lemma {:induction false} ContentsRoundTrip(ps: seq<Piece>)
    requires '[' !in Original(ps) && ']' !in Original(ps)
    ensures UnescapeAll(Contents(ps)) == Original(ps)
    decreases |ps|
  {
    if ps != [] {
      var front, p := DropLast(ps), ps[|ps| - 1];
      assert Original(ps) == Original(front) + Source(p);
      AbsentFromParts(Original(front), Source(p), '[');
      AbsentFromParts(Original(front), Source(p), ']');
      ContentsRoundTrip(front);
      ContentRoundTrip(p);
      UnescapeAppend(Contents(front), Content(p));
    }
  }

  /**
   * The decode round trip: concatenating the contents of a word's tokens and
   * turning square brackets back into round ones gives the word, provided the
   * word holds no square bracket of its own.
   */
  lemma WordRoundTrip(w: string, alpha: set<char>)
    requires '[' !in w && ']' !in w
    ensures UnescapeAll(Contents(Tokenize(w, alpha))) == w
  {
    TokenizeOriginal(w, alpha);
    ContentsRoundTrip(Tokenize(w, alpha));
  }

  /** A square bracket in the text is written like a round one, so the round trip needs the proviso above. */
  lemma BracketsCollide(alpha: set<char>)
    requires '(' !in alpha && '[' !in alpha
    ensures Tokenize("(", alpha) != Tokenize("[", alpha)
    ensures Contents(Tokenize("(", alpha)) == Contents(Tokenize("[", alpha)) == "["
  {
    TokenizeSnoc("", '(', alpha);
    TokenizeSnoc("", '[', alpha);
    assert "" + "(" == "(" && "" + "[" == "[";
    assert Tokenize("", alpha) == [];
    assert DropLast([Mark('(')]) == [] && DropLast([Mark('[')]) == [];
    assert Contents([Mark('(')]) == "" + "[";
  }

  /** No token content holds a round bracket when the alphabet holds none. */
  lemma ContentNoParens(ps: seq<Piece>, alpha: set<char>)
    requires Maximal(ps, alpha) && '(' !in alpha && ')' !in alpha
    ensures forall k :: 0 <= k < |ps| ==> '(' !in Content(ps[k]) && ')' !in Content(ps[k])
  {
    forall k | 0 <= k < |ps|
      ensures '(' !in Content(ps[k]) && ')' !in Content(ps[k])
    {
      assert GoodPiece(ps[k], alpha);
      if ps[k].Run? {
        var r := ps[k].run;
        assert forall j :: 0 <= j < |r| ==> r[j] in alpha;
      }
    }
  }

  /** The brackets in the fixed strings the encoder writes. */
  lemma BracketLiterals()
    ensures Count(" (", '(') == 1 && Count(" (", ')') == 0
    ensures Count("(t", '(') == 1 && Count("(t", ')') == 0
    ensures Count(")", '(') == 0 && Count(")", ')') == 1
  {
    assert " ("[..1] == " " && " "[..0] == "";
    assert "(t"[..1] == "(" && "("[..0] == "";
    assert ")"[..0] == "";
  }

  /** A token written for a piece opens one bracket and closes one. */
  lemma RenderBrackets(p: Piece)
    requires '(' !in Content(p) && ')' !in Content(p)
    ensures Count(Render(p), '(') == 1 && Count(Render(p), ')') == 1
  {
    var tag := if p.Run? then "w " else "c ";
    assert Render(p) == " (" + (tag + Content(p)) + ")";
    CountAbsent(tag + Content(p), '(');
    CountAbsent(tag + Content(p), ')');
    CountAppend(" (", tag + Content(p), '(');
    CountAppend(" (", tag + Content(p), ')');
    CountAppend(" (" + (tag + Content(p)), ")", '(');
    CountAppend(" (" + (tag + Content(p)), ")", ')');
    BracketLiterals();
  }

  /** The tokens of maximal pieces open and close one bracket each. */
  lemma {:induction false} RenderAllBrackets(ps: seq<Piece>, alpha: set<char>)
    requires Maximal(ps, alpha) && '(' !in alpha && ')' !in alpha
    ensures Count(RenderAll(ps), '(') == |ps| && Count(RenderAll(ps), ')') == |ps|
    decreases |ps|
  {
    if ps != [] {
      ContentNoParens(ps, alpha);
      RenderBrackets(ps[0]);
      assert Maximal(ps[1..], alpha) by {
        assert forall k :: 0 <= k < |ps| - 1 ==> ps[1..][k] == ps[k + 1];
      }
      RenderAllBrackets(ps[1..], alpha);
      CountAppend(Render(ps[0]), RenderAll(ps[1..]), '(');
      CountAppend(Render(ps[0]), RenderAll(ps[1..]), ')');
    }
  }

  /** The tokens of a list of words are bracket-balanced. */
  lemma {:induction false} EncodedBalanced(words: seq<string>, alpha: set<char>)
    requires '(' !in alpha && ')' !in alpha
    ensures Count(Encoded(words, alpha), '(') == Count(Encoded(words, alpha), ')')
    decreases |words|
  {
    if words != [] {
      var w := words[|words| - 1];
      EncodedBalanced(DropLast(words), alpha);
      TokenizeMaximal(w, alpha);
      RenderAllBrackets(Tokenize(w, alpha), alpha);
      CountAppend(Encoded(DropLast(words), alpha), RenderAll(Tokenize(w, alpha)), '(');
      CountAppend(Encoded(DropLast(words), alpha), RenderAll(Tokenize(w, alpha)), ')');
    }
  }

  /** The written line opens with `(t`, ends with `)`, and its brackets balance. */
  lemma GramLineBalanced(text: string, alpha: set<char>)
    requires '(' !in alpha && ')' !in alpha
    ensures var line := GramLine(text, alpha);
      |line| >= 3 && line[..2] == "(t" && line[|line| - 1] == ')' &&
      Count(line, '(') == Count(line, ')')
  {
    var e := Encoded(Split(text, ' '), alpha);
    EncodedBalanced(Split(text, ' '), alpha);
    CountAppend("(t", e, '(');
    CountAppend("(t", e, ')');
    CountAppend("(t" + e, ")", '(');
    CountAppend("(t" + e, ")", ')');
    BracketLiterals();
    var line := "(t" + e + ")";
    assert line[..2] == "(t";
  }
}
