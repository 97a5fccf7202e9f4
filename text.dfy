/**
 * The Python string and list primitives the scripts rely on (`in`, `split(" ")`,
 * slicing, counting characters), written as pure functions over `string`
 * (`seq<char>`) and `seq<string>`, together with the result type used for the
 * places where the scripts stop with Python's IndexError.
 */
module Text {

  /** The outcome of a step that the scripts abort with an IndexError. */
  datatype Result<T> = Ok(value: T) | IndexError

  /** `p` is a prefix of `s` (Python `s.startswith(p)`). */
  predicate StartsWith(s: string, p: string) {
    |p| <= |s| && s[..|p|] == p
  }

  /** Python's substring test `sub in s`. */
  predicate HasInfix(s: string, sub: string)
    decreases |s|
  {
    StartsWith(s, sub) || (|s| > 0 && HasInfix(s[1..], sub))
  }

  /** Number of occurrences of `c` in `s` (the scripts' `for char in s: if char == c: n += 1`). */
  function Count(s: string, c: char): (n: nat)
    ensures n <= |s|
  {
    if s == [] then 0
    else Count(s[..|s| - 1], c) + (if s[|s| - 1] == c then 1 else 0)
  }

  /** Counting over a concatenation adds up. */
  lemma {:induction false} CountAppend(s: string, t: string, c: char)
    ensures Count(s + t, c) == Count(s, c) + Count(t, c)
    decreases |t|
  {
    if t == [] {
      assert s + t == s;
    } else {
      assert (s + t)[..|s + t| - 1] == s + t[..|t| - 1];
      assert (s + t)[|s + t| - 1] == t[|t| - 1];
      CountAppend(s, t[..|t| - 1], c);
    }
  }

  /** A character that does not occur is counted zero times. */
  lemma {:induction false} CountAbsent(s: string, c: char)
    requires c !in s
    ensures Count(s, c) == 0
    decreases |s|
  {
    if s != [] {
      assert forall j :: 0 <= j < |s| - 1 ==> s[..|s| - 1][j] == s[j];
      assert c !in s[..|s| - 1];
      CountAbsent(s[..|s| - 1], c);
    }
  }

  /** The one-step form of `Count` used by the loops that scan a prefix. */
  lemma CountSnoc(s: string, j: nat, c: char)
    requires j < |s|
    ensures Count(s[..j + 1], c) == Count(s[..j], c) + (if s[j] == c then 1 else 0)
  {
    assert s[..j + 1][..j] == s[..j];
  }

  /** A slice grown by one element ends with that element. */
  lemma SliceSnoc<T>(s: seq<T>, a: nat, b: nat)
    requires a <= b < |s|
    ensures s[a..b + 1] == s[a..b] + [s[b]]
  {
  }

  /** Concatenation is associative (stated once, so that longer proofs need not rediscover it). */
  lemma ConcatAssoc<T>(x: seq<T>, y: seq<T>, z: seq<T>)
    ensures x + y + z == x + (y + z)
  {
  }

  /** `n` copies of `c`. */
  function Repeat(c: char, n: nat): (r: string)
    ensures |r| == n
    ensures forall i :: 0 <= i < n ==> r[i] == c
  {
    if n == 0 then "" else Repeat(c, n - 1) + [c]
  }

  /** A run of `c` contains exactly its own length of `c`. */
  lemma {:induction false} CountRepeat(c: char, d: char, n: nat)
    ensures Count(Repeat(c, n), d) == if c == d then n else 0
  {
    if n > 0 {
      assert Repeat(c, n)[..n - 1] == Repeat(c, n - 1);
      CountRepeat(c, d, n - 1);
    }
  }

  /** Index of the first `x` in `s`, or `|s|` when there is none. */
  function IndexOf<T(==)>(s: seq<T>, x: T): (i: nat)
    ensures i <= |s|
    ensures i < |s| ==> s[i] == x
    ensures forall j :: 0 <= j < i ==> s[j] != x
  {
    if s == [] || s[0] == x then 0 else 1 + IndexOf(s[1..], x)
  }

  /** Python's `sep.join(ws)` for a one-character separator. */
  function Join(ws: seq<string>, sep: char): string {
    if |ws| == 0 then ""
    else if |ws| == 1 then ws[0]
    else ws[0] + [sep] + Join(ws[1..], sep)
  }

  /** Python's `s.split(sep)` for a one-character separator: keeps empty pieces. */
  function Split(s: string, sep: char): (r: seq<string>)
    ensures |r| >= 1
    decreases |s|
  {
    var i := IndexOf(s, sep);
    if i == |s| then [s] else [s[..i]] + Split(s[i + 1..], sep)
  }

  /** Joining the pieces of a split gives the string back, and no piece holds the separator. */
  lemma {:induction false} JoinSplit(s: string, sep: char)
    ensures Join(Split(s, sep), sep) == s
    ensures forall k :: 0 <= k < |Split(s, sep)| ==> sep !in Split(s, sep)[k]
    decreases |s|
  {
    var i := IndexOf(s, sep);
    if i < |s| {
      var rest := Split(s[i + 1..], sep);
      JoinSplit(s[i + 1..], sep);
      assert s == s[..i] + [sep] + s[i + 1..];
      assert Split(s, sep) == [s[..i]] + rest;
      assert Split(s, sep)[1..] == rest;
    }
  }

  /** The first separator of `w + [sep] + rest` is the one after `w`, when `w` holds none. */
  lemma SeparatorAt(w: string, rest: string, sep: char)
    requires sep !in w
    ensures var s := w + [sep] + rest;
      IndexOf(s, sep) == |w| && s[..|w|] == w && s[|w| + 1..] == rest
  {
    var s := w + [sep] + rest;
    assert s[|w|] == sep;
    assert forall j :: 0 <= j < |w| ==> s[j] == w[j];
  }

  /** Splitting what `Join` built gives back the pieces, when no piece holds the separator. */
  lemma {:induction false} SplitJoin(ws: seq<string>, sep: char)
    requires |ws| >= 1
    requires forall k :: 0 <= k < |ws| ==> sep !in ws[k]
    ensures Split(Join(ws, sep), sep) == ws
    decreases |ws|
  {
    var w := ws[0];
    if |ws| == 1 {
      assert IndexOf(w, sep) == |w|;
    } else {
      assert Join(ws, sep) == w + [sep] + Join(ws[1..], sep);
      SeparatorAt(w, Join(ws[1..], sep), sep);
      SplitJoin(ws[1..], sep);
      assert ws == [w] + ws[1..];
    }
  }

  /** A search that has not reached the first occurrence and sees something else may move on. */
  lemma FindSkips(ws: seq<string>, x: string, i: nat)
    requires i <= IndexOf(ws, x) && i < |ws| && ws[i] != x
    ensures i < IndexOf(ws, x)
  {
  }

  /** The scripts' search loop: count the words before the first `x`, stopping there. */
  method FindFirst(ws: seq<string>, x: string) returns (i: nat)
    ensures i == IndexOf(ws, x)
  {
    i := 0;
    while i < |ws| && ws[i] != x
      invariant 0 <= i <= IndexOf(ws, x)
    {
      FindSkips(ws, x, i);
      i := i + 1;
    }
  }

  /** Every word followed by one space, concatenated (the scripts' `out += w + " "` loops). */
  function Spaced(ws: seq<string>): string {
    if ws == [] then "" else ws[0] + " " + Spaced(ws[1..])
  }

  /** A non-empty list written word by word with a space after each is its space-join plus one space. */
  lemma {:induction false} SpacedIsJoin(ws: seq<string>)
    requires ws != []
    ensures Spaced(ws) == Join(ws, ' ') + " "
    decreases |ws|
  {
    if |ws| == 1 {
      assert ws[1..] == [];
    } else {
      SpacedIsJoin(ws[1..]);
      ConcatAssoc(ws[0] + " ", Join(ws[1..], ' '), " ");
    }
  }

  /** Spacing a concatenation spaces each part. */
  lemma {:induction false} SpacedAppend(a: seq<string>, b: seq<string>)
    ensures Spaced(a + b) == Spaced(a) + Spaced(b)
    decreases |a|
  {
    if a == [] {
      assert a + b == b;
    } else {
      assert (a + b)[1..] == a[1..] + b;
      SpacedAppend(a[1..], b);
      ConcatAssoc(a[0] + " ", Spaced(a[1..]), Spaced(b));
    }
  }

  /** `a` in front of the value of `r`; a failure stays a failure. */
  function Prepend<T>(a: seq<T>, r: Result<seq<T>>): (p: Result<seq<T>>)
    ensures p.IndexError? <==> r.IndexError?
    ensures p.Ok? ==> |p.value| == |a| + |r.value| && p.value[..|a|] == a && p.value[|a|..] == r.value
  {
    match r
    case Ok(v) => Ok(a + v)
    case IndexError => IndexError
  }

  /** Prepending twice is prepending the concatenation. */
  lemma PrependTwice<T>(a: seq<T>, b: seq<T>, r: Result<seq<T>>)
    ensures Prepend(a, Prepend(b, r)) == Prepend(a + b, r)
  {
    if r.Ok? {
      ConcatAssoc(a, b, r.value);
    }
  }

  /** Python's `s[:-1]`. */
  function DropLast<T>(s: seq<T>): (r: seq<T>)
    ensures |s| > 0 ==> s == r + [s[|s| - 1]]
    ensures |s| == 0 ==> r == []
  {
    if |s| == 0 then [] else s[..|s| - 1]
  }

  /** Python's `s[a:]` for a non-negative `a`, which is empty past the end. */
  function From<T>(s: seq<T>, a: nat): (r: seq<T>)
    ensures a <= |s| ==> s == s[..a] + r
    ensures a >= |s| ==> r == []
  {
    if a <= |s| then s[a..] else []
  }
}
