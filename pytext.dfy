/**
 * The Python string operations the ingestion rules are built from:
 * `str.isspace`, `strip`, `split()` and `" ".join`, `lower` on the ASCII
 * letters, substring tests, and the non-greedy `re.sub` of a bracketed
 * span (`\[.*?\]`, `\(.*?\)`) in which `.` does not match a newline.
 */
module PyText {

  import opened Wrappers

  /** `str.isspace()` for one character: the characters Python treats as whitespace. */
  predicate IsSpace(c: char) {
    var n := c as int;
    (9 <= n <= 13) || (28 <= n <= 32) || n == 0x85 || n == 0xA0 || n == 0x1680
    || (0x2000 <= n <= 0x200A) || n == 0x2028 || n == 0x2029 || n == 0x202F
    || n == 0x205F || n == 0x3000
  }

  /** `s.lstrip()`: the suffix of `s` left after dropping leading whitespace. */
  function LStrip(s: string): (r: string)
    ensures |r| <= |s| && r == s[|s| - |r|..]
    ensures r == [] || !IsSpace(r[0])
    ensures forall i :: 0 <= i < |s| - |r| ==> IsSpace(s[i])
  {
    if s != [] && IsSpace(s[0]) then LStrip(s[1..]) else s
  }

  /** `s.rstrip()`: the prefix of `s` left after dropping trailing whitespace. */
  function RStrip(s: string): (r: string)
    ensures |r| <= |s| && r == s[..|r|]
    ensures r == [] || !IsSpace(r[|r| - 1])
    ensures forall i :: |r| <= i < |s| ==> IsSpace(s[i])
  {
    if s != [] && IsSpace(s[|s| - 1]) then RStrip(s[..|s| - 1]) else s
  }

  /** `r` is the run of `s` that starts at offset `k`. */
  predicate InfixAt(r: string, s: string, k: int) {
    0 <= k && k + |r| <= |s| && r == s[k..k + |r|]
  }

  /** Every character of `s` at an offset in `[lo, hi)` is whitespace. */
  predicate SpaceBetween(s: string, lo: int, hi: int) {
    forall m :: lo <= m < hi && 0 <= m < |s| ==> IsSpace(s[m])
  }

  /** `s.strip()`: `s` without its leading and trailing whitespace. */
  function Strip(s: string): (r: string)
    ensures r == [] || (!IsSpace(r[0]) && !IsSpace(r[|r| - 1]))
  {
    var t := LStrip(s);
    var r := RStrip(t);
    assert r != [] ==> r[0] == t[0];
    r
  }

  /**
   * `s.strip()` is the infix of `s` that starts after its leading
   * whitespace (at offset `|s| - |LStrip(s)|`) and has only whitespace
   * after it.
   */
  lemma StripInfix(s: string)
    ensures InfixAt(Strip(s), s, |s| - |LStrip(s)|)
    ensures SpaceBetween(s, 0, |s| - |LStrip(s)|)
    ensures SpaceBetween(s, |s| - |LStrip(s)| + |Strip(s)|, |s|)
  {
    var t := LStrip(s);
    StripParts(s, t, RStrip(t));
  }

  /** The facts `lstrip` then `rstrip` leave, put together. */
  lemma StripParts(s: string, t: string, r: string)
    requires |t| <= |s| && t == s[|s| - |t|..] && (t == [] || !IsSpace(t[0]))
    requires forall i :: 0 <= i < |s| - |t| ==> IsSpace(s[i])
    requires |r| <= |t| && r == t[..|r|] && (r == [] || !IsSpace(r[|r| - 1]))
    requires forall i :: |r| <= i < |t| ==> IsSpace(t[i])
    ensures r == [] || (!IsSpace(r[0]) && !IsSpace(r[|r| - 1]))
    ensures InfixAt(r, s, |s| - |t|)
    ensures SpaceBetween(s, 0, |s| - |t|)
    ensures SpaceBetween(s, |s| - |t| + |r|, |s|)
  {
    assert r != [] ==> r[0] == t[0];
    InfixOfSuffix(s, t, |s| - |t|, r);
  }

  /** A prefix `r` of the suffix `t == s[k..]` with only whitespace after it in `t`. */
  lemma InfixOfSuffix(s: string, t: string, k: nat, r: string)
    requires k <= |s| && t == s[k..] && |r| <= |t| && r == t[..|r|]
    requires forall i :: |r| <= i < |t| ==> IsSpace(t[i])
    ensures k + |r| <= |s| && r == s[k..k + |r|]
    ensures forall m :: k + |r| <= m < |s| ==> IsSpace(s[m])
  {
    assert s[k..][..|r|] == s[k..k + |r|];
    StripTail(s, t, k, r);
  }

  /** Leading whitespace up to the non-whitespace character at `i` is what `lstrip` drops. */
  lemma {:induction false} LStripFrom(s: string, i: nat)
    requires i < |s| && !IsSpace(s[i])
    requires forall m :: 0 <= m < i ==> IsSpace(s[m])
    ensures LStrip(s) == s[i..]
    decreases i
  {
    if i > 0 {
      assert IsSpace(s[0]);
      LStripFrom(s[1..], i - 1);
      assert s[1..][i - 1..] == s[i..];
    }
  }

  /** Trailing whitespace after the non-whitespace character at `j` is what `rstrip` drops. */
  lemma {:induction false} RStripUpTo(s: string, j: nat)
    requires j < |s| && !IsSpace(s[j])
    requires forall m :: j < m < |s| ==> IsSpace(s[m])
    ensures RStrip(s) == s[..j + 1]
    decreases |s| - j
  {
    if j < |s| - 1 {
      assert IsSpace(s[|s| - 1]);
      RStripUpTo(s[..|s| - 1], j);
      assert s[..|s| - 1][..j + 1] == s[..j + 1];
    }
  }

  /** A text whose non-whitespace runs from `i` to `j` strips to exactly that infix. */
  lemma StripFrame(s: string, i: nat, j: nat)
    requires i <= j < |s| && !IsSpace(s[i]) && !IsSpace(s[j])
    requires forall m :: 0 <= m < i ==> IsSpace(s[m])
    requires forall m :: j < m < |s| ==> IsSpace(s[m])
    ensures Strip(s) == s[i..j + 1]
  {
    LStripFrom(s, i);
    RStripSuffix(s, i, j);
    StripOf(s, s[i..], s[i..j + 1]);
  }

  /** Trailing whitespace after `j` is what `rstrip` drops from the suffix at `i`. */
  lemma RStripSuffix(s: string, i: nat, j: nat)
    requires i <= j < |s| && !IsSpace(s[j])
    requires forall m :: j < m < |s| ==> IsSpace(s[m])
    ensures RStrip(s[i..]) == s[i..j + 1]
  {
    var t := s[i..];
    forall m | j - i < m < |t|
      ensures IsSpace(t[m])
    {
      assert t[m] == s[i + m];
    }
    assert t[j - i] == s[j];
    RStripUpTo(t, j - i);
    PrefixOfSuffix(s, i, j - i + 1);
  }

  /** `strip` is `rstrip` after `lstrip`. */
  lemma StripOf(s: string, t: string, r: string)
    requires LStrip(s) == t && RStrip(t) == r
    ensures Strip(s) == r
  {
  }

  /** The first `n` characters of `s[i..]` are the infix of `s` at offset `i`. */
  lemma PrefixOfSuffix(s: string, i: nat, n: nat)
    requires i + n <= |s|
    ensures s[i..][..n] == s[i..i + n]
  {
  }

  // ---------------------------------------------------------------------
  // split() and join

  /** A word of `split()`: non-empty and free of whitespace. */
  predicate IsWord(w: string) {
    w != [] && forall i :: 0 <= i < |w| ==> !IsSpace(w[i])
  }

  /** The longest prefix of `s` without whitespace. */
  function TakeWord(s: string): (w: string)
    ensures |w| <= |s| && w == s[..|w|]
    ensures forall i :: 0 <= i < |w| ==> !IsSpace(w[i])
    ensures |w| == |s| || IsSpace(s[|w|])
  {
    if s == [] || IsSpace(s[0]) then [] else [s[0]] + TakeWord(s[1..])
  }

  /** The non-whitespace characters of `s`, in order. */
  function NonSpace(s: string): string {
    if s == [] then [] else (if IsSpace(s[0]) then [] else [s[0]]) + NonSpace(s[1..])
  }

  /** The words of `ws` written one after the other. */
  function Concat(ws: seq<string>): string {
    if ws == [] then [] else ws[0] + Concat(ws[1..])
  }

  /** A whitespace-free prefix of length `n` passes to `NonSpace` unchanged. */
  lemma {:induction false} NonSpaceWord(s: string, n: nat)
    requires n <= |s|
    requires forall i :: 0 <= i < n ==> !IsSpace(s[i])
    ensures NonSpace(s) == s[..n] + NonSpace(s[n..])
    decreases n
  {
    if n > 0 {
      NonSpaceWord(s[1..], n - 1);
      assert s[1..][..n - 1] == s[1..n];
      assert s[1..][n - 1..] == s[n..];
      assert s[..n] == [s[0]] + s[1..n];
    }
  }

  /**
   * `s.split()` with no separator: the maximal runs of non-whitespace, in
   * order; written one after the other they are the non-whitespace
   * characters of `s`.
   */
  function Split(s: string): (ws: seq<string>)
    ensures forall i :: 0 <= i < |ws| ==> IsWord(ws[i])
    ensures Concat(ws) == NonSpace(s)
    decreases |s|
  {
    if s == [] then []
    else if IsSpace(s[0]) then Split(s[1..])
    else
      var w := TakeWord(s);
      var rest := Split(s[|w|..]);
      NonSpaceWord(s, |w|);
      assert ([w] + rest)[1..] == rest;
      [w] + rest
  }

  /** `sep.join(ws)`. */
  function Join(ws: seq<string>, sep: string): string {
    if ws == [] then ""
    else if |ws| == 1 then ws[0]
    else ws[0] + sep + Join(ws[1..], sep)
  }

  /** `" ".join(s.split())`: runs of whitespace become one space, the ends are trimmed. */
  function CollapseWhitespace(s: string): string {
    Join(Split(s), " ")
  }

  /** Text whose only whitespace is single spaces strictly between non-space characters. */
  ghost predicate Collapsed(r: string) {
    forall i :: 0 <= i < |r| && IsSpace(r[i]) ==>
      r[i] == ' ' && 0 < i < |r| - 1 && !IsSpace(r[i - 1]) && !IsSpace(r[i + 1])
  }

  lemma {:induction false} JoinWordsCollapsed(ws: seq<string>)
    requires forall i :: 0 <= i < |ws| ==> IsWord(ws[i])
    ensures Collapsed(Join(ws, " "))
    ensures Join(ws, " ") == [] <==> ws == []
  {
    if |ws| > 1 {
      JoinWordsCollapsed(ws[1..]);
      var w, rest := ws[0], Join(ws[1..], " ");
      var r := w + " " + rest;
      assert r == Join(ws, " ");
      forall i | 0 <= i < |r| && IsSpace(r[i])
        ensures r[i] == ' ' && 0 < i < |r| - 1 && !IsSpace(r[i - 1]) && !IsSpace(r[i + 1])
      {
        if i < |w| {
          assert false;
        } else if i == |w| {
          assert r[i - 1] == w[|w| - 1];
          assert r[i + 1] == rest[0];
        } else {
          var j := i - |w| - 1;
          assert r[i] == rest[j];
          assert j > 0 ==> r[i - 1] == rest[j - 1];
          assert r[i + 1] == rest[j + 1];
        }
      }
    }
  }

  /** The output of the whitespace collapse has no leading, trailing or adjacent whitespace. */
  lemma CollapseWhitespaceShape(s: string)
    ensures Collapsed(CollapseWhitespace(s))
    ensures var r := CollapseWhitespace(s);
      r == [] || (!IsSpace(r[0]) && !IsSpace(r[|r| - 1]))
    ensures var r := CollapseWhitespace(s);
      forall i :: 0 <= i < |r| - 1 ==> !(IsSpace(r[i]) && IsSpace(r[i + 1]))
  {
    JoinWordsCollapsed(Split(s));
  }

  lemma {:induction false} TakeWordOfWord(w: string, t: string)
    requires forall i :: 0 <= i < |w| ==> !IsSpace(w[i])
    requires t == [] || IsSpace(t[0])
    ensures TakeWord(w + t) == w
  {
    if w != [] {
      assert (w + t)[1..] == w[1..] + t;
      TakeWordOfWord(w[1..], t);
    } else {
      assert w + t == t;
    }
  }

  lemma SplitWordThen(w: string, t: string)
    requires IsWord(w)
    requires t == [] || IsSpace(t[0])
    ensures Split(w + t) == [w] + Split(t)
  {
    TakeWordOfWord(w, t);
    assert (w + t)[|w|..] == t;
  }

  /** Splitting a space-joined list of words gives the words back. */
  lemma {:induction false} SplitJoin(ws: seq<string>)
    requires forall i :: 0 <= i < |ws| ==> IsWord(ws[i])
    ensures Split(Join(ws, " ")) == ws
  {
    if ws == [] {
    } else if |ws| == 1 {
      SplitWordThen(ws[0], []);
      assert ws[0] + [] == ws[0];
    } else {
      var rest := Join(ws[1..], " ");
      SplitJoin(ws[1..]);
      assert ws[0] + " " + rest == ws[0] + (" " + rest);
      SplitWordThen(ws[0], " " + rest);
      assert (" " + rest)[1..] == rest;
      assert ws == [ws[0]] + ws[1..];
    }
  }

  /** Collapsing whitespace twice is the same as collapsing it once. */
  lemma CollapseWhitespaceIdempotent(s: string)
    ensures CollapseWhitespace(CollapseWhitespace(s)) == CollapseWhitespace(s)
  {
    SplitJoin(Split(s));
  }

  // ---------------------------------------------------------------------
  // Substring tests and lower-casing

  /** `sub` occurs in `s` at index `i`. */
  ghost predicate OccursAt(s: string, sub: string, i: int) {
    0 <= i && i + |sub| <= |s| && s[i..i + |sub|] == sub
  }

  /** `sub in s` for strings. */
  predicate Contains(s: string, sub: string)
    decreases |s|
  {
    sub <= s || (s != [] && Contains(s[1..], sub))
  }

  lemma ContainsIff(s: string, sub: string)
    ensures Contains(s, sub) <==> exists i :: OccursAt(s, sub, i)
  {
    if Contains(s, sub) {
      ContainsOccurs(s, sub);
    }
    if exists i :: OccursAt(s, sub, i) {
      var i :| OccursAt(s, sub, i);
      OccursContains(s, sub, i);
    }
  }

  lemma {:induction false} ContainsOccurs(s: string, sub: string)
    requires Contains(s, sub)
    ensures exists i :: OccursAt(s, sub, i)
    decreases |s|
  {
    if sub <= s {
      assert OccursAt(s, sub, 0);
    } else {
      ContainsOccurs(s[1..], sub);
      var i :| OccursAt(s[1..], sub, i);
      assert s[1..][i..i + |sub|] == s[i + 1..i + 1 + |sub|];
      assert OccursAt(s, sub, i + 1);
    }
  }

  lemma {:induction false} OccursContains(s: string, sub: string, i: int)
    requires OccursAt(s, sub, i)
    ensures Contains(s, sub)
    decreases |s|
  {
    if i == 0 {
      assert sub <= s;
    } else {
      assert s[1..][i - 1..i - 1 + |sub|] == s[i..i + |sub|];
      OccursContains(s[1..], sub, i - 1);
    }
  }

  /** `c in s` for a single character. */
  lemma ContainsChar(s: string, c: char)
    ensures Contains(s, [c]) <==> c in s
  {
    ContainsIff(s, [c]);
    if c in s {
      var i :| 0 <= i < |s| && s[i] == c;
      assert s[i..i + 1] == [c];
      assert OccursAt(s, [c], i);
    }
    if i :| OccursAt(s, [c], i) {
      assert s[i] == s[i..i + 1][0];
    }
  }

  /** Lower-casing of one character, on the ASCII letters. */
  function LowerChar(c: char): char {
    if 'A' <= c <= 'Z' then (c as int + 32) as char else c
  }

  /** `s.lower()`, folding the ASCII letters. */
  function Lower(s: string): (r: string)
    ensures |r| == |s|
    ensures forall i :: 0 <= i < |s| ==> r[i] == LowerChar(s[i])
  {
    seq(|s|, i requires 0 <= i < |s| => LowerChar(s[i]))
  }

  /** `s.startswith(prefix)`. */
  predicate StartsWith(s: string, prefix: string) {
    prefix <= s
  }

  /** `s.endswith(suffix)`. */
  predicate EndsWith(s: string, suffix: string) {
    |suffix| <= |s| && s[|s| - |suffix|..] == suffix
  }

  /** `s[i]` is `open`, `s[j]` is `close`, and only whitespace lies outside them. */
  predicate FramedAt(s: string, open: char, close: char, i: nat, j: nat) {
    i < j < |s| && s[i] == open && s[j] == close
    && (forall m :: 0 <= m < i ==> IsSpace(s[m]))
    && (forall m :: j < m < |s| ==> IsSpace(s[m]))
  }

  /** The first and the last non-whitespace characters of `s` are `open` and `close`, at two different positions. */
  ghost predicate Framed(s: string, open: char, close: char) {
    exists i: nat, j: nat :: FramedAt(s, open, close, i, j)
  }

  /** The stripped text starts with `open` and ends with `close` exactly when `s` is framed by them. */
  lemma StripFramedIff(s: string, open: char, close: char)
    requires open != close && !IsSpace(open) && !IsSpace(close)
    ensures StartsWith(Strip(s), [open]) && EndsWith(Strip(s), [close]) <==> Framed(s, open, close)
  {
    if StartsWith(Strip(s), [open]) && EndsWith(Strip(s), [close]) {
      StripEndsFramed(s, open, close);
    }
    if Framed(s, open, close) {
      var i: nat, j: nat :| FramedAt(s, open, close, i, j);
      FramedStripEnds(s, i, j);
    }
  }

  lemma StripEndsFramed(s: string, open: char, close: char)
    requires open != close
    requires StartsWith(Strip(s), [open]) && EndsWith(Strip(s), [close])
    ensures Framed(s, open, close)
  {
    var t := LStrip(s);
    var k := |s| - |t|;
    var r := RStrip(t);
    assert r == Strip(s);
    assert r[0] == [open][0];
    assert r[|r| - 1] == r[|r| - 1..][0];
    assert t == s[k..] && r == t[..|r|];
    assert s[k] == open && s[k + |r| - 1] == close;
    StripTail(s, t, k, r);
    assert FramedAt(s, open, close, k, k + |r| - 1);
  }

  lemma StripTail(s: string, t: string, k: nat, r: string)
    requires k <= |s| && t == s[k..] && |r| <= |t|
    requires forall i :: |r| <= i < |t| ==> IsSpace(t[i])
    ensures forall i :: k + |r| <= i < |s| ==> IsSpace(s[i])
  {
    forall i | k + |r| <= i < |s|
      ensures IsSpace(s[i])
    {
      assert s[i] == t[i - k];
    }
  }

  lemma FramedStripEnds(s: string, i: nat, j: nat)
    requires i < j < |s| && FramedAt(s, s[i], s[j], i, j) && !IsSpace(s[i]) && !IsSpace(s[j])
    ensures StartsWith(Strip(s), [s[i]]) && EndsWith(Strip(s), [s[j]])
  {
    StripFrame(s, i, j);
    var t := Strip(s);
    assert t[..1] == [s[i]];
    assert t[|t| - 1..] == [s[j]];
  }

  // ---------------------------------------------------------------------
  // Non-greedy removal of bracketed spans

  /** No `close` occurs in `t` before its first newline. */
  predicate LineFree(t: string, close: char) {
    t == [] || t[0] == '\n' || (t[0] != close && LineFree(t[1..], close))
  }

  /** Every `open` in `r` is followed by no `close` on the same line: nothing left to remove. */
  predicate NoSpan(r: string, open: char, close: char) {
    r == [] || ((r[0] == open ==> LineFree(r[1..], close)) && NoSpan(r[1..], open, close))
  }

  /**
   * The lazy `.*?` followed by `close`, from index `k`: the first `close`
   * at or after `k`, provided no newline comes before it.
   */
  function FindClose(s: string, close: char, k: nat): (r: Option<nat>)
    requires k <= |s|
    requires close != '\n'
    ensures r.Some? ==> k <= r.value < |s| && s[r.value] == close
    ensures r.Some? ==> forall m :: k <= m < r.value ==> s[m] != '\n' && s[m] != close
    ensures r.None? <==> LineFree(s[k..], close)
    decreases |s| - k
  {
    if k == |s| then None
    else if s[k] == close then Some(k)
    else if s[k] == '\n' then None
    else
      assert s[k..][1..] == s[k + 1..];
      FindClose(s, close, k + 1)
  }

  /**
   * `re.sub(open + ".*?" + close, "", s)`: scanning left to right, each
   * `open` with a `close` later on its line starts a span that ends at the
   * first such `close`; the span is deleted and the scan resumes after it.
   */
  function StripSpans(s: string, open: char, close: char): (r: string)
    requires close != '\n'
    ensures IsSubsequence(r, s)
    decreases |s|
  {
    if s == [] then []
    else if s[0] == open then
      match FindClose(s, close, 1)
      case Some(j) =>
        var rest := StripSpans(s[j + 1..], open, close);
        SubsequenceOfSuffix(rest, s, j + 1);
        rest
      case None =>
        var rest := StripSpans(s[1..], open, close);
        assert ([s[0]] + rest)[1..] == rest;
        [s[0]] + rest
    else
      var rest := StripSpans(s[1..], open, close);
      assert ([s[0]] + rest)[1..] == rest;
      [s[0]] + rest
  }

  /** `r` is `s` with some characters deleted: the rest keep their order. */
  predicate IsSubsequence(r: string, s: string)
    decreases |s|
  {
    r == [] || (s != [] && ((r[0] == s[0] && IsSubsequence(r[1..], s[1..])) || IsSubsequence(r, s[1..])))
  }

  lemma {:induction false} SubsequenceOfSuffix(r: string, s: string, k: nat)
    requires k <= |s|
    requires IsSubsequence(r, s[k..])
    ensures IsSubsequence(r, s)
    decreases k
  {
    if k > 0 {
      assert s[1..][k - 1..] == s[k..];
      SubsequenceOfSuffix(r, s[1..], k - 1);
    }
  }

  /** Text before the first `open` is kept as it is. */
  lemma {:induction false} StripSpansPlain(a: string, b: string, open: char, close: char)
    requires close != '\n'
    requires open !in a
    ensures StripSpans(a + b, open, close) == a + StripSpans(b, open, close)
    decreases |a|
  {
    if a != [] {
      assert (a + b)[0] == a[0];
      assert (a + b)[1..] == a[1..] + b;
      StripSpansPlain(a[1..], b, open, close);
      assert a == [a[0]] + a[1..];
    } else {
      assert a + b == b;
    }
  }

  /** The lazy scan from `k` stops at the first `close`, when no newline comes before it. */
  lemma {:induction false} FindCloseAt(s: string, close: char, k: nat, j: nat)
    requires close != '\n'
    requires k <= j < |s| && s[j] == close
    requires forall q :: k <= q < j ==> s[q] != close && s[q] != '\n'
    ensures FindClose(s, close, k) == Some(j)
    decreases j - k
  {
    if k < j {
      FindCloseAt(s, close, k + 1, j);
    }
  }

  /** A leading `open`, a line without `close`, then `close`: that span is deleted. */
  lemma StripSpansDropsSpan(m: string, b: string, open: char, close: char)
    requires close != '\n'
    requires close !in m && '\n' !in m
    ensures StripSpans([open] + m + [close] + b, open, close) == StripSpans(b, open, close)
  {
    var s := [open] + m + [close] + b;
    forall q | 1 <= q < |m| + 1
      ensures s[q] != close && s[q] != '\n'
    {
      assert s[q] == m[q - 1];
    }
    FindCloseAt(s, close, 1, |m| + 1);
    assert s[|m| + 2..] == b;
  }

  lemma {:induction false} LineFreeAfterNewlineFree(s: string, c: char, k: nat)
    requires k <= |s|
    requires LineFree(s, c)
    requires forall m :: 0 <= m < k ==> s[m] != '\n'
    ensures LineFree(s[k..], c)
  {
    if k > 0 {
      assert s[1..][k - 1..] == s[k..];
      LineFreeAfterNewlineFree(s[1..], c, k - 1);
    }
  }

  /** Deleting spans never brings a `c` forward onto the line of an earlier character. */
  lemma {:induction false} StripSpansKeepsLineFree(s: string, open: char, close: char, c: char)
    requires open != '\n' && close != '\n' && c != '\n' && open != c
    requires LineFree(s, c)
    ensures LineFree(StripSpans(s, open, close), c)
    decreases |s|
  {
    if s != [] && s[0] != '\n' {
      if s[0] == open {
        match FindClose(s, close, 1)
        case Some(j) =>
          LineFreeAfterNewlineFree(s, c, j + 1);
          StripSpansKeepsLineFree(s[j + 1..], open, close, c);
        case None =>
          StripSpansKeepsLineFree(s[1..], open, close, c);
      } else {
        StripSpansKeepsLineFree(s[1..], open, close, c);
      }
    }
  }

  /** After the removal no span of the same kind is left. */
  lemma {:induction false} StripSpansNoSpan(s: string, open: char, close: char)
    requires open != '\n' && close != '\n' && open != close
    ensures NoSpan(StripSpans(s, open, close), open, close)
    decreases |s|
  {
    if s != [] {
      if s[0] == open {
        match FindClose(s, close, 1)
        case Some(j) =>
          StripSpansNoSpan(s[j + 1..], open, close);
        case None =>
          StripSpansKeepsLineFree(s[1..], open, close, close);
          StripSpansNoSpan(s[1..], open, close);
      } else {
        StripSpansNoSpan(s[1..], open, close);
      }
    }
  }

  lemma {:induction false} NoSpanSuffix(s: string, open: char, close: char, k: nat)
    requires k <= |s|
    requires NoSpan(s, open, close)
    ensures NoSpan(s[k..], open, close)
  {
    if k > 0 {
      assert s[1..][k - 1..] == s[k..];
      NoSpanSuffix(s[1..], open, close, k - 1);
    }
  }

  /** Deleting spans of one kind leaves no span of another kind behind. */
  lemma {:induction false} StripSpansKeepsNoSpan(s: string, open: char, close: char, open2: char, close2: char)
    requires open != '\n' && close != '\n' && close2 != '\n' && open != close2
    requires NoSpan(s, open2, close2)
    ensures NoSpan(StripSpans(s, open, close), open2, close2)
    decreases |s|
  {
    if s != [] {
      if s[0] == open {
        match FindClose(s, close, 1)
        case Some(j) =>
          NoSpanSuffix(s, open2, close2, j + 1);
          StripSpansKeepsNoSpan(s[j + 1..], open, close, open2, close2);
        case None =>
          if s[0] == open2 {
            StripSpansKeepsLineFree(s[1..], open, close, close2);
          }
          StripSpansKeepsNoSpan(s[1..], open, close, open2, close2);
      } else {
        if s[0] == open2 {
          StripSpansKeepsLineFree(s[1..], open, close, close2);
        }
        StripSpansKeepsNoSpan(s[1..], open, close, open2, close2);
      }
    }
  }

  /** A text without spans is left unchanged by the removal. */
  lemma {:induction false} NoSpanFixpoint(s: string, open: char, close: char)
    requires close != '\n'
    requires NoSpan(s, open, close)
    ensures StripSpans(s, open, close) == s
    decreases |s|
  {
    if s != [] {
      NoSpanFixpoint(s[1..], open, close);
      assert s == [s[0]] + s[1..];
    }
  }

  /** The span removal is idempotent. */
  lemma StripSpansIdempotent(s: string, open: char, close: char)
    requires open != '\n' && close != '\n' && open != close
    ensures StripSpans(StripSpans(s, open, close), open, close) == StripSpans(s, open, close)
  {
    StripSpansNoSpan(s, open, close);
    NoSpanFixpoint(StripSpans(s, open, close), open, close);
  }

  lemma {:induction false} LineFreePrefix(s: string, c: char, n: nat)
    requires n <= |s|
    requires LineFree(s, c)
    ensures LineFree(s[..n], c)
  {
    if n > 0 && s[0] != '\n' {
      assert s[..n][1..] == s[1..][..n - 1];
      LineFreePrefix(s[1..], c, n - 1);
    }
  }

  lemma {:induction false} NoSpanPrefix(s: string, open: char, close: char, n: nat)
    requires n <= |s|
    requires NoSpan(s, open, close)
    ensures NoSpan(s[..n], open, close)
  {
    if n > 0 {
      assert s[..n][1..] == s[1..][..n - 1];
      if s[0] == open {
        LineFreePrefix(s[1..], close, n - 1);
      }
      NoSpanPrefix(s[1..], open, close, n - 1);
    }
  }

  /** Trimming whitespace from the ends leaves no span behind where there was none. */
  lemma StripKeepsNoSpan(s: string, open: char, close: char)
    requires NoSpan(s, open, close)
    ensures NoSpan(Strip(s), open, close)
  {
    var t := LStrip(s);
    var k := |s| - |t|;
    assert t == s[k..];
    NoSpanSuffix(s, open, close, k);
    var r := RStrip(t);
    assert r == Strip(s);
    NoSpanPrefix(t, open, close, |r|);
  }
}
