/** Text primitives of Python's `str` and JavaScript's `String` that the
    source relies on, restricted to ASCII: whitespace, case, stripping,
    splitting, joining, replacing and decimal numerals. */
module Strings {
  import opened Common

  /** ASCII whitespace: space, tab, line feed, carriage return, vertical tab
      and form feed. */
  predicate IsSpace(c: char)
  {
    c == ' ' || c == '\t' || c == '\n' || c == '\r' || c == '\U{0B}' || c == '\U{0C}'
  }

  predicate NotSpace(c: char) { !IsSpace(c) }

  predicate IsUpper(c: char) { 'A' <= c <= 'Z' }

  predicate IsDigit(c: char) { '0' <= c <= '9' }

  predicate NoSpace(s: string)
  {
    forall i :: 0 <= i < |s| ==> !IsSpace(s[i])
  }

  predicate AllDigits(s: string)
  {
    forall i :: 0 <= i < |s| ==> IsDigit(s[i])
  }

  /** Length of the longest prefix of `s` whose characters all satisfy `p`. */
  function Span(s: string, p: char -> bool): (n: nat)
    ensures n <= |s|
    ensures forall i :: 0 <= i < n ==> p(s[i])
    ensures n == |s| || !p(s[n])
  {
    if s == [] || !p(s[0]) then 0 else 1 + Span(s[1..], p)
  }

  /** `s` holds `w` at position `i`. */
  predicate HoldsAt(s: string, i: nat, w: string)
  {
    i + |w| <= |s| && forall j :: 0 <= j < |w| ==> s[i + j] == w[j]
  }

  /** A text held at `i` holds each of its two halves. */
  lemma HoldsAtSplit(s: string, i: nat, a: string, b: string)
    requires HoldsAt(s, i, a + b)
    ensures HoldsAt(s, i, a) && HoldsAt(s, i + |a|, b)
  {
    assert forall j :: 0 <= j < |a| ==> (a + b)[j] == a[j];
    assert forall j :: 0 <= j < |b| ==> (a + b)[|a| + j] == b[j];
  }

  /** The first half of a concatenation stands at its start. */
  lemma HoldsAtPrefix(a: string, b: string)
    ensures HoldsAt(a + b, 0, a)
  {
  }

  /** The second half of a concatenation stands after the first. */
  lemma HoldsAtSuffix(a: string, b: string)
    ensures HoldsAt(a + b, |a|, b)
  {
  }

  /** Two texts held one after the other hold their concatenation. */
  lemma HoldsAtJoin(s: string, i: nat, a: string, b: string)
    requires HoldsAt(s, i, a) && HoldsAt(s, i + |a|, b)
    ensures HoldsAt(s, i, a + b)
  {
    forall j | 0 <= j < |a + b| ensures s[i + j] == (a + b)[j] {
      if j >= |a| {
        assert s[i + |a| + (j - |a|)] == b[j - |a|];
      }
    }
  }

  /** The slice where a text is held is that text. */
  lemma HoldsAtSlice(s: string, i: nat, w: string)
    requires HoldsAt(s, i, w)
    ensures s[i..i + |w|] == w
  {
    var x := s[i..i + |w|];
    assert forall j :: 0 <= j < |w| ==> x[j] == s[i + j];
  }

  lemma HoldsAtChar(s: string, i: nat, w: string, j: nat)
    requires HoldsAt(s, i, w) && j < |w|
    ensures s[i + j] == w[j]
  {
  }

  /** Length of the run of decimal digits from position `i` on (a greedy
      `\d+` or `\d*`). */
  function DigitRun(s: string, i: nat): (n: nat)
    requires i <= |s|
    ensures i + n <= |s|
    ensures forall j :: i <= j < i + n ==> IsDigit(s[j])
    ensures i + n == |s| || !IsDigit(s[i + n])
    decreases |s| - i
  {
    if i == |s| || !IsDigit(s[i]) then 0 else 1 + DigitRun(s, i + 1)
  }

  /** The digit run is determined by where the digits stop. */
  lemma {:induction false} DigitRunIs(s: string, i: nat, n: nat)
    requires i + n <= |s|
    requires forall j :: i <= j < i + n ==> IsDigit(s[j])
    requires i + n == |s| || !IsDigit(s[i + n])
    ensures DigitRun(s, i) == n
    decreases n
  {
    if n > 0 {
      DigitRunIs(s, i + 1, n - 1);
    }
  }

  /** Length of the run of capital letters from position `i` on. */
  function UpperRun(s: string, i: nat): (n: nat)
    requires i <= |s|
    ensures i + n <= |s|
    ensures forall j :: i <= j < i + n ==> IsUpper(s[j])
    ensures i + n == |s| || !IsUpper(s[i + n])
    decreases |s| - i
  {
    if i == |s| || !IsUpper(s[i]) then 0 else 1 + UpperRun(s, i + 1)
  }

  lemma {:induction false} UpperRunIs(s: string, i: nat, n: nat)
    requires i + n <= |s|
    requires forall j :: i <= j < i + n ==> IsUpper(s[j])
    requires i + n == |s| || !IsUpper(s[i + n])
    ensures UpperRun(s, i) == n
    decreases n
  {
    if n > 0 {
      UpperRunIs(s, i + 1, n - 1);
    }
  }

  /** Length of the run of whitespace from position `i` on. */
  function SpaceRun(s: string, i: nat): (n: nat)
    requires i <= |s|
    ensures i + n <= |s|
    ensures forall j :: i <= j < i + n ==> IsSpace(s[j])
    ensures i + n == |s| || !IsSpace(s[i + n])
    decreases |s| - i
  {
    if i == |s| || !IsSpace(s[i]) then 0 else 1 + SpaceRun(s, i + 1)
  }

  lemma {:induction false} SpaceRunIs(s: string, i: nat, n: nat)
    requires i + n <= |s|
    requires forall j :: i <= j < i + n ==> IsSpace(s[j])
    requires i + n == |s| || !IsSpace(s[i + n])
    ensures SpaceRun(s, i) == n
    decreases n
  {
    if n > 0 {
      SpaceRunIs(s, i + 1, n - 1);
    }
  }

  /** A prefix all of whose characters satisfy `p`, followed by the end or a
      character that does not, is exactly the span. */
  lemma {:induction false} SpanOfPrefix(a: string, b: string, p: char -> bool)
    requires forall i :: 0 <= i < |a| ==> p(a[i])
    requires b == [] || !p(b[0])
    ensures Span(a + b, p) == |a|
  {
    if a != [] {
      assert (a + b)[0] == a[0];
      assert (a + b)[1..] == a[1..] + b;
      SpanOfPrefix(a[1..], b, p);
    } else {
      assert a + b == b;
    }
  }

  /** A span that stops inside `a` is not changed by appending to `a`. */
  lemma SpanExtend(a: string, b: string, p: char -> bool)
    requires Span(a, p) < |a|
    ensures Span(a + b, p) == Span(a, p)
  {
    var n := Span(a, p);
    assert a + b == a[..n] + (a[n..] + b);
    assert (a[n..] + b)[0] == a[n];
    SpanOfPrefix(a[..n], a[n..] + b, p);
  }

  /** Cutting `s` after the point where its span stops keeps the span. */
  lemma {:induction false} SpanRestrict(s: string, k: nat, p: char -> bool)
    requires Span(s, p) < k <= |s|
    ensures Span(s[..k], p) == Span(s, p)
    decreases k
  {
    var t := s[..k];
    assert t[0] == s[0];
    if p(s[0]) {
      assert t[1..] == s[1..][..k - 1];
      SpanRestrict(s[1..], k - 1, p);
    }
  }

  // ---------------------------------------------------------------- case

  function LowerChar(c: char): char
  {
    if IsUpper(c) then (c as int + 32) as char else c
  }

  /** `str.lower()` / `String.prototype.toLowerCase()` on ASCII letters. */
  function Lower(s: string): (r: string)
    ensures |r| == |s|
    ensures forall i :: 0 <= i < |s| ==> r[i] == LowerChar(s[i])
  {
    if s == [] then [] else [LowerChar(s[0])] + Lower(s[1..])
  }

  function UpperChar(c: char): char
  {
    if 'a' <= c <= 'z' then (c as int - 32) as char else c
  }

  /** `String.prototype.toUpperCase()` on ASCII letters. */
  function Upper(s: string): (r: string)
    ensures |r| == |s|
    ensures forall i :: 0 <= i < |s| ==> r[i] == UpperChar(s[i])
  {
    if s == [] then [] else [UpperChar(s[0])] + Upper(s[1..])
  }

  lemma LowerIdempotent(s: string)
    ensures Lower(Lower(s)) == Lower(s)
  {
    assert forall i :: 0 <= i < |s| ==> LowerChar(LowerChar(s[i])) == LowerChar(s[i]);
  }

  // ----------------------------------------------------------- substrings

  predicate StartsWith(s: string, p: string)
  {
    |p| <= |s| && s[..|p|] == p
  }

  /** `t in s` (Python) and `s.includes(t)` (JavaScript). */
  predicate Contains(s: string, t: string)
    decreases |s|
  {
    StartsWith(s, t) || (|s| > 0 && Contains(s[1..], t))
  }

  lemma ContainsEmpty(s: string)
    ensures Contains(s, "")
  {
    assert StartsWith(s, "");
  }

  /** A string that does not hold the first character of `t` does not
      contain `t`. */
  lemma {:induction false} NotContainsFirst(s: string, t: string)
    requires |t| > 0 && t[0] !in s
    ensures !Contains(s, t)
  {
    if |s| > 0 {
      assert s[1..] <= s[1..];
      assert forall c :: c in s[1..] ==> c in s;
      NotContainsFirst(s[1..], t);
    }
  }

  /** A contained text only holds characters of the text containing it. */
  lemma {:induction false} ContainsKeepsChars(s: string, t: string, k: nat)
    requires Contains(s, t) && k < |t|
    ensures t[k] in s
    decreases |s|
  {
    if StartsWith(s, t) {
      assert s[..|t|][k] == s[k];
    } else {
      ContainsKeepsChars(s[1..], t, k);
      var i :| 0 <= i < |s[1..]| && s[1..][i] == t[k];
      assert s[i + 1] == t[k];
    }
  }

  /** A text held at some position is contained. */
  lemma {:induction false} ContainsAt(s: string, t: string, j: nat)
    requires HoldsAt(s, j, t)
    ensures Contains(s, t)
    decreases j
  {
    if j == 0 {
      HoldsAtSlice(s, 0, t);
    } else {
      assert HoldsAt(s[1..], j - 1, t) by {
        forall k | 0 <= k < |t| ensures s[1..][j - 1 + k] == t[k] {
          HoldsAtChar(s, j, t, k);
        }
      }
      ContainsAt(s[1..], t, j - 1);
    }
  }

  // ---------------------------------------------------------------- ordering

  /** Python's `<=` on strings: lexicographic by code point. */
  predicate StrLe(a: string, b: string)
    decreases |a|
  {
    a == [] || (b != [] && (a[0] < b[0] || (a[0] == b[0] && StrLe(a[1..], b[1..]))))
  }

  predicate StrLt(a: string, b: string)
  {
    StrLe(a, b) && a != b
  }

  lemma {:induction false} StrLeReflexive(a: string)
    ensures StrLe(a, a)
    decreases |a|
  {
    if a != [] {
      StrLeReflexive(a[1..]);
    }
  }

  lemma {:induction false} StrLeTotal(a: string, b: string)
    ensures StrLe(a, b) || StrLe(b, a)
    decreases |a|
  {
    if a != [] && b != [] && a[0] == b[0] {
      StrLeTotal(a[1..], b[1..]);
    }
  }

  lemma {:induction false} StrLeAntisymmetric(a: string, b: string)
    requires StrLe(a, b) && StrLe(b, a)
    ensures a == b
    decreases |a|
  {
    if a != [] {
      StrLeAntisymmetric(a[1..], b[1..]);
      assert a == [a[0]] + a[1..] && b == [b[0]] + b[1..];
    }
  }

  lemma {:induction false} StrLeTransitive(a: string, b: string, c: string)
    requires StrLe(a, b) && StrLe(b, c)
    ensures StrLe(a, c)
    decreases |a|
  {
    if a != [] && a[0] == b[0] && b[0] == c[0] {
      StrLeTransitive(a[1..], b[1..], c[1..]);
    }
  }

  // ------------------------------------------------------------- stripping

  /** Length of the longest suffix of `s` whose characters all satisfy `p`. */
  function SpanRight(s: string, p: char -> bool): (n: nat)
    ensures n <= |s|
    ensures forall i :: |s| - n <= i < |s| ==> p(s[i])
    ensures n == |s| || !p(s[|s| - 1 - n])
  {
    if s == [] || !p(s[|s| - 1]) then 0 else 1 + SpanRight(s[..|s| - 1], p)
  }

  function TrimLeft(s: string): string
  {
    s[Span(s, IsSpace)..]
  }

  function TrimRight(s: string): string
  {
    s[..|s| - SpanRight(s, IsSpace)]
  }

  /** `str.strip()` / `String.prototype.trim()`. */
  function Strip(s: string): string
  {
    TrimRight(TrimLeft(s))
  }

  /** Neither end of `s` is whitespace. */
  predicate Stripped(s: string)
  {
    s == [] || (!IsSpace(s[0]) && !IsSpace(s[|s| - 1]))
  }

  /** The stripped text is the slice of the input starting after its leading
      whitespace, only whitespace is cut off on either side, and neither end
      of the result is whitespace. */
  lemma StripSpec(s: string)
    ensures Stripped(Strip(s))
    ensures var i, r := |s| - |TrimLeft(s)|, Strip(s);
            i + |r| <= |s| && s[i..i + |r|] == r
            && (forall k :: 0 <= k < i ==> IsSpace(s[k]))
            && (forall k :: i + |r| <= k < |s| ==> IsSpace(s[k]))
  {
    var t := TrimLeft(s);
    var r := TrimRight(t);
    var i := |s| - |t|;
    TrimLeftSpec(s);
    TrimRightSpec(t);
    assert s[i..] == t;
    assert s[i..i + |r|] == t[..|r|];
    forall k | i + |r| <= k < |s| ensures IsSpace(s[k]) {
      assert s[k] == t[k - i];
    }
    if r != [] {
      assert r[0] == t[0];
    }
  }

  /** Trimming on the left drops a run of whitespace and stops before a
      character that is not whitespace. */
  lemma TrimLeftSpec(s: string)
    ensures var t := TrimLeft(s);
            |t| <= |s| && t == s[|s| - |t|..]
            && (forall k :: 0 <= k < |s| - |t| ==> IsSpace(s[k]))
            && (t == [] || !IsSpace(t[0]))
  {
    var n := Span(s, IsSpace);
    if n < |s| {
      assert TrimLeft(s)[0] == s[n];
    }
  }

  /** Trimming on the right drops a run of whitespace and stops after a
      character that is not whitespace. */
  lemma TrimRightSpec(t: string)
    ensures var r := TrimRight(t);
            |r| <= |t| && r == t[..|r|]
            && (forall k :: |r| <= k < |t| ==> IsSpace(t[k]))
            && (r == [] || !IsSpace(r[|r| - 1]))
  {
    var n := SpanRight(t, IsSpace);
    if n < |t| {
      assert TrimRight(t)[|t| - n - 1] == t[|t| - 1 - n];
    }
  }

  lemma StripOfStripped(s: string)
    requires Stripped(s)
    ensures Strip(s) == s
  {
  }

  lemma StripIdempotent(s: string)
    ensures Strip(Strip(s)) == Strip(s)
  {
    StripSpec(s);
    StripOfStripped(Strip(s));
  }

  /** Stripping only removes characters. */
  lemma StripKeepsOut(s: string, c: char)
    requires c !in s
    ensures c !in Strip(s)
  {
    assert forall x :: x in TrimLeft(s) ==> x in s;
    assert forall x :: x in Strip(s) ==> x in TrimLeft(s);
  }

  /** Stripping keeps the slice between the leading and the trailing
      whitespace. */
  lemma StripAt(s: string, i: nat, n: nat)
    requires 0 < n && i + n <= |s|
    requires forall j :: 0 <= j < i ==> IsSpace(s[j])
    requires forall j :: i + n <= j < |s| ==> IsSpace(s[j])
    requires !IsSpace(s[i]) && !IsSpace(s[i + n - 1])
    ensures Strip(s) == s[i..i + n]
  {
    SpanIs(s, i);
    var t := s[i..];
    forall j | n <= j < |t| ensures IsSpace(t[j]) {
      assert t[j] == s[i + j];
    }
    assert t[n - 1] == s[i + n - 1];
    SpanRightIs(t, n);
    assert t[..n] == s[i..i + n];
  }

  /** The whitespace run at the front ends where whitespace first stops. */
  lemma SpanIs(s: string, i: nat)
    requires i < |s| && !IsSpace(s[i])
    requires forall j :: 0 <= j < i ==> IsSpace(s[j])
    ensures Span(s, IsSpace) == i
  {
  }

  /** The whitespace run at the back starts after the last character that
      is not whitespace. */
  lemma SpanRightIs(t: string, n: nat)
    requires 0 < n <= |t| && !IsSpace(t[n - 1])
    requires forall j :: n <= j < |t| ==> IsSpace(t[j])
    ensures SpanRight(t, IsSpace) == |t| - n
  {
  }

  /** Leading whitespace makes no difference to stripping. */
  lemma StripSpacePrefix(c: char, s: string)
    requires IsSpace(c)
    ensures Strip([c] + s) == Strip(s)
  {
    assert ([c] + s)[1..] == s;
  }

  /** Stripping a word framed by whitespace gives the word. */
  lemma StripFramed(pre: string, x: string, post: string)
    requires forall i :: 0 <= i < |pre| ==> IsSpace(pre[i])
    requires forall i :: 0 <= i < |post| ==> IsSpace(post[i])
    requires x != [] && Stripped(x)
    ensures Strip(pre + x + post) == x
  {
    var s := pre + x + post;
    assert s == pre + (x + post);
    SpanOfPrefix(pre, x + post, IsSpace);
    assert TrimLeft(s) == x + post;
    var t := x + post;
    var n := SpanRight(t, IsSpace);
    assert forall i :: 0 <= i < |post| ==> t[|x| + i] == post[i];
    assert t[|x| - 1] == x[|x| - 1];
    assert n == |post|;
    assert t[..|t| - n] == x;
  }

  // ------------------------------------------------- splitting on whitespace

  /** Python's `str.split()` with no argument: the maximal runs of
      non-whitespace characters, in order. */
  function SplitWs(s: string): (r: seq<string>)
    ensures Words(r)
    decreases |s|
  {
    var t := TrimLeft(s);
    if t == [] then []
    else
      assert |t| <= |s| && !IsSpace(t[0]) by {
        TrimLeftSpec(s);
      }
      var n := Span(t, NotSpace);
      var w := t[..n];
      assert n > 0 && NoSpace(w) by {
        FirstWord(t);
      }
      var rest := SplitWs(t[n..]);
      WordsCons(w, rest);
      [w] + rest
  }

  lemma WordsCons(w: string, rest: seq<string>)
    requires w != [] && NoSpace(w) && Words(rest)
    ensures Words([w] + rest)
  {
    var r := [w] + rest;
    forall k | 0 <= k < |r| ensures r[k] != [] && NoSpace(r[k]) {
      if k > 0 {
        assert r[k] == rest[k - 1];
      }
    }
  }

  /** A text starting with a character that is not whitespace starts with a
      word. */
  lemma FirstWord(t: string)
    requires t != [] && !IsSpace(t[0])
    ensures var n := Span(t, NotSpace); n > 0 && NoSpace(t[..n])
  {
    var n := Span(t, NotSpace);
    assert NotSpace(t[0]);
    forall i | 0 <= i < n ensures !IsSpace(t[..n][i]) {
      assert t[..n][i] == t[i] && NotSpace(t[i]);
    }
  }

  /** `sep.join(parts)` / `parts.join(sep)`. */
  function Join(sep: string, parts: seq<string>): string
  {
    if |parts| == 0 then ""
    else if |parts| == 1 then parts[0]
    else parts[0] + sep + Join(sep, parts[1..])
  }

  predicate Words(toks: seq<string>)
  {
    forall k :: 0 <= k < |toks| ==> toks[k] != [] && NoSpace(toks[k])
  }

  lemma SplitWsSpacePrefix(c: char, s: string)
    requires IsSpace(c)
    ensures SplitWs([c] + s) == SplitWs(s)
  {
    assert ([c] + s)[1..] == s;
  }

  lemma {:induction false} JoinWordsShape(toks: seq<string>)
    requires Words(toks)
    ensures var j := Join(" ", toks); toks != [] ==> j != [] && !IsSpace(j[0]) && !IsSpace(j[|j| - 1])
    ensures toks == [] ==> Join(" ", toks) == []
  {
    if |toks| >= 2 {
      JoinWordsShape(toks[1..]);
    }
  }

  /** Splitting a single-space join of words gives the words back. */
  lemma {:induction false} SplitJoinWords(toks: seq<string>)
    requires Words(toks)
    ensures SplitWs(Join(" ", toks)) == toks
  {
    if |toks| == 0 {
    } else {
      var w := toks[0];
      if |toks| == 1 {
        assert Join(" ", toks) == w;
        assert TrimLeft(w) == w;
        assert Span(w, NotSpace) == |w|;
        assert w[..|w|] == w;
        assert w[|w|..] == [];
        assert SplitWs([]) == [];
      } else {
        var rest := Join(" ", toks[1..]);
        var j := w + " " + rest;
        assert Join(" ", toks) == j;
        JoinWordsShape(toks[1..]);
        assert TrimLeft(j) == j;
        var n := Span(j, NotSpace);
        assert j[|w|] == ' ';
        assert forall i :: 0 <= i < |w| ==> j[i] == w[i];
        assert n == |w|;
        assert j[..n] == w;
        assert j[n..] == [' '] + rest;
        SplitWsSpacePrefix(' ', rest);
        SplitJoinWords(toks[1..]);
      }
    }
  }

  /** A word, one space and another word split into those two words. */
  lemma SplitTwoWords(x: string, y: string)
    requires x != [] && NoSpace(x) && y != [] && NoSpace(y)
    ensures Stripped(x + " " + y)
    ensures SplitWs(Strip(x + " " + y)) == [x, y]
  {
    var toks := [x, y];
    assert Join(" ", toks[1..]) == y;
    assert Join(" ", toks) == x + " " + y;
    JoinWordsShape(toks);
    StripOfStripped(x + " " + y);
    SplitJoinWords(toks);
  }

  /** Characters other than whitespace glued together contain no whitespace. */
  lemma NoSpaceAppend(a: string, b: string)
    requires NoSpace(a) && NoSpace(b)
    ensures NoSpace(a + b)
  {
    assert forall i :: 0 <= i < |a + b| ==> (a + b)[i] == if i < |a| then a[i] else b[i - |a|];
  }

  /** A join of pieces separated by a text without `c` has `c` in none of
      the pieces if it has none itself. */
  lemma {:induction false} JoinKeepsOut(ps: seq<string>, sep: string, c: char)
    requires c !in Join(sep, ps)
    ensures forall i :: 0 <= i < |ps| ==> c !in ps[i]
  {
    if |ps| >= 2 {
      assert Join(sep, ps) == ps[0] + sep + Join(sep, ps[1..]);
      JoinKeepsOut(ps[1..], sep, c);
      assert forall i :: 1 <= i < |ps| ==> ps[i] == ps[1..][i - 1];
    }
  }

  // ------------------------------------------------ splitting on a character

  /** Length of the stretch from position `i` on that avoids `c`. */
  function OtherRun(s: string, i: nat, c: char): (n: nat)
    requires i <= |s|
    ensures i + n <= |s|
    ensures forall j :: i <= j < i + n ==> s[j] != c
    ensures i + n == |s| || s[i + n] == c
    decreases |s| - i
  {
    if i == |s| || s[i] == c then 0 else 1 + OtherRun(s, i + 1, c)
  }

  lemma {:induction false} OtherRunIs(s: string, i: nat, c: char, n: nat)
    requires i + n <= |s|
    requires forall j :: i <= j < i + n ==> s[j] != c
    requires i + n == |s| || s[i + n] == c
    ensures OtherRun(s, i, c) == n
    decreases n
  {
    if n > 0 {
      OtherRunIs(s, i + 1, c, n - 1);
    }
  }

  /** Python's `s.split(c)` for a one-character separator. */
  function SplitChar(s: string, c: char): (r: seq<string>)
    ensures |r| >= 1
    ensures forall k :: 0 <= k < |r| ==> c !in r[k]
    decreases |s|
  {
    var n := OtherRun(s, 0, c);
    if n == |s| then [s] else [s[..n]] + SplitChar(s[n + 1..], c)
  }

  /** Joining the pieces with the separator restores the input. */
  lemma {:induction false} JoinSplitChar(s: string, c: char)
    ensures Join([c], SplitChar(s, c)) == s
    decreases |s|
  {
    var n := OtherRun(s, 0, c);
    if n < |s| {
      var head, rest := s[..n], s[n + 1..];
      var tail := SplitChar(rest, c);
      assert SplitChar(s, c) == [head] + tail;
      JoinCons([c], head, tail);
      JoinSplitChar(rest, c);
      assert s[n] == c;
      assert s == head + [c] + rest;
    }
  }

  /** The first piece is everything before the first separator. */
  lemma SplitCharFirst(a: string, c: char, b: string)
    requires c !in a
    ensures SplitChar(a + [c] + b, c) == [a] + SplitChar(b, c)
  {
    var s := a + [c] + b;
    var n := OtherRun(s, 0, c);
    assert s[|a|] == c;
    assert forall i :: 0 <= i < |a| ==> s[i] == a[i];
    OtherRunIs(s, 0, c, |a|);
    assert s[..n] == a && s[n + 1..] == b;
  }

  lemma SplitCharNone(s: string, c: char)
    requires c !in s
    ensures SplitChar(s, c) == [s]
  {
    OtherRunIs(s, 0, c, |s|);
  }

  /** The last piece is everything after the last separator. */
  lemma {:induction false} SplitCharLast(a: string, c: char, b: string)
    requires c !in b
    ensures var r := SplitChar(a + [c] + b, c); r[|r| - 1] == b
    decreases |a|
  {
    var s := a + [c] + b;
    var n := OtherRun(s, 0, c);
    assert s[|a|] == c;
    assert n <= |a|;
    if c in a {
      var i :| 0 <= i < |a| && a[i] == c;
      assert s[i] == c;
      assert n < |a|;
      assert s[n + 1..] == a[n + 1..] + [c] + b;
      SplitCharLast(a[n + 1..], c, b);
    } else {
      SplitCharFirst(a, c, b);
      SplitCharNone(b, c);
    }
  }

  /** The first piece ends at the first separator. */
  lemma SplitCharAt(s: string, c: char, k: nat)
    requires k < |s| && s[k] == c
    requires forall j :: 0 <= j < k ==> s[j] != c
    ensures SplitChar(s, c) == [s[..k]] + SplitChar(s[k + 1..], c)
  {
    OtherRunIs(s, 0, c, k);
  }

  /** The last piece starts after the last separator. */
  lemma {:induction false} SplitCharLastAt(s: string, c: char, k: nat)
    requires k < |s| && s[k] == c
    requires forall j :: k < j < |s| ==> s[j] != c
    ensures var r := SplitChar(s, c); r[|r| - 1] == s[k + 1..]
    decreases |s|
  {
    var n := OtherRun(s, 0, c);
    assert n <= k;
    if n == k {
      SplitCharNone(s[k + 1..], c);
    } else {
      var t := s[n + 1..];
      assert SplitChar(s, c) == [s[..n]] + SplitChar(t, c);
      assert t[k - n - 1] == c;
      assert t[k - n..] == s[k + 1..];
      SplitCharLastAt(t, c, k - n - 1);
    }
  }

  // --------------------------------------------------- splitting on a string

  /** Position of the first occurrence of `t` in `s` at or after `from`. */
  function IndexFrom(s: string, t: string, from: nat): (r: Option<nat>)
    requires from <= |s|
    ensures r.Some? ==> from <= r.value && r.value + |t| <= |s| && s[r.value..r.value + |t|] == t
    ensures r.Some? ==> forall j :: from <= j < r.value ==> !StartsWith(s[j..], t)
    ensures r.None? ==> forall j :: from <= j <= |s| ==> !StartsWith(s[j..], t)
    decreases |s| - from
  {
    if StartsWith(s[from..], t) then Some(from)
    else if from == |s| then None
    else IndexFrom(s, t, from + 1)
  }

  /** Position of the first occurrence of `t` in `s`. */
  function IndexOf(s: string, t: string): (r: Option<nat>)
    ensures r.Some? ==> r.value + |t| <= |s| && s[r.value..r.value + |t|] == t
    ensures r.Some? ==> forall j :: 0 <= j < r.value ==> !StartsWith(s[j..], t)
    ensures r.None? ==> forall j :: 0 <= j <= |s| ==> !StartsWith(s[j..], t)
  {
    IndexFrom(s, t, 0)
  }

  /** The search stops at the first position where `t` starts. */
  lemma {:induction false} IndexFromIs(s: string, t: string, from: nat, k: nat)
    requires from <= k <= |s| && StartsWith(s[k..], t)
    requires forall j :: from <= j < k ==> !StartsWith(s[j..], t)
    ensures IndexFrom(s, t, from) == Some(k)
    decreases k - from
  {
    if from < k {
      IndexFromIs(s, t, from + 1, k);
    }
  }

  /** The search finds nothing where `t` starts nowhere. */
  lemma {:induction false} IndexFromNone(s: string, t: string, from: nat)
    requires from <= |s|
    requires forall j :: from <= j <= |s| ==> !StartsWith(s[j..], t)
    ensures IndexFrom(s, t, from) == None
    decreases |s| - from
  {
    if from < |s| {
      IndexFromNone(s, t, from + 1);
    }
  }

  /** A text holding `t` at `j` starts there with `t`. */
  lemma StartsAt(s: string, j: nat, t: string)
    requires HoldsAt(s, j, t)
    ensures StartsWith(s[j..], t)
  {
    assert s[j..][..|t|] == t;
  }

  /** A character that differs from `t` rules out `t` at `j`. */
  lemma NotStartsAt(s: string, j: nat, t: string, k: nat)
    requires j <= |s| && k < |t| && (j + k >= |s| || s[j + k] != t[k])
    ensures !StartsWith(s[j..], t)
  {
    if j + k < |s| {
      assert s[j..][k] == s[j + k];
    }
  }

  /** Python's `s.split(sep)` for a non-empty separator: a left-to-right scan
      that cuts at each non-overlapping occurrence. */
  function SplitOn(s: string, sep: string): (r: seq<string>)
    requires |sep| > 0
    ensures |r| >= 1
    decreases |s|
  {
    match IndexOf(s, sep)
    case None => [s]
    case Some(i) => [s[..i]] + SplitOn(s[i + |sep|..], sep)
  }

  /** With a separator present, the second piece runs from the first
      separator to the next one, or to the end. */
  lemma SplitOnSecond(s: string, sep: string)
    requires |sep| > 0
    ensures IndexOf(s, sep).Some? ==>
              var rest := s[IndexOf(s, sep).value + |sep|..];
              |SplitOn(s, sep)| > 1
              && SplitOn(s, sep)[1] == if IndexOf(rest, sep).None? then rest else rest[..IndexOf(rest, sep).value]
  {
    if IndexOf(s, sep).Some? {
      var rest := s[IndexOf(s, sep).value + |sep|..];
      assert SplitOn(s, sep) == [s[..IndexOf(s, sep).value]] + SplitOn(rest, sep);
    }
  }

  lemma {:induction false} JoinSplitOn(s: string, sep: string)
    requires |sep| > 0
    ensures Join(sep, SplitOn(s, sep)) == s
    decreases |s|
  {
    match IndexOf(s, sep)
    case None =>
    case Some(i) =>
      var rest := s[i + |sep|..];
      var tail := SplitOn(rest, sep);
      assert SplitOn(s, sep) == [s[..i]] + tail;
      JoinCons(sep, s[..i], tail);
      JoinSplitOn(rest, sep);
      assert s[i..i + |sep|] == sep;
      assert s == s[..i] + s[i..i + |sep|] + rest;
  }

  lemma JoinCons(sep: string, x: string, rest: seq<string>)
    requires |rest| >= 1
    ensures Join(sep, [x] + rest) == x + sep + Join(sep, rest)
  {
    assert ([x] + rest)[1..] == rest;
  }

  // -------------------------------------------------------------- replacing

  /** `s.replace(old, repl)` (Python) and `s.replace(/old/g, repl)`
      (JavaScript): every non-overlapping occurrence, scanning left to right. */
  function ReplaceAll(s: string, pat: string, repl: string): string
    requires |pat| > 0
    decreases |s|
  {
    if StartsWith(s, pat) then repl + ReplaceAll(s[|pat|..], pat, repl)
    else if s == [] then []
    else [s[0]] + ReplaceAll(s[1..], pat, repl)
  }

  /** A string without the first character of `old` is left alone. */
  lemma {:induction false} ReplaceAllAbsent(s: string, pat: string, repl: string)
    requires |pat| > 0 && pat[0] !in s
    ensures ReplaceAll(s, pat, repl) == s
    decreases |s|
  {
    if s != [] {
      assert s[0] != pat[0];
      assert forall ch :: ch in s[1..] ==> ch in s;
      ReplaceAllAbsent(s[1..], pat, repl);
    }
  }

  /** A character in neither the text nor the replacement is in neither
      the result. */
  lemma {:induction false} ReplaceAllKeepsOut(s: string, pat: string, repl: string, c: char)
    requires |pat| > 0 && c !in s && c !in repl
    ensures c !in ReplaceAll(s, pat, repl)
    decreases |s|
  {
    if StartsWith(s, pat) {
      assert forall x :: x in s[|pat|..] ==> x in s;
      ReplaceAllKeepsOut(s[|pat|..], pat, repl, c);
    } else if s != [] {
      assert forall x :: x in s[1..] ==> x in s;
      ReplaceAllKeepsOut(s[1..], pat, repl, c);
    }
  }

  /** Replacing a single character works piece by piece. */
  lemma {:induction false} ReplaceCharAppend(a: string, b: string, c: char, repl: string)
    ensures ReplaceAll(a + b, [c], repl) == ReplaceAll(a, [c], repl) + ReplaceAll(b, [c], repl)
  {
    if a == [] {
      assert a + b == b;
    } else {
      assert (a + b)[1..] == a[1..] + b;
      assert (a + b)[0] == a[0];
      ReplaceCharAppend(a[1..], b, c, repl);
      if a[0] == c {
        assert StartsWith(a + b, [c]) && StartsWith(a, [c]);
        assert (a + b)[|[c]|..] == a[1..] + b;
      } else {
        assert !StartsWith(a + b, [c]) && !StartsWith(a, [c]);
      }
    }
  }

  lemma ReplaceCharSingle(x: char, c: char, repl: string)
    ensures ReplaceAll([x], [c], repl) == if x == c then repl else [x]
  {
    assert [x][1..] == [];
    if x == c {
      assert StartsWith([x], [c]);
    } else {
      assert [x][..1] == [x];
      assert !StartsWith([x], [c]);
    }
  }

  // ------------------------------------------------------ decimal numerals

  function DigitChar(d: nat): char
    requires d < 10
  {
    ('0' as int + d) as char
  }

  /** The decimal numeral of `n`, without leading zeros. */
  function NatToString(n: nat): (r: string)
    ensures |r| > 0 && AllDigits(r)
    ensures r[0] == '0' ==> n == 0
    decreases n
  {
    if n < 10 then [DigitChar(n)] else NatToString(n / 10) + [DigitChar(n % 10)]
  }

  /** `String(i)` / `str(i)` for an integer. */
  function IntToString(i: int): string
  {
    if i < 0 then "-" + NatToString(-i) else NatToString(i)
  }

  /** The value of a string of decimal digits (`int(...)`, `parseInt(...)`). */
  function DigitsValue(s: string): nat
    requires AllDigits(s)
  {
    if s == [] then 0 else 10 * DigitsValue(s[..|s| - 1]) + (s[|s| - 1] as int - '0' as int)
  }

  /** Reading a numeral back gives the number. */
  lemma {:induction false} DigitsValueOfNatToString(n: nat)
    ensures DigitsValue(NatToString(n)) == n
    decreases n
  {
    var r := NatToString(n);
    if n >= 10 {
      DigitsValueOfNatToString(n / 10);
      assert r[..|r| - 1] == NatToString(n / 10);
    } else {
      assert r[..|r| - 1] == [];
    }
  }

  /** Distinct numbers have distinct numerals. */
  lemma NatToStringInjective(m: nat, n: nat)
    requires NatToString(m) == NatToString(n)
    ensures m == n
  {
    DigitsValueOfNatToString(m);
    DigitsValueOfNatToString(n);
  }
}
