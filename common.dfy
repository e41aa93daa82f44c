/** Generic building blocks shared by every module: an optional value and the
    two list combinators the source leans on everywhere (`filter` and `find`). */
module Common {

  datatype Option<T> = None | Some(value: T)

  /** JavaScript's `text || fallback` on a text that may be missing: a
      missing or empty text gives the fallback. */
  function TextOr(text: Option<string>, fallback: string): (r: string)
    ensures text.Some? && text.value != "" ==> r == text.value
    ensures text.None? || text.value == "" ==> r == fallback
  {
    if text.Some? && text.value != "" then text.value else fallback
  }

  /** Order-preserving filter, as JavaScript's `Array.prototype.filter` and a
      Python list comprehension with an `if` clause. */
  function Filter<T>(s: seq<T>, p: T -> bool): (r: seq<T>)
    ensures |r| <= |s|
    ensures forall i :: 0 <= i < |r| ==> r[i] in s && p(r[i])
    ensures forall i :: 0 <= i < |s| && p(s[i]) ==> s[i] in r
  {
    if s == [] then []
    else (if p(s[0]) then [s[0]] else []) + Filter(s[1..], p)
  }

  /** Filtering distributes over concatenation: the relative order of the kept
      elements is the order of the input. */
  lemma {:induction false} FilterAppend<T>(a: seq<T>, b: seq<T>, p: T -> bool)
    ensures Filter(a + b, p) == Filter(a, p) + Filter(b, p)
  {
    if a == [] {
      assert a + b == b;
    } else {
      assert (a + b)[1..] == a[1..] + b;
      FilterAppend(a[1..], b, p);
    }
  }

  /** One more element is kept at the end exactly when it satisfies `p`. */
  lemma FilterSnoc<T>(s: seq<T>, x: T, p: T -> bool)
    ensures Filter(s + [x], p) == Filter(s, p) + (if p(x) then [x] else [])
  {
    FilterAppend(s, [x], p);
    assert [x][1..] == [];
  }

  /** The filter keeps as many elements as there are positions whose
      element satisfies `p`. */
  lemma {:induction false} FilterCountsPositions<T>(s: seq<T>, p: T -> bool)
    ensures |Filter(s, p)| == |Positions(s, p)|
    decreases |s|
  {
    if s != [] {
      var init, x := s[..|s| - 1], s[|s| - 1];
      assert s == init + [x];
      FilterCountsPositions(init, p);
      FilterSnoc(init, x, p);
      PositionsSnoc(init, x, p);
      assert |init| !in Positions(init, p);
    }
  }

  /** One more element adds its own position exactly when it satisfies
      `p`. */
  lemma PositionsSnoc<T>(init: seq<T>, x: T, p: T -> bool)
    ensures Positions(init + [x], p) == Positions(init, p) + (if p(x) then {|init|} else {})
  {
    var s := init + [x];
    assert forall i :: 0 <= i < |init| ==> s[i] == init[i];
    assert s[|init|] == x;
  }

  /** The positions whose element satisfies `p`. */
  function Positions<T>(s: seq<T>, p: T -> bool): (r: set<int>)
    ensures forall i :: i in r <==> 0 <= i < |s| && p(s[i])
  {
    set i | 0 <= i < |s| && p(s[i])
  }

  /** Filters with predicates that agree everywhere agree. */
  lemma {:induction false} FilterSamePredicate<T>(s: seq<T>, p: T -> bool, q: T -> bool)
    requires forall x :: p(x) == q(x)
    ensures Filter(s, p) == Filter(s, q)
  {
    if s != [] {
      FilterSamePredicate(s[1..], p, q);
    }
  }

  /** A filter whose predicate holds everywhere keeps the whole sequence. */
  lemma {:induction false} FilterKeepsAll<T>(s: seq<T>, p: T -> bool)
    requires forall i :: 0 <= i < |s| ==> p(s[i])
    ensures Filter(s, p) == s
  {
    if s != [] {
      FilterKeepsAll(s[1..], p);
    }
  }

  /** A filter whose predicate holds nowhere keeps nothing. */
  lemma {:induction false} FilterKeepsNone<T>(s: seq<T>, p: T -> bool)
    requires forall i :: 0 <= i < |s| ==> !p(s[i])
    ensures Filter(s, p) == []
  {
    if s != [] {
      FilterKeepsNone(s[1..], p);
    }
  }

  /** Filtering with two predicates that never hold together yields lists that
      share no element. */
  lemma FilterDisjoint<T>(s: seq<T>, p: T -> bool, q: T -> bool)
    requires forall i :: 0 <= i < |s| ==> !(p(s[i]) && q(s[i]))
    ensures forall x :: x in Filter(s, p) ==> x !in Filter(s, q)
  {
  }

  /** Two filters whose predicates never hold together keep at most the
      whole sequence between them, and all of it exactly when every
      element satisfies one of the two. */
  lemma {:induction false} FilterPairCount<T>(s: seq<T>, p: T -> bool, q: T -> bool)
    requires forall x :: !(p(x) && q(x))
    ensures |Filter(s, p)| + |Filter(s, q)| <= |s|
    ensures (|Filter(s, p)| + |Filter(s, q)| == |s|) <==> forall i :: 0 <= i < |s| ==> p(s[i]) || q(s[i])
  {
    if s != [] {
      var t := s[1..];
      FilterPairCount(t, p, q);
      if forall i :: 0 <= i < |t| ==> p(t[i]) || q(t[i]) {
        if p(s[0]) || q(s[0]) {
          forall i | 0 <= i < |s|
            ensures p(s[i]) || q(s[i])
          {
            if i > 0 {
              assert s[i] == t[i - 1];
            }
          }
        }
      } else {
        var k :| 0 <= k < |t| && !(p(t[k]) || q(t[k]));
        assert s[k + 1] == t[k];
      }
    }
  }

  /** Index of the first element satisfying `p`, as `Array.prototype.find`
      and `findIndex`. */
  function FindFirst<T>(s: seq<T>, p: T -> bool): (r: Option<nat>)
    ensures r.None? <==> forall i :: 0 <= i < |s| ==> !p(s[i])
    ensures r.Some? ==> r.value < |s| && p(s[r.value])
    ensures r.Some? ==> forall j :: 0 <= j < r.value ==> !p(s[j])
  {
    if s == [] then None
    else if p(s[0]) then Some(0)
    else match FindFirst(s[1..], p)
      case None => None
      case Some(k) => Some(k + 1)
  }

  /** `Array.prototype.some`. */
  predicate Any<T>(s: seq<T>, p: T -> bool)
  {
    exists i :: 0 <= i < |s| && p(s[i])
  }

  /** The first position that satisfies `p` is the one `FindFirst` finds. */
  lemma FindFirstIs<T>(s: seq<T>, p: T -> bool, k: nat)
    requires k < |s| && p(s[k]) && forall j :: 0 <= j < k ==> !p(s[j])
    ensures FindFirst(s, p) == Some(k)
  {
  }

  /** The first position in `from..n` where `at` matches: a regular
      expression search (`re.search`, `String.prototype.match` without the
      `g` flag) tries the positions of the text from left to right, the end
      position included. */
  function FirstPos(n: nat, at: nat -> Option<nat>, from: nat): (r: Option<nat>)
    requires from <= n + 1
    ensures r.Some? ==> from <= r.value <= n && at(r.value).Some?
    ensures forall j :: from <= j <= n && (r.None? || j < r.value) ==> at(j).None?
    decreases n + 1 - from
  {
    if from > n then None
    else if at(from).Some? then Some(from)
    else FirstPos(n, at, from + 1)
  }

  /** The search finds `k` when nothing matches before it and it matches. */
  lemma {:induction false} FirstPosFinds(n: nat, at: nat -> Option<nat>, from: nat, k: nat)
    requires from <= k <= n
    requires forall j :: from <= j < k ==> at(j).None?
    requires at(k).Some?
    ensures FirstPos(n, at, from) == Some(k)
    decreases k - from
  {
    if from < k {
      FirstPosFinds(n, at, from + 1, k);
    }
  }

  /** Each element's contribution, concatenated in order (a loop that
      appends zero or more items per element). */
  function ConcatMap<S, T>(s: seq<S>, f: S -> seq<T>): seq<T>
  {
    if s == [] then [] else f(s[0]) + ConcatMap(s[1..], f)
  }

  lemma {:induction false} ConcatMapAppend<S, T>(a: seq<S>, b: seq<S>, f: S -> seq<T>)
    ensures ConcatMap(a + b, f) == ConcatMap(a, f) + ConcatMap(b, f)
  {
    if a == [] {
      assert a + b == b;
    } else {
      assert (a + b)[1..] == a[1..] + b;
      ConcatMapAppend(a[1..], b, f);
    }
  }

  /** One more element contributes its own items at the end. */
  lemma ConcatMapStep<S, T>(s: seq<S>, i: nat, f: S -> seq<T>)
    requires i < |s|
    ensures ConcatMap(s[..i + 1], f) == ConcatMap(s[..i], f) + f(s[i])
  {
    assert s[..i + 1] == s[..i] + [s[i]];
    ConcatMapAppend(s[..i], [s[i]], f);
    assert [s[i]][1..] == [];
  }

  /** When each element contributes one item if it satisfies `p` and none
      otherwise, the result lines up with the filtered input. */
  lemma {:induction false} ConcatMapIsFilter<S, T>(s: seq<S>, f: S -> seq<T>, p: S -> bool)
    requires forall x :: |f(x)| == if p(x) then 1 else 0
    ensures var kept := Filter(s, p);
            |ConcatMap(s, f)| == |kept|
            && forall i :: 0 <= i < |kept| ==> ConcatMap(s, f)[i] == f(kept[i])[0]
  {
    if s != [] {
      ConcatMapIsFilter(s[1..], f, p);
    }
  }
}
