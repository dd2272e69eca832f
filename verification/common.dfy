/** Shared vocabulary of the puzzle academy: optional values, answers, subjects,
    the puzzle record, and the list operations (JavaScript `filter` and
    `slice(0, n)`) that several components use. */
module Common {

  datatype Option<T> = None | Some(value: T)

  /** A submitted or expected answer: the source's `string | number`.
      Numbers are modelled as integers (every numeric catalog answer is one). */
  datatype Answer = Str(s: string) | Num(n: int)

  /** Subject tags: the eight of the type declaration plus the two extra
      tags that the solo-play view offers. */
  datatype Subject =
    | Mathematics | Science | Language | History | Geography
    | Logic | Memory | Creativity | Crossword | ImagePuzzle

  datatype PuzzleType =
    | MultipleChoice | NumberSequence | PatternMatching | WordPuzzle
    | LogicGrid | MathProblem | MemoryGame

  /** A catalog puzzle. Display strings (title, question, explanation,
      options, tags) carry no behaviour and are not modelled. Points are
      never negative in the catalog, hence `nat`. */
  datatype Puzzle = Puzzle(
    id: string,
    kind: PuzzleType,
    subject: Subject,
    difficulty: int,
    correctAnswer: Answer,
    hints: seq<string>,
    timeLimit: Option<int>,
    points: nat)

  /** JavaScript strict equality `===` on `string | number` values. */
  predicate StrictEquals(a: Answer, b: Answer)
    ensures StrictEquals(a, b) <==>
      (a.Str? && b.Str? && a.s == b.s) || (a.Num? && b.Num? && a.n == b.n)
  {
    a == b
  }

  function Min(a: int, b: int): int { if a <= b then a else b }

  function Max(a: int, b: int): int { if a >= b then a else b }

  /** `a` occurs in `b` in the same order, possibly with gaps. */
  predicate IsSubsequence<T(==)>(a: seq<T>, b: seq<T>)
    decreases |b|
  {
    if a == [] then true
    else if b == [] then false
    else if a[0] == b[0] then IsSubsequence(a[1..], b[1..])
    else IsSubsequence(a, b[1..])
  }

  /** `Array.prototype.filter`. */
  function Filter<T(!new)>(s: seq<T>, keep: T -> bool): (r: seq<T>)
    ensures |r| <= |s|
    ensures forall x :: x in r <==> x in s && keep(x)
    ensures multiset(r) <= multiset(s)
  {
    if s == [] then []
    else
      assert s == [s[0]] + s[1..];
      if keep(s[0]) then [s[0]] + Filter(s[1..], keep)
      else Filter(s[1..], keep)
  }

  /** One step of `filter`: the head is kept exactly when it passes. */
  lemma FilterStep<T(!new)>(s: seq<T>, keep: T -> bool)
    requires s != []
    ensures Filter(s, keep) == (if keep(s[0]) then [s[0]] else []) + Filter(s[1..], keep)
  {
  }

  /** `filter` keeps every copy of an element that passes and none of one
      that fails. */
  lemma {:induction false} FilterKeepsCopies<T(!new)>(s: seq<T>, keep: T -> bool, x: T)
    ensures multiset(Filter(s, keep))[x] == if keep(x) then multiset(s)[x] else 0
  {
    if s != [] {
      FilterStep(s, keep);
      FilterKeepsCopies(s[1..], keep, x);
      assert s == [s[0]] + s[1..];
    }
  }

  /** Nothing passes a filter that rejects every element. */
  lemma {:induction false} FilterNone<T(!new)>(s: seq<T>, keep: T -> bool)
    requires forall x :: x in s ==> !keep(x)
    ensures Filter(s, keep) == []
  {
    if s != [] {
      FilterNone(s[1..], keep);
    }
  }

  lemma {:induction false} FilterIsSubsequence<T(!new)>(s: seq<T>, keep: T -> bool)
    ensures IsSubsequence(Filter(s, keep), s)
  {
    if s != [] {
      FilterIsSubsequence(s[1..], keep);
      if !keep(s[0]) {
        var f := Filter(s[1..], keep);
        if f != [] {
          SubsequenceSkip(f, s);
        }
      }
    }
  }

  /** Dropping a head of `b` that `a` does not need keeps `a` a subsequence. */
  lemma {:induction false} SubsequenceSkip<T>(a: seq<T>, b: seq<T>)
    requires b != [] && IsSubsequence(a, b[1..])
    ensures IsSubsequence(a, b)
    decreases |b|, 0
  {
    if a != [] && a[0] == b[0] {
      SubsequenceDropHead(a, b[1..]);
    }
  }

  /** If `a` is a subsequence of `b`, so is `a` without its head. */
  lemma {:induction false} SubsequenceDropHead<T>(a: seq<T>, b: seq<T>)
    requires a != [] && IsSubsequence(a, b)
    ensures IsSubsequence(a[1..], b)
    decreases |b|, 1
  {
    assert b != [];
    if a[0] == b[0] {
      if a[1..] != [] {
        SubsequenceSkip(a[1..], b);
      }
    } else {
      SubsequenceDropHead(a, b[1..]);
      if a[1..] != [] {
        SubsequenceSkip(a[1..], b);
      }
    }
  }

  /** A prefix of a subsequence is a subsequence. */
  lemma {:induction false} SubsequencePrefix<T>(a: seq<T>, b: seq<T>, k: nat)
    requires k <= |a| && IsSubsequence(a, b)
    ensures IsSubsequence(a[..k], b)
    decreases |b|
  {
    if k > 0 {
      assert b != [];
      if a[0] == b[0] {
        SubsequencePrefix(a[1..], b[1..], k - 1);
        assert a[..k][1..] == a[1..][..k - 1];
      } else {
        SubsequencePrefix(a, b[1..], k);
      }
    }
  }

  /** `Array.prototype.slice(0, end)`: a negative end counts from the back. */
  function SliceTo<T>(s: seq<T>, end: int): (r: seq<T>)
    ensures |r| == (if end >= 0 then Min(end, |s|) else Max(|s| + end, 0))
    ensures r == s[..|r|]
    ensures forall x :: x in r ==> x in s
    ensures multiset(r) <= multiset(s)
  {
    var k := if end >= 0 then Min(end, |s|) else Max(|s| + end, 0);
    assert s == s[..k] + s[k..];
    s[..k]
  }

  /** No element occurs twice. */
  predicate Distinct<T(==)>(s: seq<T>)
  {
    forall i, j :: 0 <= i < j < |s| ==> s[i] != s[j]
  }

  /** Filtering a list without repeats leaves a list without repeats. */
  lemma {:induction false} FilterKeepsDistinct<T(!new)>(s: seq<T>, keep: T -> bool)
    requires Distinct(s)
    ensures Distinct(Filter(s, keep))
  {
    if s != [] {
      assert Distinct(s[1..]) by {
        forall i, j | 0 <= i < j < |s[1..]| ensures s[1..][i] != s[1..][j] {
          assert s[1..][i] == s[i + 1] && s[1..][j] == s[j + 1];
        }
      }
      FilterKeepsDistinct(s[1..], keep);
      var rest := Filter(s[1..], keep);
      if keep(s[0]) {
        assert s[0] !in s[1..] by {
          forall k | 0 <= k < |s[1..]| ensures s[1..][k] != s[0] {
            assert s[1..][k] == s[k + 1];
          }
        }
        assert s[0] !in rest;
        var r := [s[0]] + rest;
        forall i, j | 0 <= i < j < |r| ensures r[i] != r[j] {
          if i == 0 {
            assert r[j] == rest[j - 1];
          } else {
            assert r[i] == rest[i - 1] && r[j] == rest[j - 1];
          }
        }
      }
    }
  }

  /** The elements of `s` all have different keys. */
  predicate UniqueBy<T, K(==)>(s: seq<T>, key: T -> K)
  {
    forall i, j :: 0 <= i < j < |s| ==> key(s[i]) != key(s[j])
  }

  /** `s.map(x => matches(x) ? v : x)`. */
  function ReplaceWhere<T>(s: seq<T>, matches: T -> bool, v: T): (r: seq<T>)
    ensures |r| == |s|
    ensures forall i :: 0 <= i < |s| && !matches(s[i]) ==> r[i] == s[i]
    ensures forall i :: 0 <= i < |s| && matches(s[i]) ==> r[i] == v
  {
    seq(|s|, i requires 0 <= i < |s| => if matches(s[i]) then v else s[i])
  }
}
