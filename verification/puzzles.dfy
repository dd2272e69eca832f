/** The puzzle selector: `getPuzzlesByDifficulty`, `getPuzzlesBySubject` and
    `getAdaptivePuzzles` over a read-only catalog. The catalog is a parameter;
    the random shuffle of `getAdaptivePuzzles` is a parameter too, constrained
    only to be some permutation of the filtered candidates. */
module Puzzles {
  import opened Common

  /** `catalog.filter(keep).slice(0, count)`, the shape both fixed selectors share. */
  function FirstMatches(catalog: seq<Puzzle>, keep: Puzzle -> bool, count: int): (r: seq<Puzzle>)
    ensures forall p :: p in r ==> p in catalog && keep(p)
    ensures count >= 0 ==> |r| == Min(count, |Filter(catalog, keep)|)
    ensures IsSubsequence(r, catalog)
  {
    var matching := Filter(catalog, keep);
    FilterIsSubsequence(catalog, keep);
    var r := SliceTo(matching, count);
    SubsequencePrefix(matching, catalog, |r|);
    r
  }

  /** `getPuzzlesByDifficulty(difficulty, count)` (count defaults to 5 in the source). */
  function ByDifficulty(catalog: seq<Puzzle>, difficulty: int, count: int): seq<Puzzle>
  {
    FirstMatches(catalog, (p: Puzzle) => p.difficulty == difficulty, count)
  }

  /** `getPuzzlesBySubject(subject, count)`. */
  function BySubject(catalog: seq<Puzzle>, subject: Subject, count: int): seq<Puzzle>
  {
    FirstMatches(catalog, (p: Puzzle) => p.subject == subject, count)
  }

  /** For a non-negative count the selection is everything that passes in
      some prefix of the catalog: no puzzle that passes is skipped in favour
      of a later one. */
  lemma {:induction false} FirstMatchesTakesPrefix(catalog: seq<Puzzle>, keep: Puzzle -> bool, count: nat)
    ensures exists k :: 0 <= k <= |catalog| && FirstMatches(catalog, keep, count) == Filter(catalog[..k], keep)
  {
    if catalog == [] || count == 0 {
      assert FirstMatches(catalog, keep, count) == [] == Filter(catalog[..0], keep);
    } else {
      var tail := catalog[1..];
      var c := if keep(catalog[0]) then count - 1 else count;
      FirstMatchesTakesPrefix(tail, keep, c);
      var k :| 0 <= k <= |tail| && FirstMatches(tail, keep, c) == Filter(tail[..k], keep);
      FirstMatchesStep(catalog, keep, count);
      FilterPrefixStep(catalog, keep, k);
    }
  }

  /** One catalog entry of `FirstMatches`: the head is taken when it passes. */
  lemma FirstMatchesStep(catalog: seq<Puzzle>, keep: Puzzle -> bool, count: nat)
    requires catalog != [] && count > 0
    ensures FirstMatches(catalog, keep, count) ==
      if keep(catalog[0]) then [catalog[0]] + FirstMatches(catalog[1..], keep, count - 1)
      else FirstMatches(catalog[1..], keep, count)
  {
    FilterStep(catalog, keep);
    var m := Filter(catalog[1..], keep);
    if keep(catalog[0]) {
      assert ([catalog[0]] + m)[..Min(count, |m| + 1)] == [catalog[0]] + m[..Min(count - 1, |m|)];
    }
  }

  /** One catalog entry of the filtered prefix. */
  lemma FilterPrefixStep(catalog: seq<Puzzle>, keep: Puzzle -> bool, k: nat)
    requires k < |catalog|
    ensures Filter(catalog[..k + 1], keep) ==
      if keep(catalog[0]) then [catalog[0]] + Filter(catalog[1..][..k], keep)
      else Filter(catalog[1..][..k], keep)
  {
    var pre := catalog[..k + 1];
    FilterStep(pre, keep);
    assert pre[0] == catalog[0] && pre[1..] == catalog[1..][..k];
  }

  /** `Math.max(1, Math.min(7, userLevel))`. */
  function ClampLevel(level: int): (t: int)
    ensures 1 <= t <= 7
    ensures 1 <= level <= 7 ==> t == level
    ensures level < 1 ==> t == 1
    ensures level > 7 ==> t == 7
  {
    Max(1, Min(7, level))
  }

  /** The filter of `getAdaptivePuzzles`: difficulty in
      `[target - 1, target, target + 1]` and subject in `subjects`. */
  predicate Eligible(p: Puzzle, target: int, subjects: seq<Subject>)
  {
    p.difficulty in [target - 1, target, target + 1] && p.subject in subjects
  }

  /** The filtered copy of the catalog that `getAdaptivePuzzles` shuffles. */
  function Candidates(catalog: seq<Puzzle>, level: int, subjects: seq<Subject>): (r: seq<Puzzle>)
    ensures forall p :: p in r <==> p in catalog && Eligible(p, ClampLevel(level), subjects)
    ensures multiset(r) <= multiset(catalog)
  {
    var target := ClampLevel(level);
    Filter(catalog, (p: Puzzle) => Eligible(p, target, subjects))
  }

  /** `getAdaptivePuzzles(userLevel, subjects, count)`: `shuffled` is the order
      the random sort left the candidates in. */
  function AdaptivePuzzles(catalog: seq<Puzzle>, level: int, subjects: seq<Subject>, count: int,
                           shuffled: seq<Puzzle>): (r: seq<Puzzle>)
    requires multiset(shuffled) == multiset(Candidates(catalog, level, subjects))
    ensures forall p :: p in r ==>
      p in catalog && p.subject in subjects
      && ClampLevel(level) - 1 <= p.difficulty <= ClampLevel(level) + 1
    ensures count >= 0 ==> |r| == Min(count, |Candidates(catalog, level, subjects)|)
    ensures multiset(r) <= multiset(catalog)
    ensures subjects == [] ==> r == []
  {
    var cands := Candidates(catalog, level, subjects);
    PermutedPrefix(cands, shuffled, count);
    if subjects == [] then
      FilterNone(catalog, (p: Puzzle) => Eligible(p, ClampLevel(level), subjects));
      SliceTo(shuffled, count)
    else
      SliceTo(shuffled, count)
  }

  /** A prefix of a permutation of `cands` draws only from `cands`. */
  lemma PermutedPrefix<T>(cands: seq<T>, shuffled: seq<T>, count: int)
    requires multiset(shuffled) == multiset(cands)
    ensures |shuffled| == |cands|
    ensures multiset(SliceTo(shuffled, count)) <= multiset(cands)
    ensures forall x :: x in SliceTo(shuffled, count) ==> x in cands
  {
    assert |shuffled| == |multiset(shuffled)| == |cands|;
    var r := SliceTo(shuffled, count);
    forall x | x in r ensures x in cands {
      assert x in multiset(r);
      assert x in multiset(cands);
    }
  }

  /** Distinct ids in the catalog give distinct ids in every adaptive selection:
      the shuffle only reorders the filtered copy, and the slice only shortens it. */
  lemma AdaptiveIdsDistinct(catalog: seq<Puzzle>, level: int, subjects: seq<Subject>, count: int,
                            shuffled: seq<Puzzle>)
    requires multiset(shuffled) == multiset(Candidates(catalog, level, subjects))
    requires UniqueBy(catalog, (p: Puzzle) => p.id)
    ensures UniqueBy(AdaptivePuzzles(catalog, level, subjects, count, shuffled), (p: Puzzle) => p.id)
  {
    var r := AdaptivePuzzles(catalog, level, subjects, count, shuffled);
    forall i, j | 0 <= i < j < |r| ensures r[i].id != r[j].id {
      if r[i] == r[j] {
        TwoCopies(r, i, j);
        AtMostOneCopy(catalog, r[i]);
        assert false;
      } else {
        var a :| 0 <= a < |catalog| && catalog[a] == r[i];
        var b :| 0 <= b < |catalog| && catalog[b] == r[j];
        assert a != b;
      }
    }
  }

  /** An element at two positions is counted at least twice. */
  lemma {:induction false} TwoCopies<T>(s: seq<T>, i: nat, j: nat)
    requires i < j < |s| && s[i] == s[j]
    ensures multiset(s)[s[i]] >= 2
  {
    assert s == s[..i] + [s[i]] + s[i + 1..j] + [s[j]] + s[j + 1..];
  }

  /** In a sequence with distinct ids, no element occurs twice. */
  lemma {:induction false} AtMostOneCopy(s: seq<Puzzle>, x: Puzzle)
    requires UniqueBy(s, (p: Puzzle) => p.id)
    ensures multiset(s)[x] <= 1
  {
    if s != [] {
      assert s == [s[0]] + s[1..];
      assert UniqueBy(s[1..], (p: Puzzle) => p.id) by {
        forall i, j | 0 <= i < j < |s[1..]| ensures s[1..][i].id != s[1..][j].id {
          assert s[1..][i] == s[i + 1] && s[1..][j] == s[j + 1];
        }
      }
      AtMostOneCopy(s[1..], x);
      if s[0] == x {
        assert x !in s[1..] by {
          forall k | 0 <= k < |s[1..]| ensures s[1..][k] != x {
            assert s[1..][k] == s[k + 1];
          }
        }
      }
    }
  }
}
