/**
 * Sequence operations that stand in for the JavaScript built-ins the store
 * relies on: `Array.prototype.filter` (Where) and `new Set(array)` (Dedup,
 * which keeps the first occurrence of every value, in insertion order).
 */
module Seqs {

  /** No value occurs twice. */
  ghost predicate NoDup<T>(s: seq<T>) {
    forall i, j :: 0 <= i < j < |s| ==> s[i] != s[j]
  }

  /** `r` is obtained from `s` by deleting elements, without reordering. */
  ghost predicate SubsequenceOf<T>(r: seq<T>, s: seq<T>)
    decreases |s|
  {
    if r == [] then true
    else if s == [] then false
    else (r[0] == s[0] && SubsequenceOf(r[1..], s[1..])) || SubsequenceOf(r, s[1..])
  }

  /** `s.filter(keep)`: the elements of `s` that `keep` accepts, in order. */
  function Where<T(!new)>(s: seq<T>, keep: T -> bool): (r: seq<T>)
    ensures |r| <= |s|
    ensures forall x :: x in r <==> x in s && keep(x)
  {
    if s == [] then []
    else if keep(s[0]) then [s[0]] + Where(s[1..], keep)
    else Where(s[1..], keep)
  }

  /** Filtering with a predicate every element satisfies gives back the sequence itself. */
  lemma {:induction false} WhereKeepsAll<T(!new)>(s: seq<T>, keep: T -> bool)
    requires forall x :: x in s ==> keep(x)
    ensures Where(s, keep) == s
  {
    if s != [] {
      WhereKeepsAll(s[1..], keep);
    }
  }

  /** Only the values a predicate takes on the elements matter, not how it is written. */
  lemma {:induction false} WhereSameOn<T(!new)>(s: seq<T>, p: T -> bool, q: T -> bool)
    requires forall x :: x in s ==> p(x) == q(x)
    ensures Where(s, p) == Where(s, q)
  {
    if s != [] {
      WhereSameOn(s[1..], p, q);
    }
  }

  /** Two filters applied one after the other are one filter by their conjunction `both`. */
  lemma {:induction false} WhereFuse<T(!new)>(s: seq<T>, p: T -> bool, q: T -> bool, both: T -> bool)
    requires forall x :: both(x) == (p(x) && q(x))
    ensures Where(Where(s, p), q) == Where(s, both)
  {
    if s != [] {
      WhereFuse(s[1..], p, q, both);
    }
  }

  /**
   * A filter stage that runs only when `on` holds is a filter by `full`,
   * the predicate that accepts everything when the stage is off.
   */
  lemma WhereWhenOn<T(!new)>(s: seq<T>, on: bool, keep: T -> bool, full: T -> bool)
    requires forall x :: full(x) == (!on || keep(x))
    ensures (if on then Where(s, keep) else s) == Where(s, full)
  {
    if on {
      WhereSameOn(s, keep, full);
    } else {
      WhereKeepsAll(s, full);
    }
  }

  /** Filtering a concatenation filters each part. */
  lemma {:induction false} WhereConcat<T(!new)>(a: seq<T>, b: seq<T>, keep: T -> bool)
    ensures Where(a + b, keep) == Where(a, keep) + Where(b, keep)
  {
    if a != [] {
      assert (a + b)[1..] == a[1..] + b;
      WhereConcat(a[1..], b, keep);
    } else {
      assert a + b == b;
    }
  }

  /** A filter result keeps the order of its input. */
  lemma {:induction false} WhereIsSubsequence<T(!new)>(s: seq<T>, keep: T -> bool)
    ensures SubsequenceOf(Where(s, keep), s)
  {
    if s != [] {
      WhereIsSubsequence(s[1..], keep);
      var r := Where(s[1..], keep);
      if keep(s[0]) {
        assert Where(s, keep) == [s[0]] + r;
        assert ([s[0]] + r)[1..] == r;
      } else {
        assert Where(s, keep) == r;
        SubsequenceOfDropsHead(r, s);
      }
    }
  }

  /** A subsequence of the tail is a subsequence of the whole. */
  lemma {:induction false} SubsequenceOfDropsHead<T>(r: seq<T>, s: seq<T>)
    requires s != [] && SubsequenceOf(r, s[1..])
    ensures SubsequenceOf(r, s)
  {
  }

  /** Filtering never introduces a duplicate. */
  lemma {:induction false} WhereNoDup<T(!new)>(s: seq<T>, keep: T -> bool)
    ensures NoDup(s) ==> NoDup(Where(s, keep))
  {
    if s != [] && NoDup(s) {
      assert NoDup(s[1..]) by {
        forall i, j | 0 <= i < j < |s[1..]| ensures s[1..][i] != s[1..][j] {
          assert s[1..][i] == s[i + 1] && s[1..][j] == s[j + 1];
        }
      }
      WhereNoDup(s[1..], keep);
      var r := Where(s[1..], keep);
      if keep(s[0]) {
        assert s[0] !in s[1..] by {
          forall k | 0 <= k < |s[1..]| ensures s[1..][k] != s[0] {
            assert s[1..][k] == s[k + 1];
          }
        }
        assert s[0] !in r;
        PrependNoDup(s[0], r);
      }
    }
  }

  /** Putting a fresh value in front keeps a sequence duplicate-free. */
  lemma PrependNoDup<T>(x: T, s: seq<T>)
    requires NoDup(s) && x !in s
    ensures NoDup([x] + s)
  {
    forall i, j | 0 <= i < j < |[x] + s| ensures ([x] + s)[i] != ([x] + s)[j] {
      if i == 0 {
        assert ([x] + s)[j] == s[j - 1];
      } else {
        assert ([x] + s)[i] == s[i - 1] && ([x] + s)[j] == s[j - 1];
      }
    }
  }

  /** Appending a fresh value keeps a sequence duplicate-free. */
  lemma AppendNoDup<T>(s: seq<T>, x: T)
    requires NoDup(s) && x !in s
    ensures NoDup(s + [x])
  {
  }

  /**
   * `Array.from(new Set(s))`: the distinct values of `s`, each at the place
   * of its first occurrence.
   */
  function Dedup<T(==,!new)>(s: seq<T>): (r: seq<T>)
    ensures NoDup(r)
    ensures |r| <= |s|
    ensures forall x :: x in r <==> x in s
  {
    if s == [] then []
    else
      var prefix := Dedup(s[..|s| - 1]);
      var last := s[|s| - 1];
      assert s == s[..|s| - 1] + [last];
      if last in prefix then prefix
      else AppendNoDup(prefix, last); prefix + [last]
  }

  /** A set built from a duplicate-free array iterates in the array's own order. */
  lemma {:induction false} DedupOfNoDup<T(!new)>(s: seq<T>)
    ensures NoDup(s) ==> Dedup(s) == s
  {
    if s != [] && NoDup(s) {
      var init := s[..|s| - 1];
      assert NoDup(init);
      DedupOfNoDup(init);
      assert s[|s| - 1] !in init;
      assert s == init + [s[|s| - 1]];
    }
  }

  /**
   * A set keeps the first occurrence of each value in place, so its
   * iteration order is the order of first occurrence in `s`.
   */
  lemma {:induction false} DedupIsSubsequence<T(!new)>(s: seq<T>)
    ensures SubsequenceOf(Dedup(s), s)
  {
    if s != [] {
      var init, last := s[..|s| - 1], s[|s| - 1];
      assert s == init + [last];
      DedupIsSubsequence(init);
      if last in Dedup(init) {
        SubsequenceOfAppendRight(Dedup(init), init, last);
      } else {
        SubsequenceOfAppendBoth(Dedup(init), init, last);
      }
    }
  }

  /** A subsequence stays one when the whole sequence grows at the end. */
  lemma {:induction false} SubsequenceOfAppendRight<T>(r: seq<T>, s: seq<T>, x: T)
    requires SubsequenceOf(r, s)
    ensures SubsequenceOf(r, s + [x])
    decreases |s|
  {
    if r != [] {
      assert (s + [x])[1..] == s[1..] + [x];
      if r[0] == s[0] && SubsequenceOf(r[1..], s[1..]) {
        SubsequenceOfAppendRight(r[1..], s[1..], x);
      } else {
        SubsequenceOfAppendRight(r, s[1..], x);
      }
    }
  }

  /** Appending the same value to both keeps a subsequence one. */
  lemma {:induction false} SubsequenceOfAppendBoth<T>(r: seq<T>, s: seq<T>, x: T)
    requires SubsequenceOf(r, s)
    ensures SubsequenceOf(r + [x], s + [x])
    decreases |s|
  {
    if s == [] {
      assert r == [];
      assert (r + [x])[1..] == [] && (s + [x])[1..] == [];
    } else {
      assert (s + [x])[1..] == s[1..] + [x];
      if r != [] && r[0] == s[0] && SubsequenceOf(r[1..], s[1..]) {
        assert (r + [x])[1..] == r[1..] + [x];
        SubsequenceOfAppendBoth(r[1..], s[1..], x);
      } else {
        SubsequenceOfAppendBoth(r, s[1..], x);
      }
    }
  }

  /** The test "is not `x`", the predicate `Set.delete(x)` filters by. */
  function Except<T(==)>(x: T): T -> bool {
    (y: T) => y != x
  }

  /**
   * A set built from `[x] + s` iterates `x` first, then the set of `s` with
   * `x` taken out: the head-first reading of first-occurrence order.
   */
  lemma {:induction false} DedupFront<T(!new)>(x: T, s: seq<T>)
    ensures Dedup([x] + s) == [x] + Where(Dedup(s), Except(x))
    decreases |s|
  {
    if s == [] {
      DedupSnoc([], x);
    } else {
      var init, last := s[..|s| - 1], s[|s| - 1];
      var front := [x] + init;
      assert s == init + [last];
      assert [x] + s == front + [last];
      DedupFront(x, init);
      DedupSnoc(front, last);
      DedupSnoc(init, last);
      DedupFrontStep(x, last, Dedup(init));
    }
  }

  /** The step of DedupFront, stated on the set `d` built from the middle part. */
  lemma DedupFrontStep<T(!new)>(x: T, last: T, d: seq<T>)
    ensures var f := [x] + Where(d, Except(x));
      (if last in f then f else f + [last])
      == [x] + Where(if last in d then d else d + [last], Except(x))
  {
    if last !in d {
      WhereConcat(d, [last], Except(x));
      assert Where([last], Except(x)) == if last == x then [] else [last];
    }
  }

  /** A set grows at the end only by a value it does not hold yet. */
  lemma DedupSnoc<T(!new)>(s: seq<T>, x: T)
    ensures Dedup(s + [x]) == if x in Dedup(s) then Dedup(s) else Dedup(s) + [x]
  {
    assert (s + [x])[..|s + [x]| - 1] == s;
  }

  /** Building a set twice changes nothing. */
  lemma DedupIdempotent<T(!new)>(s: seq<T>)
    ensures Dedup(Dedup(s)) == Dedup(s)
  {
    DedupOfNoDup(Dedup(s));
  }
}
