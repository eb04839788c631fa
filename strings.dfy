/**
 * The string operations the store relies on: `toLowerCase` (restricted to
 * ASCII letters), `includes`, and the default `Array.prototype.sort`, which
 * orders strings lexicographically by character code.
 */
module Strings {
  import opened Seqs

  /** ASCII lower-casing of one character; every other character is kept. */
  function LowerChar(c: char): char {
    if 'A' <= c <= 'Z' then (c as int + 32) as char else c
  }

  /** `s.toLowerCase()` on ASCII letters. */
  function Lower(s: string): (r: string)
    ensures |r| == |s|
    ensures forall i :: 0 <= i < |s| ==> r[i] == LowerChar(s[i])
    ensures forall i :: 0 <= i < |r| ==> !('A' <= r[i] <= 'Z')
  {
    if s == [] then [] else [LowerChar(s[0])] + Lower(s[1..])
  }

  /** Lower-casing an already lower-cased string changes nothing. */
  lemma LowerIdempotent(s: string)
    ensures Lower(Lower(s)) == Lower(s)
  {
    var l := Lower(s);
    assert forall i :: 0 <= i < |l| ==> LowerChar(l[i]) == l[i];
  }

  /** `hay.includes(needle)`: `needle` occurs in `hay` at some position. */
  predicate Contains(hay: string, needle: string)
    ensures needle == [] ==> Contains(hay, needle)
    ensures Contains(hay, needle) ==> |needle| <= |hay|
    decreases |hay|
  {
    needle <= hay || (hay != [] && Contains(hay[1..], needle))
  }

  /** `Contains` holds exactly when some suffix of `hay` starts with `needle`. */
  lemma {:induction false} ContainsAt(hay: string, needle: string)
    ensures Contains(hay, needle) <==> exists i :: 0 <= i <= |hay| && needle <= hay[i..]
    decreases |hay|
  {
    if Contains(hay, needle) {
      if needle <= hay {
        assert hay[0..] == hay;
      } else {
        ContainsAt(hay[1..], needle);
        var i :| 0 <= i <= |hay[1..]| && needle <= hay[1..][i..];
        assert hay[1..][i..] == hay[i + 1..];
      }
    }
    if exists i :: 0 <= i <= |hay| && needle <= hay[i..] {
      var i :| 0 <= i <= |hay| && needle <= hay[i..];
      if i > 0 {
        assert hay[1..][i - 1..] == hay[i..];
        ContainsAt(hay[1..], needle);
      }
    }
  }

  /** Strict lexicographic order by character code (the default sort's order). */
  predicate Below(a: string, b: string)
    ensures a < b ==> Below(a, b)
    ensures Below(a, b) ==> a != b
    decreases |a|
  {
    if a == [] then b != []
    else if b == [] then false
    else a[0] < b[0] || (a[0] == b[0] && Below(a[1..], b[1..]))
  }

  lemma {:induction false} BelowIrreflexive(a: string)
    ensures !Below(a, a)
  {
    if a != [] {
      BelowIrreflexive(a[1..]);
    }
  }

  lemma {:induction false} BelowTransitive(a: string, b: string, c: string)
    requires Below(a, b) && Below(b, c)
    ensures Below(a, c)
  {
    if a != [] && a[0] == b[0] && b[0] == c[0] {
      BelowTransitive(a[1..], b[1..], c[1..]);
    }
  }

  /** Any two different strings are ordered one way or the other. */
  lemma {:induction false} BelowTotal(a: string, b: string)
    requires a != b
    ensures Below(a, b) || Below(b, a)
  {
    if a != [] && b != [] && a[0] == b[0] {
      assert a == [a[0]] + a[1..] && b == [b[0]] + b[1..];
      BelowTotal(a[1..], b[1..]);
    }
  }

  /** Each element is strictly below every later one; implies no duplicates. */
  ghost predicate StrictlySorted(s: seq<string>) {
    forall i, j :: 0 <= i < j < |s| ==> Below(s[i], s[j])
  }

  lemma StrictlySortedNoDup(s: seq<string>)
    requires StrictlySorted(s)
    ensures NoDup(s)
  {
    forall i, j | 0 <= i < j < |s| ensures s[i] != s[j] {
      if s[i] == s[j] {
        BelowIrreflexive(s[i]);
      }
    }
  }

  /** Inserts `x` before the first element that is not below it. */
  function Insert(x: string, s: seq<string>): (r: seq<string>)
    ensures |r| == |s| + 1
    ensures forall y :: y in r <==> y == x || y in s
    ensures multiset(r) == multiset{x} + multiset(s)
  {
    if s == [] then [x]
    else if Below(s[0], x) then
      assert s == [s[0]] + s[1..];
      [s[0]] + Insert(x, s[1..])
    else [x] + s
  }

  /** Insertion sort; the result does not depend on the algorithm (see SortedUnique). */
  function Sort(s: seq<string>): (r: seq<string>)
    ensures |r| == |s|
    ensures forall y :: y in r <==> y in s
    ensures multiset(r) == multiset(s)
  {
    if s == [] then []
    else
      assert s == [s[0]] + s[1..];
      Insert(s[0], Sort(s[1..]))
  }

  /** `[a] + s` is strictly sorted when `s` is and `a` is below all of `s`. */
  lemma ConsStrictlySorted(a: string, s: seq<string>)
    requires StrictlySorted(s)
    requires forall y :: y in s ==> Below(a, y)
    ensures StrictlySorted([a] + s)
  {
    forall i, j | 0 <= i < j < |[a] + s| ensures Below(([a] + s)[i], ([a] + s)[j]) {
      assert ([a] + s)[j] == s[j - 1];
      if i > 0 {
        assert ([a] + s)[i] == s[i - 1];
      }
    }
  }

  /** Inserting a new value into a strictly sorted sequence keeps it strictly sorted. */
  lemma {:induction false} InsertStrictlySorted(x: string, s: seq<string>)
    requires StrictlySorted(s) && x !in s
    ensures StrictlySorted(Insert(x, s))
  {
    if s != [] {
      assert forall y :: y in s[1..] ==> Below(s[0], y) by {
        forall k | 0 <= k < |s[1..]| ensures Below(s[0], s[1..][k]) {
          assert s[1..][k] == s[k + 1];
        }
      }
      if Below(s[0], x) {
        assert StrictlySorted(s[1..]) by {
          forall i, j | 0 <= i < j < |s[1..]| ensures Below(s[1..][i], s[1..][j]) {
            assert s[1..][i] == s[i + 1] && s[1..][j] == s[j + 1];
          }
        }
        InsertStrictlySorted(x, s[1..]);
        ConsStrictlySorted(s[0], Insert(x, s[1..]));
      } else {
        BelowTotal(x, s[0]);
        forall y | y in s ensures Below(x, y) {
          if y != s[0] {
            BelowTransitive(x, s[0], y);
          }
        }
        ConsStrictlySorted(x, s);
      }
    }
  }

  /** Sorting duplicate-free strings gives a strictly increasing sequence. */
  lemma {:induction false} SortStrictlySorted(s: seq<string>)
    requires NoDup(s)
    ensures StrictlySorted(Sort(s))
  {
    if s != [] {
      assert NoDup(s[1..]) by {
        forall i, j | 0 <= i < j < |s[1..]| ensures s[1..][i] != s[1..][j] {
          assert s[1..][i] == s[i + 1] && s[1..][j] == s[j + 1];
        }
      }
      SortStrictlySorted(s[1..]);
      assert s[0] !in s[1..] by {
        forall k | 0 <= k < |s[1..]| ensures s[1..][k] != s[0] {
          assert s[1..][k] == s[k + 1];
        }
      }
      InsertStrictlySorted(s[0], Sort(s[1..]));
    }
  }

  lemma SameElementsBothEmpty(a: seq<string>, b: seq<string>)
    requires forall y :: y in a <==> y in b
    ensures a == [] <==> b == []
  {
    if a != [] {
      assert a[0] in b;
    }
    if b != [] {
      assert b[0] in a;
    }
  }

  /**
   * A strictly sorted sequence is determined by its elements, so every
   * correct sort of the same distinct values returns this very sequence.
   */
  lemma {:induction false} SortedUnique(a: seq<string>, b: seq<string>)
    requires StrictlySorted(a) && StrictlySorted(b)
    requires forall y :: y in a <==> y in b
    ensures a == b
  {
    SameElementsBothEmpty(a, b);
    if a != [] {
      assert a[0] in b && b[0] in a;
      if a[0] != b[0] {
        var i :| 0 < i < |a| && a[i] == b[0];
        var j :| 0 < j < |b| && b[j] == a[0];
        assert Below(a[0], b[0]) && Below(b[0], a[0]);
        BelowTransitive(a[0], b[0], a[0]);
        BelowIrreflexive(a[0]);
      }
      forall y ensures y in a[1..] <==> y in b[1..] {
        if y in a[1..] {
          var k :| 0 <= k < |a[1..]| && a[1..][k] == y;
          assert Below(a[0], a[k + 1]);
          BelowIrreflexive(y);
          assert y != b[0];
          assert y in b;
          var m :| 0 <= m < |b| && b[m] == y;
          assert b[1..][m - 1] == y;
        }
        if y in b[1..] {
          var k :| 0 <= k < |b[1..]| && b[1..][k] == y;
          assert Below(b[0], b[k + 1]);
          BelowIrreflexive(y);
          assert y != a[0];
          assert y in a;
          var m :| 0 <= m < |a| && a[m] == y;
          assert a[1..][m - 1] == y;
        }
      }
      assert StrictlySorted(a[1..]) by {
        forall i, j | 0 <= i < j < |a[1..]| ensures Below(a[1..][i], a[1..][j]) {
          assert a[1..][i] == a[i + 1] && a[1..][j] == a[j + 1];
        }
      }
      assert StrictlySorted(b[1..]) by {
        forall i, j | 0 <= i < j < |b[1..]| ensures Below(b[1..][i], b[1..][j]) {
          assert b[1..][i] == b[i + 1] && b[1..][j] == b[j + 1];
        }
      }
      SortedUnique(a[1..], b[1..]);
      assert a == [a[0]] + a[1..] && b == [b[0]] + b[1..];
    }
  }
}
