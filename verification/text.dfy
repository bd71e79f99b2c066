/**
 * The few Python string built-ins the crawler relies on: `str.lower`,
 * `str.endswith`, the substring test `t in s`, and the ordering that
 * `sorted` uses on strings, together with `sorted(set(xs))` itself.
 */
module Text {

  /** `str.lower` on one character; only ASCII letters are folded. */
  function LowerChar(c: char): char
  {
    if 'A' <= c <= 'Z' then (c as int - 'A' as int + 'a' as int) as char else c
  }

  function Lower(s: string): string
  {
    seq(|s|, i requires 0 <= i < |s| => LowerChar(s[i]))
  }

  lemma LowerIdempotent(s: string)
    ensures Lower(Lower(s)) == Lower(s)
  {
  }

  /** `s.endswith(suffix)` */
  predicate EndsWith(s: string, suffix: string)
  {
    |suffix| <= |s| && s[|s| - |suffix|..] == suffix
  }

  /** `t` occurs in `s` starting at index `i`. */
  predicate OccursAt(s: string, t: string, i: int)
  {
    0 <= i && i + |t| <= |s| && s[i..i + |t|] == t
  }

  lemma OccursAtShift(s: string, t: string, i: int)
    requires s != [] && 0 <= i
    ensures OccursAt(s[1..], t, i) <==> OccursAt(s, t, i + 1)
  {
    if 0 <= i && i + |t| <= |s| - 1 {
      assert s[1..][i..i + |t|] == s[i + 1..i + 1 + |t|];
    }
  }

  /** The substring test `t in s`, searched left to right. */
  function Contains(s: string, t: string): (r: bool)
    ensures r <==> exists i :: OccursAt(s, t, i)
    decreases |s|
  {
    if |t| > |s| then
      assert forall i :: !OccursAt(s, t, i);
      false
    else if s[..|t|] == t then
      assert OccursAt(s, t, 0);
      true
    else
      assert s != [] by { assert |t| > 0; }
      assert forall i :: 0 <= i ==> (OccursAt(s[1..], t, i) <==> OccursAt(s, t, i + 1)) by {
        forall i | 0 <= i ensures OccursAt(s[1..], t, i) <==> OccursAt(s, t, i + 1) {
          OccursAtShift(s, t, i);
        }
      }
      assert forall i :: OccursAt(s, t, i) ==> i >= 1 && OccursAt(s[1..], t, i - 1) by {
        forall i | OccursAt(s, t, i) ensures i >= 1 && OccursAt(s[1..], t, i - 1) {
          assert i != 0;
          OccursAtShift(s, t, i - 1);
        }
      }
      Contains(s[1..], t)
  }

  /**
   * The order Python uses on `str`: lexicographic on code points, a proper
   * prefix coming first. (Dafny's own `<` on sequences is "proper prefix".)
   */
  predicate Less(a: string, b: string)
  {
    if a == [] then b != []
    else b != [] && (a[0] < b[0] || (a[0] == b[0] && Less(a[1..], b[1..])))
  }

  lemma {:induction false} LessIrreflexive(a: string)
    ensures !Less(a, a)
  {
    if a != [] {
      LessIrreflexive(a[1..]);
    }
  }

  lemma {:induction false} LessTransitive(a: string, b: string, c: string)
    requires Less(a, b) && Less(b, c)
    ensures Less(a, c)
  {
    if a != [] && a[0] == b[0] && b[0] == c[0] {
      LessTransitive(a[1..], b[1..], c[1..]);
    }
  }

  lemma {:induction false} LessTotal(a: string, b: string)
    ensures a == b || Less(a, b) || Less(b, a)
  {
    if a != [] && b != [] && a[0] == b[0] {
      LessTotal(a[1..], b[1..]);
      if a[1..] == b[1..] {
        assert a == [a[0]] + a[1..] && b == [b[0]] + b[1..];
      }
    }
  }

  lemma LessAsymmetric(a: string, b: string)
    requires Less(a, b)
    ensures !Less(b, a)
  {
    if Less(b, a) {
      LessTransitive(a, b, a);
      LessIrreflexive(a);
    }
  }

  ghost predicate StrictlySorted(s: seq<string>)
  {
    forall i, j :: 0 <= i < j < |s| ==> Less(s[i], s[j])
  }

  ghost predicate Distinct<T>(s: seq<T>)
  {
    forall i, j :: 0 <= i < j < |s| ==> s[i] != s[j]
  }

  function Elems<T>(s: seq<T>): set<T>
  {
    set x | x in s
  }

  /** Inserts `x` into the strictly sorted `s`, keeping it strictly sorted (a duplicate is dropped). */
  function Insert(x: string, s: seq<string>): seq<string>
    decreases |s|
  {
    if s == [] then [x]
    else if x == s[0] then s
    else if Less(x, s[0]) then [x] + s
    else [s[0]] + Insert(x, s[1..])
  }

  lemma {:induction false} InsertSpec(x: string, s: seq<string>)
    requires StrictlySorted(s)
    ensures StrictlySorted(Insert(x, s))
    ensures forall y :: y in Insert(x, s) <==> y == x || y in s
    decreases |s|
  {
    if s == [] {
    } else if x == s[0] {
    } else if Less(x, s[0]) {
      forall j | 1 <= j < |s| + 1 ensures Less(([x] + s)[0], ([x] + s)[j]) {
        if j > 1 {
          LessTransitive(x, s[0], s[j - 1]);
        }
      }
    } else {
      LessTotal(x, s[0]);
      InsertSpec(x, s[1..]);
      var r := Insert(x, s[1..]);
      assert forall y :: y in s[1..] ==> Less(s[0], y) by {
        forall y | y in s[1..] ensures Less(s[0], y) {
          var j :| 0 <= j < |s[1..]| && s[1..][j] == y;
          assert s[j + 1] == y;
        }
      }
      forall i, j | 0 <= i < j < |[s[0]] + r| ensures Less(([s[0]] + r)[i], ([s[0]] + r)[j]) {
        if i == 0 {
          assert r[j - 1] in r;
        }
      }
      assert forall y :: y in s <==> y == s[0] || y in s[1..] by {
        assert s == [s[0]] + s[1..];
      }
    }
  }

  /** `sorted(set(xs))`: the elements of `xs`, without duplicates, in increasing order. */
  function SortDedup(xs: seq<string>): (r: seq<string>)
    ensures StrictlySorted(r)
    ensures forall y :: y in r <==> y in xs
  {
    if xs == [] then []
    else
      var init := xs[..|xs| - 1];
      var sorted := SortDedup(init);
      InsertSpec(xs[|xs| - 1], sorted);
      assert xs == init + [xs[|xs| - 1]];
      Insert(xs[|xs| - 1], sorted)
  }

  lemma StrictlySortedDistinct(s: seq<string>)
    requires StrictlySorted(s)
    ensures Distinct(s)
  {
    forall i, j | 0 <= i < j < |s| ensures s[i] != s[j] {
      if s[i] == s[j] {
        LessIrreflexive(s[i]);
      }
    }
  }

  lemma {:induction false} DistinctCardinality<T>(s: seq<T>)
    requires Distinct(s)
    ensures |Elems(s)| == |s|
  {
    if s != [] {
      var init := s[..|s| - 1];
      DistinctCardinality(init);
      assert s == init + [s[|s| - 1]];
      assert Elems(s) == Elems(init) + {s[|s| - 1]};
      assert s[|s| - 1] !in Elems(init);
    }
  }

  /** Sorting a list without duplicates loses nothing: as many entries come out as went in. */
  lemma SortDedupLength(xs: seq<string>)
    requires Distinct(xs)
    ensures |SortDedup(xs)| == |xs|
  {
    var r := SortDedup(xs);
    StrictlySortedDistinct(r);
    DistinctCardinality(r);
    DistinctCardinality(xs);
    assert Elems(r) == Elems(xs);
  }

  /** A strictly sorted sequence is determined by its elements: `SortDedup` is the only possible answer. */
  lemma {:induction false} StrictlySortedUnique(a: seq<string>, b: seq<string>)
    requires StrictlySorted(a) && StrictlySorted(b)
    requires forall y :: y in a <==> y in b
    ensures a == b
    decreases |a|
  {
    if a != [] || b != [] {
      assert a != [] && b != [] by {
        if a != [] {
          assert a[0] in b;
        }
        if b != [] {
          assert b[0] in a;
        }
      }
      assert a[0] == b[0] by {
        assert a[0] in b && b[0] in a;
        if a[0] != b[0] {
          var i :| 0 <= i < |b| && b[i] == a[0];
          var j :| 0 <= j < |a| && a[j] == b[0];
          assert i > 0 && j > 0;
          LessAsymmetric(b[0], a[0]);
        }
      }
      forall y ensures y in a[1..] <==> y in b[1..] {
        if y in a[1..] {
          var i :| 0 <= i < |a[1..]| && a[1..][i] == y;
          assert Less(a[0], a[i + 1]);
          LessIrreflexive(y);
          assert y in b;
        }
        if y in b[1..] {
          var i :| 0 <= i < |b[1..]| && b[1..][i] == y;
          assert Less(b[0], b[i + 1]);
          LessIrreflexive(y);
          assert y in a;
        }
      }
      StrictlySortedUnique(a[1..], b[1..]);
      assert a == [a[0]] + a[1..] && b == [b[0]] + b[1..];
    }
  }
}
