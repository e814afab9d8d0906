/**
 * Ruby's `sort_by`, modelled as an insertion sort under a comparison `le`
 * on the sort keys, and Ruby's ordering of strings.
 *
 * `sort_by` promises a sorted permutation of its input and nothing about
 * the relative order of equal keys; the lemmas here claim exactly that.
 */
module Sorting {

  /** `le` is total and transitive, as a comparison of sort keys is. */
  ghost predicate TotalPreorder<T(!new)>(le: (T, T) -> bool)
  {
    && (forall a, b :: le(a, b) || le(b, a))
    && (forall a, b, c :: le(a, b) && le(b, c) ==> le(a, c))
  }

  ghost predicate SortedBy<T>(s: seq<T>, le: (T, T) -> bool)
  {
    forall i, j :: 0 <= i < j < |s| ==> le(s[i], s[j])
  }

  /** Inserts `x` before the first element it is `le` to. */
  function Insert<T>(x: T, s: seq<T>, le: (T, T) -> bool): (r: seq<T>)
    ensures multiset(r) == multiset(s) + multiset{x}
  {
    if s == [] then [x]
    else if le(x, s[0]) then [x] + s
    else
      assert s == [s[0]] + s[1..];
      [s[0]] + Insert(x, s[1..], le)
  }

  function SortBy<T>(s: seq<T>, le: (T, T) -> bool): (r: seq<T>)
    ensures multiset(r) == multiset(s)
    ensures |r| == |s|
  {
    if s == [] then []
    else
      assert s == [s[0]] + s[1..];
      Insert(s[0], SortBy(s[1..], le), le)
  }

  lemma {:induction false} InsertSorted<T(!new)>(x: T, s: seq<T>, le: (T, T) -> bool)
    requires TotalPreorder(le)
    requires SortedBy(s, le)
    ensures SortedBy(Insert(x, s, le), le)
  {
    if s == [] {
    } else if le(x, s[0]) {
      var r := [x] + s;
      forall i, j | 0 <= i < j < |r| ensures le(r[i], r[j]) {
        if i == 0 && j > 1 {
          assert le(s[0], s[j - 1]);
        }
      }
    } else {
      var rest := Insert(x, s[1..], le);
      InsertSorted(x, s[1..], le);
      assert le(s[0], x);
      forall y | y in rest ensures le(s[0], y) {
        assert y in multiset(rest);
        if y != x {
          assert y in multiset(s[1..]);
          var k :| 0 <= k < |s[1..]| && s[1..][k] == y;
          assert s[k + 1] == y;
        }
      }
      var r := [s[0]] + rest;
      forall i, j | 0 <= i < j < |r| ensures le(r[i], r[j]) {
        if i == 0 {
          assert r[j] in rest;
        } else {
          assert r[i] == rest[i - 1] && r[j] == rest[j - 1];
        }
      }
    }
  }

  lemma {:induction false} SortBySorted<T(!new)>(s: seq<T>, le: (T, T) -> bool)
    requires TotalPreorder(le)
    ensures SortedBy(SortBy(s, le), le)
  {
    if s != [] {
      SortBySorted(s[1..], le);
      InsertSorted(s[0], SortBy(s[1..], le), le);
    }
  }

  /** Inserting below a greatest last element leaves that element last. */
  lemma {:induction false} InsertBeforeGreatest<T>(x: T, s: seq<T>, m: T, le: (T, T) -> bool)
    requires le(x, m)
    ensures Insert(x, s + [m], le) == Insert(x, s, le) + [m]
  {
    if s == [] {
      assert Insert(x, [m], le) == [x, m];
    } else {
      var t := s + [m];
      assert t[0] == s[0] && t[1..] == s[1..] + [m];
      if le(x, s[0]) {
        assert Insert(x, t, le) == [x] + t;
      } else {
        InsertBeforeGreatest(x, s[1..], m, le);
        assert Insert(x, t, le) == [s[0]] + Insert(x, s[1..] + [m], le);
      }
    }
  }

  /** An element that every other element is `le` to, put last, stays last. */
  lemma {:induction false} SortByAppendGreatest<T>(s: seq<T>, m: T, le: (T, T) -> bool)
    requires forall y :: y in s ==> le(y, m)
    ensures SortBy(s + [m], le) == SortBy(s, le) + [m]
  {
    if s == [] {
      assert SortBy([m], le) == Insert(m, SortBy([m][1..], le), le);
      assert [m][1..] == [];
    } else {
      assert (s + [m])[0] == s[0] && (s + [m])[1..] == s[1..] + [m];
      SortByAppendGreatest(s[1..], m, le);
      InsertBeforeGreatest(s[0], SortBy(s[1..], le), m, le);
    }
  }

  /**
   * Ruby's `String#<=>` (as `a <= b`): compares character by character, and
   * a proper prefix sorts first. Ruby compares the UTF-8 bytes; that order
   * agrees with the order of the code points compared here.
   */
  function StringLe(a: string, b: string): bool
  {
    if a == [] then true
    else if b == [] then false
    else if a[0] != b[0] then a[0] < b[0]
    else StringLe(a[1..], b[1..])
  }

  lemma {:induction false} StringLeTotal(a: string, b: string)
    ensures StringLe(a, b) || StringLe(b, a)
  {
    if a != [] && b != [] && a[0] == b[0] {
      StringLeTotal(a[1..], b[1..]);
    }
  }

  lemma {:induction false} StringLeTransitive(a: string, b: string, c: string)
    requires StringLe(a, b) && StringLe(b, c)
    ensures StringLe(a, c)
  {
    if a != [] && b != [] && c != [] && a[0] == b[0] && b[0] == c[0] {
      StringLeTransitive(a[1..], b[1..], c[1..]);
    }
  }

  lemma StringLeTotalPreorder()
    ensures TotalPreorder(StringLe)
  {
    forall a, b ensures StringLe(a, b) || StringLe(b, a) {
      StringLeTotal(a, b);
    }
    forall a, b, c | StringLe(a, b) && StringLe(b, c) ensures StringLe(a, c) {
      StringLeTransitive(a, b, c);
    }
  }
}
