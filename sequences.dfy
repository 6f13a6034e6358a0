/** Order-preserving filtering of a sequence, the model of `Vec::retain`. */
module Sequences {

  /** The elements of `s` that satisfy `keep`, in their original order. */
  function Filter<T(!new)>(s: seq<T>, keep: T -> bool): (r: seq<T>)
    ensures |r| <= |s|
  {
    if s == [] then []
    else (if keep(s[0]) then [s[0]] else []) + Filter(s[1..], keep)
  }

  /** Filtering keeps exactly the elements that pass the test. */
  lemma {:induction false} FilterMembership<T(!new)>(s: seq<T>, keep: T -> bool, x: T)
    ensures x in Filter(s, keep) <==> x in s && keep(x)
  {
    if s != [] {
      FilterMembership(s[1..], keep, x);
      assert x in s <==> x == s[0] || x in s[1..];
    }
  }

  /** Filtering distributes over concatenation: retained elements keep their relative order. */
  lemma {:induction false} FilterAppend<T(!new)>(a: seq<T>, b: seq<T>, keep: T -> bool)
    ensures Filter(a + b, keep) == Filter(a, keep) + Filter(b, keep)
  {
    if a == [] {
      assert a + b == b;
    } else {
      var head := if keep(a[0]) then [a[0]] else [];
      assert (a + b)[0] == a[0];
      assert (a + b)[1..] == a[1..] + b;
      FilterAppend(a[1..], b, keep);
      calc {
        Filter(a + b, keep);
        head + Filter(a[1..] + b, keep);
        head + (Filter(a[1..], keep) + Filter(b, keep));
        (head + Filter(a[1..], keep)) + Filter(b, keep);
        Filter(a, keep) + Filter(b, keep);
      }
    }
  }

  /** Filtering keeps a sequence whole when every element is kept. */
  lemma {:induction false} FilterKeepsAll<T(!new)>(s: seq<T>, keep: T -> bool)
    requires forall i :: 0 <= i < |s| ==> keep(s[i])
    ensures Filter(s, keep) == s
  {
    if s != [] {
      FilterKeepsAll(s[1..], keep);
    }
  }

  /** Filtering keeps any ordering the elements were in. */
  lemma {:induction false} FilterKeepsOrder<T(!new)>(s: seq<T>, keep: T -> bool, before: (T, T) -> bool)
    requires forall i, j :: 0 <= i < j < |s| ==> before(s[i], s[j])
    ensures forall i, j :: 0 <= i < j < |Filter(s, keep)| ==> before(Filter(s, keep)[i], Filter(s, keep)[j])
  {
    if s != [] {
      var t := Filter(s[1..], keep);
      FilterKeepsOrder(s[1..], keep, before);
      if keep(s[0]) {
        var r := [s[0]] + t;
        assert Filter(s, keep) == r;
        forall i, j | 0 <= i < j < |r|
          ensures before(r[i], r[j])
        {
          assert r[j] == t[j - 1] && t[j - 1] in t;
          if i == 0 {
            FilterMembership(s[1..], keep, t[j - 1]);
            assert t[j - 1] in s[1..];
            var k :| 0 <= k < |s[1..]| && s[1..][k] == t[j - 1];
            assert s[k + 1] == r[j] && r[0] == s[0];
          } else {
            assert r[i] == t[i - 1];
          }
        }
      } else {
        assert Filter(s, keep) == t;
      }
    }
  }

  /** Filtering drops a rejected element between two runs that filtering keeps whole. */
  lemma FilterDropsOne<T(!new)>(before: seq<T>, x: T, after: seq<T>, keep: T -> bool)
    requires Filter(before, keep) == before && Filter(after, keep) == after
    requires !keep(x)
    ensures Filter(before + ([x] + after), keep) == before + after
  {
    var one := [x];
    var t := one + after;
    assert one[1..] == [];
    assert Filter(one, keep) == [];
    FilterAppend(one, after, keep);
    assert [] + after == after;
    assert Filter(t, keep) == after;
    FilterAppend(before, t, keep);
  }

  /** Filtering keeps a prefix whole when every element in it is kept. */
  lemma FilterKeepsPrefix<T(!new)>(s: seq<T>, n: nat, keep: T -> bool)
    requires n <= |s|
    requires forall k :: 0 <= k < n ==> keep(s[k])
    ensures Filter(s[..n], keep) == s[..n]
  {
    var p := s[..n];
    assert forall k :: 0 <= k < |p| ==> p[k] == s[k];
    FilterKeepsAll(p, keep);
  }

  /** Filtering keeps a suffix whole when every element in it is kept. */
  lemma FilterKeepsSuffix<T(!new)>(s: seq<T>, n: nat, keep: T -> bool)
    requires n <= |s|
    requires forall k :: n <= k < |s| ==> keep(s[k])
    ensures Filter(s[n..], keep) == s[n..]
  {
    var p := s[n..];
    assert forall k :: 0 <= k < |p| ==> p[k] == s[n + k];
    FilterKeepsAll(p, keep);
  }

  /** A sequence is its prefix, the element at a position, and its suffix. */
  lemma SplitAt<T>(s: seq<T>, i: nat)
    requires i < |s|
    ensures s == s[..i] + ([s[i]] + s[i + 1..])
  {
  }

  /** Filtering drops position `i` when it fails the test and the parts around it are kept whole. */
  lemma FilterDropsAt<T(!new)>(s: seq<T>, i: nat, keep: T -> bool)
    requires i < |s| && !keep(s[i])
    requires Filter(s[..i], keep) == s[..i] && Filter(s[i + 1..], keep) == s[i + 1..]
    ensures Filter(s, keep) == s[..i] + s[i + 1..]
  {
    SplitAt(s, i);
    FilterDropsOne(s[..i], s[i], s[i + 1..], keep);
  }

  /** Filtering out exactly one position removes that element and keeps the rest in order. */
  lemma FilterRemovesOne<T(!new)>(s: seq<T>, i: nat, keep: T -> bool)
    requires i < |s| && !keep(s[i])
    requires forall k :: 0 <= k < i ==> keep(s[k])
    requires forall k :: i < k < |s| ==> keep(s[k])
    ensures Filter(s, keep) == s[..i] + s[i + 1..]
  {
    FilterKeepsPrefix(s, i, keep);
    FilterKeepsSuffix(s, i + 1, keep);
    FilterDropsAt(s, i, keep);
  }
}
