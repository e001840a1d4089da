/**
  The order in which the result-store listing returns its keys: Python's
  `sorted` on the keys, which compares them lexicographically. Keys are
  compared here character by character on code points; on UTF-8 encoded
  keys this is the same order as comparing their octets.
 */
module Listing {

  /** `a` sorts no later than `b`: it is a prefix of `b`, or it has the smaller character at the first difference. */
  predicate LexLe(a: string, b: string)
    decreases |a|
  {
    a == [] || (b != [] && (a[0] < b[0] || (a[0] == b[0] && LexLe(a[1..], b[1..]))))
  }

  lemma {:induction false} LexLeTotal(a: string, b: string)
    ensures LexLe(a, b) || LexLe(b, a)
    decreases |a|
  {
    if a != [] && b != [] && a[0] == b[0] {
      LexLeTotal(a[1..], b[1..]);
    }
  }

  lemma {:induction false} LexLeAntisymmetric(a: string, b: string)
    requires LexLe(a, b) && LexLe(b, a)
    ensures a == b
    decreases |a|
  {
    if a != [] && b != [] {
      LexLeAntisymmetric(a[1..], b[1..]);
      assert a == [a[0]] + a[1..];
      assert b == [b[0]] + b[1..];
    }
  }

  lemma {:induction false} LexLeTransitive(a: string, b: string, c: string)
    requires LexLe(a, b) && LexLe(b, c)
    ensures LexLe(a, c)
    decreases |a|
  {
    if a != [] && a[0] == b[0] && b[0] == c[0] {
      LexLeTransitive(a[1..], b[1..], c[1..]);
    }
  }

  /** `m` is the first of `s` in the listing order. */
  predicate IsLeast(m: string, s: set<string>)
  {
    m in s && forall y :: y in s ==> LexLe(m, y)
  }

  /** Every non-empty finite set of keys has a first one. */
  lemma {:induction false} LeastExists(s: set<string>)
    requires s != {}
    ensures exists m :: IsLeast(m, s)
    decreases |s|
  {
    var x :| x in s;
    if s == {x} {
      LexLeTotal(x, x);
      assert IsLeast(x, s);
    } else {
      LeastExists(s - {x});
      var m :| IsLeast(m, s - {x});
      LexLeTotal(m, x);
      if LexLe(m, x) {
        assert IsLeast(m, s);
      } else {
        forall y | y in s ensures LexLe(x, y) {
          if y != x {
            LexLeTransitive(x, m, y);
          } else {
            LexLeTotal(x, x);
          }
        }
        assert IsLeast(x, s);
      }
    }
  }

  /** A set has at most one first key. */
  lemma LeastUnique(s: set<string>)
    ensures forall m, n :: IsLeast(m, s) && IsLeast(n, s) ==> m == n
  {
    forall m, n | IsLeast(m, s) && IsLeast(n, s) ensures m == n {
      LexLeAntisymmetric(m, n);
    }
  }

  /** Every key is before every later one, and no key repeats. */
  predicate StrictlySorted(xs: seq<string>)
  {
    forall i, j :: 0 <= i < j < |xs| ==> LexLe(xs[i], xs[j]) && xs[i] != xs[j]
  }

  /** `sorted(keys)` for the set of keys a store holds: exactly those keys, each once, in order. */
  function SortedKeys(s: set<string>): (r: seq<string>)
    ensures StrictlySorted(r)
    ensures forall k :: k in r <==> k in s
    ensures |r| == |s|
    decreases |s|
  {
    if s == {} then []
    else
      LeastExists(s);
      LeastUnique(s);
      var m :| IsLeast(m, s);
      var rest := SortedKeys(s - {m});
      assert forall j :: 0 <= j < |rest| ==> rest[j] in s - {m};
      [m] + rest
  }
}
