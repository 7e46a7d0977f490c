/** The order in which a `std::map<std::string, _>` visits its keys:
    ascending in the lexicographic order of `std::string`. */
module NameOrder {
  import opened Common

  /** `a <= b` for strings compared character by character, a proper
      prefix coming first. */
  predicate NameLe(a: string, b: string)
  {
    |a| == 0 || (|b| != 0 && (a[0] < b[0] || (a[0] == b[0] && NameLe(a[1..], b[1..]))))
  }

  lemma {:induction false} NameLeReflexive(a: string)
    ensures NameLe(a, a)
  {
    if |a| != 0 { NameLeReflexive(a[1..]); }
  }

  lemma {:induction false} NameLeTotal(a: string, b: string)
    ensures NameLe(a, b) || NameLe(b, a)
  {
    if |a| != 0 && |b| != 0 && a[0] == b[0] {
      NameLeTotal(a[1..], b[1..]);
    }
  }

  lemma {:induction false} NameLeAntisymmetric(a: string, b: string)
    requires NameLe(a, b) && NameLe(b, a)
    ensures a == b
  {
    if |a| != 0 && |b| != 0 {
      NameLeAntisymmetric(a[1..], b[1..]);
      assert a == [a[0]] + a[1..] && b == [b[0]] + b[1..];
    }
  }

  lemma {:induction false} NameLeTransitive(a: string, b: string, c: string)
    requires NameLe(a, b) && NameLe(b, c)
    ensures NameLe(a, c)
  {
    if |a| != 0 && |b| != 0 && |c| != 0 && a[0] == b[0] == c[0] {
      NameLeTransitive(a[1..], b[1..], c[1..]);
    }
  }

  /** `m` is the first key of `s` in iteration order. */
  predicate IsLeast(m: string, s: set<string>)
  {
    m in s && forall n :: n in s ==> NameLe(m, n)
  }

  lemma {:induction false} LeastExists(s: set<string>)
    requires s != {}
    ensures exists m :: IsLeast(m, s)
    decreases |s|
  {
    var x :| x in s;
    if s != {x} {
      LeastExists(s - {x});
      var m :| IsLeast(m, s - {x});
      NameLeTotal(m, x);
      if NameLe(m, x) {
        assert IsLeast(m, s);
      } else {
        forall n | n in s ensures NameLe(x, n) {
          if n != x { NameLeTransitive(x, m, n); } else { NameLeReflexive(x); }
        }
        assert IsLeast(x, s);
      }
    } else {
      NameLeReflexive(x);
      assert IsLeast(x, s);
    }
  }

  lemma LeastUnique(m1: string, m2: string, s: set<string>)
    requires IsLeast(m1, s) && IsLeast(m2, s)
    ensures m1 == m2
  {
    NameLeAntisymmetric(m1, m2);
  }

  ghost function Least(s: set<string>): (m: string)
    requires s != {}
    ensures IsLeast(m, s)
  {
    LeastExists(s);
    var m :| IsLeast(m, s);
    m
  }

  /** Each element not after the ones that follow it. */
  ghost predicate Ascending(r: seq<string>)
  {
    forall i, j :: InOrder(r, i, j)
  }

  /** Position `i` of `r` does not come after position `j`. */
  ghost predicate InOrder(r: seq<string>, i: int, j: int)
  {
    0 <= i < j < |r| ==> NameLe(r[i], r[j])
  }

  /** `r` lists the keys of `s` the way a `std::map` iterates them: each
      key once, in ascending order. */
  ghost predicate Listing(r: seq<string>, s: set<string>)
  {
    (forall n :: n in r <==> n in s) && NoDup(r) && Ascending(r)
  }

  lemma {:induction false} ListingExists(s: set<string>)
    ensures exists r :: Listing(r, s)
    decreases |s|
  {
    if s == {} {
      assert Listing([], s);
    } else {
      var m := Least(s);
      ListingExists(s - {m});
      var t :| Listing(t, s - {m});
      var r := [m] + t;
      forall i, j ensures InOrder(r, i, j) {
        if 0 <= i < j < |r| {
          if i == 0 {
            assert r[j] == t[j - 1] && t[j - 1] in t;
          } else {
            assert r[i] == t[i - 1] && r[j] == t[j - 1];
            assert InOrder(t, i - 1, j - 1);
          }
        }
      }
      assert Listing(r, s);
    }
  }

  /** The keys of `s` in the order a `std::map` iterates them. */
  ghost function SortedNames(s: set<string>): (r: seq<string>)
    ensures Listing(r, s)
    ensures |r| == |s|
  {
    ListingExists(s);
    var r :| Listing(r, s);
    NoDupCard(r);
    assert SetOf(r) == s;
    r
  }

  /** The `j`-th key a `std::map` visits is the least of the keys it has
      not visited yet. */
  lemma NextKey(keys: set<string>, j: nat, n: string)
    requires j < |keys|
    requires IsLeast(n, keys - SetOf(SortedNames(keys)[..j]))
    ensures SortedNames(keys)[j] == n
  {
    var r := SortedNames(keys);
    var m :| 0 <= m < |r| && r[m] == n;
    forall k | 0 <= k < j ensures r[k] in SetOf(r[..j]) {
      assert r[..j][k] == r[k];
    }
    if m > j {
      assert r[j] !in r[..j];
      assert r[j] in keys - SetOf(r[..j]);
      assert InOrder(r, j, m);
      NameLeAntisymmetric(r[j], n);
    }
  }

  /** Part-way through iterating a `std::map` with keys `ks`: `done` are
      the keys visited, in order, and `remaining` the keys still to come. */
  ghost predicate Visiting(ks: set<string>, done: seq<string>, remaining: set<string>)
  {
    var keys := SortedNames(ks);
    |done| <= |keys| && done == keys[..|done|] && remaining == ks - SetOf(done)
  }
  /** The next key a `std::map` iteration visits is the least remaining. */
  lemma VisitStep(ks: set<string>, done: seq<string>, remaining: set<string>, n: string)
    requires Visiting(ks, done, remaining)
    requires IsLeast(n, remaining)
    ensures Visiting(ks, done + [n], remaining - {n})
    ensures |SortedNames(ks)| - |done + [n]| < |SortedNames(ks)| - |done|
  {
    var keys := SortedNames(ks);
    assert keys[..|keys|] == keys;
    assert n in keys;
    NextKey(ks, |done|, n);
    PrefixSnoc(keys, |done|);
    SetOfSnoc(done, n);
  }
  /** A key still to come has not been visited, and no key is visited twice. */
  lemma VisitFacts(ks: set<string>, done: seq<string>, remaining: set<string>, n: string)
    requires Visiting(ks, done, remaining)
    requires n in remaining
    ensures n in ks && n !in done && NoDup(done)
  {
    assert n !in SetOf(done);
  }
  /** An iteration with no key remaining has visited every key in order. */
  lemma VisitDone(ks: set<string>, done: seq<string>)
    requires Visiting(ks, done, {})
    ensures done == SortedNames(ks)
  {
    var keys := SortedNames(ks);
    forall x | x in SetOf(done) ensures x in ks {
      var i :| 0 <= i < |done| && done[i] == x;
      assert keys[i] in keys;
    }
    forall x | x in ks ensures x in SetOf(done) {
      assert x !in ks - SetOf(done);
    }
    assert SetOf(done) == ks;
    NoDupCard(keys);
    SetOfCard(done);
    assert done == keys[..|done|];
    assert |done| == |keys|;
    assert keys[..|keys|] == keys;
  }
}
