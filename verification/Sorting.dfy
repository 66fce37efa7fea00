/** Sorting as Rust's library does it for us: the result is the one ordered
    arrangement of the elements, whatever the algorithm. */
module Sorting {

  ghost predicate TotalOrder<T(!new)>(leq: (T, T) -> bool) {
    && (forall x, y :: leq(x, y) || leq(y, x))
    && (forall x, y :: leq(x, y) && leq(y, x) ==> x == y)
    && (forall x, y, z :: leq(x, y) && leq(y, z) ==> leq(x, z))
  }

  ghost predicate SortedBy<T(!new)>(leq: (T, T) -> bool, s: seq<T>) {
    forall i, j :: 0 <= i < j < |s| ==> leq(s[i], s[j])
  }

  function Insert<T(!new)>(leq: (T, T) -> bool, x: T, s: seq<T>): (r: seq<T>)
    ensures multiset(r) == multiset{x} + multiset(s)
  {
    if s == [] || leq(x, s[0]) then [x] + s
    else
      assert s == [s[0]] + s[1..];
      [s[0]] + Insert(leq, x, s[1..])
  }

  function Sort<T(!new)>(leq: (T, T) -> bool, s: seq<T>): (r: seq<T>)
    ensures multiset(r) == multiset(s) && |r| == |s|
  {
    if s == [] then []
    else
      assert s == [s[0]] + s[1..];
      Insert(leq, s[0], Sort(leq, s[1..]))
  }

  lemma {:induction false} InsertIsSorted<T(!new)>(leq: (T, T) -> bool, x: T, s: seq<T>)
    requires TotalOrder(leq) && SortedBy(leq, s)
    ensures SortedBy(leq, Insert(leq, x, s))
  {
    if s != [] && !leq(x, s[0]) {
      InsertIsSorted(leq, x, s[1..]);
      var tail := Insert(leq, x, s[1..]);
      forall y | y in tail ensures leq(s[0], y) {
        assert y in multiset(tail);
        assert y == x || y in s[1..];
      }
    } else {
      forall y | y in s ensures leq(x, y) {
        assert s[0] == y || leq(s[0], y);
      }
    }
  }

  lemma {:induction false} SortIsSorted<T(!new)>(leq: (T, T) -> bool, s: seq<T>)
    requires TotalOrder(leq)
    ensures SortedBy(leq, Sort(leq, s))
  {
    if s != [] {
      SortIsSorted(leq, s[1..]);
      InsertIsSorted(leq, s[0], Sort(leq, s[1..]));
    }
  }

  lemma SameHead<T(!new)>(leq: (T, T) -> bool, a: seq<T>, b: seq<T>)
    requires TotalOrder(leq) && SortedBy(leq, a) && SortedBy(leq, b)
    requires multiset(a) == multiset(b) && a != []
    ensures b != [] && a[0] == b[0]
  {
    assert a[0] in multiset(b);
    var i :| 0 <= i < |b| && b[i] == a[0];
    assert b[0] in multiset(a);
    var j :| 0 <= j < |a| && a[j] == b[0];
    assert i == 0 || leq(b[0], b[i]);
    assert j == 0 || leq(a[0], a[j]);
  }

  lemma SameTail<T>(a: seq<T>, b: seq<T>)
    requires multiset(a) == multiset(b) && a != [] && b != [] && a[0] == b[0]
    ensures multiset(a[1..]) == multiset(b[1..])
  {
    assert a == [a[0]] + a[1..] && b == [b[0]] + b[1..];
    assert multiset(a) == multiset{a[0]} + multiset(a[1..]);
    assert multiset(b) == multiset{b[0]} + multiset(b[1..]);
    assert multiset(a[1..]) == multiset(a) - multiset{a[0]};
  }

  lemma SortHolds<T(!new)>(leq: (T, T) -> bool, s: seq<T>)
    ensures forall x :: x in Sort(leq, s) <==> x in s
  {
    forall x ensures x in Sort(leq, s) <==> x in s {
      assert x in multiset(Sort(leq, s)) <==> x in multiset(s);
    }
  }

  /** Two ordered arrangements of the same elements are the same. */
  lemma {:induction false} SortedIsUnique<T(!new)>(leq: (T, T) -> bool, a: seq<T>, b: seq<T>)
    requires TotalOrder(leq) && SortedBy(leq, a) && SortedBy(leq, b)
    requires multiset(a) == multiset(b)
    ensures a == b
  {
    if a == [] {
      assert |b| == |multiset(b)| == |multiset(a)|;
    } else {
      SameHead(leq, a, b);
      SameTail(a, b);
      SortedIsUnique(leq, a[1..], b[1..]);
      assert a == [a[0]] + a[1..] && b == [b[0]] + b[1..];
    }
  }

  /** `sort` is a function of the multiset. */
  lemma SortOfPermutation<T(!new)>(leq: (T, T) -> bool, a: seq<T>, b: seq<T>)
    requires TotalOrder(leq)
    ensures Sort(leq, a) == Sort(leq, b) <==> multiset(a) == multiset(b)
  {
    SortIsSorted(leq, a);
    SortIsSorted(leq, b);
    if multiset(a) == multiset(b) {
      SortedIsUnique(leq, Sort(leq, a), Sort(leq, b));
    }
  }

  // ------------------------------------------------------------ strings --

  /** `str`'s order: by the first character that differs, a prefix first. */
  predicate StrLeq(a: string, b: string) {
    a == "" || (b != "" && (a[0] < b[0] || (a[0] == b[0] && StrLeq(a[1..], b[1..]))))
  }

  lemma {:induction false} StrLeqOrders(a: string, b: string, c: string)
    ensures StrLeq(a, b) || StrLeq(b, a)
    ensures StrLeq(a, b) && StrLeq(b, a) ==> a == b
    ensures StrLeq(a, b) && StrLeq(b, c) ==> StrLeq(a, c)
  {
    if a != "" && b != "" {
      assert a == [a[0]] + a[1..] && b == [b[0]] + b[1..];
      StrLeqOrders(a[1..], b[1..], if c == "" then c else c[1..]);
    }
  }

  lemma StrLeqIsTotal()
    ensures TotalOrder(StrLeq)
  {
    forall a, b ensures StrLeq(a, b) || StrLeq(b, a) {
      StrLeqOrders(a, b, "");
    }
    forall a, b | StrLeq(a, b) && StrLeq(b, a) ensures a == b {
      StrLeqOrders(a, b, "");
    }
    forall a, b, c | StrLeq(a, b) && StrLeq(b, c) ensures StrLeq(a, c) {
      StrLeqOrders(a, b, c);
    }
  }

  ghost predicate StrictlySorted(s: seq<string>) {
    forall i, j :: 0 <= i < j < |s| ==> StrLeq(s[i], s[j]) && s[i] != s[j]
  }

  /** `dedup`: drops each element equal to the one before it. */
  function Dedup<T(==,!new)>(s: seq<T>): (r: seq<T>)
    ensures forall x :: x in r <==> x in s
  {
    if |s| < 2 then s
    else if s[0] == s[1] then
      assert s == [s[0]] + s[1..];
      Dedup(s[1..])
    else
      assert s == [s[0]] + s[1..];
      [s[0]] + Dedup(s[1..])
  }

  function SortedSet(s: seq<string>): seq<string> {
    Dedup(Sort(StrLeq, s))
  }

  lemma {:induction false} DedupIsStrict(s: seq<string>)
    requires SortedBy(StrLeq, s)
    ensures StrictlySorted(Dedup(s))
  {
    if |s| >= 2 {
      DedupIsStrict(s[1..]);
      if s[0] != s[1] {
        forall x | x in Dedup(s[1..]) ensures StrLeq(s[0], x) && s[0] != x {
          var k :| 0 <= k < |s[1..]| && s[1..][k] == x;
          assert StrLeq(s[0], s[k + 1]);
          assert k == 0 || StrLeq(s[1], s[k + 1]);
          StrLeqOrders(s[0], s[1], s[0]);
        }
      }
    }
  }

  /** `sort` then `dedup` lists each string once, in order. */
  lemma SortedSetLists(s: seq<string>)
    ensures StrictlySorted(SortedSet(s)) && forall x :: x in SortedSet(s) <==> x in s
  {
    StrLeqIsTotal();
    SortIsSorted(StrLeq, s);
    DedupIsStrict(Sort(StrLeq, s));
    SortHolds(StrLeq, s);
  }

  lemma StrictPrefix(s: seq<string>, n: nat)
    requires StrictlySorted(s) && n <= |s|
    ensures StrictlySorted(s[..n])
  {
    hide StrLeq;
  }

  lemma LastIsGreatest(s: seq<string>, last: string)
    requires StrictlySorted(s + [last])
    ensures forall x | x in s :: StrLeq(x, last) && x != last
  {
    hide StrLeq;
    var all := s + [last];
    forall x | x in s ensures StrLeq(x, last) && x != last {
      var i :| 0 <= i < |s| && s[i] == x;
      assert all[i] == x && all[|s|] == last;
    }
  }

  /** A strictly ordered list is determined by what it lists. */
  lemma {:induction false} StrictListIsUnique(a: seq<string>, b: seq<string>)
    requires StrictlySorted(a) && StrictlySorted(b) && forall x :: x in a <==> x in b
    ensures a == b
  {
    assert a != [] ==> a[0] in a;
    assert b != [] ==> b[0] in b;
    if a != [] && b != [] {
      StrLeqOrders(a[0], b[0], "");
      forall x ensures x in a[1..] <==> x in b[1..] {
        assert x in a[1..] <==> x in a && x != a[0];
        assert x in b[1..] <==> x in b && x != b[0];
      }
      StrictListIsUnique(a[1..], b[1..]);
    }
  }

  /** A map's keys in order, as a `BTreeMap` iterates. */
  method InOrder(keys: set<string>) returns (ks: seq<string>)
    ensures StrictlySorted(ks) && forall k :: k in ks <==> k in keys
  {
    var rest := keys;
    ks := [];
    while rest != {}
      invariant forall k :: k in keys <==> k in rest || k in ks
      decreases |rest|
    {
      var k :| k in rest;
      rest := rest - {k};
      ks := ks + [k];
    }
    SortedSetLists(ks);
    ks := SortedSet(ks);
  }
}
