/** Plain nonce-to-transaction maps and their nonce-sorted contents. */
module TxContents {
  import opened Prelude

  datatype Tx = Tx(hash: nat, sender: Address, nonce: nat, price: nat, gas: nat, value: nat) {
    /** The most a transaction can cost its sender: the gas at its price, and the value. */
    function Cost(): nat {
      price * gas + value
    }
  }

  type Items = map<nat, Tx>

  /** Transactions are filed under their own nonce. */
  ghost predicate Filed(m: Items) {
    forall n :: n in m ==> m[n].nonce == n
  }

  function Without(m: Items, n: nat): Items {
    map k | k in m && k != n :: m[k]
  }

  lemma WithoutSize(m: Items, n: nat)
    requires n in m
    ensures |Without(m, n)| == |m| - 1
  {
    assert Without(m, n).Keys == m.Keys - {n};
    assert |m.Keys| == |m| && |Without(m, n).Keys| == |Without(m, n)|;
  }

  ghost predicate IsLeast(s: set<nat>, n: nat) {
    n in s && forall k :: k in s ==> n <= k
  }

  lemma LeastExists(s: set<nat>)
    requires s != {}
    ensures exists n :: IsLeast(s, n)
  {
    var n :| n in s;
    var rest := s - {n};
    if rest == {} {
      forall k | k in s ensures n <= k { assert k in rest || k == n; }
      assert IsLeast(s, n);
    } else {
      LeastExists(rest);
      var l :| IsLeast(rest, l);
      var least := if n < l then n else l;
      forall k | k in s ensures least <= k { if k != n { assert k in rest; } }
      assert IsLeast(s, least);
    }
  }

  ghost function Least(m: Items): (n: nat)
    requires m != map[]
    ensures IsLeast(m.Keys, n)
  {
    assert m.Keys != {} by { var n :| n in m; assert n in m.Keys; }
    LeastExists(m.Keys);
    var n :| IsLeast(m.Keys, n);
    n
  }

  /** The transactions in nonce order, built from the least one up. */
  ghost function Build(m: Items): seq<Tx>
    decreases |m|
  {
    if m == map[] then []
    else
      assert IsLeast(m.Keys, Least(m));
      WithoutSize(m, Least(m));
      [m[Least(m)]] + Build(Without(m, Least(m)))
  }

  /** Strictly increasing nonces. */
  ghost predicate Increasing(s: seq<Tx>) {
    forall i, j :: 0 <= i < j < |s| ==> s[i].nonce < s[j].nonce
  }

  predicate ItemAt(s: seq<Tx>, m: Items, i: nat)
    requires i < |s|
  {
    s[i].nonce in m && m[s[i].nonce] == s[i]
  }

  ghost predicate HasNonce(s: seq<Tx>, n: nat) {
    exists i :: 0 <= i < |s| && s[i].nonce == n
  }

  /** The elements of `s` are the transactions of `m`. */
  ghost predicate Holds(s: seq<Tx>, m: Items) {
    && (forall i: nat {:trigger ItemAt(s, m, i)} :: i < |s| ==> ItemAt(s, m, i))
    && (forall n {:trigger HasNonce(s, n)} :: n in m ==> HasNonce(s, n))
  }

  /** The nonce-sorted contents of `m`. */
  ghost predicate IsSorted(s: seq<Tx>, m: Items) {
    Increasing(s) && Holds(s, m)
  }

  /** Putting the least transaction in front. */
  lemma ConsSorted(m: Items, n: nat, s: seq<Tx>)
    requires Filed(m) && IsLeast(m.Keys, n) && IsSorted(s, Without(m, n))
    ensures IsSorted([m[n]] + s, m)
  {
    var rest, t := Without(m, n), [m[n]] + s;
    forall i: nat | i < |t| ensures ItemAt(t, m, i) && (i > 0 ==> t[i].nonce > n) {
      if i > 0 { assert ItemAt(s, rest, i - 1); assert t[i].nonce in m.Keys; }
    }
    forall k | k in m ensures HasNonce(t, k) {
      if k == n {
        assert t[0].nonce == k;
      } else {
        assert k in rest && HasNonce(s, k);
        var i :| 0 <= i < |s| && s[i].nonce == k;
        assert t[i + 1].nonce == k;
      }
    }
  }

  /** The first of the sorted contents is the least transaction. */
  lemma UnconsSorted(m: Items, n: nat, s: seq<Tx>)
    requires Filed(m) && IsLeast(m.Keys, n) && IsSorted(s, m)
    ensures |s| >= 1 && s[0] == m[n] && IsSorted(s[1..], Without(m, n))
  {
    var rest := Without(m, n);
    assert HasNonce(s, n);
    var i :| 0 <= i < |s| && s[i].nonce == n;
    assert ItemAt(s, m, 0) && s[0].nonce in m.Keys;
    assert i == 0;
    forall j: nat | j < |s[1..]| ensures ItemAt(s[1..], rest, j) { assert ItemAt(s, m, j + 1); }
    forall k | k in rest ensures HasNonce(s[1..], k) {
      assert HasNonce(s, k);
      var j :| 0 <= j < |s| && s[j].nonce == k;
      assert s[1..][j - 1].nonce == k;
    }
  }

  lemma {:induction false} BuildIs(m: Items)
    requires Filed(m)
    ensures IsSorted(Build(m), m) && |Build(m)| == |m|
    decreases |m|
  {
    if m != map[] {
      var n := Least(m);
      assert IsLeast(m.Keys, n);
      WithoutSize(m, n);
      BuildIs(Without(m, n));
      ConsSorted(m, n, Build(Without(m, n)));
    }
  }

  lemma {:induction false} BuildUnique(s: seq<Tx>, m: Items)
    requires Filed(m) && IsSorted(s, m)
    ensures s == Build(m)
    decreases |m|
  {
    if m == map[] {
      assert |s| > 0 ==> ItemAt(s, m, 0);
    } else {
      var n := Least(m);
      assert IsLeast(m.Keys, n);
      WithoutSize(m, n);
      UnconsSorted(m, n, s);
      BuildUnique(s[1..], Without(m, n));
    }
  }

  /** The transactions in nonce order. */
  ghost function SortedOf(m: Items): seq<Tx>
    requires Filed(m)
  {
    BuildIs(m);
    var s :| IsSorted(s, m);
    s
  }

  lemma SortedIs(m: Items)
    requires Filed(m)
    ensures IsSorted(SortedOf(m), m) && |SortedOf(m)| == |m|
  {
    BuildIs(m);
    BuildUnique(SortedOf(m), m);
  }

  /** Sorted contents are unique. */
  lemma SortedUnique(s: seq<Tx>, m: Items)
    requires Filed(m) && IsSorted(s, m)
    ensures s == SortedOf(m)
  {
    BuildUnique(s, m);
    BuildIs(m);
    BuildUnique(SortedOf(m), m);
  }

  /** Taking the least transaction away takes the first of the sorted contents away. */
  lemma SortedFront(m: Items, n: nat)
    requires Filed(m) && IsLeast(m.Keys, n)
    ensures SortedOf(m) == [m[n]] + SortedOf(Without(m, n))
  {
    SortedIs(Without(m, n));
    ConsSorted(m, n, SortedOf(Without(m, n)));
    SortedUnique([m[n]] + SortedOf(Without(m, n)), m);
  }

  /** Taking the greatest transaction away takes the last of the sorted contents away. */
  lemma SortedBack(m: Items, n: nat)
    requires Filed(m) && n in m && forall k :: k in m.Keys ==> k <= n
    ensures SortedOf(m) == SortedOf(Without(m, n)) + [m[n]]
  {
    var rest := Without(m, n);
    var s := SortedOf(rest);
    SortedIs(rest);
    var t := s + [m[n]];
    forall i: nat | i < |t| ensures ItemAt(t, m, i) && (i < |s| ==> t[i].nonce < n) {
      if i < |s| { assert ItemAt(s, rest, i); assert t[i].nonce in m.Keys; }
    }
    forall k | k in m ensures HasNonce(t, k) {
      if k == n {
        assert t[|s|].nonce == k;
      } else {
        assert k in rest && HasNonce(s, k);
        var i :| 0 <= i < |s| && s[i].nonce == k;
        assert t[i].nonce == k;
      }
    }
    SortedUnique(t, m);
  }

  // ---------- parts of a map ----------

  function Below(m: Items, t: nat): Items {
    map n | n in m && n < t :: m[n]
  }

  function From(m: Items, t: nat): Items {
    map n | n in m && n >= t :: m[n]
  }

  lemma ConcatHolds(a: seq<Tx>, b: seq<Tx>, low: Items, high: Items, m: Items)
    requires Holds(a, low) && Holds(b, high) && m == low + high && low.Keys !! high.Keys
    ensures Holds(a + b, m)
  {
    var s := a + b;
    forall i: nat | i < |s| ensures ItemAt(s, m, i) {
      if i < |a| { assert ItemAt(a, low, i); } else { assert ItemAt(b, high, i - |a|); }
    }
    forall n | n in m ensures HasNonce(s, n) {
      if n in low {
        assert HasNonce(a, n);
        var i :| 0 <= i < |a| && a[i].nonce == n;
        assert s[i].nonce == n;
      } else {
        assert HasNonce(b, n);
        var i :| 0 <= i < |b| && b[i].nonce == n;
        assert s[|a| + i].nonce == n;
      }
    }
  }

  lemma ConcatIncreasing(a: seq<Tx>, b: seq<Tx>, t: nat)
    requires Increasing(a) && Increasing(b)
    requires forall i :: 0 <= i < |a| ==> a[i].nonce < t
    requires forall i :: 0 <= i < |b| ==> b[i].nonce >= t
    ensures Increasing(a + b)
  {
    var s := a + b;
    forall i, j | 0 <= i < j < |s| ensures s[i].nonce < s[j].nonce {
      assert s[i] == if i < |a| then a[i] else b[i - |a|];
      assert s[j] == if j < |a| then a[j] else b[j - |a|];
    }
  }

  lemma SplitMap(m: Items, t: nat)
    ensures m == Below(m, t) + From(m, t) && Below(m, t).Keys !! From(m, t).Keys
  {
  }

  lemma SplitIsSorted(m: Items, t: nat, a: seq<Tx>, b: seq<Tx>)
    requires IsSorted(a, Below(m, t)) && IsSorted(b, From(m, t))
    ensures IsSorted(a + b, m)
  {
    SplitMap(m, t);
    ConcatHolds(a, b, Below(m, t), From(m, t), m);
    forall i: nat | i < |a| ensures a[i].nonce < t { assert ItemAt(a, Below(m, t), i); }
    forall i: nat | i < |b| ensures b[i].nonce >= t { assert ItemAt(b, From(m, t), i); }
    ConcatIncreasing(a, b, t);
  }

  /** The contents below a nonce come before the others. */
  lemma SortedSplit(m: Items, t: nat)
    requires Filed(m)
    ensures SortedOf(m) == SortedOf(Below(m, t)) + SortedOf(From(m, t))
  {
    SortedIs(Below(m, t));
    SortedIs(From(m, t));
    SplitIsSorted(m, t, SortedOf(Below(m, t)), SortedOf(From(m, t)));
    SortedUnique(SortedOf(Below(m, t)) + SortedOf(From(m, t)), m);
  }

  function Reverse(s: seq<Tx>): (r: seq<Tx>)
    ensures |r| == |s|
  {
    if s == [] then [] else Reverse(s[1..]) + [s[0]]
  }

  lemma {:induction false} ReverseAppend(s: seq<Tx>, x: Tx)
    ensures Reverse(s + [x]) == [x] + Reverse(s)
  {
    if s == [] {
      assert s + [x] == [x];
    } else {
      ReverseAppend(s[1..], x);
      assert (s + [x])[1..] == s[1..] + [x];
    }
  }
}
