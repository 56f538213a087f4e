/**
 * The ordering vocabulary of the SQL queries the handlers run: `ORDER BY a, b` on a pair of
 * integer columns, `WHERE` filters, `ORDER BY ... DESC LIMIT n` followed by a JavaScript
 * `reverse()`, and the rows of a table with serial ids listed in id order.
 */
module Ordering {

  /** A sort key: the values of two `ORDER BY` columns, compared lexicographically. */
  type Key = (int, int)

  predicate KeyLe(a: Key, b: Key) {
    a.0 < b.0 || (a.0 == b.0 && a.1 <= b.1)
  }

  predicate SortedBy<T>(s: seq<T>, key: T -> Key) {
    forall i, j :: 0 <= i < j < |s| ==> KeyLe(key(s[i]), key(s[j]))
  }

  /** Inserts `x` into an ascending sequence before the first element with a larger key. */
  function Insert<T>(x: T, s: seq<T>, key: T -> Key): (r: seq<T>)
    requires SortedBy(s, key)
    ensures |r| == |s| + 1
    ensures forall i :: 0 <= i < |r| ==> r[i] == x || r[i] in s
    ensures SortedBy(r, key)
    ensures multiset(r) == multiset(s) + multiset{x}
  {
    if s == [] then [x]
    else if KeyLe(key(x), key(s[0])) then [x] + s
    else
      var t := Insert(x, s[1..], key);
      assert s == [s[0]] + s[1..];
      HeadBelowInsert(s[0], s[1..], x, t, key);
      ConsSorted(s[0], t, key);
      [s[0]] + t
  }

  /** The head of an ascending sequence is no larger than anything inserted after it. */
  lemma HeadBelowInsert<T>(h: T, s: seq<T>, x: T, t: seq<T>, key: T -> Key)
    requires SortedBy([h] + s, key) && !KeyLe(key(x), key(h))
    requires forall i :: 0 <= i < |t| ==> t[i] == x || t[i] in s
    ensures forall i :: 0 <= i < |t| ==> KeyLe(key(h), key(t[i]))
  {
    forall i | 0 <= i < |t| ensures KeyLe(key(h), key(t[i])) {
      if t[i] != x {
        var j :| 0 <= j < |s| && s[j] == t[i];
        assert ([h] + s)[0] == h && ([h] + s)[j + 1] == t[i];
        assert KeyLe(key(([h] + s)[0]), key(([h] + s)[j + 1]));
      }
    }
  }

  lemma ConsSorted<T>(h: T, t: seq<T>, key: T -> Key)
    requires SortedBy(t, key)
    requires forall i :: 0 <= i < |t| ==> KeyLe(key(h), key(t[i]))
    ensures SortedBy([h] + t, key)
  {
    forall i, j | 0 <= i < j < |[h] + t| ensures KeyLe(key(([h] + t)[i]), key(([h] + t)[j])) {
      if i > 0 {
        assert ([h] + t)[i] == t[i - 1];
      }
      assert ([h] + t)[j] == t[j - 1];
    }
  }

  /** `ORDER BY key ASC`: an ascending permutation of `s`. */
  function SortBy<T>(s: seq<T>, key: T -> Key): (r: seq<T>)
    ensures SortedBy(r, key)
    ensures multiset(r) == multiset(s)
  {
    if s == [] then []
    else
      assert s == [s[0]] + s[1..];
      Insert(s[0], SortBy(s[1..], key), key)
  }

  /** JavaScript `array.reverse()` (on a copy). */
  function Reverse<T>(s: seq<T>): (r: seq<T>)
    ensures |r| == |s|
    ensures forall i :: 0 <= i < |s| ==> r[i] == s[|s| - 1 - i]
  {
    if s == [] then [] else Reverse(s[1..]) + [s[0]]
  }

  /** `WHERE p`: the elements of `s` that satisfy `p`, in their order. */
  function Filter<T(!new)>(s: seq<T>, p: T -> bool): (r: seq<T>)
    ensures |r| <= |s|
    ensures forall x :: x in r <==> x in s && p(x)
    ensures multiset(r) <= multiset(s)
  {
    if s == [] then []
    else
      assert s == [s[0]] + s[1..];
      (if p(s[0]) then [s[0]] else []) + Filter(s[1..], p)
  }

  function Min(a: nat, b: nat): nat {
    if a <= b then a else b
  }

  /** `ORDER BY key DESC LIMIT limit`, then `reverse()`: the `limit` newest elements, oldest
      first. Any element of `s` strictly newer than one that is returned is returned too. */
  function NewestInOrder<T(!new)>(s: seq<T>, key: T -> Key, limit: nat): (r: seq<T>)
    ensures |r| == Min(limit, |s|)
    ensures SortedBy(r, key)
    ensures multiset(r) <= multiset(s)
    ensures limit >= |s| ==> multiset(r) == multiset(s)
    ensures forall x, y :: x in s && y in r && KeyLe(key(y), key(x)) && key(x) != key(y) ==> x in r
  {
    var sorted := SortBy(s, key);
    var desc := Reverse(sorted);
    var k := Min(limit, |s|);
    var r := Reverse(desc[..k]);
    NewestIsSuffix(sorted, k);
    SuffixIsNewest(sorted, k, key);
    SuffixMultiset(sorted, k);
    SameMembers(s, sorted);
    r
  }

  /** The last `k` elements form a sub-multiset, the whole of it when `k` covers everything. */
  lemma SuffixMultiset<T>(t: seq<T>, k: nat)
    requires k <= |t|
    ensures multiset(t[|t| - k..]) <= multiset(t)
    ensures k == |t| ==> t[|t| - k..] == t
  {
    assert t == t[..|t| - k] + t[|t| - k..];
  }

  lemma SameMembers<T>(s: seq<T>, t: seq<T>)
    requires multiset(s) == multiset(t)
    ensures forall x :: x in s ==> x in t
  {
    forall x | x in s ensures x in t {
      assert x in multiset(s);
    }
  }

  lemma SubMembers<T>(s: seq<T>, t: seq<T>)
    requires multiset(s) <= multiset(t)
    ensures forall x :: x in s ==> x in t
  {
    forall x | x in s ensures x in t {
      assert x in multiset(s);
    }
  }

  /** Reversing, keeping the first `k` and reversing again keeps the last `k`. */
  lemma NewestIsSuffix<T>(t: seq<T>, k: nat)
    requires k <= |t|
    ensures Reverse(Reverse(t)[..k]) == t[|t| - k..]
  {
    var r := Reverse(Reverse(t)[..k]);
    var u := t[|t| - k..];
    forall i | 0 <= i < k ensures r[i] == u[i] {
      NewestAt(t, k, i);
    }
  }

  /** One position of the last `k`, through the two reversals. */
  lemma NewestAt<T>(t: seq<T>, k: nat, i: nat)
    requires i < k <= |t|
    ensures Reverse(Reverse(t)[..k])[i] == t[|t| - k + i]
  {
    var p := Reverse(t)[..k];
    assert Reverse(p)[i] == p[k - 1 - i];
  }

  /** In an ascending sequence, an element strictly newer than one of the last `k` is itself
      among the last `k`. */
  lemma SuffixIsNewest<T>(t: seq<T>, k: nat, key: T -> Key)
    requires SortedBy(t, key) && k <= |t|
    ensures forall x, y :: x in t && y in t[|t| - k..] && KeyLe(key(y), key(x)) && key(x) != key(y) ==> x in t[|t| - k..]
  {
    forall x, y | x in t && y in t[|t| - k..] && KeyLe(key(y), key(x)) && key(x) != key(y)
      ensures x in t[|t| - k..]
    {
      var i :| 0 <= i < |t| && t[i] == x;
      var j :| 0 <= j < k && t[|t| - k..][j] == y;
      var jy := |t| - k + j;
      assert t[jy] == y;
      assert !KeyLe(key(x), key(y));
      assert !(i < jy);
      assert t[|t| - k..][i - (|t| - k)] == x;
    }
  }

  /** No element occurs more than once. */
  ghost predicate NoRepeats<T(!new)>(s: seq<T>) {
    forall x :: multiset(s)[x] <= 1
  }

  /** In a sequence without repeats, different positions hold different elements. */
  lemma NoRepeatsDistinct<T(!new)>(s: seq<T>)
    requires NoRepeats(s)
    ensures forall i, j :: 0 <= i < j < |s| ==> s[i] != s[j]
  {
    forall i, j | 0 <= i < j < |s| ensures s[i] != s[j] {
      assert s == s[..j] + s[j..];
      assert s[j..][0] == s[j];
      assert s[..j][i] == s[i];
      assert multiset(s)[s[j]] == multiset(s[..j])[s[j]] + multiset(s[j..])[s[j]];
      assert s[j] !in multiset(s[..j]);
    }
  }

  /** Taking part of a sequence without repeats cannot create one. */
  lemma SubNoRepeats<T(!new)>(s: seq<T>, t: seq<T>)
    requires NoRepeats(t) && multiset(s) <= multiset(t)
    ensures NoRepeats(s)
  {
    forall x ensures multiset(s)[x] <= 1 {
      assert multiset(s)[x] <= multiset(t)[x];
    }
  }

  /** Rows stored under their own ids are told apart by their ids: a sequence of such rows
      without repeats holds each id at most once. */
  lemma DistinctIds<T(!new)>(s: seq<T>, m: map<nat, T>, id: T -> nat)
    requires NoRepeats(s)
    requires forall x :: x in s ==> x in m.Values
    requires forall k :: k in m ==> id(m[k]) == k
    ensures forall i, j :: 0 <= i < j < |s| ==> id(s[i]) != id(s[j])
  {
    NoRepeatsDistinct(s);
    forall i, j | 0 <= i < j < |s| ensures id(s[i]) != id(s[j]) {
      assert s[i] in s && s[j] in s;
      var a :| a in m && m[a] == s[i];
      var b :| b in m && m[b] == s[j];
      assert a != b;
    }
  }

  /** The rows of a table keyed by serial ids below `n`, in id order (insertion order). */
  function Listing<V>(m: map<nat, V>, n: nat): (r: seq<V>)
    ensures |r| <= n
    ensures forall k :: k < n && k in m ==> m[k] in r
    ensures forall v :: v in r ==> exists k :: k < n && k in m && m[k] == v
  {
    if n == 0 then []
    else Listing(m, n - 1) + (if n - 1 in m then [m[n - 1]] else [])
  }

  /** Listing a table whose rows are stored under their own ids lists each row once. */
  lemma {:induction false} ListingNoRepeats<V(!new)>(m: map<nat, V>, n: nat, id: V -> nat)
    requires forall k :: k in m ==> id(m[k]) == k
    ensures NoRepeats(Listing(m, n))
  {
    if n > 0 {
      ListingNoRepeats(m, n - 1, id);
      var l := Listing(m, n - 1);
      if n - 1 in m {
        var v := m[n - 1];
        assert forall x :: x in l ==> id(x) < n - 1 by {
          forall x | x in l ensures id(x) < n - 1 {
            var k :| k < n - 1 && k in m && m[k] == x;
          }
        }
        assert id(v) == n - 1;
        assert Listing(m, n) == l + [v];
        assert multiset(l + [v]) == multiset(l) + multiset{v};
      } else {
        assert Listing(m, n) == l + [];
      }
    }
  }

  /** Listing every id below the counter lists every row of the table. */
  lemma ListingHasValues<V>(m: map<nat, V>, n: nat)
    requires forall k :: k in m ==> k < n
    ensures forall x :: x in m.Values ==> x in Listing(m, n)
  {
    forall x | x in m.Values ensures x in Listing(m, n) {
      var k :| k in m && m[k] == x;
    }
  }
}
