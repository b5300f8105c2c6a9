/**
  The account order of a built transaction: fee payer first, then the four role classes, insertion order
  inside a class; the in-place sort that produces it, and the table that inverts it.
 */
module Ordering {
  import opened Builder

  function SortKey(r: Role): (k: nat)
    ensures k < 4 && (k <= 1 <==> r.signer) && (k % 2 == 0 <==> r.writable)
  {
    match (r.signer, r.writable)
    case (true, true) => 0
    case (true, false) => 1
    case (false, true) => 2
    case (false, false) => 3
  }

  /** The comparator of the sort answers `Less`: fee payer, then sort key, then table index. */
  predicate Before(roles: seq<Role>, payer: nat, a: nat, b: nat)
    requires a < |roles| && b < |roles|
  {
    if (a == payer) != (b == payer) then a == payer
    else if SortKey(roles[a]) != SortKey(roles[b]) then SortKey(roles[a]) < SortKey(roles[b])
    else a < b
  }

  predicate Indices(roles: seq<Role>, s: seq<nat>)
  {
    forall i :: 0 <= i < |s| ==> s[i] < |roles|
  }

  predicate Ascending(roles: seq<Role>, payer: nat, s: seq<nat>)
    requires Indices(roles, s)
  {
    forall i, j :: 0 <= i < j < |s| ==> Before(roles, payer, s[i], s[j])
  }

  /** `s` lists exactly the indices below `n`, strictly ascending under the comparator. */
  ghost predicate IsOrder(roles: seq<Role>, payer: nat, n: nat, s: seq<nat>)
  {
    && Indices(roles, s) && |s| == n && Ascending(roles, payer, s)
    && forall x: nat :: x in s <==> x < n
  }

  function Insert(roles: seq<Role>, payer: nat, s: seq<nat>, x: nat): (r: seq<nat>)
    requires Indices(roles, s) && x < |roles|
    ensures |r| == |s| + 1 && Indices(roles, r)
    ensures forall y: nat :: y in r <==> y in s || y == x
  {
    if s == [] || Before(roles, payer, s[|s| - 1], x) then s + [x]
    else
      assert s == s[..|s| - 1] + [s[|s| - 1]];
      Insert(roles, payer, s[..|s| - 1], x) + [s[|s| - 1]]
  }

  function Order(roles: seq<Role>, payer: nat, n: nat): (r: seq<nat>)
    requires n <= |roles|
    ensures Indices(roles, r) && |r| == n
  {
    if n == 0 then [] else Insert(roles, payer, Order(roles, payer, n - 1), n - 1)
  }

  lemma {:induction false} InsertAscending(roles: seq<Role>, payer: nat, s: seq<nat>, x: nat)
    requires Indices(roles, s) && x < |roles| && Ascending(roles, payer, s) && x !in s
    ensures Ascending(roles, payer, Insert(roles, payer, s, x))
  {
    if s != [] && !Before(roles, payer, s[|s| - 1], x) {
      var front, last := s[..|s| - 1], s[|s| - 1];
      InsertAscending(roles, payer, front, x);
      var r := Insert(roles, payer, front, x);
      forall i | 0 <= i < |r| ensures Before(roles, payer, r[i], last) {
        assert r[i] in r;
        if r[i] in front {
          var k :| 0 <= k < |front| && front[k] == r[i];
          assert s[k] == r[i];
        }
      }
    } else {
      forall i | 0 <= i < |s| ensures Before(roles, payer, s[i], x) {
        if i < |s| - 1 {
          assert Before(roles, payer, s[i], s[|s| - 1]);
        }
      }
    }
  }

  lemma {:induction false} OrderIsOrder(roles: seq<Role>, payer: nat, n: nat)
    requires n <= |roles|
    ensures IsOrder(roles, payer, n, Order(roles, payer, n))
  {
    if n > 0 {
      OrderIsOrder(roles, payer, n - 1);
      InsertAscending(roles, payer, Order(roles, payer, n - 1), n - 1);
    }
  }

  /** The comparator is a strict total order, so any sort that permutes the indices yields this order. */
  lemma {:induction false} OrderUnique(roles: seq<Role>, payer: nat, s: seq<nat>, t: seq<nat>)
    requires Indices(roles, s) && Indices(roles, t)
    requires Ascending(roles, payer, s) && Ascending(roles, payer, t)
    requires forall x: nat :: x in s <==> x in t
    ensures s == t
  {
    if s == [] {
      assert forall i :: 0 <= i < |t| ==> t[i] in s;
    } else {
      assert s[|s| - 1] in t;
      var s', t' := s[..|s| - 1], t[..|t| - 1];
      assert s[|s| - 1] == t[|t| - 1] by {
        assert t[|t| - 1] in s && s[|s| - 1] in t;
      }
      forall x: nat ensures x in s' <==> x in t' {
        DropLast(roles, payer, s, x);
        DropLast(roles, payer, t, x);
      }
      OrderUnique(roles, payer, s', t');
      assert s == s' + [s[|s| - 1]] && t == t' + [t[|t| - 1]];
    }
  }

  lemma {:induction false} AscendingDistinct(roles: seq<Role>, payer: nat, s: seq<nat>)
    requires Indices(roles, s) && Ascending(roles, payer, s)
    ensures forall i, j :: 0 <= i < j < |s| ==> s[i] != s[j]
  {
    forall i, j | 0 <= i < j < |s| ensures s[i] != s[j] {
      assert Before(roles, payer, s[i], s[j]);
    }
  }

  lemma {:induction false} DropLast(roles: seq<Role>, payer: nat, s: seq<nat>, x: nat)
    requires s != [] && Indices(roles, s) && Ascending(roles, payer, s)
    ensures x in s[..|s| - 1] <==> x in s && x != s[|s| - 1]
  {
    AscendingDistinct(roles, payer, s);
    if x in s && x != s[|s| - 1] {
      var k :| 0 <= k < |s| && s[k] == x;
      assert s[..|s| - 1][k] == x;
    }
  }

  // ---------- the inverse table

  /** The position of `x`, or the length when it does not occur. */
  function IndexOf(s: seq<nat>, x: nat): (r: nat)
    ensures r <= |s| && (x in s ==> r < |s| && s[r] == x)
  {
    if s == [] || s[0] == x then 0 else 1 + IndexOf(s[1..], x)
  }

  /** The remap table is the exact inverse of the order, on both sides. */
  lemma {:induction false} RemapInverts(roles: seq<Role>, payer: nat, n: nat)
    requires n <= |roles|
    ensures var s := Order(roles, payer, n);
      && (forall x: nat :: x < n ==> x in s && s[IndexOf(s, x)] == x)
      && (forall i :: 0 <= i < n ==> IndexOf(s, s[i]) == i)
  {
    OrderIsOrder(roles, payer, n);
    var s := Order(roles, payer, n);
    AscendingDistinct(roles, payer, s);
    forall i | 0 <= i < n ensures IndexOf(s, s[i]) == i {
      assert s[IndexOf(s, s[i])] == s[i];
    }
  }

  // ---------- role classes along the order

  function Classes(roles: seq<Role>, s: seq<nat>): (r: seq<nat>)
    requires Indices(roles, s)
    ensures |r| == |s| && forall i :: 0 <= i < |s| ==> r[i] == SortKey(roles[s[i]])
  {
    seq(|s|, i requires 0 <= i < |s| => SortKey(roles[s[i]]))
  }

  /** How many classes lie in `lo..hi`. */
  function Count(c: seq<nat>, lo: nat, hi: nat): (r: nat)
    ensures r <= |c|
  {
    if c == [] then 0
    else Count(c[..|c| - 1], lo, hi) + if lo <= c[|c| - 1] <= hi then 1 else 0
  }

  lemma {:induction false} CountNext(c: seq<nat>, i: nat, lo: nat, hi: nat)
    requires i < |c|
    ensures Count(c[..i + 1], lo, hi) == Count(c[..i], lo, hi) + if lo <= c[i] <= hi then 1 else 0
  {
    assert c[..i + 1][..i] == c[..i];
  }

  predicate NonDecreasing(c: seq<nat>)
  {
    forall i, j :: 0 <= i < j < |c| ==> c[i] <= c[j]
  }

  /** In a non-decreasing sequence the elements up to `hi` are exactly the first `Count` ones. */
  lemma {:induction false} CountIsPosition(c: seq<nat>, hi: nat)
    requires NonDecreasing(c)
    ensures forall i :: 0 <= i < |c| ==> (c[i] <= hi <==> i < Count(c, 0, hi))
  {
    if c != [] {
      var front := c[..|c| - 1];
      CountIsPosition(front, hi);
      forall i | 0 <= i < |c| ensures c[i] <= hi <==> i < Count(c, 0, hi) {
        if i < |front| {
          assert front[i] == c[i];
        } else if c[i] <= hi {
          CountAll(front, hi);
        }
      }
    }
  }

  lemma {:induction false} CountAll(c: seq<nat>, hi: nat)
    requires forall i :: 0 <= i < |c| ==> c[i] <= hi
    ensures Count(c, 0, hi) == |c|
  {
    if c != [] {
      CountAll(c[..|c| - 1], hi);
    }
  }

  lemma {:induction false} CountSplit(c: seq<nat>, mid: nat, hi: nat)
    requires 0 < mid <= hi
    ensures Count(c, 0, hi) == Count(c, 0, mid - 1) + Count(c, mid, hi)
  {
    if c != [] {
      CountSplit(c[..|c| - 1], mid, hi);
    }
  }

  /**
    The fee payer is first; it carries both flags, so the classes follow in order. Inside a class the other
    accounts keep the order in which they were inserted.
   */
  lemma {:induction false} ClassesInOrder(roles: seq<Role>, payer: nat, n: nat)
    requires payer < n <= |roles| && roles[payer] == Role(true, true)
    ensures var s := Order(roles, payer, n);
      && s[0] == payer && NonDecreasing(Classes(roles, s))
      && forall i, j :: 0 < i < j < n && Classes(roles, s)[i] == Classes(roles, s)[j] ==> s[i] < s[j]
  {
    OrderIsOrder(roles, payer, n);
    var s := Order(roles, payer, n);
    assert payer in s;
    forall j | 0 < j < |s| ensures s[j] != payer {
      assert Before(roles, payer, s[0], s[j]);
    }
    var c := Classes(roles, s);
    forall i, j | 0 <= i < j < |s| ensures c[i] <= c[j] && (0 < i && c[i] == c[j] ==> s[i] < s[j]) {
      assert Before(roles, payer, s[i], s[j]);
    }
  }

  // ---------- the in-place sort

  /** The sort of `build`: stands for the library call, on the index array it is given. */
  method SortIndices(roles: seq<Role>, payer: nat, a: array<nat>)
    requires a.Length <= |roles|
    requires forall i :: 0 <= i < a.Length ==> a[i] == i
    modifies a
    ensures a[..] == Order(roles, payer, a.Length)
  {
    for n := 0 to a.Length
      invariant a[..n] == Order(roles, payer, n)
      invariant forall i :: n <= i < a.Length ==> a[i] == i
    {
      SinkInto(roles, payer, a, n);
    }
  }

  lemma {:induction false} SwapShift(s: seq<nat>, j: nat, x: nat)
    requires 0 < j <= |s|
    ensures (s[..j] + [x] + s[j..])[j - 1 := x][j := s[j - 1]] == s[..j - 1] + [x] + s[j - 1..]
  {
  }

  lemma {:induction false} InsertShift(roles: seq<Role>, payer: nat, s: seq<nat>, j: nat, x: nat)
    requires Indices(roles, s) && x < |roles| && 0 < j <= |s| && !Before(roles, payer, s[j - 1], x)
    ensures Insert(roles, payer, s[..j], x) + s[j..] == Insert(roles, payer, s[..j - 1], x) + s[j - 1..]
  {
    assert s[..j][..j - 1] == s[..j - 1] && s[..j][j - 1] == s[j - 1];
    assert [s[j - 1]] + s[j..] == s[j - 1..];
  }

  lemma {:induction false} InsertHere(roles: seq<Role>, payer: nat, s: seq<nat>, j: nat, x: nat)
    requires Indices(roles, s) && x < |roles| && j <= |s| && (j > 0 ==> Before(roles, payer, s[j - 1], x))
    ensures Insert(roles, payer, s[..j], x) == s[..j] + [x]
  {
  }

  /** Move `a[n]` left to its place in the sorted prefix before it. */
  method SinkInto(roles: seq<Role>, payer: nat, a: array<nat>, n: nat)
    requires n < a.Length && Indices(roles, a[..n]) && a[n] < |roles|
    modifies a
    ensures a[..n + 1] == Insert(roles, payer, old(a[..n]), old(a[n]))
    ensures forall i :: n < i < a.Length ==> a[i] == old(a[i])
  {
    ghost var s := a[..n];
    var x := a[n];
    var j := n;
    assert s[..n] == s;
    while j > 0 && !Before(roles, payer, a[j - 1], x)
      invariant j <= n
      invariant a[..n + 1] == s[..j] + [x] + s[j..]
      invariant Insert(roles, payer, s, x) == Insert(roles, payer, s[..j], x) + s[j..]
      invariant forall i :: n < i < a.Length ==> a[i] == old(a[i])
    {
      assert a[j - 1] == a[..n + 1][j - 1] == s[j - 1];
      InsertShift(roles, payer, s, j, x);
      SwapShift(s, j, x);
      ghost var was := a[..n + 1];
      a[j - 1], a[j] := x, a[j - 1];
      assert a[..n + 1] == was[j - 1 := x][j := s[j - 1]];
      j := j - 1;
    }
    assert j > 0 ==> a[j - 1] == a[..n + 1][j - 1] == s[j - 1];
    InsertHere(roles, payer, s, j, x);
  }
}
