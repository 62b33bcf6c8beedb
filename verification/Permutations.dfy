/** permutations: every rearrangement of a list. The source takes the first item out,
    lists the permutations of the rest, and inserts the item at every position of each
    of them. Perms is that list; the lemmas say how long it is, that it holds exactly
    the rearrangements, and when one of them is repeated. */
module Permutations {
  import opened Common

  function Factorial(n: nat): nat {
    if n == 0 then 1 else n * Factorial(n - 1)
  }

  function InsertAt<T>(s: seq<T>, i: nat, item: T): seq<T>
    requires i <= |s|
  {
    s[..i] + [item] + s[i..]
  }

  ghost function Insertions<T>(sub: seq<T>, item: T, n: nat): seq<seq<T>>
    requires n <= |sub| + 1
  {
    seq(n, i requires 0 <= i < n => InsertAt(sub, i, item))
  }

  lemma InsertionsSnoc<T>(sub: seq<T>, item: T, i: nat)
    requires i <= |sub|
    ensures Insertions(sub, item, i + 1) == Insertions(sub, item, i) + [InsertAt(sub, i, item)]
  {}

  ghost predicate AllOfLength<T>(subs: seq<seq<T>>, n: nat) {
    forall k :: 0 <= k < |subs| ==> |subs[k]| == n
  }

  /** item at every position of every list in subs. */
  ghost function Spread<T>(subs: seq<seq<T>>, item: T, n: nat): seq<seq<T>>
    requires AllOfLength(subs, n)
  {
    if subs == [] then []
    else Spread(subs[..|subs| - 1], item, n) + Insertions(subs[|subs| - 1], item, n + 1)
  }

  ghost function Perms<T>(xs: seq<T>): seq<seq<T>>
    ensures AllOfLength(Perms(xs), |xs|)
  {
    if |xs| <= 1 then [xs]
    else
      SpreadLength(Perms(xs[1..]), xs[0], |xs| - 1);
      Spread(Perms(xs[1..]), xs[0], |xs| - 1)
  }

  lemma {:induction false} SpreadLength<T>(subs: seq<seq<T>>, item: T, n: nat)
    requires AllOfLength(subs, n)
    ensures AllOfLength(Spread(subs, item, n), n + 1)
    ensures |Spread(subs, item, n)| == |subs| * (n + 1)
  {
    if subs == [] {
    } else {
      SpreadLength(subs[..|subs| - 1], item, n);
      assert (|subs| - 1) * (n + 1) + (n + 1) == |subs| * (n + 1);
    }
  }

  method Permutations<T>(inputList: seq<T>) returns (outLists: seq<seq<T>>)
    ensures outLists == Perms(inputList)
    decreases |inputList|
  {
    outLists := [];
    if |inputList| > 1 {
      var item := inputList[0];
      var subLists := Permutations(inputList[1..]);
      ghost var n := |inputList| - 1;
      for k := 0 to |subLists|
        invariant outLists == Spread(subLists[..k], item, n)
      {
        var subList := subLists[k];
        ghost var before := outLists;
        for i := 0 to |inputList|
          invariant outLists == before + Insertions(subList, item, i)
        {
          InsertionsSnoc(subList, item, i);
          outLists := outLists + [InsertAt(subList, i, item)];
        }
        assert subLists[..k + 1][..k] == subLists[..k];
      }
      assert subLists[..|subLists|] == subLists;
    } else {
      outLists := [inputList];
    }
  }

  // ---------- how many, and which ----------

  lemma {:induction false} PermsCount<T>(xs: seq<T>)
    ensures |Perms(xs)| == Factorial(|xs|)
  {
    if |xs| > 1 {
      PermsCount(xs[1..]);
      SpreadLength(Perms(xs[1..]), xs[0], |xs| - 1);
    } else if |xs| == 1 {
      assert Factorial(1) == 1 * Factorial(0);
    }
  }

  lemma InsertBag<T>(s: seq<T>, i: nat, item: T)
    requires i <= |s|
    ensures multiset(InsertAt(s, i, item)) == multiset(s) + multiset{item}
  {
    assert s == s[..i] + s[i..];
  }

  /** Every list in the spread is an insertion into some list of subs, and conversely. */
  lemma {:induction false} SpreadMember<T>(subs: seq<seq<T>>, item: T, n: nat, j: nat) returns (k: nat, i: nat)
    requires AllOfLength(subs, n) && j < |Spread(subs, item, n)|
    ensures k < |subs| && i <= n && Spread(subs, item, n)[j] == InsertAt(subs[k], i, item)
    ensures j == k * (n + 1) + i
  {
    var front := subs[..|subs| - 1];
    SpreadLength(front, item, n);
    var m := |Spread(front, item, n)|;
    if j < m {
      k, i := SpreadMember(front, item, n, j);
    } else {
      k, i := |subs| - 1, j - m;
    }
  }

  lemma {:induction false} SpreadAt<T>(subs: seq<seq<T>>, item: T, n: nat, k: nat, i: nat)
    requires AllOfLength(subs, n) && k < |subs| && i <= n
    ensures k * (n + 1) + i < |Spread(subs, item, n)|
    ensures Spread(subs, item, n)[k * (n + 1) + i] == InsertAt(subs[k], i, item)
  {
    var last := |subs| - 1;
    SpreadLength(subs[..last], item, n);
    if k >= last {
    } else {
      SpreadAt(subs[..last], item, n, k, i);
    }
  }

  lemma SpreadHas<T>(subs: seq<seq<T>>, item: T, n: nat, k: nat, i: nat) returns (j: nat)
    requires AllOfLength(subs, n) && k < |subs| && i <= n
    ensures j < |Spread(subs, item, n)| && Spread(subs, item, n)[j] == InsertAt(subs[k], i, item)
  {
    SpreadAt(subs, item, n, k, i);
    j := k * (n + 1) + i;
  }

  lemma SpreadHasBoth<T>(subs: seq<seq<T>>, item: T, n: nat, k: nat, i: nat, l: nat, j: nat) returns (a: nat, b: nat)
    requires AllOfLength(subs, n) && k <= l < |subs| && i <= n && j <= n && (k == l ==> i < j)
    ensures a < b < |Spread(subs, item, n)|
    ensures Spread(subs, item, n)[a] == InsertAt(subs[k], i, item)
    ensures Spread(subs, item, n)[b] == InsertAt(subs[l], j, item)
  {
    SpreadAt(subs, item, n, k, i);
    SpreadAt(subs, item, n, l, j);
    a, b := k * (n + 1) + i, l * (n + 1) + j;
    LaterOn(k, i, l, j, n);
  }

  lemma LaterOn(k: nat, i: nat, l: nat, j: nat, n: nat)
    requires k <= l && i <= n && (k == l ==> i < j)
    ensures k * (n + 1) + i < l * (n + 1) + j
  {
    if k < l { FurtherOn(k, l, n + 1); }
  }

  lemma FurtherOn(k: nat, l: nat, m: nat)
    requires k < l
    ensures k * m + m <= l * m
  {
    assert (k + 1) * m <= l * m;
  }

  /** Each list is a rearrangement of the input. */
  lemma {:induction false} PermsSound<T>(xs: seq<T>, j: nat)
    requires j < |Perms(xs)|
    ensures multiset(Perms(xs)[j]) == multiset(xs)
  {
    if |xs| <= 1 {
    } else {
      var k, i := SpreadMember(Perms(xs[1..]), xs[0], |xs| - 1, j);
      PermsSound(xs[1..], k);
      InsertBag(Perms(xs[1..])[k], i, xs[0]);
      assert xs == [xs[0]] + xs[1..];
    }
  }

  lemma TakeOut<T>(ys: seq<T>, xs: seq<T>) returns (i: nat)
    requires xs != [] && multiset(ys) == multiset(xs)
    ensures i < |ys| && ys[i] == xs[0]
    ensures multiset(ys[..i] + ys[i + 1..]) == multiset(xs[1..])
  {
    assert xs == [xs[0]] + xs[1..];
    assert xs[0] in multiset(ys);
    i :| 0 <= i < |ys| && ys[i] == xs[0];
    assert ys == ys[..i] + [ys[i]] + ys[i + 1..];
    assert multiset(ys[..i] + ys[i + 1..]) == multiset(ys) - multiset{ys[i]};
    assert multiset(xs[1..]) == multiset(xs) - multiset{xs[0]};
  }

  /** Each rearrangement is among the lists. */
  lemma {:induction false} PermsComplete<T>(xs: seq<T>, ys: seq<T>) returns (j: nat)
    requires multiset(ys) == multiset(xs)
    ensures j < |Perms(xs)| && Perms(xs)[j] == ys
    decreases |xs|
  {
    assert |multiset(xs)| == |xs| && |multiset(ys)| == |ys|;
    if |xs| <= 1 {
      if |xs| == 1 { assert ys[0] in multiset(xs); }
      j := 0;
    } else {
      var i := TakeOut(ys, xs);
      var rest := ys[..i] + ys[i + 1..];
      var k := PermsComplete(xs[1..], rest);
      j := SpreadHas(Perms(xs[1..]), xs[0], |xs| - 1, k, i);
      InsertBack(ys, i);
    }
  }

  lemma InsertBack<T>(ys: seq<T>, i: nat)
    requires i < |ys|
    ensures InsertAt(ys[..i] + ys[i + 1..], i, ys[i]) == ys
  {
    var rest := ys[..i] + ys[i + 1..];
    assert rest[..i] == ys[..i] && rest[i..] == ys[i + 1..];
  }

  // ---------- duplicates ----------

  lemma InsertInjective<T>(s: seq<T>, i: nat, t: seq<T>, j: nat, item: T)
    requires i <= |s| && j <= |t| && |s| == |t|
    requires item !in s && item !in t && InsertAt(s, i, item) == InsertAt(t, j, item)
    ensures i == j && s == t
  {
    var u := InsertAt(s, i, item);
    assert u[i] == item && u[j] == item;
    assert forall k :: 0 <= k < |u| && k != i ==> u[k] in s;
    assert i == j;
    forall k | 0 <= k < |s| ensures s[k] == t[k] {
      assert s[k] == u[if k < i then k else k + 1];
      assert t[k] == u[if k < i then k else k + 1];
    }
  }

  lemma HeadNotInPerm<T>(xs: seq<T>, k: nat)
    requires xs != [] && Distinct(xs) && k < |Perms(xs[1..])|
    ensures xs[0] !in Perms(xs[1..])[k]
  {
    PermsSound(xs[1..], k);
    assert forall x :: x in Perms(xs[1..])[k] <==> x in multiset(xs[1..]);
  }

  lemma {:induction false} DistinctPerms<T>(xs: seq<T>, a: nat, b: nat)
    requires Distinct(xs) && a < b < |Perms(xs)|
    ensures Perms(xs)[a] != Perms(xs)[b]
  {
    if |xs| > 1 && Perms(xs)[a] == Perms(xs)[b] {
      var subs := Perms(xs[1..]);
      var k, i := SpreadMember(subs, xs[0], |xs| - 1, a);
      var l, j := SpreadMember(subs, xs[0], |xs| - 1, b);
      HeadNotInPerm(xs, k);
      HeadNotInPerm(xs, l);
      InsertInjective(subs[k], i, subs[l], j, xs[0]);
      if k < l { DistinctPerms(xs[1..], k, l); } else if l < k { DistinctPerms(xs[1..], l, k); }
    }
  }

  lemma {:induction false} RepeatedPerms<T>(xs: seq<T>) returns (a: nat, b: nat)
    requires !Distinct(xs)
    ensures a < b < |Perms(xs)| && Perms(xs)[a] == Perms(xs)[b]
  {
    if !Distinct(xs[1..]) {
      var k, l := RepeatedPerms(xs[1..]);
      a, b := RepeatedTail(xs, k, l);
    } else {
      var q := HeadRepeated(xs);
      a, b := RepeatedHead(xs, q);
    }
  }

  lemma RepeatedTail<T>(xs: seq<T>, k: nat, l: nat) returns (a: nat, b: nat)
    requires |xs| > 1 && k < l < |Perms(xs[1..])| && Perms(xs[1..])[k] == Perms(xs[1..])[l]
    ensures a < b < |Perms(xs)| && Perms(xs)[a] == Perms(xs)[b]
  {
    a, b := SpreadHasBoth(Perms(xs[1..]), xs[0], |xs| - 1, k, 0, l, 0);
  }

  /** The first item inserted on either side of its equal. */
  lemma RepeatedHead<T>(xs: seq<T>, q: nat) returns (a: nat, b: nat)
    requires 1 <= q < |xs| && xs[1..][q - 1] == xs[0]
    ensures a < b < |Perms(xs)| && Perms(xs)[a] == Perms(xs)[b]
  {
    var k := PermsComplete(xs[1..], xs[1..]);
    a, b := InsertedTwice(Perms(xs[1..]), xs[0], |xs| - 1, k, q);
  }

  lemma InsertedTwice<T>(subs: seq<seq<T>>, item: T, n: nat, k: nat, q: nat) returns (a: nat, b: nat)
    requires AllOfLength(subs, n) && k < |subs| && 1 <= q <= n && |subs[k]| == n && subs[k][q - 1] == item
    ensures a < b < |Spread(subs, item, n)| && Spread(subs, item, n)[a] == Spread(subs, item, n)[b]
  {
    a, b := SpreadHasBoth(subs, item, n, k, q - 1, k, q);
    InsertBesideItself(subs[k], q, item);
  }

  lemma InsertBesideItself<T>(s: seq<T>, q: nat, item: T)
    requires 1 <= q <= |s| && s[q - 1] == item
    ensures InsertAt(s, q - 1, item) == InsertAt(s, q, item)
  {}

  lemma HeadRepeated<T>(xs: seq<T>) returns (q: nat)
    requires !Distinct(xs) && |xs| > 0 && Distinct(xs[1..])
    ensures 1 <= q < |xs| && xs[q] == xs[0] && xs[1..][q - 1] == xs[0]
  {
    var i, j :| 0 <= i < j < |xs| && xs[i] == xs[j];
    assert xs[j] == xs[1..][j - 1];
    q := j;
  }

  /** No list is repeated exactly when no input item is. */
  lemma NoRepeatsIff<T>(xs: seq<T>)
    ensures Distinct(Perms(xs)) <==> Distinct(xs)
  {
    if Distinct(xs) {
      forall a, b | 0 <= a < b < |Perms(xs)| ensures Perms(xs)[a] != Perms(xs)[b] {
        DistinctPerms(xs, a, b);
      }
    } else {
      var a, b := RepeatedPerms(xs);
    }
  }

  lemma TwoEqualItems<T>(x: T)
    ensures Perms([x, x]) == [[x, x], [x, x]]
  {
    assert [x, x][1..] == [x] && Perms([x]) == [[x]] && [[x]][..0] == [];
    assert Spread([[x]], x, 1) == [] + Insertions([x], x, 2);
    assert InsertAt([x], 0, x) == [x, x] && InsertAt([x], 1, x) == [x, x];
    assert Insertions([x], x, 2) == [[x, x], [x, x]];
  }
}
