/** Sums over sequences: of natural numbers, and of multisets. */
module Sums {

  /** The total of `f` over the elements of `s`. */
  function Sum<T>(f: T -> nat, s: seq<T>): nat
  {
    if s == [] then 0 else f(s[0]) + Sum(f, s[1..])
  }

  lemma {:induction false} SumConcat<T>(f: T -> nat, a: seq<T>, b: seq<T>)
    ensures Sum(f, a + b) == Sum(f, a) + Sum(f, b)
  {
    if a == [] {
      assert a + b == b;
    } else {
      SumConcat(f, a[1..], b);
      assert (a + b)[1..] == a[1..] + b;
    }
  }

  lemma SumOne<T>(f: T -> nat, x: T)
    ensures Sum(f, [x]) == f(x)
  {
    assert [x][1..] == [];
  }

  lemma SumAppend<T>(f: T -> nat, s: seq<T>, x: T)
    ensures Sum(f, s + [x]) == Sum(f, s) + f(x)
  {
    SumConcat(f, s, [x]);
  }

  lemma SumSplit<T>(f: T -> nat, s: seq<T>, i: nat)
    requires i < |s|
    ensures Sum(f, s) == Sum(f, s[..i]) + f(s[i]) + Sum(f, s[i + 1..])
  {
    assert s == s[..i] + s[i..];
    SumConcat(f, s[..i], s[i..]);
  }

  lemma SumUpdate<T>(f: T -> nat, s: seq<T>, i: nat, x: T)
    requires i < |s|
    ensures Sum(f, s[i := x]) == Sum(f, s) - f(s[i]) + f(x)
  {
    SumSplit(f, s, i);
    SumSplit(f, s[i := x], i);
    assert s[i := x][..i] == s[..i] && s[i := x][i + 1..] == s[i + 1..];
  }

  lemma SumRemove<T>(f: T -> nat, s: seq<T>, i: nat)
    requires i < |s|
    ensures Sum(f, s[..i] + s[i + 1..]) == Sum(f, s) - f(s[i])
  {
    SumSplit(f, s, i);
    SumConcat(f, s[..i], s[i + 1..]);
  }

  lemma SumAtLeast<T>(f: T -> nat, s: seq<T>, i: nat)
    requires i < |s|
    ensures Sum(f, s) >= f(s[i])
  {
    SumSplit(f, s, i);
  }

  lemma SumAtLeastTwo<T>(f: T -> nat, s: seq<T>, i: nat, j: nat)
    requires i < j < |s|
    ensures Sum(f, s) >= f(s[i]) + f(s[j])
  {
    SumSplit(f, s, j);
    SumAtLeast(f, s[..j], i);
  }

  lemma {:induction false} SumPositive<T>(f: T -> nat, s: seq<T>) returns (i: nat)
    requires Sum(f, s) > 0
    ensures i < |s| && f(s[i]) > 0
  {
    if f(s[0]) > 0 {
      i := 0;
    } else {
      var j := SumPositive(f, s[1..]);
      i := j + 1;
    }
  }

  lemma {:induction false} SumZero<T>(f: T -> nat, s: seq<T>)
    requires forall x :: x in s ==> f(x) == 0
    ensures Sum(f, s) == 0
  {
    if s == [] {
    } else {
      assert s[0] in s;
      SumZero(f, s[1..]);
    }
  }

  lemma {:induction false} SumBound<T>(f: T -> nat, xs: seq<T>)
    requires forall x :: x in xs ==> f(x) <= 1
    ensures Sum(f, xs) <= |xs|
    ensures Sum(f, xs) == |xs| <==> forall x :: x in xs ==> f(x) == 1
  {
    if xs == [] {
    } else {
      SumBound(f, xs[1..]);
      assert xs[0] in xs;
      assert forall x :: x in xs <==> x == xs[0] || x in xs[1..];
    }
  }

  /** A sum does not depend on the order of its terms. */
  lemma {:induction false} SumPermutation<T>(f: T -> nat, a: seq<T>, b: seq<T>)
    requires multiset(a) == multiset(b)
    ensures Sum(f, a) == Sum(f, b)
    decreases |a|
  {
    if a == [] {
      assert |multiset(b)| == 0;
    } else {
      assert a[0] in multiset(b);
      var i :| 0 <= i < |b| && b[i] == a[0];
      var rest := b[..i] + b[i + 1..];
      assert b == b[..i] + [b[i]] + b[i + 1..];
      assert a == [a[0]] + a[1..];
      assert multiset(a[1..]) == multiset(a) - multiset{a[0]};
      assert multiset(rest) == multiset(b) - multiset{a[0]};
      SumPermutation(f, a[1..], rest);
      SumRemove(f, b, i);
    }
  }

  /** The union, with multiplicities, of the multisets in `s`. */
  function Union<T>(s: seq<multiset<T>>): multiset<T>
  {
    if s == [] then multiset{} else s[0] + Union(s[1..])
  }

  lemma {:induction false} UnionConcat<T>(a: seq<multiset<T>>, b: seq<multiset<T>>)
    ensures Union(a + b) == Union(a) + Union(b)
  {
    if a == [] {
      assert a + b == b;
    } else {
      UnionConcat(a[1..], b);
      assert (a + b)[1..] == a[1..] + b;
    }
  }

  lemma UnionAppend<T>(s: seq<multiset<T>>, x: multiset<T>)
    ensures Union(s + [x]) == Union(s) + x
  {
    UnionConcat(s, [x]);
    assert Union([x]) == x;
  }

  lemma UnionUpdate<T>(s: seq<multiset<T>>, i: nat, x: multiset<T>)
    requires i < |s|
    ensures Union(s[i := x]) + s[i] == Union(s) + x
  {
    var t := s[i := x];
    assert s == s[..i] + ([s[i]] + s[i + 1..]);
    assert t == s[..i] + ([x] + s[i + 1..]);
    UnionConcat(s[..i], [s[i]] + s[i + 1..]);
    UnionConcat(s[..i], [x] + s[i + 1..]);
    UnionConcat([s[i]], s[i + 1..]);
    UnionConcat([x], s[i + 1..]);
    assert Union([x]) == x && Union([s[i]]) == s[i];
  }

  lemma {:induction false} UnionEmpty<T>(s: seq<multiset<T>>)
    requires forall i :: 0 <= i < |s| ==> s[i] == multiset{}
    ensures Union(s) == multiset{}
  {
    if s == [] {
    } else {
      UnionEmpty(s[1..]);
    }
  }

  lemma Cancel<T>(a: multiset<T>, b: multiset<T>, c: multiset<T>)
    requires a + c == b + c
    ensures a == b
  {
    assert a == (a + c) - c;
    assert b == (b + c) - c;
  }

  /** Moving a part of one share into a new last share. */
  lemma UnionSplit<T>(s: seq<multiset<T>>, i: nat, here: multiset<T>)
    requires i < |s| && here <= s[i]
    ensures Union(s[i := s[i] - here] + [here]) == Union(s)
  {
    var left := s[i := s[i] - here];
    UnionAppend(left, here);
    UnionUpdate(s, i, s[i] - here);
    assert s[i] == (s[i] - here) + here;
    assert Union(left) + here + (s[i] - here) == Union(s) + (s[i] - here);
    Cancel(Union(left) + here, Union(s), s[i] - here);
  }

  /** Folding a last share, if there is one more than `n`, and something extra into share `i`. */
  lemma UnionFold<T>(s: seq<multiset<T>>, n: nat, i: nat, added: multiset<T>, extra: multiset<T>)
    requires i < n <= |s| <= n + 1
    requires added == if |s| == n then multiset{} else s[n]
    ensures Union(s[..n][i := s[i] + extra + added]) == Union(s) + extra
  {
    var kept := s[..n];
    var share := s[i] + extra + added;
    UnionUpdate(kept, i, share);
    if |s| > n {
      assert s == kept + [s[n]];
      UnionAppend(kept, s[n]);
    } else {
      assert s == kept;
    }
    Cancel(Union(kept[i := share]), Union(kept) + extra + added, s[i]);
  }

  /** The union, with multiplicities, of `f` over the elements of `s`. */
  function UnionOf<T, U>(f: T -> multiset<U>, s: seq<T>): multiset<U>
  {
    if s == [] then multiset{} else f(s[0]) + UnionOf(f, s[1..])
  }

  lemma {:induction false} UnionOfConcat<T, U>(f: T -> multiset<U>, a: seq<T>, b: seq<T>)
    ensures UnionOf(f, a + b) == UnionOf(f, a) + UnionOf(f, b)
  {
    if a == [] {
      assert a + b == b;
    } else {
      UnionOfConcat(f, a[1..], b);
      assert (a + b)[1..] == a[1..] + b;
    }
  }

  lemma UnionOfAppend<T, U>(f: T -> multiset<U>, s: seq<T>, x: T)
    ensures UnionOf(f, s + [x]) == UnionOf(f, s) + f(x)
  {
    UnionOfConcat(f, s, [x]);
    assert [x][1..] == [];
    assert UnionOf(f, [x]) == f(x);
  }

  lemma UnionOfUpdate<T, U>(f: T -> multiset<U>, s: seq<T>, i: nat, x: T)
    requires i < |s|
    ensures UnionOf(f, s[i := x]) + f(s[i]) == UnionOf(f, s) + f(x)
  {
    assert s == s[..i] + [s[i]] + s[i + 1..];
    assert s[i := x] == s[..i] + [x] + s[i + 1..];
    UnionOfConcat(f, s[..i] + [s[i]], s[i + 1..]);
    UnionOfConcat(f, s[..i] + [x], s[i + 1..]);
    UnionOfAppend(f, s[..i], s[i]);
    UnionOfAppend(f, s[..i], x);
  }

  lemma {:induction false} UnionOfEmpty<T, U>(f: T -> multiset<U>, s: seq<T>)
    requires forall x :: x in s ==> f(x) == multiset{}
    ensures UnionOf(f, s) == multiset{}
  {
    if s == [] {
    } else {
      assert s[0] in s;
      UnionOfEmpty(f, s[1..]);
    }
  }
}
