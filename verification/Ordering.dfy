/** Python's order on strings, sorted(), and what determines its result. */
module Ordering {
  predicate Leq(a: string, b: string) {
    a == [] || (b != [] && (a[0] < b[0] || (a[0] == b[0] && Leq(a[1..], b[1..]))))
  }

  // a and b agree before i, where a has the smaller character.
  predicate SmallerAt(a: string, b: string, i: nat) {
    i < |a| && i < |b| && a[..i] == b[..i] && a[i] < b[i]
  }

  lemma SmallerAtNext(a: string, b: string, i: nat)
    requires a != [] && b != [] && a[0] == b[0]
    ensures SmallerAt(a, b, i + 1) <==> SmallerAt(a[1..], b[1..], i)
  {
    if i + 1 < |a| && i + 1 < |b| {
      assert a[..i + 1] == [a[0]] + a[1..][..i] && b[..i + 1] == [b[0]] + b[1..][..i];
    }
  }

  // A prefix comes first, and so does the string that has the smaller
  // character where they first differ.
  lemma {:induction false} LeqIff(a: string, b: string)
    ensures Leq(a, b) <==> a <= b || exists i :: SmallerAt(a, b, i)
  {
    if a != [] && b != [] {
      if a[0] == b[0] {
        LeqIff(a[1..], b[1..]);
        assert a == [a[0]] + a[1..] && b == [b[0]] + b[1..];
        forall i: nat ensures SmallerAt(a, b, i + 1) <==> SmallerAt(a[1..], b[1..], i) {
          SmallerAtNext(a, b, i);
        }
        forall i: nat | SmallerAt(a, b, i) ensures i > 0 && SmallerAt(a[1..], b[1..], i - 1) {
          SmallerAtNext(a, b, i - 1);
        }
      } else {
        FirstDiffers(a, b);
      }
    }
  }

  lemma FirstDiffers(a: string, b: string)
    requires a != [] && b != [] && a[0] != b[0]
    ensures SmallerAt(a, b, 0) <==> a[0] < b[0]
    ensures forall i :: SmallerAt(a, b, i) ==> i == 0
  {
    forall i: nat | SmallerAt(a, b, i) ensures i == 0 {
      AgreeBefore(a, b, i);
    }
  }

  lemma AgreeBefore(a: string, b: string, i: nat)
    requires SmallerAt(a, b, i)
    ensures i > 0 ==> a[0] == b[0]
  {
    if i > 0 {
      assert a[..i][0] == b[..i][0];
    }
  }

  lemma {:induction false} LeqTotal(a: string, b: string)
    ensures Leq(a, b) || Leq(b, a)
  {
    if a != [] && b != [] && a[0] == b[0] {
      LeqTotal(a[1..], b[1..]);
    }
  }

  lemma {:induction false} LeqAntisymmetric(a: string, b: string)
    requires Leq(a, b) && Leq(b, a)
    ensures a == b
  {
    if a == [] {
    } else {
      LeqAntisymmetric(a[1..], b[1..]);
      assert a == [a[0]] + a[1..] && b == [b[0]] + b[1..];
    }
  }

  lemma {:induction false} LeqTransitive(a: string, b: string, c: string)
    requires Leq(a, b) && Leq(b, c)
    ensures Leq(a, c)
  {
    if a != [] && a[0] == b[0] == c[0] {
      LeqTransitive(a[1..], b[1..], c[1..]);
    }
  }

  // Nothing in s comes before x.
  ghost predicate Below(x: string, s: seq<string>) {
    forall y :: y in s ==> Leq(x, y)
  }

  ghost predicate Sorted(s: seq<string>) {
    s == [] || (Below(s[0], s[1..]) && Sorted(s[1..]))
  }

  function Insert(x: string, s: seq<string>): (t: seq<string>)
    ensures multiset(t) == multiset{x} + multiset(s)
  {
    if s == [] || Leq(x, s[0]) then [x] + s
    else
      assert s == [s[0]] + s[1..];
      [s[0]] + Insert(x, s[1..])
  }

  // sorted(s)
  function Sort(s: seq<string>): (t: seq<string>)
    ensures multiset(t) == multiset(s) && |t| == |s|
  {
    if s == [] then []
    else
      assert s == [s[0]] + s[1..];
      var t := Insert(s[0], Sort(s[1..]));
      assert |multiset(t)| == |multiset(s)|;
      t
  }

  lemma {:induction false} InsertSorted(x: string, s: seq<string>)
    requires Sorted(s)
    ensures Sorted(Insert(x, s))
  {
    if s == [] {
    } else {
      if Leq(x, s[0]) {
        forall y | y in s ensures Leq(x, y) {
          if y != s[0] {
            assert y in s[1..];
            LeqTransitive(x, s[0], y);
          }
        }
        assert ([x] + s)[1..] == s;
      } else {
        LeqTotal(x, s[0]);
        InsertSorted(x, s[1..]);
        var t := Insert(x, s[1..]);
        forall y | y in t ensures Leq(s[0], y) {
          assert y in multiset(t);
          assert y == x || y in multiset(s[1..]);
        }
        assert ([s[0]] + t)[1..] == t;
      }
    }
  }

  lemma {:induction false} SortSorted(s: seq<string>)
    ensures Sorted(Sort(s))
  {
    if s == [] {
    } else {
      SortSorted(s[1..]);
      InsertSorted(s[0], Sort(s[1..]));
    }
  }

  // There is only one way to sort a collection of strings.
  lemma {:induction false} SortedUnique(s: seq<string>, t: seq<string>)
    requires Sorted(s) && Sorted(t) && multiset(s) == multiset(t)
    ensures s == t
  {
    assert |s| == |multiset(s)| == |multiset(t)| == |t|;
    if s == [] {
    } else {
      SameHead(s, t);
      TailOf(s);
      TailOf(t);
      SortedUnique(s[1..], t[1..]);
      assert s == [s[0]] + s[1..] && t == [t[0]] + t[1..];
    }
  }

  lemma TailOf(s: seq<string>)
    requires s != []
    ensures multiset(s[1..]) == multiset(s) - multiset{s[0]}
  {
    assert s == [s[0]] + s[1..];
  }

  lemma SameHead(s: seq<string>, t: seq<string>)
    requires Sorted(s) && Sorted(t) && multiset(s) == multiset(t) && s != [] && t != []
    ensures s[0] == t[0]
  {
    assert s[0] in multiset(s) && t[0] in multiset(t);
    HeadIsLeast(s, t[0]);
    HeadIsLeast(t, s[0]);
    LeqAntisymmetric(s[0], t[0]);
  }

  lemma HeadIsLeast(s: seq<string>, x: string)
    requires Sorted(s) && x in s
    ensures Leq(s[0], x)
  {
    if x == s[0] {
      LeqTotal(x, x);
    } else {
      assert x in s[1..];
    }
  }

  // So the order in which a dict lists them makes no difference.
  lemma SortIgnoresOrder(s: seq<string>, t: seq<string>)
    requires multiset(s) == multiset(t)
    ensures Sort(s) == Sort(t)
  {
    SortSorted(s);
    SortSorted(t);
    SortedUnique(Sort(s), Sort(t));
  }

  lemma {:induction false} SortedIndices(s: seq<string>, i: nat, j: nat)
    requires Sorted(s) && i < j < |s|
    ensures Leq(s[i], s[j])
  {
    if i == 0 {
      assert s[j] == s[1..][j - 1];
    } else {
      SortedIndices(s[1..], i - 1, j - 1);
    }
  }

  lemma {:induction false} SortedByIndices(s: seq<string>)
    requires forall i, j :: 0 <= i < j < |s| ==> Leq(s[i], s[j])
    ensures Sorted(s)
  {
    if s == [] {
    } else {
      SortedByIndices(s[1..]);
    }
  }

  // [f(x) for x in s]
  function Map<A, B>(f: A -> B, s: seq<A>): (t: seq<B>)
    ensures |t| == |s| && forall i :: 0 <= i < |s| ==> t[i] == f(s[i])
  {
    seq(|s|, i requires 0 <= i < |s| => f(s[i]))
  }

  lemma MapPrefix<A, B>(f: A -> B, s: seq<A>, i: nat)
    requires i < |s|
    ensures Map(f, s[..i + 1]) == Map(f, s[..i]) + [f(s[i])]
  {}

  // s with item i left out
  function Without<A>(s: seq<A>, i: nat): (t: seq<A>)
    requires i < |s|
    ensures |t| == |s| - 1
  {
    s[..i] + s[i + 1..]
  }

  lemma TakeOut<A>(s: seq<A>, i: nat)
    requires i < |s|
    ensures multiset(s) == multiset{s[i]} + multiset(Without(s, i))
  {
    assert s == s[..i] + [s[i]] + s[i + 1..];
  }

  lemma MapTakeOut<A, B>(f: A -> B, s: seq<A>, i: nat)
    requires i < |s|
    ensures multiset(Map(f, s)) == multiset{f(s[i])} + multiset(Map(f, Without(s, i)))
  {
    TakeOut(Map(f, s), i);
    assert Map(f, Without(s, i)) == Without(Map(f, s), i);
  }

  lemma SameRest<A>(s: seq<A>, i: nat, t: seq<A>, j: nat)
    requires multiset(s) == multiset(t) && i < |s| && j < |t| && s[i] == t[j]
    ensures multiset(Without(s, i)) == multiset(Without(t, j))
  {
    TakeOut(s, i);
    TakeOut(t, j);
    Cancel(s[i], multiset(Without(s, i)), multiset(Without(t, j)));
  }

  lemma Cancel<A>(x: A, a: multiset<A>, b: multiset<A>)
    requires multiset{x} + a == multiset{x} + b
    ensures a == b
  {
    forall y ensures a[y] == b[y] {
      assert (multiset{x} + a)[y] == (multiset{x} + b)[y];
    }
  }

  lemma {:induction false} MapKeepsMultiset<A, B>(f: A -> B, s: seq<A>, t: seq<A>)
    requires multiset(s) == multiset(t)
    ensures multiset(Map(f, s)) == multiset(Map(f, t))
    decreases |s|
  {
    assert |s| == |multiset(s)| == |multiset(t)| == |t|;
    if s == [] {
    } else {
      var i := PlaceOf(s[0], s, t);
      SameRest(s, 0, t, i);
      MapKeepsMultiset(f, Without(s, 0), Without(t, i));
      MapTakeOut(f, s, 0);
      MapTakeOut(f, t, i);
    }
  }

  lemma PlaceOf<A>(x: A, s: seq<A>, t: seq<A>) returns (i: nat)
    requires x in s && multiset(s) == multiset(t)
    ensures i < |t| && t[i] == x
  {
    assert x in multiset(t) by { assert x in multiset(s); }
    i :| 0 <= i < |t| && t[i] == x;
  }
}
