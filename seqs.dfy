/** Sequence combinators standing for Python list comprehensions and filters. */
module Seqs {

  /** `[f(x) for x in s]`. */
  function Map<A, B>(f: A -> B, s: seq<A>): (r: seq<B>)
    ensures |r| == |s|
    ensures forall i :: 0 <= i < |s| ==> r[i] == f(s[i])
  {
    seq(|s|, i requires 0 <= i < |s| => f(s[i]))
  }

  lemma MapConcat<A, B>(f: A -> B, s: seq<A>, t: seq<A>)
    ensures Map(f, s + t) == Map(f, s) + Map(f, t)
  {
    assert forall i :: 0 <= i < |s + t| ==> Map(f, s + t)[i] == (Map(f, s) + Map(f, t))[i];
  }

  lemma MapCons<A, B>(f: A -> B, s: seq<A>)
    requires s != []
    ensures Map(f, s) == [f(s[0])] + Map(f, s[1..])
  {
  }

  /** `[x for x in s if p(x)]`: the elements that satisfy `p`, in their original order. */
  function Filter<A>(p: A -> bool, s: seq<A>): (r: seq<A>)
    ensures |r| <= |s|
  {
    if s == [] then [] else (if p(s[0]) then [s[0]] else []) + Filter(p, s[1..])
  }

  /** The filter keeps exactly the elements that satisfy `p`. */
  lemma {:induction false} FilterMembers<A>(p: A -> bool, s: seq<A>)
    ensures forall x :: x in Filter(p, s) <==> x in s && p(x)
  {
    if s != [] {
      FilterMembers(p, s[1..]);
      assert s == [s[0]] + s[1..];
    }
  }

  /** Each element of the filter is an element of `s` that satisfies `p`. */
  lemma {:induction false} FilterElem<A>(p: A -> bool, s: seq<A>, j: nat)
    requires j < |Filter(p, s)|
    ensures Filter(p, s)[j] in s && p(Filter(p, s)[j])
  {
    var head := if p(s[0]) then [s[0]] else [];
    assert Filter(p, s) == head + Filter(p, s[1..]);
    if j < |head| {
      assert Filter(p, s)[j] == s[0];
    } else {
      FilterElem(p, s[1..], j - |head|);
      assert Filter(p, s)[j] == Filter(p, s[1..])[j - |head|];
      assert forall y :: y in s[1..] ==> y in s;
    }
  }

  lemma {:induction false} FilterConcat<A>(p: A -> bool, s: seq<A>, t: seq<A>)
    ensures Filter(p, s + t) == Filter(p, s) + Filter(p, t)
  {
    if s == [] {
      assert s + t == t;
    } else {
      var head := if p(s[0]) then [s[0]] else [];
      assert (s + t)[0] == s[0];
      assert (s + t)[1..] == s[1..] + t;
      FilterConcat(p, s[1..], t);
      assert Filter(p, s + t) == head + (Filter(p, s[1..]) + Filter(p, t));
    }
  }

  /** Nothing of `s` satisfies `p`: the filter keeps nothing. */
  lemma {:induction false} FilterNone<A>(p: A -> bool, s: seq<A>)
    requires forall x :: x in s ==> !p(x)
    ensures Filter(p, s) == []
  {
    if s != [] {
      assert forall x :: x in s[1..] ==> x in s;
      FilterNone(p, s[1..]);
    }
  }

  /** Everything in `s` satisfies `p`: the filter keeps all of it. */
  lemma {:induction false} FilterAll<A>(p: A -> bool, s: seq<A>)
    requires forall x :: x in s ==> p(x)
    ensures Filter(p, s) == s
  {
    if s != [] {
      assert forall x :: x in s[1..] ==> x in s;
      FilterAll(p, s[1..]);
      assert [s[0]] + s[1..] == s;
    }
  }

  /** A kept head, a middle part, and a tail of which nothing is kept. */
  lemma FilterKeepHead<A>(p: A -> bool, x: A, a: seq<A>, b: seq<A>)
    requires p(x) && forall y :: y in b ==> !p(y)
    ensures Filter(p, [x] + (a + b)) == [x] + Filter(p, a)
  {
    FilterConcat(p, [x], a + b);
    FilterConcat(p, a, b);
    FilterNone(p, b);
  }

  /** A dropped head, a middle part, and a tail that is kept whole. */
  lemma FilterDropHead<A>(p: A -> bool, x: A, a: seq<A>, b: seq<A>)
    requires !p(x) && forall y :: y in b ==> p(y)
    ensures Filter(p, [x] + (a + b)) == Filter(p, a) + b
  {
    FilterConcat(p, [x], a + b);
    FilterConcat(p, a, b);
    FilterAll(p, b);
  }

  /** A kept head, a middle part of which nothing is kept, and a tail. */
  lemma FilterSkipMiddle<A>(p: A -> bool, x: A, a: seq<A>, b: seq<A>)
    requires p(x) && Filter(p, a) == []
    ensures Filter(p, [x] + a + b) == [x] + Filter(p, b)
  {
    FilterConcat(p, [x] + a, b);
    FilterConcat(p, [x], a);
  }

  /** Every element passes `p` or fails it, so the two filters share out the whole sequence. */
  lemma {:induction false} FilterComplement<A>(p: A -> bool, q: A -> bool, s: seq<A>)
    requires forall x :: q(x) == !p(x)
    ensures |Filter(p, s)| + |Filter(q, s)| == |s|
  {
    if s != [] {
      FilterComplement(p, q, s[1..]);
    }
  }

  /** The sum of a sequence of naturals. */
  function Sum(s: seq<nat>): nat {
    if s == [] then 0 else s[0] + Sum(s[1..])
  }

  lemma {:induction false} SumConcat(s: seq<nat>, t: seq<nat>)
    ensures Sum(s + t) == Sum(s) + Sum(t)
  {
    if s == [] {
      assert s + t == t;
    } else {
      assert (s + t)[1..] == s[1..] + t;
      SumConcat(s[1..], t);
    }
  }

  /** The elements of the pieces, one piece after the other. */
  function Flatten<A>(ss: seq<seq<A>>): seq<A> {
    if ss == [] then [] else ss[0] + Flatten(ss[1..])
  }

  lemma {:induction false} FlattenConcat<A>(a: seq<seq<A>>, b: seq<seq<A>>)
    ensures Flatten(a + b) == Flatten(a) + Flatten(b)
  {
    if a == [] {
      assert a + b == b;
    } else {
      var c := a + b;
      assert c[0] == a[0] && c[1..] == a[1..] + b;
      assert Flatten(c) == a[0] + Flatten(a[1..] + b);
      FlattenConcat(a[1..], b);
      AppendAssoc(a[0], Flatten(a[1..]), Flatten(b));
    }
  }

  /** Each element of `ts` paired with `d`. */
  function Tag<D, T>(d: D, ts: seq<T>): (r: seq<(D, T)>)
    ensures |r| == |ts|
    ensures forall i :: 0 <= i < |ts| ==> r[i] == (d, ts[i])
  {
    seq(|ts|, i requires 0 <= i < |ts| => (d, ts[i]))
  }

  lemma TagConcat<D, T>(d: D, a: seq<T>, b: seq<T>)
    ensures Tag(d, a + b) == Tag(d, a) + Tag(d, b)
  {
  }

  lemma TakeSnoc<A>(s: seq<A>, j: nat)
    requires j < |s|
    ensures s[..j + 1] == s[..j] + [s[j]]
  {
  }

  lemma TakeDrop<A>(s: seq<A>, n: nat)
    requires n <= |s|
    ensures s == s[..n] + s[n..]
  {
  }

  lemma SplitAt<A>(s: seq<A>, i: nat)
    requires i < |s|
    ensures s == s[..i] + ([s[i]] + s[i + 1..])
  {
    assert s[i..] == [s[i]] + s[i + 1..];
    TakeDrop(s, i);
  }

  /** A slice holds nothing its sequence does not. */
  lemma SliceAbsent<A>(s: seq<A>, i: nat, j: nat, x: A)
    requires i <= j <= |s| && x !in s
    ensures x !in s[i..j]
  {
    assert forall k :: 0 <= k < j - i ==> s[i..j][k] == s[i + k];
  }

  lemma SplitLast<A>(s: seq<A>)
    requires s != []
    ensures s == s[..|s| - 1] + [s[|s| - 1]]
  {
  }

  lemma AppendSnoc<A>(a: seq<A>, b: seq<A>)
    requires b != []
    ensures a + b == (a + b[..|b| - 1]) + [b[|b| - 1]]
  {
    SplitLast(b);
  }

  lemma AppendAssoc<A>(a: seq<A>, b: seq<A>, c: seq<A>)
    ensures a + (b + c) == (a + b) + c
  {
  }

  /** The pieces made from `s` flatten to those of the elements before `i`, then that of `s[i]`,
      then those of the elements after it. */
  lemma FlattenMapAt<A, B>(f: A -> seq<B>, s: seq<A>, i: nat)
    requires i < |s|
    ensures Flatten(Map(f, s)) == Flatten(Map(f, s[..i])) + (f(s[i]) + Flatten(Map(f, s[i + 1..])))
  {
    assert s == s[..i] + ([s[i]] + s[i + 1..]);
    MapConcat(f, s[..i], [s[i]] + s[i + 1..]);
    MapConcat(f, [s[i]], s[i + 1..]);
    FlattenConcat(Map(f, s[..i]), Map(f, [s[i]] + s[i + 1..]));
    assert Map(f, [s[i]]) == [f(s[i])];
    FlattenConcat([f(s[i])], Map(f, s[i + 1..]));
    assert Flatten([f(s[i])]) == f(s[i]) + [];
  }

  lemma FlattenSingle<A>(x: seq<A>)
    ensures Flatten([x]) == x
  {
    assert [x][1..] == [];
  }
}
