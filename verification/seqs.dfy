/** Small sequence vocabulary shared by the model. */
module Seqs {

  predicate Distinct<T(==)>(s: seq<T>) {
    forall i, j :: 0 <= i < j < |s| ==> s[i] != s[j]
  }

  lemma DistinctAppend<T>(a: seq<T>, b: seq<T>)
    requires Distinct(a) && Distinct(b)
    requires forall i, j :: 0 <= i < |a| && 0 <= j < |b| ==> a[i] != b[j]
    ensures Distinct(a + b)
  {
    forall i, j | 0 <= i < j < |a + b|
      ensures (a + b)[i] != (a + b)[j]
    {
      if j < |a| {
      } else if i >= |a| {
        assert (a + b)[i] == b[i - |a|];
      } else {
        assert (a + b)[j] == b[j - |a|];
      }
    }
  }

  function Flatten<T>(ss: seq<seq<T>>): (r: seq<T>)
  {
    if |ss| == 0 then [] else ss[0] + Flatten(ss[1..])
  }

  lemma {:induction false} FlattenAppend<T>(a: seq<seq<T>>, b: seq<seq<T>>)
    ensures Flatten(a + b) == Flatten(a) + Flatten(b)
  {
    if |a| == 0 {
      assert a + b == b;
    } else {
      assert (a + b)[1..] == a[1..] + b;
      FlattenAppend(a[1..], b);
    }
  }

  lemma {:induction false} FlattenMember<T>(ss: seq<seq<T>>, x: T)
    ensures x in Flatten(ss) <==> exists k :: 0 <= k < |ss| && x in ss[k]
  {
    if |ss| > 0 {
      FlattenMember(ss[1..], x);
      if x in Flatten(ss[1..]) {
        var k :| 0 <= k < |ss[1..]| && x in ss[1..][k];
        assert x in ss[k + 1];
      }
      if exists k :: 0 <= k < |ss| && x in ss[k] {
        var k :| 0 <= k < |ss| && x in ss[k];
        if k > 0 {
          assert x in ss[1..][k - 1];
        }
      }
    }
  }

  function SumLengths<T>(ss: seq<seq<T>>): (r: nat)
  {
    if |ss| == 0 then 0 else |ss[0]| + SumLengths(ss[1..])
  }

  lemma {:induction false} FlattenLength<T>(ss: seq<seq<T>>)
    ensures |Flatten(ss)| == SumLengths(ss)
  {
    if |ss| > 0 {
      FlattenLength(ss[1..]);
    }
  }

  lemma AppendAssoc<T>(a: seq<T>, b: seq<T>, c: seq<T>)
    ensures (a + b) + c == a + (b + c)
  {
  }

  lemma ConsParts<T>(x: T, s: seq<T>)
    ensures ([x] + s)[0] == x && ([x] + s)[1..] == s
  {
  }

  /** Concatenating lists that are each repetition-free and pairwise disjoint gives a
      repetition-free list. */
  lemma {:induction false} FlattenDistinct<T>(ss: seq<seq<T>>)
    requires forall k :: 0 <= k < |ss| ==> Distinct(ss[k])
    requires forall a, b, x :: 0 <= a < b < |ss| && x in ss[a] ==> x !in ss[b]
    ensures Distinct(Flatten(ss))
  {
    if |ss| > 0 {
      var tl := ss[1..];
      assert forall k :: 0 <= k < |tl| ==> tl[k] == ss[k + 1];
      FlattenDistinct(tl);
      var rest := Flatten(tl);
      forall i, j | 0 <= i < |ss[0]| && 0 <= j < |rest|
        ensures ss[0][i] != rest[j]
      {
        FlattenMember(tl, rest[j]);
        assert rest[j] in rest;
        var k :| 0 <= k < |tl| && rest[j] in tl[k];
        assert ss[0][i] in ss[0];
      }
      DistinctAppend(ss[0], rest);
    }
  }

  function Elements<T>(s: seq<T>): set<T> {
    set x | x in s
  }

  /** A repetition-free list has as many entries as it has distinct elements. */
  lemma {:induction false} DistinctCard<T>(s: seq<T>)
    requires Distinct(s)
    ensures |Elements(s)| == |s|
  {
    if |s| > 0 {
      var tl := s[1..];
      assert Distinct(tl) by {
        forall a, b | 0 <= a < b < |tl| ensures tl[a] != tl[b] {
          assert tl[a] == s[a + 1] && tl[b] == s[b + 1];
        }
      }
      DistinctCard(tl);
      assert Elements(s) == {s[0]} + Elements(tl) by {
        assert s == [s[0]] + tl;
      }
      assert s[0] !in Elements(tl) by {
        forall b | 0 <= b < |tl| ensures tl[b] != s[0] {
          assert tl[b] == s[b + 1];
        }
      }
    }
  }
}
