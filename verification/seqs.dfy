/** Generic sequence operations mirroring the JavaScript array methods the exporter uses. */
module Seqs {

  /** `Array.prototype.filter`: the elements satisfying `p`, in their original order. */
  function Filter<T>(p: T -> bool, s: seq<T>): (r: seq<T>)
    ensures |r| <= |s|
    ensures forall i :: 0 <= i < |r| ==> p(r[i])
    ensures forall i :: 0 <= i < |r| ==> r[i] in s
    ensures forall i :: 0 <= i < |s| && p(s[i]) ==> s[i] in r
    ensures (forall i :: 0 <= i < |s| ==> p(s[i])) ==> r == s
  {
    if |s| == 0 then []
    else (if p(s[0]) then [s[0]] else []) + Filter(p, s[1..])
  }

  /** Filtering distributes over concatenation, so survivors keep their relative order. */
  lemma {:induction false} FilterAppend<T>(p: T -> bool, a: seq<T>, b: seq<T>)
    ensures Filter(p, a + b) == Filter(p, a) + Filter(p, b)
  {
    if |a| == 0 {
      assert a + b == b;
    } else {
      assert (a + b)[1..] == a[1..] + b;
      FilterAppend(p, a[1..], b);
    }
  }

  /**
   * Filtering keeps every copy of each element satisfying `p` and no copy of
   * any other: with `FilterIsSubsequence`, this pins the result down exactly.
   */
  lemma {:induction false} FilterCount<T>(p: T -> bool, s: seq<T>)
    ensures forall x :: multiset(Filter(p, s))[x] == if p(x) then multiset(s)[x] else 0
  {
    if |s| > 0 {
      FilterCount(p, s[1..]);
      assert s == [s[0]] + s[1..];
      assert multiset(s) == multiset{s[0]} + multiset(s[1..]);
    }
  }

  /** `Array.prototype.map`: `f` applied to every element, in order. */
  function Map<A, B>(f: A -> B, s: seq<A>): (r: seq<B>)
    ensures |r| == |s|
    ensures forall i :: 0 <= i < |s| ==> r[i] == f(s[i])
  {
    seq(|s|, i requires 0 <= i < |s| => f(s[i]))
  }

  lemma MapAppend<A, B>(f: A -> B, a: seq<A>, b: seq<A>)
    ensures Map(f, a + b) == Map(f, a) + Map(f, b)
  {
  }

  /** Flattening a sequence of sequences (`Array.prototype.join("")` on strings, spread-push on arrays). */
  function Concat<T>(ss: seq<seq<T>>): (r: seq<T>)
    ensures |ss| == 1 ==> r == ss[0]
  {
    if |ss| == 0 then [] else ss[0] + Concat(ss[1..])
  }

  lemma {:induction false} ConcatAppend<T>(a: seq<seq<T>>, b: seq<seq<T>>)
    ensures Concat(a + b) == Concat(a) + Concat(b)
  {
    if |a| == 0 {
      assert a + b == b;
    } else {
      assert (a + b)[1..] == a[1..] + b;
      ConcatAppend(a[1..], b);
    }
  }

  /** The four parts of `a + b + [x] + c` are found back at their offsets. */
  lemma Parts<T>(a: seq<T>, b: seq<T>, x: T, c: seq<T>)
    ensures |a + b + [x] + c| == |a| + |b| + 1 + |c|
    ensures (a + b + [x] + c)[..|a|] == a
    ensures (a + b + [x] + c)[|a|..|a| + |b|] == b
    ensures (a + b + [x] + c)[|a| + |b|] == x
    ensures (a + b + [x] + c)[|a| + |b| + 1..] == c
  {
  }

  /** A non-empty sequence is its head followed by its tail. */
  lemma Cons<T>(s: seq<T>)
    requires |s| > 0
    ensures s == [s[0]] + s[1..]
  {
  }

  /** Mapping then flattening a sequence with a known head: the head's part comes first. */
  lemma ConcatMapCons<A, B>(f: A -> seq<B>, x: A, xs: seq<A>)
    ensures Concat(Map(f, [x] + xs)) == f(x) + Concat(Map(f, xs))
  {
    var m := Map(f, [x] + xs);
    assert m[0] == f(x);
    assert m[1..] == Map(f, xs);
  }

  /** Filtering out an element that alone fails the test removes exactly that position. */
  lemma {:induction false} FilterOutOne<T>(p: T -> bool, s: seq<T>, i: int)
    requires 0 <= i < |s| && !p(s[i])
    requires forall j :: 0 <= j < |s| && j != i ==> p(s[j])
    ensures Filter(p, s) == s[..i] + s[i + 1..]
  {
    if i == 0 {
      FilterDropHead(p, s);
    } else {
      var tail := s[1..];
      forall j | 0 <= j < |tail| && j != i - 1
        ensures p(tail[j])
      {
        assert tail[j] == s[j + 1];
      }
      FilterOutOne(p, tail, i - 1);
      assert p(s[0]);
      assert Filter(p, s) == [s[0]] + (tail[..i - 1] + tail[i..]);
      ConsSplice(s, i);
    }
  }

  lemma ConsSplice<T>(s: seq<T>, i: int)
    requires 0 < i < |s|
    ensures [s[0]] + (s[1..][..i - 1] + s[1..][i..]) == s[..i] + s[i + 1..]
  {
    assert s[1..][i..] == s[i + 1..];
    assert [s[0]] + s[1..][..i - 1] == s[..i];
  }

  lemma FilterDropHead<T>(p: T -> bool, s: seq<T>)
    requires |s| > 0 && !p(s[0])
    requires forall j :: 0 < j < |s| ==> p(s[j])
    ensures Filter(p, s) == s[1..]
  {
    var tail := s[1..];
    forall k | 0 <= k < |tail|
      ensures p(tail[k])
    {
      assert tail[k] == s[k + 1];
    }
  }

  /** Gluing together nothing but empty pieces gives nothing. */
  lemma {:induction false} ConcatOfEmpties<T>(ss: seq<seq<T>>)
    requires forall i :: 0 <= i < |ss| ==> ss[i] == []
    ensures Concat(ss) == []
  {
    if |ss| > 0 {
      ConcatOfEmpties(ss[1..]);
    }
  }

  /** `s.filter((_, i) => i !== idx)`: drops the element at position `idx`, if there is one. */
  function DropAt<T>(s: seq<T>, idx: int): (r: seq<T>)
    ensures 0 <= idx < |s| ==> r == s[..idx] + s[idx + 1..]
    ensures !(0 <= idx < |s|) ==> r == s
  {
    if |s| == 0 then []
    else (if idx == 0 then [] else [s[0]]) + DropAt(s[1..], idx - 1)
  }

  /** `a` is `b` with some elements left out, the rest in their original order. */
  ghost predicate IsSubsequence<T>(a: seq<T>, b: seq<T>)
    decreases |b|
  {
    |a| == 0 || (|b| > 0 && ((a[0] == b[0] && IsSubsequence(a[1..], b[1..])) || IsSubsequence(a, b[1..])))
  }

  /** Filtering keeps the survivors in their original relative order. */
  lemma {:induction false} FilterIsSubsequence<T>(p: T -> bool, s: seq<T>)
    ensures IsSubsequence(Filter(p, s), s)
  {
    if |s| > 0 {
      FilterIsSubsequence(p, s[1..]);
      if p(s[0]) {
        assert Filter(p, s)[1..] == Filter(p, s[1..]);
      } else {
        assert Filter(p, s) == Filter(p, s[1..]);
      }
    }
  }
}
