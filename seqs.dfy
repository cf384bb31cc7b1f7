/**
 * Sequence facts shared by the routers: the list a loop builds when it pushes each accepted
 * element unless the list already `includes` it, and where an element first occurs.
 */
module Seqs {

  predicate Distinct<T(==)>(s: seq<T>) {
    forall i, j :: 0 <= i < j < |s| ==> s[i] != s[j]
  }

  /** `s.indexOf(x)` for an element that is present. */
  function FirstIndex<T(==)>(s: seq<T>, x: T): (i: nat)
    requires x in s
    ensures i < |s| && s[i] == x
    ensures forall j :: 0 <= j < i ==> s[j] != x
  {
    if s[0] == x then 0 else 1 + FirstIndex(s[1..], x)
  }

  lemma FirstIndexOfPrefix<T>(p: seq<T>, y: T, x: T)
    requires x in p
    ensures FirstIndex(p + [y], x) == FirstIndex(p, x)
  {
    var j := FirstIndex(p, x);
    assert (p + [y])[j] == x;
    assert forall k :: 0 <= k < j ==> (p + [y])[k] == p[k];
  }

  lemma FirstIndexOfLast<T>(p: seq<T>, y: T)
    requires y !in p
    ensures FirstIndex(p + [y], y) == |p|
  {
    assert forall k :: 0 <= k < |p| ==> (p + [y])[k] == p[k];
  }

  lemma ConcatAssoc<T>(a: seq<T>, b: seq<T>, c: seq<T>)
    ensures (a + b) + c == a + (b + c)
  {
  }

  /** The first part of a three-part concatenation is its prefix, the last its suffix. */
  lemma Framed<T>(a: seq<T>, b: seq<T>, c: seq<T>)
    ensures |a + b + c| >= |a| + |c|
    ensures (a + b + c)[..|a|] == a
    ensures (a + b + c)[|a + b + c| - |c|..] == c
  {
  }

  /** A prefix one longer is the prefix with the next element. */
  lemma TakeSnoc<T>(s: seq<T>, i: nat)
    requires i < |s|
    ensures s[..i + 1] == s[..i] + [s[i]]
  {
  }

  /**
   * What `for (x of s) if (keep(x) && !out.includes(x)) out.push(x)` leaves in `out`:
   * defined on the last element, as the loop extends its prefix.
   */
  function Collect<T(==)>(s: seq<T>, keep: T -> bool): seq<T>
    decreases |s|
  {
    if s == [] then []
    else
      var prev := Collect(s[..|s| - 1], keep);
      var x := s[|s| - 1];
      if keep(x) && x !in prev then prev + [x] else prev
  }

  /** One loop step: the last element is pushed exactly when it is accepted and not yet pushed. */
  lemma CollectSnoc<T>(p: seq<T>, x: T, keep: T -> bool)
    ensures Collect(p + [x], keep)
            == if keep(x) && x !in Collect(p, keep) then Collect(p, keep) + [x] else Collect(p, keep)
  {
    assert (p + [x])[..|p + [x]| - 1] == p;
  }

  /** An element is collected exactly when it occurs in the input and is accepted. */
  lemma {:induction false} CollectMember<T>(s: seq<T>, keep: T -> bool, x: T)
    ensures x in Collect(s, keep) <==> x in s && keep(x)
  {
    if s != [] {
      var p := s[..|s| - 1];
      CollectMember(p, keep, x);
      assert s == p + [s[|s| - 1]];
    }
  }

  /** Nothing is collected when nothing is accepted. */
  lemma {:induction false} CollectNone<T>(s: seq<T>, keep: T -> bool)
    requires forall x :: x in s ==> !keep(x)
    ensures Collect(s, keep) == []
  {
    if s != [] {
      CollectNone(s[..|s| - 1], keep);
    }
  }

  /** No element is collected twice, the effect of the `includes` test. */
  lemma {:induction false} CollectDistinct<T>(s: seq<T>, keep: T -> bool)
    ensures Distinct(Collect(s, keep))
  {
    if s != [] {
      CollectDistinct(s[..|s| - 1], keep);
    }
  }

  /** `a` occurs in `s` before `b` does. */
  predicate Precedes<T(==)>(s: seq<T>, a: T, b: T) {
    a in s && b in s && FirstIndex(s, a) < FirstIndex(s, b)
  }

  lemma {:induction false} CollectOrderAt<T>(s: seq<T>, keep: T -> bool, i: nat, j: nat)
    requires i < j < |Collect(s, keep)|
    ensures Precedes(s, Collect(s, keep)[i], Collect(s, keep)[j])
  {
    var p, x := s[..|s| - 1], s[|s| - 1];
    assert s == p + [x];
    var prev, r := Collect(p, keep), Collect(s, keep);
    CollectSnoc(p, x, keep);
    assert r[..|prev|] == prev;
    assert r[i] == prev[i];
    CollectMember(p, keep, prev[i]);
    FirstIndexOfPrefix(p, x, prev[i]);
    if j < |prev| {
      assert r[j] == prev[j];
      CollectOrderAt(p, keep, i, j);
      CollectMember(p, keep, prev[j]);
      FirstIndexOfPrefix(p, x, prev[j]);
    } else {
      assert r == prev + [x] && r[j] == x;
      CollectMember(p, keep, x);
      FirstIndexOfLast(p, x);
    }
  }

  /** The collected elements keep the order in which they first occur in the input. */
  lemma CollectOrder<T>(s: seq<T>, keep: T -> bool)
    ensures forall i, j :: 0 <= i < j < |Collect(s, keep)| ==> Precedes(s, Collect(s, keep)[i], Collect(s, keep)[j])
  {
    forall i, j | 0 <= i < j < |Collect(s, keep)|
      ensures Precedes(s, Collect(s, keep)[i], Collect(s, keep)[j])
    {
      CollectOrderAt(s, keep, i, j);
    }
  }

  /** `s.filter(keep)`: the accepted elements in order, repeats included. */
  function Filter<T>(s: seq<T>, keep: T -> bool): (r: seq<T>)
    ensures |r| <= |s|
  {
    if s == [] then [] else (if keep(s[0]) then [s[0]] else []) + Filter(s[1..], keep)
  }

  lemma {:induction false} FilterMember<T>(s: seq<T>, keep: T -> bool, x: T)
    ensures x in Filter(s, keep) <==> x in s && keep(x)
  {
    if s != [] {
      FilterMember(s[1..], keep, x);
      assert s == [s[0]] + s[1..];
    }
  }

  /** Filtering a concatenation filters each part, so the kept elements keep their order. */
  lemma {:induction false} FilterConcat<T>(a: seq<T>, b: seq<T>, keep: T -> bool)
    ensures Filter(a + b, keep) == Filter(a, keep) + Filter(b, keep)
  {
    if a != [] {
      assert (a + b)[1..] == a[1..] + b;
      FilterConcat(a[1..], b, keep);
    } else {
      assert a + b == b;
    }
  }

  /** When every element is accepted nothing is dropped, repeats included. */
  lemma {:induction false} FilterAll<T>(s: seq<T>, keep: T -> bool)
    requires forall k :: 0 <= k < |s| ==> keep(s[k])
    ensures Filter(s, keep) == s
  {
    if s != [] {
      FilterAll(s[1..], keep);
    }
  }
}
