/**
  Stable duplicate removal of names as lodash's `_.uniq` performs it: the
  first occurrence of every element is kept, in the order of first occurrence.

  `Uniq` carries no postcondition of its own; its properties are lemmas, so
  that concrete pipelines can be computed without the solver instantiating
  them on every intermediate list.
 */
module Dedup {

  /** No element occurs twice, stated one appended element at a time (see
      `NoDuplicatesByIndex` for the positional reading). */
  predicate NoDuplicates(s: seq<string>)
    decreases |s|
  {
    |s| == 0 || (s[|s| - 1] !in s[..|s| - 1] && NoDuplicates(s[..|s| - 1]))
  }

  lemma NoDuplicatesSnoc(s: seq<string>, x: string)
    ensures NoDuplicates(s + [x]) <==> NoDuplicates(s) && x !in s
  {
    assert (s + [x])[..|s|] == s;
  }

  /** `NoDuplicates` means that distinct positions hold distinct elements. */
  lemma {:induction false} NoDuplicatesByIndex(s: seq<string>)
    ensures NoDuplicates(s) <==> forall i, j :: 0 <= i < j < |s| ==> s[i] != s[j]
    decreases |s|
  {
    if |s| > 0 {
      var p := s[..|s| - 1];
      NoDuplicatesByIndex(p);
      if NoDuplicates(s) {
        forall i, j | 0 <= i < j < |s|
          ensures s[i] != s[j]
        {
          if j == |s| - 1 {
            assert s[i] == p[i];
          } else {
            assert s[i] == p[i] && s[j] == p[j];
          }
        }
      }
      if forall i, j :: 0 <= i < j < |s| ==> s[i] != s[j] {
        assert forall i, j :: 0 <= i < j < |p| ==> p[i] != p[j] by {
          forall i, j | 0 <= i < j < |p|
            ensures p[i] != p[j]
          {
            assert p[i] == s[i] && p[j] == s[j];
          }
        }
      }
    }
  }

  lemma NoDuplicatesCons(x: string, s: seq<string>)
    ensures NoDuplicates([x] + s) <==> NoDuplicates(s) && x !in s
  {
    var r := [x] + s;
    NoDuplicatesByIndex(r);
    NoDuplicatesByIndex(s);
    if NoDuplicates(r) {
      forall i, j | 0 <= i < j < |s|
        ensures s[i] != s[j]
      {
        assert r[i + 1] == s[i] && r[j + 1] == s[j];
      }
      forall j | 0 <= j < |s|
        ensures s[j] != x
      {
        assert r[0] == x && r[j + 1] == s[j];
      }
    }
    if NoDuplicates(s) && x !in s {
      forall i, j | 0 <= i < j < |r|
        ensures r[i] != r[j]
      {
        assert r[j] == s[j - 1];
        if i > 0 {
          assert r[i] == s[i - 1];
        }
      }
    }
  }

  /** An element of a duplicate-free list does not occur before its position. */
  lemma NoDuplicatesSplit(a: seq<string>, x: string, b: seq<string>)
    requires NoDuplicates(a + ([x] + b))
    ensures x !in a
  {
    var s := a + ([x] + b);
    NoDuplicatesByIndex(s);
    forall j | 0 <= j < |a|
      ensures a[j] != x
    {
      assert s[j] == a[j] && s[|a|] == x;
    }
  }

  /** The position of the first occurrence of `x` in `s`. */
  function FirstIndex(s: seq<string>, x: string): (k: nat)
    requires x in s
    ensures k < |s| && s[k] == x && x !in s[..k]
  {
    if s[0] == x then 0 else 1 + FirstIndex(s[1..], x)
  }

  /** `_.uniq(s)`. */
  function Uniq(s: seq<string>): seq<string>
  {
    if |s| == 0 then []
    else
      var p := Uniq(s[..|s| - 1]);
      if s[|s| - 1] in p then p else p + [s[|s| - 1]]
  }

  /** `_.uniq` keeps exactly the elements of its input, once each. */
  lemma {:induction false} UniqSpec(s: seq<string>)
    ensures NoDuplicates(Uniq(s))
    ensures forall x :: x in Uniq(s) <==> x in s
    ensures |Uniq(s)| <= |s|
  {
    if |s| > 0 {
      var p := s[..|s| - 1];
      UniqSpec(p);
      assert s == p + [s[|s| - 1]];
      NoDuplicatesSnoc(Uniq(p), s[|s| - 1]);
    }
  }

  /** The last step of `Uniq`: appending one element. */
  lemma UniqSnoc(s: seq<string>, x: string)
    ensures Uniq(s + [x]) == if x in s then Uniq(s) else Uniq(s) + [x]
  {
    assert (s + [x])[..|s + [x]| - 1] == s;
    UniqSpec(s);
  }

  /** Duplicate-free input is left unchanged. */
  lemma {:induction false} UniqOfUnique(s: seq<string>)
    requires NoDuplicates(s)
    ensures Uniq(s) == s
  {
    if |s| > 0 {
      var p := s[..|s| - 1];
      UniqOfUnique(p);
      assert s == p + [s[|s| - 1]];
      UniqSnoc(p, s[|s| - 1]);
    }
  }

  /** Appending an element not seen before keeps it; appending a seen one
      drops it. */
  lemma UniqSnocUnique(s: seq<string>, x: string)
    requires NoDuplicates(s)
    ensures x !in s ==> Uniq(s + [x]) == s + [x]
    ensures x in s ==> Uniq(s + [x]) == s
  {
    UniqOfUnique(s);
    UniqSnoc(s, x);
  }

  /** The deduplication of a prefix is a prefix of the deduplication. */
  lemma {:induction false} UniqAppendPrefix(a: seq<string>, b: seq<string>)
    ensures |Uniq(a)| <= |Uniq(a + b)|
    ensures Uniq(a + b)[..|Uniq(a)|] == Uniq(a)
  {
    if |b| > 0 {
      var b' := b[..|b| - 1];
      UniqAppendPrefix(a, b');
      assert a + b == (a + b') + [b[|b| - 1]];
      UniqSnoc(a + b', b[|b| - 1]);
    } else {
      assert a + b == a;
    }
  }

  /** First-occurrence order: the survivors are ordered by where each element
      first occurs in the input. Together with `UniqSpec` this determines
      `Uniq(s)` completely. */
  lemma {:induction false} UniqKeepsFirstOccurrenceOrder(s: seq<string>, i: nat, j: nat)
    requires i < j < |Uniq(s)|
    ensures Uniq(s)[i] in s && Uniq(s)[j] in s
    ensures FirstIndex(s, Uniq(s)[i]) < FirstIndex(s, Uniq(s)[j])
  {
    UniqSpec(s);
    var n := |s|;
    var p := s[..n - 1];
    var x := s[n - 1];
    assert s == p + [x];
    var u := Uniq(s);
    var up := Uniq(p);
    UniqSpec(p);
    if x in up {
      assert u == up;
      UniqKeepsFirstOccurrenceOrder(p, i, j);
      FirstIndexOfPrefix(p, [x], u[i]);
      FirstIndexOfPrefix(p, [x], u[j]);
    } else {
      assert u == up + [x];
      if j < |up| {
        UniqKeepsFirstOccurrenceOrder(p, i, j);
        FirstIndexOfPrefix(p, [x], u[i]);
        FirstIndexOfPrefix(p, [x], u[j]);
      } else {
        assert u[j] == x && x !in p;
        assert u[i] in p;
        FirstIndexOfPrefix(p, [x], u[i]);
        assert FirstIndex(s, u[i]) < |p|;
        assert FirstIndex(s, x) == n - 1;
      }
    }
  }

  lemma FirstIndexOfPrefix(a: seq<string>, b: seq<string>, x: string)
    requires x in a
    ensures FirstIndex(a + b, x) == FirstIndex(a, x)
  {
    if a[0] != x {
      assert (a + b)[1..] == a[1..] + b;
      FirstIndexOfPrefix(a[1..], b, x);
    }
  }

  /** The elements of `s` not in `seen`, in order. */
  function Without(s: seq<string>, seen: seq<string>): seq<string>
  {
    if |s| == 0 then [] else (if s[0] in seen then [] else [s[0]]) + Without(s[1..], seen)
  }

  lemma WithoutCons(x: string, rest: seq<string>, seen: seq<string>)
    ensures Without([x] + rest, seen) == (if x in seen then [] else [x]) + Without(rest, seen)
  {
    assert ([x] + rest)[1..] == rest;
  }

  lemma {:induction false} WithoutMembers(s: seq<string>, seen: seq<string>, x: string)
    ensures x in Without(s, seen) <==> x in s && x !in seen
  {
    if |s| > 0 {
      WithoutMembers(s[1..], seen, x);
      assert s == [s[0]] + s[1..];
    }
  }

  /** Removing elements that do not occur changes nothing. */
  lemma {:induction false} WithoutNone(s: seq<string>, seen: seq<string>)
    requires forall i :: 0 <= i < |s| ==> s[i] !in seen
    ensures Without(s, seen) == s
  {
    if |s| > 0 {
      WithoutNone(s[1..], seen);
      assert s == [s[0]] + s[1..];
    }
  }

  /** Elements already seen are dropped from the front. */
  lemma {:induction false} WithoutSeenPrefix(a: seq<string>, b: seq<string>, seen: seq<string>)
    requires forall i :: 0 <= i < |a| ==> a[i] in seen
    ensures Without(a + b, seen) == Without(b, seen)
  {
    if |a| > 0 {
      WithoutSeenPrefix(a[1..], b, seen);
      assert a + b == [a[0]] + (a[1..] + b);
      WithoutCons(a[0], a[1..] + b, seen);
    } else {
      assert a + b == b;
    }
  }

  lemma {:induction false} WithoutSnoc(s: seq<string>, x: string, seen: seq<string>)
    ensures Without(s + [x], seen) == Without(s, seen) + (if x in seen then [] else [x])
  {
    if |s| == 0 {
      assert s + [x] == [x];
      assert [x][1..] == [];
    } else {
      assert (s + [x])[1..] == s[1..] + [x];
      WithoutSnoc(s[1..], x, seen);
    }
  }

  lemma AppendAssoc(a: seq<string>, b: seq<string>, c: seq<string>)
    ensures a + (b + c) == (a + b) + c
  {
  }

  /** Deduplicating a duplicate-free list followed by another duplicate-free
      list appends the new elements of the second, in their order. */
  lemma {:induction false} UniqConcatUnique(u: seq<string>, p: seq<string>)
    requires NoDuplicates(u) && NoDuplicates(p)
    ensures Uniq(u + p) == u + Without(p, u)
  {
    if |p| == 0 {
      assert u + p == u;
      UniqOfUnique(u);
    } else {
      var q, x := p[..|p| - 1], p[|p| - 1];
      assert p == q + [x];
      NoDuplicatesSnoc(q, x);
      UniqConcatUnique(u, q);
      AppendAssoc(u, q, [x]);
      UniqSnoc(u + q, x);
      WithoutSnoc(q, x, u);
      if x in u {
        assert Without(p, u) == Without(q, u) + [];
      } else {
        AppendAssoc(u, Without(q, u), [x]);
      }
    }
  }

  /** Deduplicating early changes nothing. */
  lemma {:induction false} UniqAbsorb(x: seq<string>, y: seq<string>)
    ensures Uniq(Uniq(x) + y) == Uniq(x + y)
  {
    if |y| == 0 {
      assert Uniq(x) + y == Uniq(x);
      assert x + y == x;
      UniqSpec(x);
      UniqOfUnique(Uniq(x));
    } else {
      var z, e := y[..|y| - 1], y[|y| - 1];
      assert y == z + [e];
      UniqAbsorb(x, z);
      assert Uniq(x) + y == (Uniq(x) + z) + [e];
      assert x + y == (x + z) + [e];
      UniqSnoc(Uniq(x) + z, e);
      UniqSnoc(x + z, e);
      UniqSpec(x);
    }
  }

  /** The loop lodash runs for `_.uniq`: a single pass remembering what was
      already seen. It computes exactly `Uniq`. */
  method UniqByScan(s: seq<string>) returns (r: seq<string>)
    ensures r == Uniq(s)
  {
    r := [];
    var seen: set<string> := {};
    var i := 0;
    while i < |s|
      invariant 0 <= i <= |s|
      invariant r == Uniq(s[..i])
      invariant forall x :: x in seen <==> x in s[..i]
    {
      UniqSnoc(s[..i], s[i]);
      assert s[..i + 1] == s[..i] + [s[i]];
      if s[i] !in seen {
        r := r + [s[i]];
        seen := seen + {s[i]};
      }
      i := i + 1;
    }
    assert s[..i] == s;
  }
}
