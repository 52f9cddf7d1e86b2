/** Sequence vocabulary shared by every module.

    The recency list of a shard only ever changes by losing a set of keys and by
    gaining a key at the front, so `Remove` and its algebra carry most proofs
    about eviction, expiry and recency. */
module Basics {

  datatype Option<+T> = None | Some(value: T)

  lemma Regroup<T>(a: seq<T>, b: seq<T>, c: seq<T>)
    ensures a + (b + c) == (a + b) + c && (b == [] ==> a + b == a)
  {
  }

  lemma Rejoin<T>(s: seq<T>)
    requires s != []
    ensures s[..|s| - 1] + [s[|s| - 1]] == s
  {
  }

  ghost predicate NoDup<T>(s: seq<T>) {
    forall i, j :: 0 <= i < j < |s| ==> s[i] != s[j]
  }

  /** The elements of `s` outside `gone`, in their order in `s`. */
  function Remove<T(==)>(s: seq<T>, gone: set<T>): (r: seq<T>)
    ensures forall x :: x in r ==> x in s && x !in gone
    ensures forall x :: x in s && x !in gone ==> x in r
  {
    if s == [] then []
    else if s[0] in gone then Remove(s[1..], gone)
    else [s[0]] + Remove(s[1..], gone)
  }

  lemma {:induction false} RemoveAppend<T>(s: seq<T>, t: seq<T>, gone: set<T>)
    ensures Remove(s + t, gone) == Remove(s, gone) + Remove(t, gone)
  {
    if s == [] {
      assert s + t == t;
    } else {
      assert (s + t)[1..] == s[1..] + t;
      RemoveAppend(s[1..], t, gone);
    }
  }

  lemma {:induction false} RemoveTwice<T>(s: seq<T>, a: set<T>, b: set<T>)
    ensures Remove(Remove(s, a), b) == Remove(s, a + b)
  {
    if s != [] {
      RemoveTwice(s[1..], a, b);
      assert s[0] !in a ==> ([s[0]] + Remove(s[1..], a))[1..] == Remove(s[1..], a);
    }
  }

  /** Only the part of `gone` that occurs in `s` matters. */
  lemma {:induction false} RemoveSame<T>(s: seq<T>, a: set<T>, b: set<T>)
    requires forall x :: x in s ==> (x in a <==> x in b)
    ensures Remove(s, a) == Remove(s, b)
  {
    if s != [] {
      assert forall x :: x in s[1..] ==> x in s;
      RemoveSame(s[1..], a, b);
    }
  }

  lemma {:induction false} RemoveNone<T>(s: seq<T>, a: set<T>)
    requires forall x :: x in s ==> x !in a
    ensures Remove(s, a) == s
  {
    if s != [] {
      assert forall x :: x in s[1..] ==> x in s;
      RemoveNone(s[1..], a);
    }
  }

  lemma LastIsNew<T>(s: seq<T>)
    requires s != [] && NoDup(s)
    ensures s[|s| - 1] !in s[..|s| - 1]
  {
  }

  /** Dropping the last element of a duplicate-free list removes just that element. */
  lemma {:induction false} RemoveLast<T>(s: seq<T>)
    requires s != [] && NoDup(s)
    ensures Remove(s, {s[|s| - 1]}) == s[..|s| - 1]
  {
    var n := |s| - 1;
    LastIsNew(s);
    RemoveNone(s[..n], {s[n]});
    RemoveAppend(s[..n], [s[n]], {s[n]});
    assert s == s[..n] + [s[n]];
  }

  lemma RemoveKeepsLast<T>(s: seq<T>, gone: set<T>)
    requires s != [] && s[|s| - 1] !in gone
    ensures var r := Remove(s, gone); r != [] && r[|r| - 1] == s[|s| - 1]
  {
    var n := |s| - 1;
    assert s == s[..n] + [s[n]];
    RemoveAppend(s[..n], [s[n]], gone);
  }

  /** Two positions of the shortened list come from two positions of `s` in the same order. */
  lemma {:induction false} RemoveEmbeds<T>(s: seq<T>, gone: set<T>, i: nat, j: nat) returns (p: nat, q: nat)
    requires i < j < |Remove(s, gone)|
    ensures p < q < |s| && s[p] == Remove(s, gone)[i] && s[q] == Remove(s, gone)[j]
  {
    var rest := Remove(s[1..], gone);
    if s[0] in gone {
      p, q := RemoveEmbeds(s[1..], gone, i, j);
      p, q := p + 1, q + 1;
    } else if i > 0 {
      p, q := RemoveEmbeds(s[1..], gone, i - 1, j - 1);
      p, q := p + 1, q + 1;
    } else {
      assert rest[j - 1] in s[1..];
      p := 0;
      q :| 0 < q < |s| && s[q] == rest[j - 1];
    }
  }

  lemma RemoveNoDup<T>(s: seq<T>, gone: set<T>)
    requires NoDup(s)
    ensures NoDup(Remove(s, gone))
  {
    forall i: nat, j: nat | i < j < |Remove(s, gone)|
      ensures Remove(s, gone)[i] != Remove(s, gone)[j]
    {
      var p, q := RemoveEmbeds(s, gone, i, j);
    }
  }

  lemma {:induction false} RemoveLength<T>(s: seq<T>, gone: set<T>)
    requires NoDup(s) && forall x :: x in gone ==> x in s
    ensures |Remove(s, gone)| == |s| - |gone|
  {
    if s == [] {
      assert gone == {};
    } else if s[0] in gone {
      assert gone == {s[0]} + (gone - {s[0]});
      RemoveSame(s[1..], gone, gone - {s[0]});
      RemoveLength(s[1..], gone - {s[0]});
    } else {
      RemoveLength(s[1..], gone);
    }
  }

  function Elems<T>(s: seq<T>): set<T> { set x | x in s }

  lemma {:induction false} NoDupSize<T>(s: seq<T>)
    requires NoDup(s)
    ensures |Elems(s)| == |s|
  {
    if s != [] {
      assert Elems(s) == {s[0]} + Elems(s[1..]);
      NoDupSize(s[1..]);
    }
  }

  lemma SubsetSize<T>(a: set<T>, b: set<T>)
    requires a <= b
    ensures |a| <= |b|
  {
    assert b == a + (b - a);
  }

  /** `t` is `s` with some elements left out. */
  predicate Subsequence<T(==)>(t: seq<T>, s: seq<T>)
    decreases |s|
  {
    || t == []
    || (s != [] && t[0] == s[0] && Subsequence(t[1..], s[1..]))
    || (s != [] && Subsequence(t, s[1..]))
  }

  lemma {:induction false} RemoveIsSubsequence<T>(s: seq<T>, gone: set<T>)
    ensures Subsequence(Remove(s, gone), s)
  {
    if s != [] {
      RemoveIsSubsequence(s[1..], gone);
      assert s[0] !in gone ==> Remove(s, gone)[1..] == Remove(s[1..], gone);
    }
  }
}
