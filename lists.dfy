/**
 The Python list operations the solver uses on candidate lists:
 `x in s`, `s.index(x)` and `s.pop(i)`, and the sub-list relation that
 describes what repeated pops can do to a list.
 */
module Lists {

  /** No element occurs twice. */
  predicate NoDup<T(==)>(s: seq<T>)
  {
    forall i, j :: 0 <= i < j < |s| ==> s[i] != s[j]
  }

  /** `s.index(x)`: the position of the first occurrence of `x` in `s`. */
  function IndexOf<T(==)>(s: seq<T>, x: T): (i: nat)
    requires x in s
    ensures i < |s| && s[i] == x
    ensures x !in s[..i]
  {
    if s[0] == x then 0
    else
      var j := IndexOf(s[1..], x);
      assert s[..j + 1] == [s[0]] + s[1..][..j];
      j + 1
  }

  /** `s.pop(s.index(x))`: `s` without the first occurrence of `x`. */
  function PopFirst<T(==)>(s: seq<T>, x: T): (r: seq<T>)
    requires x in s
    ensures |r| == |s| - 1
    ensures multiset(r) == multiset(s) - multiset{x}
  {
    var i := IndexOf(s, x);
    assert s == s[..i] + [x] + s[i + 1..];
    s[..i] + s[i + 1..]
  }

  /** Popping `x` keeps every other element. */
  lemma PopFirstKeeps<T>(s: seq<T>, x: T)
    requires x in s
    ensures forall y :: y in s && y != x ==> y in PopFirst(s, x)
  {
    forall y | y in s && y != x ensures y in PopFirst(s, x) {
      assert multiset(PopFirst(s, x))[y] == multiset(s)[y];
    }
  }

  /** `a` is obtained from `b` by deleting elements, keeping the order of the rest. */
  predicate IsSubList<T(==)>(a: seq<T>, b: seq<T>)
    decreases |b|
  {
    if a == [] then true
    else if b == [] then false
    else if a[0] == b[0] then IsSubList(a[1..], b[1..])
    else IsSubList(a, b[1..])
  }

  lemma {:induction false} SubListRefl<T>(a: seq<T>)
    ensures IsSubList(a, a)
    decreases |a|
  {
    if a != [] { SubListRefl(a[1..]); }
  }

  /** Dropping the head of a sub-list keeps it a sub-list. */
  lemma {:induction false} SubListTail<T>(a: seq<T>, b: seq<T>)
    requires a != [] && IsSubList(a, b)
    ensures IsSubList(a[1..], b)
    decreases |b|, 0
  {
    if a[0] == b[0] {
      SubListCons(a[1..], b[1..], b[0]);
      assert [b[0]] + b[1..] == b;
    } else {
      SubListTail(a, b[1..]);
      SubListCons(a[1..], b[1..], b[0]);
      assert [b[0]] + b[1..] == b;
    }
  }

  /** A sub-list of `b` is a sub-list of any list that extends `b` at the front. */
  lemma {:induction false} SubListCons<T>(a: seq<T>, b: seq<T>, x: T)
    requires IsSubList(a, b)
    ensures IsSubList(a, [x] + b)
    decreases |b|, 1
  {
    assert ([x] + b)[1..] == b;
    if a != [] && a[0] == x {
      SubListTail(a, b);
    }
  }

  lemma {:induction false} SubListTrans<T>(a: seq<T>, b: seq<T>, c: seq<T>)
    requires IsSubList(a, b) && IsSubList(b, c)
    ensures IsSubList(a, c)
    decreases |c|
  {
    if a == [] {
    } else if b[0] == c[0] {
      if a[0] == b[0] {
        SubListTrans(a[1..], b[1..], c[1..]);
      } else {
        SubListTrans(a, b[1..], c[1..]);
      }
    } else {
      SubListTrans(a, b, c[1..]);
      if a[0] == c[0] {
        SubListTail(a, c[1..]);
      }
    }
  }

  /** Every element of a sub-list is an element of the list. */
  lemma {:induction false} SubListMember<T>(a: seq<T>, b: seq<T>, x: T)
    requires IsSubList(a, b) && x in a
    ensures x in b
    decreases |b|
  {
    if a[0] == b[0] {
      if x != a[0] { SubListMember(a[1..], b[1..], x); }
    } else {
      SubListMember(a, b[1..], x);
    }
  }

  /** A sub-list is never longer, and only a list itself is a sub-list of the same length. */
  lemma {:induction false} SubListLength<T>(a: seq<T>, b: seq<T>)
    requires IsSubList(a, b)
    ensures |a| <= |b|
    ensures |a| == |b| ==> a == b
    decreases |b|
  {
    if a == [] {
    } else if a[0] == b[0] {
      SubListLength(a[1..], b[1..]);
      if |a| == |b| { assert a == [a[0]] + a[1..]; assert b == [b[0]] + b[1..]; }
    } else {
      SubListLength(a, b[1..]);
    }
  }

  /** The only sub-lists of a one-element list are itself and the empty list. */
  lemma SubListOfSingleton<T>(a: seq<T>, x: T)
    requires IsSubList(a, [x])
    ensures a == [] || a == [x]
  {
    if a != [] && a[0] == x {
      assert a == [a[0]] + a[1..];
    }
  }

  /** `s[..i] + s[i+1..]`, what `s.pop(i)` leaves, is a sub-list of `s`. */
  lemma {:induction false} SubListDelete<T>(s: seq<T>, i: nat)
    requires i < |s|
    ensures IsSubList(s[..i] + s[i + 1..], s)
    decreases i
  {
    if i == 0 {
      assert s[..0] + s[1..] == s[1..];
      SubListRefl(s[1..]);
      SubListCons(s[1..], s[1..], s[0]);
      assert [s[0]] + s[1..] == s;
    } else {
      var t := s[1..];
      SubListDelete(t, i - 1);
      var r := s[..i] + s[i + 1..];
      assert r[0] == s[0];
      assert r[1..] == t[..i - 1] + t[i..];
    }
  }

  /** Popping the first occurrence of `x` leaves a sub-list, and from a
      duplicate-free list it removes `x` completely and keeps the rest distinct. */
  lemma PopFirstSubList<T>(s: seq<T>, x: T)
    requires x in s
    ensures IsSubList(PopFirst(s, x), s)
    ensures NoDup(s) ==> NoDup(PopFirst(s, x)) && x !in PopFirst(s, x)
  {
    var i := IndexOf(s, x);
    SubListDelete(s, i);
    if NoDup(s) {
      DeleteDistinct(s, i);
    }
  }

  /** Deleting position `i` from a duplicate-free list leaves a duplicate-free
      list without `s[i]`. */
  lemma DeleteDistinct<T>(s: seq<T>, i: nat)
    requires i < |s| && NoDup(s)
    ensures NoDup(s[..i] + s[i + 1..])
    ensures s[i] !in s[..i] + s[i + 1..]
  {
    var r := s[..i] + s[i + 1..];
    assert forall k :: 0 <= k < |r| ==> r[k] == s[if k < i then k else k + 1];
  }
}
