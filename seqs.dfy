/** Values and list operations shared by the event hub and the state machines. */
module Seqs {

  /** A C# reference that may be null. */
  datatype Nullable<T> = Null | NonNull(value: T)

  /** No element occurs twice. */
  predicate NoDuplicates<T(==)>(s: seq<T>) {
    forall i, j :: 0 <= i < j < |s| ==> s[i] != s[j]
  }

  /** The position of the first occurrence of a listed element. */
  function FirstIndex<T(==)>(s: seq<T>, x: T): (i: nat)
    requires x in s
    ensures i < |s| && s[i] == x
    ensures x !in s[..i]
  {
    if s[0] == x then 0
    else
      assert s[1..][..FirstIndex(s[1..], x)] == s[1..FirstIndex(s[1..], x) + 1];
      assert s[..FirstIndex(s[1..], x) + 1] == [s[0]] + s[1..FirstIndex(s[1..], x) + 1];
      FirstIndex(s[1..], x) + 1
  }

  /** `List<T>.Remove(x)`: deletes the first occurrence of `x`, if any, and
      keeps the order of the remaining elements. */
  function RemoveFirst<T(==)>(s: seq<T>, x: T): (r: seq<T>)
    ensures multiset(r) == multiset(s) - multiset{x}
    ensures x !in s ==> r == s
    ensures x in s ==> |r| == |s| - 1
  {
    if s == [] then []
    else if s[0] == x then
      assert s == [s[0]] + s[1..];
      s[1..]
    else
      assert s == [s[0]] + s[1..];
      [s[0]] + RemoveFirst(s[1..], x)
  }

  /** `RemoveFirst` deletes exactly the first occurrence and keeps the
      elements before and after it in their order. */
  lemma {:induction false} RemoveFirstDropsFirstOccurrence<T>(s: seq<T>, x: T)
    requires x in s
    ensures RemoveFirst(s, x) == s[..FirstIndex(s, x)] + s[FirstIndex(s, x) + 1..]
  {
    if s[0] == x {
      assert s[..0] + s[1..] == s[1..];
    } else {
      var t := s[1..];
      var i := FirstIndex(t, x);
      RemoveFirstDropsFirstOccurrence(t, x);
      ConsSplit(s, i);
    }
  }

  /** Splitting a list just after its head commutes with cutting it at a
      later position. */
  lemma ConsSplit<T>(s: seq<T>, i: nat)
    requires i + 1 < |s|
    ensures [s[0]] + (s[1..][..i] + s[1..][i + 1..]) == s[..i + 1] + s[i + 2..]
  {
    assert s[..i + 1] == [s[0]] + s[1..][..i];
    assert s[i + 2..] == s[1..][i + 1..];
  }

  /** Removing an element that was just appended to a list that did not hold
      it gives back the list. */
  lemma {:induction false} RemoveFirstOfAppended<T>(s: seq<T>, x: T)
    requires x !in s
    ensures RemoveFirst(s + [x], x) == s
  {
    if s == [] {
      assert [] + [x] == [x];
    } else {
      assert (s + [x])[0] == s[0];
      assert (s + [x])[1..] == s[1..] + [x];
      RemoveFirstOfAppended(s[1..], x);
      assert s == [s[0]] + s[1..];
    }
  }

  /** The tail of a list without duplicates has none and lacks the head. */
  lemma TailNoDuplicates<T>(s: seq<T>)
    requires NoDuplicates(s) && s != []
    ensures NoDuplicates(s[1..]) && s[0] !in s[1..]
  {
    assert forall j :: 0 <= j < |s[1..]| ==> s[1..][j] == s[j + 1];
  }

  /** Putting an absent element in front keeps a list without duplicates. */
  lemma ConsNoDuplicates<T>(a: T, u: seq<T>)
    requires NoDuplicates(u) && a !in u
    ensures NoDuplicates([a] + u)
  {
    var r := [a] + u;
    forall i, j | 0 <= i < j < |r| ensures r[i] != r[j] {
      assert r[j] == u[j - 1];
      if i > 0 { assert r[i] == u[i - 1]; }
    }
  }

  /** Removing from a list without duplicates keeps it without duplicates
      and leaves no copy of the removed element. */
  lemma {:induction false} RemoveFirstKeepsNoDuplicates<T>(s: seq<T>, x: T)
    requires NoDuplicates(s)
    ensures NoDuplicates(RemoveFirst(s, x))
    ensures x !in RemoveFirst(s, x)
  {
    if s != [] {
      TailNoDuplicates(s);
      if s[0] != x {
        var u := RemoveFirst(s[1..], x);
        RemoveFirstKeepsNoDuplicates(s[1..], x);
        assert s[0] !in multiset(u);
        ConsNoDuplicates(s[0], u);
      }
    }
  }

  /** Appending an element that is absent keeps a list without duplicates. */
  lemma AppendKeepsNoDuplicates<T>(s: seq<T>, x: T)
    requires NoDuplicates(s) && x !in s
    ensures NoDuplicates(s + [x])
  {
    var r := s + [x];
    forall i, j | 0 <= i < j < |r| ensures r[i] != r[j] {
      assert r[i] == s[i];
    }
  }

  /** Removing one occurrence of a listed element and appending it again
      gives the same elements with the same multiplicities. */
  lemma RemoveThenAppendSameElements<T>(s: seq<T>, x: T)
    requires x in s
    ensures multiset(RemoveFirst(s, x) + [x]) == multiset(s)
  {
  }
}
