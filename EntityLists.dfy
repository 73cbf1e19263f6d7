/**
 * The controller's entity lists as values: `removeEntity` (indexOf by
 * identity, then splice), and the creation order every list is kept in.
 * An entity's `id` stands for the identity of the object it tags, so two
 * entries are the same object exactly when they are equal.
 */
module EntityLists {
  import opened Entities

  // ----- removeEntity -----

  /** `Array.prototype.indexOf`: the first position holding `x`, or -1. */
  function IndexOf<T(==)>(s: seq<T>, x: T): (i: int)
    ensures -1 <= i < |s|
    ensures i >= 0 ==> s[i] == x && x !in s[..i]
    ensures i == -1 <==> x !in s
    decreases |s|
  {
    if s == [] then -1
    else if s[0] == x then 0
    else
      var k := IndexOf(s[1..], x);
      assert s == [s[0]] + s[1..];
      if k == -1 then -1
      else
        assert s[..k + 1] == [s[0]] + s[1..][..k];
        k + 1
  }

  /** Splices out the first occurrence of `obj`; a missing `obj` leaves the list as it is. */
  function RemoveEntity<T(==)>(list: seq<T>, obj: T): (r: seq<T>)
    ensures obj !in list ==> r == list
    ensures obj in list ==> |r| == |list| - 1
  {
    var idx := IndexOf(list, obj);
    if idx > -1 then list[..idx] + list[idx + 1..] else list
  }

  /** Exactly one copy of `obj` goes, when there is one, and nothing else. */
  lemma RemoveEntityMultiset<T>(list: seq<T>, obj: T)
    ensures multiset(RemoveEntity(list, obj)) == multiset(list) - multiset{obj}
  {
    var idx := IndexOf(list, obj);
    if idx > -1 {
      var front, back := list[..idx], list[idx + 1..];
      assert list == front + [obj] + back;
      calc {
        multiset(list);
        multiset(front) + multiset{obj} + multiset(back);
        multiset(front + back) + multiset{obj};
      }
    } else {
      assert multiset(list)[obj] == 0;
    }
  }

  /** What is removed is the first occurrence, and the rest keeps its order. */
  lemma RemoveFirstOccurrence<T>(list: seq<T>, i: nat)
    requires i < |list| && list[i] !in list[..i]
    ensures RemoveEntity(list, list[i]) == list[..i] + list[i + 1..]
  {
  }

  predicate Distinct<T(==)>(s: seq<T>)
  {
    forall i, j :: 0 <= i < j < |s| ==> s[i] != s[j]
  }

  /** On a list without repeats a second removal of the same object changes nothing. */
  lemma RemoveTwice<T>(list: seq<T>, obj: T)
    requires Distinct(list)
    ensures RemoveEntity(RemoveEntity(list, obj), obj) == RemoveEntity(list, obj)
  {
    if obj in list {
      var i := IndexOf(list, obj);
      var r := RemoveEntity(list, obj);
      assert r == list[..i] + list[i + 1..];
    }
  }

  // ----- creation order -----

  /** List entries are in creation order: ids strictly increase. */
  predicate Ascending(s: seq<Entity>)
  {
    forall i, j :: 0 <= i < j < |s| ==> s[i].id < s[j].id
  }

  /** Every id in the list was handed out before `n`. */
  predicate Below(s: seq<Entity>, n: nat)
  {
    forall i :: 0 <= i < |s| ==> s[i].id < n
  }

  /**
   * The order every entity list keeps, written as a recursion from the end
   * of the list: the last entry was created before `n`, and everything
   * before it was created before that entry.
   */
  predicate Ordered(s: seq<Entity>, n: nat)
    decreases |s|
  {
    |s| == 0 || (s[|s| - 1].id < n && Ordered(s[..|s| - 1], s[|s| - 1].id))
  }

  /** The recursion says the same as ascending ids below `n`. */
  lemma {:induction false} OrderedMeans(s: seq<Entity>, n: nat)
    ensures Ordered(s, n) <==> Ascending(s) && Below(s, n)
    decreases |s|
  {
    if |s| > 0 {
      var p, last := s[..|s| - 1], s[|s| - 1];
      OrderedMeans(p, last.id);
      assert forall i :: 0 <= i < |p| ==> p[i] == s[i];
    }
  }

  /** An ordered list holds no object twice. */
  lemma OrderedDistinct(s: seq<Entity>, n: nat)
    requires Ordered(s, n)
    ensures Distinct(s)
  {
    OrderedMeans(s, n);
  }

  lemma OrderedWeaken(s: seq<Entity>, n: nat, m: nat)
    requires Ordered(s, n) && n <= m
    ensures Ordered(s, m)
  {
  }

  /** Entries created before the ones of `s` may stand in front of `s`. */
  lemma OrderedSnoc(s: seq<Entity>, x: Entity, n: nat)
    requires Ordered(s, x.id) && x.id < n
    ensures Ordered(s + [x], n)
  {
    assert (s + [x])[..|s|] == s;
  }

  /** An entry of an ordered list does not occur before its own position. */
  lemma OrderedFirst(s: seq<Entity>, n: nat, i: nat)
    requires Ordered(s, n) && i < |s|
    ensures forall x :: x in s[..i] ==> x.id < s[i].id
    ensures s[i] !in s[..i]
  {
    OrderedMeans(s, n);
  }

  /** The same, for the entry alone: it does not occur earlier in the list. */
  lemma OrderedFresh(s: seq<Entity>, n: nat, i: nat)
    requires Ordered(s, n) && i < |s|
    ensures s[i] !in s[..i]
  {
    OrderedFirst(s, n, i);
  }

  /** Splicing out one entry keeps the order. */
  lemma {:induction false} OrderedSplice(s: seq<Entity>, i: nat, n: nat)
    requires Ordered(s, n) && i < |s|
    ensures Ordered(s[..i] + s[i + 1..], n)
    decreases |s|
  {
    var front, last := s[..|s| - 1], s[|s| - 1];
    if i == |s| - 1 {
      assert s[..i] + s[i + 1..] == front;
      OrderedWeaken(front, last.id, n);
    } else {
      OrderedSplice(front, i, last.id);
      assert s[..i] + s[i + 1..] == (front[..i] + front[i + 1..]) + [last];
      OrderedSnoc(front[..i] + front[i + 1..], last, n);
    }
  }

  /** So does `removeEntity`, whether or not the object is there. */
  lemma OrderedRemove(s: seq<Entity>, x: Entity, n: nat)
    requires Ordered(s, n)
    ensures Ordered(RemoveEntity(s, x), n)
  {
    var idx := IndexOf(s, x);
    if idx > -1 {
      OrderedSplice(s, idx, n);
    }
  }

  /** Appending entries that receive the next identities in turn keeps the order. */
  lemma {:induction false} OrderedAppend(s: seq<Entity>, t: seq<Entity>, n: nat)
    requires Ordered(s, n)
    requires forall i :: 0 <= i < |t| ==> t[i].id == n + i
    ensures Ordered(s + t, n + |t|)
    decreases |t|
  {
    if |t| == 0 {
      assert s + t == s;
    } else {
      var front := t[..|t| - 1];
      OrderedAppend(s, front, n);
      assert s + t == (s + front) + [t[|t| - 1]];
      OrderedSnoc(s + front, t[|t| - 1], n + |t|);
    }
  }
}
