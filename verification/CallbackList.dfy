/**
 The intrusive list of registered callbacks: head_, and in each callback next_ and prevNext_, the address
 of the pointer that points to it.  Its operations, each run under the lock, are proved against the
 sequence that the protocol of module Cancellation works with.
 */
module CallbackList {
  import opened Common
  import opened Cancellation

  /** The value of prevNext_: null, the address of head_, or the address of a callback's next_. */
  datatype Loc = Nowhere | AtHead | AtNext(owner: Id)

  function NextAt(list: seq<Id>, i: nat): (c: Option<Id>) {
    if i < |list| then Some(list[i]) else None
  }

  function LocAt(list: seq<Id>, i: nat): (l: Loc)
    requires i <= |list|
  {
    if i == 0 then AtHead else AtNext(list[i - 1])
  }

  /** The links of callback `list[i]` are those of position `i`. */
  predicate LinkedAt(list: seq<Id>, next: map<Id, Option<Id>>, prevNext: map<Id, Loc>, i: nat)
    requires i < |list|
  {
    && list[i] in next && next[list[i]] == NextAt(list, i + 1)
    && list[i] in prevNext && prevNext[list[i]] == LocAt(list, i)
  }

  ghost predicate Linked(list: seq<Id>, next: map<Id, Option<Id>>, prevNext: map<Id, Loc>) {
    forall i | 0 <= i < |list| :: LinkedAt(list, next, prevNext, i)
  }

  lemma {:induction false} WithoutIsDrop(list: seq<Id>, k: nat)
    requires k < |list| && Distinct(list)
    ensures Without(list, list[k]) == list[..k] + list[k + 1..]
  {
    var rest := list[1..];
    if k == 0 {
      AbsentWithout(rest, list[0]);
    } else {
      WithoutIsDrop(rest, k - 1);
      assert list[..k] + list[k + 1..] == [list[0]] + (rest[..k - 1] + rest[k..]);
    }
  }

  lemma {:induction false} AbsentWithout(list: seq<Id>, c: Id)
    requires c !in list
    ensures Without(list, c) == list
  {
    if list != [] {
      AbsentWithout(list[1..], c);
    }
  }

  /** Writing next_ through prevNext_, and prevNext_ of the next callback, takes one callback out. */
  lemma RelinkedAt(list: seq<Id>, next: map<Id, Option<Id>>, prevNext: map<Id, Loc>, k: nat,
                   next': map<Id, Option<Id>>, prevNext': map<Id, Loc>, i: nat)
    requires k < |list| && Distinct(list) && Linked(list, next, prevNext) && LinkedAt(list, next, prevNext, k)
    requires next' == if k == 0 then next else next[list[k - 1] := next[list[k]]]
    requires prevNext' == if k + 1 == |list| then prevNext else prevNext[list[k + 1] := prevNext[list[k]]]
    requires i < |list| - 1
    ensures LinkedAt(list[..k] + list[k + 1..], next', prevNext', i)
  {
    var j := if i < k then i else i + 1;
    assert LinkedAt(list, next, prevNext, j);
    assert LinkedAt(list, next, prevNext, k);
    var r := list[..k] + list[k + 1..];
    assert r[i] == list[j];
    assert i + 1 < |r| ==> r[i + 1] == list[if i + 1 < k then i + 1 else i + 2];
    assert i > 0 ==> r[i - 1] == list[if i - 1 < k then i - 1 else i];
  }

  class List {
    var head: Option<Id>
    var next: map<Id, Option<Id>>
    var prevNext: map<Id, Loc>
    ghost var contents: seq<Id>
    ghost var registered: set<Id>   // pushed and not yet unlinked: their destructors have not run

    ghost predicate Valid()
      reads this
    {
      && head == NextAt(contents, 0) && Linked(contents, next, prevNext) && Distinct(contents)
      && (forall c | c in contents :: c in registered)
      && (forall c | c in registered :: c in prevNext && (prevNext[c] != Nowhere <==> c in contents))
    }

    constructor ()
      ensures Valid() && contents == [] && registered == {}
    {
      head, next, prevNext, contents, registered := None, map[], map[], [], {};
    }

    /** tryAddCallback, with the lock held. */
    method PushFront(c: Id)
      requires Valid() && c !in registered
      modifies this
      ensures Valid() && contents == [c] + old(contents) && registered == old(registered) + {c}
    {
      if head.Some? {
        prevNext := prevNext[head.value := AtNext(c)];
      }
      next := next[c := head];
      prevNext := prevNext[c := AtHead];
      head := Some(c);
      ghost var before := contents;
      contents := [c] + contents;
      registered := registered + {c};
      forall i | 0 <= i < |contents|
        ensures LinkedAt(contents, next, prevNext, i)
      {
        assert i > 0 ==> old(LinkedAt(before, next, prevNext, i - 1));
      }
    }

    /** removeCallback's test whether the callback has been dequeued. */
    method IsListed(c: Id) returns (r: bool)
      requires Valid() && c in registered
      ensures r <==> c in contents
    {
      r := prevNext[c] != Nowhere;
    }

    /** removeCallback: write through prevNext_.  The callback is about to be destroyed. */
    method Unlink(c: Id)
      requires Valid() && c in contents
      modifies this
      ensures Valid() && contents == Without(old(contents), c) && registered == old(registered) - {c}
    {
      ghost var before := contents;
      ghost var k: nat :| k < |contents| && contents[k] == c;
      assert LinkedAt(contents, next, prevNext, k);
      var at, following := prevNext[c], next[c];
      if at.AtNext? {
        next := next[at.owner := following];
      } else {
        head := following;
      }
      if following.Some? {
        prevNext := prevNext[following.value := at];
      }
      contents := Without(contents, c);
      registered := registered - {c};
      WithoutIsDrop(before, k);
      WithoutDistinct(before, c);
      forall i | 0 <= i < |contents|
        ensures LinkedAt(contents, next, prevNext, i)
      {
        RelinkedAt(before, old(next), old(prevNext), k, next, prevNext, i);
      }
    }

    /** requestCancellation: dequeue the first callback and mark it as removed; `any` is anyMore. */
    method PopFront() returns (c: Id, any: bool)
      requires Valid() && contents != []
      modifies this
      ensures Valid() && c == old(contents)[0] && contents == old(contents)[1..] && registered == old(registered)
      ensures any <==> contents != []
    {
      ghost var before := contents;
      c := head.value;
      assert LinkedAt(contents, next, prevNext, 0);
      head := next[c];
      any := head.Some?;
      if any {
        prevNext := prevNext[head.value := AtHead];
      }
      prevNext := prevNext[c := Nowhere];
      contents := contents[1..];
      forall i | 0 <= i < |contents|
        ensures LinkedAt(contents, next, prevNext, i)
      {
        assert old(LinkedAt(before, next, prevNext, i + 1));
      }
      SubList(before, c);
      forall x | x in registered
        ensures x in prevNext && (prevNext[x] != Nowhere <==> x in contents)
      {
        SubList(before, x);
      }
    }
  }
}
