/**
 * A singly linked list that separates structure from data: a chain of data
 * nodes, each holding one payload and its successor, closed by one sentinel
 * end node. Every operation walks the chain recursively with an index
 * accumulator `current` and, on the way back, each node returns the node its
 * predecessor must store as its successor.
 */
module SingleLinkedLists {
  import opened Wrappers
  import opened ListSpec

  /**
   * One node of the chain. The two node kinds of the Java list, `DataNode`
   * and `EndNode`, share this class:
   * a data node has `data == Some(v)` and a successor in `next`; the sentinel
   * end node has `data == None` and no successor (`next == null`).
   */
  class Node<T> {
    var data: Option<T>
    var next: Node?<T>

    /** The payloads of this node and of every node after it, in order. */
    ghost var Contents: seq<T>
    /** The nodes of the chain from here to the sentinel. */
    ghost var Repr: set<object>

    ghost predicate Valid()
      reads this, Repr
      decreases Repr
    {
      this in Repr &&
      if data.None? then
        next == null && Contents == []
      else
        next != null && next in Repr && next.Repr <= Repr && this !in next.Repr &&
        Contents == [data.value] + next.Contents && next.Valid()
    }

    /** A fresh sentinel: the chain of the empty list. */
    constructor End()
      ensures Valid() && Contents == [] && Repr == {this}
    {
      data := None;
      next := null;
      Contents := [];
      Repr := {this};
    }

    /** A fresh data node holding `v` in front of the chain `succ`. */
    constructor Link(succ: Node<T>, v: T)
      requires succ.Valid()
      ensures Valid() && Contents == [v] + succ.Contents && Repr == {this} + succ.Repr
    {
      data := Some(v);
      next := succ;
      Contents := [v] + succ.Contents;
      Repr := {this} + succ.Repr;
    }

    /** The payload of this node; no value at the sentinel. */
    function GetData(): (r: Option<T>)
      reads this, Repr
      requires Valid()
      ensures r == Lookup(Contents, 0)
    {
      data
    }

    /** The successor of a data node; the sentinel is its own successor. */
    function GetNext(): (r: Node<T>)
      reads this, Repr
      requires Valid()
      ensures r in Repr && r.Repr <= Repr && r.Valid()
      ensures r.Contents == if Contents == [] then [] else Contents[1..]
      ensures Contents == [] ==> r == this
    {
      if data.None? then this else next
    }

    /** The number of data nodes from here to the sentinel, added to `current`. */
    function Count(current: int): (n: int)
      reads this, Repr
      requires Valid()
      ensures n == current + |Contents|
      decreases Repr
    {
      if data.None? then current else next.Count(current + 1)
    }

    /** The payload at list index `i`, this node being at index `current`. */
    function Get(i: int, current: int): (r: Option<T>)
      reads this, Repr
      requires Valid()
      ensures r == Lookup(Contents, i - current)
      decreases Repr
    {
      match data
      case None => None
      case Some(v) => if i == current then Some(v) else next.Get(i, current + 1)
    }

    /** The initial form of take: the last payload of the chain, no value if it is empty. */
    function Take(): (r: Option<T>)
      reads this, Repr
      requires Valid()
      ensures r == Last(Contents)
    {
      match data
      case None => None
      case Some(v) => Some(next.TakeAfter(v))
    }

    /** The accumulator form of take: `last` is the payload of the predecessor. */
    function TakeAfter(last: T): (r: T)
      reads this, Repr
      requires Valid()
      ensures r == if Contents == [] then last else Contents[|Contents| - 1]
      decreases Repr
    {
      match data
      case None => last
      case Some(v) => next.TakeAfter(v)
    }

    /** The node that must become the head when everything before index `i` is dropped. */
    function RemoveBefore(i: int, current: int): (r: Node<T>)
      reads this, Repr
      requires Valid()
      ensures r in Repr && r.Repr <= Repr && r.Valid()
      ensures r.Contents == TruncateBefore(Contents, i - current)
      decreases Repr
    {
      match data
      case None => this
      case Some(_) => if i == current then this else next.RemoveBefore(i, current + 1)
    }

    /** Appends `v` at the sentinel; returns the node to store in place of this one. */
    method Put(v: T) returns (r: Node<T>)
      requires Valid()
      modifies Repr
      ensures r.Valid() && fresh(r.Repr - old(Repr))
      ensures r.Contents == old(Contents) + [v]
      ensures old(Contents) != [] ==> r == this
      decreases Repr
    {
      if data.None? {
        r := new Node.Link(this, v);
      } else {
        var x := data.value;
        var succ := next.Put(v);
        next := succ;
        Contents := [x] + succ.Contents;
        Repr := {this} + succ.Repr;
        r := this;
      }
    }

    /** Overwrites the payload at index `i`, or appends when `i` is one past the end. */
    method Set(i: int, current: int, v: T) returns (r: Node<T>)
      requires Valid()
      modifies Repr
      ensures r.Valid() && fresh(r.Repr - old(Repr))
      ensures r.Contents == Overwrite(old(Contents), i - current, v)
      decreases Repr
    {
      if data.None? {
        if i == current {
          r := new Node.Link(this, v);
        } else {
          r := this;
        }
      } else {
        if i == current {
          data := Some(v);
          Contents := [v] + next.Contents;
        } else {
          var x := data.value;
          OverwriteCons(x, next.Contents, i - current, v);
          var succ := next.Set(i, current + 1, v);
          next := succ;
          Contents := [x] + succ.Contents;
          Repr := {this} + succ.Repr;
        }
        r := this;
      }
    }

    /** Unlinks the data node at index `i`; the sentinel ignores the request. */
    method Remove(i: int, current: int) returns (r: Node<T>)
      requires Valid()
      modifies Repr
      ensures r.Valid() && r.Repr <= old(Repr)
      ensures r.Contents == RemoveAt(old(Contents), i - current)
      ensures old(Contents) == [] ==> r == this
      decreases Repr
    {
      if data.None? {
        r := this;
      } else if i == current {
        r := next;
      } else {
        var x := data.value;
        RemoveAtCons(x, next.Contents, i - current);
        var succ := next.Remove(i, current + 1);
        next := succ;
        Contents := [x] + succ.Contents;
        Repr := {this} + succ.Repr;
        r := this;
      }
    }

    /** Links a new node holding `v` in front of the occupant of index `i`. */
    method Insert(i: int, current: int, v: T) returns (r: Node<T>)
      requires Valid()
      modifies Repr
      ensures r.Valid() && fresh(r.Repr - old(Repr))
      ensures r.Contents == InsertAt(old(Contents), i - current, v)
      decreases Repr
    {
      if data.None? {
        if i == current {
          r := new Node.Link(this, v);
        } else {
          r := this;
        }
      } else if i == current {
        InsertAtCons(data.value, next.Contents, 0, v);
        r := new Node.Link(this, v);
      } else {
        var x := data.value;
        InsertAtCons(x, next.Contents, i - current, v);
        var succ := next.Insert(i, current + 1, v);
        next := succ;
        Contents := [x] + succ.Contents;
        Repr := {this} + succ.Repr;
        assert Valid();
        r := this;
      }
    }

    /** Ends the chain right after index `i` with a fresh sentinel. */
    method RemoveAfter(i: int, current: int)
      requires Valid()
      modifies Repr
      ensures Valid() && fresh(Repr - old(Repr))
      ensures Contents == TruncateAfter(old(Contents), i - current)
      decreases Repr
    {
      if data.Some? {
        if i == current {
          var e := new Node.End();
          next := e;
          Contents := [data.value];
          Repr := {this, e};
        } else {
          next.RemoveAfter(i, current + 1);
          Contents := [data.value] + next.Contents;
          Repr := {this} + next.Repr;
        }
      }
    }
  }

  /** The list: a head reference into a chain of nodes. */
  class SingleLinkedList<T> {
    var start: Node<T>

    /** The payloads in list order; index 0 is the head's payload. */
    ghost var Elems: seq<T>
    ghost var Repr: set<object>

    ghost predicate Valid()
      reads this, Repr
    {
      this in Repr && start in Repr && start.Repr <= Repr && this !in start.Repr &&
      start.Valid() && Elems == start.Contents
    }

    /** A new list is empty: its head is a sentinel. */
    constructor ()
      ensures Valid() && fresh(Repr) && Elems == []
    {
      var e := new Node.End();
      start := e;
      Elems := [];
      Repr := {this, e};
    }

    /** The number of elements. */
    function Length(): (n: int)
      reads this, Repr
      requires Valid()
      ensures n == |Elems|
    {
      start.Count(0)
    }

    /** The element at index `i`, or no value when `i` is outside `[0, Length())`. */
    function Get(i: int): (r: Option<T>)
      reads this, Repr
      requires Valid()
      ensures 0 <= i < |Elems| ==> r == Some(Elems[i])
      ensures !(0 <= i < |Elems|) ==> r == None
    {
      start.Get(i, 0)
    }

    /** Appends `v` at the end. */
    method Put(v: T)
      requires Valid()
      modifies Repr
      ensures Valid() && fresh(Repr - old(Repr))
      ensures Elems == old(Elems) + [v]
    {
      var r := start.Put(v);
      assert r.Valid() && this !in r.Repr;
      start := r;
      assert start.Valid();
      Elems := start.Contents;
      Repr := {this} + start.Repr;
    }

    /** Prepends `v`: a new head in front of the old one. */
    method Push(v: T)
      requires Valid()
      modifies Repr
      ensures Valid() && fresh(Repr - old(Repr))
      ensures Elems == [v] + old(Elems)
    {
      start := new Node.Link(start, v);
      Elems := start.Contents;
      Repr := {this} + start.Repr;
    }

    /** Removes and returns the last element: read the last payload, then remove index Length() - 1. */
    method Take() returns (r: Option<T>)
      requires Valid()
      modifies Repr
      ensures Valid() && fresh(Repr - old(Repr))
      ensures old(Elems) == [] ==> r == None && Elems == []
      ensures old(Elems) != [] ==>
        r == Some(old(Elems)[|old(Elems)| - 1]) && Elems == old(Elems)[..|old(Elems)| - 1]
    {
      r := start.Take();
      Remove(Length() - 1);
      RemoveLastIsPrefix(old(Elems));
    }

    /** Removes and returns the first element; on the empty list the sentinel stays the head. */
    method Pull() returns (r: Option<T>)
      requires Valid()
      modifies Repr
      ensures Valid() && fresh(Repr - old(Repr))
      ensures r == Lookup(old(Elems), 0)
      ensures Elems == if old(Elems) == [] then [] else old(Elems)[1..]
    {
      r := start.GetData();
      start := start.GetNext();
      Elems := start.Contents;
      Repr := {this} + start.Repr;
    }

    /** Overwrites index `i`; `i == Length()` appends; any other index changes nothing. */
    method Set(i: int, v: T)
      requires Valid()
      modifies Repr
      ensures Valid() && fresh(Repr - old(Repr))
      ensures 0 <= i < |old(Elems)| ==> Elems == old(Elems)[i := v]
      ensures i == |old(Elems)| ==> Elems == old(Elems) + [v]
      ensures (i < 0 || i > |old(Elems)|) ==> Elems == old(Elems)
    {
      var r := start.Set(i, 0, v);
      assert r.Valid() && this !in r.Repr;
      start := r;
      assert start.Valid();
      Elems := start.Contents;
      Repr := {this} + start.Repr;
    }

    /** Deletes index `i`; an index outside `[0, Length())` changes nothing. */
    method Remove(i: int)
      requires Valid()
      modifies Repr
      ensures Valid() && fresh(Repr - old(Repr))
      ensures 0 <= i < |old(Elems)| ==> Elems == old(Elems)[..i] + old(Elems)[i + 1..]
      ensures !(0 <= i < |old(Elems)|) ==> Elems == old(Elems)
    {
      var r := start.Remove(i, 0);
      assert r.Valid() && this !in r.Repr;
      start := r;
      assert start.Valid();
      Elems := start.Contents;
      Repr := {this} + start.Repr;
    }

    /** Inserts `v` before the occupant of index `i`; `i == Length()` appends. */
    method Insert(i: int, v: T)
      requires Valid()
      modifies Repr
      ensures Valid() && fresh(Repr - old(Repr))
      ensures 0 <= i <= |old(Elems)| ==> Elems == old(Elems)[..i] + [v] + old(Elems)[i..]
      ensures !(0 <= i <= |old(Elems)|) ==> Elems == old(Elems)
    {
      var r := start.Insert(i, 0, v);
      assert r.Valid() && this !in r.Repr;
      start := r;
      assert start.Valid();
      Elems := start.Contents;
      Repr := {this} + start.Repr;
    }

    /** Keeps the elements up to and including index `i`; other indices change nothing. */
    method RemoveAfter(i: int)
      requires Valid()
      modifies Repr
      ensures Valid() && fresh(Repr - old(Repr))
      ensures 0 <= i < |old(Elems)| ==> Elems == old(Elems)[..i + 1]
      ensures !(0 <= i < |old(Elems)|) ==> Elems == old(Elems)
    {
      start.RemoveAfter(i, 0);
      Elems := start.Contents;
      Repr := {this} + start.Repr;
    }

    /** Keeps the elements from index `i` on; any other index empties the list. */
    method RemoveBefore(i: int)
      requires Valid()
      modifies Repr
      ensures Valid() && Repr <= old(Repr)
      ensures 0 <= i < |old(Elems)| ==> Elems == old(Elems)[i..]
      ensures !(0 <= i < |old(Elems)|) ==> Elems == []
    {
      var r := start.RemoveBefore(i, 0);
      assert r.Valid() && this !in r.Repr;
      start := r;
      assert start.Valid();
      Elems := start.Contents;
      Repr := {this} + start.Repr;
    }

    /** Empties the list by making a fresh sentinel the head. */
    method Clear()
      requires Valid()
      modifies Repr
      ensures Valid() && fresh(Repr - old(Repr))
      ensures Elems == []
    {
      start := new Node.End();
      Elems := [];
      Repr := {this} + start.Repr;
    }
  }

  /** A client scenario, checked by the verifier: what a caller can conclude from the list's contracts alone. */
  method Scenario()
  {
    var list := new SingleLinkedList<int>();
    list.Put(1);
    list.Put(2);
    list.Put(3);
    assert list.Elems == [1, 2, 3];
    assert list.Length() == 3 && list.Get(1) == Some(2);
    ScenarioEdit(list);
  }

  /** The middle of the client scenario: insert 9 at index 1 of [1, 2, 3], then remove index 0. */
  method ScenarioEdit(list: SingleLinkedList<int>)
    requires list.Valid() && list.Elems == [1, 2, 3]
    modifies list.Repr
  {
    list.Insert(1, 9);
    assert [1, 2, 3][..1] + [9] + [1, 2, 3][1..] == [1, 9, 2, 3];
    assert list.Elems == [1, 9, 2, 3];
    list.Remove(0);
    assert [1, 9, 2, 3][..0] + [1, 9, 2, 3][1..] == [9, 2, 3];
    assert list.Elems == [9, 2, 3];
    ScenarioTail(list);
  }

  /** The end of the client scenario: take the last element of [9, 2, 3], then clear. */
  method ScenarioTail(list: SingleLinkedList<int>)
    requires list.Valid() && list.Elems == [9, 2, 3]
    modifies list.Repr
  {
    var last := list.Take();
    assert last == Some(3);
    assert [9, 2, 3][..2] == [9, 2];
    assert list.Elems == [9, 2];
    list.Clear();
    assert list.Length() == 0 && list.Get(0) == None;
  }
}
