/**
 * The abstract meaning of the list operations: each is a function from the
 * sequence of payloads (index 0 is the first element) to a new sequence or a
 * read result. Indices are unbounded integers; an index the operation does not
 * accept leaves the sequence as it was, except for `TruncateBefore`, which
 * empties it.
 */
module ListSpec {
  import opened Wrappers

  /** Positional read: the element at `k`, or no value outside `[0, |s|)`. */
  function Lookup<T>(s: seq<T>, k: int): Option<T>
  {
    if 0 <= k < |s| then Some(s[k]) else None
  }

  /** The last element, or no value on the empty sequence. */
  function Last<T>(s: seq<T>): Option<T>
  {
    if s == [] then None else Some(s[|s| - 1])
  }

  /** Positional overwrite; writing exactly one past the end appends. */
  function Overwrite<T>(s: seq<T>, k: int, v: T): seq<T>
  {
    if 0 <= k < |s| then s[k := v]
    else if k == |s| then s + [v]
    else s
  }

  /** Insertion before the current occupant of `k`; `k == |s|` appends. */
  function InsertAt<T>(s: seq<T>, k: int, v: T): seq<T>
  {
    if 0 <= k <= |s| then s[..k] + [v] + s[k..] else s
  }

  /** Deletion of the element at `k`. */
  function RemoveAt<T>(s: seq<T>, k: int): seq<T>
  {
    if 0 <= k < |s| then s[..k] + s[k + 1..] else s
  }

  /** Keeps the elements up to and including index `k`. */
  function TruncateAfter<T>(s: seq<T>, k: int): seq<T>
  {
    if 0 <= k < |s| then s[..k + 1] else s
  }

  /** Keeps the elements from index `k` on; any other `k` leaves nothing. */
  function TruncateBefore<T>(s: seq<T>, k: int): seq<T>
  {
    if 0 <= k < |s| then s[k..] else []
  }

  /**
   * The contents after putting each of `vs` in turn at the end of `s`: the
   * fold of `SingleLinkedList.Put`, whose contract is `Elems == old(Elems) + [v]`.
   */
  function PutAll<T>(s: seq<T>, vs: seq<T>): seq<T>
    decreases |vs|
  {
    if vs == [] then s else PutAll(s + [vs[0]], vs[1..])
  }

  /**
   * The contents after pushing each of `vs` in turn at the front of `s`: the
   * fold of `SingleLinkedList.Push`, whose contract is `Elems == [v] + old(Elems)`.
   */
  function PushAll<T>(s: seq<T>, vs: seq<T>): seq<T>
    decreases |vs|
  {
    if vs == [] then s else PushAll([vs[0]] + s, vs[1..])
  }

  /** The reversal of `s`, the reference order for a series of pushes. */
  function Reverse<T>(s: seq<T>): seq<T>
  {
    if s == [] then [] else Reverse(s[1..]) + [s[0]]
  }

  /** The step of the recursive insertion walk: past the head, insert one index earlier in the tail. */
  lemma InsertAtCons<T>(x: T, t: seq<T>, k: int, v: T)
    ensures InsertAt([x] + t, k, v) == if k == 0 then [v, x] + t else [x] + InsertAt(t, k - 1, v)
  {
    var s := [x] + t;
    if 0 < k <= |s| {
      assert s[..k] == [x] + t[..k - 1];
      assert s[k..] == t[k - 1..];
    }
  }

  /** The step of the recursive removal walk: index 0 is the head, past it remove one index earlier in the tail. */
  lemma RemoveAtCons<T>(x: T, t: seq<T>, k: int)
    ensures RemoveAt([x] + t, k) == if k == 0 then t else [x] + RemoveAt(t, k - 1)
  {
    var s := [x] + t;
    if 0 < k < |s| {
      assert s[..k] == [x] + t[..k - 1];
      assert s[k + 1..] == t[k..];
    }
  }

  /** The step of the recursive overwrite walk: index 0 is the head, past it overwrite one index earlier in the tail. */
  lemma OverwriteCons<T>(x: T, t: seq<T>, k: int, v: T)
    ensures Overwrite([x] + t, k, v) == if k == 0 then [v] + t else [x] + Overwrite(t, k - 1, v)
  {
  }

  // ---------------------------------------------------------------------
  // Properties of the operations, one lemma per promised behaviour.

  /** Putting `v0 .. vn-1` in turn onto `s` yields `s + vs`; from empty, element k is vk. */
  lemma {:induction false} PutAllAppends<T>(s: seq<T>, vs: seq<T>)
    ensures PutAll(s, vs) == s + vs
    decreases |vs|
  {
    if vs != [] {
      PutAllAppends(s + [vs[0]], vs[1..]);
      assert s + [vs[0]] + vs[1..] == s + vs;
    }
  }

  /** Pushing `v0 .. vn-1` in turn onto `s` yields the reversal of `vs` in front of `s`. */
  lemma {:induction false} PushAllReverses<T>(s: seq<T>, vs: seq<T>)
    ensures PushAll(s, vs) == Reverse(vs) + s
    decreases |vs|
  {
    if vs != [] {
      PushAllReverses([vs[0]] + s, vs[1..]);
      assert Reverse(vs) == Reverse(vs[1..]) + [vs[0]];
      assert Reverse(vs[1..]) + ([vs[0]] + s) == Reverse(vs[1..]) + [vs[0]] + s;
    }
  }

  /** After `PutAll([], vs)` every valid index reads back its value and nothing else is stored. */
  lemma PutAllLookup<T>(vs: seq<T>, k: int)
    ensures |PutAll([], vs)| == |vs|
    ensures Lookup(PutAll([], vs), k) == (if 0 <= k < |vs| then Some(vs[k]) else None)
  {
    PutAllAppends([], vs);
    assert [] + vs == vs;
  }

  /** Overwrite in range replaces only index `i` and keeps the length. */
  lemma OverwriteInRange<T>(s: seq<T>, i: int, v: T, k: int)
    requires 0 <= i < |s|
    ensures |Overwrite(s, i, v)| == |s|
    ensures Lookup(Overwrite(s, i, v), i) == Some(v)
    ensures k != i ==> Lookup(Overwrite(s, i, v), k) == Lookup(s, k)
  {
  }

  /** Overwrite at the length appends; further out it changes nothing. */
  lemma OverwriteOutOfRange<T>(s: seq<T>, i: int, v: T)
    requires i < 0 || i >= |s|
    ensures i == |s| ==> Overwrite(s, i, v) == InsertAt(s, i, v) == s + [v]
    ensures i != |s| ==> Overwrite(s, i, v) == s
  {
  }

  /** Insert puts `v` at `i`, keeps what is before and shifts what follows up by one. */
  lemma InsertShifts<T>(s: seq<T>, i: int, v: T, k: int)
    requires 0 <= i <= |s|
    ensures |InsertAt(s, i, v)| == |s| + 1
    ensures Lookup(InsertAt(s, i, v), i) == Some(v)
    ensures k < i ==> Lookup(InsertAt(s, i, v), k) == Lookup(s, k)
    ensures k > i ==> Lookup(InsertAt(s, i, v), k) == Lookup(s, k - 1)
  {
  }

  /** Remove drops index `i`: the length falls by one and what follows shifts down. */
  lemma RemoveShifts<T>(s: seq<T>, i: int, k: int)
    requires 0 <= i < |s|
    ensures |RemoveAt(s, i)| == |s| - 1
    ensures k < i ==> Lookup(RemoveAt(s, i), k) == Lookup(s, k)
    ensures k >= i ==> Lookup(RemoveAt(s, i), k) == Lookup(s, k + 1)
  {
  }

  /** Removing what was just inserted at the same index restores the list. */
  lemma RemoveUndoesInsert<T>(s: seq<T>, i: int, v: T)
    ensures RemoveAt(InsertAt(s, i, v), i) == s
  {
  }

  /** Removing the last element keeps the prefix; on the empty list, removing index -1 does nothing. */
  lemma RemoveLastIsPrefix<T>(s: seq<T>)
    ensures RemoveAt(s, |s| - 1) == if s == [] then [] else s[..|s| - 1]
  {
  }

  /** A put followed by a take returns the value put and restores the list. */
  lemma TakeUndoesPut<T>(s: seq<T>, v: T)
    ensures Last(s + [v]) == Some(v)
    ensures RemoveAt(s + [v], |s + [v]| - 1) == s
  {
  }

  /** Truncation after `i` keeps exactly the first `i + 1` elements, reading as before. */
  lemma TruncateAfterKeeps<T>(s: seq<T>, i: int, k: int)
    requires 0 <= i < |s|
    ensures |TruncateAfter(s, i)| == i + 1
    ensures k <= i ==> Lookup(TruncateAfter(s, i), k) == Lookup(s, k)
    ensures k > i ==> Lookup(TruncateAfter(s, i), k) == None
  {
  }

  /** Truncation before `i` makes the old element `i` the first one; otherwise the list is empty. */
  lemma TruncateBeforeShifts<T>(s: seq<T>, i: int, k: int)
    ensures 0 <= i < |s| && k >= 0 ==> Lookup(TruncateBefore(s, i), k) == Lookup(s, i + k)
    ensures 0 <= i < |s| ==> Lookup(TruncateBefore(s, i), 0) == Some(s[i])
    ensures !(0 <= i < |s|) ==> TruncateBefore(s, i) == []
  {
  }
}
