# SingleLinkedList — a verified model

This project models the generic singly linked list `SingleLinkedList<T>` of
the `com.github.erdragh.structures` package. The list separates structure
from data. Its chain is made of data nodes, each holding one payload and a
successor, and it ends in exactly one sentinel end node that holds no payload
and is its own successor. Every list operation is a recursive walk down the
chain with an index accumulator `current`. On the way back up, each node
returns the node its predecessor must store as its successor
(`next = next.op(...)`). The list itself owns a `start` reference. It seeds
each walk with `current = 0` and re-anchors `start` with the walk's result.

Files:

- `wrappers.dfy`: the `Option` type. "No value" (a Java `null` result) is `None`.
- `list_spec.dfy` (module `ListSpec`): what each operation means on the
  sequence of payloads. It holds reference definitions (closed-form ones:
  `Lookup`, `Last`, `Overwrite`, `InsertAt`, `RemoveAt`, `TruncateAfter`,
  `TruncateBefore`; and the folds `PutAll`, `PushAll`, `Reverse`) and lemmas about them: shifting of
  indices, round trips, and what repeated puts and pushes build.
- `linked_list.dfy` (module `SingleLinkedLists`): the node chain as a class
  `Node<T>` and the list as a class `SingleLinkedList<T>`.
  - Each node carries ghost `Contents` (the payloads from it to the sentinel)
    and ghost `Repr` (its nodes). `Valid()` says the chain is acyclic and ends
    in exactly one sentinel, and that `Contents` is its payload sequence.
  - The node operations that relink or overwrite (`Put`, `Set`, `Remove`,
    `Insert`, `RemoveAfter`) are recursive methods that change the nodes in
    place and return the node to re-store.
  - The read-only walks (`Get`, `Count`, `Take`, `TakeAfter`, `RemoveBefore`,
    `GetData`, `GetNext`) are functions over the chain.
  - The list's methods reassign `start`. Their contracts give the new ghost
    `Elems` in terms of the old one.
  - `Scenario`, `ScenarioEdit` and `ScenarioTail` are a client scenario, checked by the verifier. They show that a caller
    can conclude the expected contents from the contracts alone.

A Dafny class cannot extend another class, so the two node kinds `DataNode`
and `EndNode` are one class. Its `data` field is `Some(v)` for a data node and
`None` for the sentinel. The sentinel's `next` is `null`, and `GetNext`
returns the sentinel itself, as `EndNode.getNext` does.

In these edge cases the model follows the code:

- An out-of-range `get` yields `None`.
- `removeBefore` with an index outside `[0, length())` empties the list.
- `removeAfter` with such an index changes nothing.
- `set` and `insert` at exactly `length()` append.
- The interface's documentation comment for `removeBefore` repeats the one for
  `removeAfter`. The model follows the implementation, which keeps the
  elements from index `i` on.

## Model

| member | source | states |
|---|---|---|
| `SingleLinkedLists.Node.End` | com/github/erdragh/structures/SingleLinkedList.java:349 | A new end node is a valid chain with no payloads, and it is its own footprint. |
| `SingleLinkedLists.Node.Link` | com/github/erdragh/structures/SingleLinkedList.java:185-188 | A new data node holding `v` in front of a valid chain is valid. Its contents are `[v]` followed by that chain's contents. |
| `SingleLinkedLists.Node.GetData` | com/github/erdragh/structures/SingleLinkedList.java:195-198 | Returns the first payload of the chain, or no value at the end node (lines 410-413). |
| `SingleLinkedLists.Node.GetNext` | com/github/erdragh/structures/SingleLinkedList.java:190-193 | Returns a valid node inside the footprint holding the contents minus the first element. At the end node it returns the node itself (lines 405-408). |
| `SingleLinkedLists.Node.Count` | com/github/erdragh/structures/SingleLinkedList.java:337-341 | Counting from accumulator `current` returns `current` plus the number of data nodes before the end node. The end node returns the accumulator (lines 444-448). |
| `SingleLinkedLists.Node.Get` | com/github/erdragh/structures/SingleLinkedList.java:225-231 | Returns the payload at list index `i` when this node sits at index `current`. Any `i` outside the chain, negative included, gives no value (end node, lines 369-373). |
| `SingleLinkedLists.Node.Take` | com/github/erdragh/structures/SingleLinkedList.java:209-215 | The initial take returns the last payload of the chain, and no value when the chain is empty (lines 357-361). |
| `SingleLinkedLists.Node.TakeAfter` | com/github/erdragh/structures/SingleLinkedList.java:217-223 | The accumulator form returns the last payload of the chain. On an empty chain it returns the accumulator (lines 363-367). |
| `SingleLinkedLists.Node.RemoveBefore` | com/github/erdragh/structures/SingleLinkedList.java:294-307 | Returns the node at index `i`, whose chain holds the contents from `i` on. Past the end it returns the end node, an empty chain (lines 420-424). It changes nothing. |
| `SingleLinkedLists.Node.Put` | com/github/erdragh/structures/SingleLinkedList.java:200-207 | The returned node's contents are the old contents with `v` appended. On a non-empty chain the returned node is this node itself, so the new node is created only at the end node (lines 351-355). |
| `SingleLinkedLists.Node.Set` | com/github/erdragh/structures/SingleLinkedList.java:233-245 | In range, overwrites exactly index `i - current`. Exactly one past the end, it appends. Otherwise it leaves the chain unchanged (end node, lines 375-385). |
| `SingleLinkedLists.Node.Remove` | com/github/erdragh/structures/SingleLinkedList.java:247-261 | In range, the returned chain lacks exactly the element at `i - current`. Out of range, nothing changes, and the end node returns itself (lines 387-391). No node is added. |
| `SingleLinkedLists.Node.Insert` | com/github/erdragh/structures/SingleLinkedList.java:263-277 | For `0 <= i - current <= length`, puts `v` before the occupant of that index. Otherwise nothing changes (end node, lines 393-403). |
| `SingleLinkedLists.Node.RemoveAfter` | com/github/erdragh/structures/SingleLinkedList.java:279-292 | In range, keeps the elements up to and including index `i - current`, adding only fresh nodes. Otherwise nothing changes (lines 415-418). |
| `SingleLinkedLists.SingleLinkedList.constructor` | com/github/erdragh/structures/SingleLinkedList.java:27-29 | A new list is valid and empty. |
| `SingleLinkedLists.SingleLinkedList.Length` | com/github/erdragh/structures/SingleLinkedList.java:523-527 | `length()` is the number of elements. |
| `SingleLinkedLists.SingleLinkedList.Get` | com/github/erdragh/structures/SingleLinkedList.java:481-485 | `get(i)` returns element `i` for `0 <= i < length()`, and no value for every other `i`. It reads only. |
| `SingleLinkedLists.SingleLinkedList.Put` | com/github/erdragh/structures/SingleLinkedList.java:452-456 | The contents become the old contents with `v` appended. |
| `SingleLinkedLists.SingleLinkedList.Push` | com/github/erdragh/structures/SingleLinkedList.java:458-462 | The contents become `v` followed by the old contents. |
| `SingleLinkedLists.SingleLinkedList.Take` | com/github/erdragh/structures/SingleLinkedList.java:464-471 | On a non-empty list, returns the last element and leaves all but the last. On an empty list, returns no value and the list stays empty. |
| `SingleLinkedLists.SingleLinkedList.Pull` | com/github/erdragh/structures/SingleLinkedList.java:473-479 | Returns the first element and leaves the rest. On an empty list, returns no value and the list stays empty. |
| `SingleLinkedLists.SingleLinkedList.Set` | com/github/erdragh/structures/SingleLinkedList.java:487-491 | For `0 <= i < length()`, replaces only element `i`. For `i == length()`, appends `v`. For any other `i`, nothing changes. |
| `SingleLinkedLists.SingleLinkedList.Remove` | com/github/erdragh/structures/SingleLinkedList.java:493-497 | For `0 <= i < length()`, the contents become `old[..i] + old[i+1..]`. Otherwise nothing changes. |
| `SingleLinkedLists.SingleLinkedList.Insert` | com/github/erdragh/structures/SingleLinkedList.java:499-503 | For `0 <= i <= length()`, the contents become `old[..i] + [v] + old[i..]`. Otherwise nothing changes. |
| `SingleLinkedLists.SingleLinkedList.RemoveAfter` | com/github/erdragh/structures/SingleLinkedList.java:505-509 | For `0 <= i < length()`, keeps exactly `old[..i+1]`. Otherwise nothing changes. |
| `SingleLinkedLists.SingleLinkedList.RemoveBefore` | com/github/erdragh/structures/SingleLinkedList.java:511-515 | For `0 <= i < length()`, keeps exactly `old[i..]`. For any other `i`, the list becomes empty. No node is added. |
| `SingleLinkedLists.SingleLinkedList.Clear` | com/github/erdragh/structures/SingleLinkedList.java:517-521 | The list becomes empty. |
| `ListSpec.InsertAtCons` | com/github/erdragh/structures/SingleLinkedList.java:268-275 | One step of the insert walk. At index 0 the new element goes in front of the current node. Past the head, insertion happens one index earlier in the tail. |
| `ListSpec.RemoveAtCons` | com/github/erdragh/structures/SingleLinkedList.java:252-259 | One step of the remove walk. At index 0 the head is bypassed and the tail remains. Past the head, removal happens one index earlier in the tail. |
| `ListSpec.OverwriteCons` | com/github/erdragh/structures/SingleLinkedList.java:238-242 | One step of the set walk. At index 0 the head's payload is replaced. Past the head, the overwrite happens one index earlier in the tail. |
| `ListSpec.PutAllAppends` | com/github/erdragh/structures/SingleLinkedList.java:452-456 | Putting `v0 .. vn-1` in turn onto contents `s` yields `s + [v0 .. vn-1]`. |
| `ListSpec.PutAllLookup` | com/github/erdragh/structures/SingleLinkedList.java:452-456 | After putting `v0 .. vn-1` onto an empty list, the length is `n` and `get(k)` is `vk` for every valid `k`. Every other `k` gives no value. |
| `ListSpec.PushAllReverses` | com/github/erdragh/structures/SingleLinkedList.java:458-462 | Pushing `v0 .. vn-1` in turn puts them in front of the old contents in reverse order. |
| `ListSpec.OverwriteInRange` | com/github/erdragh/structures/SingleLinkedList.java:233-245 | An in-range overwrite keeps the length, stores `v` at `i` and leaves every other index as it was. |
| `ListSpec.OverwriteOutOfRange` | com/github/erdragh/structures/SingleLinkedList.java:375-385 | An overwrite at `length()` is an append, the same as an insert there. Further out, including negative indices, it changes nothing. |
| `ListSpec.InsertShifts` | com/github/erdragh/structures/SingleLinkedList.java:263-277 | After an insert at `i`, the length grows by one and `get(i)` is `v`. Earlier indices are unchanged, and each later index `k` holds what `k - 1` held. |
| `ListSpec.RemoveShifts` | com/github/erdragh/structures/SingleLinkedList.java:247-261 | After an in-range remove at `i`, the length drops by one. Earlier indices are unchanged, and each index `k >= i` holds what `k + 1` held. |
| `ListSpec.RemoveUndoesInsert` | com/github/erdragh/structures/SingleLinkedList.java:493-503 | Removing at `i` right after inserting at `i` restores the contents, for every `i`. |
| `ListSpec.RemoveLastIsPrefix` | com/github/erdragh/structures/SingleLinkedList.java:464-471 | Take's second pass, a remove at `length() - 1`, drops exactly the last element. On an empty list it is a no-op at index -1. |
| `ListSpec.TakeUndoesPut` | com/github/erdragh/structures/SingleLinkedList.java:464-471 | A take right after `put(v)` returns `v` and restores the previous contents. |
| `ListSpec.TruncateAfterKeeps` | com/github/erdragh/structures/SingleLinkedList.java:279-292 | After an in-range truncate-after at `i`, the length is `i + 1`. Indices up to `i` read as before, and later ones give no value. |
| `ListSpec.TruncateBeforeShifts` | com/github/erdragh/structures/SingleLinkedList.java:294-307 | After an in-range truncate-before at `i`, the new `get(0)` is the old `get(i)` and each index `k` holds the old `i + k`. For any other `i`, the list is empty. |

## Left out

- `Main.java` is a console demo and `IList.java` holds declarations only. Neither is modelled. Their documentation comments were read as intent only.
- The commented-out `removeLast` machinery is dead code and is not modelled.
- `setNext` is never called by the list, so it is not modelled.
- Java `int` overflow in the index accumulators and in `count` is not modelled. Indices and counts are unbounded integers.
- `null` as a stored payload is not modelled. Payloads are plain `T`, and "no value" results are `Option.None`.
- Garbage collection is not modelled. Nodes that `remove`, `removeAfter`, `removeBefore` and `pull` bypass simply leave the list's `Repr`.
- The JVM stack limit is not modelled. Every walk in the Java code is a recursion with one frame per node, so on a very long list each operation throws `StackOverflowError`. The model's walks always finish normally.
