/**
 The array-backed indexed binary heap of routech.c.

 Slots `1 .. size-1` of `heapElements` form a binary heap; slot `k` names an entry of
 `elements` (its handle), and a live entry remembers its slot in `heapElement`.
 */
module IndexedHeap {
  import opened Basics

  datatype Element = Element(nodeId: ItemId, parent: Option<ItemId>, stalled: int, key: int, heapElement: nat)

  datatype HeapElement = HeapElement(key: int, element: nat)

  /** An element without its slot: what the users of the queue see under a handle. */
  datatype Node = Node(id: ItemId, parent: Option<ItemId>, stalled: int, key: int)

  function NodeOf(e: Element): Node {
    Node(e.nodeId, e.parent, e.stalled, e.key)
  }

  /** Heap order of the slots `1 .. n-1` except around `hole`; what moved past the hole stays in order. */
  ghost predicate OrderedSlots(s: seq<HeapElement>, n: nat, hole: nat)
    requires n <= 1 || n <= |s|
  {
    && (forall j :: 2 <= j < n && j != hole && j / 2 != hole ==> s[j / 2].key <= s[j].key)
    && (forall j :: 2 <= j < n && j / 2 == hole && 1 <= hole / 2 ==> s[hole / 2].key <= s[j].key)
  }

  /** Every child of the hole has at least this key. */
  ghost predicate ChildrenAbove(s: seq<HeapElement>, n: nat, hole: nat, key: int)
    requires n <= 1 || n <= |s|
  {
    forall j :: 2 <= j < n && j / 2 == hole ==> key <= s[j].key
  }

  lemma OrderedAfterClaim(s: seq<HeapElement>, n: nat, key: int)
    requires 1 <= n < |s| && OrderedSlots(s, n, 0)
    ensures OrderedSlots(s, n + 1, n) && ChildrenAbove(s, n + 1, n, key)
  {
  }

  lemma OrderedAfterPull(s: seq<HeapElement>, n: nat, i: nat, key: int)
    requires 1 < i < n <= |s| && OrderedSlots(s, n, i) && key < s[i / 2].key
    ensures OrderedSlots(s[i := s[i / 2]], n, i / 2) && ChildrenAbove(s[i := s[i / 2]], n, i / 2, key)
  {
  }

  lemma OrderedAfterFill(s: seq<HeapElement>, n: nat, i: nat, e: HeapElement)
    requires 1 <= i < n <= |s| && OrderedSlots(s, n, i) && ChildrenAbove(s, n, i, e.key)
    requires i > 1 ==> s[i / 2].key <= e.key
    ensures OrderedSlots(s[i := e], n, 0)
  {
  }

  const STEP: nat := 10

  class PriorityQueue {
    var size: nat
    var elementsSize: nat
    var elements: array<Element>
    var heapElements: array<HeapElement>

    /** The abstract queue: every handle ever given out, the ones still queued, the ones that read as deleted. */
    ghost var nodes: map<nat, Node>
    ghost var live: set<nat>
    ghost var deleted: set<nat>

    /** Sizes against capacities, and every handle's entry. */
    ghost predicate Shape()
      reads this, elements, heapElements
    {
      && 1 <= size && (size == 1 || size <= heapElements.Length)
      && 1 <= elementsSize && (elementsSize == 1 || elementsSize <= elements.Length)
      && elements as object != heapElements
      && (elementsSize > 1 ==> heapElements.Length > 1)
      && (forall h :: h in nodes <==> 1 <= h < elementsSize)
      && live <= nodes.Keys
      && deleted <= nodes.Keys
      && live !! deleted
    }

    /** Every entry but `skip` shows its node and its deleted mark. */
    ghost predicate Entries(skip: nat)
      requires Shape()
      reads this, elements, heapElements
    {
      forall h :: h in nodes && h != skip ==>
        NodeOf(elements[h]) == nodes[h] && (elements[h].heapElement == 0 <==> h in deleted)
    }

    /** Slots `1 .. n-1` except `hole` and the queued handles except `skip` point at each other. */
    ghost predicate Linked(n: nat, hole: nat, skip: nat)
      requires Shape() && (n <= 1 || n <= heapElements.Length)
      reads this, elements, heapElements
    {
      && (forall j :: 1 <= j < n && j != hole ==>
            && heapElements[j].element in live && heapElements[j].element != skip
            && elements[heapElements[j].element].heapElement == j
            && elements[heapElements[j].element].key == heapElements[j].key)
      && (forall h :: h in live && h != skip ==>
            && 1 <= elements[h].heapElement < n && elements[h].heapElement != hole
            && heapElements[elements[h].heapElement].element == h)
    }

    /** Heap order of the slots `1 .. n-1` except around `hole`. */
    ghost predicate Ordered(n: nat, hole: nat)
      requires n <= 1 || n <= heapElements.Length
      reads this, heapElements
    {
      OrderedSlots(heapElements[..], n, hole)
    }

    ghost predicate Valid()
      reads this, elements, heapElements
    {
      Shape() && Entries(0) && Linked(size, 0, 0) && Ordered(size, 0)
    }

    constructor ()
      ensures Valid() && fresh(elements) && fresh(heapElements)
      ensures nodes == map[] && live == {} && deleted == {} && elementsSize == 1
    {
      size, elementsSize := 1, 1;
      elements := new Element[0];
      heapElements := new HeapElement[0];
      nodes, live, deleted := map[], {}, {};
      new;
      assert elements as object != heapElements;
    }

    /** The new element, held outside the heap, fits below the parents and above the children of the hole. */
    ghost predicate Carries(hole: nat, element: nat, key: int)
      requires Shape()
      reads this, elements, heapElements
    {
      && 1 <= hole < size
      && element in live
      && Entries(element) && NodeOf(elements[element]).(key := key) == nodes[element]
      && Linked(size, hole, element) && Ordered(size, hole)
      && ChildrenAbove(heapElements[..], size, hole, key)
    }

    /** One turn of the loops that pull a parent down into the hole. */
    method PullParent(i: nat, element: nat, key: int)
      requires Shape() && Carries(i, element, key)
      requires i > 1 && heapElements[i / 2].key > key
      modifies elements, heapElements
      ensures Shape() && Carries(i / 2, element, key)
    {
      var moved := heapElements[i / 2];
      assert elements[moved.element].heapElement == i / 2;
      OrderedAfterPull(heapElements[..], size, i, key);
      heapElements[i] := moved;
      assert heapElements[..] == old(heapElements[..])[i := moved];
      elements[moved.element] := elements[moved.element].(heapElement := i);
      assert Entries(element);
    }

    /** The stores that drop the carried element into the hole. */
    method Fill(i: nat, element: nat, key: int)
      requires Shape() && Carries(i, element, key)
      requires i > 1 ==> heapElements[i / 2].key <= key
      modifies elements, heapElements
      ensures Valid()
    {
      OrderedAfterFill(heapElements[..], size, i, HeapElement(key, element));
      heapElements[i] := HeapElement(key, element);
      assert heapElements[..] == old(heapElements[..])[i := HeapElement(key, element)];
      elements[element] := elements[element].(heapElement := i, key := key);
    }

    /** The loop shared by insertion and decrease-key. */
    method SiftUp(slot: nat, element: nat, key: int)
      requires Shape() && Carries(slot, element, key)
      modifies elements, heapElements
      ensures Valid()
    {
      var i := slot;
      while i > 1 && heapElements[i / 2].key > key
        invariant Shape() && Carries(i, element, key)
      {
        PullParent(i, element, key);
        i := i / 2;
      }
      Fill(i, element, key);
    }

    /** `g_renew` on the slots: a bigger array with the old contents in front. */
    method GrowHeap()
      requires Valid()
      modifies this`heapElements
      ensures Valid() && fresh(heapElements) && size < heapElements.Length
    {
      var bigger := new HeapElement[size + STEP];
      forall j | 0 <= j < heapElements.Length && j < bigger.Length {
        bigger[j] := heapElements[j];
      }
      heapElements := bigger;
    }

    /** `g_renew` on the entries. */
    method GrowElements()
      requires Valid()
      modifies this`elements
      ensures Valid() && fresh(elements) && elementsSize < elements.Length
    {
      var bigger := new Element[elementsSize + STEP];
      forall j | 0 <= j < elements.Length && j < bigger.Length {
        bigger[j] := elements[j];
      }
      elements := bigger;
    }

    /** Room for one more slot and one more entry. */
    method Reserve()
      requires Valid()
      modifies this`heapElements, this`elements
      ensures Valid() && size < heapElements.Length && elementsSize < elements.Length
      ensures elements == old(elements) || fresh(elements)
      ensures heapElements == old(heapElements) || fresh(heapElements)
    {
      if size >= heapElements.Length {
        GrowHeap();
      }
      if elementsSize >= elements.Length {
        GrowElements();
      }
    }

    /** Claims the next entry for a node; it is not queued yet. */
    method ClaimElement(nodeId: ItemId) returns (element: nat)
      requires Valid() && elementsSize < elements.Length && size < heapElements.Length
      modifies this`elementsSize, this`nodes, elements
      ensures Valid() && element !in live && element !in deleted && size < heapElements.Length
      ensures element == old(elementsSize) && elementsSize == element + 1 && element !in old(nodes)
        && nodes.Keys == old(nodes).Keys + {element}
      ensures nodes[element].id == nodeId && nodes == old(nodes)[element := nodes[element]]
    {
      element := elementsSize;
      assert element !in nodes;
      elementsSize := elementsSize + 1;
      elements[element] := elements[element].(nodeId := nodeId, heapElement := size);
      nodes := nodes[element := NodeOf(elements[element])];
    }

    /** Opens a hole at the end of the heap for a new element. */
    method ClaimSlot(key: int, element: nat)
      requires Valid() && size < heapElements.Length && element in nodes && element !in live && element !in deleted
      modifies this`size, this`nodes, this`live
      ensures Shape() && Carries(size - 1, element, key)
      ensures nodes == old(nodes)[element := old(nodes)[element].(key := key)]
      ensures live == old(live) + {element}
    {
      OrderedAfterClaim(heapElements[..], size, key);
      size := size + 1;
      nodes := nodes[element := nodes[element].(key := key)];
      live := live + {element};
    }

    /** Puts a claimed element into the heap. */
    method Enqueue(key: int, element: nat)
      requires Valid() && size < heapElements.Length && element in nodes && element !in live && element !in deleted
      modifies this`size, this`nodes, this`live, elements, heapElements
      ensures Valid()
      ensures nodes == old(nodes)[element := old(nodes)[element].(key := key)]
      ensures live == old(live) + {element}
    {
      ClaimSlot(key, element);
      SiftUp(size - 1, element, key);
    }

    /** Insertion once there is room. */
    method InsertReserved(key: int, nodeId: ItemId) returns (element: nat)
      requires Valid() && size < heapElements.Length && elementsSize < elements.Length
      modifies this`size, this`elementsSize, this`nodes, this`live, elements, heapElements
      ensures Valid() && element == old(elementsSize) && elementsSize == element + 1 && element !in old(nodes)
        && element in nodes
      ensures nodes[element].id == nodeId && nodes[element].key == key
      ensures nodes == old(nodes)[element := nodes[element]]
      ensures live == old(live) + {element}
    {
      element := ClaimElement(nodeId);
      ghost var claimed := nodes[element];
      Enqueue(key, element);
      assert old(nodes)[element := claimed][element := claimed.(key := key)]
        == old(nodes)[element := claimed.(key := key)];
    }

    /** Queues a node under a new handle. Its parent and stall value stay unset, as `pq_insert` leaves them. */
    method Insert(key: int, nodeId: ItemId) returns (element: nat)
      requires Valid()
      modifies this, elements, heapElements
      ensures Valid() && (elements == old(elements) || fresh(elements))
        && (heapElements == old(heapElements) || fresh(heapElements))
      ensures element == old(elementsSize) && elementsSize == element + 1 && element !in old(nodes) && element in nodes
      ensures nodes[element].id == nodeId && nodes[element].key == key
      ensures nodes == old(nodes)[element := nodes[element]]
      ensures live == old(live) + {element} && deleted == old(deleted)
    {
      Reserve();
      element := InsertReserved(key, nodeId);
    }

    /** Lowers the key of a queued handle. */
    method DecreaseKey(element: nat, key: int)
      requires Valid() && element in live && key <= nodes[element].key
      modifies this`nodes, elements, heapElements
      ensures Valid() && nodes == old(nodes)[element := old(nodes)[element].(key := key)]
    {
      nodes := nodes[element := nodes[element].(key := key)];
      SiftUp(elements[element].heapElement, element, key);
    }

    lemma RootIsMinimal(j: nat)
      requires Valid() && 1 <= j < size
      ensures heapElements[1].key <= heapElements[j].key
    {
      if j > 1 {
        RootIsMinimal(j / 2);
      }
    }

    /** While the hole sinks: `last` fits below the hole's parent, and slot `size` still holds it. */
    ghost predicate Sinks(hole: nat, last: HeapElement)
      requires Shape()
      reads this, elements, heapElements
    {
      && 1 <= hole < size < heapElements.Length
      && heapElements[size] == last
      && last.element in live && elements[last.element].key == last.key
      && (forall h :: h in nodes && h != last.element ==>
        NodeOf(elements[h]) == nodes[h] && (elements[h].heapElement == 0 <==> h in deleted))
      && NodeOf(elements[last.element]) == nodes[last.element]
      && Linked(size, hole, last.element) && Ordered(size, hole)
      && (hole > 1 ==> heapElements[hole / 2].key <= last.key)
    }

    /** One turn of the loop of `pq_delete_min`: the smaller child `j` moves up into the hole `i`. */
    method PullChild(i: nat, j: nat, last: HeapElement)
      requires Shape() && Sinks(i, last)
      requires 1 <= j < size && j / 2 == i && heapElements[j].key < last.key
      requires forall k :: 1 <= k < size && k / 2 == i ==>
        heapElements[j].key <= heapElements[k].key || last.key < heapElements[k].key
      modifies elements, heapElements
      ensures Shape() && Sinks(j, last)
    {
      var moved := heapElements[j];
      assert elements[moved.element].heapElement == j;
      heapElements[i] := moved;
      assert Ordered(size, j);
      elements[moved.element] := elements[moved.element].(heapElement := i);
    }

    /**
     The child the loop compares with: the smaller one, where the stale slot at `size` counts as a
     child with the key of `last`.
     */
    method SmallerChild(i: nat, last: HeapElement) returns (j: nat)
      requires Shape() && Sinks(i, last) && i <= size / 2
      ensures 2 * i <= j <= 2 * i + 1 && j <= size
      ensures j == size ==> heapElements[j].key == last.key
      ensures heapElements[j].key < last.key ==> j < size
      ensures forall k :: 1 <= k < size && k / 2 == i ==>
        heapElements[j].key <= heapElements[k].key || last.key < heapElements[k].key
    {
      j := 2 * i;
      if j < size && heapElements[j].key > heapElements[j + 1].key {
        j := j + 1;
      }
    }

    /** The final stores of `pq_delete_min`. */
    method FillLast(i: nat, last: HeapElement)
      requires Shape() && Sinks(i, last)
      requires ChildrenAbove(heapElements[..], size, i, last.key)
      modifies elements, heapElements
      ensures Valid()
    {
      OrderedAfterFill(heapElements[..], size, i, last);
      heapElements[i] := last;
      assert heapElements[..] == old(heapElements[..])[i := last];
      elements[last.element] := elements[last.element].(heapElement := i);
    }

    /** The loop of `pq_delete_min`, using the stale slot at `size` as a sentinel. */
    method SiftDown(last: HeapElement)
      requires Shape() && Sinks(1, last)
      modifies elements, heapElements
      ensures Valid()
    {
      var i := 1;
      while i <= size / 2
        invariant Shape() && Sinks(i, last)
        decreases size - i
      {
        var j := SmallerChild(i, last);
        if heapElements[j].key >= last.key {
          break;
        }
        PullChild(i, j, last);
        i := j;
      }
      FillLast(i, last);
    }

    lemma RootIsMinimum()
      requires Valid() && size > 1
      ensures heapElements[1].element in live
      ensures forall h :: h in live ==> nodes[heapElements[1].element].key <= nodes[h].key
    {
      forall h | h in live ensures nodes[heapElements[1].element].key <= nodes[h].key {
        RootIsMinimal(elements[h].heapElement);
      }
    }

    /** The root leaves the heap, which becomes empty: `last` is the root, and its slot reads 1 again. */
    method TakeOnly(min: HeapElement)
      requires Valid() && size == 2 && min == heapElements[1]
      modifies this`size, this`live, elements, heapElements
      ensures Valid() && live == {} && old(live) == {min.element}
    {
      size := size - 1;
      var last := heapElements[size];
      elements[min.element] := elements[min.element].(heapElement := 0);
      heapElements[1] := last;
      elements[last.element] := elements[last.element].(heapElement := 1);
      live := {};
    }

    /** The root leaves a heap of several: its slot reads 0 and `last` is to sink from the root. */
    method TakeRoot(min: HeapElement) returns (last: HeapElement)
      requires Valid() && size > 2 && min == heapElements[1]
      modifies this`size, this`live, this`deleted, elements
      ensures Shape() && Sinks(1, last)
      ensures live == old(live) - {min.element} && deleted == old(deleted) + {min.element}
    {
      elements[min.element] := elements[min.element].(heapElement := 0);
      live, deleted := live - {min.element}, deleted + {min.element};
      size := size - 1;
      last := heapElements[size];
    }

    /** Takes a handle with the smallest key out of the queue. */
    method DeleteMin() returns (found: bool, nodeId: ItemId, key: int, element: nat)
      requires Valid()
      modifies this`size, this`live, this`deleted, elements, heapElements
      ensures Valid()
      ensures found <==> old(live) != {}
      ensures !found ==> live == old(live) && deleted == old(deleted)
      ensures found ==>
        && element in old(live) && nodeId == nodes[element].id && key == nodes[element].key
        && (forall h :: h in old(live) ==> key <= nodes[h].key)
        && live == old(live) - {element}
        && deleted == if live == {} then old(deleted) else old(deleted) + {element}
    {
      found, nodeId, key, element := false, ItemId(0, 0), 0, 0;
      if size <= 1 {
        return;
      }
      RootIsMinimum();
      var min := heapElements[1];
      found, nodeId, key, element := true, elements[min.element].nodeId, min.key, min.element;
      if size == 2 {
        TakeOnly(min);
      } else {
        assert heapElements[2].element in live - {element};
        var last := TakeRoot(min);
        SiftDown(last);
      }
    }

    method SetParent(element: nat, parent: Option<ItemId>, stalled: int)
      requires Valid() && element in nodes
      modifies this`nodes, elements
      ensures Valid() && nodes == old(nodes)[element := old(nodes)[element].(parent := parent, stalled := stalled)]
    {
      elements[element] := elements[element].(parent := parent, stalled := stalled);
      nodes := nodes[element := nodes[element].(parent := parent, stalled := stalled)];
    }

    method SetStalled(element: nat, stalled: int)
      requires Valid() && element in nodes
      modifies this`nodes, elements
      ensures Valid() && nodes == old(nodes)[element := old(nodes)[element].(stalled := stalled)]
    {
      elements[element] := elements[element].(stalled := stalled);
      nodes := nodes[element := nodes[element].(stalled := stalled)];
    }

    /** `pq_get_key`, `pq_get_parent_node_id` and `pq_get_stalled` in one: the handle's node. */
    method Get(element: nat) returns (node: Node)
      requires Valid() && element in nodes
      ensures node == nodes[element]
    {
      node := NodeOf(elements[element]);
    }

    method IsDeleted(element: nat) returns (b: bool)
      requires Valid() && element in nodes
      ensures b <==> element in deleted
    {
      b := elements[element].heapElement == 0;
    }

    method IsEmpty() returns (b: bool)
      requires Valid()
      ensures b <==> live == {}
    {
      assert size > 1 ==> heapElements[1].element in live;
      b := size <= 1;
    }

    /** The key in slot 1, which is stale when nothing is queued. */
    method Min() returns (key: int)
      requires Valid() && nodes != map[]
      ensures live != {} ==>
        (exists h :: h in live && nodes[h].key == key)
        && forall h :: h in live ==> key <= nodes[h].key
    {
      assert elementsSize > 1 by {
        var h :| h in nodes;
      }
      if size > 1 {
        RootIsMinimum();
        assert nodes[heapElements[1].element].key == heapElements[1].key;
      }
      key := heapElements[1].key;
    }

    /** The self-check: `ok` when it would print nothing. */
    method Check() returns (ok: bool)
      requires Shape() && forall j :: 1 <= j < size ==> heapElements[j].element < elements.Length
      ensures ok <==>
        && (forall j :: 2 <= j < size ==> heapElements[j / 2].key <= heapElements[j].key)
        && (forall j :: 1 <= j < size ==> elements[heapElements[j].element].heapElement == j)
      ensures Valid() ==> ok
    {
      ok := true;
      var i := 2;
      while i < size
        invariant forall j :: 2 <= j < size && j < i ==> heapElements[j / 2].key <= heapElements[j].key
      {
        if heapElements[i / 2].key > heapElements[i].key {
          return false;
        }
        i := i + 1;
      }
      for i := 1 to size
        invariant ok <==> forall j :: 1 <= j < i ==> elements[heapElements[j].element].heapElement == j
      {
        if i != elements[heapElements[i].element].heapElement {
          ok := false;
        }
      }
    }
  }
}
