/** The doubly linked list of src/simclist.c: sentinels, cached middle pointer,
    spare-node pool and iteration lock, refining a mathematical sequence. */
module SimCList {
  import opened Wrappers
  import opened Ordering

  /** SIMCLIST_MAX_SPARE_ELEMS */
  const MAX_SPARE_ELEMS := 5

  /** SIMCLIST_MINQUICKSORTELS */
  const MIN_QUICKSORT_ELS := 24

  class Entry<T> {
    var data: T
    var next: Entry?<T>
    var prev: Entry?<T>

    constructor (data: T)
      ensures this.data == data && next == null && prev == null
    {
      this.data := data;
      next, prev := null, null;
    }
  }

  /** Index of the middle element of a list of n elements; -1 is the head sentinel. */
  function MidIndex(n: nat): int {
    if n == 0 then -1 else (n - 1) / 2
  }

  class List<T(==, !new)> {
    /** What C calls NULL, among the element values. */
    const nil: T

    var head: Entry<T>
    var tail: Entry<T>
    var mid: Entry?<T>
    var numels: nat
    var spareels: array<Entry?<T>>
    var spareelsnum: nat
    /** attrs.comparator: < 0, 0, > 0 when its first argument is greater, equal, smaller. */
    var comparator: Option<(T, T) -> int>
    var iterActive: bool
    var iterPos: nat
    var iterCurEntry: Entry?<T>

    /** Both sentinels and the entries between them, in list order. */
    ghost var nodes: seq<Entry<T>>
    /** The abstract value: the elements in list order. */
    ghost var elems: seq<T>
    /** Every object the list owns. */
    ghost var Repr: set<object>

    ghost predicate Linked()
      reads this`nodes, this`elems, this`head, this`tail, nodes
    {
      && |nodes| == |elems| + 2
      && nodes[0] == head && nodes[|elems| + 1] == tail
      && head.prev == null && tail.next == null
      && head.data == nil && tail.data == nil
      && (forall i, j {:trigger nodes[i], nodes[j]} :: 0 <= i < j < |nodes| ==> nodes[i] != nodes[j])
      && (forall i {:trigger nodes[i].next} :: 0 <= i <= |elems| ==> nodes[i].next == nodes[i + 1])
      && (forall i {:trigger nodes[i].prev} :: 1 <= i <= |elems| + 1 ==> nodes[i].prev == nodes[i - 1])
      && (forall i {:trigger elems[i]} :: 0 <= i < |elems| ==> nodes[i + 1].data == elems[i])
    }

    /** mid is the entry at index (n-1)/2, or NULL in an empty list. */
    ghost predicate MidOk()
      requires |nodes| == |elems| + 2
      reads this`mid, this`nodes, this`elems
    {
      if |elems| == 0 then mid == null else mid == nodes[MidIndex(|elems|) + 1]
    }

    /** At most five distinct spare entries, none of them among ns. */
    ghost predicate PoolFor(ns: seq<Entry<T>>)
      reads this`spareels, this`spareelsnum, spareels
    {
      && spareels.Length == MAX_SPARE_ELEMS
      && spareelsnum <= MAX_SPARE_ELEMS
      && (forall i {:trigger spareels[i]} :: 0 <= i < spareelsnum ==> spareels[i] != null && spareels[i] !in ns)
      && (forall i, j {:trigger spareels[i], spareels[j]} :: 0 <= i < j < spareelsnum ==> spareels[i] != spareels[j])
    }

    ghost predicate Pool()
      reads this`spareels, this`spareelsnum, this`nodes, spareels
    {
      PoolFor(nodes)
    }

    ghost predicate Owned()
      reads this`Repr, this`spareels, this`spareelsnum, this`nodes, spareels
    {
      && (forall i {:trigger nodes[i]} :: 0 <= i < |nodes| ==> nodes[i] in Repr)
      && (forall i {:trigger spareels[i]} :: 0 <= i < spareelsnum <= spareels.Length && spareels[i] != null ==> spareels[i] in Repr)
    }

    ghost predicate Valid()
      reads this, Repr
      ensures Valid() ==> this in Repr
    {
      && this in Repr && spareels in Repr && Owned()
      && numels == |elems| && Linked() && MidOk() && Pool()
    }

    /** Nothing but the elements changes. */
    twostate predicate SameSettings()
      reads this
    {
      && comparator == old(comparator)
      && iterActive == old(iterActive) && iterPos == old(iterPos) && iterCurEntry == old(iterCurEntry)
    }

    constructor (nil: T)
      ensures Valid() && fresh(Repr)
      ensures this.nil == nil && elems == [] && comparator == None && !iterActive
    {
      this.nil := nil;
      var h := new Entry(nil);
      var t := new Entry(nil);
      h.next, t.prev := t, h;
      head, tail, mid, numels := h, t, null, 0;
      spareels, spareelsnum := new Entry?<T>[MAX_SPARE_ELEMS], 0;
      comparator := None;
      iterActive, iterPos, iterCurEntry := false, 0, null;
      nodes, elems := [h, t], [];
      Repr := {this, spareels, h, t};
    }

    method FindPos(pos: int) returns (ptr: Entry?<T>, ghost links: nat)
      requires Valid()
      ensures (ptr == null) == (pos < -1 || pos > numels)
      ensures ptr != null ==> ptr == nodes[pos + 1]
      ensures links <= numels / 4 + 1
    {
      links := 0;
      if pos < -1 || pos > numels {
        return null, 0;
      }
      var i: int;
      if numels != 0 && 4 * (pos + 1) <= numels {
        i, ptr := -1, head;
        while i < pos
          invariant -1 <= i <= pos && ptr == nodes[i + 1] && links == i + 1
        {
          ptr, i, links := ptr.next, i + 1, links + 1;
        }
      } else if numels != 0 && 2 * (pos + 1) < numels {
        i, ptr := (numels - 1) / 2, mid;
        while i > pos
          invariant pos <= i <= numels && ptr == nodes[i + 1] && links == (numels - 1) / 2 - i
        {
          ptr, i, links := ptr.prev, i - 1, links + 1;
        }
      } else if numels != 0 && 4 * (pos + 1) <= 3 * numels {
        i, ptr := (numels - 1) / 2, mid;
        while i < pos
          invariant 0 <= i <= pos && ptr == nodes[i + 1] && links == i - (numels - 1) / 2
        {
          ptr, i, links := ptr.next, i + 1, links + 1;
        }
      } else {
        i, ptr := numels, tail;
        while i > pos
          invariant pos <= i <= numels && ptr == nodes[i + 1] && links == numels - i
        {
          ptr, i, links := ptr.prev, i - 1, links + 1;
        }
      }
    }

    /** Pops a spare entry, or allocates one when the pool is empty. */
    method TakeEntry(data: T) returns (lent: Entry<T>)
      requires Valid()
      modifies this`spareelsnum, this`Repr, Repr - {this}
      ensures Valid() && lent !in nodes && lent in Repr && fresh(Repr - old(Repr))
      ensures lent.data == data && (forall i :: 0 <= i < spareelsnum ==> spareels[i] != lent)
    {
      if spareelsnum > 0 {
        lent := spareels[spareelsnum - 1];
        spareelsnum := spareelsnum - 1;
        lent.data := data;
      } else {
        lent := new Entry(data);
        Repr := Repr + {lent};
      }
    }

    /** Relinks lent between its new neighbours. */
    method Splice(prec: Entry<T>, lent: Entry<T>, pos: nat)
      requires Linked() && pos <= |elems| && prec == nodes[pos] && lent !in nodes
      modifies this`nodes, this`elems, nodes, lent
      ensures Linked()
      ensures elems == old(elems[..pos] + [lent.data] + elems[pos..])
      ensures nodes == old(nodes[..pos + 1] + [lent] + nodes[pos + 1..])
    {
      var succ := prec.next;
      prec.next := lent;
      lent.prev := prec;
      lent.next := succ;
      succ.prev := lent;
      nodes := nodes[..pos + 1] + [lent] + nodes[pos + 1..];
      elems := elems[..pos] + [lent.data] + elems[pos..];
    }

    /** The middle pointer after an insertion at pos; numels already counts it. */
    method FixMidAfterInsert(lent: Entry<T>, pos: nat)
      requires Linked() && numels == |elems| && pos < numels && nodes[pos + 1] == lent
      requires numels > 1 ==> mid == nodes[if pos <= MidIndex(numels - 1) then MidIndex(numels - 1) + 2 else MidIndex(numels - 1) + 1]
      modifies this`mid
      ensures MidOk()
    {
      if numels == 1 {
        mid := lent;
      } else if numels % 2 == 1 {
        if pos >= (numels - 1) / 2 { mid := mid.next; }
      } else {
        if pos <= (numels - 1) / 2 { mid := mid.prev; }
      }
    }

    /** The whole insertion but for the element count and the middle pointer. */
    method InsertEntry(data: T, pos: nat) returns (lent: Entry<T>)
      requires Valid() && pos <= numels
      modifies this`nodes, this`elems, this`Repr, this`spareelsnum, Repr - {this}
      ensures Linked() && Pool() && Owned() && fresh(Repr - old(Repr))
      ensures this in Repr && spareels in Repr
      ensures elems == old(elems[..pos] + [data] + elems[pos..])
      ensures nodes == old(nodes[..pos + 1]) + [lent] + old(nodes[pos + 1..])
    {
      lent := TakeEntry(data);
      var prec, _ := FindPos(pos - 1);
      Splice(prec, lent, pos);
    }

    method InsertAt(data: T, pos: nat) returns (r: int)
      requires Valid()
      modifies Repr
      ensures Valid() && fresh(Repr - old(Repr))
      ensures SameSettings()
      ensures r == if old(iterActive) || pos > old(|elems|) then -1 else 1
      ensures elems == if r == -1 then old(elems) else old(elems[..pos] + [data] + elems[pos..])
      ensures r == -1 ==> unchanged(old(Repr))
    {
      if iterActive || pos > numels {
        return -1;
      }
      var lent := InsertEntry(data, pos);
      numels := numels + 1;
      FixMidAfterInsert(lent, pos);
      return 1;
    }

    method Append(data: T) returns (r: int)
      requires Valid()
      modifies Repr
      ensures Valid() && fresh(Repr - old(Repr))
      ensures SameSettings()
      ensures r == if old(iterActive) then -1 else 1
      ensures elems == if old(iterActive) then old(elems) else old(elems) + [data]
      ensures r == -1 ==> unchanged(old(Repr))
    {
      assert elems[..|elems|] == elems;
      r := InsertAt(data, numels);
    }

    method Prepend(data: T) returns (r: int)
      requires Valid()
      modifies Repr
      ensures Valid() && fresh(Repr - old(Repr))
      ensures SameSettings()
      ensures r == if old(iterActive) then -1 else 1
      ensures elems == if old(iterActive) then old(elems) else [data] + old(elems)
      ensures r == -1 ==> unchanged(old(Repr))
    {
      r := InsertAt(data, 0);
    }

    method GetAt(pos: nat) returns (data: T)
      requires Valid()
      ensures data == if pos < |elems| then elems[pos] else nil
    {
      var tmp, _ := FindPos(pos);
      data := if tmp != null then tmp.data else nil;
    }

    /** Keeps an unlinked entry as a spare while there is room. */
    method Recycle(e: Entry<T>)
      requires Pool() && Owned() && e !in nodes && e in Repr
      requires forall i :: 0 <= i < spareelsnum ==> spareels[i] != e
      modifies this`spareelsnum, spareels
      ensures Pool() && Owned()
      ensures forall i :: 0 <= i < spareelsnum && spareels[i] != e ==> i < old(spareelsnum) && spareels[i] == old(spareels[i])
    {
      if spareelsnum < MAX_SPARE_ELEMS {
        spareels[spareelsnum] := e;
        spareelsnum := spareelsnum + 1;
      }
    }

    /** The middle pointer, before the entry at pos leaves the list. */
    method FixMidBeforeDrop(pos: nat)
      requires numels == |elems| && Linked() && MidOk() && pos < numels
      modifies this`mid
      ensures mid == if numels == 1 then null
                     else nodes[if MidIndex(numels - 1) < pos then MidIndex(numels - 1) + 1 else MidIndex(numels - 1) + 2]
    {
      if numels % 2 == 1 {
        if numels == 1 { mid := null; }
        else if pos >= numels / 2 { mid := mid.prev; }
      } else {
        if pos < numels / 2 { mid := mid.next; }
      }
    }

    method Unlink(tmp: Entry<T>, pos: nat)
      requires Linked() && pos < |elems| && tmp == nodes[pos + 1]
      modifies this`nodes, this`elems, nodes
      ensures Linked()
      ensures elems == old(elems[..pos] + elems[pos + 1..])
      ensures nodes == old(nodes[..pos + 1] + nodes[pos + 2..])
    {
      tmp.prev.next := tmp.next;
      tmp.next.prev := tmp.prev;
      nodes := nodes[..pos + 1] + nodes[pos + 2..];
      elems := elems[..pos] + elems[pos + 1..];
    }

    /** Takes the entry at pos out of the list and recycles it. */
    method Detach(tmp: Entry<T>, pos: nat)
      requires Linked() && Pool() && Owned() && this in Repr && spareels in Repr
      requires pos < |elems| && tmp == nodes[pos + 1]
      modifies this`nodes, this`elems, this`spareelsnum, Repr - {this}
      ensures Linked() && Pool() && Owned()
      ensures elems == old(elems[..pos] + elems[pos + 1..])
      ensures nodes == old(nodes[..pos + 1] + nodes[pos + 2..])
    {
      Unlink(tmp, pos);
      Recycle(tmp);
    }

    /** list_drop_elem: the caller decrements numels afterwards. */
    method DropElem(tmp: Entry<T>, pos: nat)
      requires Valid() && pos < numels && tmp == nodes[pos + 1]
      modifies this`mid, this`nodes, this`elems, this`spareelsnum, Repr - {this}
      ensures Linked() && MidOk() && Pool() && Owned()
      ensures elems == old(elems[..pos] + elems[pos + 1..])
    {
      FixMidBeforeDrop(pos);
      Detach(tmp, pos);
    }

    method ExtractAt(pos: nat) returns (data: T)
      requires Valid()
      modifies Repr
      ensures Valid() && Repr == old(Repr)
      ensures SameSettings()
      ensures old(iterActive) || pos >= old(|elems|) ==> data == nil && unchanged(old(Repr))
      ensures !old(iterActive) && pos < old(|elems|) ==>
                data == old(elems[pos]) && elems == old(elems[..pos] + elems[pos + 1..])
    {
      if iterActive || pos >= numels {
        return nil;
      }
      var tmp, _ := FindPos(pos);
      data := tmp.data;
      DropElem(tmp, pos);
      numels := numels - 1;
    }

    method DeleteAt(pos: nat) returns (r: int)
      requires Valid()
      modifies Repr
      ensures Valid() && Repr == old(Repr)
      ensures SameSettings()
      ensures r == if old(iterActive) || pos >= old(|elems|) then -1 else 0
      ensures elems == if r == -1 then old(elems) else old(elems[..pos] + elems[pos + 1..])
      ensures r == -1 ==> unchanged(old(Repr))
    {
      if iterActive || pos >= numels {
        return -1;
      }
      var delendo, _ := FindPos(pos);
      DropElem(delendo, pos);
      numels := numels - 1;
      return 0;
    }

    /** Whether list_locate(data) takes e for a match. */
    predicate Matches(data: T, e: T)
      reads this`comparator
    {
      match comparator
      case Some(cmp) => cmp(data, e) == 0
      case None => e == data
    }

    method Locate(data: T) returns (pos: int)
      requires Valid()
      ensures -1 <= pos < |elems|
      ensures pos >= 0 ==> Matches(data, elems[pos]) && forall i :: 0 <= i < pos ==> !Matches(data, elems[i])
      ensures pos == -1 ==> forall i :: 0 <= i < |elems| ==> !Matches(data, elems[i])
    {
      pos := 0;
      var el := head.next;
      while el != tail
        invariant 0 <= pos <= |elems| && el == nodes[pos + 1]
        invariant forall i :: 0 <= i < pos ==> !Matches(data, elems[i])
        decreases |elems| - pos
      {
        if Matches(data, el.data) { break; }
        el, pos := el.next, pos + 1;
      }
      if el == tail { return -1; }
    }

    method Delete(data: T) returns (r: int)
      requires Valid()
      modifies Repr
      ensures Valid() && Repr == old(Repr)
      ensures SameSettings()
      ensures r == 0 || r == -1
      ensures r == -1 ==> elems == old(elems) && (old(iterActive) || forall i :: 0 <= i < |elems| ==> !old(Matches(data, elems[i])))
      ensures r == 0 ==> !old(iterActive)
      ensures r == 0 ==> exists k: nat :: old(FirstMatch(data, k)) && elems == old(elems)[..k] + old(elems)[k + 1..]
      ensures r == -1 ==> unchanged(old(Repr))
    {
      var pos := Locate(data);
      if pos < 0 { return -1; }
      assert old(FirstMatch(data, pos));
      r := DeleteAt(pos);
      if r < 0 { return -1; }
      return 0;
    }

    /** k is where list_locate(data) stops. */
    ghost predicate FirstMatch(data: T, k: nat)
      reads this`elems, this`comparator
    {
      k < |elems| && Matches(data, elems[k]) && forall i :: 0 <= i < k ==> !Matches(data, elems[i])
    }

    method Clear() returns (r: int)
      requires Valid()
      modifies Repr
      ensures Valid() && Repr == old(Repr)
      ensures SameSettings()
      ensures r == if old(iterActive) then -1 else old(|elems|)
      ensures elems == if old(iterActive) then old(elems) else []
      ensures r == -1 ==> unchanged(old(Repr))
    {
      if iterActive { return -1; }
      r := numels;
      SpareAll();
      head.next := tail;
      tail.prev := head;
      nodes, elems := [head, tail], [];
      numels, mid := 0, null;
    }

    /** The loop of list_clear that moves entries to the pool while there is room. */
    method SpareAll()
      requires Valid()
      modifies this`spareelsnum, spareels
      ensures PoolFor([head, tail]) && Owned()
    {
      var s := head.next;
      ghost var k := 0;
      while spareelsnum < MAX_SPARE_ELEMS && s != tail
        invariant 0 <= k <= |elems| && s == nodes[k + 1]
        invariant PoolFor([head, tail] + nodes[k + 1..]) && Owned()
        decreases |elems| - k
      {
        spareels[spareelsnum] := s;
        spareelsnum := spareelsnum + 1;
        s, k := s.next, k + 1;
      }
      while s != tail
        invariant 0 <= k <= |elems| && s == nodes[k + 1]
        decreases |elems| - k
      {
        s, k := s.next, k + 1;
      }
    }

    /** Walks mid to the element that is in the middle once numdel elements from posstart on are gone. */
    method MoveMidForRange(posstart: nat, numdel: nat)
      requires numels == |elems| && Linked() && MidOk() && 0 < numdel < numels && posstart + numdel <= numels
      modifies this`mid
      ensures mid == nodes[var m := MidIndex(numels - numdel); if m < posstart then m + 1 else m + numdel + 1]
    {
      var midposafter := (numels - 1 - numdel) / 2;
      midposafter := if midposafter < posstart then midposafter else midposafter + numdel;
      var movedx := midposafter - (numels - 1) / 2;
      ghost var m0 := MidIndex(numels);
      var i := 0;
      if movedx > 0 {
        while i < movedx
          invariant 0 <= i <= movedx && mid == nodes[m0 + i + 1]
        {
          mid, i := mid.next, i + 1;
        }
      } else {
        movedx := -movedx;
        while i < movedx
          invariant 0 <= i <= movedx && mid == nodes[m0 - i + 1]
        {
          mid, i := mid.prev, i + 1;
        }
      }
    }

    /** Recycles the entries of the closed range; tmp ends on the entry after it. */
    method RecycleRange(first: Entry<T>, posstart: nat, posend: nat) returns (tmp: Entry<T>)
      requires Linked() && Pool() && Owned()
      requires posstart <= posend < |elems| && first == nodes[posstart + 1]
      modifies this`spareelsnum, spareels
      ensures tmp == nodes[posend + 2]
      ensures PoolFor(nodes[..posstart + 1] + nodes[posend + 2..]) && Owned()
    {
      tmp := first;
      var i := posstart;
      while i <= posend
        invariant posstart <= i <= posend + 1 && tmp == nodes[i + 1]
        invariant PoolFor(nodes[..posstart + 1] + nodes[i + 1..]) && Owned()
      {
        var tmp2 := tmp;
        tmp := tmp.next;
        if spareelsnum < MAX_SPARE_ELEMS {
          spareels[spareelsnum] := tmp2;
          spareelsnum := spareelsnum + 1;
        }
        i := i + 1;
      }
    }

    method UnlinkRange(lastvalid: Entry<T>, tmp: Entry<T>, posstart: nat, posend: nat)
      requires Linked() && posstart <= posend < |elems|
      requires lastvalid == nodes[posstart] && tmp == nodes[posend + 2]
      modifies this`nodes, this`elems, nodes
      ensures Linked()
      ensures elems == old(elems[..posstart] + elems[posend + 1..])
      ensures nodes == old(nodes[..posstart + 1] + nodes[posend + 2..])
    {
      lastvalid.next := tmp;
      tmp.prev := lastvalid;
      nodes := nodes[..posstart + 1] + nodes[posend + 2..];
      elems := elems[..posstart] + elems[posend + 1..];
    }

    method CutRange(first: Entry<T>, posstart: nat, posend: nat)
      requires Linked() && Pool() && Owned() && this in Repr && spareels in Repr
      requires posstart <= posend < |elems| && first == nodes[posstart + 1]
      modifies this`nodes, this`elems, this`spareelsnum, Repr - {this}
      ensures Linked() && Pool() && Owned()
      ensures elems == old(elems[..posstart] + elems[posend + 1..])
      ensures nodes == old(nodes[..posstart + 1] + nodes[posend + 2..])
    {
      var lastvalid := first.prev;
      var tmp := RecycleRange(first, posstart, posend);
      UnlinkRange(lastvalid, tmp, posstart, posend);
    }

    /** Takes a proper closed range out of the list, all but the element count. */
    method DetachRange(posstart: nat, posend: nat)
      requires Valid() && posstart <= posend < numels && posend - posstart + 1 < numels
      modifies this`mid, this`nodes, this`elems, this`spareelsnum, Repr - {this}
      ensures Linked() && MidOk() && Pool() && Owned()
      ensures elems == old(elems[..posstart] + elems[posend + 1..])
    {
      var first, _ := FindPos(posstart);
      MoveMidForRange(posstart, posend - posstart + 1);
      CutRange(first, posstart, posend);
    }

    method DeleteRange(posstart: nat, posend: nat) returns (r: int)
      requires Valid()
      modifies Repr
      ensures Valid() && Repr == old(Repr)
      ensures SameSettings()
      ensures r == if old(iterActive) || posend < posstart || posend >= old(|elems|) then -1 else posend - posstart + 1
      ensures elems == if r == -1 then old(elems) else old(elems[..posstart] + elems[posend + 1..])
      ensures r == -1 ==> unchanged(old(Repr))
    {
      if iterActive || posend < posstart || posend >= numels {
        return -1;
      }
      var numdel := posend - posstart + 1;
      if numdel == numels {
        r := Clear();
        return;
      }
      DetachRange(posstart, posend);
      numels := numels - numdel;
      return numdel;
    }

    method IteratorStart() returns (r: int)
      requires Valid()
      modifies this`iterActive, this`iterPos, this`iterCurEntry
      ensures r == if old(iterActive) then 0 else 1
      ensures old(iterActive) ==> SameSettings()
      ensures !old(iterActive) ==> Iterating(0)
    {
      if iterActive { return 0; }
      iterPos, iterActive, iterCurEntry := 0, true, head.next;
      return 1;
    }

    /** An iteration is active and its next element is the one at k. */
    ghost predicate Iterating(k: nat)
      reads this`iterActive, this`iterPos, this`iterCurEntry, this`nodes, this`elems
    {
      && iterActive && iterPos == k <= |elems| + 1 && |nodes| == |elems| + 2
      && iterCurEntry == if k <= |elems| then nodes[k + 1] else null
    }

    method IteratorNext() returns (data: T)
      requires Valid() && (iterActive ==> Iterating(iterPos) && iterPos <= |elems|)
      modifies this`iterPos, this`iterCurEntry
      ensures !old(iterActive) ==> data == nil && SameSettings()
      ensures old(iterActive) ==> data == (if old(iterPos) < |elems| then elems[old(iterPos)] else nil) && Iterating(old(iterPos) + 1)
    {
      if !iterActive { return nil; }
      data := iterCurEntry.data;
      iterCurEntry := iterCurEntry.next;
      iterPos := iterPos + 1;
    }

    method IteratorHasNext() returns (r: bool)
      requires Valid()
      ensures r == (iterActive && iterPos < |elems|)
    {
      if !iterActive { return false; }
      return iterPos < numels;
    }

    method IteratorStop() returns (r: int)
      modifies this`iterActive, this`iterPos
      ensures r == if old(iterActive) then 1 else 0
      ensures !iterActive && (old(iterActive) ==> iterPos == 0)
    {
      if !iterActive { return 0; }
      iterPos, iterActive := 0, false;
      return 1;
    }

    method NewSentinels() returns (h: Entry<T>, t: Entry<T>)
      ensures fresh(h) && fresh(t) && h != t
      ensures h.data == nil && h.prev == null && h.next == t
      ensures t.data == nil && t.prev == h && t.next == null
    {
      h := new Entry(nil);
      t := new Entry(nil);
      h.next, t.prev := t, h;
    }

    method PlaceSentinels(h: Entry<T>, t: Entry<T>)
      requires h != t && h.data == nil && h.prev == null && h.next == t
      requires t.data == nil && t.prev == h && t.next == null
      modifies this`head, this`tail, this`mid, this`numels, this`nodes, this`elems
      ensures Linked() && MidOk() && numels == 0 && elems == [] && nodes == [h, t]
    {
      nodes, elems := [h, t], [];
      head, tail, mid, numels := h, t, null, 0;
    }

    method ClearSettings(pool: array<Entry?<T>>)
      modifies this`spareels, this`spareelsnum, this`comparator, this`iterActive, this`iterPos, this`iterCurEntry
      ensures spareels == pool && spareelsnum == 0 && comparator == None && !iterActive
    {
      spareels, spareelsnum := pool, 0;
      comparator := None;
      iterActive, iterPos, iterCurEntry := false, 0, null;
    }

    /** list_init on storage that may hold anything. */
    method Init()
      modifies this
      ensures Valid() && fresh(Repr - {this})
      ensures elems == [] && comparator == None && !iterActive && spareelsnum == 0
    {
      var h, t := NewSentinels();
      var pool := new Entry?<T>[MAX_SPARE_ELEMS];
      PlaceSentinels(h, t);
      ClearSettings(pool);
      Repr := {this, spareels, h, t};
    }

    /** A list under construction: nodes ends at the last entry, the tail sentinel is not yet linked. */
    ghost predicate Chain()
      reads this`nodes, this`elems, this`head, nodes
    {
      && |nodes| == |elems| + 1
      && nodes[0] == head && head.prev == null && head.data == nil
      && (forall i, j {:trigger nodes[i], nodes[j]} :: 0 <= i < j < |nodes| ==> nodes[i] != nodes[j])
      && (forall i {:trigger nodes[i].next} :: 0 <= i < |elems| ==> nodes[i].next == nodes[i + 1])
      && (forall i {:trigger nodes[i].prev} :: 1 <= i <= |elems| ==> nodes[i].prev == nodes[i - 1])
      && (forall i {:trigger elems[i]} :: 0 <= i < |elems| ==> nodes[i + 1].data == elems[i])
    }

    /** The pieces of a list under construction are owned and kept apart from its pool and tail. */
    ghost predicate Apart()
      reads this`nodes, this`tail, this`Repr, this`spareels, this`spareelsnum, spareels
    {
      && this in Repr && spareels in Repr && tail in Repr && tail !in nodes
      && spareels.Length == MAX_SPARE_ELEMS && spareelsnum == 0
      && forall i {:trigger nodes[i]} :: 0 <= i < |nodes| ==> nodes[i] in Repr
    }

    method ExtendChain(el: Entry<T>, data: T) returns (next: Entry<T>)
      requires Chain() && Apart() && el == nodes[|elems|]
      modifies this`nodes, this`elems, this`Repr, el
      ensures Chain() && Apart() && fresh(next) && Repr == old(Repr) + {next}
      ensures nodes == old(nodes) + [next] && elems == old(elems) + [data]
    {
      next := new Entry(data);
      el.next := next;
      next.prev := el;
      nodes, elems, Repr := nodes + [next], elems + [data], Repr + {next};
    }

    /** Copies the elements of src to the end of the chain. */
    method CopyChain(first: Entry<T>, src: List<T>) returns (el: Entry<T>)
      requires Chain() && Apart() && first == nodes[|elems|]
      requires src.Valid() && src.Repr !! Repr
      modifies this`nodes, this`elems, this`Repr, first
      ensures Chain() && Apart() && el == nodes[|elems|]
      ensures elems == old(elems) + src.elems && old(nodes) <= nodes
      ensures fresh(Repr - old(Repr)) && (el == first || fresh(el))
      ensures src.Valid() && src.Repr !! Repr
    {
      el := first;
      var srcel := src.head.next;
      ghost var k := 0;
      while srcel != src.tail
        invariant 0 <= k <= |src.elems| && srcel == src.nodes[k + 1]
        invariant Chain() && Apart() && el == nodes[|elems|]
        invariant elems == old(elems) + src.elems[..k] && old(nodes) <= nodes
        invariant fresh(Repr - old(Repr)) && (el == first || fresh(el))
        invariant src.Valid() && src.Repr !! Repr
        decreases |src.elems| - k
      {
        el := ExtendChain(el, srcel.data);
        srcel, k := srcel.next, k + 1;
      }
    }

    /** Closes a chain with the tail sentinel. */
    method CloseChain(el: Entry<T>)
      requires Chain() && Apart() && el == nodes[|elems|]
      requires tail.next == null && tail.data == nil
      modifies this`nodes, el, tail
      ensures Linked() && Pool() && Owned()
      ensures nodes == old(nodes) + [tail]
    {
      el.next := tail;
      tail.prev := el;
      nodes := nodes + [tail];
    }

    /** From the last element of the first list to the middle of both, by the signed difference of their lengths. */
    method FixMidAfterConcat(n1: nat, n2: nat)
      requires Linked() && n1 + n2 == |elems| > 0 && mid == nodes[n1]
      modifies this`mid
      ensures MidOk()
    {
      var err := n2 - n1;
      var cnt := 0;
      if TruncDiv(err + 1, 2) > 0 {
        err := TruncDiv(err + 1, 2);
        while cnt < err
          invariant 0 <= cnt <= err && mid == nodes[n1 + cnt]
        {
          mid, cnt := mid.next, cnt + 1;
        }
      } else if TruncDiv(err, 2) < 0 {
        err := TruncDiv(-err, 2);
        while cnt < err
          invariant 0 <= cnt <= err && mid == nodes[n1 - cnt]
        {
          mid, cnt := mid.prev, cnt + 1;
        }
      }
    }

    /** Both copying loops of list_concat. */
    method CopyBoth(l1: List<T>, l2: List<T>) returns (el: Entry<T>)
      requires l1.Valid() && l2.Valid() && l1.Repr !! Repr && l2.Repr !! Repr
      requires Chain() && Apart() && elems == [] && nodes == [head]
      modifies this`nodes, this`elems, this`Repr, this`mid, head
      ensures Chain() && Apart() && fresh(Repr - old(Repr))
      ensures elems == l1.elems + l2.elems && mid == nodes[|l1.elems|]
      ensures el == nodes[|elems|] && (el == head || fresh(el))
    {
      el := CopyChain(head, l1);
      mid := el;
      el := CopyChain(el, l2);
    }

    /** Fills an empty list with both sources, all but the element count and the middle pointer. */
    method BuildFrom(l1: List<T>, l2: List<T>)
      requires l1.Valid() && l2.Valid() && l1.Repr !! Repr && l2.Repr !! Repr
      requires Linked() && Owned() && Pool() && this in Repr && spareels in Repr && elems == [] && spareelsnum == 0
      modifies this`nodes, this`elems, this`Repr, this`mid, head, tail
      ensures Linked() && Pool() && Owned() && this in Repr && spareels in Repr && fresh(Repr - old(Repr))
      ensures elems == l1.elems + l2.elems && mid == nodes[|l1.elems|]
    {
      nodes := [head];
      var el := CopyBoth(l1, l2);
      CloseChain(el);
    }

    /** The part of list_concat that follows the early return on two empty lists. */
    method JoinFrom(l1: List<T>, l2: List<T>)
      requires l1.Valid() && l2.Valid() && l1.Repr !! Repr && l2.Repr !! Repr
      requires Valid() && elems == [] && spareelsnum == 0 && |l1.elems| + |l2.elems| > 0
      modifies this`numels, this`nodes, this`elems, this`Repr, this`mid, head, tail
      ensures Valid() && fresh(Repr - old(Repr)) && elems == l1.elems + l2.elems
    {
      numels := l1.numels + l2.numels;
      BuildFrom(l1, l2);
      FixMidAfterConcat(l1.numels, l2.numels);
    }

    /** list_concat after the checks: this becomes a new list holding the elements of both. */
    method FillFrom(l1: List<T>, l2: List<T>)
      requires l1.Valid() && l2.Valid() && this !in l1.Repr && this !in l2.Repr
      modifies this
      ensures Valid() && fresh(Repr - {this})
      ensures elems == l1.elems + l2.elems && comparator == None && !iterActive
    {
      Init();
      if l1.numels + l2.numels == 0 { return; }
      JoinFrom(l1, l2);
    }

    method SwapData(x: Entry<T>, y: Entry<T>, ghost i: nat, ghost j: nat)
      requires Valid() && i < |elems| && j < |elems| && x == nodes[i + 1] && y == nodes[j + 1]
      modifies this`elems, x`data, y`data
      ensures Valid() && elems == old(elems[i := elems[j]][j := elems[i]])
    {
      var tmpdata := x.data;
      x.data := y.data;
      y.data := tmpdata;
      elems := elems[i := elems[j]][j := elems[i]];
    }

    method RotateData(x: Entry<T>, y: Entry<T>, z: Entry<T>, ghost i: nat, ghost m: nat, ghost p: nat)
      requires Valid() && i < |elems| && m < |elems| && p < |elems| && i != p && m != p
      requires x == nodes[i + 1] && y == nodes[m + 1] && z == nodes[p + 1]
      modifies this`elems, x`data, y`data, z`data
      ensures Valid() && elems == old(Rotated(elems, i, m, p))
    {
      var tmpdata := x.data;
      x.data := y.data;
      y.data := z.data;
      z.data := tmpdata;
      elems := Rotated(elems, i, m, p);
    }

    /** The inner loop of the selection sort: an entry that may stand before all of [f, last]. */
    method FindFirst(cmp: (T, T) -> int, versus: int, firstunsorted: Entry<T>, lel: Entry<T>, ghost f: nat, ghost last: nat)
      returns (toswap: Entry<T>, ghost t: nat)
      requires Valid()
      requires f < last < |elems| && firstunsorted == nodes[f + 1] && lel == nodes[last + 1]
      ensures f <= t <= last && toswap == nodes[t + 1]
      ensures AllAfter(cmp, versus, elems, f, last + 1, elems[t])
    {
      toswap, t := firstunsorted, f;
      GoesAfter(cmp, versus, elems[f], elems[f]);
      var cursor := firstunsorted.next;
      ghost var c := f + 1;
      while cursor != lel.next
        invariant f <= t < c <= last + 1 && toswap == nodes[t + 1] && cursor == nodes[c + 1]
        invariant AllAfter(cmp, versus, elems, f, c, elems[t])
        decreases last - c
      {
        GoesAfter(cmp, versus, elems[t], elems[c]);
        GoesAfter(cmp, versus, elems[c], elems[c]);
        if Sign(cmp, versus, toswap.data, cursor.data) > 0 {
          forall k | f <= k < c
            ensures Goes(cmp, versus, elems[c], elems[k])
          {
            GoesTransitive(cmp, versus, elems[c], elems[t], elems[k]);
          }
          toswap, t := cursor, c;
        }
        cursor, c := cursor.next, c + 1;
      }
    }

    /** One round of the selection sort. */
    method SelectOne(cmp: (T, T) -> int, versus: int, firstunsorted: Entry<T>, lel: Entry<T>,
                     ghost first: nat, ghost f: nat, ghost last: nat)
      requires Valid()
      requires first <= f < last < |elems| && firstunsorted == nodes[f + 1] && lel == nodes[last + 1]
      requires Settled(cmp, versus, elems, first, f, last + 1)
      modifies this`elems, nodes`data
      ensures Valid() && Rearranged(old(elems), elems, first, last + 1)
      ensures Settled(cmp, versus, elems, first, f + 1, last + 1)
    {
      hide Rearranged, Settled, AllAfter, Goes;
      var toswap, t := FindFirst(cmp, versus, firstunsorted, lel, f, last);
      SwapRearranges(elems, f, t, first, last + 1);
      SettleOne(cmp, versus, elems, first, f, last + 1, t);
      if toswap != firstunsorted {
        SwapData(firstunsorted, toswap, f, t);
      } else {
        assert elems[f := elems[t]][t := elems[f]] == elems;
      }
    }

    method SelectionSort(cmp: (T, T) -> int, versus: int, first: nat, fel: Entry<T>, last: int, lel: Entry<T>)
      requires Valid()
      requires first <= last < |elems| && fel == nodes[first + 1] && lel == nodes[last + 1]
      modifies this`elems, nodes`data
      ensures Valid() && Rearranged(old(elems), elems, first, last + 1)
      ensures SortedBetween(cmp, versus, elems, first, last + 1)
    {
      if last <= first { return; }
      var firstunsorted := fel;
      ghost var f := first;
      while firstunsorted != lel
        invariant Valid() && first <= f <= last && firstunsorted == nodes[f + 1]
        invariant Rearranged(old(elems), elems, first, last + 1)
        invariant Settled(cmp, versus, elems, first, f, last + 1)
        decreases last - f
      {
        SelectOne(cmp, versus, firstunsorted, lel, first, f, last);
        firstunsorted, f := firstunsorted.next, f + 1;
      }
    }

    /** Walks to the pivot from the nearer end. */
    method FindPivot(first: nat, fel: Entry<T>, last: nat, lel: Entry<T>, pivotid: nat) returns (pivot: Entry<T>)
      requires Valid() && first <= last < |elems| && pivotid <= last - first
      requires fel == nodes[first + 1] && lel == nodes[last + 1]
      ensures pivot == nodes[first + pivotid + 1]
    {
      var i: int;
      if pivotid < (last - first + 1) / 2 {
        i, pivot := 0, fel;
        while i < pivotid
          invariant 0 <= i <= pivotid && pivot == nodes[first + i + 1]
        {
          pivot, i := pivot.next, i + 1;
        }
      } else {
        i, pivot := last - first, lel;
        while i > pivotid
          invariant pivotid <= i <= last - first && pivot == nodes[first + i + 1]
        {
          pivot, i := pivot.prev, i - 1;
        }
      }
    }

    /** Skips, from l rightwards, what may stay before the pivot. */
    method SkipRight(cmp: (T, T) -> int, versus: int, from: Entry<T>, pivot: Entry<T>, ghost l: nat, ghost p: nat)
      returns (left: Entry<T>, ghost l': nat)
      requires Valid() && l <= p < |elems| && from == nodes[l + 1] && pivot == nodes[p + 1]
      ensures l <= l' <= p && left == nodes[l' + 1]
      ensures AllBefore(cmp, versus, elems, l, l', elems[p])
      ensures l' < p ==> Sign(cmp, versus, elems[l'], elems[p]) > 0
    {
      left, l' := from, l;
      while left != pivot && Sign(cmp, versus, left.data, pivot.data) <= 0
        invariant l <= l' <= p && left == nodes[l' + 1]
        invariant AllBefore(cmp, versus, elems, l, l', elems[p])
        decreases p - l'
      {
        left, l' := left.next, l' + 1;
      }
    }

    /** Skips, from r leftwards, what may stay after the pivot. */
    method SkipLeft(cmp: (T, T) -> int, versus: int, from: Entry<T>, pivot: Entry<T>, ghost r: nat, ghost p: nat)
      returns (right: Entry<T>, ghost r': nat)
      requires Valid()
      requires p <= r < |elems| && from == nodes[r + 1] && pivot == nodes[p + 1]
      ensures p <= r' <= r && right == nodes[r' + 1]
      ensures AllAfter(cmp, versus, elems, r' + 1, r + 1, elems[p])
      ensures r' > p ==> Sign(cmp, versus, elems[r'], elems[p]) < 0
    {
      right, r' := from, r;
      while right != pivot && Sign(cmp, versus, right.data, pivot.data) >= 0
        invariant p <= r' <= r && right == nodes[r' + 1]
        invariant AllAfter(cmp, versus, elems, r' + 1, r + 1, elems[p])
        decreases r'
      {
        GoesAfter(cmp, versus, elems[r'], elems[p]);
        right, r' := right.prev, r' - 1;
      }
    }

    /** Exchanges the two ends if neither has reached the pivot, and moves both inwards. */
    method ExchangeEnds(left0: Entry<T>, right0: Entry<T>, pivot: Entry<T>, ghost l0: nat, ghost p: nat, ghost r0: nat)
      returns (left: Entry<T>, right: Entry<T>, ghost l: nat, ghost r: nat)
      requires Valid() && l0 <= p <= r0 < |elems|
      requires left0 == nodes[l0 + 1] && right0 == nodes[r0 + 1] && pivot == nodes[p + 1]
      modifies this`elems, left0`data, right0`data
      ensures Valid() && l <= p <= r < |elems| && left == nodes[l + 1] && right == nodes[r + 1]
      ensures l0 < p < r0 ==> l == l0 + 1 && r == r0 - 1 && elems == old(elems[l0 := elems[r0]][r0 := elems[l0]])
      ensures !(l0 < p < r0) ==> l == l0 && r == r0 && elems == old(elems)
    {
      left, right, l, r := left0, right0, l0, r0;
      if left != pivot && right != pivot {
        SwapData(left, right, l, r);
        left, right, l, r := left.next, right.prev, l + 1, r - 1;
      }
    }

    /** One round of the main loop. */
    method PartitionRound(cmp: (T, T) -> int, versus: int, left0: Entry<T>, right0: Entry<T>, pivot: Entry<T>,
                          ghost s0: seq<T>, ghost first: nat, ghost last: nat, ghost l0: nat, ghost p: nat, ghost r0: nat)
      returns (left: Entry<T>, right: Entry<T>, ghost l: nat, ghost r: nat)
      requires Valid()
      requires Split(cmp, versus, s0, elems, first, l0, p, r0, last) && l0 < p < r0
      requires left0 == nodes[l0 + 1] && right0 == nodes[r0 + 1] && pivot == nodes[p + 1]
      modifies this`elems, nodes`data
      ensures Valid() && Split(cmp, versus, s0, elems, first, l, p, r, last) && r - l < r0 - l0
      ensures left == nodes[l + 1] && right == nodes[r + 1]
    {
      left, l := SkipRight(cmp, versus, left0, pivot, l0, p);
      right, r := SkipLeft(cmp, versus, right0, pivot, r0, p);
      ghost var s, l1, r1 := elems, l, r;
      left, right, l, r := ExchangeEnds(left, right, pivot, l, p, r);
      SplitRound(cmp, versus, s0, s, elems, first, l0, l1, l, p, r, r1, r0, last);
    }

    /** The main loop: both ends walk towards the pivot, exchanging what is on the wrong side,
        until one of them reaches it. */
    method PartitionBoth(cmp: (T, T) -> int, versus: int, fel: Entry<T>, lel: Entry<T>, pivot: Entry<T>,
                         ghost first: nat, ghost last: nat, ghost p: nat)
      returns (left: Entry<T>, right: Entry<T>, ghost l: nat, ghost r: nat)
      requires Valid()
      requires first <= p <= last < |elems|
      requires fel == nodes[first + 1] && lel == nodes[last + 1] && pivot == nodes[p + 1]
      modifies this`elems, nodes`data
      ensures Valid() && Split(cmp, versus, old(elems), elems, first, l, p, r, last)
      ensures (right == pivot) == (r == p) && (r == p || l == p)
      ensures left == nodes[l + 1] && right == nodes[r + 1]
    {
      left, right, l, r := fel, lel, first, last;
      SplitAtStart(cmp, versus, elems, first, p, last);
      while left != pivot && right != pivot
        invariant Valid() && Split(cmp, versus, old(elems), elems, first, l, p, r, last)
        invariant left == nodes[l + 1] && right == nodes[r + 1]
        decreases r - l
      {
        left, right, l, r := PartitionRound(cmp, versus, left, right, pivot, old(elems), first, last, l, p, r);
      }
    }

    /** One look at what is left of the left part: a larger element moves behind the pivot,
        which shifts one place left, from p to p - 1. */
    method DrainLeftStep(cmp: (T, T) -> int, versus: int, left0: Entry<T>, pivot0: Entry<T>, ghost l0: nat, ghost p0: nat)
      returns (left: Entry<T>, pivot: Entry<T>, shifted: bool, ghost l: nat, ghost p: nat)
      requires Valid() && l0 < p0 < |elems|
      requires left0 == nodes[l0 + 1] && pivot0 == nodes[p0 + 1]
      modifies this`elems, nodes`data
      ensures Valid() && shifted == old(Sign(cmp, versus, elems[l0], elems[p0]) > 0)
      ensures shifted ==> l == l0 && p == p0 - 1 && elems == Rotated(old(elems), l0, p, p0)
      ensures !shifted ==> elems == old(elems) && l == l0 + 1 && p == p0
      ensures left == nodes[l + 1] && pivot == nodes[p + 1]
    {
      left, pivot, shifted, l, p := left0, pivot0, false, l0, p0;
      if Sign(cmp, versus, left.data, pivot.data) > 0 {
        p := p - 1;
        RotateData(left, pivot.prev, pivot, l0, p, p0);
        pivot, shifted := pivot.prev, true;
      } else {
        left, l := left.next, l + 1;
      }
    }

    /** The uneven phase after the right end met the pivot. */
    method DrainLeft(cmp: (T, T) -> int, versus: int, left0: Entry<T>, pivot0: Entry<T>, pivotid0: int,
                     ghost s0: seq<T>, ghost first: nat, ghost last: nat, ghost l0: nat, ghost p0: nat)
      returns (pivot: Entry<T>, pivotid: int, ghost p: nat)
      requires Valid()
      requires Split(cmp, versus, s0, elems, first, l0, p0, p0, last)
      requires left0 == nodes[l0 + 1] && pivot0 == nodes[p0 + 1]
      modifies this`elems, nodes`data
      ensures Valid() && Split(cmp, versus, s0, elems, first, p, p, p, last)
      ensures pivot == nodes[p + 1] && pivotid - p == pivotid0 - p0
    {
      pivot, pivotid, p := pivot0, pivotid0, p0;
      var left := left0;
      ghost var l := l0;
      while left != pivot
        invariant Valid() && Split(cmp, versus, s0, elems, first, l, p, p, last)
        invariant left == nodes[l + 1] && pivot == nodes[p + 1] && pivotid - p == pivotid0 - p0
        decreases p - l
      {
        ghost var s, l1, p1 := elems, l, p;
        var shifted;
        left, pivot, shifted, l, p := DrainLeftStep(cmp, versus, left, pivot, l, p);
        SplitDrainLeft(cmp, versus, s0, s, elems, first, l1, l, p, p1, last);
        if shifted { pivotid := pivotid - 1; }
      }
    }

    method DrainRightStep(cmp: (T, T) -> int, versus: int, right0: Entry<T>, pivot0: Entry<T>, ghost p0: nat, ghost r0: nat)
      returns (right: Entry<T>, pivot: Entry<T>, shifted: bool, ghost p: nat, ghost r: nat)
      requires Valid() && p0 < r0 < |elems|
      requires right0 == nodes[r0 + 1] && pivot0 == nodes[p0 + 1]
      modifies this`elems, nodes`data
      ensures Valid() && shifted == old(Sign(cmp, versus, elems[r0], elems[p0]) < 0)
      ensures shifted ==> p == p0 + 1 && r == r0 && elems == Rotated(old(elems), r0, p, p0)
      ensures !shifted ==> elems == old(elems) && r == r0 - 1 && p == p0
      ensures right == nodes[r + 1] && pivot == nodes[p + 1]
    {
      right, pivot, shifted, p, r := right0, pivot0, false, p0, r0;
      if Sign(cmp, versus, right.data, pivot.data) < 0 {
        p := p + 1;
        RotateData(right, pivot.next, pivot, r0, p, p0);
        pivot, shifted := pivot.next, true;
      } else {
        right, r := right.prev, r - 1;
      }
    }

    /** The uneven phase after the left end met the pivot. */
    method DrainRight(cmp: (T, T) -> int, versus: int, right0: Entry<T>, pivot0: Entry<T>, pivotid0: int,
                      ghost s0: seq<T>, ghost first: nat, ghost last: nat, ghost p0: nat, ghost r0: nat)
      returns (pivot: Entry<T>, pivotid: int, ghost p: nat)
      requires Valid()
      requires Split(cmp, versus, s0, elems, first, p0, p0, r0, last)
      requires right0 == nodes[r0 + 1] && pivot0 == nodes[p0 + 1]
      modifies this`elems, nodes`data
      ensures Valid() && Split(cmp, versus, s0, elems, first, p, p, p, last)
      ensures pivot == nodes[p + 1] && pivotid - p == pivotid0 - p0
    {
      pivot, pivotid, p := pivot0, pivotid0, p0;
      var right := right0;
      ghost var r: nat := r0;
      while right != pivot
        invariant Valid() && Split(cmp, versus, s0, elems, first, p, p, r, last)
        invariant right == nodes[r + 1] && pivot == nodes[p + 1] && pivotid - p == pivotid0 - p0
        decreases r - p
      {
        ghost var s, p1, r1 := elems, p, r;
        var shifted;
        right, pivot, shifted, p, r := DrainRightStep(cmp, versus, right, pivot, p, r);
        SplitDrainRight(cmp, versus, s0, s, elems, first, p1, p, r, r1, last);
        if shifted { pivotid := pivotid + 1; }
      }
    }

    /** Whichever uneven phase is due. */
    method Drain(cmp: (T, T) -> int, versus: int, left: Entry<T>, right: Entry<T>, pivot0: Entry<T>, pivotid0: int,
                 ghost s0: seq<T>, ghost first: nat, ghost last: nat, ghost l: nat, ghost p0: nat, ghost r: nat)
      returns (pivot: Entry<T>, pivotid: int, ghost p: nat)
      requires Valid()
      requires Split(cmp, versus, s0, elems, first, l, p0, r, last)
      requires (right == pivot0) == (r == p0) && (r == p0 || l == p0)
      requires left == nodes[l + 1] && right == nodes[r + 1] && pivot0 == nodes[p0 + 1]
      modifies this`elems, nodes`data
      ensures Valid() && Split(cmp, versus, s0, elems, first, p, p, p, last)
      ensures pivot == nodes[p + 1] && pivotid - p == pivotid0 - p0
    {
      if right == pivot0 {
        pivot, pivotid, p := DrainLeft(cmp, versus, left, pivot0, pivotid0, s0, first, last, l, p0);
      } else {
        pivot, pivotid, p := DrainRight(cmp, versus, right, pivot0, pivotid0, s0, first, last, p0, r);
      }
    }

    /** Everything up to the recursive calls: A, pivot, B with A before the pivot and B after it. */
    method Partition(cmp: (T, T) -> int, versus: int, first: nat, fel: Entry<T>, last: nat, lel: Entry<T>)
      returns (pivot: Entry<T>, pivotid: int, ghost p: nat)
      requires Valid()
      requires first <= last < |elems| && fel == nodes[first + 1] && lel == nodes[last + 1]
      modifies this`elems, nodes`data
      ensures Valid() && Split(cmp, versus, old(elems), elems, first, p, p, p, last)
      ensures pivot == nodes[p + 1] && p == first + pivotid
    {
      pivotid :| 0 <= pivotid < last - first + 1;  // get_random() % (last - first + 1)
      pivot := FindPivot(first, fel, last, lel, pivotid);
      p := first + pivotid;
      var left, right, l, r := PartitionBoth(cmp, versus, fel, lel, pivot, first, last, p);
      pivot, pivotid, p := Drain(cmp, versus, left, right, pivot, pivotid, old(elems), first, last, l, p, r);
    }

    method QuickSort(cmp: (T, T) -> int, versus: int, first: nat, fel: Entry<T>, last: nat, lel: Entry<T>)
      requires Valid()
      requires first <= last < |elems| && fel == nodes[first + 1] && lel == nodes[last + 1]
      modifies this`elems, nodes`data
      ensures Valid() && Rearranged(old(elems), elems, first, last + 1)
      ensures SortedBetween(cmp, versus, elems, first, last + 1)
      decreases last - first
    {
      if last <= first { return; }
      if last - first + 1 <= MIN_QUICKSORT_ELS {
        SelectionSort(cmp, versus, first, fel, last, lel);
        return;
      }
      var pivot, pivotid, p := Partition(cmp, versus, first, fel, last, lel);
      ghost var s := elems;
      SortBefore(cmp, versus, first, fel, pivot, pivotid);
      ghost var t := elems;
      SortAfter(cmp, versus, first, pivot, pivotid, last, lel);
      SortSides(cmp, versus, old(elems), s, t, elems, first, p, last);
    }

    method SortBefore(cmp: (T, T) -> int, versus: int, first: nat, fel: Entry<T>, pivot: Entry<T>, pivotid: nat)
      requires Valid()
      requires first + pivotid < |elems| && fel == nodes[first + 1] && pivot == nodes[first + pivotid + 1]
      modifies this`elems, nodes`data
      ensures Valid() && Rearranged(old(elems), elems, first, first + pivotid)
      ensures SortedBetween(cmp, versus, elems, first, first + pivotid)
      decreases pivotid, 1
    {
      if pivotid > 0 {
        QuickSort(cmp, versus, first, fel, first + pivotid - 1, pivot.prev);
      }
    }

    method SortAfter(cmp: (T, T) -> int, versus: int, first: nat, pivot: Entry<T>, pivotid: nat, last: nat, lel: Entry<T>)
      requires Valid()
      requires first + pivotid <= last < |elems| && pivot == nodes[first + pivotid + 1] && lel == nodes[last + 1]
      modifies this`elems, nodes`data
      ensures Valid() && Rearranged(old(elems), elems, first + pivotid + 1, last + 1)
      ensures SortedBetween(cmp, versus, elems, first + pivotid + 1, last + 1)
      decreases last - first - pivotid, 1
    {
      if first + pivotid < last {
        QuickSort(cmp, versus, first + pivotid + 1, pivot.next, last, lel);
      }
    }

    /** list_sort; versus is 1 for ascending and -1 for descending order. It ends and permutes whatever the
        comparator and versus are, and sorts when they make an order. */
    method Sort(versus: int) returns (r: int)
      requires Valid()
      modifies this`elems, nodes`data
      ensures Valid() && r == if iterActive || comparator == None then -1 else 0
      ensures r == -1 ==> elems == old(elems)
      ensures r == 0 && TotalPreorder(comparator.value) && versus == 1 ==>
                forall i, j :: 0 <= i < j < |elems| ==> comparator.value(elems[i], elems[j]) >= 0
      ensures r == 0 && TotalPreorder(comparator.value) && versus == -1 ==>
                forall i, j :: 0 <= i < j < |elems| ==> comparator.value(elems[i], elems[j]) <= 0
      ensures multiset(elems) == multiset(old(elems))
    {
      if iterActive || comparator.None? { return -1; }
      if numels <= 1 { return 0; }
      QuickSort(comparator.value, versus, 0, head.next, numels - 1, tail.prev);
      assert elems[0..|elems|] == elems && old(elems)[0..|old(elems)|] == old(elems);
      return 0;
    }
  }

  /** C's signed division. */
  function TruncDiv(a: int, b: int): int
    requires b > 0
  {
    if a >= 0 then a / b else -((-a) / b)
  }

  /** list_concat; dest may be any storage apart from the two sources. */
  method Concat<T(==, !new)>(l1: List?<T>, l2: List?<T>, dest: List?<T>) returns (r: int)
    requires l1 != null ==> l1.Valid() && (dest != null && dest != l1 ==> dest !in l1.Repr)
    requires l2 != null ==> l2.Valid() && (dest != null && dest != l2 ==> dest !in l2.Repr)
    modifies dest
    ensures r == if l1 == null || l2 == null || dest == null || l1 == dest || l2 == dest then -1 else 0
    ensures r == -1 && dest != null ==> unchanged(dest)
    ensures r == 0 ==> dest.Valid() && fresh(dest.Repr - {dest}) && dest.elems == l1.elems + l2.elems && !dest.iterActive
  {
    if l1 == null || l2 == null || dest == null || l1 == dest || l2 == dest {
      return -1;
    }
    dest.FillFrom(l1, l2);
    return 0;
  }
}
