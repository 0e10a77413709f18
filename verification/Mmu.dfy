/**
 The MMU in place: the TLB is a list that is searched, stamped, shifted and appended to. What memory
 answers for a page, and the clock, are parameters.
 */
module Mmu {
  import opened CTypes
  import opened TlbModel

  class Unit {
    const capacity: nat
    const algorithm: Algorithm
    var pagesLength: int
    var tlb: seq<Row>

    constructor (capacity: nat, algorithm: Algorithm)
      ensures this.capacity == capacity && this.algorithm == algorithm
      ensures tlb == [] && pagesLength == -1
    {
      this.capacity := capacity;
      this.algorithm := algorithm;
      pagesLength := -1;
      tlb := [];
    }

    predicate Valid()
      reads this
    {
      |tlb| <= capacity && (pagesLength == -1 || pagesLength > 0)
    }

    /**
     The first row for the page gives its frame and is stamped with the time; without such a row, or without a
     TLB, nothing changes.
     */
    method HitOrMiss(pid: int, page: nat, now: int) returns (frame: int)
      requires Valid()
      modifies this
      ensures Valid() && pagesLength == old(pagesLength)
      ensures capacity == 0 || (forall k :: 0 <= k < |old(tlb)| ==> !IsFor(old(tlb)[k], pid, page)) ==>
                frame == -1 && tlb == old(tlb)
      ensures forall i: nat :: capacity > 0 && IsFirst(old(tlb), i, pid, page) ==>
                frame == old(tlb)[i].frame && tlb == old(tlb)[i := old(tlb)[i].(time := now)]
      ensures (tlb, frame) == Lookup(old(tlb), capacity, pid, page, now)
    {
      if capacity == 0 {
        return -1;
      }
      var i := 0;
      while i < |tlb|
        invariant 0 <= i <= |tlb| && tlb == old(tlb)
        invariant forall k :: 0 <= k < i ==> !IsFor(tlb[k], pid, page)
      {
        if IsFor(tlb[i], pid, page) {
          OnlyFirst(tlb, pid, page, i);
          frame := tlb[i].frame;
          tlb := tlb[i := tlb[i].(time := now)];
          return frame;
        }
        i := i + 1;
      }
      return -1;
    }

    /** The scan of the list; the smallest time so far is an int, the rows' times are longs. */
    method FindMinimum() returns (r: nat)
      requires tlb != []
      ensures r == LeastRow(tlb)
    {
      var min := Narrow(tlb[0].time);
      r := 0;
      var current := 1;
      while current < |tlb|
        invariant r < |tlb| && 1 <= current <= |tlb|
        invariant LeastRow(tlb) == Least(tlb, current, min, r)
      {
        if tlb[current].time < min {
          min := Narrow(tlb[current].time);
          r := current;
        }
        current := current + 1;
      }
    }

    /** Replacement: FIFO moves every row one place up over the first, LRU takes out the scanned minimum. */
    method InsertScheduledTLBRow(row: Row)
      requires Valid() && |tlb| == capacity > 0
      modifies this
      ensures Valid() && pagesLength == old(pagesLength)
      ensures tlb == Insert(old(tlb), capacity, algorithm, row)
      ensures algorithm == FIFO ==> tlb == old(tlb)[1..] + [row]
      ensures algorithm == Unknown ==> tlb == old(tlb)
    {
      if algorithm == FIFO {
        ghost var was := tlb;
        var i := 0;
        while i < |tlb|
          invariant |tlb| == |was| && 0 <= i <= |tlb| && pagesLength == old(pagesLength)
          invariant tlb == if i == 0 then was else was[1..i] + was[i - 1..]
        {
          if i != 0 {
            ShiftStep(was, i);
            tlb := tlb[i - 1 := tlb[i]];
          }
          i := i + 1;
        }
        ShiftEnd(was, row);
        tlb := tlb[capacity - 1 := row];
      } else if algorithm == LRU {
        var minRow := FindMinimum();
        tlb := tlb[..minRow] + tlb[minRow + 1..];
        tlb := tlb + [row];
      }
    }

    /** A miss: memory's answer is inserted, whatever it is, unless there is no TLB. */
    method FindFrameInMemory(pid: int, page: nat, answer: int, now: int) returns (frame: int)
      requires Valid()
      modifies this
      ensures Valid() && pagesLength == old(pagesLength) && frame == answer
      ensures tlb == if capacity == 0 then old(tlb)
                     else Insert(old(tlb), capacity, algorithm, Row(pid, page, answer, now))
    {
      frame := answer;
      if capacity == 0 {
        return frame;
      }
      if |tlb| < capacity {
        tlb := tlb + [Row(pid, page, frame, now)];
      } else {
        InsertScheduledTLBRow(Row(pid, page, frame, now));
      }
    }

    /** The translation; before the page size is known it is the largest unsigned number. */
    method LogicalToPhysicalAddress(la: nat, pid: int, answer: int, now: int, later: int) returns (physical: nat)
      requires Valid()
      modifies this
      ensures Valid() && pagesLength == old(pagesLength)
      ensures pagesLength == -1 ==> physical == UINT32 - 1 && tlb == old(tlb)
      ensures pagesLength != -1 ==>
                var r := Fetch(old(tlb), capacity, algorithm, pid, la / pagesLength, answer, now, later);
                tlb == r.0 && physical == Physical(r.1, pagesLength, la)
    {
      if pagesLength == -1 {
        return UINT32 - 1;
      }
      var nPage := la / pagesLength;
      var offset := la - nPage * pagesLength;
      OffsetIsRemainder(la, pagesLength);
      var frame := HitOrMiss(pid, nPage, now);
      if frame == -1 {
        frame := FindFrameInMemory(pid, nPage, answer, later);
      }
      physical := (frame * pagesLength + offset) % UINT32;
    }
  }

  lemma OnlyFirst(rows: seq<Row>, pid: int, page: nat, i: nat)
    requires IsFirst(rows, i, pid, page)
    ensures Find(rows, pid, page) == i
    ensures forall j: nat :: IsFirst(rows, j, pid, page) ==> j == i
  {
    var f := Find(rows, pid, page);
    assert IsFor(rows[f], pid, page);
  }

  /** One step of the shift: rows 1 to i have moved up, the row before stays twice. */
  lemma ShiftStep(was: seq<Row>, i: nat)
    requires 0 < i < |was|
    ensures var now := was[1..i] + was[i - 1..];
            now[i] == was[i] && now[i - 1 := was[i]] == was[1..i + 1] + was[i..]
  {
    var now := was[1..i] + was[i - 1..];
    assert now[i] == was[i - 1..][1];
  }

  lemma ShiftEnd(was: seq<Row>, row: Row)
    requires was != []
    ensures (was[1..|was|] + was[|was| - 1..])[|was| - 1 := row] == was[1..] + [row]
  {
  }

  lemma OffsetIsRemainder(la: nat, P: nat)
    requires P > 0
    ensures la - la / P * P == la % P && la / P >= 0
  {
    assert la == P * (la / P) + la % P;
  }
}
