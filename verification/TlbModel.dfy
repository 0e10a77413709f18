/**
 The TLB of the CPU as a list of rows, its two replacement algorithms, and address translation.
 */
module TlbModel {
  import opened CTypes

  datatype Row = Row(pid: int, page: nat, frame: int, time: int)

  datatype Algorithm = FIFO | LRU | Unknown

  predicate IsFor(row: Row, pid: int, page: nat) {
    row.pid == pid && row.page == page
  }

  /** Row `i` is the first one for a page. */
  predicate IsFirst(rows: seq<Row>, i: nat, pid: int, page: nat) {
    i < |rows| && IsFor(rows[i], pid, page) && forall k :: 0 <= k < i ==> !IsFor(rows[k], pid, page)
  }

  /** The first row for a page, or -1. */
  function Find(rows: seq<Row>, pid: int, page: nat): (i: int)
    ensures i == -1 ==> forall k :: 0 <= k < |rows| ==> rows[k].pid != pid || rows[k].page != page
    ensures i != -1 ==> 0 <= i < |rows| && rows[i].pid == pid && rows[i].page == page
    ensures i != -1 ==> forall k :: 0 <= k < i ==> !IsFor(rows[k], pid, page)
  {
    if |rows| == 0 then -1
    else if rows[0].pid == pid && rows[0].page == page then 0
    else
      var i := Find(rows[1..], pid, page);
      assert forall k :: 1 <= k < |rows| ==> rows[k] == rows[1..][k - 1];
      if i == -1 then -1 else i + 1
  }

  /** A lookup: the rows with the hit stamped, and the frame found or -1. */
  function Lookup(rows: seq<Row>, capacity: nat, pid: int, page: nat, now: int): (r: (seq<Row>, int)) {
    var i := Find(rows, pid, page);
    if capacity == 0 || i == -1 then (rows, -1)
    else (rows[i := rows[i].(time := now)], rows[i].frame)
  }

  /**
   The scan for the row to replace under LRU, from row `i` on: the row found so far and the smallest time.
   The smallest time is kept in 32 bits.
   */
  function Least(rows: seq<Row>, i: nat, min: int, found: nat): (r: nat)
    requires found < |rows| && i <= |rows|
    ensures r < |rows|
    decreases |rows| - i
  {
    if i == |rows| then found
    else if rows[i].time < min then Least(rows, i + 1, Narrow(rows[i].time), i)
    else Least(rows, i + 1, min, found)
  }

  function LeastRow(rows: seq<Row>): (r: nat)
    requires rows != []
    ensures r < |rows|
  {
    Least(rows, 1, Narrow(rows[0].time), 0)
  }

  /** A row inserted into a TLB, by the replacement algorithm when it is full. */
  function Insert(rows: seq<Row>, capacity: nat, algorithm: Algorithm, row: Row): (r: seq<Row>)
    requires |rows| <= capacity && capacity > 0
    ensures |r| <= capacity
  {
    if |rows| < capacity then rows + [row]
    else
      match algorithm
      case FIFO => rows[1..] + [row]
      case LRU => rows[..LeastRow(rows)] + rows[LeastRow(rows) + 1..] + [row]
      case Unknown => rows
  }

  /** The frame of a page and the rows afterwards; `frame` is what memory answers on a miss. */
  function Fetch(rows: seq<Row>, capacity: nat, algorithm: Algorithm, pid: int, page: nat, frame: int,
                 now: int, later: int): (r: (seq<Row>, int))
    requires |rows| <= capacity
    ensures |r.0| <= capacity
  {
    var hit := Lookup(rows, capacity, pid, page, now);
    if hit.1 != -1 then hit
    else if capacity == 0 then (rows, frame)
    else (Insert(hit.0, capacity, algorithm, Row(pid, page, frame, later)), frame)
  }

  /** The physical address for a logical one on a page of frame `frame`, as an unsigned 32-bit number. */
  function Physical(frame: int, P: nat, la: nat): (a: nat)
    requires P > 0
  {
    (frame * P + la % P) % UINT32
  }

  /** Where there is a frame the address lies on it; without one it lies past the end of every memory that leaves room. */
  lemma PhysicalIsOnFrame(frame: int, P: nat, la: nat)
    requires 0 < P <= UINT32
    ensures frame >= 0 && frame * P + P <= UINT32 ==> Physical(frame, P, la) == frame * P + la % P
    ensures frame == -1 ==> Physical(frame, P, la) == UINT32 - P + la % P
  {
  }

  /** A page that is missed gets the last row, with memory's answer and the time of the insertion. */
  lemma MissedRow(rows: seq<Row>, capacity: nat, algorithm: Algorithm, pid: int, page: nat, frame: int,
                  now: int, later: int)
    requires 0 < capacity && |rows| <= capacity && algorithm != Unknown && Find(rows, pid, page) == -1
    ensures var r := Fetch(rows, capacity, algorithm, pid, page, frame, now, later);
            r.1 == frame && r.0 != [] && r.0[|r.0| - 1] == Row(pid, page, frame, later)
  {
    hide LeastRow, Find;
  }

  // ----- coherence -----

  /** Where a page really lies: a frame, or -1. */
  type PageMap = (int, nat) -> int

  /** Every row is right about its page, or says that the page has no frame and so counts as a miss. */
  ghost predicate Coherent(rows: seq<Row>, lies: PageMap) {
    forall i :: 0 <= i < |rows| ==> rows[i].frame == -1 || rows[i].frame == lies(rows[i].pid, rows[i].page)
  }

  /** Whatever the algorithm and the clock, translation gives the frame of the page table. */
  lemma FetchIsPageTable(rows: seq<Row>, capacity: nat, algorithm: Algorithm, pid: int, page: nat,
                         now: int, later: int, lies: PageMap)
    requires |rows| <= capacity && Coherent(rows, lies)
    ensures var r := Fetch(rows, capacity, algorithm, pid, page, lies(pid, page), now, later);
            r.1 == lies(pid, page) && Coherent(r.0, lies)
  {
    var i := Find(rows, pid, page);
    var hit := Lookup(rows, capacity, pid, page, now);
    assert Coherent(hit.0, lies);
    if hit.1 == -1 && capacity > 0 {
      InsertCoherent(hit.0, capacity, algorithm, Row(pid, page, lies(pid, page), later), lies);
    }
  }

  lemma InsertCoherent(rows: seq<Row>, capacity: nat, algorithm: Algorithm, row: Row, lies: PageMap)
    requires |rows| <= capacity && capacity > 0 && Coherent(rows, lies)
    requires row.frame == lies(row.pid, row.page)
    ensures Coherent(Insert(rows, capacity, algorithm, row), lies)
  {
    hide LeastRow;
  }

  /**
   The page map changes under the TLB, and the TLB is not told. It stays coherent exactly when every row
   with a frame is for a page that lies where it did.
   */
  lemma ChangeCoherentIff(rows: seq<Row>, before: PageMap, after: PageMap)
    requires Coherent(rows, before)
    ensures Coherent(rows, after)
        <==> forall i :: 0 <= i < |rows| && rows[i].frame != -1 ==>
               after(rows[i].pid, rows[i].page) == before(rows[i].pid, rows[i].page)
  {
  }

  // ----- one row per page -----

  /** No page has two rows. */
  ghost predicate UniqueKeys(rows: seq<Row>) {
    forall i, j :: 0 <= i < j < |rows| ==> rows[i].pid != rows[j].pid || rows[i].page != rows[j].page
  }

  /** The condition under which a translation leaves no page with two rows, from the rows before it. */
  predicate KeepsUnique(rows: seq<Row>, capacity: nat, algorithm: Algorithm, pid: int, page: nat, now: int) {
    var i := Find(rows, pid, page);
    || capacity == 0 || i == -1 || rows[i].frame != -1
    || (|rows| == capacity
        && match algorithm
           case Unknown => true
           case FIFO => i == 0
           case LRU => i == LeastRow(rows[i := rows[i].(time := now)]))
  }

  /**
   Exactly when keys stay unique: there is no TLB, the page has no row, its row has a frame, or the row without a
   frame is the one that makes room for the second.
   */
  lemma UniqueKeysIff(rows: seq<Row>, capacity: nat, algorithm: Algorithm, pid: int, page: nat, frame: int,
                      now: int, later: int)
    requires |rows| <= capacity && UniqueKeys(rows)
    ensures UniqueKeys(Fetch(rows, capacity, algorithm, pid, page, frame, now, later).0)
        <==> KeepsUnique(rows, capacity, algorithm, pid, page, now)
  {
    hide LeastRow, Find, UniqueKeys;
    var i := Find(rows, pid, page);
    if capacity > 0 && i == -1 {
      NewKeyUnique(rows, capacity, algorithm, Row(pid, page, frame, later));
    } else if capacity > 0 {
      var stamped := rows[i := rows[i].(time := now)];
      StampUnique(rows, i, now);
      if rows[i].frame == -1 {
        SecondRowIff(stamped, capacity, algorithm, Row(pid, page, frame, later), i);
      }
    }
  }

  lemma StampUnique(rows: seq<Row>, i: nat, now: int)
    requires UniqueKeys(rows) && i < |rows|
    ensures UniqueKeys(rows[i := rows[i].(time := now)])
  {
  }

  lemma NewKeyUnique(rows: seq<Row>, capacity: nat, algorithm: Algorithm, row: Row)
    requires |rows| <= capacity && capacity > 0 && UniqueKeys(rows)
    requires forall k :: 0 <= k < |rows| ==> rows[k].pid != row.pid || rows[k].page != row.page
    ensures UniqueKeys(Insert(rows, capacity, algorithm, row))
  {
    hide LeastRow;
  }

  /** A row for a page that has one at place `i`: unique exactly when that one goes, or none comes. */
  lemma SecondRowIff(rows: seq<Row>, capacity: nat, algorithm: Algorithm, row: Row, i: nat)
    requires |rows| <= capacity && UniqueKeys(rows) && i < |rows| && rows[i].pid == row.pid && rows[i].page == row.page
    ensures UniqueKeys(Insert(rows, capacity, algorithm, row))
        <==> |rows| == capacity && (algorithm == Unknown || (algorithm == FIFO && i == 0)
                                    || (algorithm == LRU && i == LeastRow(rows)))
  {
    hide LeastRow, UniqueKeys;
    var gone := if |rows| < capacity then |rows| else if algorithm == FIFO then 0 else LeastRow(rows);
    if |rows| < capacity {
      RowsAfterCut(rows, |rows|, row, i);
      assert rows[..|rows|] == rows && rows + [row] == rows[..|rows|] + [] + [row];
    } else if algorithm == FIFO {
      RowsAfterCut(rows, 0, row, i);
      assert rows[..0] + rows[1..] + [row] == rows[1..] + [row];
    } else if algorithm == LRU {
      RowsAfterCut(rows, LeastRow(rows), row, i);
    }
  }

  lemma RowsAfterCut(rows: seq<Row>, gone: nat, row: Row, i: nat)
    requires gone <= |rows| && UniqueKeys(rows) && i < |rows| && rows[i].pid == row.pid && rows[i].page == row.page
    ensures UniqueKeys(rows[..gone] + (if gone < |rows| then rows[gone + 1..] else []) + [row]) <==> i == gone
  {
    var after := rows[..gone] + (if gone < |rows| then rows[gone + 1..] else []) + [row];
    if i != gone {
      var at := if i < gone then i else i - 1;
      assert after[at] == rows[i] && after[|after| - 1] == row && at < |after| - 1;
    } else {
      forall k | 0 <= k < |after| - 1
        ensures after[k].pid != row.pid || after[k].page != row.page
      {
        assert after[k] == rows[if k < gone then k else k + 1];
      }
    }
  }

  ghost predicate OneRowEach(rows: seq<Row>) {
    UniqueKeys(rows) && forall i :: 0 <= i < |rows| ==> rows[i].frame != -1
  }

  /** As long as only pages with a frame are asked for, no page has two rows. */
  lemma FetchKeepsOneRow(rows: seq<Row>, capacity: nat, algorithm: Algorithm, pid: int, page: nat, frame: int,
                         now: int, later: int)
    requires |rows| <= capacity && OneRowEach(rows) && frame != -1
    ensures OneRowEach(Fetch(rows, capacity, algorithm, pid, page, frame, now, later).0)
  {
    hide LeastRow, Find;
  }

  /** A page without a frame asked for twice gets a second row: the first one counts as a miss. */
  lemma UnmappedPageTwice()
    ensures var one := Fetch([], 2, FIFO, 7, 0, -1, 1, 2).0;
            var two := Fetch(one, 2, FIFO, 7, 0, -1, 3, 4).0;
            OneRowEach([]) && |two| == 2 && two[0].pid == two[1].pid && two[0].page == two[1].page
  {
    var one := Fetch([], 2, FIFO, 7, 0, -1, 1, 2).0;
    assert one == [Row(7, 0, -1, 2)];
    assert Find(one, 7, 0) == 0;
  }

  // ----- the least recently used row -----

  predicate IsLeast(rows: seq<Row>, r: nat)
    requires r < |rows|
  {
    forall i :: 0 <= i < |rows| ==> rows[r].time <= rows[i].time
  }

  /** While times are exact in 32 bits the scan keeps the least of the rows seen. */
  lemma {:induction false} LeastFrom(rows: seq<Row>, i: nat, min: int, found: nat)
    requires found < i <= |rows| && rows[found].time == min < 0x8000_0000
    requires forall k :: 0 <= k < |rows| ==> rows[k].time >= 0
    requires forall k :: 0 <= k < i ==> min <= rows[k].time
    ensures IsLeast(rows, Least(rows, i, min, found))
    decreases |rows| - i
  {
    if i < |rows| {
      if rows[i].time < min {
        LeastFrom(rows, i + 1, rows[i].time, i);
      } else {
        LeastFrom(rows, i + 1, min, found);
      }
    }
  }

  /** From a first time that does not fit: the scan starts over at the first row below its narrowed value. */
  lemma {:induction false} LeastFromNarrowed(rows: seq<Row>, i: nat, min: int)
    requires 0 < i <= |rows| && min == Narrow(rows[0].time)
    requires forall k :: 0 <= k < |rows| ==> rows[k].time >= 0
    requires forall k :: 0 <= k < i ==> min <= rows[k].time
    ensures var r := Least(rows, i, min, 0);
            if exists k :: 0 <= k < |rows| && rows[k].time < min then IsLeast(rows, r) else r == 0
    decreases |rows| - i
  {
    if i < |rows| {
      if rows[i].time < min {
        LeastFrom(rows, i + 1, rows[i].time, i);
      } else {
        LeastFromNarrowed(rows, i + 1, min);
      }
    }
  }

  /**
   Exactly when the scan finds a least recently used row: the first row is one, or some row is older than
   the first row's time as it reads in 32 bits.
   */
  lemma LeastRowIff(rows: seq<Row>)
    requires rows != [] && forall k :: 0 <= k < |rows| ==> rows[k].time >= 0
    ensures IsLeast(rows, LeastRow(rows))
        <==> IsLeast(rows, 0) || exists k :: 0 <= k < |rows| && rows[k].time < Narrow(rows[0].time)
  {
    LeastFromNarrowed(rows, 1, Narrow(rows[0].time));
  }

  lemma {:induction false} LeastBefore(rows: seq<Row>, i: nat, min: int, found: nat)
    requires found < i <= |rows| && rows[found].time == min < 0x8000_0000
    requires forall k :: 0 <= k < |rows| ==> rows[k].time >= 0
    requires forall k :: 0 <= k < i ==> min <= rows[k].time
    requires forall k :: 0 <= k < found ==> min < rows[k].time
    ensures var r := Least(rows, i, min, found); forall k :: 0 <= k < r ==> rows[r].time < rows[k].time
    decreases |rows| - i
  {
    if i < |rows| {
      if rows[i].time < min {
        LeastBefore(rows, i + 1, rows[i].time, i);
      } else {
        LeastBefore(rows, i + 1, min, found);
      }
    }
  }

  /** Of several rows used at the same time the scan takes the first, while times are exact. */
  lemma LeastRowFirst(rows: seq<Row>)
    requires rows != [] && forall k :: 0 <= k < |rows| ==> 0 <= rows[k].time < 0x8000_0000
    ensures IsLeast(rows, LeastRow(rows))
    ensures forall k :: 0 <= k < LeastRow(rows) ==> rows[LeastRow(rows)].time < rows[k].time
  {
    LeastFrom(rows, 1, rows[0].time, 0);
    LeastBefore(rows, 1, rows[0].time, 0);
  }

  /** After 36 minutes of microseconds the oldest page can be kept and a newer one replaced. */
  lemma LeastRowFails()
    ensures var rows := [Row(1, 0, 0, 0x8000_0005), Row(1, 1, 1, 0x8000_0001)];
            !IsLeast(rows, LeastRow(rows))
  {
    var rows := [Row(1, 0, 0, 0x8000_0005), Row(1, 1, 1, 0x8000_0001)];
    assert Narrow(0x8000_0005) == -0x7FFF_FFFB;
    LeastRowIff(rows);
    assert rows[1].time < rows[0].time;
  }
}
