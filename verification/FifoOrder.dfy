/**
 FIFO replacement against its own definition: the pages missed, in order. For every reference string the TLB holds
 exactly the last pages missed, as many as it has rows, in the order in which they came; what it has thrown out are
 the ones before. With an algorithm it does not know it keeps the first pages for ever.
 */
module FifoOrder {
  import opened CTypes
  import opened TlbModel
  import opened LruStack

  /** The last `n` of a list, or all of it. */
  function Last<T>(s: seq<T>, n: nat): (r: seq<T>)
    ensures |r| == Min(|s|, n)
  {
    s[|s| - Min(|s|, n)..]
  }

  /** The pages missed, in order: a page is missed when it is not among the last `capacity` missed. */
  function Missed(refs: seq<Use>, capacity: nat): (keys: seq<Key>) {
    if |refs| == 0 then []
    else
      var before, k := Missed(refs[..|refs| - 1], capacity), refs[|refs| - 1].key;
      if k in Last(before, capacity) then before else before + [k]
  }

  /** The pages of the rows, in order. */
  function Keys(rows: seq<Row>): (keys: seq<Key>)
    ensures |keys| == |rows|
  {
    seq(|rows|, i requires 0 <= i < |rows| => UseOf(rows[i]).key)
  }

  /** A page has a row exactly when it is among the keys. */
  lemma KeyFound(rows: seq<Row>, k: Key)
    ensures Find(rows, k.pid, k.page) != -1 <==> k in Keys(rows)
  {
    var i := Find(rows, k.pid, k.page);
    if i != -1 {
      assert Keys(rows)[i] == k;
    }
    if k in Keys(rows) {
      var j :| 0 <= j < |rows| && Keys(rows)[j] == k;
      assert rows[j].pid == k.pid && rows[j].page == k.page;
    }
  }

  /** A hit changes neither which pages are there nor their order, whatever the algorithm. */
  lemma HitKeepsKeys(rows: seq<Row>, capacity: nat, algorithm: Algorithm, k: Key, frame: int, now: int, later: int)
    requires |rows| <= capacity && OneRowEach(rows) && k in Keys(rows)
    ensures Keys(Fetch(rows, capacity, algorithm, k.pid, k.page, frame, now, later).0) == Keys(rows)
  {
    hide LeastRow;
    KeyFound(rows, k);
    var i := Find(rows, k.pid, k.page);
    assert Keys(rows[i := rows[i].(time := now)]) == Keys(rows);
  }

  /** A miss under FIFO: the page comes last, and of a full TLB the first one goes. */
  lemma MissShifts(rows: seq<Row>, capacity: nat, k: Key, frame: int, now: int, later: int)
    requires 0 < capacity && |rows| <= capacity && k !in Keys(rows)
    ensures Keys(Fetch(rows, capacity, FIFO, k.pid, k.page, frame, now, later).0) == Last(Keys(rows) + [k], capacity)
  {
    KeyFound(rows, k);
    var row := Row(k.pid, k.page, frame, later);
    assert Keys(rows + [row]) == Keys(rows) + [k];
    if |rows| == capacity {
      assert Keys(rows[1..] + [row]) == Keys(rows)[1..] + [k];
      assert (Keys(rows) + [k])[1..] == Keys(rows)[1..] + [k];
    }
  }

  lemma LastOfMore<T>(s: seq<T>, x: T, n: nat)
    requires n > 0
    ensures Last(s + [x], n) == Last(Last(s, n) + [x], n)
  {
  }

  /** Under FIFO the TLB holds exactly the last pages missed, the oldest first. */
  lemma {:induction false} FifoHoldsLastMissed(refs: seq<Use>, capacity: nat, lies: PageMap)
    requires capacity > 0 && AllMapped(refs, lies)
    ensures Keys(RowsUnder(FIFO, refs, capacity, lies)) == Last(Missed(refs, capacity), capacity)
  {
    hide Keys, Last, Fetch;
    if |refs| == 0 {
      NoKeys(capacity);
    } else {
      var last, before := refs[|refs| - 1], refs[..|refs| - 1];
      FifoHoldsLastMissed(before, capacity, lies);
      RowsOneEach(FIFO, before, capacity, lies);
      var rows, frame := RowsUnder(FIFO, before, capacity, lies), lies(last.key.pid, last.key.page);
      if last.key in Keys(rows) {
        HitKeepsKeys(rows, capacity, FIFO, last.key, frame, last.time, last.time);
      } else {
        MissShifts(rows, capacity, last.key, frame, last.time, last.time);
        LastOfMore(Missed(before, capacity), last.key, capacity);
      }
    }
  }

  lemma NoKeys(capacity: nat)
    ensures Keys([]) == [] && Last<Key>([], capacity) == []
  {
  }

  // ----- what goes -----

  /** The pages of one list that are not in another, in order. */
  function Dropped(a: seq<Key>, b: seq<Key>): (r: seq<Key>) {
    if |a| == 0 then [] else (if a[0] in b then [] else [a[0]]) + Dropped(a[1..], b)
  }

  /** The pages thrown out while a reference string is served, in order. */
  function Evicted(refs: seq<Use>, capacity: nat, lies: PageMap): (keys: seq<Key>) {
    if |refs| == 0 then []
    else
      var before := refs[..|refs| - 1];
      Evicted(before, capacity, lies)
      + Dropped(Keys(RowsUnder(FIFO, before, capacity, lies)), Keys(RowsUnder(FIFO, refs, capacity, lies)))
  }

  ghost predicate Distinct(keys: seq<Key>) {
    forall i, j :: 0 <= i < j < |keys| ==> keys[i] != keys[j]
  }

  lemma UniqueDistinct(rows: seq<Row>)
    requires OneRowEach(rows)
    ensures Distinct(Keys(rows))
  {
  }

  lemma {:induction false} DroppedNone(a: seq<Key>, b: seq<Key>)
    requires forall k :: k in a ==> k in b
    ensures Dropped(a, b) == []
  {
    if |a| > 0 {
      assert a[0] in a;
      DroppedNone(a[1..], b);
    }
  }

  /** When a page comes and the first one goes, the first one is what is dropped. */
  lemma DroppedFirst(a: seq<Key>, k: Key, n: nat)
    requires 0 < n && |a| <= n && Distinct(a) && k !in a
    ensures Dropped(a, Last(a + [k], n)) + Last(a + [k], n) == a + [k]
  {
    hide Dropped, Last;
    LastIs(a, k, n);
    if |a| < n {
      DroppedNone(a, a + [k]);
      assert [] + (a + [k]) == a + [k];
    } else {
      DroppedHead(a, a[1..] + [k]);
      assert [a[0]] + (a[1..] + [k]) == a + [k];
    }
  }

  lemma LastIs(a: seq<Key>, k: Key, n: nat)
    requires 0 < n && |a| <= n
    ensures Last(a + [k], n) == if |a| < n then a + [k] else a[1..] + [k]
  {
  }

  lemma DroppedHead(a: seq<Key>, b: seq<Key>)
    requires a != [] && Distinct(a) && a[0] !in b && a[1..] <= b
    ensures Dropped(a, b) == [a[0]]
  {
    hide Distinct;
    forall x | x in a[1..]
      ensures x in b
    {
      assert x in b[..|a| - 1];
    }
    DroppedNone(a[1..], b);
  }

  /** The pages thrown out, and after them the pages present, are the pages missed. */
  lemma {:induction false} EvictedThenPresent(refs: seq<Use>, capacity: nat, lies: PageMap)
    requires capacity > 0 && AllMapped(refs, lies)
    ensures Evicted(refs, capacity, lies) + Keys(RowsUnder(FIFO, refs, capacity, lies)) == Missed(refs, capacity)
  {
    hide Keys, Last, Fetch, Dropped;
    if |refs| == 0 {
      NoKeys(capacity);
    } else {
      var last, before := refs[|refs| - 1], refs[..|refs| - 1];
      EvictedThenPresent(before, capacity, lies);
      FifoHoldsLastMissed(before, capacity, lies);
      RowsOneEach(FIFO, before, capacity, lies);
      var rows, frame := RowsUnder(FIFO, before, capacity, lies), lies(last.key.pid, last.key.page);
      var was, now := Keys(rows), Keys(RowsUnder(FIFO, refs, capacity, lies));
      UniqueDistinct(rows);
      if last.key in was {
        HitKeepsKeys(rows, capacity, FIFO, last.key, frame, last.time, last.time);
        DroppedNone(was, now);
        assert Evicted(before, capacity, lies) + [] == Evicted(before, capacity, lies);
      } else {
        MissShifts(rows, capacity, last.key, frame, last.time, last.time);
        DroppedFirst(was, last.key, capacity);
        var gone := Evicted(before, capacity, lies);
        assert (gone + Dropped(was, now)) + now == gone + (Dropped(was, now) + now);
        assert gone + (was + [last.key]) == (gone + was) + [last.key];
      }
    }
  }

  // ----- an algorithm the MMU does not know -----

  /** The pages of a reference string in the order of their first use, each once. */
  function Firsts(refs: seq<Use>): (keys: seq<Key>) {
    if |refs| == 0 then []
    else
      var before, k := Firsts(refs[..|refs| - 1]), refs[|refs| - 1].key;
      if k in before then before else before + [k]
  }

  function First<T>(s: seq<T>, n: nat): (r: seq<T>) {
    s[..Min(|s|, n)]
  }

  /** Nothing is ever replaced: the first pages stay. */
  lemma {:induction false} UnknownHoldsFirst(refs: seq<Use>, capacity: nat, lies: PageMap)
    requires capacity > 0 && AllMapped(refs, lies)
    ensures Keys(RowsUnder(Unknown, refs, capacity, lies)) == First(Firsts(refs), capacity)
  {
    hide Keys, Fetch;
    if |refs| == 0 {
      NoKeys(capacity);
    } else {
      var last, before := refs[|refs| - 1], refs[..|refs| - 1];
      UnknownHoldsFirst(before, capacity, lies);
      RowsOneEach(Unknown, before, capacity, lies);
      var rows, frame := RowsUnder(Unknown, before, capacity, lies), lies(last.key.pid, last.key.page);
      if last.key in Keys(rows) {
        HitKeepsKeys(rows, capacity, Unknown, last.key, frame, last.time, last.time);
      } else {
        MissFills(rows, capacity, last.key, frame, last.time, last.time);
      }
    }
  }

  lemma MissFills(rows: seq<Row>, capacity: nat, k: Key, frame: int, now: int, later: int)
    requires 0 < capacity && |rows| <= capacity && k !in Keys(rows)
    ensures Keys(Fetch(rows, capacity, Unknown, k.pid, k.page, frame, now, later).0)
         == if |rows| < capacity then Keys(rows) + [k] else Keys(rows)
  {
    KeyFound(rows, k);
    assert Keys(rows + [Row(k.pid, k.page, frame, later)]) == Keys(rows) + [k];
  }
}
