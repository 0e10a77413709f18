/**
 LRU replacement against its independent definition: a list of pages in order of last use. For every
 reference string the TLB holds exactly the most recently used pages, so a larger TLB holds everything a
 smaller one does and never hits less.
 */
module LruStack {
  import opened CTypes
  import opened TlbModel

  datatype Key = Key(pid: int, page: nat)

  /** A page and when it was last used. */
  datatype Use = Use(key: Key, time: int)

  // ----- the order of last use -----

  function Without(uses: seq<Use>, k: Key): (r: seq<Use>) {
    if |uses| == 0 then []
    else if uses[0].key == k then uses[1..]
    else [uses[0]] + Without(uses[1..], k)
  }

  /** The pages of a reference string, last used first, each once. */
  function Recent(refs: seq<Use>): (r: seq<Use>) {
    if |refs| == 0 then []
    else
      var last := refs[|refs| - 1];
      [last] + Without(Recent(refs[..|refs| - 1]), last.key)
  }

  ghost predicate HasKey(uses: seq<Use>, k: Key) {
    exists i :: 0 <= i < |uses| && uses[i].key == k
  }

  /** Strictly descending times and distinct pages. */
  ghost predicate Ordered(uses: seq<Use>) {
    && (forall i, j :: 0 <= i < j < |uses| ==> uses[i].time > uses[j].time)
    && (forall i, j :: 0 <= i < j < |uses| ==> uses[i].key != uses[j].key)
  }

  /** Where a page stands in a list; its length when it is not there. */
  function Place(uses: seq<Use>, k: Key): (p: nat)
    ensures p <= |uses|
    ensures p < |uses| ==> uses[p].key == k
    ensures forall i :: 0 <= i < p ==> uses[i].key != k
  {
    if |uses| == 0 || uses[0].key == k then 0 else 1 + Place(uses[1..], k)
  }

  lemma {:induction false} WithoutAt(uses: seq<Use>, k: Key)
    ensures var p := Place(uses, k);
            Without(uses, k) == if p < |uses| then uses[..p] + uses[p + 1..] else uses
  {
    if |uses| > 0 && uses[0].key != k {
      WithoutAt(uses[1..], k);
      Shifted(uses, Place(uses[1..], k));
    }
  }

  lemma Shifted(uses: seq<Use>, q: nat)
    requires |uses| > 0 && q <= |uses| - 1
    ensures uses == [uses[0]] + uses[1..]
    ensures q < |uses| - 1 ==>
              [uses[0]] + (uses[1..][..q] + uses[1..][q + 1..]) == uses[..q + 1] + uses[q + 2..]
  {
  }

  /** A strictly increasing clock that fits 32 bits. */
  ghost predicate Ticking(refs: seq<Use>) {
    && (forall i :: 0 <= i < |refs| ==> 0 <= refs[i].time < 0x8000_0000)
    && (forall i, j :: 0 <= i < j < |refs| ==> refs[i].time < refs[j].time)
  }

  ghost predicate TimesUpTo(uses: seq<Use>, t: int) {
    forall i :: 0 <= i < |uses| ==> 0 <= uses[i].time <= t
  }

  lemma CutOrdered(uses: seq<Use>, p: nat)
    requires Ordered(uses) && p < |uses|
    ensures var rest := uses[..p] + uses[p + 1..];
            Ordered(rest) && !HasKey(rest, uses[p].key) && forall u :: u in rest ==> u in uses
  {
    var rest := uses[..p] + uses[p + 1..];
    forall i | 0 <= i < |rest|
      ensures rest[i] == uses[if i < p then i else i + 1]
    {
    }
  }

  /** What is left without a page keeps its order. */
  lemma WithoutOrdered(uses: seq<Use>, k: Key)
    requires Ordered(uses)
    ensures Ordered(Without(uses, k)) && !HasKey(Without(uses, k), k)
    ensures forall u :: u in Without(uses, k) ==> u in uses
  {
    hide Without, Ordered;
    WithoutAt(uses, k);
    if Place(uses, k) < |uses| {
      CutOrdered(uses, Place(uses, k));
    }
  }

  lemma FrontOrdered(uses: seq<Use>, u: Use)
    requires Ordered(uses) && TimesUpTo(uses, u.time - 1)
    ensures Ordered([u] + Without(uses, u.key)) && (u.time >= 0 ==> TimesUpTo([u] + Without(uses, u.key), u.time))
  {
    hide Without;
    WithoutOrdered(uses, u.key);
    var rest := Without(uses, u.key);
    forall i | 0 <= i < |rest|
      ensures 0 <= rest[i].time < u.time && rest[i].key != u.key
    {
      assert rest[i] in uses;
    }
  }

  lemma {:induction false} RecentOrdered(refs: seq<Use>)
    requires Ticking(refs)
    ensures Ordered(Recent(refs))
    ensures |refs| == 0 ==> Recent(refs) == []
    ensures |refs| > 0 ==> TimesUpTo(Recent(refs), refs[|refs| - 1].time)
  {
    if |refs| > 0 {
      var before := refs[..|refs| - 1];
      RecentOrdered(before);
      FrontOrdered(Recent(before), refs[|refs| - 1]);
    }
  }

  // ----- the TLB under a reference string -----

  /** The rows after a reference string over pages with frames, under a given algorithm. */
  function RowsUnder(algorithm: Algorithm, refs: seq<Use>, capacity: nat, lies: PageMap): (rows: seq<Row>)
    ensures |rows| <= capacity
  {
    if |refs| == 0 then []
    else
      var last := refs[|refs| - 1];
      Fetch(RowsUnder(algorithm, refs[..|refs| - 1], capacity, lies), capacity, algorithm, last.key.pid, last.key.page,
            lies(last.key.pid, last.key.page), last.time, last.time).0
  }

  function UseOf(r: Row): (u: Use) {
    Use(Key(r.pid, r.page), r.time)
  }

  function Uses(rows: seq<Row>): (uses: seq<Use>)
    ensures |uses| == |rows|
    ensures forall i :: 0 <= i < |rows| ==> uses[i] == UseOf(rows[i])
  {
    seq(|rows|, i requires 0 <= i < |rows| => UseOf(rows[i]))
  }

  /** The rows hold exactly the first uses of `uses`, as many as the capacity allows. */
  ghost predicate Holds(rows: seq<Row>, uses: seq<Use>, capacity: nat) {
    |rows| == Min(|uses|, capacity) && multiset(Uses(rows)) == multiset(uses[..|rows|])
  }

  lemma SameIn(a: seq<Use>, b: seq<Use>, i: nat) returns (j: nat)
    requires multiset(a) == multiset(b) && i < |a|
    ensures j < |b| && b[j] == a[i]
  {
    assert a[i] in multiset(b);
    j :| 0 <= j < |b| && b[j] == a[i];
  }

  lemma TakeOut(s: seq<Use>, i: nat)
    requires i < |s|
    ensures multiset(s[..i] + s[i + 1..]) == multiset(s) - multiset{s[i]}
  {
    assert s == s[..i] + [s[i]] + s[i + 1..];
  }

  /** A hit: the row is stamped, and its page moves to the front. */
  lemma HitHolds(rows: seq<Row>, uses: seq<Use>, capacity: nat, i: nat, now: int)
    requires Holds(rows, uses, capacity) && Ordered(uses) && i < |rows|
    ensures var k := UseOf(rows[i]).key;
            Holds(rows[i := rows[i].(time := now)], [Use(k, now)] + Without(uses, k), capacity)
  {
    hide Without, Ordered;
    var k, n := UseOf(rows[i]).key, |rows|;
    var after := rows[i := rows[i].(time := now)];
    var q := HitPlace(rows, uses, capacity, i);
    TakeOut(uses[..n], q);
    FrontOfRest(uses, n, q, Use(k, now));
    assert Uses(after) == Uses(rows)[i := Use(k, now)];
  }

  /** Where a row's page stands in the order of last use. */
  lemma HitPlace(rows: seq<Row>, uses: seq<Use>, capacity: nat, i: nat) returns (q: nat)
    requires Holds(rows, uses, capacity) && Ordered(uses) && i < |rows|
    ensures q < |rows| <= |uses| && uses[q] == UseOf(rows[i])
    ensures Without(uses, UseOf(rows[i]).key) == uses[..q] + uses[q + 1..]
  {
    hide Without;
    var k := UseOf(rows[i]).key;
    var p := Place(uses, k);
    WithoutAt(uses, k);
    q := SameIn(Uses(rows), uses[..|rows|], i);
    assert uses[q].key == k;
    assert p == q;
  }

  lemma FrontOfRest(uses: seq<Use>, n: nat, q: nat, u: Use)
    requires q < n <= |uses|
    ensures ([u] + (uses[..q] + uses[q + 1..]))[..n] == [u] + (uses[..n][..q] + uses[..n][q + 1..])
  {
  }

  /** A miss with room: every page used so far is there, and the new one is appended. */
  lemma RoomHolds(rows: seq<Row>, uses: seq<Use>, capacity: nat, row: Row)
    requires Holds(rows, uses, capacity) && |rows| < capacity && Ordered(uses)
    requires forall i :: 0 <= i < |rows| ==> UseOf(rows[i]).key != UseOf(row).key
    ensures Holds(rows + [row], [UseOf(row)] + Without(uses, UseOf(row).key), capacity)
  {
    var k := UseOf(row).key;
    var p := Place(uses, k);
    WithoutAt(uses, k);
    assert uses[..|rows|] == uses;
    MissIsBelow(rows, uses, capacity, k, p);
    assert Uses(rows + [row]) == Uses(rows) + [UseOf(row)];
    var next := [UseOf(row)] + uses;
    assert next[..|rows| + 1] == next;
  }

  /** The row the scan picks is the one of the last page the TLB holds. */
  lemma LeastIsLast(rows: seq<Row>, uses: seq<Use>, capacity: nat, r: nat)
    requires Holds(rows, uses, capacity) && Ordered(uses) && r < |rows| && IsLeast(rows, r)
    ensures UseOf(rows[r]) == uses[|rows| - 1]
  {
    var n := |rows|;
    var x := SameIn(uses[..n], Uses(rows), n - 1);
    var y := SameIn(Uses(rows), uses[..n], r);
    assert rows[r].time <= rows[x].time;
    assert uses[y].time <= uses[n - 1].time;
  }

  /** A miss on a full TLB: the last page it holds makes room. */
  lemma FullHolds(rows: seq<Row>, uses: seq<Use>, capacity: nat, row: Row, r: nat)
    requires Holds(rows, uses, capacity) && Ordered(uses) && |rows| == capacity > 0
    requires r < |rows| && UseOf(rows[r]) == uses[|rows| - 1]
    requires forall i :: 0 <= i < |rows| ==> UseOf(rows[i]).key != UseOf(row).key
    ensures Holds(rows[..r] + rows[r + 1..] + [row], [UseOf(row)] + Without(uses, UseOf(row).key), capacity)
  {
    hide Without, Uses, Ordered;
    var k, n := UseOf(row).key, |rows|;
    var p := Place(uses, k);
    WithoutAt(uses, k);
    MissIsBelow(rows, uses, capacity, k, p);
    FrontPrefix(uses, Without(uses, k), UseOf(row), p, n);
    UsesAfterRemoval(rows, r, row);
    SwapOut(Uses(rows), r, uses[..n], UseOf(row));
    assert uses[..n][..n - 1] == uses[..n - 1];
  }

  /** Two lists with the same members, one losing member `r` and the other its last: the same member. */
  lemma SwapOut(a: seq<Use>, r: nat, b: seq<Use>, x: Use)
    requires r < |a| == |b| && multiset(a) == multiset(b) && a[r] == b[|b| - 1]
    ensures multiset(a[..r] + a[r + 1..] + [x]) == multiset([x] + b[..|b| - 1])
  {
    var m := |b| - 1;
    TakeOut(a, r);
    TakeOut(b, m);
    assert b[..m] + b[m + 1..] == b[..m];
  }

  lemma FrontPrefix(uses: seq<Use>, rest: seq<Use>, u: Use, p: nat, n: nat)
    requires 0 < n <= p <= |uses| && n <= |uses|
    requires rest == if p < |uses| then uses[..p] + uses[p + 1..] else uses
    ensures n <= |[u] + rest| && ([u] + rest)[..n] == [u] + uses[..n - 1]
  {
  }

  lemma UsesAfterRemoval(rows: seq<Row>, r: nat, row: Row)
    requires r < |rows|
    ensures Uses(rows[..r] + rows[r + 1..] + [row]) == Uses(rows)[..r] + Uses(rows)[r + 1..] + [UseOf(row)]
  {
  }

  lemma MissIsBelow(rows: seq<Row>, uses: seq<Use>, capacity: nat, k: Key, p: nat)
    requires Holds(rows, uses, capacity)
    requires forall i :: 0 <= i < |rows| ==> UseOf(rows[i]).key != k
    requires p < |uses| ==> uses[p].key == k
    requires p <= |uses|
    ensures p >= |rows|
  {
    forall q | 0 <= q < |rows|
      ensures uses[q].key != k
    {
      var i := SameIn(uses[..|rows|], Uses(rows), q);
    }
  }

  ghost predicate AllMapped(refs: seq<Use>, lies: PageMap) {
    forall i :: 0 <= i < |refs| ==> lies(refs[i].key.pid, refs[i].key.page) != -1
  }

  lemma TimesNonNegative(rows: seq<Row>, uses: seq<Use>, capacity: nat, t: int)
    requires Holds(rows, uses, capacity) && TimesUpTo(uses, t)
    ensures forall i :: 0 <= i < |rows| ==> 0 <= rows[i].time <= t
  {
    forall i | 0 <= i < |rows|
      ensures 0 <= rows[i].time <= t
    {
      var j := SameIn(Uses(rows), uses[..|rows|], i);
    }
  }

  lemma {:induction false} RowsOneEach(algorithm: Algorithm, refs: seq<Use>, capacity: nat, lies: PageMap)
    requires AllMapped(refs, lies)
    ensures OneRowEach(RowsUnder(algorithm, refs, capacity, lies))
  {
    if |refs| > 0 {
      var last, before := refs[|refs| - 1], refs[..|refs| - 1];
      RowsOneEach(algorithm, before, capacity, lies);
      FetchKeepsOneRow(RowsUnder(algorithm, before, capacity, lies), capacity, algorithm, last.key.pid, last.key.page,
                       lies(last.key.pid, last.key.page), last.time, last.time);
    }
  }

  lemma NextHolds(rows: seq<Row>, uses: seq<Use>, capacity: nat, u: Use, frame: int)
    requires capacity > 0 && Holds(rows, uses, capacity) && Ordered(uses) && OneRowEach(rows)
    requires u.time < 0x8000_0000 && TimesUpTo(uses, u.time - 1)
    ensures Holds(Fetch(rows, capacity, LRU, u.key.pid, u.key.page, frame, u.time, u.time).0,
                  [u] + Without(uses, u.key), capacity)
  {
    hide Holds, Ordered, LeastRow;
    HoldsSize(rows, uses, capacity);
    var i := Find(rows, u.key.pid, u.key.page);
    var row := Row(u.key.pid, u.key.page, frame, u.time);
    if i != -1 {
      HitHolds(rows, uses, capacity, i, u.time);
    } else if |rows| < capacity {
      RoomHolds(rows, uses, capacity, row);
    } else {
      LeastFound(rows, uses, capacity, u.time);
      LeastIsLast(rows, uses, capacity, LeastRow(rows));
      FullHolds(rows, uses, capacity, row, LeastRow(rows));
    }
  }

  lemma HoldsSize(rows: seq<Row>, uses: seq<Use>, capacity: nat)
    requires Holds(rows, uses, capacity)
    ensures |rows| == Min(|uses|, capacity)
  {
  }

  lemma LeastFound(rows: seq<Row>, uses: seq<Use>, capacity: nat, t: int)
    requires Holds(rows, uses, capacity) && |rows| > 0 && TimesUpTo(uses, t - 1) && t < 0x8000_0000
    ensures IsLeast(rows, LeastRow(rows))
  {
    TimesNonNegative(rows, uses, capacity, t - 1);
    LeastRowIff(rows);
    if forall k :: 0 <= k < |rows| ==> rows[0].time <= rows[k].time {
      assert IsLeast(rows, 0);
    }
  }

  /** The TLB after any reference string holds exactly the most recently used pages. */
  lemma {:induction false} LruHoldsMostRecent(refs: seq<Use>, capacity: nat, lies: PageMap)
    requires capacity > 0 && Ticking(refs) && AllMapped(refs, lies)
    ensures Holds(RowsUnder(LRU, refs, capacity, lies), Recent(refs), capacity)
  {
    hide Holds;
    if |refs| == 0 {
      NothingHeld(capacity);
    } else {
      var last, before := refs[|refs| - 1], refs[..|refs| - 1];
      LruHoldsMostRecent(before, capacity, lies);
      RecentOrdered(before);
      RowsOneEach(LRU, before, capacity, lies);
      NextHolds(RowsUnder(LRU, before, capacity, lies), Recent(before), capacity, last, lies(last.key.pid, last.key.page));
    }
  }

  lemma NothingHeld(capacity: nat)
    ensures Holds([], [], capacity)
  {
  }

  // ----- inclusion -----

  ghost predicate Contains(rows: seq<Row>, k: Key) {
    exists i :: 0 <= i < |rows| && UseOf(rows[i]).key == k
  }

  lemma ContainsIff(rows: seq<Row>, uses: seq<Use>, capacity: nat, k: Key)
    requires Holds(rows, uses, capacity)
    ensures Contains(rows, k) <==> HasKey(uses[..Min(|uses|, capacity)], k)
  {
    if i :| 0 <= i < |rows| && UseOf(rows[i]).key == k {
      var j := SameIn(Uses(rows), uses[..|rows|], i);
    }
    if j :| 0 <= j < |rows| && uses[..|rows|][j].key == k {
      var i := SameIn(uses[..|rows|], Uses(rows), j);
    }
  }

  /** A larger TLB contains every page a smaller one does. */
  lemma Inclusion(refs: seq<Use>, small: nat, large: nat, lies: PageMap, k: Key)
    requires 0 < small <= large && Ticking(refs) && AllMapped(refs, lies)
    ensures Contains(RowsUnder(LRU, refs, small, lies), k) ==> Contains(RowsUnder(LRU, refs, large, lies), k)
  {
    hide Holds, Contains;
    var uses := Recent(refs);
    LruHoldsMostRecent(refs, small, lies);
    LruHoldsMostRecent(refs, large, lies);
    ContainsIff(RowsUnder(LRU, refs, small, lies), uses, small, k);
    ContainsIff(RowsUnder(LRU, refs, large, lies), uses, large, k);
    if HasKey(uses[..Min(|uses|, small)], k) {
      var i :| 0 <= i < |uses[..Min(|uses|, small)]| && uses[..Min(|uses|, small)][i].key == k;
      assert uses[..Min(|uses|, large)][i].key == k;
    }
  }

  /** How many references of the string hit. */
  ghost function Hits(refs: seq<Use>, capacity: nat, lies: PageMap): (n: nat) {
    if |refs| == 0 then 0
    else
      var before := refs[..|refs| - 1];
      Hits(before, capacity, lies) + (if Contains(RowsUnder(LRU, before, capacity, lies), refs[|refs| - 1].key) then 1 else 0)
  }

  /** A larger TLB never hits less: LRU has no anomaly. */
  lemma {:induction false} HitsGrow(refs: seq<Use>, small: nat, large: nat, lies: PageMap)
    requires 0 < small <= large && Ticking(refs) && AllMapped(refs, lies)
    ensures Hits(refs, small, lies) <= Hits(refs, large, lies)
  {
    hide Contains, RowsUnder;
    if |refs| > 0 {
      var before := refs[..|refs| - 1];
      HitsGrow(before, small, large, lies);
      Inclusion(before, small, large, lies, refs[|refs| - 1].key);
    }
  }
}
