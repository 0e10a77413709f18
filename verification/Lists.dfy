/** Lists as the list library keeps them: counting an element and taking its first occurrence out. */
module Lists {

  function Occurs<T(==)>(s: seq<T>, x: T): (n: nat) {
    if |s| == 0 then 0 else (if s[0] == x then 1 else 0) + Occurs(s[1..], x)
  }

  /** The first occurrence goes, if there is one. */
  function Remove<T(==)>(s: seq<T>, x: T): (r: seq<T>) {
    if |s| == 0 then [] else if s[0] == x then s[1..] else [s[0]] + Remove(s[1..], x)
  }

  lemma {:induction false} OccursAppend<T>(s: seq<T>, y: T, x: T)
    ensures Occurs(s + [y], x) == Occurs(s, x) + if y == x then 1 else 0
  {
    if |s| == 0 {
      assert s + [y] == [y] && [y][1..] == [];
    } else {
      assert (s + [y])[1..] == s[1..] + [y];
      OccursAppend(s[1..], y, x);
    }
  }

  lemma {:induction false} OccursRemove<T>(s: seq<T>, y: T, x: T)
    ensures Occurs(Remove(s, y), x) == Occurs(s, x) - if y == x && y in s then 1 else 0
    ensures |Remove(s, y)| == |s| - if y in s then 1 else 0
  {
    if |s| > 0 {
      assert y in s <==> y == s[0] || y in s[1..];
      OccursRemove(s[1..], y, x);
      assert s[0] != y ==> Remove(s, y)[1..] == Remove(s[1..], y);
    }
  }

  lemma {:induction false} OccursIn<T>(s: seq<T>, x: T)
    ensures x in s <==> Occurs(s, x) > 0
  {
    if |s| > 0 {
      assert x in s <==> x == s[0] || x in s[1..];
      OccursIn(s[1..], x);
    }
  }

  lemma OccursTail<T>(s: seq<T>, x: T)
    ensures s != [] ==> Occurs(s, x) == (if s[0] == x then 1 else 0) + Occurs(s[1..], x)
  {
  }

  lemma {:induction false} RemoveIn<T>(s: seq<T>, y: T)
    ensures forall x :: x in Remove(s, y) ==> x in s
  {
    if |s| > 0 {
      RemoveIn(s[1..], y);
    }
  }

  /** What was put at the end and is nowhere else is taken from the end. */
  lemma {:induction false} RemoveLast<T>(s: seq<T>, x: T)
    requires x !in s
    ensures Remove(s + [x], x) == s
  {
    if |s| > 0 {
      assert (s + [x])[1..] == s[1..] + [x];
      RemoveLast(s[1..], x);
    } else {
      assert s + [x] == [x] && [x][1..] == [];
    }
  }

  /** Taking out the first occurrence by its place. */
  lemma {:induction false} RemoveAt<T>(s: seq<T>, x: T, i: nat)
    requires i <= |s| && forall k :: 0 <= k < i ==> s[k] != x
    requires i < |s| ==> s[i] == x
    ensures Remove(s, x) == if i < |s| then s[..i] + s[i + 1..] else s
  {
    if i > 0 {
      RemoveAt(s[1..], x, i - 1);
      assert i < |s| ==> s[..i] + s[i + 1..] == [s[0]] + (s[1..][..i - 1] + s[1..][i..]);
    }
  }

  /** One step of a law on lines, and the law for the steps after it, make the law for all of them. */
  lemma Regroup<T>(a: seq<T>, b: seq<T>, c: seq<T>, d: seq<T>, e: seq<T>, f: seq<T>, g: seq<T>)
    requires b + c == d + e && a + d == f + g
    ensures (a + b) + c == f + (g + e)
  {
    assert (a + b) + c == a + (b + c);
    assert a + (d + e) == (a + d) + e;
    assert (f + g) + e == f + (g + e);
  }
}
