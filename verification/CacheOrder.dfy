/** What the routine cache is, seen as a sequence of entries from the most to the
    least recently added, and how its circular layout represents it. */
module CacheOrder {

  datatype Entry<K, D> = Entry(key: K, data: D)

  // --------------------------------------------------- the abstract cache

  /** A new entry goes to the front; the last one falls out of a full cache. */
  function Pushed<E>(s: seq<E>, e: E, size: nat): (r: seq<E>)
    requires size > 0 && |s| <= size
    ensures |r| <= size
  {
    if |s| < size then [e] + s else [e] + s[..size - 1]
  }

  /** Depth of the first entry with a key, or the fill level. */
  function Find<K(==), D>(s: seq<Entry<K, D>>, key: K): (d: nat)
    ensures d <= |s|
    ensures d < |s| ==> s[d].key == key
    ensures forall i :: 0 <= i < d ==> s[i].key != key
  {
    if s == [] then 0
    else if s[0].key == key then 0
    else 1 + Find(s[1..], key)
  }

  /** The entry at a depth trades places with the one above it. */
  function Raised<E>(s: seq<E>, d: nat): (r: seq<E>)
    requires d <= |s|
    ensures |r| == |s|
  {
    if 0 < d < |s| then s[d - 1 := s[d]][d := s[d - 1]] else s
  }

  function Touched<K(==), D>(s: seq<Entry<K, D>>, key: K): (r: seq<Entry<K, D>>)
    ensures |r| == |s|
  {
    Raised(s, Find(s, key))
  }

  datatype Op<K, D> = Query(key: K) | Add(entry: Entry<K, D>)

  function Apply<K(==), D>(s: seq<Entry<K, D>>, size: nat, op: Op<K, D>): (r: seq<Entry<K, D>>)
    requires size > 0 && |s| <= size
    ensures |s| <= |r| <= size
  {
    match op
    case Query(key) => Touched(s, key)
    case Add(e) => Pushed(s, e, size)
  }

  function Run<K(==), D>(s: seq<Entry<K, D>>, size: nat, ops: seq<Op<K, D>>): (r: seq<Entry<K, D>>)
    requires size > 0 && |s| <= size
    ensures |s| <= |r| <= size
    decreases |ops|
  {
    if ops == [] then s else Run(Apply(s, size, ops[0]), size, ops[1..])
  }

  /** One operation moves no entry down by more than one place. */
  lemma SinksByOne<K, D>(s: seq<Entry<K, D>>, size: nat, op: Op<K, D>, d: nat) returns (d': nat)
    requires d < |s| <= size && d + 1 < size
    ensures d' <= d + 1 && d' < |Apply(s, size, op)| && Apply(s, size, op)[d'] == s[d]
  {
    match op
    case Add(e) =>
      d' := d + 1;
    case Query(key) =>
      var hit := Find(s, key);
      d' := if 0 < hit == d < |s| then d - 1 else if 0 < hit == d + 1 < |s| then d + 1 else d;
  }

  /** An entry survives as many operations as there are places below it. */
  lemma {:induction false} Survives<K, D>(s: seq<Entry<K, D>>, size: nat, ops: seq<Op<K, D>>, d: nat)
    returns (d': nat)
    requires d < |s| <= size && |ops| < size - d
    ensures d' <= d + |ops| && d' < |Run(s, size, ops)| && Run(s, size, ops)[d'] == s[d]
    decreases |ops|
  {
    d' := d;
    if ops != [] {
      d' := SinksByOne(s, size, ops[0], d);
      d' := Survives(Apply(s, size, ops[0]), size, ops[1..], d');
    }
  }

  lemma PushedAt<E>(s: seq<E>, e: E, size: nat, i: nat)
    requires i < |s| == size
    ensures Pushed(s, e, size)[i] == if i == 0 then e else s[i - 1]
  {
  }

  lemma RunAdd<K, D>(s: seq<Entry<K, D>>, size: nat, ops: seq<Op<K, D>>)
    requires size > 0 && |s| <= size && ops != [] && ops[0].Add?
    ensures Run(s, size, ops) == Run(Pushed(s, ops[0].entry, size), size, ops[1..])
  {
  }

  /** Additions alone move every older entry down by exactly their number,
      so the bound of Survives is sharp. */
  lemma {:induction false} AddsPushDown<K, D>(s: seq<Entry<K, D>>, size: nat, ops: seq<Op<K, D>>, i: nat)
    requires |ops| <= i < |s| == size
    requires forall k :: 0 <= k < |ops| ==> ops[k].Add?
    ensures Run(s, size, ops)[i] == s[i - |ops|]
    decreases |ops|
  {
    if ops != [] {
      RunAdd(s, size, ops);
      AddsPushDown(Pushed(s, ops[0].entry, size), size, ops[1..], i);
      PushedAt(s, ops[0].entry, size, i - |ops[1..]|);
    }
  }

  /** A query only reorders. */
  lemma QueryKeepsEntries<K, D>(s: seq<Entry<K, D>>, key: K)
    ensures multiset(Touched(s, key)) == multiset(s)
  {
  }

  ghost predicate DistinctKeys<K, D>(s: seq<Entry<K, D>>) {
    forall i, j :: 0 <= i < j < |s| ==> s[i].key != s[j].key
  }

  /** Operations as the routine lookup issues them: an addition only follows a
      query that missed. */
  ghost predicate Disciplined<K, D>(s: seq<Entry<K, D>>, op: Op<K, D>) {
    op.Add? ==> Find(s, op.entry.key) == |s|
  }

  lemma KeepsDistinct<K, D>(s: seq<Entry<K, D>>, size: nat, op: Op<K, D>)
    requires size > 0 && |s| <= size && DistinctKeys(s) && Disciplined(s, op)
    ensures DistinctKeys(Apply(s, size, op))
  {
  }

  /** With distinct keys an entry is found exactly where it is. */
  lemma FindsIt<K, D>(s: seq<Entry<K, D>>, d: nat)
    requires DistinctKeys(s) && d < |s|
    ensures Find(s, s[d].key) == d
  {
  }

  /** A hit moves the entry one place up; but for the one it passes, the others stay. */
  lemma HitMovesUp<K, D>(s: seq<Entry<K, D>>, key: K, i: nat)
    requires DistinctKeys(s) && Find(s, key) < |s| && i < |s|
    ensures DistinctKeys(Touched(s, key))
    ensures Find(Touched(s, key), key) == if Find(s, key) > 0 then Find(s, key) - 1 else 0
    ensures i != Find(s, key) && i + 1 != Find(s, key) ==> Touched(s, key)[i] == s[i]
  {
    var (d, after) := (Find(s, key), Touched(s, key));
    KeepsDistinct(s, |s|, Query(key));
    assert after == Apply(s, |s|, Query(key));
    if d > 0 {
      assert after[d - 1] == s[d];
      FindsIt(after, d - 1);
    }
  }

  function Hits<K, D>(key: K, n: nat): seq<Op<K, D>> { seq(n, _ => Query(key)) }

  /** As many hits as it is deep bring an entry to the front. */
  lemma {:induction false} HitsReachTheFront<K, D>(s: seq<Entry<K, D>>, size: nat, key: K, n: nat)
    requires size > 0 && |s| <= size && DistinctKeys(s) && Find(s, key) < |s|
    ensures var after := Run(s, size, Hits(key, n));
            |after| == |s| && Find(after, key) == if n < Find(s, key) then Find(s, key) - n else 0
    decreases n
  {
    if n > 0 {
      HitMovesUp(s, key, 0);
      assert Hits<K, D>(key, n)[1..] == Hits(key, n - 1);
      HitsReachTheFront(Touched(s, key), size, key, n - 1);
    }
  }

  ghost predicate DisciplinedRun<K, D>(s: seq<Entry<K, D>>, size: nat, ops: seq<Op<K, D>>)
    requires size > 0 && |s| <= size
    decreases |ops|
  {
    ops != [] ==> Disciplined(s, ops[0]) && DisciplinedRun(Apply(s, size, ops[0]), size, ops[1..])
  }

  lemma {:induction false} RunKeepsDistinct<K, D>(s: seq<Entry<K, D>>, size: nat, ops: seq<Op<K, D>>)
    requires size > 0 && |s| <= size && DistinctKeys(s) && DisciplinedRun(s, size, ops)
    ensures DistinctKeys(Run(s, size, ops))
    decreases |ops|
  {
    if ops != [] {
      KeepsDistinct(s, size, ops[0]);
      RunKeepsDistinct(Apply(s, size, ops[0]), size, ops[1..]);
    }
  }

  /** A lookup that comes soon enough is a hit, with the data that was added. */
  lemma StillHit<K, D>(s: seq<Entry<K, D>>, size: nat, ops: seq<Op<K, D>>, d: nat)
    requires d < |s| <= size && |ops| < size - d
    requires DistinctKeys(s) && DisciplinedRun(s, size, ops)
    ensures var after := Run(s, size, ops);
            Find(after, s[d].key) < |after| && after[Find(after, s[d].key)] == s[d]
  {
    var d' := Survives(s, size, ops, d);
    RunKeepsDistinct(s, size, ops);
    FindsIt(Run(s, size, ops), d');
  }

  // ------------------------------------------------- the circular layout

  /** `refs` says which key slot belongs to a data slot. */
  datatype Ring<K, D> = Ring(top: nat, fill: nat, keys: seq<K>, refs: seq<nat>, data: seq<D>)
  {
    ghost predicate Shape() {
      && top < |keys| == |refs| == |data|
      && fill <= |keys|
      && (forall j :: 0 <= j < |refs| ==> refs[j] < |keys|)
      && (forall i, j :: 0 <= i < j < |refs| ==> refs[i] != refs[j])
    }

    function Slot(d: nat): (j: nat)
      requires top < |keys| && d < |keys|
      ensures j < |keys|
    {
      if d <= top then top - d else top + |keys| - d
    }

    ghost function View(): (s: seq<Entry<K, D>>)
      requires Shape()
      ensures |s| == fill
    {
      seq(fill, d requires 0 <= d < fill => Entry(keys[refs[Slot(d)]], data[Slot(d)]))
    }

    /** Swapping both arrays at neighbouring slots. */
    function Swapped(j: nat, k: nat): Ring<K, D>
      requires j < |refs| && k < |refs| && |refs| == |data|
    {
      this.(data := data[k := data[j]][j := data[k]], refs := refs[k := refs[j]][j := refs[k]])
    }

    /** Overwriting the slot after the top. */
    function Advanced(key: K, d: D): (r: Ring<K, D>)
      requires Shape()
    {
      var next := if top + 1 < |keys| then top + 1 else 0;
      Ring(next, if fill + 1 < |keys| then fill + 1 else |keys|,
           keys[refs[next] := key], refs, data[next := d])
    }
  }

  lemma SwapShape<K, D>(r: Ring<K, D>, j: nat, k: nat)
    requires r.Shape() && j < |r.refs| && k < |r.refs|
    ensures r.Swapped(j, k).Shape()
  {
    var refs := r.Swapped(j, k).refs;
    forall x | 0 <= x < |refs|
      ensures refs[x] == r.refs[if x == j then k else if x == k then j else x]
    {
    }
  }

  lemma SwapAt<K, D>(r: Ring<K, D>, d: nat, e: nat)
    requires r.Shape() && 0 < d < r.fill && e < r.fill
    requires r.Swapped(r.Slot(d), r.Slot(d - 1)).Shape()
    ensures r.Swapped(r.Slot(d), r.Slot(d - 1)).View()[e]
         == r.View()[if e == d then d - 1 else if e == d - 1 then d else e]
  {
    var r' := r.Swapped(r.Slot(d), r.Slot(d - 1));
    assert r'.Slot(e) == r.Slot(e);
    if e != d && e != d - 1 {
      assert r.Slot(e) != r.Slot(d) && r.Slot(e) != r.Slot(d - 1);
    }
  }

  lemma SwapRaises<K, D>(r: Ring<K, D>, d: nat)
    requires r.Shape() && 0 < d < r.fill
    ensures r.Swapped(r.Slot(d), r.Slot(d - 1)).Shape()
    ensures r.Swapped(r.Slot(d), r.Slot(d - 1)).View() == Raised(r.View(), d)
  {
    SwapShape(r, r.Slot(d), r.Slot(d - 1));
    var view := r.Swapped(r.Slot(d), r.Slot(d - 1)).View();
    forall e | 0 <= e < r.fill ensures view[e] == Raised(r.View(), d)[e] {
      SwapAt(r, d, e);
    }
  }

  lemma AdvanceAt<K, D>(r: Ring<K, D>, key: K, d: D, e: nat)
    requires r.Shape() && 0 < e < r.Advanced(key, d).fill && r.Advanced(key, d).Shape()
    ensures r.Advanced(key, d).View()[e] == r.View()[e - 1]
  {
    var r' := r.Advanced(key, d);
    assert r'.Slot(e) == r.Slot(e - 1);
    assert r'.Slot(e) != r'.top;
  }

  lemma AdvancePushes<K, D>(r: Ring<K, D>, key: K, d: D)
    requires r.Shape()
    ensures r.Advanced(key, d).Shape()
    ensures r.Advanced(key, d).View() == Pushed(r.View(), Entry(key, d), |r.keys|)
  {
    forall e | 0 < e < r.Advanced(key, d).fill
      ensures r.Advanced(key, d).View()[e] == r.View()[e - 1]
    {
      AdvanceAt(r, key, d, e);
    }
  }

  // -------------------------------------------------------- index masking

  function Power2(n: nat): (r: nat)
    ensures r > 0
  {
    if n == 0 then 1 else 2 * Power2(n - 1)
  }

  /** Bitwise conjunction with a non-negative mask, for two's complement integers
      of any width: halving rounds down, so the sign extends. */
  function And(a: int, mask: nat): (r: nat)
    ensures r <= mask
    decreases mask
  {
    if mask == 0 then 0 else 2 * And(a / 2, mask / 2) + (a % 2) * (mask % 2)
  }

  lemma AndOdd(a: int, half: nat)
    ensures And(a, 2 * half + 1) == 2 * And(a / 2, half) + a % 2
  {
    assert (2 * half + 1) / 2 == half && (2 * half + 1) % 2 == 1;
  }

  /** Masking brings an index that left the array by less than one turn, on
      either side, back to the slot it stands for. */
  lemma {:induction false} MaskWraps(a: int, k: nat)
    requires 0 - Power2(k) <= a < 2 * Power2(k)
    ensures And(a, Power2(k) - 1) ==
            if a < 0 then a + Power2(k) else if a < Power2(k) then a else a - Power2(k)
    decreases k
  {
    if k > 0 {
      AndOdd(a, Power2(k - 1) - 1);
      MaskWraps(a / 2, k - 1);
    }
  }

  /** The smallest power of two that is not less than x; the bound is where the
      32-bit shift would leave the range. */
  method CeilPow2(x: int) returns (i: nat, ghost k: nat)
    requires x <= 0x4000_0000
    ensures i == Power2(k) && x <= i && (i == 1 || i / 2 < x)
  {
    i, k := 1, 0;
    while i < x
      invariant i == Power2(k) && (i == 1 || i / 2 < x)
      decreases x - i
    {
      i, k := i * 2, k + 1;
    }
  }
}
