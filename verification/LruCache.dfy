/** The cache of generated routines and the count that keeps them alive. */
module LruCache {

  import opened CacheOrder

  /** Generated code. The count is shared between the cache and whoever else has
      bound the routine, such as draw calls in flight; `outside` is that other
      share. Each routine was compiled for one state. */
  class Routine<State> {
    var bindCount: int
    ghost var outside: nat
    ghost var freed: bool
    ghost const compiledFor: State

    constructor (state: State)
      ensures bindCount == 0 && outside == 0 && !freed && compiledFor == state
    {
      bindCount, outside, freed := 0, 0, false;
      compiledFor := state;
    }

    method Bind()
      requires !freed
      modifies this`bindCount
      ensures bindCount == old(bindCount) + 1
    {
      bindCount := bindCount + 1;
    }

    method Unbind()
      requires !freed && bindCount > 0
      modifies this`bindCount, this`freed
      ensures bindCount == old(bindCount) - 1
      ensures freed <==> bindCount == 0
    {
      bindCount := bindCount - 1;
      if bindCount == 0 {
        freed := true;
      }
    }
  }

  class LRUCache<State(==)> {
    const size: nat
    const mask: nat
    ghost const log: nat
    var top: nat
    var fill: nat
    const key: array<State>
    const ref: array<nat>
    const data: array<Routine?<State>>
    ghost var known: set<Routine<State>>

    ghost function Layout(): Ring<State, Routine?<State>>
      reads this, key, ref, data
    {
      Ring(top, fill, key[..], ref[..], data[..])
    }

    /** The arrays have the size the mask was made for, every slot in use holds a
        routine that was added, and the others are empty. */
    ghost predicate Slots()
      reads this, key, ref, data
    {
      && size == Power2(log) && mask == size - 1
      && (key as object) != ref && (key as object) != data
      && key.Length == ref.Length == data.Length == size
      && Layout().Shape()
      && Filled(Layout())
      && Recorded(data[..], known)
    }

    ghost predicate Valid()
      reads this, key, ref, data, known
    {
      Slots() && Balanced(data[..], known)
    }

    ghost function Contents(): (s: seq<Entry<State, Routine?<State>>>)
      reads this, key, ref, data
      requires Layout().Shape()
    {
      Layout().View()
    }

    constructor (n: int, blank: State)
      requires n <= 0x4000_0000
      ensures Valid() && Contents() == [] && known == {}
      ensures n <= size && (size == 1 || size / 2 < n)
      ensures fresh(key) && fresh(ref) && fresh(data)
    {
      var s, k := CeilPow2(n);
      size, log, mask := s, k, s - 1;
      top, fill, known := 0, 0, {};
      key := new State[s](_ => blank);
      ref := new nat[s](i => i);
      data := new Routine?<State>[s](_ => null);
      new;
      EmptyRing(Layout());
    }

    /** Masking an index that left the array by at most one turn. */
    method Wrapped(i: int) returns (j: nat)
      requires size == Power2(log) && mask == size - 1
      requires 0 <= i + size < 3 * size
      ensures j == if i < 0 then i + size else if i < size then i else i - size
    {
      MaskWraps(i, log);
      j := And(i, mask);
    }

    method Exchange(j: nat, k: nat)
      requires j < ref.Length == data.Length && k < ref.Length
      requires (key as object) != ref && (key as object) != data
      modifies ref, data
      ensures Layout() == old(Layout()).Swapped(j, k)
    {
      data[k], data[j] := data[j], data[k];
      ref[k], ref[j] := ref[j], ref[k];
      assert data[..] == old(data[..])[k := old(data[j])][j := old(data[k])];
      assert ref[..] == old(ref[..])[k := old(ref[j])][j := old(ref[k])];
    }

    /** The exchange made on a hit below the top. */
    method MoveUp(j: nat, ghost d: nat)
      requires Slots() && 0 < d < fill && j == Layout().Slot(d)
      modifies ref, data
      ensures Slots() && Contents() == Raised(old(Contents()), d)
      ensures multiset(Layout().data) == multiset(old(Layout()).data)
    {
      var k := Wrapped(j + 1);
      assert k == Layout().Slot(d - 1);
      SwapRaises(Layout(), d);
      SwapKeeps(Layout(), d, known);
      Exchange(j, k);
    }

    method KeyAt(i: int) returns (k: State)
      requires Slots() && top - fill < i <= top
      ensures k == Contents()[top - i].key
    {
      var j := Wrapped(i);
      assert j == Layout().Slot(top - i);
      k := key[ref[j]];
    }

    /** The search, from the top down; i runs below zero when the used part wraps. */
    method Search(k: State) returns (i: int)
      requires Slots()
      ensures i == top - Find(Contents(), k)
    {
      ghost var s := Contents();
      i := top;
      while i > top - fill
        invariant top - fill <= i <= top && |s| == fill
        invariant forall d :: 0 <= d < top - i ==> s[d].key != k
      {
        var found := KeyAt(i);
        assert found == s[top - i].key;
        if k == found {
          FoundHere(s, k, top - i);
          return;
        }
        i := i - 1;
      }
      FoundHere(s, k, fill);
    }

    /** Finds the most recent entry with the key and moves it one place up. */
    method Query(k: State) returns (hit: Routine?<State>)
      requires Valid()
      modifies ref, data
      ensures Valid()
      ensures Contents() == Touched(old(Contents()), k)
      ensures var d := Find(old(Contents()), k);
              hit == if d < fill then old(Contents())[d].data else null
      ensures hit != null ==> hit in known && !hit.freed
    {
      var i := Search(k);
      if i == top - fill {
        return null;
      }
      hit := TakeHit(i, Find(Contents(), k));
    }

    method TakeHit(i: int, ghost d: nat) returns (hit: Routine<State>)
      requires Valid() && d < fill && i == top - d
      modifies ref, data
      ensures Valid() && Contents() == Raised(old(Contents()), d)
      ensures hit == old(Contents())[d].data && hit in known && !hit.freed
    {
      ghost var before := Layout().data;
      var j;
      j, hit := Read(i, d);
      if i != top {
        MoveUp(j, d);
        BalancedPermuted(before, Layout().data, known);
      }
    }

    /** What the slot under index `i` holds. */
    method Read(i: int, ghost d: nat) returns (j: nat, hit: Routine<State>)
      requires Valid() && d < fill && i == top - d
      ensures j == Layout().Slot(d) && hit == Contents()[d].data && hit in known && !hit.freed
    {
      j := Wrapped(i);
      assert j == Layout().Slot(d);
      Live(data[..], known, j);
      hit := data[j];
    }

    /** Binds the new holder of a slot before releasing the old one. */
    method Occupy(j: nat, routine: Routine<State>)
      requires j < data.Length && Balanced(data[..], known) && !routine.freed
      requires routine in known || (routine.bindCount == routine.outside && multiset(data[..])[routine] == 0)
      requires data[j] != null ==> data[j] in known
      modifies this`known, data, known`bindCount, known`freed, routine`bindCount, routine`freed
      ensures Balanced(data[..], known) && known == old(known) + {routine} && !routine.freed
      ensures data[..] == old(data[..])[j := routine]
    {
      Replacing(data[..], j, routine);
      routine.Bind();
      if data[j] != null {
        InUse(data[..], data[j]);
        data[j].Unbind();
      }
      data[j] := routine;
      known := known + {routine};
      assert data[..] == old(data[..])[j := routine];
      forall r | r in known
        ensures r.bindCount == r.outside + multiset(data[..])[r] && (r.freed <==> r.bindCount == 0)
      {
        assert r == routine || r in old(known);
      }
    }

    /** A new entry takes the slot after the top. */
    method Add(k: State, routine: Routine<State>)
      requires Valid() && !routine.freed
      requires routine in known || routine.bindCount == routine.outside
      modifies this`top, this`fill, this`known, key, data, known`bindCount, known`freed,
               routine`bindCount, routine`freed
      ensures Valid() && known == old(known) + {routine} && !routine.freed
      ensures Contents() == Pushed(old(Contents()), Entry(k, routine), size)
    {
      AdvancePushes(Layout(), k, routine);
      AdvanceKeeps(Layout(), k, routine, known);
      if routine !in known {
        NotThere(data[..], routine);
      }
      Advance(k, routine);
      Occupy(top, routine);
    }

    method Advance(k: State, ghost incoming: Routine<State>)
      requires Slots()
      modifies this`top, this`fill, key
      ensures top < data.Length && data[..] == old(data[..])
      ensures Layout().(data := data[..][top := incoming]) == old(Layout()).Advanced(k, incoming)
    {
      top := Wrapped(top + 1);
      fill := if fill + 1 < size then fill + 1 else size;
      key[ref[top]] := k;
    }

    /** Every entry holds code compiled for its key, and no key has two. */
    ghost predicate Faithful()
      reads this, key, ref, data
      requires Layout().Shape()
    {
      Compiled(Contents())
    }

    /** The processors' use of the cache: generate only on a miss. `generated`
        stands for what the generator would return for this state. */
    method Lookup(state: State, generated: Routine<State>) returns (routine: Routine<State>)
      requires Valid() && Faithful()
      requires generated.bindCount == generated.outside == 0 && !generated.freed
      requires generated !in known && generated.compiledFor == state
      modifies this`top, this`fill, this`known, key, ref, data, known`bindCount, known`freed,
               generated`bindCount, generated`freed
      ensures Valid() && Faithful()
      ensures routine.compiledFor == state && routine in known && !routine.freed
      ensures var old_ := old(Contents());
              Contents() == if Find(old_, state) < |old_| then Touched(old_, state)
                            else Pushed(old_, Entry(state, generated), size)
    {
      ghost var before := Contents();
      var found := Query(state);
      TouchedCompiled(before, state);
      if found != null {
        return found;
      }
      PushedCompiled(before, state, generated, size);
      Add(state, generated);
      routine := generated;
    }

    /** A draw call holds the routines it uses until it has completed. */
    method Hold(routine: Routine<State>)
      requires Valid() && routine in known && !routine.freed
      modifies routine`bindCount, routine`outside
      ensures Valid() && routine.outside == old(routine.outside) + 1
    {
      routine.Bind();
      routine.outside := routine.outside + 1;
    }

    method LetGo(routine: Routine<State>)
      requires Valid() && routine in known && routine.outside > 0
      modifies routine`bindCount, routine`freed, routine`outside
      ensures Valid() && routine.outside == old(routine.outside) - 1
      ensures routine.freed <==> routine.outside == 0 && routine !in data[..]
    {
      routine.Unbind();
      routine.outside := routine.outside - 1;
      if routine in data[..] {
        InUse(data[..], routine);
      } else {
        NotThere(data[..], routine);
      }
    }

    /** Releases every slot. */
    method Destroy()
      requires Valid()
      modifies data, known`bindCount, known`freed
      ensures forall j :: 0 <= j < size ==> data[j] == null
      ensures forall r <- known :: r.bindCount == r.outside && (r.freed <==> r.outside == 0)
    {
      for i := 0 to size
        invariant Balanced(data[..], known) && Recorded(data[..], known)
        invariant forall j :: 0 <= j < i ==> data[j] == null
      {
        if data[i] != null {
          Vacate(i);
        }
      }
      NoneHeld(data[..], known);
    }

    method Vacate(j: nat)
      requires j < data.Length && Balanced(data[..], known) && Recorded(data[..], known) && data[j] != null
      modifies data, known`bindCount, known`freed
      ensures Balanced(data[..], known) && Recorded(data[..], known) && data[..] == old(data[..])[j := null]
    {
      Replacing(data[..], j, null);
      InUse(data[..], data[j]);
      data[j].Unbind();
      data[j] := null;
      assert data[..] == old(data[..])[j := null];
    }
  }

  lemma FoundHere<K, D>(s: seq<Entry<K, D>>, key: K, d: nat)
    requires d <= |s| && forall i :: 0 <= i < d ==> s[i].key != key
    requires d < |s| ==> s[d].key == key
    ensures Find(s, key) == d
  {
  }

  lemma InUse<T>(s: seq<T>, x: T)
    requires x in s
    ensures multiset(s)[x] > 0
  {
    assert x in multiset(s);
  }

  /** What a slot holds is alive. */
  lemma Live<S>(data: seq<Routine?<S>>, known: set<Routine<S>>, j: nat)
    requires Recorded(data, known) && Balanced(data, known) && j < |data| && data[j] != null
    ensures data[j] in known && data[j].bindCount > 0 && !data[j].freed
  {
    InUse(data, data[j]);
  }

  lemma NotThere<T>(s: seq<T>, x: T)
    requires x !in s
    ensures multiset(s)[x] == 0
  {
  }

  lemma Replacing<T>(s: seq<T>, j: nat, x: T)
    requires j < |s|
    ensures forall y :: multiset(s[j := x])[y] ==
              multiset(s)[y] - (if y == s[j] then 1 else 0) + (if y == x then 1 else 0)
  {
  }

  ghost predicate Compiled<S>(s: seq<Entry<S, Routine?<S>>>) {
    && DistinctKeys(s)
    && forall e <- s :: e.data != null && e.data.compiledFor == e.key
  }

  lemma TouchedCompiled<S>(s: seq<Entry<S, Routine?<S>>>, key: S)
    requires Compiled(s)
    ensures Compiled(Touched(s, key))
    ensures Find(s, key) == |s| ==> Touched(s, key) == s
  {
  }

  lemma PushedCompiled<S>(s: seq<Entry<S, Routine?<S>>>, key: S, routine: Routine<S>, size: nat)
    requires size > 0 && |s| <= size && Compiled(s)
    requires Find(s, key) == |s| && routine.compiledFor == key
    ensures Compiled(Pushed(s, Entry(key, routine), size))
  {
  }

  ghost predicate Filled<S>(r: Ring<S, Routine?<S>>)
    requires r.Shape()
  {
    forall d :: 0 <= d < |r.keys| ==> (r.data[r.Slot(d)] != null <==> d < r.fill)
  }

  /** Conservation: of every routine ever added, the cache owns as many binds as
      it has slots holding it, and it is gone exactly when nobody holds it. */
  ghost predicate Balanced<S>(data: seq<Routine?<S>>, known: set<Routine<S>>)
    reads known
  {
    forall r <- known ::
      r.bindCount == r.outside + multiset(data)[r] && (r.freed <==> r.bindCount == 0)
  }

  ghost predicate Recorded<S>(data: seq<Routine?<S>>, known: set<Routine<S>>) {
    forall j :: 0 <= j < |data| && data[j] != null ==> data[j] in known
  }

  lemma EmptyRing<S>(r: Ring<S, Routine?<S>>)
    requires r.top == r.fill == 0 < |r.keys| && |r.refs| == |r.data| == |r.keys|
    requires forall j :: 0 <= j < |r.keys| ==> r.refs[j] == j && r.data[j] == null
    ensures r.Shape() && r.View() == [] && Filled(r)
  {
  }

  /** Only how often each routine is held matters. */
  lemma BalancedPermuted<S>(before: seq<Routine?<S>>, data: seq<Routine?<S>>, known: set<Routine<S>>)
    requires Balanced(before, known) && multiset(data) == multiset(before)
    ensures Balanced(data, known)
  {
  }

  lemma NoneHeld<S>(data: seq<Routine?<S>>, known: set<Routine<S>>)
    requires Balanced(data, known) && forall j :: 0 <= j < |data| ==> data[j] == null
    ensures forall r <- known :: r.bindCount == r.outside && (r.freed <==> r.outside == 0)
  {
    forall r | r in known ensures r.bindCount == r.outside && (r.freed <==> r.outside == 0) {
      NotThere(data, r);
    }
  }

  lemma SwapKeeps<S>(r: Ring<S, Routine?<S>>, d: nat, known: set<Routine<S>>)
    requires r.Shape() && 0 < d < r.fill && Filled(r) && Recorded(r.data, known)
    requires r.Swapped(r.Slot(d), r.Slot(d - 1)).Shape()
    ensures var r' := r.Swapped(r.Slot(d), r.Slot(d - 1));
            Filled(r') && Recorded(r'.data, known) && multiset(r'.data) == multiset(r.data)
  {
    var r' := r.Swapped(r.Slot(d), r.Slot(d - 1));
    forall e | 0 <= e < |r.keys| ensures r'.data[r'.Slot(e)] != null <==> e < r.fill {
      assert r'.Slot(e) == r.Slot(e);
      if e != d && e != d - 1 {
        assert r.Slot(e) != r.Slot(d) && r.Slot(e) != r.Slot(d - 1);
      }
    }
  }

  lemma AdvanceKeeps<S>(r: Ring<S, Routine?<S>>, key: S, routine: Routine<S>, known: set<Routine<S>>)
    requires r.Shape() && Filled(r) && Recorded(r.data, known)
    requires r.Advanced(key, routine).Shape()
    ensures Filled(r.Advanced(key, routine))
    ensures Recorded(r.Advanced(key, routine).data, known + {routine})
  {
    var r' := r.Advanced(key, routine);
    forall e | 0 <= e < |r.keys| ensures r'.data[r'.Slot(e)] != null <==> e < r'.fill {
      if e > 0 {
        assert r'.Slot(e) == r.Slot(e - 1);
        assert r'.Slot(e) != r'.top;
      }
    }
  }
}
