/** Two-counter lifetimes: an object lives while the application references it or
    a binding slot holds it. */
module ObjectLifetime {

  class Unknown {
    var referenceCount: int
    var bindCount: int
    ghost var deleted: bool

    constructor ()
      ensures referenceCount == 0 && bindCount == 0 && !deleted
    {
      referenceCount, bindCount, deleted := 0, 0, false;
    }

    method AddRef() returns (count: int)
      requires !deleted
      modifies this`referenceCount
      ensures referenceCount == old(referenceCount) + 1 == count
    {
      referenceCount := referenceCount + 1;
      count := referenceCount;
    }

    /** Releasing an object the application no longer references is harmless
        while something still binds it. */
    method Release() returns (current: int)
      requires !deleted
      modifies this`referenceCount, this`deleted
      ensures referenceCount == (if old(referenceCount) > 0 then old(referenceCount) - 1
                                 else old(referenceCount))
      ensures current == referenceCount
      ensures deleted <==> referenceCount == 0 && bindCount == 0
    {
      current := referenceCount;
      if referenceCount > 0 {
        referenceCount := referenceCount - 1;
        current := referenceCount;
      }
      if referenceCount == 0 && bindCount == 0 {
        deleted := true;
      }
    }

    method Bind()
      requires !deleted
      modifies this`bindCount
      ensures bindCount == old(bindCount) + 1
    {
      bindCount := bindCount + 1;
    }

    method Unbind()
      requires !deleted && bindCount > 0
      modifies this`bindCount, this`deleted
      ensures bindCount == old(bindCount) - 1
      ensures deleted <==> referenceCount == 0 && bindCount == 0
    {
      bindCount := bindCount - 1;
      if referenceCount == 0 && bindCount == 0 {
        deleted := true;
      }
    }
  }

  type Table = array<Unknown?>

  // ------------------------------------------------ all slots as one list

  ghost function ViewsOf(tables: seq<Table>): (views: seq<seq<Unknown?>>)
    reads tables
    ensures |views| == |tables|
    ensures forall i :: 0 <= i < |views| ==> views[i] == tables[i][..]
  {
    seq(|tables|, i requires 0 <= i < |tables| reads tables => tables[i][..])
  }

  function Flat<T>(views: seq<seq<T>>): seq<T> {
    if views == [] then [] else views[0] + Flat(views[1..])
  }

  lemma CountOfConcat<T>(a: seq<T>, b: seq<T>, x: T)
    ensures multiset(a + b)[x] == multiset(a)[x] + multiset(b)[x]
  {
  }

  lemma CountOfUpdate<T>(s: seq<T>, j: nat, x: T, y: T)
    requires j < |s|
    ensures multiset(s[j := x])[y]
         == multiset(s)[y] - (if y == s[j] then 1 else 0) + (if y == x then 1 else 0)
  {
  }

  /** Writing one slot of one table changes the count of two objects only. */
  lemma {:induction false} CountOfWrite<T>(views: seq<seq<T>>, k: nat, j: nat, x: T, y: T)
    requires k < |views| && j < |views[k]|
    ensures multiset(Flat(views[k := views[k][j := x]]))[y] + (if y == views[k][j] then 1 else 0)
         == multiset(Flat(views))[y] + (if y == x then 1 else 0)
    decreases |views|
  {
    var views' := views[k := views[k][j := x]];
    CountOfConcat(views[0], Flat(views[1..]), y);
    CountOfConcat(views'[0], Flat(views'[1..]), y);
    if k == 0 {
      assert views'[1..] == views[1..];
      CountOfUpdate(views[0], j, x, y);
    } else {
      assert views'[1..] == views[1..][k - 1 := views[k][j := x]];
      CountOfWrite(views[1..], k - 1, j, x, y);
    }
  }

  lemma {:induction false} InFlat<T>(views: seq<seq<T>>, k: nat, j: nat)
    requires k < |views| && j < |views[k]|
    ensures multiset(Flat(views))[views[k][j]] > 0
    decreases |views|
  {
    var x := views[k][j];
    CountOfConcat(views[0], Flat(views[1..]), x);
    if k == 0 {
      assert x in views[0];
    } else {
      InFlat(views[1..], k - 1, j);
    }
  }

  /** A table of empty slots adds no binding. */
  lemma {:induction false} CountOfEmpty(views: seq<seq<Unknown?>>, empty: seq<Unknown?>, o: Unknown)
    requires forall j :: 0 <= j < |empty| ==> empty[j] == null
    ensures multiset(Flat(views + [empty]))[o] == multiset(Flat(views))[o]
    decreases |views|
  {
    if views == [] {
      assert (views + [empty])[1..] == [];
      assert Flat(views + [empty]) == empty;
      assert o !in empty;
    } else {
      assert (views + [empty])[1..] == views[1..] + [empty];
      CountOfConcat(views[0], Flat(views[1..]), o);
      CountOfConcat(views[0], Flat(views[1..] + [empty]), o);
      CountOfEmpty(views[1..], empty, o);
    }
  }

  // ------------------------------------------------------------ invariant

  /** Conservation: an object has one bind for each slot that holds it, and is
      deleted exactly when nothing references or binds it. */
  ghost predicate Conserved(views: seq<seq<Unknown?>>, objects: set<Unknown>)
    reads objects
  {
    forall o <- objects :: Accounted(o, multiset(Flat(views))[o])
  }

  ghost predicate Accounted(o: Unknown, slots: nat)
    reads o
  {
    && o.bindCount == slots
    && o.referenceCount >= 0
    && (o.deleted <==> o.referenceCount == 0 && o.bindCount == 0)
  }

  ghost predicate Recorded(views: seq<seq<Unknown?>>, objects: set<Unknown>) {
    forall k, j :: 0 <= k < |views| && 0 <= j < |views[k]| && views[k][j] != null ==> views[k][j] in objects
  }

  /** No slot points to a deleted object. */
  lemma NoDanglingSlot(views: seq<seq<Unknown?>>, objects: set<Unknown>, k: nat, j: nat)
    requires Conserved(views, objects) && Recorded(views, objects)
    requires k < |views| && j < |views[k]| && views[k][j] != null
    ensures views[k][j] in objects && views[k][j].bindCount > 0 && !views[k][j].deleted
  {
    InFlat(views, k, j);
    assert Accounted(views[k][j], multiset(Flat(views))[views[k][j]]);
  }

  /** Everything that belongs to one device: the slot tables of the device and of
      its state blocks, and every object that was ever referenced or bound. */
  class Registry {
    ghost var tables: seq<Table>
    ghost var objects: set<Unknown>

    constructor ()
      ensures Valid() && tables == [] && objects == {}
    {
      tables, objects := [], {};
    }

    ghost predicate Valid()
      reads this, tables, objects
    {
      && Distinct()
      && Recorded(Views(), objects)
      && Conserved(Views(), objects)
    }

    ghost predicate Distinct()
      reads this
    {
      forall i, k :: 0 <= i < k < |tables| ==> tables[i] != tables[k]
    }

    ghost function Views(): (v: seq<seq<Unknown?>>)
      reads this, tables
    {
      ViewsOf(tables)
    }

    ghost predicate Usable(o: Unknown?)
      reads this, o
    {
      o != null ==> o in objects && !o.deleted
    }

    ghost predicate Owns(k: nat, t: Table)
      reads this
    {
      k < |tables| && tables[k] == t
    }

    /** The application's own references. */
    method Acquire(o: Unknown)
      requires Valid() && o in objects && !o.deleted
      modifies o`referenceCount
      ensures Valid() && o.referenceCount == old(o.referenceCount) + 1
    {
      assert Accounted(o, multiset(Flat(Views()))[o]);
      var _ := o.AddRef();
      assert Accounted(o, multiset(Flat(Views()))[o]);
    }

    method Release(o: Unknown)
      requires Valid() && o in objects && !o.deleted
      modifies o`referenceCount, o`deleted
      ensures Valid()
      ensures o.referenceCount == if old(o.referenceCount) > 0 then old(o.referenceCount) - 1 else 0
      ensures o.deleted <==> o.referenceCount == 0 && o.bindCount == 0
    {
      assert Accounted(o, multiset(Flat(Views()))[o]);
      var _ := o.Release();
      assert Accounted(o, multiset(Flat(Views()))[o]);
    }

    /** A new object joins with its first reference or bind. */
    method Create() returns (o: Unknown)
      requires Valid()
      modifies this`objects
      ensures Valid() && fresh(o) && objects == old(objects) + {o}
      ensures o.referenceCount == 1 && !o.deleted && Views() == old(Views())
    {
      o := new Unknown();
      var _ := o.AddRef();
      assert Views() == old(Views());
      assert Conserved(Views(), objects);
      Joined(Views(), objects, o);
      objects := objects + {o};
    }

    /** A new table of empty slots, for a new state block. */
    method NewTable(n: nat) returns (t: Table)
      requires Valid()
      modifies this`tables
      ensures Valid() && fresh(t) && t.Length == n && tables == old(tables) + [t]
      ensures Views() == old(Views()) + [seq(n, _ => null)]
    {
      t := new Unknown?[n](_ => null);
      assert Valid();
      ghost var before := Views();
      EmptyTable(before, t[..], objects);
      tables := tables + [t];
      assert t[..] == seq(n, _ => null);
      assert Views() == before + [t[..]];
    }
  }

  lemma NotHeld(views: seq<seq<Unknown?>>, objects: set<Unknown>, o: Unknown)
    requires Recorded(views, objects) && o !in objects
    ensures multiset(Flat(views))[o] == 0
    decreases |views|
  {
    if views != [] {
      CountOfConcat(views[0], Flat(views[1..]), o);
      assert o !in views[0];
      assert Recorded(views[1..], objects) by {
        assert forall k :: 0 <= k < |views| - 1 ==> views[1..][k] == views[k + 1];
      }
      NotHeld(views[1..], objects, o);
    }
  }

  lemma Joined(views: seq<seq<Unknown?>>, objects: set<Unknown>, o: Unknown)
    requires Conserved(views, objects) && Recorded(views, objects) && o !in objects
    requires o.referenceCount > 0 && o.bindCount == 0 && !o.deleted
    ensures Conserved(views, objects + {o})
  {
    NotHeld(views, objects, o);
    assert Accounted(o, multiset(Flat(views))[o]);
  }

  lemma EmptyTable(views: seq<seq<Unknown?>>, empty: seq<Unknown?>, objects: set<Unknown>)
    requires Conserved(views, objects) && Recorded(views, objects)
    requires forall j :: 0 <= j < |empty| ==> empty[j] == null
    ensures Conserved(views + [empty], objects) && Recorded(views + [empty], objects)
  {
    forall o | o in objects ensures Accounted(o, multiset(Flat(views + [empty]))[o]) {
      assert Accounted(o, multiset(Flat(views))[o]);
      CountOfEmpty(views, empty, o);
    }
  }

  lemma ViewsAfterWrite(before: seq<seq<Unknown?>>, tables: seq<Table>, k: nat, j: nat, x: Unknown?)
    requires |before| == |tables| && k < |tables| && j < |before[k]|
    requires forall i :: 0 <= i < |tables| && i != k ==> tables[i][..] == before[i]
    requires tables[k][..] == before[k][j := x]
    ensures ViewsOf(tables) == before[k := before[k][j := x]]
  {
  }

  ghost predicate Settled(o: Unknown)
    reads o
  {
    && o.referenceCount >= 0 && o.bindCount >= 0
    && (o.deleted <==> o.referenceCount == 0 && o.bindCount == 0)
  }

  function One(same: bool): int { if same then 1 else 0 }

  /** Bind what comes in, unbind what goes out; in this order an object that
      replaces itself survives. */
  method Rebind(incoming: Unknown?, outgoing: Unknown?, ghost objects: set<Unknown>)
    requires incoming != null ==> incoming in objects && !incoming.deleted
    requires outgoing != null ==> outgoing in objects && !outgoing.deleted && outgoing.bindCount > 0
    requires forall o <- objects :: Settled(o)
    modifies objects`bindCount, objects`deleted
    ensures forall o <- objects :: Settled(o)
    ensures forall o <- objects ::
              o.bindCount == old(o.bindCount) + One(o == incoming) - One(o == outgoing)
    ensures incoming != null ==> !incoming.deleted
  {
    if incoming != null {
      incoming.Bind();
    }
    if outgoing != null {
      outgoing.Unbind();
    }
  }

  lemma SettledAll(views: seq<seq<Unknown?>>, objects: set<Unknown>)
    requires Conserved(views, objects)
    ensures forall o <- objects :: Settled(o) && o.bindCount == multiset(Flat(views))[o]
  {
    forall o | o in objects ensures Settled(o) && o.bindCount == multiset(Flat(views))[o] {
      assert Accounted(o, multiset(Flat(views))[o]);
    }
  }

  lemma Resettled(views: seq<seq<Unknown?>>, k: nat, j: nat, x: Unknown?, objects: set<Unknown>)
    requires k < |views| && j < |views[k]|
    requires forall o <- objects :: Settled(o) &&
               o.bindCount == multiset(Flat(views))[o] + One(o == x) - One(o == views[k][j])
    ensures Conserved(views[k := views[k][j := x]], objects)
  {
    var views' := views[k := views[k][j := x]];
    forall o | o in objects ensures Accounted(o, multiset(Flat(views'))[o]) {
      CountOfWrite(views, k, j, x, o);
    }
  }

  lemma StillRecorded(views: seq<seq<Unknown?>>, k: nat, j: nat, x: Unknown?, objects: set<Unknown>)
    requires k < |views| && j < |views[k]| && Recorded(views, objects)
    requires x != null ==> x in objects
    ensures Recorded(views[k := views[k][j := x]], objects)
  {
  }

  /** Storing into one slot changes one view. */
  method Store(ghost registry: Registry, ghost k: nat, slots: Table, j: nat, o: Unknown?)
    requires registry.Distinct() && registry.Owns(k, slots) && j < slots.Length
    modifies slots
    ensures registry.Views() == old(registry.Views())[k := old(slots[..])[j := o]]
  {
    ghost var before := registry.Views();
    slots[j] := o;
    ViewsAfterWrite(before, registry.tables, k, j, o);
  }

  /** The counters move before the slot does. */
  method Recount(ghost registry: Registry, ghost k: nat, slots: Table, j: nat, o: Unknown?)
    requires registry.Valid() && registry.Owns(k, slots) && j < slots.Length && registry.Usable(o)
    modifies registry.objects`bindCount, registry.objects`deleted
    ensures registry.Usable(o) && registry.Views() == old(registry.Views())
    ensures var after := registry.Views()[k := slots[..][j := o]];
            Recorded(after, registry.objects) && Conserved(after, registry.objects)
  {
    ghost var before := registry.Views();
    SettledAll(before, registry.objects);
    if slots[j] != null {
      NoDanglingSlot(before, registry.objects, k, j);
    }
    Rebind(o, slots[j], registry.objects);
    assert registry.Views() == before;
    StillRecorded(before, k, j, o, registry.objects);
    Resettled(before, k, j, o, registry.objects);
  }

  /** The one way every setter changes a slot. */
  method Put(ghost registry: Registry, ghost k: nat, slots: Table, j: nat, o: Unknown?)
    requires registry.Valid() && registry.Owns(k, slots) && j < slots.Length && registry.Usable(o)
    modifies slots, registry.objects`bindCount, registry.objects`deleted
    ensures registry.Valid() && registry.Usable(o)
    ensures registry.Views() == old(registry.Views())[k := old(slots[..])[j := o]]
  {
    Recount(registry, k, slots, j, o);
    Store(registry, k, slots, j, o);
  }

  function Cleared(s: seq<Unknown?>, j: nat): seq<Unknown?> {
    seq(|s|, i requires 0 <= i < |s| => if i < j then null else s[i])
  }

  method Drop(ghost registry: Registry, ghost k: nat, slots: Table, j: nat)
    requires registry.Valid() && registry.Owns(k, slots) && j < slots.Length
    modifies slots, registry.objects`bindCount, registry.objects`deleted
    ensures registry.Valid()
    ensures registry.Views() == old(registry.Views())[k := old(slots[..])[j := null]]
  {
    if slots[j] != null {
      Put(registry, k, slots, j, null);
    } else {
      assert slots[..] == slots[..][j := null];
    }
  }

  lemma ClearedNone(views: seq<seq<Unknown?>>, k: nat)
    requires k < |views|
    ensures views[k := Cleared(views[k], 0)] == views
  {
    assert Cleared(views[k], 0) == views[k];
  }

  lemma ClearStep(views: seq<seq<Unknown?>>, k: nat, j: nat)
    requires k < |views| && j < |views[k]|
    ensures views[k := Cleared(views[k], j)][k := Cleared(views[k], j)[j := null]]
         == views[k := Cleared(views[k], j + 1)]
  {
    assert Cleared(views[k], j)[j := null] == Cleared(views[k], j + 1);
  }

  lemma ClearedAll(views: seq<seq<Unknown?>>, k: nat, n: nat)
    requires k < |views| && |views[k]| == n
    ensures views[k := Cleared(views[k], n)] == views[k := seq(n, _ => null)]
  {
    assert Cleared(views[k], n) == seq(n, _ => null);
  }

  /** One more slot of a table. */
  method ClearOne(ghost registry: Registry, ghost k: nat, slots: Table, j: nat, ghost before: seq<seq<Unknown?>>)
    requires registry.Valid() && registry.Owns(k, slots) && j < slots.Length
    requires k < |before| && |before[k]| == slots.Length && registry.Views() == before[k := Cleared(before[k], j)]
    modifies slots, registry.objects`bindCount, registry.objects`deleted
    ensures registry.Valid() && registry.Views() == before[k := Cleared(before[k], j + 1)]
  {
    assert slots[..] == registry.Views()[k];
    Drop(registry, k, slots, j);
    ClearStep(before, k, j);
  }

  /** Unbinds and empties every slot of a table, as destructors do. */
  method ClearTable(ghost registry: Registry, ghost k: nat, slots: Table)
    requires registry.Valid() && registry.Owns(k, slots)
    modifies slots, registry.objects`bindCount, registry.objects`deleted
    ensures registry.Valid()
    ensures registry.Views() == old(registry.Views())[k := seq(slots.Length, _ => null)]
  {
    ghost var before := registry.Views();
    ClearedNone(before, k);
    for j := 0 to slots.Length
      invariant registry.Valid() && registry.Views() == before[k := Cleared(before[k], j)]
    {
      ClearOne(registry, k, slots, j, before);
    }
    ClearedAll(before, k, slots.Length);
  }

  lemma Installed(views: seq<seq<Unknown?>>, k: nat, j: nat, o: Unknown, objects: set<Unknown>)
    requires Conserved(views, objects) && Recorded(views, objects) && o !in objects
    requires k < |views| && j < |views[k]| && views[k][j] == null
    requires o.referenceCount == 0 && o.bindCount == 1 && !o.deleted
    ensures Conserved(views[k := views[k][j := o]], objects + {o})
  {
    NotHeld(views, objects, o);
    var views' := views[k := views[k][j := o]];
    forall x | x in objects + {o} ensures Accounted(x, multiset(Flat(views'))[x]) {
      CountOfWrite(views, k, j, o, x);
      if x != o {
        assert Accounted(x, multiset(Flat(views))[x]);
      }
    }
  }

  lemma WrittenTwice<T>(views: seq<seq<T>>, k: nat, j: nat, x: T, y: T)
    requires k < |views| && j < |views[k]|
    ensures views[k := views[k][j := x]][k := views[k][j := x][j := y]] == views[k := views[k][j := y]]
  {
    assert views[k][j := x][j := y] == views[k][j := y];
  }

  method NewBound(ghost registry: Registry) returns (o: Unknown)
    requires registry.Valid()
    ensures registry.Valid() && registry.Views() == old(registry.Views())
    ensures fresh(o) && o.referenceCount == 0 && o.bindCount == 1 && !o.deleted
  {
    o := new Unknown();
    o.Bind();
    assert registry.Views() == old(registry.Views());
  }

  /** The counts of an object were settled before it joins. */
  method Join(ghost registry: Registry, o: Unknown)
    requires registry.Distinct()
    requires Recorded(registry.Views(), registry.objects + {o}) && Conserved(registry.Views(), registry.objects + {o})
    modifies registry`objects
    ensures registry.Valid() && registry.objects == old(registry.objects) + {o}
    ensures registry.Views() == old(registry.Views())
  {
    registry.objects := registry.objects + {o};
  }

  method StoreNew(ghost registry: Registry, ghost k: nat, slots: Table, j: nat, o: Unknown)
    requires registry.Valid() && registry.Owns(k, slots) && j < slots.Length && slots[j] == null
    requires o !in registry.objects && o.referenceCount == 0 && o.bindCount == 1 && !o.deleted
    modifies slots
    ensures registry.Views() == old(registry.Views())[k := old(slots[..])[j := o]]
    ensures Recorded(registry.Views(), registry.objects + {o}) && Conserved(registry.Views(), registry.objects + {o})
  {
    ghost var views := registry.Views();
    Installed(views, k, j, o, registry.objects);
    StillRecorded(views, k, j, o, registry.objects + {o});
    Store(registry, k, slots, j, o);
  }

  method Install(ghost registry: Registry, ghost k: nat, slots: Table, j: nat, o: Unknown)
    requires registry.Valid() && registry.Owns(k, slots) && j < slots.Length && slots[j] == null
    requires o !in registry.objects && o.referenceCount == 0 && o.bindCount == 1 && !o.deleted
    modifies registry`objects, slots
    ensures registry.Valid() && registry.objects == old(registry.objects) + {o}
    ensures registry.Views() == old(registry.Views())[k := old(slots[..])[j := o]]
  {
    StoreNew(registry, k, slots, j, o);
    Join(registry, o);
  }

  /** An object made by the device for its own use: no reference, one bind. */
  method PutNew(ghost registry: Registry, ghost k: nat, slots: Table, j: nat) returns (o: Unknown)
    requires registry.Valid() && registry.Owns(k, slots) && j < slots.Length
    modifies registry`objects, slots, registry.objects`bindCount, registry.objects`deleted
    ensures registry.Valid() && fresh(o) && o.referenceCount == 0
    ensures registry.objects == old(registry.objects) + {o}
    ensures registry.Views() == old(registry.Views())[k := old(slots[..])[j := o]]
  {
    ghost var views := registry.Views();
    o := NewBound(registry);
    Drop(registry, k, slots, j);
    assert slots[..] == views[k][j := null];
    WrittenTwice(views, k, j, null, o);
    Install(registry, k, slots, j, o);
  }
}
