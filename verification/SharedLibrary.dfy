/** Emitting generated functions as a shared library: the code section, the layout
    of the image, and the relocations of all functions. */
module SharedLibrary {

  import opened RelocationTable

  datatype Function = Function(location: nat, entry: nat, size: nat)

  datatype Relocation = Relocation(offset: nat, ripRelative: bool)

  /** The relocations added for one function; functions are kept by address. */
  datatype Group = Group(code: nat, list: seq<Relocation>)

  // ----------------------------------------------------------- code section

  function CodeSize(placed: seq<Function>): nat
    decreases |placed|
  {
    if placed == [] then 0 else CodeSize(placed[..|placed| - 1]) + placed[|placed| - 1].size
  }

  /** Functions lie one directly after another. */
  ghost predicate Tiled(placed: seq<Function>) {
    forall k :: 0 <= k < |placed| ==> placed[k].location == CodeSize(placed[..k])
  }

  lemma TiledAppend(placed: seq<Function>, f: Function)
    requires Tiled(placed) && f.location == CodeSize(placed)
    ensures Tiled(placed + [f]) && CodeSize(placed + [f]) == CodeSize(placed) + f.size
  {
    var after := placed + [f];
    assert after[..|placed|] == placed;
    forall k | 0 <= k < |after| ensures after[k].location == CodeSize(after[..k]) {
      assert k < |placed| ==> after[..k] == placed[..k];
    }
  }

  ghost predicate Covers(f: Function, address: nat) {
    f.location <= address < f.location + f.size
  }

  lemma TiledInit(placed: seq<Function>)
    requires Tiled(placed) && placed != []
    ensures Tiled(placed[..|placed| - 1])
  {
    var init := placed[..|placed| - 1];
    assert forall j :: 0 <= j < |init| ==> init[..j] == placed[..j];
  }

  lemma {:induction false} EndsBefore(placed: seq<Function>, j: nat, k: nat)
    requires Tiled(placed) && j < k < |placed|
    ensures placed[j].location + placed[j].size <= placed[k].location
    decreases k
  {
    assert placed[..j + 1][..j] == placed[..j] && placed[..k][..k - 1] == placed[..k - 1];
    if j + 1 < k {
      EndsBefore(placed, j, k - 1);
    }
  }

  lemma {:induction false} SomeTile(placed: seq<Function>, address: nat) returns (k: nat)
    requires Tiled(placed) && address < CodeSize(placed)
    ensures k < |placed| && Covers(placed[k], address)
    decreases |placed|
  {
    var init := placed[..|placed| - 1];
    k := |init|;
    if address < CodeSize(init) {
      TiledInit(placed);
      k := SomeTile(init, address);
    }
  }

  /** Every byte of the section belongs to exactly one function. */
  lemma TilesCover(placed: seq<Function>, address: nat) returns (k: nat)
    requires Tiled(placed) && address < CodeSize(placed)
    ensures k < |placed| && Covers(placed[k], address)
    ensures forall j :: 0 <= j < |placed| && Covers(placed[j], address) ==> j == k
  {
    k := SomeTile(placed, address);
    forall j | 0 <= j < |placed| && Covers(placed[j], address) ensures j == k {
      if j < k {
        EndsBefore(placed, j, k);
      } else if k < j {
        EndsBefore(placed, k, j);
      }
    }
  }

  // ------------------------------------------------------------- relocations

  function AppendTo(groups: seq<Group>, code: nat, r: Relocation): seq<Group> {
    if groups == [] || code < groups[0].code then [Group(code, [r])] + groups
    else if code == groups[0].code then [Group(code, groups[0].list + [r])] + groups[1..]
    else [groups[0]] + AppendTo(groups[1..], code, r)
  }

  /** Where an address inside a function ends up when the section is loaded. */
  function Loaded(codePage: nat, f: Function, code: nat, address: nat): nat {
    Wrap(codePage + f.location + address - code)
  }

  /** Where a loader must patch for one relocation. */
  function TargetOf(codePage: nat, kind: nat, location: nat, r: Relocation): Target {
    Target(kind, Wrap(codePage + (location + r.offset)))
  }

  /** An address inside a function stays inside it, at the same distance from its start;
      that is where a relocation of it is patched. */
  lemma StaysInFunction(codePage: nat, kind: nat, f: Function, code: nat, address: nat, ripRelative: bool)
    requires code <= address < code + f.size < 0x1_0000_0000
    requires codePage + f.location + f.size <= 0x1_0000_0000
    ensures var a := Loaded(codePage, f, code, address);
            a >= codePage && Covers(f, a - codePage) && a - codePage - f.location == address - code
    ensures TargetOf(codePage, kind, f.location, Relocation(Wrap(address - code), ripRelative))
         == Target(kind, Loaded(codePage, f, code, address))
  {
  }

  function ListTargets(codePage: nat, kind: nat, location: nat, list: seq<Relocation>): seq<Target>
    decreases |list|
  {
    if list == [] then []
    else ListTargets(codePage, kind, location, list[..|list| - 1])
         + [TargetOf(codePage, kind, location, list[|list| - 1])]
  }

  lemma ListTargetsNext(codePage: nat, kind: nat, location: nat, list: seq<Relocation>, r: Relocation)
    ensures ListTargets(codePage, kind, location, list + [r])
         == ListTargets(codePage, kind, location, list) + [TargetOf(codePage, kind, location, r)]
  {
    assert (list + [r])[..|list|] == list;
  }

  lemma ListTargetsUpTo(codePage: nat, kind: nat, location: nat, list: seq<Relocation>, j: nat)
    requires j < |list|
    ensures ListTargets(codePage, kind, location, list[..j + 1])
         == ListTargets(codePage, kind, location, list[..j]) + [TargetOf(codePage, kind, location, list[j])]
  {
    assert list[..j + 1] == list[..j] + [list[j]];
    ListTargetsNext(codePage, kind, location, list[..j], list[j]);
  }

  ghost predicate Known(functions: map<nat, Function>, groups: seq<Group>) {
    forall k :: 0 <= k < |groups| ==> groups[k].code in functions
  }

  /** Everything that was asked for, function by function. */
  function Wanted(codePage: nat, kind: nat, functions: map<nat, Function>, groups: seq<Group>): seq<Target>
    requires Known(functions, groups)
  {
    if groups == [] then []
    else
      assert Known(functions, groups[1..]);
      ListTargets(codePage, kind, functions[groups[0].code].location, groups[0].list)
      + Wanted(codePage, kind, functions, groups[1..])
  }

  lemma {:induction false} ListKinds(codePage: nat, kind: nat, location: nat, list: seq<Relocation>)
    ensures forall t <- ListTargets(codePage, kind, location, list) :: t.kind == kind
    decreases |list|
  {
    if list != [] {
      ListKinds(codePage, kind, location, list[..|list| - 1]);
    }
  }

  lemma {:induction false} WantedKinds(codePage: nat, kind: nat, functions: map<nat, Function>, groups: seq<Group>)
    requires Known(functions, groups)
    ensures forall t <- Wanted(codePage, kind, functions, groups) :: t.kind == kind
  {
    if groups != [] {
      ListKinds(codePage, kind, functions[groups[0].code].location, groups[0].list);
      WantedKinds(codePage, kind, functions, groups[1..]);
    }
  }

  /** Every place a loader patches is a whole pointer of the machine. */
  ghost predicate WholePointers(relocations: seq<nat>, amd64: bool) {
    && Decode(relocations).Some?
    && forall t <- Decode(relocations).value :: PatchedBytes(t.kind) == PointerSize(amd64)
  }

  lemma PatchesWholePointers(relocations: seq<nat>, wanted: seq<Target>, amd64: bool)
    requires Patches(relocations, wanted) && forall t <- wanted :: t.kind == RelocType(amd64)
    ensures WholePointers(relocations, amd64)
  {
    forall t <- Decode(relocations).value ensures t.kind == RelocType(amd64) {
      assert t in multiset(wanted);
    }
  }

  lemma {:induction false} WantedNext(codePage: nat, kind: nat, functions: map<nat, Function>,
                                      groups: seq<Group>, g: Group)
    requires Known(functions, groups) && g.code in functions
    ensures Known(functions, groups + [g])
    ensures Wanted(codePage, kind, functions, groups + [g]) ==
            Wanted(codePage, kind, functions, groups)
            + ListTargets(codePage, kind, functions[g.code].location, g.list)
    decreases |groups|
  {
    if groups == [] {
      assert [g][1..] == [];
    } else {
      assert Known(functions, groups[1..]);
      assert (groups + [g])[1..] == groups[1..] + [g];
      WantedNext(codePage, kind, functions, groups[1..], g);
      Regroup(ListTargets(codePage, kind, functions[groups[0].code].location, groups[0].list),
              Wanted(codePage, kind, functions, groups[1..]),
              ListTargets(codePage, kind, functions[g.code].location, g.list));
    }
  }

  lemma WantedUpTo(codePage: nat, kind: nat, functions: map<nat, Function>, groups: seq<Group>, i: nat)
    requires Known(functions, groups) && i < |groups|
    ensures Known(functions, groups[..i]) && Known(functions, groups[..i + 1])
    ensures Wanted(codePage, kind, functions, groups[..i + 1]) ==
            Wanted(codePage, kind, functions, groups[..i])
            + ListTargets(codePage, kind, functions[groups[i].code].location, groups[i].list)
  {
    assert groups[..i + 1] == groups[..i] + [groups[i]];
    WantedNext(codePage, kind, functions, groups[..i], groups[i]);
  }

  lemma CountLast<T>(a: seq<T>, b: seq<T>, t: T)
    ensures multiset(a + (b + [t])) == multiset(a + b) + multiset{t}
  {
    assert a + (b + [t]) == (a + b) + [t];
  }

  lemma Regroup<T>(a: seq<T>, b: seq<T>, c: seq<T>)
    ensures (a + b) + c == a + (b + c)
  {
  }

  lemma OneMoreInFront<T>(a: seq<T>, b: seq<T>, b': seq<T>, t: T)
    requires multiset(b') == multiset(b) + multiset{t}
    ensures multiset(a + b') == multiset(a + b) + multiset{t}
  {
  }

  lemma OneMoreBehind<T>(a: seq<T>, b: seq<T>, t: T)
    ensures multiset((a + [t]) + b) == multiset(a + b) + multiset{t}
  {
  }

  lemma AppendKnown(functions: map<nat, Function>, groups: seq<Group>, f: nat, r: Relocation)
    requires f in functions && Known(functions, groups)
    ensures Known(functions, AppendTo(groups, f, r))
  {
    if groups != [] && f > groups[0].code {
      assert Known(functions, groups[1..]);
      AppendKnown(functions, groups[1..], f, r);
    }
  }

  /** Adding a relocation asks for exactly one target more. */
  lemma {:induction false} AppendWanted(codePage: nat, kind: nat, functions: map<nat, Function>,
                                        groups: seq<Group>, f: nat, r: Relocation)
    requires f in functions && Known(functions, groups) && Known(functions, AppendTo(groups, f, r))
    ensures multiset(Wanted(codePage, kind, functions, AppendTo(groups, f, r))) ==
            multiset(Wanted(codePage, kind, functions, groups))
            + multiset{TargetOf(codePage, kind, functions[f].location, r)}
  {
    var after := AppendTo(groups, f, r);
    var t := TargetOf(codePage, kind, functions[f].location, r);
    if groups == [] || f < groups[0].code {
      assert after[1..] == groups;
      ListTargetsNext(codePage, kind, functions[f].location, [], r);
      assert [] + [r] == [r];
      OneMoreBehind([], Wanted(codePage, kind, functions, groups), t);
      assert [] + [t] == [t];
      assert [] + Wanted(codePage, kind, functions, groups) == Wanted(codePage, kind, functions, groups);
    } else if f == groups[0].code {
      var (list, rest) := (ListTargets(codePage, kind, functions[f].location, groups[0].list),
                           Wanted(codePage, kind, functions, groups[1..]));
      assert after[1..] == groups[1..];
      ListTargetsNext(codePage, kind, functions[f].location, groups[0].list, r);
      OneMoreBehind(list, rest, t);
    } else {
      assert Known(functions, groups[1..]);
      assert after[1..] == AppendTo(groups[1..], f, r);
      AppendWanted(codePage, kind, functions, groups[1..], f, r);
      OneMoreInFront(ListTargets(codePage, kind, functions[groups[0].code].location, groups[0].list),
                     Wanted(codePage, kind, functions, groups[1..]),
                     Wanted(codePage, kind, functions, after[1..]), t);
    }
  }

  // ------------------------------------------------------------------ layout

  function DosHeader(): nat { 64 }
  function CoffHeader(amd64: bool): nat { if amd64 then 264 else 248 }
  function SectionHeader(): nat { 40 }
  function ExportDirectory(): nat { 40 }

  /** Masking off low bits of a two's complement number rounds down. */
  function PageAlign(address: int): int { (address + 0xFFF) / 0x1000 * 0x1000 }

  function FileAlign(address: int): int { (address + 0x1FF) / 0x200 * 0x200 }

  /** Alignment gives the least multiple that is large enough. */
  lemma PageAligns(a: int)
    ensures PageAlign(a) % 0x1000 == 0 && a <= PageAlign(a) < a + 0x1000
  {
    var q := (a + 0xFFF) / 0x1000;
    assert a + 0xFFF == q * 0x1000 + (a + 0xFFF) % 0x1000;
  }

  lemma FileAligns(a: int)
    ensures FileAlign(a) % 0x200 == 0 && a <= FileAlign(a) < a + 0x200
  {
    var q := (a + 0x1FF) / 0x200;
    assert a + 0x1FF == q * 0x200 + (a + 0x1FF) % 0x200;
  }

  /** The size of the headers as the program computes it: the sum is the condition
      of the choice, so the DOS header is not counted and the 64-bit one is always
      chosen. */
  function ComputedHeaders(amd64: bool): nat {
    if DosHeader() + (if amd64 then 1 else 0) != 0 then CoffHeader(true) else CoffHeader(false)
  }

  /** What the PE Format specification gives: a signature of four bytes, a file header of
      twenty and an optional header of 224 or 240; and the miscount is always the larger. */
  lemma HeaderSizes(amd64: bool)
    ensures CoffHeader(amd64) == 4 + 20 + if amd64 then 240 else 224
    ensures DosHeader() + CoffHeader(amd64) + 4 * SectionHeader() == if amd64 then 488 else 472
    ensures ComputedHeaders(amd64) == CoffHeader(true)
  {
  }

  /** The miscount does no harm: it rounds to the same page and file block as the
      headers that are written, and these end before the first section. */
  lemma HeadersFit(amd64: bool)
    ensures PageAlign(ComputedHeaders(amd64)) == PageAlign(DosHeader() + CoffHeader(amd64))
    ensures FileAlign(ComputedHeaders(amd64)) == FileAlign(DosHeader() + CoffHeader(amd64))
    ensures DosHeader() + CoffHeader(amd64) + 4 * SectionHeader() <= FileAlign(ComputedHeaders(amd64))
    ensures FileAlign(ComputedHeaders(amd64)) <= PageAlign(ComputedHeaders(amd64))
  {
  }

  /** A section: what it holds, and its place in memory and in the file. */
  datatype Placement = Placement(used: nat, address: int, virtualSize: int, pointer: int, rawSize: int)

  function Placed(used: nat, address: int, pointer: int): Placement {
    Placement(used, address, PageAlign(used), pointer, FileAlign(used))
  }

  function After(p: Placement, used: nat): Placement {
    Placed(used, p.address + PageAlign(p.used), p.pointer + FileAlign(p.used))
  }

  function PointerSize(amd64: bool): nat { if amd64 then 8 else 4 }

  /** The size as computed: one pointer for each different function. */
  function ExportsSize(functions: nat, nameLength: nat, amd64: bool): nat {
    ExportDirectory() + functions * PointerSize(amd64) + (nameLength + 1)
  }

  /** Code, exports, relocations and constants, in this order. */
  function Layout(codeSize: nat, exportsSize: nat, relocSize: nat, constSize: nat, amd64: bool): (s: seq<Placement>)
    ensures |s| == 4
  {
    var text := Placed(codeSize, PageAlign(ComputedHeaders(amd64)), FileAlign(ComputedHeaders(amd64)));
    var exports := After(text, exportsSize);
    var reloc := After(exports, relocSize);
    [text, exports, reloc, After(reloc, constSize)]
  }

  lemma UsedAsGiven(codeSize: nat, exportsSize: nat, relocSize: nat, constSize: nat, amd64: bool)
    ensures Layout(codeSize, exportsSize, relocSize, constSize, amd64)[1].used == exportsSize
  {
  }

  ghost predicate Aligned(p: Placement) {
    p.address % 0x1000 == 0 && p.pointer % 0x200 == 0
  }

  ghost predicate Holds(p: Placement) {
    0 <= p.used <= p.virtualSize && p.used <= p.rawSize
  }

  /** The first ends, in memory and in the file, where the second starts or before. */
  ghost predicate Before(p: Placement, q: Placement) {
    p.address + p.virtualSize <= q.address && p.pointer + p.rawSize <= q.pointer
  }

  lemma PlacedIsSound(used: nat, address: int, pointer: int)
    requires address % 0x1000 == 0 && pointer % 0x200 == 0
    ensures Aligned(Placed(used, address, pointer)) && Holds(Placed(used, address, pointer))
  {
    PageAligns(used);
    FileAligns(used);
  }

  lemma SumOfMultiples(a: int, b: int, unit: int)
    requires unit > 0 && a % unit == 0 && b % unit == 0
    ensures (a + b) % unit == 0
  {
    var (q, r) := (a / unit, b / unit);
    assert a + b == unit * (q + r);
    MultipleHasNoRest(q + r, unit);
  }

  lemma MultipleHasNoRest(q: int, unit: int)
    requires unit > 0
    ensures (unit * q) % unit == 0
  {
    var d := (unit * q) / unit - q;
    assert unit * d == -((unit * q) % unit);
    assert d < 0 ==> unit * d <= -unit;
  }

  lemma AfterIsSound(p: Placement, used: nat)
    requires p == Placed(p.used, p.address, p.pointer) && Aligned(p)
    ensures Aligned(After(p, used)) && Holds(After(p, used)) && Before(p, After(p, used))
  {
    PageAligns(p.used);
    FileAligns(p.used);
    SumOfMultiples(p.address, PageAlign(p.used), 0x1000);
    SumOfMultiples(p.pointer, FileAlign(p.used), 0x200);
    PlacedIsSound(used, p.address + PageAlign(p.used), p.pointer + FileAlign(p.used));
  }

  /** Sections overlap neither in memory nor in the file, nor with the headers, are
      aligned as the header announces, and hold all of their contents. */
  lemma LayoutIsSound(codeSize: nat, exportsSize: nat, relocSize: nat, constSize: nat, amd64: bool)
    ensures var s := Layout(codeSize, exportsSize, relocSize, constSize, amd64);
            && (forall i, j :: 0 <= i < j < 4 ==> Before(s[i], s[j]))
            && (forall i :: 0 <= i < 4 ==> Aligned(s[i]) && Holds(s[i]))
            && DosHeader() + CoffHeader(amd64) + 4 * SectionHeader() <= s[0].pointer <= s[0].address
  {
    var s := Layout(codeSize, exportsSize, relocSize, constSize, amd64);
    HeadersFit(amd64);
    PageAligns(ComputedHeaders(amd64));
    FileAligns(ComputedHeaders(amd64));
    PlacedIsSound(codeSize, s[0].address, s[0].pointer);
    AfterIsSound(s[0], exportsSize);
    AfterIsSound(s[1], relocSize);
    AfterIsSound(s[2], constSize);
    BeforeTransitive(s[0], s[1], s[2]);
    BeforeTransitive(s[1], s[2], s[3]);
    BeforeTransitive(s[0], s[1], s[3]);
  }

  lemma BeforeTransitive(p: Placement, q: Placement, r: Placement)
    requires Before(p, q) && Before(q, r) && Holds(q)
    ensures Before(p, r)
  {
  }

  // ----------------------------------------------------------------- exports

  /** The export section as it is written: a directory that says how many entry points
      there are and where they and the name are, four bytes for each entry point, and
      the name. */
  datatype Exports = Exports(numberOfFunctions: nat, functionsAt: int, nameAt: int, entries: seq<nat>, nameLength: nat)

  /** The section up to the name, in 32-bit words; the second is the time. */
  function ExportWords(e: Exports, time: nat): seq<int> {
    [0, time, 0, e.nameAt, 1, e.numberOfFunctions, 0, e.functionsAt, 0, 0] + e.entries
  }

  function ExportContent(e: Exports): nat { 4 * |ExportWords(e, 0)| + (e.nameLength + 1) }

  /** Where the name ends up in memory. */
  function NameWritten(address: int, e: Exports): int { address + 4 * |ExportWords(e, 0)| }

  /** How a loader finds a function by its ordinal in a section at an address: the first
      ordinal, the number of functions and the address of the table are the fifth, sixth
      and eighth word. */
  function EntryPoint(words: seq<int>, address: int, ordinal: nat): Option<int>
    requires |words| >= 10
  {
    var (first, count, table) := (words[4], words[5], words[7]);
    var k := (table - address) / 4 + (ordinal - first);
    if first <= ordinal < first + count && (table - address) % 4 == 0 && 0 <= k < |words| then Some(words[k]) else None
  }

  /** The ordinals lead to the entries in their order, and to nothing else. */
  lemma OrdinalsLead(e: Exports, time: nat, address: int, ordinal: nat)
    requires e.functionsAt == address + ExportDirectory() && e.numberOfFunctions <= |e.entries|
    ensures EntryPoint(ExportWords(e, time), address, ordinal)
         == if 1 <= ordinal <= e.numberOfFunctions then Some(e.entries[ordinal - 1]) else None
  {
  }

  function Elements(order: seq<nat>): set<nat> { set f | f in order }

  lemma ElementsAppend(order: seq<nat>, f: nat)
    ensures Elements(order + [f]) == Elements(order) + {f}
  {
  }

  ghost predicate AllPlaced(functions: map<nat, Function>, placed: seq<Function>) {
    forall g <- functions :: functions[g] in placed
  }

  lemma PlacedOneMore(functions: map<nat, Function>, placed: seq<Function>, code: nat, f: Function)
    requires AllPlaced(functions, placed)
    ensures AllPlaced(functions[code := f], placed + [f])
    ensures functions[code := f].Keys == functions.Keys + {code}
  {
  }

  /** The code section with one function more. */
  ghost predicate CodeValid(order: seq<nat>, functions: map<nat, Function>, placed: seq<Function>, size: nat) {
    && Tiled(placed) && size == CodeSize(placed)
    && functions.Keys == Elements(order) && AllPlaced(functions, placed)
  }

  lemma CodeOneMore(order: seq<nat>, functions: map<nat, Function>, placed: seq<Function>, size: nat,
                    code: nat, f: Function)
    requires CodeValid(order, functions, placed, size) && f.location == size
    ensures CodeValid(order + [code], functions[code := f], placed + [f], size + f.size)
  {
    TiledAppend(placed, f);
    ElementsAppend(order, code);
    PlacedOneMore(functions, placed, code, f);
  }

  ghost predicate NoRepeats(order: seq<nat>) { forall i, j :: 0 <= i < j < |order| ==> order[i] != order[j] }

  lemma {:induction false} CountElements(order: seq<nat>)
    ensures |Elements(order)| <= |order|
    ensures |Elements(order)| == |order| <==> NoRepeats(order)
    decreases |order|
  {
    if order != [] {
      var (init, last) := (order[..|order| - 1], order[|order| - 1]);
      CountElements(init);
      assert order == init + [last];
      assert Elements(order) == Elements(init) + {last};
      if last in init {
        var i :| 0 <= i < |init| && init[i] == last;
        assert order[i] == order[|order| - 1];
        assert Elements(order) == Elements(init);
      } else {
        assert NoRepeats(init) <==> NoRepeats(order);
      }
    }
  }

  /** The directory counts the functions, the table has an entry for each addition. */
  lemma CountFunctions(order: seq<nat>, functions: map<nat, Function>)
    requires functions.Keys == Elements(order)
    ensures |functions| <= |order|
    ensures |functions| == |order| <==> NoRepeats(order)
  {
    CountElements(order);
    assert |functions| == |functions.Keys|;
  }

  /** Each function added once: the contents always fit, and the name is where the
      directory says exactly on 32-bit machines. */
  lemma ExportsOfDistinct(order: seq<nat>, functions: map<nat, Function>, amd64: bool)
    requires order != [] && NoRepeats(order) && functions.Keys == Elements(order)
    ensures 4 * |order| <= |functions| * PointerSize(amd64)
    ensures 4 * |order| == |functions| * PointerSize(amd64) <==> !amd64
  {
    CountFunctions(order, functions);
  }

  /** On 32-bit machines the contents fit only then. */
  lemma ExportsOf32Bit(order: seq<nat>, functions: map<nat, Function>)
    requires functions.Keys == Elements(order)
    ensures 4 * |order| <= |functions| * PointerSize(false) <==> NoRepeats(order)
  {
    CountFunctions(order, functions);
  }

  /** A function added twice and a name of 467 characters: the contents run four bytes
      past the section's block of the file, into the relocations. */
  lemma RepeatedFunctionOverruns(e: Exports)
    requires |e.entries| == 2 && e.nameLength == 467
    ensures ExportContent(e) == FileAlign(ExportsSize(1, 467, false)) + 4
  {
    FileAligns(ExportsSize(1, 467, false));
  }

  datatype Image = Image(sections: seq<Placement>, exports: Exports, relocations: seq<nat>)

  // ----------------------------------------------------------------- library

  class DLL {
    var functionOrder: seq<nat>
    var functionList: map<nat, Function>
    var codeSize: nat
    var globalRelocations: seq<Group>
    var pageRelocations: seq<Block>
    const constSize: nat
    const nameLength: nat
    const amd64: bool
    ghost var placed: seq<Function>

    ghost predicate Valid()
      reads this
    {
      && CodeValid(functionOrder, functionList, placed, codeSize)
      && WellFormed(pageRelocations)
    }

    /** Relocations may be added before their function, but not without it. */
    ghost predicate Complete()
      reads this
    {
      Known(functionList, globalRelocations)
    }

    constructor (nameLength: nat, constSize: nat, amd64: bool)
      ensures Valid() && Complete() && functionOrder == [] && globalRelocations == [] && pageRelocations == []
      ensures this.nameLength == nameLength && this.constSize == constSize && this.amd64 == amd64
    {
      this.nameLength, this.constSize, this.amd64 := nameLength, constSize, amd64;
      functionOrder, functionList, codeSize := [], map[], 0;
      globalRelocations, pageRelocations, placed := [], [], [];
    }

    method AddFunction(code: nat, entry: nat, size: nat)
      requires Valid()
      modifies this`functionOrder, this`functionList, this`codeSize, this`placed
      ensures Valid() && functionOrder == old(functionOrder) + [code]
      ensures functionList == old(functionList)[code := Function(old(codeSize), entry, size)]
      ensures placed == old(placed) + [Function(old(codeSize), entry, size)]
      ensures codeSize == old(codeSize) + size
    {
      var f := Function(codeSize, entry, size);
      CodeOneMore(functionOrder, functionList, placed, codeSize, code, f);
      functionOrder := functionOrder + [code];
      functionList := functionList[code := f];
      placed := placed + [f];
      codeSize := codeSize + size;
    }

    method AddRelocation(code: nat, address: nat, ripRelative: bool)
      requires Valid()
      modifies this`globalRelocations
      ensures Valid()
      ensures globalRelocations == AppendTo(old(globalRelocations), code,
                                            Relocation(Wrap(address - code), ripRelative))
    {
      globalRelocations := AppendTo(globalRelocations, code, Relocation(Wrap(address - code), ripRelative));
    }

    /** Sorts every relocation into the list of its page. */
    method CollectPages(groups: seq<Group>, functions: map<nat, Function>, ghost codePage: nat)
      requires WellFormed(pageRelocations) && Known(functions, groups)
      modifies this`pageRelocations
      ensures WellFormed(pageRelocations)
      ensures multiset(Targets(codePage, pageRelocations)) ==
              multiset(Targets(codePage, old(pageRelocations)) + Wanted(codePage, RelocType(amd64), functions, groups))
    {
      ghost var (kind, before) := (RelocType(amd64), Targets(codePage, pageRelocations));
      assert groups[..0] == [];
      assert before + Wanted(codePage, kind, functions, groups[..0]) == before;
      for i := 0 to |groups|
        invariant WellFormed(pageRelocations) && Known(functions, groups[..i])
        invariant multiset(Targets(codePage, pageRelocations)) ==
                  multiset(before + Wanted(codePage, kind, functions, groups[..i]))
      {
        ghost var done := Wanted(codePage, kind, functions, groups[..i]);
        WantedUpTo(codePage, kind, functions, groups, i);
        CollectGroup(functions[groups[i].code].location, groups[i].list, codePage, before + done);
        Regroup(before, done, ListTargets(codePage, kind, functions[groups[i].code].location, groups[i].list));
      }
      assert groups[..|groups|] == groups;
    }

    method CollectGroup(location: nat, list: seq<Relocation>, ghost codePage: nat, ghost before: seq<Target>)
      requires WellFormed(pageRelocations) && multiset(Targets(codePage, pageRelocations)) == multiset(before)
      modifies this`pageRelocations
      ensures WellFormed(pageRelocations)
      ensures multiset(Targets(codePage, pageRelocations)) ==
              multiset(before + ListTargets(codePage, RelocType(amd64), location, list))
    {
      ghost var kind := RelocType(amd64);
      assert list[..0] == [];
      assert before + ListTargets(codePage, kind, location, list[..0]) == before;
      for j := 0 to |list|
        invariant WellFormed(pageRelocations)
        invariant multiset(Targets(codePage, pageRelocations)) ==
                  multiset(before + ListTargets(codePage, kind, location, list[..j]))
      {
        ghost var done := ListTargets(codePage, kind, location, list[..j]);
        ListTargetsUpTo(codePage, kind, location, list, j);
        CollectOne(location, list[j], codePage);
        CountLast(before, done, TargetOf(codePage, kind, location, list[j]));
      }
      assert list[..|list|] == list;
    }

    method CollectOne(location: nat, r: Relocation, ghost codePage: nat)
      requires WellFormed(pageRelocations)
      modifies this`pageRelocations
      ensures WellFormed(pageRelocations)
      ensures multiset(Targets(codePage, pageRelocations)) ==
              multiset(Targets(codePage, old(pageRelocations)))
              + multiset{TargetOf(codePage, RelocType(amd64), location, r)}
    {
      var address := Wrap(location + r.offset);
      var page := address / 0x1000;
      var reloc := address - page * 0x1000;
      var entry := RelocType(amd64) * 0x1000 + reloc;
      InsertOne(codePage, pageRelocations, RelocType(amd64), location, r, page, entry);
      pageRelocations := Insert(pageRelocations, page, entry);
    }

    /** Aligns every block and adds up their sizes. */
    method PadPages() returns (relocSize: nat)
      modifies this`pageRelocations
      ensures pageRelocations == AllPadded(old(pageRelocations)) && relocSize == TotalSize(pageRelocations)
    {
      relocSize := 0;
      ghost var before := pageRelocations;
      for i := 0 to |pageRelocations|
        invariant |pageRelocations| == |before|
        invariant forall k :: 0 <= k < i ==> pageRelocations[k] == Padded(before[k])
        invariant forall k :: i <= k < |before| ==> pageRelocations[k] == before[k]
        invariant relocSize == TotalSize(pageRelocations[..i])
      {
        var b := pageRelocations[i];
        ghost var done := pageRelocations[..i];
        if |b.entries| % 2 == 1 {
          b := Block(b.page, b.entries + [0]);
          pageRelocations := pageRelocations[i := b];
        }
        relocSize := relocSize + 8 + 2 * |b.entries|;
        assert pageRelocations[..i + 1] == done + [b];
        assert (done + [b])[..|done|] == done;
      }
      assert pageRelocations[..|before|] == pageRelocations;
    }

    method WriteRelocations(codePage: nat) returns (data: seq<nat>)
      ensures data == EncodedAll(codePage, pageRelocations)
    {
      data := [];
      for i := 0 to |pageRelocations|
        invariant data + EncodedAll(codePage, pageRelocations[i..]) == EncodedAll(codePage, pageRelocations)
      {
        assert pageRelocations[i..][1..] == pageRelocations[i + 1..];
        data := data + Encoded(codePage, pageRelocations[i]);
      }
      assert data + [] == data;
    }

    /** The entry point of each function, in the order of addition. */
    ghost predicate PointsAtEntries(exports: seq<nat>, codePage: nat)
      reads this
    {
      && |exports| == |functionOrder|
      && (forall i :: 0 <= i < |exports| ==> functionOrder[i] in functionList)
      && (forall i :: 0 <= i < |exports| ==>
            var f := functionList[functionOrder[i]];
            exports[i] == Loaded(codePage, f, functionOrder[i], f.entry))
    }

    /** The table of entry points. */
    method WriteExports(codePage: nat) returns (exports: seq<nat>)
      requires Valid()
      ensures PointsAtEntries(exports, codePage)
    {
      exports := [];
      for i := 0 to |functionOrder|
        invariant |exports| == i
        invariant forall k :: 0 <= k < i ==>
                    var f := functionList[functionOrder[k]];
                    exports[k] == Loaded(codePage, f, functionOrder[k], f.entry)
      {
        var f := functionList[functionOrder[i]];
        exports := exports + [Wrap(codePage + f.location + f.entry - functionOrder[i])];
      }
    }

    /** Nothing is written without code. Otherwise a loader that decodes the
        relocation section patches exactly the places that were asked for, each as
        often as it was asked for. */
    method Emit() returns (image: Option<Image>)
      requires Valid() && Complete() && pageRelocations == []
      modifies this`pageRelocations
      ensures Valid()
      ensures image == None <==> codeSize == 0
      ensures image.Some? ==>
                image.value.sections == Layout(codeSize, ExportsSize(|functionList|, nameLength, amd64),
                                               TotalSize(pageRelocations), constSize, amd64)
      ensures image.Some? ==> image.value.sections[0].address == CodePage()
      ensures image.Some? ==> ExportsRight(image.value.sections[1], CodePage(), image.value.exports)
      ensures image.Some? ==> 2 * |image.value.relocations| == TotalSize(pageRelocations)
      ensures image.Some? ==> Entries16(image.value.relocations)
      ensures image.Some? && TotalSize(pageRelocations) < 0x8000_0000 ==>
                Patches(image.value.relocations,
                        Wanted(CodePage(), RelocType(amd64), functionList, globalRelocations))
                && WholePointers(image.value.relocations, amd64)
    {
      if codeSize == 0 {
        return None;
      }
      var codePage := CodePage();
      var relocSize, relocations := EmitRelocations(codePage);
      var exportsSize := ExportsSize(|functionList|, nameLength, amd64);
      var sections := Layout(codeSize, exportsSize, relocSize, constSize, amd64);
      UsedAsGiven(codeSize, exportsSize, relocSize, constSize, amd64);
      var exports := WriteExportSection(sections[1], codePage);
      image := Some(Image(sections, exports, relocations));
    }

    method EmitRelocations(codePage: nat) returns (relocSize: nat, relocations: seq<nat>)
      requires Complete() && pageRelocations == []
      modifies this`pageRelocations
      ensures WellFormed(pageRelocations)
      ensures relocSize == TotalSize(pageRelocations) == 2 * |relocations| && Entries16(relocations)
      ensures relocSize < 0x8000_0000 ==>
                Patches(relocations, Wanted(codePage, RelocType(amd64), functionList, globalRelocations))
                && WholePointers(relocations, amd64)
    {
      relocSize := BuildPages(codePage);
      relocations := WriteRelocations(codePage);
      EncodedLength(codePage, pageRelocations);
      EncodedIs16(codePage, pageRelocations);
      if relocSize < 0x8000_0000 {
        EachBlockFits(pageRelocations);
        DecodeEncoded(codePage, pageRelocations);
        WantedKinds(codePage, RelocType(amd64), functionList, globalRelocations);
        PatchesWholePointers(relocations, Wanted(codePage, RelocType(amd64), functionList, globalRelocations), amd64);
      }
    }

    /** What holds of the export section: the ordinals from one to the number of functions
        lead to the functions in the order of addition; the directory's
        number is theirs, the contents fit, and the name is where the directory says,
        under the exact conditions given. */
    ghost predicate ExportsRight(section: Placement, codePage: nat, e: Exports)
      reads this
    {
      && e.nameLength == nameLength
      && (forall time: nat, ordinal: nat ::
            EntryPoint(ExportWords(e, time), section.address, ordinal) ==
              if 1 <= ordinal <= |functionList| <= |e.entries| then Some(e.entries[ordinal - 1]) else None)
      && e.numberOfFunctions == |functionList| && PointsAtEntries(e.entries, codePage)
      && (e.numberOfFunctions == |e.entries| <==> NoRepeats(functionOrder))
      && (ExportContent(e) <= section.used <==> 4 * |functionOrder| <= |functionList| * PointerSize(amd64))
      && (e.nameAt == NameWritten(section.address, e) <==> 4 * |functionOrder| == |functionList| * PointerSize(amd64))
    }

    method WriteExportSection(section: Placement, codePage: nat) returns (e: Exports)
      requires Valid() && section.used == ExportsSize(|functionList|, nameLength, amd64)
      ensures ExportsRight(section, codePage, e)
    {
      var entries := WriteExports(codePage);
      CountFunctions(functionOrder, functionList);
      e := Exports(|functionList|, section.address + ExportDirectory(),
                   section.address + ExportDirectory() + |functionList| * PointerSize(amd64), entries, nameLength);
      forall time: nat, ordinal: nat
        ensures EntryPoint(ExportWords(e, time), section.address, ordinal) ==
                  if 1 <= ordinal <= |functionList| <= |e.entries| then Some(e.entries[ordinal - 1]) else None
      {
        OrdinalsLead(e, time, section.address, ordinal);
      }
    }

    function CodePage(): nat {
      PageAlign(ComputedHeaders(amd64))
    }

    /** An image without relocations still has one, empty, block. */
    method FillPages(ghost codePage: nat)
      requires Complete() && pageRelocations == []
      modifies this`pageRelocations
      ensures WellFormed(pageRelocations)
      ensures multiset(Targets(codePage, pageRelocations)) ==
              multiset(Wanted(codePage, RelocType(amd64), functionList, globalRelocations))
    {
      ghost var wanted := Wanted(codePage, RelocType(amd64), functionList, globalRelocations);
      assert [] + wanted == wanted;
      CollectPages(globalRelocations, functionList, codePage);
      if pageRelocations == [] {
        EmptyPage(codePage);
        pageRelocations := [Block(0, [])];
      }
    }

    method BuildPages(ghost codePage: nat) returns (relocSize: nat)
      requires Complete() && pageRelocations == []
      modifies this`pageRelocations
      ensures WellFormed(pageRelocations) && relocSize == TotalSize(pageRelocations)
      ensures multiset(Targets(codePage, pageRelocations)) ==
              multiset(Wanted(codePage, RelocType(amd64), functionList, globalRelocations))
    {
      FillPages(codePage);
      ghost var blocks := pageRelocations;
      relocSize := PadPages();
      PaddingKeeps(codePage, blocks, pageRelocations);
    }
  }

  lemma EmptyPage(codePage: nat)
    ensures Targets(codePage, [Block(0, [])]) == Targets(codePage, []) && WellFormed([Block(0, [])])
  {
    assert [Block(0, [])][1..] == [];
  }

  /** What a loader patches, counted. */
  ghost predicate Patches(relocations: seq<nat>, wanted: seq<Target>) {
    Decode(relocations).Some? && multiset(Decode(relocations).value) == multiset(wanted)
  }

  lemma WrapTwice(a: nat, b: nat)
    ensures Wrap(a + Wrap(b)) == Wrap(a + b)
  {
  }

  lemma InsertAt(codePage: nat, blocks: seq<Block>, kind: nat, address: nat, page: nat, entry: nat, t: Target)
    requires WellFormed(blocks) && 0 < kind < 16 && address < 0x1_0000_0000
    requires page == PageOf(address) && entry == EntryFor(kind, address)
    requires t == Target(kind, Wrap(codePage + address))
    ensures WellFormed(Insert(blocks, page, entry))
    ensures multiset(Targets(codePage, Insert(blocks, page, entry)))
         == multiset(Targets(codePage, blocks)) + multiset{t}
  {
    InsertTargets(codePage, blocks, kind, address);
    EntryStandsFor(codePage, kind, address);
    InsertWellFormed(blocks, page, entry);
  }

  lemma InsertOne(codePage: nat, blocks: seq<Block>, kind: nat, location: nat, r: Relocation,
                  page: nat, entry: nat)
    requires WellFormed(blocks) && 0 < kind < 16
    requires var address := Wrap(location + r.offset);
             page == address / 0x1000 && entry == kind * 0x1000 + (address - page * 0x1000)
    ensures WellFormed(Insert(blocks, page, entry))
    ensures multiset(Targets(codePage, Insert(blocks, page, entry)))
         == multiset(Targets(codePage, blocks)) + multiset{TargetOf(codePage, kind, location, r)}
  {
    WrapTwice(codePage, location + r.offset);
    InsertAt(codePage, blocks, kind, Wrap(location + r.offset), page, entry,
             TargetOf(codePage, kind, location, r));
  }

  lemma PaddingKeeps(codePage: nat, blocks: seq<Block>, padded: seq<Block>)
    requires WellFormed(blocks) && padded == AllPadded(blocks)
    ensures WellFormed(padded) && Targets(codePage, padded) == Targets(codePage, blocks)
  {
    PaddingIsSilent(codePage, blocks);
    forall k | 0 <= k < |blocks| ensures Entries16(padded[k].entries) {
      assert Entries16(blocks[k].entries);
    }
  }

  lemma {:induction false} EachBlockFits(blocks: seq<Block>)
    ensures forall k :: 0 <= k < |blocks| ==> BlockSize(blocks[k]) <= TotalSize(blocks)
    decreases |blocks|
  {
    if blocks != [] {
      EachBlockFits(blocks[..|blocks| - 1]);
    }
  }
}
