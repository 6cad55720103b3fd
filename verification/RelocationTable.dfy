/** Base relocations of an image: grouped by page for writing, and as a loader
    reads them back (the .reloc section of the PE Format specification). */
module RelocationTable {

  datatype Option<T> = None | Some(value: T)

  /** The relocations of one page: each entry is a 4-bit type and a 12-bit offset. */
  datatype Block = Block(page: nat, entries: seq<nat>)

  datatype Target = Target(kind: nat, address: nat)

  function Wrap(x: int): (r: nat)
    ensures r < 0x1_0000_0000
  {
    x % 0x1_0000_0000
  }

  /** HIGHLOW on 32-bit machines, DIR64 on 64-bit ones. */
  function RelocType(amd64: bool): (t: nat)
    ensures 0 < t < 16
  {
    if amd64 then 10 else 3
  }

  /** How many bytes a loader changes for a relocation of a type, as the specification
      fixes it for the two types that are used. */
  function PatchedBytes(kind: nat): nat {
    match kind
    case 3 => 4
    case 10 => 8
    case _ => 0
  }

  function PageOf(address: nat): nat { address / 0x1000 }

  function EntryFor(kind: nat, address: nat): nat { kind * 0x1000 + (address - PageOf(address) * 0x1000) }

  /** Appends an entry to its page's list, making the list if there is none; pages
      are kept in ascending order. */
  function Insert(blocks: seq<Block>, page: nat, entry: nat): (r: seq<Block>)
    ensures r != [] && r[0].page == if blocks != [] && blocks[0].page < page then blocks[0].page else page
  {
    if blocks == [] || page < blocks[0].page then [Block(page, [entry])] + blocks
    else if page == blocks[0].page then [Block(page, blocks[0].entries + [entry])] + blocks[1..]
    else [blocks[0]] + Insert(blocks[1..], page, entry)
  }

  ghost predicate Ascending(blocks: seq<Block>) {
    forall i, j :: 0 <= i < j < |blocks| ==> blocks[i].page < blocks[j].page
  }

  ghost predicate Entries16(entries: seq<nat>) {
    forall i :: 0 <= i < |entries| ==> entries[i] < 0x1_0000
  }

  ghost predicate WellFormed(blocks: seq<Block>) {
    Ascending(blocks) && forall k :: 0 <= k < |blocks| ==> Entries16(blocks[k].entries)
  }

  // ------------------------------------------------------- what it stands for

  /** An entry of type zero is padding. */
  function EntryTargets(va: nat, entries: seq<nat>): seq<Target> {
    if entries == [] then []
    else
      (if entries[0] / 0x1000 == 0 then []
       else [Target(entries[0] / 0x1000, Wrap(va + entries[0] % 0x1000))])
      + EntryTargets(va, entries[1..])
  }

  function PageAddress(codePage: nat, page: nat): nat { Wrap(codePage + page * 0x1000) }

  function Targets(codePage: nat, blocks: seq<Block>): seq<Target> {
    if blocks == [] then []
    else EntryTargets(PageAddress(codePage, blocks[0].page), blocks[0].entries) + Targets(codePage, blocks[1..])
  }

  lemma {:induction false} EntryTargetsConcat(va: nat, a: seq<nat>, b: seq<nat>)
    ensures EntryTargets(va, a + b) == EntryTargets(va, a) + EntryTargets(va, b)
    decreases |a|
  {
    if a == [] {
      assert a + b == b;
    } else {
      assert (a + b)[1..] == a[1..] + b;
      EntryTargetsConcat(va, a[1..], b);
    }
  }

  /** A new entry on its page stands for exactly its address. */
  lemma EntryStandsFor(codePage: nat, kind: nat, address: nat)
    requires 0 < kind < 16 && address < 0x1_0000_0000
    ensures EntryFor(kind, address) < 0x1_0000
    ensures EntryTargets(PageAddress(codePage, PageOf(address)), [EntryFor(kind, address)])
         == [Target(kind, Wrap(codePage + address))]
  {
    EntryParts(kind, address);
    AddressParts(codePage, address);
    assert [EntryFor(kind, address)][1..] == [];
  }

  lemma EntryParts(kind: nat, address: nat)
    ensures EntryFor(kind, address) / 0x1000 == kind && EntryFor(kind, address) % 0x1000 == address % 0x1000
  {
    assert EntryFor(kind, address) == kind * 0x1000 + address % 0x1000;
  }

  lemma AddressParts(codePage: nat, address: nat)
    ensures Wrap(PageAddress(codePage, PageOf(address)) + address % 0x1000) == Wrap(codePage + address)
  {
    assert address == PageOf(address) * 0x1000 + address % 0x1000;
  }

  lemma {:induction false} InsertTargets(codePage: nat, blocks: seq<Block>, kind: nat, address: nat)
    requires 0 < kind < 16 && address < 0x1_0000_0000
    ensures multiset(Targets(codePage, Insert(blocks, PageOf(address), EntryFor(kind, address))))
         == multiset(Targets(codePage, blocks)) + multiset{Target(kind, Wrap(codePage + address))}
  {
    var (page, e) := (PageOf(address), EntryFor(kind, address));
    var t := Target(kind, Wrap(codePage + address));
    EntryStandsFor(codePage, kind, address);
    if blocks == [] || page < blocks[0].page {
      assert Insert(blocks, page, e)[1..] == blocks;
    } else if page == blocks[0].page {
      assert Insert(blocks, page, e)[1..] == blocks[1..];
      EntryTargetsConcat(PageAddress(codePage, page), blocks[0].entries, [e]);
    } else {
      assert Insert(blocks, page, e)[1..] == Insert(blocks[1..], page, e);
      InsertTargets(codePage, blocks[1..], kind, address);
    }
  }

  lemma {:induction false} InsertWellFormed(blocks: seq<Block>, page: nat, entry: nat)
    requires WellFormed(blocks) && entry < 0x1_0000
    ensures WellFormed(Insert(blocks, page, entry))
  {
    if blocks != [] && page > blocks[0].page {
      assert WellFormed(blocks[1..]);
      InsertWellFormed(blocks[1..], page, entry);
      var rest := Insert(blocks[1..], page, entry);
      assert forall j :: 0 <= j < |rest| ==> blocks[0].page < rest[j].page;
    }
  }

  // ---------------------------------------------------------------- padding

  function Padded(b: Block): Block {
    if |b.entries| % 2 == 1 then Block(b.page, b.entries + [0]) else b
  }

  function AllPadded(blocks: seq<Block>): (r: seq<Block>)
    ensures |r| == |blocks|
  {
    seq(|blocks|, k requires 0 <= k < |blocks| => Padded(blocks[k]))
  }

  /** Padding stands for nothing. */
  lemma {:induction false} PaddingIsSilent(codePage: nat, blocks: seq<Block>)
    ensures Targets(codePage, AllPadded(blocks)) == Targets(codePage, blocks)
  {
    if blocks != [] {
      EntryTargetsConcat(PageAddress(codePage, blocks[0].page), blocks[0].entries, [0]);
      assert [0][1..] == [];
      assert AllPadded(blocks)[1..] == AllPadded(blocks[1..]);
      PaddingIsSilent(codePage, blocks[1..]);
    }
  }

  // ---------------------------------------------------------------- encoding

  function BlockSize(b: Block): nat { 8 + 2 * |b.entries| }

  function TotalSize(blocks: seq<Block>): nat
    decreases |blocks|
  {
    if blocks == [] then 0 else TotalSize(blocks[..|blocks| - 1]) + BlockSize(blocks[|blocks| - 1])
  }

  /** A 32-bit number as two 16-bit halves, low first. */
  function Halves(x: nat): (h: seq<nat>)
    ensures |h| == 2
  {
    [x % 0x1_0000, x / 0x1_0000 % 0x1_0000]
  }

  /** A block as it is written: page address, size in bytes, entries. */
  function Encoded(codePage: nat, b: Block): seq<nat> {
    Halves(PageAddress(codePage, b.page)) + Halves(BlockSize(b)) + b.entries
  }

  function EncodedAll(codePage: nat, blocks: seq<Block>): seq<nat> {
    if blocks == [] then [] else Encoded(codePage, blocks[0]) + EncodedAll(codePage, blocks[1..])
  }

  function Whole(lo: nat, hi: nat): nat { lo + hi * 0x1_0000 }

  /** How a loader reads the section: blocks one after another until the end. */
  function Decode(data: seq<nat>): Option<seq<Target>>
    decreases |data|
  {
    if data == [] then Some([])
    else if |data| < 4 then None
    else
      var (va, size) := (Whole(data[0], data[1]), Whole(data[2], data[3]));
      if size < 8 || size % 2 != 0 || size > 2 * |data| then None
      else
        match Decode(data[size / 2..])
        case None => None
        case Some(rest) => Some(EntryTargets(va, data[4..size / 2]) + rest)
  }

  lemma HalvesAreWhole(x: nat)
    requires x < 0x1_0000_0000
    ensures Whole(Halves(x)[0], Halves(x)[1]) == x
  {
  }

  /** A loader finds in the written section exactly what the blocks stand for. */
  lemma {:induction false} DecodeEncoded(codePage: nat, blocks: seq<Block>)
    requires forall k :: 0 <= k < |blocks| ==> BlockSize(blocks[k]) < 0x1_0000_0000
    ensures Decode(EncodedAll(codePage, blocks)) == Some(Targets(codePage, blocks))
  {
    if blocks != [] {
      var (b, rest) := (blocks[0], EncodedAll(codePage, blocks[1..]));
      var data := Encoded(codePage, b) + rest;
      HalvesAreWhole(PageAddress(codePage, b.page));
      HalvesAreWhole(BlockSize(b));
      assert Encoded(codePage, b)[4..] == b.entries;
      assert data[4..BlockSize(b) / 2] == b.entries;
      assert data[BlockSize(b) / 2..] == rest;
      DecodeEncoded(codePage, blocks[1..]);
    }
  }

  /** What is written are 16-bit numbers. */
  lemma {:induction false} EncodedIs16(codePage: nat, blocks: seq<Block>)
    requires forall k :: 0 <= k < |blocks| ==> Entries16(blocks[k].entries)
    ensures Entries16(EncodedAll(codePage, blocks))
  {
    if blocks != [] {
      EncodedIs16(codePage, blocks[1..]);
    }
  }

  lemma {:induction false} EncodedLength(codePage: nat, blocks: seq<Block>)
    ensures 2 * |EncodedAll(codePage, blocks)| == TotalSize(blocks)
  {
    if blocks != [] {
      EncodedLength(codePage, blocks[1..]);
      TotalSizeFirst(blocks);
    }
  }

  lemma {:induction false} TotalSizeFirst(blocks: seq<Block>)
    requires blocks != []
    ensures TotalSize(blocks) == BlockSize(blocks[0]) + TotalSize(blocks[1..])
    decreases |blocks|
  {
    if |blocks| > 1 {
      assert blocks[1..][..|blocks| - 2] == blocks[..|blocks| - 1][1..];
      TotalSizeFirst(blocks[..|blocks| - 1]);
    }
  }

  lemma PaddedSize(b: Block)
    ensures BlockSize(Padded(b)) % 4 == 0
  {
  }

  lemma {:induction false} PrefixIsAligned(blocks: seq<Block>, n: nat)
    requires n <= |blocks|
    ensures TotalSize(AllPadded(blocks)[..n]) % 4 == 0
  {
    if n > 0 {
      var padded := AllPadded(blocks);
      PrefixIsAligned(blocks, n - 1);
      assert padded[..n][..n - 1] == padded[..n - 1];
      PaddedSize(blocks[n - 1]);
    }
  }

  /** Padded blocks all start on a 32-bit boundary. */
  lemma PaddedIsAligned(blocks: seq<Block>)
    ensures forall n :: 0 <= n <= |blocks| ==> TotalSize(AllPadded(blocks)[..n]) % 4 == 0
  {
    forall n | 0 <= n <= |blocks| ensures TotalSize(AllPadded(blocks)[..n]) % 4 == 0 {
      PrefixIsAligned(blocks, n);
    }
  }
}
