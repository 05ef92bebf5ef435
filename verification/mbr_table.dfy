/** The partition entries of a master boot record and of the chain of extended boot records. */
module MbrTable {
  import opened Wrappers

  const U32: nat := 0x1_0000_0000
  const PRIMARY: nat := 4
  const MAX_PARTITIONS: nat := 255
  const EXTENDED: nat := 0x05
  const LINUX: nat := 0x83

  /** A table entry; the numbers are 32 bits wide. */
  datatype Entry = Entry(kind: nat, start: nat, num: nat) {
    predicate Valid() { start < U32 && num < U32 }
  }

  function Wrap(x: int): nat { x % U32 }

  /** A slot of the partition list: unused, or sectors `first` to `last`. */
  datatype Slot = Unused | Used(number: nat, diskId: nat, first: nat, last: nat, kind: nat)

  /** The reader's list, the entry that starts the chain, and the offset of the sector being parsed. */
  datatype Table = Table(slots: seq<Slot>, chain: Option<nat>, offset: nat)

  predicate Listed(e: Entry) { e.kind != 0 && e.start <= Wrap(e.start + e.num - 1) }

  function SlotOf(e: Entry, diskId: nat, n: nat, offset: nat): Slot {
    if Listed(e) then Used(n + 1, diskId, Wrap(offset + e.start), Wrap(offset + e.start + e.num - 1), e.kind)
    else Unused
  }

  /** `register_mbr_partition`: the list is cut or extended to end with slot `n`. */
  function Register(t: Table, e: Entry, diskId: nat, n: nat): (t': Table)
    requires n <= |t.slots|
    ensures |t'.slots| == n + 1 && t'.slots[..n] == t.slots[..n] && t'.offset == t.offset
  {
    t.(slots := t.slots[..n] + [SlotOf(e, diskId, n, t.offset)],
       chain := if Listed(e) && e.kind == EXTENDED && t.chain.None? then Some(e.start) else t.chain)
  }

  const EmptyTable: Table := Table([], None, 0)

  /** The table after the first entries of the master boot record. */
  function Primary(entries: seq<Entry>, diskId: nat): (t: Table)
    ensures t.offset == 0 && |t.slots| == |entries|
    ensures forall k :: 0 <= k < |entries| ==> t.slots[k] == SlotOf(entries[k], diskId, k, 0)
  {
    if entries == [] then EmptyTable
    else
      var n := |entries| - 1;
      Register(Primary(entries[..n], diskId), entries[n], diskId, n)
  }

  /** The loop of `get_mbr` over the primary entries. */
  method RegisterPrimary(entries: seq<Entry>, diskId: nat) returns (t: Table)
    requires |entries| == PRIMARY
    ensures t == Primary(entries, diskId)
  {
    t := EmptyTable;
    for i := 0 to PRIMARY
      invariant t == Primary(entries[..i], diskId)
    {
      assert entries[..i + 1][..i] == entries[..i];
      t := Register(t, entries[i], diskId, i);
    }
    assert entries[..PRIMARY] == entries;
  }

  predicate StartsChain(e: Entry) { Listed(e) && e.kind == EXTENDED }

  /** Entry `k` is the first that starts a chain. */
  predicate FirstChain(entries: seq<Entry>, k: nat) {
    k < |entries| && StartsChain(entries[k]) && forall j :: 0 <= j < k ==> !StartsChain(entries[j])
  }

  /** Where the first entry that starts a chain puts it. */
  function ChainOf(entries: seq<Entry>): Option<nat> {
    if entries == [] then None
    else
      var n := |entries| - 1;
      var before := ChainOf(entries[..n]);
      if StartsChain(entries[n]) && before.None? then Some(entries[n].start) else before
  }

  lemma {:induction false} PrimaryChain(entries: seq<Entry>, diskId: nat)
    ensures Primary(entries, diskId).chain == ChainOf(entries)
  {
    if entries != [] { PrimaryChain(entries[..|entries| - 1], diskId); }
  }

  lemma {:induction false} ChainOfFirst(entries: seq<Entry>)
    ensures
      match ChainOf(entries)
      case None => forall k :: 0 <= k < |entries| ==> !StartsChain(entries[k])
      case Some(start) => exists k: nat :: FirstChain(entries, k) && entries[k].start == start
  {
    if entries != [] {
      var n := |entries| - 1;
      var init := entries[..n];
      ChainOfFirst(init);
      if ChainOf(init).Some? {
        var k: nat :| FirstChain(init, k) && init[k].start == ChainOf(init).value;
        assert FirstChain(entries, k);
      } else {
        forall j | 0 <= j < n ensures !StartsChain(entries[j]) {
          assert init[j] == entries[j];
        }
        if StartsChain(entries[n]) { assert FirstChain(entries, n); }
      }
    }
  }

  /** The chain starts at the first listed entry of the extended kind. */
  lemma ChainIsFirstExtended(entries: seq<Entry>, diskId: nat)
    ensures
      match Primary(entries, diskId).chain
      case None => forall k :: 0 <= k < |entries| ==> !StartsChain(entries[k])
      case Some(start) => exists k: nat :: FirstChain(entries, k) && entries[k].start == start
  {
    PrimaryChain(entries, diskId);
    ChainOfFirst(entries);
  }

  /** An entry is listed if and only if its kind is used and its sectors have 32-bit numbers; of the entries without
      any sectors only the one that starts at 0 is. */
  lemma ListedIff(e: Entry)
    requires e.Valid()
    ensures Listed(e) <==> e.kind != 0 && if e.num > 0 then e.start + e.num <= 0x1_0000_0000 else e.start == 0
  {
  }

  /** A listed entry spans exactly its `num` sectors from the offset plus its start precisely when the
      end of that range is the end of a sector with a 32-bit number. */
  lemma SpanIsExact(e: Entry, diskId: nat, n: nat, offset: nat)
    requires e.Valid() && offset < U32 && Listed(e)
    ensures
      var s := SlotOf(e, diskId, n, offset);
      s.first == offset + e.start && s.last + 1 == s.first + e.num
      <==> 1 <= offset + e.start + e.num <= U32
  {
  }

  /** The case the condition shuts out that is not an overflow: an entry of a used kind with neither
      start nor length passes the validity test and becomes a partition of 2^32 sectors. */
  lemma ZeroEntryIsListed(kind: nat, diskId: nat)
    requires kind != 0
    ensures Listed(Entry(kind, 0, 0))
    ensures SlotOf(Entry(kind, 0, 0), diskId, 0, 0) == Used(1, diskId, 0, U32 - 1, kind)
  {
  }

  /** Slots carry their own position, so no two of them can have the same number, and a 32-bit disk id. */
  predicate Numbered(slots: seq<Slot>) {
    forall k :: 0 <= k < |slots| && slots[k].Used? ==> slots[k].number == k + 1 && slots[k].diskId < U32
  }

  lemma RegisterNumbered(t: Table, e: Entry, diskId: nat, n: nat)
    requires n <= |t.slots| && Numbered(t.slots) && diskId < U32
    ensures Numbered(Register(t, e, diskId, n).slots)
  {
    var t' := Register(t, e, diskId, n);
    forall k | 0 <= k < |t'.slots| && t'.slots[k].Used?
      ensures t'.slots[k].number == k + 1 && t'.slots[k].diskId < U32
    {
      if k < n { assert t'.slots[k] == t.slots[k]; }
    }
  }
}
