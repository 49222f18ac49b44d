/** Slotted pages: a pointer array growing up, cells growing down, in 4096 bytes. */
module Pages {
  import opened Values

  type u8 = x: int | 0 <= x < 256

  const PAGE_SIZE: nat := 4096
  const PAGE_HEADER_SIZE: nat := 8
  const CELL_PTR_SIZE: nat := 2

  // ---------------------------------------------------------------- reading bytes

  /** Little-endian u16. */
  function U16At(d: seq<u8>, i: nat): (v: nat)
    requires i + 1 < |d|
    ensures v < 65536
  {
    d[i] as int + 256 * d[i + 1] as int
  }

  /** Where the i-th cell pointer lives. */
  function PtrPos(i: nat): nat {
    PAGE_HEADER_SIZE + i * CELL_PTR_SIZE
  }

  // ---------------------------------------------------------------- the page as a list of cells

  /** Bytes taken by the first `n` cells. */
  function Total(cells: seq<seq<u8>>, n: nat): nat
    requires n <= |cells|
  {
    if n == 0 then 0 else Total(cells, n - 1) + |cells[n - 1]|
  }

  /** Cells tile downwards from the end of the page, in slot order. */
  function OffsetOf(cells: seq<seq<u8>>, i: nat): int
    requires i < |cells|
  {
    PAGE_SIZE - Total(cells, i + 1)
  }

  function AreaStart(cells: seq<seq<u8>>): int {
    PAGE_SIZE - Total(cells, |cells|)
  }

  ghost predicate BytesAt(d: seq<u8>, off: int, cell: seq<u8>) {
    0 <= off && off + |cell| <= |d| && d[off..off + |cell|] == cell
  }

  /** Slot `i` points at its cell, and the cell's bytes are there. */
  ghost predicate SlotHolds(d: seq<u8>, cells: seq<seq<u8>>, i: nat)
    requires |d| == PAGE_SIZE && i < |cells|
  {
    PtrPos(i) + 1 < PAGE_SIZE && U16At(d, PtrPos(i)) == OffsetOf(cells, i) && BytesAt(d, OffsetOf(cells, i), cells[i])
  }

  /** The page image `d` stores exactly `cells`. */
  ghost predicate Stores(d: seq<u8>, cells: seq<seq<u8>>) {
    && |d| == PAGE_SIZE
    && U16At(d, 2) == |cells| && U16At(d, 4) == AreaStart(cells)
    && PtrPos(|cells|) <= AreaStart(cells)
    && forall i {:trigger SlotHolds(d, cells, i)} :: 0 <= i < |cells| ==> SlotHolds(d, cells, i)
  }

  function Free(cells: seq<seq<u8>>): int {
    AreaStart(cells) - PtrPos(|cells|)
  }

  lemma {:induction false} TotalMonotone(cells: seq<seq<u8>>, i: nat, j: nat)
    requires i <= j <= |cells|
    ensures Total(cells, i) <= Total(cells, j) && (i < j ==> Total(cells, i) + |cells[i]| <= Total(cells, j))
    decreases j
  {
    if i < j {
      TotalMonotone(cells, i, j - 1);
    }
  }

  lemma {:induction false} TotalPrefix(cells: seq<seq<u8>>, cell: seq<u8>, n: nat)
    requires n <= |cells|
    ensures Total(cells + [cell], n) == Total(cells, n)
  {
    if n > 0 {
      TotalPrefix(cells, cell, n - 1);
      assert (cells + [cell])[n - 1] == cells[n - 1];
    }
  }

  /** One more cell: it lands below all the others, and costs its length and one pointer. */
  lemma AppendedCell(cells: seq<seq<u8>>, cell: seq<u8>)
    ensures AreaStart(cells + [cell]) == AreaStart(cells) - |cell| == OffsetOf(cells + [cell], |cells|)
    ensures Free(cells + [cell]) == Free(cells) - |cell| - CELL_PTR_SIZE
    ensures forall i {:trigger OffsetOf(cells, i)} :: 0 <= i < |cells| ==>
        OffsetOf(cells + [cell], i) == OffsetOf(cells, i)
  {
    TotalPrefix(cells, cell, |cells|);
    forall i | 0 <= i < |cells| ensures OffsetOf(cells + [cell], i) == OffsetOf(cells, i) {
      TotalPrefix(cells, cell, i + 1);
    }
  }

  /** Cells lie between the pointer array and the end of the page, and an earlier one lies above
      every later one. */
  lemma CellsDisjoint(d: seq<u8>, cells: seq<seq<u8>>, i: nat, j: nat)
    requires Stores(d, cells) && i < j < |cells|
    ensures PtrPos(|cells|) <= AreaStart(cells) <= OffsetOf(cells, j)
    ensures OffsetOf(cells, j) + |cells[j]| <= OffsetOf(cells, i) && OffsetOf(cells, i) + |cells[i]| <= PAGE_SIZE
  {
    TotalMonotone(cells, i + 1, j);
    TotalMonotone(cells, j + 1, |cells|);
  }

  /** The cells tile the area with no gap: each ends where the one before it starts. */
  lemma CellsTile(cells: seq<seq<u8>>, i: nat)
    requires i < |cells|
    ensures OffsetOf(cells, i) + |cells[i]| == (if i == 0 then PAGE_SIZE else OffsetOf(cells, i - 1))
  {
    assert Total(cells, i + 1) == Total(cells, i) + |cells[i]| && Total(cells, 0) == 0;
  }

  /** The image after an insertion, byte by byte. */
  ghost predicate Inserted(d: seq<u8>, d': seq<u8>, n: nat, start: nat, cell: seq<u8>) {
    && |d| == |d'| == PAGE_SIZE && start + |cell| <= PAGE_SIZE && PtrPos(n + 1) <= start
    && U16At(d', 2) == n + 1 && U16At(d', 4) == start && U16At(d', PtrPos(n)) == start
    && d'[start..start + |cell|] == cell
    && (forall k :: PAGE_HEADER_SIZE <= k < PtrPos(n) ==> d'[k] == d[k])
    && (forall k :: start + |cell| <= k < PAGE_SIZE ==> d'[k] == d[k])
  }

  lemma InsertedSlot(d: seq<u8>, d': seq<u8>, cells: seq<seq<u8>>, cell: seq<u8>, i: nat)
    requires Stores(d, cells) && |cell| <= AreaStart(cells) && i <= |cells|
    requires Inserted(d, d', |cells|, AreaStart(cells) - |cell|, cell)
    ensures SlotHolds(d', cells + [cell], i)
  {
    AppendedCell(cells, cell);
    if i < |cells| {
      assert SlotHolds(d, cells, i);
      TotalMonotone(cells, i + 1, |cells|);
      var off := OffsetOf(cells, i);
      assert d'[off..off + |cells[i]|] == d[off..off + |cells[i]|];
    }
  }

  lemma InsertedStores(d: seq<u8>, d': seq<u8>, cells: seq<seq<u8>>, cell: seq<u8>)
    requires Stores(d, cells) && |cell| <= AreaStart(cells) && Inserted(d, d', |cells|, AreaStart(cells) - |cell|, cell)
    ensures Stores(d', cells + [cell])
  {
    AppendedCell(cells, cell);
    forall i | 0 <= i < |cells + [cell]| ensures SlotHolds(d', cells + [cell], i) {
      InsertedSlot(d, d', cells, cell, i);
    }
  }

  // ---------------------------------------------------------------- the page object

  class Page {
    const data: array<u8>
    ghost var cells: seq<seq<u8>>

    ghost predicate Valid()
      reads this, data
    {
      Stores(data[..], cells)
    }

    constructor (pageType: u8)
      ensures Valid() && fresh(data) && cells == [] && data[0] == pageType
      ensures Free(cells) == PAGE_SIZE - PAGE_HEADER_SIZE
    {
      var d := new u8[PAGE_SIZE](_ => 0);
      d[0] := pageType;
      d[2] := 0;
      d[3] := 0;
      d[4] := PAGE_SIZE % 256;
      d[5] := PAGE_SIZE / 256;
      data := d;
      cells := [];
    }

    method CellCount() returns (n: nat)
      requires Valid()
      ensures n == |cells|
    {
      n := data[2] as int + 256 * data[3] as int;
      assert n == U16At(data[..], 2);
    }

    method CellAreaStart() returns (n: nat)
      requires Valid()
      ensures n == AreaStart(cells)
    {
      n := data[4] as int + 256 * data[5] as int;
      assert n == U16At(data[..], 4);
    }

    /** Saturating, though the pointer array never passes the cell area. */
    method FreeSpace() returns (n: nat)
      requires Valid()
      ensures n == Free(cells)
    {
      var count := CellCount();
      var start := CellAreaStart();
      var end := PAGE_HEADER_SIZE + count * CELL_PTR_SIZE;
      n := 0;
      if start > end {
        n := start - end;
      }
    }

    method SetU16(at: nat, v: nat)
      requires data.Length == PAGE_SIZE && at + 1 < PAGE_SIZE && v < 65536
      modifies data
      ensures U16At(data[..], at) == v
      ensures forall k :: 0 <= k < PAGE_SIZE && k != at && k != at + 1 ==> data[k] == old(data[k])
    {
      data[at] := v % 256;
      data[at + 1] := v / 256;
    }

    method CopyIn(start: nat, cell: seq<u8>)
      requires data.Length == PAGE_SIZE && start + |cell| <= PAGE_SIZE
      modifies data
      ensures data[start..start + |cell|] == cell
      ensures forall k :: 0 <= k < PAGE_SIZE && !(start <= k < start + |cell|) ==> data[k] == old(data[k])
    {
      for i := 0 to |cell|
        invariant data[start..start + i] == cell[..i]
        invariant forall k :: 0 <= k < PAGE_SIZE && !(start <= k < start + i) ==> data[k] == old(data[k])
      {
        data[start + i] := cell[i];
      }
    }

    /** Writes the bytes of an insertion: cell, area start, pointer, count. */
    method WriteCell(count: nat, start: nat, cell: seq<u8>)
      requires data.Length == PAGE_SIZE && start + |cell| <= PAGE_SIZE && PtrPos(count + 1) <= start
      modifies data
      ensures Inserted(old(data[..]), data[..], count, start, cell)
    {
      ghost var d0 := data[..];
      CopyIn(start, cell);
      ghost var d1 := data[..];
      assert d1[start..start + |cell|] == cell;
      SetU16(4, start);
      SetU16(PAGE_HEADER_SIZE + count * CELL_PTR_SIZE, start);
      SetU16(2, count + 1);
      assert data[..][start..start + |cell|] == d1[start..start + |cell|];
    }

    /** Succeeds exactly when the cell and its pointer fit; otherwise nothing changes. */
    method InsertCell(cell: seq<u8>) returns (slot: Option<nat>)
      requires Valid()
      modifies this, data
      ensures Valid()
      ensures slot.Some? <==> |cell| + CELL_PTR_SIZE <= Free(old(cells))
      ensures slot.Some? ==> slot.value == |old(cells)| && cells == old(cells) + [cell]
      ensures slot.Some? ==> Free(cells) == Free(old(cells)) - |cell| - CELL_PTR_SIZE
      ensures slot.None? ==> data[..] == old(data[..]) && cells == old(cells)
    {
      var needed := CELL_PTR_SIZE + |cell|;
      var free := FreeSpace();
      if free < needed {
        return None;
      }
      var count := CellCount();
      var start := CellAreaStart();
      ghost var before := data[..];
      WriteCell(count, start - |cell|, cell);
      InsertedStores(before, data[..], cells, cell);
      AppendedCell(cells, cell);
      cells := cells + [cell];
      slot := Some(count);
    }

    method CellOffset(index: nat) returns (off: Option<nat>)
      requires Valid()
      ensures off == if index < |cells| then Some(OffsetOf(cells, index)) else None
    {
      var count := CellCount();
      if index >= count {
        return None;
      }
      assert SlotHolds(data[..], cells, index);
      var ptr := PAGE_HEADER_SIZE + index * CELL_PTR_SIZE;
      assert U16At(data[..], ptr) == data[ptr] as int + 256 * data[ptr + 1] as int;
      off := Some(data[ptr] as int + 256 * data[ptr + 1] as int);
    }

    method ReadAt(off: nat, len: nat) returns (bytes: seq<u8>)
      requires data.Length == PAGE_SIZE && off + len <= PAGE_SIZE
      ensures bytes == data[off..off + len]
    {
      bytes := data[off..off + len];
    }
  }

  /** A cell read back through its pointer. */
  method ReadCell(page: Page, slot: nat, len: nat) returns (bytes: seq<u8>)
    requires page.Valid() && slot < |page.cells| && len == |page.cells[slot]|
    ensures bytes == page.cells[slot]
  {
    var off := page.CellOffset(slot);
    assert SlotHolds(page.data[..], page.cells, slot);
    bytes := page.ReadAt(off.value, len);
  }
}
