/** Appending records to a chain of pages: every locator handed out stays valid across rollovers. */
module CellWriter {
  import opened Values
  import opened Pages

  type Image = seq<u8>

  datatype Locator = Locator(page: nat, slot: nat)

  /** One push: where the record went and what it was. */
  datatype Entry = Entry(at: Locator, bytes: seq<u8>)

  /** A reader that follows slot `slot` of the image finds `bytes`. */
  ghost predicate Located(d: Image, slot: nat, bytes: seq<u8>) {
    && |d| == PAGE_SIZE && slot < U16At(d, 2) && PtrPos(slot) + 1 < PAGE_SIZE
    && BytesAt(d, U16At(d, PtrPos(slot)), bytes)
  }

  lemma StoredIsLocated(d: Image, cells: seq<seq<u8>>, slot: nat)
    requires Stores(d, cells) && slot < |cells|
    ensures Located(d, slot, cells[slot])
  {
    assert SlotHolds(d, cells, slot);
  }

  /** The record is in the open page, or on a page that has been written out. */
  ghost predicate Kept(pages: map<nat, Image>, open: Option<nat>, cells: seq<seq<u8>>, e: Entry) {
    && e.at.page in pages
    && if open == Some(e.at.page) then e.at.slot < |cells| && cells[e.at.slot] == e.bytes
       else Located(pages[e.at.page], e.at.slot, e.bytes)
  }

  ghost predicate Consistent(pages: map<nat, Image>, open: Option<nat>, cells: seq<seq<u8>>, log: seq<Entry>) {
    && (open.Some? ==> open.value in pages)
    && (forall i :: 0 <= i < |log| ==> Kept(pages, open, cells, log[i]))
    && forall i, j :: 0 <= i < j < |log| ==> log[i].at != log[j].at
  }

  /** A record joins the open page. */
  lemma AppendToOpen(pages: map<nat, Image>, pg: nat, cells: seq<seq<u8>>, log: seq<Entry>, cell: seq<u8>)
    requires Consistent(pages, Some(pg), cells, log)
    ensures Consistent(pages, Some(pg), cells + [cell], log + [Entry(Locator(pg, |cells|), cell)])
  {
    var log' := log + [Entry(Locator(pg, |cells|), cell)];
    forall i | 0 <= i < |log'| ensures Kept(pages, Some(pg), cells + [cell], log'[i]) {
      assert i < |log| ==> Kept(pages, Some(pg), cells, log[i]);
    }
    forall i | 0 <= i < |log| ensures log[i].at != Locator(pg, |cells|) {
      assert Kept(pages, Some(pg), cells, log[i]);
    }
  }

  /** Writing the open page out turns its records into located ones. */
  lemma CloseOpen(pages: map<nat, Image>, pg: nat, cells: seq<seq<u8>>, log: seq<Entry>, image: Image)
    requires Consistent(pages, Some(pg), cells, log) && Stores(image, cells)
    ensures Consistent(pages[pg := image], None, [], log)
  {
    forall i | 0 <= i < |log| ensures Kept(pages[pg := image], None, [], log[i]) {
      assert Kept(pages, Some(pg), cells, log[i]);
      if log[i].at.page == pg {
        StoredIsLocated(image, cells, log[i].at.slot);
      }
    }
  }

  /** A fresh page is target with its first record. */
  lemma OpenFresh(pages: map<nat, Image>, pg: nat, log: seq<Entry>, blank: Image, cell: seq<u8>)
    requires Consistent(pages, None, [], log) && pg !in pages
    ensures Consistent(pages[pg := blank], Some(pg), [cell], log + [Entry(Locator(pg, 0), cell)])
  {
    var log' := log + [Entry(Locator(pg, 0), cell)];
    forall i | 0 <= i < |log'| ensures Kept(pages[pg := blank], Some(pg), [cell], log'[i]) {
      assert i < |log| ==> Kept(pages, None, [], log[i]);
    }
    forall i | 0 <= i < |log| ensures log[i].at != Locator(pg, 0) {
      assert Kept(pages, None, [], log[i]);
    }
  }

  /** The page file: allocation hands out numbers never used before. */
  class Pager {
    var pages: map<nat, Image>
    var pageCount: nat

    ghost predicate Valid()
      reads this
    {
      forall p :: p in pages ==> p < pageCount
    }

    constructor ()
      ensures Valid() && pages == map[]
    {
      pages := map[];
      pageCount := 0;
    }

    method AllocatePage() returns (pg: nat)
      requires Valid()
      modifies this
      ensures Valid() && pg !in old(pages)
      ensures pg in pages && pages == old(pages)[pg := pages[pg]]
    {
      pg := pageCount;
      pageCount := pageCount + 1;
      var blank := new Page(7);
      var image := blank.data[..];
      pages := pages[pg := image];
    }

    method WritePage(pg: nat, page: Page)
      requires Valid() && pg in pages
      modifies this
      ensures Valid() && pages == old(pages)[pg := page.data[..]]
    {
      pages := pages[pg := page.data[..]];
    }
  }

  class CellWriter {
    const pageType: u8
    var pageNumber: nat
    var page: Page?
    ghost var log: seq<Entry>

    ghost function OpenPage(): Option<nat>
      reads this
    {
      if page == null then None else Some(pageNumber)
    }

    ghost function OpenCells(): seq<seq<u8>>
      reads this, page
    {
      if page == null then [] else page.cells
    }

    ghost function Footprint(): set<object>
      reads this
    {
      if page == null then {this} else {this, page, page.data}
    }

    ghost predicate Valid(pager: Pager)
      reads this, page, if page == null then {} else {page.data}, pager
    {
      && pager.Valid()
      && (page != null ==> page.Valid())
      && Consistent(pager.pages, OpenPage(), OpenCells(), log)
    }

    constructor (pageType: u8, pager: Pager)
      requires pager.Valid()
      ensures Valid(pager) && log == [] && page == null
    {
      this.pageType := pageType;
      pageNumber := 0;
      page := null;
      log := [];
    }

    /** Into the open page if it fits, else into a fresh one after writing the full page out. */
    method Push(pager: Pager, cell: seq<u8>) returns (at: Locator)
      requires Valid(pager) && |cell| <= PAGE_SIZE - PAGE_HEADER_SIZE - CELL_PTR_SIZE
      modifies Footprint(), pager
      ensures Valid(pager) && log == old(log) + [Entry(at, cell)]
      ensures fresh(Footprint() - old(Footprint()))
    {
      if page != null {
        ghost var cells := page.cells;
        var slot := page.InsertCell(cell);
        if slot.Some? {
          AppendToOpen(pager.pages, pageNumber, cells, log, cell);
          at := Locator(pageNumber, slot.value);
          log := log + [Entry(at, cell)];
          return;
        }
      }
      Rollover(pager);
      at := Reopen(pager, cell);
    }

    /** `flush`, also the first half of a rollover: the open page goes to the pager. */
    method Rollover(pager: Pager)
      requires Valid(pager)
      modifies this, pager
      ensures Valid(pager) && page == null && log == old(log)
    {
      if page != null {
        CloseOpen(pager.pages, pageNumber, page.cells, log, page.data[..]);
        pager.WritePage(pageNumber, page);
        page := null;
      }
    }

    method Reopen(pager: Pager, cell: seq<u8>) returns (at: Locator)
      requires Valid(pager) && page == null && |cell| <= PAGE_SIZE - PAGE_HEADER_SIZE - CELL_PTR_SIZE
      modifies this, pager
      ensures Valid(pager) && log == old(log) + [Entry(at, cell)]
      ensures page != null && fresh(page) && fresh(page.data)
    {
      ghost var before := pager.pages;
      var pg := pager.AllocatePage();
      OpenFresh(before, pg, log, pager.pages[pg], cell);
      var target := new Page(pageType);
      var slot := target.InsertCell(cell);
      page := target;
      pageNumber := pg;
      at := Locator(pg, slot.value);
      log := log + [Entry(at, cell)];
    }
  }

  /** For any run of pushes ended by a flush: the locators are pairwise distinct, and following each
      one in the written pages yields exactly the bytes that were pushed. */
  method WriteAll(pager: Pager, pageType: u8, cells: seq<seq<u8>>) returns (at: seq<Locator>)
    requires pager.Valid()
    requires forall i :: 0 <= i < |cells| ==> |cells[i]| <= PAGE_SIZE - PAGE_HEADER_SIZE - CELL_PTR_SIZE
    modifies pager
    ensures pager.Valid() && |at| == |cells|
    ensures forall i, j :: 0 <= i < j < |at| ==> at[i] != at[j]
    ensures forall i :: 0 <= i < |at| ==>
        at[i].page in pager.pages && Located(pager.pages[at[i].page], at[i].slot, cells[i])
  {
    var writer := new CellWriter(pageType, pager);
    at := [];
    for i := 0 to |cells|
      invariant fresh(writer.Footprint()) && writer.Valid(pager)
      invariant |at| == |writer.log| == i
      invariant forall k :: 0 <= k < i ==> writer.log[k] == Entry(at[k], cells[k])
    {
      var loc := writer.Push(pager, cells[i]);
      at := at + [loc];
    }
    writer.Rollover(pager);
    forall i | 0 <= i < |at|
      ensures at[i].page in pager.pages && Located(pager.pages[at[i].page], at[i].slot, cells[i])
    {
      assert Kept(pager.pages, None, [], writer.log[i]);
    }
  }
}
