/**
 The in-memory page file.
 */
module DiskManagerMock {
  import opened Pages

  /** The flat array of pages the file stands for: pages never written read as zero bytes. */
  function PageAt(file: seq<Page>, id: int): Page {
    if 0 <= id < |file| then file[id] else BLANK
  }

  /** Pages added when an access lies beyond the end of the file. */
  const GROWTH := 6

  /** The file after an access to page id, which adds pages when the file is too short. */
  function Reaching(file: seq<Page>, id: int): (r: seq<Page>)
    ensures |file| <= |r| && forall q :: PageAt(r, q) == PageAt(file, q)
  {
    if id >= |file| then file + Copies<Page>(BLANK, GROWTH) else file
  }

  /** The file after page id was written; a negative id is ignored. */
  function Writing(file: seq<Page>, id: int, buffer: Page): (r: seq<Page>)
    requires id < |file| + GROWTH
    ensures |file| <= |r| && forall q :: PageAt(r, q) == if q == id && id >= 0 then buffer else PageAt(file, q)
  {
    if id < 0 then file else Reaching(file, id)[id := buffer]
  }

  class DiskManager {
    var file: seq<Page>

    constructor ()
      ensures file == []
    {
      file := [];
    }

    /**
     One growth step must reach the page: beyond that the source indexes past the end of its vector.
     A negative id leaves the caller's buffer as it was.
     */
    method ReadPage(id: int, buffer: Page) returns (filled: Page)
      requires id < |file| + GROWTH
      modifies this
      ensures filled == if id < 0 then buffer else PageAt(old(file), id)
      ensures file == Reaching(old(file), id)
    {
      if id < 0 { return buffer; }
      if id >= |file| {
        Grow();
      }
      return file[id];
    }

    method WritePage(id: int, buffer: Page)
      requires id < |file| + GROWTH
      modifies this
      ensures 0 <= id < |old(file)| ==> file == old(file)[id := buffer]
      ensures file == Writing(old(file), id, buffer)
    {
      if id < 0 { return; }
      if id >= |file| {
        Grow();
      }
      file := file[id := buffer];
    }

    method Grow()
      modifies this
      ensures file == old(file) + Copies<Page>(BLANK, GROWTH)
    {
      file := file + Copies<Page>(BLANK, GROWTH);
    }
  }
}
