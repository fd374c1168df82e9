/**
  The paged buffer behind the writer's builder: build headers and encoded bytes
  interleaved over a list of fixed-size pages, and how they are found again.
 */
module BuildPages {
  import opened Format
  import opened Wrappers
  import opened Encoding

  // Sizes on a 64-bit target: two words per page header, and a build header that
  // is exactly as large as the smallest buffer the writer may be given.
  const PAGE_HEADER: nat := 16
  const BUILD_HEADER: nat := 32
  const BUILD_ALIGNMENT: nat := 8
  const MINIMUM_BUFFER: nat := 32

  /** `headers` says which build's header sits at an offset of the page. */
  datatype Page = Page(used: nat, data: seq<byte>, headers: map<nat, nat>)

  datatype Link = Null | To(build: nat)

  type uint32 = x: int | 0 <= x < 0x1_0000_0000

  datatype Build = Build(parent: Link, isMap: bool, bytes: nat, count: uint32, keyNeedsValue: bool, nested: nat)

  datatype Spot = Spot(page: nat, offset: nat)

  function Aligned(n: nat): (r: nat)
    ensures n <= r < n + BUILD_ALIGNMENT && r % BUILD_ALIGNMENT == 0
    ensures n % BUILD_ALIGNMENT == 0 ==> r == n
  {
    n + (BUILD_ALIGNMENT - 1) - (n + (BUILD_ALIGNMENT - 1)) % BUILD_ALIGNMENT
  }

  ghost predicate PageOk(page: Page, size: nat) {
    && |page.data| == size && PAGE_HEADER <= page.used <= size
    && forall o :: o in page.headers ==> o + BUILD_HEADER <= page.used
  }

  ghost predicate PagesOk(pages: seq<Page>, size: nat) {
    && size >= PAGE_HEADER + BUILD_HEADER + MINIMUM_BUFFER
    && |pages| > 0
    && forall i :: 0 <= i < |pages| ==> PageOk(pages[i], size)
  }

  // ------------------------------------------------------ reading bytes back

  datatype Run = Run(bytes: seq<byte>, end: Spot)

  /** The n bytes from a spot on, continuing past the page's used part on the next page. */
  ghost function ReadRun(pages: seq<Page>, size: nat, at: Spot, n: nat): (r: Run)
    requires PagesOk(pages, size) && at.page < |pages|
    ensures at.page <= r.end.page < |pages|
    decreases |pages| - at.page
  {
    var page := pages[at.page];
    var here := if at.offset < page.used then page.used - at.offset else 0;
    if n == 0 then Run([], at)
    else if n <= here then Run(page.data[at.offset..at.offset + n], Spot(at.page, at.offset + n))
    else if at.page + 1 == |pages| then Run([], at)
    else
      var first := if here == 0 then [] else page.data[at.offset..page.used];
      var rest := ReadRun(pages, size, Spot(at.page + 1, PAGE_HEADER), n - here);
      Run(first + rest.bytes, rest.end)
  }

  /** The run is complete: it found all the bytes it was asked for. */
  ghost predicate Holds(pages: seq<Page>, size: nat, at: Spot, bytes: seq<byte>, end: Spot)
    requires PagesOk(pages, size)
  {
    && at.page < |pages|
    && ReadRun(pages, size, at, |bytes|) == Run(bytes, end)
  }

  /** Earlier pages are frozen; the last one may gain bytes after its used part; pages may be added. */
  ghost predicate Extends(pages: seq<Page>, later: seq<Page>, size: nat) {
    && PagesOk(pages, size) && PagesOk(later, size)
    && |pages| <= |later|
    && (forall i :: 0 <= i < |pages| - 1 ==> later[i] == pages[i])
    && var last := |pages| - 1;
       && pages[last].used <= later[last].used
       && later[last].data[..pages[last].used] == pages[last].data[..pages[last].used]
       && (forall o :: o in pages[last].headers ==>
             o in later[last].headers && later[last].headers[o] == pages[last].headers[o])
  }

  lemma {:induction false} HoldsLater(pages: seq<Page>, later: seq<Page>, size: nat, at: Spot, bytes: seq<byte>,
                                      end: Spot)
    requires Extends(pages, later, size)
    requires Holds(pages, size, at, bytes, end)
    ensures Holds(later, size, at, bytes, end)
    decreases |pages| - at.page
  {
    hide ReadRun;
    var page, n: nat := pages[at.page], |bytes|;
    var here := if at.offset < page.used then page.used - at.offset else 0;
    RunOnPage(pages, size, at, n);
    RunOnPage(later, size, at, n);
    if 0 < n <= here {
      var last := |pages| - 1;
      if at.page == last {
        assert bytes == page.data[..page.used][at.offset..at.offset + n];
        assert bytes == later[last].data[..page.used][at.offset..at.offset + n];
      }
    } else if n > here {
      assert at.page + 1 < |pages|;
      RunOver(pages, size, at, n);
      RunOver(later, size, at, n);
      var next := Spot(at.page + 1, PAGE_HEADER);
      var rest := ReadRun(pages, size, next, n - here);
      assert |rest.bytes| == n - here;
      HoldsLater(pages, later, size, next, rest.bytes, rest.end);
    }
  }

  /** A run that stops where the last page's used part stopped takes in bytes added there. */
  lemma {:induction false} HoldsMore(pages: seq<Page>, later: seq<Page>, size: nat, at: Spot, bytes: seq<byte>,
                                     more: seq<byte>)
    requires Extends(pages, later, size) && |later| == |pages|
    requires Holds(pages, size, at, bytes, Spot(|pages| - 1, pages[|pages| - 1].used))
    requires later[|pages| - 1].used == pages[|pages| - 1].used + |more|
    requires later[|pages| - 1].data[pages[|pages| - 1].used..later[|pages| - 1].used] == more
    ensures Holds(later, size, at, bytes + more, Spot(|pages| - 1, later[|pages| - 1].used))
    decreases |pages| - at.page
  {
    hide ReadRun;
    var last: nat := |pages| - 1;
    if at.page == last {
      RunOnPage(pages, size, at, |bytes|);
      RunOnPage(later, size, at, |bytes + more|);
      LastPageHoldsMore(pages[last], later[last], at.offset, bytes, more);
    } else {
      var page, n: nat := pages[at.page], |bytes|;
      var here := if at.offset < page.used then page.used - at.offset else 0;
      RunOnPage(pages, size, at, n);
      assert n > here;
      RunOver(pages, size, at, n);
      RunOver(later, size, at, n + |more|);
      var next := Spot(at.page + 1, PAGE_HEADER);
      var rest := ReadRun(pages, size, next, n - here);
      HoldsMore(pages, later, size, next, rest.bytes, more);
      var first := if here == 0 then [] else page.data[at.offset..page.used];
      Grouped(first, rest.bytes, more);
    }
  }

  /** A run that fits on its page. */
  lemma RunOnPage(pages: seq<Page>, size: nat, at: Spot, n: nat)
    requires PagesOk(pages, size) && at.page < |pages|
    ensures var page := pages[at.page];
            var here := if at.offset < page.used then page.used - at.offset else 0;
            && (n == 0 ==> ReadRun(pages, size, at, n) == Run([], at))
            && (0 < n <= here ==>
                  ReadRun(pages, size, at, n)
                  == Run(page.data[at.offset..at.offset + n], Spot(at.page, at.offset + n)))
            && (n > here && at.page + 1 == |pages| ==> ReadRun(pages, size, at, n) == Run([], at))
  {
  }

  /** A run that goes on to the next page. */
  lemma RunOver(pages: seq<Page>, size: nat, at: Spot, n: nat)
    requires PagesOk(pages, size) && at.page + 1 < |pages|
    requires n > if at.offset < pages[at.page].used then pages[at.page].used - at.offset else 0
    ensures var page := pages[at.page];
            var here := if at.offset < page.used then page.used - at.offset else 0;
            var first := if here == 0 then [] else page.data[at.offset..page.used];
            var rest := ReadRun(pages, size, Spot(at.page + 1, PAGE_HEADER), n - here);
            ReadRun(pages, size, at, n) == Run(first + rest.bytes, rest.end)
  {
  }

  lemma LastPageHoldsMore(page: Page, later: Page, offset: nat, bytes: seq<byte>, more: seq<byte>)
    requires offset <= page.used <= later.used <= |page.data| == |later.data|
    requires later.data[..page.used] == page.data[..page.used]
    requires later.data[page.used..later.used] == more
    requires |bytes| == page.used - offset
    requires bytes == page.data[offset..page.used]
    ensures later.data[offset..later.used] == bytes + more
  {
    assert page.data[offset..page.used] == page.data[..page.used][offset..];
    assert later.data[offset..later.used] == later.data[..page.used][offset..] + later.data[page.used..later.used];
  }

  /** A run that ends with its page continues on a fresh page. */
  lemma {:induction false} HoldsAcross(pages: seq<Page>, later: seq<Page>, size: nat, at: Spot, bytes: seq<byte>,
                                       more: seq<byte>)
    requires Extends(pages, later, size) && |later| == |pages| >= 2
    requires Holds(pages, size, at, bytes, Spot(|pages| - 2, pages[|pages| - 2].used))
    requires pages[|pages| - 1].used == PAGE_HEADER && more != []
    requires later[|pages| - 1].used == PAGE_HEADER + |more|
    requires later[|pages| - 1].data[PAGE_HEADER..later[|pages| - 1].used] == more
    ensures Holds(later, size, at, bytes + more, Spot(|pages| - 1, later[|pages| - 1].used))
    decreases |pages| - at.page
  {
    var page, n := pages[at.page], |bytes|;
    var here := if at.offset < page.used then page.used - at.offset else 0;
    var next := Spot(at.page + 1, PAGE_HEADER);
    if at.page == |pages| - 2 {
      assert n == here;
      assert ReadRun(later, size, next, |more|) == Run(more, Spot(|pages| - 1, later[|pages| - 1].used));
    } else {
      assert n > here;
      var rest := ReadRun(pages, size, next, n - here);
      HoldsAcross(pages, later, size, next, rest.bytes, more);
      var first := if here == 0 then [] else page.data[at.offset..page.used];
      Grouped(first, rest.bytes, more);
    }
  }

  // ---------------------------------------------------- finding the next build

  datatype Found = NoBuild | BuildAt(spot: Spot)

  /** Where the walk over the pages looks for a build after the bytes that end at a spot. */
  function NextBuild(pages: seq<Page>, size: nat, end: Spot): Found
    requires end.page < |pages|
  {
    var offset := Aligned(end.offset);
    if offset + BUILD_HEADER > size then
      if end.page + 1 == |pages| then NoBuild
      else if Aligned(PAGE_HEADER) + BUILD_HEADER > pages[end.page + 1].used then NoBuild
      else BuildAt(Spot(end.page + 1, Aligned(PAGE_HEADER)))
    else if offset + BUILD_HEADER > pages[end.page].used then NoBuild
    else BuildAt(Spot(end.page, offset))
  }

  lemma NextBuildLater(pages: seq<Page>, later: seq<Page>, size: nat, end: Spot)
    requires Extends(pages, later, size) && end.page < |pages|
    requires NextBuild(pages, size, end).BuildAt?
    ensures NextBuild(later, size, end) == NextBuild(pages, size, end)
  {
  }

  // ------------------------------------------------------------------- layout

  function FreshPage(size: nat): Page {
    Page(PAGE_HEADER, seq(size, _ => 0), map[])
  }

  /** The page after its first unused bytes have been filled and counted. */
  function Filled(page: Page, more: seq<byte>): (r: Page)
    requires page.used + |more| <= |page.data|
    ensures |r.data| == |page.data|
  {
    page.(used := page.used + |more|, data := page.data[..page.used] + more + page.data[page.used + |more|..])
  }

  function WithHeader(page: Page, offset: nat, build: nat): Page {
    page.(used := offset + BUILD_HEADER, headers := page.headers[offset := build])
  }

  /** Encoded data immediately follows the build header. */
  function After(place: Spot): Spot {
    place.(offset := place.offset + BUILD_HEADER)
  }

  ghost function EndOf(pages: seq<Page>, size: nat, place: Spot, n: nat): Spot
    requires PagesOk(pages, size) && place.page < |pages|
  {
    ReadRun(pages, size, After(place), n).end
  }

  ghost predicate Placed(pages: seq<Page>, size: nat, place: Spot, build: nat, content: seq<byte>)
    requires PagesOk(pages, size)
  {
    && place.page < |pages|
    && place.offset in pages[place.page].headers && pages[place.page].headers[place.offset] == build
    && place.offset % BUILD_ALIGNMENT == 0
    && Holds(pages, size, After(place), content, EndOf(pages, size, place, |content|))
  }

  /** The bytes end where the last page's used part ends, or the last page is still blank. */
  ghost predicate EndsLast(pages: seq<Page>, end: Spot)
    requires |pages| > 0
  {
    var last := |pages| - 1;
    || end == Spot(last, pages[last].used)
    || (last >= 1 && end == Spot(last - 1, pages[last - 1].used) && pages[last].used == PAGE_HEADER)
  }

  /** Every build's header and content, in creation order, is where the walk will look for it. */
  ghost predicate Laid(pages: seq<Page>, size: nat, places: seq<Spot>, contents: seq<seq<byte>>) {
    && PagesOk(pages, size)
    && |places| == |contents| > 0
    && places[0] == Spot(0, Aligned(PAGE_HEADER))
    && (forall k :: 0 <= k < |places| ==> Placed(pages, size, places[k], k, contents[k]))
    && (forall k :: 0 <= k < |places| - 1 ==>
          NextBuild(pages, size, EndOf(pages, size, places[k], |contents[k]|)) == BuildAt(places[k + 1]))
    && EndsLast(pages, LastEnd(pages, size, places, contents))
  }

  ghost function LastEnd(pages: seq<Page>, size: nat, places: seq<Spot>, contents: seq<seq<byte>>): Spot
    requires PagesOk(pages, size) && |places| == |contents| > 0
    requires places[|places| - 1].page < |pages|
  {
    EndOf(pages, size, places[|places| - 1], |contents[|places| - 1]|)
  }

  /** The walk would find a build placed now. */
  ghost predicate Settled(pages: seq<Page>, size: nat, places: seq<Spot>, contents: seq<seq<byte>>)
    requires Laid(pages, size, places, contents)
  {
    var end := LastEnd(pages, size, places, contents);
    end.page == |pages| - 1 || Aligned(end.offset) + BUILD_HEADER > size
  }

  lemma PlacedLater(pages: seq<Page>, later: seq<Page>, size: nat, place: Spot, build: nat, content: seq<byte>)
    requires Extends(pages, later, size) && Placed(pages, size, place, build, content)
    ensures Placed(later, size, place, build, content)
    ensures EndOf(later, size, place, |content|) == EndOf(pages, size, place, |content|)
  {
    hide ReadRun;
    HoldsLater(pages, later, size, After(place), content, EndOf(pages, size, place, |content|));
  }

  /** Adding bytes, headers or pages at the end keeps all builds findable, up to the last one's end. */
  lemma LaidLater(pages: seq<Page>, later: seq<Page>, size: nat, places: seq<Spot>, contents: seq<seq<byte>>)
    requires Laid(pages, size, places, contents) && Extends(pages, later, size)
    ensures forall k :: 0 <= k < |places| ==>
              && Placed(later, size, places[k], k, contents[k])
              && EndOf(later, size, places[k], |contents[k]|) == EndOf(pages, size, places[k], |contents[k]|)
    ensures forall k :: 0 <= k < |places| - 1 ==>
              NextBuild(later, size, EndOf(later, size, places[k], |contents[k]|)) == BuildAt(places[k + 1])
  {
    hide ReadRun, Holds, NextBuild;
    forall k | 0 <= k < |places|
      ensures Placed(later, size, places[k], k, contents[k])
      ensures EndOf(later, size, places[k], |contents[k]|) == EndOf(pages, size, places[k], |contents[k]|)
      ensures k < |places| - 1 ==>
                NextBuild(later, size, EndOf(later, size, places[k], |contents[k]|)) == BuildAt(places[k + 1])
    {
      PlacedLater(pages, later, size, places[k], k, contents[k]);
      if k < |places| - 1 {
        EndIsOnAPage(pages, size, places[k], |contents[k]|);
        assert NextBuild(pages, size, EndOf(pages, size, places[k], |contents[k]|)) == BuildAt(places[k + 1]);
        NextBuildLater(pages, later, size, EndOf(pages, size, places[k], |contents[k]|));
      }
    }
  }

  lemma EndIsOnAPage(pages: seq<Page>, size: nat, place: Spot, n: nat)
    requires PagesOk(pages, size) && place.page < |pages|
    ensures EndOf(pages, size, place, n).page < |pages|
  {
  }

  /** Counting pending bytes into the last page and the latest build. */
  lemma LaidFill(pages: seq<Page>, size: nat, places: seq<Spot>, contents: seq<seq<byte>>, more: seq<byte>)
    requires Laid(pages, size, places, contents)
    requires pages[|pages| - 1].used + |more| <= size
    ensures var last := |places| - 1;
            var later := pages[|pages| - 1 := Filled(pages[|pages| - 1], more)];
            var grown := contents[last := contents[last] + more];
            && Laid(later, size, places, grown)
            && (more != [] ==> LastEnd(later, size, places, grown) == Spot(|pages| - 1, later[|pages| - 1].used))
            && (more == [] ==> LastEnd(later, size, places, grown) == LastEnd(pages, size, places, contents))
  {
    hide ReadRun, NextBuild;
    var lastPage, last := |pages| - 1, |places| - 1;
    var later := pages[lastPage := Filled(pages[lastPage], more)];
    var grown := contents[last := contents[last] + more];
    var end := LastEnd(pages, size, places, contents);
    assert Extends(pages, later, size);
    LaidLater(pages, later, size, places, contents);
    if more == [] {
      assert contents[last] + more == contents[last];
      assert later == pages by {
        var page := pages[lastPage];
        assert page.data == page.data[..page.used] + page.data[page.used..];
      }
    } else if end == Spot(lastPage, pages[lastPage].used) {
      HoldsMore(pages, later, size, After(places[last]), contents[last], more);
    } else {
      HoldsAcross(pages, later, size, After(places[last]), contents[last], more);
    }
  }

  /** A blank page is added once the last page holds the latest bytes. */
  lemma LaidAddPage(pages: seq<Page>, size: nat, places: seq<Spot>, contents: seq<seq<byte>>)
    requires Laid(pages, size, places, contents)
    requires LastEnd(pages, size, places, contents) == Spot(|pages| - 1, pages[|pages| - 1].used)
    ensures var later := pages + [FreshPage(size)];
            && Laid(later, size, places, contents)
            && LastEnd(later, size, places, contents) == LastEnd(pages, size, places, contents)
  {
    hide ReadRun, NextBuild, Holds;
    var later := pages + [FreshPage(size)];
    assert Extends(pages, later, size);
    LaidLater(pages, later, size, places, contents);
  }

  /** A build header is written at the next aligned offset of the last page. */
  lemma LaidAddBuild(pages: seq<Page>, size: nat, places: seq<Spot>, contents: seq<seq<byte>>)
    requires Laid(pages, size, places, contents) && Settled(pages, size, places, contents)
    requires Aligned(pages[|pages| - 1].used) + BUILD_HEADER <= size
    ensures var last := |pages| - 1;
            var offset := Aligned(pages[last].used);
            var later := pages[last := WithHeader(pages[last], offset, |places|)];
            && Laid(later, size, places + [Spot(last, offset)], contents + [[]])
            && LastEnd(later, size, places + [Spot(last, offset)], contents + [[]]) == Spot(last, later[last].used)
  {
    hide ReadRun, Holds;
    var last := |pages| - 1;
    var offset := Aligned(pages[last].used);
    var later := pages[last := WithHeader(pages[last], offset, |places|)];
    var place := Spot(last, offset);
    var end := LastEnd(pages, size, places, contents);
    assert Extends(pages, later, size);
    LaidLater(pages, later, size, places, contents);
    EmptyRun(later, size, After(place));
    assert NextBuild(later, size, end) == BuildAt(place);
  }

  lemma EmptyRun(pages: seq<Page>, size: nat, at: Spot)
    requires PagesOk(pages, size) && at.page < |pages|
    ensures Holds(pages, size, at, [], at)
  {
  }

  /** The first build opens the first page. */
  lemma LaidFirst(size: nat)
    requires size >= PAGE_HEADER + BUILD_HEADER + MINIMUM_BUFFER
    ensures var pages := [WithHeader(FreshPage(size), Aligned(PAGE_HEADER), 0)];
            var places := [Spot(0, Aligned(PAGE_HEADER))];
            && Laid(pages, size, places, [[]])
            && LastEnd(pages, size, places, [[]]) == Spot(0, pages[0].used)
  {
    hide ReadRun;
    var pages := [WithHeader(FreshPage(size), Aligned(PAGE_HEADER), 0)];
    EmptyRun(pages, size, After(Spot(0, Aligned(PAGE_HEADER))));
  }

  /** Bytes written past the used part of the last page are not part of the layout yet. */
  lemma LaidScribble(pages: seq<Page>, size: nat, places: seq<Spot>, contents: seq<seq<byte>>, page: Page)
    requires Laid(pages, size, places, contents)
    requires var last := pages[|pages| - 1];
             && page.used == last.used && page.headers == last.headers && |page.data| == size
             && page.data[..page.used] == last.data[..page.used]
    ensures var later := pages[|pages| - 1 := page];
            && Laid(later, size, places, contents)
            && LastEnd(later, size, places, contents) == LastEnd(pages, size, places, contents)
  {
    hide ReadRun, NextBuild, Holds;
    var later := pages[|pages| - 1 := page];
    assert Extends(pages, later, size);
    LaidLater(pages, later, size, places, contents);
  }

  /** After the last build's bytes the walk finds nothing more. */
  lemma LaidStops(pages: seq<Page>, size: nat, places: seq<Spot>, contents: seq<seq<byte>>)
    requires Laid(pages, size, places, contents) && Settled(pages, size, places, contents)
    ensures LastEnd(pages, size, places, contents).page < |pages|
    ensures NextBuild(pages, size, LastEnd(pages, size, places, contents)) == NoBuild
  {
    hide ReadRun, Holds;
    EndIsOnAPage(pages, size, places[|places| - 1], |contents[|places| - 1]|);
  }

  lemma FilledInPlace(page: Page, n: nat)
    requires page.used + n <= |page.data|
    ensures Filled(page, page.data[page.used..page.used + n]) == page.(used := page.used + n)
  {
    var d := page.data;
    assert d == d[..page.used] + d[page.used..page.used + n] + d[page.used + n..];
  }
}
