/**
  The growable writer and its builder. Outside a build, bytes go to one growing
  buffer. Inside, the writer's buffer is diverted to the unused rest of the last
  page; completing the outermost build walks the pages and writes everything out.
 */
module Writing {
  import opened Format
  import opened Wrappers
  import opened Encoding
  import opened Reading
  import opened BuildPages
  import opened Tokens

  /** One element more in a build, unless it belongs to a nested container of known size. */
  function Tracked(build: Build): Build {
    if build.nested != 0 then build
    else if !build.isMap then build.(count := (build.count + 1) % 0x1_0000_0000)
    else if build.keyNeedsValue then
      build.(keyNeedsValue := false, count := (build.count + 1) % 0x1_0000_0000)
    else build.(keyNeedsValue := true)
  }

  /** A build apart from the number of bytes that follow it. */
  function Mark(build: Build): Build {
    build.(bytes := 0)
  }

  function Marks(builds: seq<Build>): (r: seq<Build>)
    ensures |r| == |builds|
  {
    seq(|builds|, i requires 0 <= i < |builds| => Mark(builds[i]))
  }

  class Writer {
    const pageSize: nat
    var flag: Flag
    var mem: array<byte>
    /** Where the current buffer starts, where the next byte goes and where the buffer ends. */
    var buffer: nat
    var position: nat
    var end: nat

    var current: Link
    var builds: seq<Build>
    var pages: seq<Page>
    var stashPosition: nat
    ghost var places: seq<Spot>
    /** The counted bytes that follow each build header. */
    ghost var contents: seq<seq<byte>>

    ghost predicate Idle()
      reads this
    {
      && current == Null && builds == [] && pages == [] && places == [] && contents == []
      && buffer == 0 && end == mem.Length
    }

    ghost predicate Busy()
      reads this
    {
      && current.To? && current.build < |builds| == |contents|
      && (forall k :: 0 <= k < |builds| && builds[k].parent.To? ==> builds[k].parent.build < k)
      && (forall k :: 0 <= k < |builds| ==> builds[k].bytes == |contents[k]|)
      && stashPosition <= mem.Length
      && Laid(pages, pageSize, places, contents)
      && buffer == pages[|pages| - 1].used && end == pageSize
    }

    ghost predicate Valid()
      reads this
    {
      && pageSize >= PAGE_HEADER + BUILD_HEADER + MINIMUM_BUFFER
      && mem.Length >= MINIMUM_BUFFER
      && buffer <= position <= end
      && if current.To? then Busy() else Idle()
    }

    /** Written to the last page, but not yet counted there or in the latest build. */
    ghost function Pending(): (r: seq<byte>)
      reads this
      requires Valid() && current.To?
      ensures |r| == position - buffer
    {
      pages[|pages| - 1].data[buffer..position]
    }

    /** A build started now would be found by the final walk. */
    ghost predicate Ready()
      reads this
      requires Valid()
    {
      current.To? && buffer == position ==> Settled(pages, pageSize, places, contents)
    }

    /** The bytes that have reached the growing buffer. */
    ghost function Written(): seq<byte>
      reads this, mem
      requires Valid()
    {
      if current.To? then mem[..stashPosition] else mem[..position]
    }

    /** What the open builds hold. */
    ghost function Told(): seq<Token>
      reads this
      requires Valid()
    {
      if current.To? then LogOf(contents) + Plain(Pending()) else []
    }

    /** Everything the writer has been told. */
    ghost function Log(): seq<Token>
      reads this, mem
      requires Valid()
    {
      Plain(Written()) + Told()
    }

    // ------------------------------------------------------------ the buffer

    constructor (capacity: nat, pageSize: nat)
      requires capacity >= MINIMUM_BUFFER
      requires pageSize >= PAGE_HEADER + BUILD_HEADER + MINIMUM_BUFFER
      ensures Valid() && Ready() && flag == Ok && current == Null && Log() == []
      ensures fresh(mem) && this.pageSize == pageSize
    {
      this.pageSize := pageSize;
      flag := Ok;
      mem := new byte[capacity](_ => 0);
      buffer, position, end := 0, 0, capacity;
      current, builds, pages, stashPosition := Null, [], [], 0;
      places, contents := [], [];
    }

    /**
      mpack_growable_writer_flush. Without `extra`, the buffer itself is flushed:
      its `count` bytes stay and it grows, unless there is nothing in it.
      With `extra`, the buffer grows to take those bytes as well.
     */
    method GrowableFlush(extra: Option<seq<byte>>, count: nat)
      requires Valid() && current == Null
      requires extra.None? ==> position == 0 && count <= end
      requires extra.Some? ==> count == |extra.value| && count > end - position
      modifies this`mem, this`position, this`end
      ensures Valid() && (mem == old(mem) || fresh(mem))
      ensures old(end) <= end
      ensures extra.None? ==>
                position == count && mem[..position] == old(mem[..count])
                && (if count > 0 then end == 2 * old(end) else end == old(end))
      ensures extra.Some? ==>
                && mem[..position] == old(mem[..position]) + extra.value
                && DoubledTo(2 * old(end), old(position) + |extra.value|, end)
    {
      hide DoubledTo;
      var pending := count;
      if extra.None? {
        if position == count {
          return;
        }
        position := buffer + count;
        pending := 0;
      }
      var used, size := position, end;
      var newSize := 2 * size;
      ghost var times := 0;
      while newSize < used + pending
        invariant newSize >= 2 * size && (pending == 0 ==> newSize == 2 * size)
        invariant newSize == Doublings(2 * size, times)
        invariant times > 0 ==> Doublings(2 * size, times - 1) < used + pending
        decreases used + pending - newSize
      {
        newSize := 2 * newSize;
        times := times + 1;
      }
      DoubledBy(2 * size, used + pending, newSize, times);
      var larger := new byte[newSize](_ => 0);
      forall i | 0 <= i < used {
        larger[i] := mem[i];
      }
      if extra.Some? && pending > 0 {
        forall i | 0 <= i < pending {
          larger[used + i] := extra.value[i];
        }
        position := used + pending;
      }
      mem := larger;
      end := newSize;
    }

    method FlushUnchecked()
      requires Valid() && current == Null
      modifies this`mem, this`position, this`end
      ensures Valid() && (mem == old(mem) || fresh(mem))
      ensures position == old(position) && mem[..position] == old(mem[..position])
      ensures old(position) > 0 ==> end >= 2 * old(end)
      ensures old(position) == 0 ==> end == old(end)
    {
      var used := position;
      position := 0;
      GrowableFlush(None, used);
    }

    /** memcpy to the position and advance; the pointer may lead into the buffer or into a page. */
    method Store(bytes: seq<byte>)
      requires Valid() && |bytes| <= end - position
      modifies this`pages, this`position, mem
      ensures Valid()
      ensures old(Ready()) || bytes != [] ==> Ready()
      ensures position == old(position) + |bytes|
      ensures Written() == if current.To? then old(Written()) else old(Written()) + bytes
      ensures Log() == old(Log()) + Plain(bytes)
    {
      hide Busy, Plain, LogOf;
      if current.To? {
        StoreInPage(bytes);
      } else {
        PlainAppends(mem[..position], bytes);
        forall i | 0 <= i < |bytes| {
          mem[position + i] := bytes[i];
        }
        position := position + |bytes|;
        assert mem[..position] == old(mem[..position]) + bytes;
      }
    }

    method StoreInPage(bytes: seq<byte>)
      requires Valid() && current.To? && |bytes| <= end - position
      modifies this`pages, this`position
      ensures Valid()
      ensures old(Ready()) || bytes != [] ==> Ready()
      ensures position == old(position) + |bytes|
      ensures Log() == old(Log()) + Plain(bytes)
    {
      hide ReadRun, Holds, NextBuild, Plain, LogOf;
      var last := |pages| - 1;
      var page := pages[last];
      var data := page.data[..position] + bytes + page.data[position + |bytes|..];
      LaidScribble(pages, pageSize, places, contents, page.(data := data));
      assert data[buffer..position + |bytes|] == page.data[buffer..position] + bytes;
      PlainAppends(Pending(), bytes);
      pages := pages[last := page.(data := data)];
      position := position + |bytes|;
    }

    // ----------------------------------------------------------- the builder

    /** mpack_builder_apply_writes and, after it, mpack_builder_configure_buffer. */
    method ApplyWrites()
      requires Valid() && current.To?
      modifies this`pages, this`builds, this`buffer, this`contents
      ensures Valid() && position == buffer
      ensures Marks(builds) == old(Marks(builds))
      ensures Told() == old(Told()) && Written() == old(Written())
      ensures |pages| == old(|pages|)
      ensures old(buffer < position) ==> LastEnd(pages, pageSize, places, contents).page == |pages| - 1
      ensures old(buffer == position) ==> pages == old(pages) && contents == old(contents)
    {
      hide ReadRun, Holds, NextBuild, Plain, LogOf, Settled, EndOf, EndsLast;
      var last, latest := |pages| - 1, |builds| - 1;
      var written := position - buffer;
      ghost var more := Pending();
      LaidFill(pages, pageSize, places, contents, more);
      FilledInPlace(pages[last], written);
      LogGrows(contents, more);
      PlainNothing();
      assert written == 0 ==> more == [];
      assert written > 0 ==> more != [];
      assert more == [] ==> contents[latest] + more == contents[latest];
      MarksIgnoreBytes(builds, latest, builds[latest].bytes + written);
      pages := pages[last := pages[last].(used := pages[last].used + written)];
      builds := builds[latest := builds[latest].(bytes := builds[latest].bytes + written)];
      contents := contents[latest := contents[latest] + more];
      buffer := position;
      assert Pending() == [];
    }

    /** mpack_builder_add_page, diverting the buffer to the new page. */
    method AddPage()
      requires Valid() && current.To? && position == buffer
      requires LastEnd(pages, pageSize, places, contents).page == |pages| - 1
      modifies this`pages, this`buffer, this`position
      ensures Valid() && position == buffer
      ensures pages == old(pages) + [FreshPage(pageSize)]
      ensures LastEnd(pages, pageSize, places, contents) == old(LastEnd(pages, pageSize, places, contents))
      ensures Log() == old(Log())
    {
      hide ReadRun, Holds, NextBuild, Plain, LogOf;
      LaidAddPage(pages, pageSize, places, contents);
      pages := pages + [FreshPage(pageSize)];
      buffer, position := PAGE_HEADER, PAGE_HEADER;
    }

    /** mpack_builder_flush: continues on a new page. */
    method BuilderFlush()
      requires Valid() && current.To?
      requires end - position < pageSize - PAGE_HEADER
      modifies this`pages, this`builds, this`buffer, this`position, this`contents
      ensures Valid() && buffer == position && end - position == pageSize - PAGE_HEADER
      ensures Marks(builds) == old(Marks(builds))
      ensures Log() == old(Log())
    {
      hide ReadRun, Holds, NextBuild, Plain, LogOf, Marks;
      ApplyWrites();
      AddPage();
    }

    /** mpack_writer_ensure: makes room for a header. */
    method Ensure(count: nat)
      requires Valid() && end - position < count <= MINIMUM_BUFFER
      modifies this`mem, this`pages, this`builds, this`buffer, this`position, this`end, this`contents
      ensures Valid() && (mem == old(mem) || fresh(mem))
      ensures end - position >= count
      ensures Marks(builds) == old(Marks(builds))
      ensures Written() == old(Written()) && Log() == old(Log())
    {
      hide Busy, Plain, Marks, LogOf;
      if current.To? {
        BuilderFlush();
      } else {
        FlushUnchecked();
      }
    }

    /** MPACK_WRITE_ENCODED: a header goes to the buffer in one piece. */
    method Encoded(bytes: seq<byte>)
      requires Valid() && 0 < |bytes| <= MINIMUM_BUFFER
      modifies this`mem, this`pages, this`builds, this`buffer, this`position, this`end, this`contents, mem
      ensures Valid() && Ready() && (mem == old(mem) || fresh(mem))
      ensures Marks(builds) == old(Marks(builds))
      ensures Written() == if current.To? then old(Written()) else old(Written()) + bytes
      ensures Log() == old(Log()) + Plain(bytes)
    {
      hide Busy, Idle, Log, Settled, Plain, Marks;
      if end - position < |bytes| {
        Ensure(|bytes|);
      }
      Store(bytes);
    }

    /** mpack_write_native: bytes of any length. */
    method Native(bytes: seq<byte>)
      requires Valid() && Ready()
      modifies this`mem, this`pages, this`builds, this`buffer, this`position, this`end, this`contents, mem
      ensures Valid() && Ready() && (mem == old(mem) || fresh(mem))
      ensures Marks(builds) == old(Marks(builds))
      ensures Written() == if current.To? then old(Written()) else old(Written()) + bytes
      ensures Log() == old(Log()) + Plain(bytes)
    {
      hide Busy, Idle, Log, Settled, Plain, Marks;
      if end - position < |bytes| {
        NativeStraddle(bytes);
      } else {
        Store(bytes);
      }
    }

    /** Bytes that do not fit: as many pages as it takes, or one growth of the buffer. */
    method NativeStraddle(bytes: seq<byte>)
      requires Valid() && Ready() && end - position < |bytes|
      modifies this`mem, this`pages, this`builds, this`buffer, this`position, this`end, this`contents, mem
      ensures Valid() && Ready() && (mem == old(mem) || fresh(mem))
      ensures Marks(builds) == old(Marks(builds))
      ensures Written() == if current.To? then old(Written()) else old(Written()) + bytes
      ensures Log() == old(Log()) + Plain(bytes)
    {
      hide Busy, Plain, Marks, LogOf;
      if current.To? {
        StraddlePages(bytes);
        return;
      }
      PlainAppends(mem[..position], bytes);
      FlushUnchecked();
      if |bytes| > end - position {
        GrowableFlush(Some(bytes), |bytes|);
      } else {
        Store(bytes);
      }
    }

    method StraddlePages(bytes: seq<byte>)
      requires Valid() && Ready() && current.To? && end - position < |bytes|
      modifies this`pages, this`builds, this`buffer, this`position, this`contents
      ensures Valid() && Ready()
      ensures Marks(builds) == old(Marks(builds))
      ensures Log() == old(Log()) + Plain(bytes)
    {
      hide Busy, Idle, Log, Settled, Plain, Marks;
      var p := bytes;
      PlainNothing();
      while true
        invariant Valid() && current.To?
        invariant p != [] && |p| <= |bytes| && p == bytes[|bytes| - |p|..]
        invariant Marks(builds) == old(Marks(builds))
        invariant Log() == old(Log()) + Plain(bytes[..|bytes| - |p|])
        decreases |p|, if position == end then 1 else 0
      {
        var step := end - position;
        if step > |p| {
          step := |p|;
        }
        ghost var done := |bytes| - |p|;
        PlainAppends(bytes[..done], p[..step]);
        PieceOf(bytes, p, done, step);
        StoreInPage(p[..step]);
        p := p[step..];
        if p == [] {
          assert bytes[..done + step] == bytes;
          return;
        }
        BuilderFlush();
      }
    }

    /** mpack_writer_track_element. */
    method TrackElement()
      requires Valid() && Ready()
      modifies this`builds
      ensures Valid() && Ready()
      ensures Marks(builds) == WithElement(old(Marks(builds)), current)
      ensures Log() == old(Log()) && Written() == old(Written())
    {
      hide Laid, Settled, Plain, LogOf;
      if current.To? {
        MarksUpdate(builds, current.build, Tracked(builds[current.build]));
        builds := builds[current.build := Tracked(builds[current.build])];
      }
    }

    /** mpack_builder_build: an element of its parent, and a header whose count is still open. */
    method BuilderBuild(isMap: bool)
      requires Valid() && Ready()
      modifies this`pages, this`builds, this`buffer, this`position, this`end, this`contents, this`places,
               this`current, this`stashPosition
      ensures Valid() && Ready() && current == To(old(|builds|))
      ensures Marks(builds) == WithElement(old(Marks(builds)), old(current))
                               + [Build(old(current), isMap, 0, 0, false, 0)]
      ensures Log() == old(Log()) + [Open(old(|builds|))] && Written() == old(Written())
    {
      hide Busy, Laid, LastEnd, Settled, Log, Marks;
      TrackElement();
      if current == Null {
        PlaceFirst(isMap);
      } else {
        FindRoom();
        PlaceNext(isMap);
      }
      KeepRoom();
    }

    /** Counts what was written and moves to a new page if no header fits on this one. */
    method FindRoom()
      requires Valid() && Ready() && current.To?
      modifies this`pages, this`builds, this`buffer, this`position, this`contents
      ensures Valid() && position == buffer && Settled(pages, pageSize, places, contents)
      ensures Aligned(pages[|pages| - 1].used) + BUILD_HEADER <= pageSize
      ensures Marks(builds) == old(Marks(builds))
      ensures Log() == old(Log()) && Written() == old(Written())
    {
      hide ReadRun, Holds, Placed, Plain, LogOf, Marks, NextBuild;
      ApplyWrites();
      BlankOrEnd(pages, pageSize, places, contents);
      if Aligned(pages[|pages| - 1].used) + BUILD_HEADER > pageSize {
        AddPage();
      }
    }

    /** The writer always gets at least its minimum buffer after a header. */
    method KeepRoom()
      requires Valid() && current.To? && position == buffer
      requires LastEnd(pages, pageSize, places, contents) == Spot(|pages| - 1, pages[|pages| - 1].used)
      modifies this`pages, this`buffer, this`position
      ensures Valid() && Ready()
      ensures Log() == old(Log()) && Written() == old(Written())
    {
      hide Laid, LastEnd, Plain, LogOf, Marks, NextBuild;
      if pageSize - pages[|pages| - 1].used < MINIMUM_BUFFER {
        AddPage();
      }
    }

    /** mpack_builder_begin, and the header of the outermost build on the first page. */
    method PlaceFirst(isMap: bool)
      requires Valid() && current == Null
      modifies this`pages, this`builds, this`buffer, this`position, this`end, this`contents, this`places,
               this`current, this`stashPosition
      ensures Valid() && current == To(0) && position == buffer
      ensures LastEnd(pages, pageSize, places, contents) == Spot(|pages| - 1, pages[|pages| - 1].used)
      ensures Marks(builds) == old(Marks(builds)) + [Build(Null, isMap, 0, 0, false, 0)]
      ensures Log() == old(Log()) + [Open(0)] && Written() == old(Written())
    {
      hide ReadRun, Holds, NextBuild, Laid, LastEnd, Plain, LogOf;
      PlainNothing();
      stashPosition := position;
      LaidFirst(pageSize);
      var offset := Aligned(PAGE_HEADER);
      pages := [WithHeader(FreshPage(pageSize), offset, 0)];
      builds := [Build(Null, isMap, 0, 0, false, 0)];
      places, contents := [Spot(0, offset)], [[]];
      current := To(0);
      buffer, position, end := offset + BUILD_HEADER, offset + BUILD_HEADER, pageSize;
      FirstOpens();
    }

    /** A further build's header at the next aligned offset of the last page. */
    method PlaceNext(isMap: bool)
      requires Valid() && current.To? && position == buffer
      requires Settled(pages, pageSize, places, contents)
      requires Aligned(pages[|pages| - 1].used) + BUILD_HEADER <= pageSize
      modifies this`pages, this`builds, this`buffer, this`position, this`contents, this`places, this`current
      ensures Valid() && current == To(old(|builds|)) && position == buffer
      ensures LastEnd(pages, pageSize, places, contents) == Spot(|pages| - 1, pages[|pages| - 1].used)
      ensures Marks(builds) == old(Marks(builds)) + [Build(old(current), isMap, 0, 0, false, 0)]
      ensures Log() == old(Log()) + [Open(old(|builds|))] && Written() == old(Written())
    {
      hide ReadRun, Holds, NextBuild, LogOf, Plain;
      PlainNothing();
      LaidAddBuild(pages, pageSize, places, contents);
      LogOpens(contents);
      var last := |pages| - 1;
      var offset := Aligned(pages[last].used);
      pages := pages[last := WithHeader(pages[last], offset, |builds|)];
      builds := builds + [Build(current, isMap, 0, 0, false, 0)];
      places, contents := places + [Spot(last, offset)], contents + [[]];
      current := To(|builds| - 1);
      buffer, position := offset + BUILD_HEADER, offset + BUILD_HEADER;
    }

    /**
      mpack_builder_complete: back to the enclosing build, or, for the outermost one,
      out with everything. A map with a key but no value, or an unfinished nested
      container, is a bug and is flagged.
     */
    method BuilderComplete()
      requires Valid() && Ready() && current.To? && flag == Ok
      modifies this`flag, this`mem, this`pages, this`builds, this`buffer, this`position, this`end, this`contents,
               this`places, this`current, this`stashPosition, mem
      ensures Valid() && Ready() && (mem == old(mem) || fresh(mem))
      ensures var build := old(builds[current.build]);
              if build.keyNeedsValue || build.nested != 0 then
                && flag == Flagged(Bug) && current == old(current)
                && Marks(builds) == old(Marks(builds)) && Log() == old(Log())
              else if build.parent.To? then
                && flag == Ok && current == build.parent && Marks(builds) == old(Marks(builds))
                && Log() == old(Log()) && Written() == old(Written())
              else
                && flag == Ok && current == Null && Known(old(Told()), old(|builds|))
                && Written() == old(Written()) + Resolved(old(Told()), old(builds))
    {
      hide Laid, LastEnd, LogOf, Plain, Marks, Known, Resolved;
      var closing := builds[current.build];
      if closing.keyNeedsValue || closing.nested != 0 {
        flag := Flagged(Bug);
        return;
      }
      ghost var before := builds;
      ApplyWrites();
      if closing.parent.To? {
        current := closing.parent;
      } else {
        ghost var applied := builds;
        CompleteOutermost();
        SameMarksResolve(old(Told()), applied, before);
      }
    }

    method CompleteOutermost()
      requires Valid() && current.To? && position == buffer
      requires Settled(pages, pageSize, places, contents)
      modifies this`mem, this`pages, this`builds, this`buffer, this`position, this`end, this`contents,
               this`places, this`current, this`stashPosition, mem
      ensures Valid() && current == Null && (mem == old(mem) || fresh(mem))
      ensures Known(old(Told()), old(|builds|))
      ensures Written() == old(Written()) + Resolved(old(Told()), old(builds))
    {
      hide Laid, LastEnd, LogOf, NextBuild, Resolved, Rendered, Written;
      RenderedIsResolved(contents, builds, |builds|);
      assert contents[..|builds|] == contents;
      assert LogOf(contents) + [] == LogOf(contents);
      Resolve();
    }

    /** mpack_builder_resolve: walks the pages, writing each build's header and bytes to the real buffer. */
    method Resolve()
      requires Valid() && current.To? && position == buffer
      requires Settled(pages, pageSize, places, contents)
      modifies this`mem, this`pages, this`builds, this`buffer, this`position, this`end, this`contents,
               this`places, this`current, this`stashPosition, mem
      ensures Valid() && current == Null && (mem == old(mem) || fresh(mem))
      ensures old(|contents|) == old(|builds|)
      ensures Written() == old(Written()) + Rendered(old(contents), old(builds), old(|builds|))
    {
      hide Laid, LastEnd, ReadRun, NextBuild, EncodeTag, Plain, LogOf, Written, Log, Rendered;
      ghost var at, bytes, out := places, contents, Written();
      var list, headers := pages, builds;
      LaidStops(list, pageSize, at, bytes);
      FirstIsPlaced(list, pageSize, at, bytes);
      Restore();
      NothingRendered(out, bytes, headers);

      var page, offset: nat := 0, Aligned(PAGE_HEADER);
      var build := list[page].headers[offset];
      offset := offset + BUILD_HEADER;
      while true
        invariant Valid() && current == Null && (mem == old(mem) || fresh(mem))
        invariant build < |headers| && Spot(page, offset) == After(at[build])
        invariant Written() == out + Rendered(bytes, headers, build)
        decreases |headers| - build
      {
        ghost var k := build;
        RunIsPlaced(list, pageSize, at, bytes, k);
        Encoded(EncodeTag(BuildTag(headers[build])));
        page, offset := CopyOut(list, page, offset, headers[build].bytes, bytes[build]);
        RenderedStep(out, bytes, headers, k);
        var found := FindNext(list, page, offset);
        if found == NoBuild {
          break;
        }
        page, offset := found.spot.page, found.spot.offset;
        build := list[page].headers[offset];
        offset := offset + BUILD_HEADER;
      }
    }

    /** Gives the writer its real buffer back; the pages are walked from the copies kept above. */
    method Restore()
      requires Valid() && current.To?
      modifies this`pages, this`builds, this`buffer, this`position, this`end, this`contents, this`places, this`current
      ensures Valid() && current == Null
      ensures Written() == old(Written())
    {
      hide Laid;
      buffer, position, end := 0, stashPosition, mem.Length;
      current, pages, builds, places, contents := Null, [], [], [], [];
    }

    /** The walk's search for the next header, after the bytes that end at a spot. */
    method FindNext(list: seq<Page>, fromPage: nat, fromOffset: nat) returns (found: Found)
      requires fromPage < |list|
      ensures found == NextBuild(list, pageSize, Spot(fromPage, fromOffset))
    {
      var page, offset: nat := fromPage, Aligned(fromOffset);
      if offset + BUILD_HEADER > pageSize {
        page := page + 1;
        if page == |list| {
          return NoBuild;
        }
        offset := Aligned(PAGE_HEADER);
      }
      if offset + BUILD_HEADER > list[page].used {
        return NoBuild;
      }
      return BuildAt(Spot(page, offset));
    }

    method CopyPiece(piece: seq<byte>, ghost out: seq<byte>, ghost bytes: seq<byte>, ghost done: nat)
      requires Valid() && current == Null && done + |piece| <= |bytes|
      requires bytes[done..][..|piece|] == piece && Written() == out + bytes[..done]
      modifies this`mem, this`pages, this`builds, this`buffer, this`position, this`end, this`contents, mem
      ensures Valid() && current == Null && (mem == old(mem) || fresh(mem))
      ensures Written() == out + bytes[..done + |piece|]
    {
      hide Valid, Written, Log, Plain, Marks;
      Native(piece);
      Regroup(out, bytes, done, |piece|);
    }

    /** The inner loop of the walk: n bytes from a spot on, page after page. */
    method CopyOut(list: seq<Page>, fromPage: nat, fromOffset: nat, n: nat, ghost bytes: seq<byte>)
        returns (page: nat, offset: nat)
      requires Valid() && current == Null
      requires PagesOk(list, pageSize) && fromPage < |list| && n == |bytes|
      requires ReadRun(list, pageSize, Spot(fromPage, fromOffset), n).bytes == bytes
      modifies this`mem, this`pages, this`builds, this`buffer, this`position, this`end, this`contents, mem
      ensures Valid() && current == Null && (mem == old(mem) || fresh(mem))
      ensures Spot(page, offset) == ReadRun(list, pageSize, Spot(fromPage, fromOffset), n).end
      ensures Written() == old(Written()) + bytes
    {
      hide Valid, Written, Log, EncodeTag, Plain, ReadRun, Marks;
      page, offset := fromPage, fromOffset;
      var left: nat := n;
      ghost var out, rest := Written(), bytes;
      assert bytes[..n - left] == [];
      while left > 0
        invariant Valid() && current == Null && (mem == old(mem) || fresh(mem))
        invariant left <= n && page < |list| && rest == bytes[n - left..]
        invariant ReadRun(list, pageSize, Spot(page, offset), left)
                  == Run(rest, ReadRun(list, pageSize, Spot(fromPage, fromOffset), n).end)
        invariant Written() == out + bytes[..n - left]
        decreases left, |list| - page
      {
        RunStep(list, pageSize, Spot(page, offset), left);
        var used := list[page].used;
        if offset < used {
          var step := used - offset;
          if step > left {
            step := left;
          }
          CopyPiece(list[page].data[offset..offset + step], out, bytes, n - left);
          offset := offset + step;
          left := left - step;
          rest := rest[step..];
        }
        if left == 0 {
          break;
        }
        page := page + 1;
        offset := PAGE_HEADER;
      }
      NoRun(list, pageSize, Spot(page, offset));
      assert bytes[..n] == bytes;
    }

    // -------------------------------------------------------------- elements

    /** mpack_builder_compound_push: elements that follow belong to a container of known size. */
    method CompoundPush()
      requires Valid() && Ready()
      modifies this`builds
      ensures Valid() && Ready()
      ensures Marks(builds) == WithNesting(old(Marks(builds)), current, 1)
      ensures Log() == old(Log()) && Written() == old(Written())
    {
      hide Laid, Settled, Plain, LogOf;
      if current.To? {
        var build := builds[current.build].(nested := builds[current.build].nested + 1);
        MarksUpdate(builds, current.build, build);
        builds := builds[current.build := build];
      }
    }

    /** mpack_builder_compound_pop: finishes a container that was started in this build. */
    method CompoundPop()
      requires Valid() && Ready()
      requires current.To? ==> builds[current.build].nested > 0
      modifies this`builds
      ensures Valid() && Ready()
      ensures Marks(builds) == WithNesting(old(Marks(builds)), current, -1)
      ensures Log() == old(Log()) && Written() == old(Written())
    {
      hide Laid, Settled, Plain, LogOf;
      if current.To? {
        var build := builds[current.build].(nested := builds[current.build].nested - 1);
        MarksUpdate(builds, current.build, build);
        builds := builds[current.build := build];
      }
    }

    /** mpack_start_array, mpack_start_map. */
    method StartCompound(isMap: bool, count: nat)
      requires Valid() && Ready() && count < 0x1_0000_0000
      modifies this`mem, this`pages, this`builds, this`buffer, this`position, this`end, this`contents, mem
      ensures Valid() && Ready() && (mem == old(mem) || fresh(mem))
      ensures Marks(builds) == WithNesting(WithElement(old(Marks(builds)), current), current, 1)
      ensures var head := EncodeTag(if isMap then MapTag(count) else ArrayTag(count));
              && Log() == old(Log()) + Plain(head)
              && Written() == if current.To? then old(Written()) else old(Written()) + head
    {
      hide Valid, Ready, Log, Written, Plain, Marks, EncodeTag, WithElement, WithNesting;
      TrackElement();
      Encoded(EncodeTag(if isMap then MapTag(count) else ArrayTag(count)));
      CompoundPush();
    }

    /** mpack_write_str: the shortest strings go with their header, others follow it. */
    method WriteStr(data: seq<byte>)
      requires Valid() && Ready() && |data| < 0x1_0000_0000
      modifies this`mem, this`pages, this`builds, this`buffer, this`position, this`end, this`contents, mem
      ensures Valid() && Ready() && (mem == old(mem) || fresh(mem))
      ensures Marks(builds) == WithElement(old(Marks(builds)), current)
      ensures var bytes := EncodeTag(StrTag(|data|)) + data;
              && Log() == old(Log()) + Plain(bytes)
              && Written() == if current.To? then old(Written()) else old(Written()) + bytes
    {
      hide Valid, Log, Written, Plain, Marks, EncodeTag;
      TrackElement();
      var head := EncodeTag(StrTag(|data|));
      PlainAppends(head, data);
      if |data| <= 31 {
        ShortStrHead(|data|);
        Encoded(head + data);
      } else if |data| <= 0xff && |head + data| <= end - position {
        Store(head + data);
      } else {
        HeadThenData(head, data);
      }
    }

    method HeadThenData(head: seq<byte>, data: seq<byte>)
      requires Valid() && Ready() && 0 < |head| <= MINIMUM_BUFFER
      modifies this`mem, this`pages, this`builds, this`buffer, this`position, this`end, this`contents, mem
      ensures Valid() && Ready() && (mem == old(mem) || fresh(mem))
      ensures Marks(builds) == old(Marks(builds))
      ensures Log() == old(Log()) + (Plain(head) + Plain(data))
      ensures Written() == if current.To? then old(Written()) else old(Written()) + (head + data)
    {
      hide Valid, Log, Written, Plain, Marks;
      Encoded(head);
      Native(data);
    }

    /** mpack_write_bin. */
    method WriteBin(data: seq<byte>)
      requires Valid() && Ready() && |data| < 0x1_0000_0000
      modifies this`mem, this`pages, this`builds, this`buffer, this`position, this`end, this`contents, mem
      ensures Valid() && Ready() && (mem == old(mem) || fresh(mem))
      ensures Marks(builds) == WithElement(old(Marks(builds)), current)
      ensures var bytes := EncodeTag(BinTag(|data|)) + data;
              && Log() == old(Log()) + Plain(bytes)
              && Written() == if current.To? then old(Written()) else old(Written()) + bytes
    {
      hide Valid, Log, Written, Plain, Marks, EncodeTag;
      TrackElement();
      PlainAppends(EncodeTag(BinTag(|data|)), data);
      HeadThenData(EncodeTag(BinTag(|data|)), data);
    }

    /** mpack_write_nil, _bool, _u64, _i64, _float and _double. */
    method WriteTag(tag: Tag)
      requires Valid() && Ready() && ValidTag(tag)
      modifies this`mem, this`pages, this`builds, this`buffer, this`position, this`end, this`contents, mem
      ensures Valid() && Ready() && (mem == old(mem) || fresh(mem))
      ensures Marks(builds) == WithElement(old(Marks(builds)), current)
      ensures Log() == old(Log()) + Plain(EncodeTag(tag))
      ensures Written() == if current.To? then old(Written()) else old(Written()) + EncodeTag(tag)
    {
      hide Valid, Log, Written, Plain, Marks, EncodeTag;
      TrackElement();
      Encoded(EncodeTag(tag));
    }

    /** Teardown: the buffer handed to the caller, shrunk if less than half of it is used. */
    method Teardown() returns (data: array<byte>, size: nat)
      requires Valid() && current == Null && flag == Ok
      ensures size <= data.Length && data[..size] == Written()
      ensures data == mem || fresh(data)
    {
      data, size := mem, position;
      if position < end / 2 {
        var shrunk := new byte[if position != 0 then position else 1](_ => 0);
        forall i | 0 <= i < position {
          shrunk[i] := mem[i];
        }
        data := shrunk;
      }
    }
  }

  function WithNesting(marks: seq<Build>, current: Link, change: int): (r: seq<Build>)
    ensures |r| == |marks|
  {
    if current.To? && current.build < |marks| && marks[current.build].nested + change >= 0 then
      marks[current.build := marks[current.build].(nested := marks[current.build].nested + change)]
    else marks
  }

  lemma ShortStrHead(n: nat)
    requires n <= 31
    ensures |EncodeTag(StrTag(n))| == 1
  {
  }

  /** One page's share of a run that holds all the bytes it was asked for. */
  lemma RunStep(pages: seq<Page>, size: nat, at: Spot, n: nat)
    requires PagesOk(pages, size) && at.page < |pages| && n > 0
    requires |ReadRun(pages, size, at, n).bytes| == n
    ensures var run := ReadRun(pages, size, at, n);
            var used := pages[at.page].used;
            var here := if at.offset < used then used - at.offset else 0;
            var step := if here < n then here else n;
            && (step > 0 ==> run.bytes[..step] == pages[at.page].data[at.offset..at.offset + step])
            && (step == n ==> run.end == Spot(at.page, at.offset + step))
            && (step < n ==>
                  && at.page + 1 < |pages|
                  && ReadRun(pages, size, Spot(at.page + 1, PAGE_HEADER), n - step) == Run(run.bytes[step..], run.end))
  {
  }

  lemma Regroup(out: seq<byte>, bytes: seq<byte>, done: nat, step: nat)
    requires done + step <= |bytes|
    ensures (out + bytes[..done]) + bytes[done..][..step] == out + bytes[..done + step]
  {
  }

  lemma PieceOf(bytes: seq<byte>, p: seq<byte>, done: nat, step: nat)
    requires done + step <= |bytes| && p == bytes[done..]
    ensures bytes[..done] + p[..step] == bytes[..done + step]
  {
  }

  lemma NoRun(pages: seq<Page>, size: nat, at: Spot)
    requires PagesOk(pages, size) && at.page < |pages|
    ensures ReadRun(pages, size, at, 0) == Run([], at)
  {
  }

  lemma NothingRendered(out: seq<byte>, contents: seq<seq<byte>>, builds: seq<Build>)
    requires |contents| == |builds|
    ensures out + Rendered(contents, builds, 0) == out
  {
  }

  lemma RenderedStep(out: seq<byte>, contents: seq<seq<byte>>, builds: seq<Build>, k: nat)
    requires k < |contents| == |builds|
    ensures (out + Rendered(contents, builds, k)) + EncodeTag(BuildTag(builds[k])) + contents[k]
            == out + Rendered(contents, builds, k + 1)
  {
  }

  lemma FirstIsPlaced(pages: seq<Page>, size: nat, places: seq<Spot>, contents: seq<seq<byte>>)
    requires Laid(pages, size, places, contents)
    ensures PagesOk(pages, size) && |places| == |contents| > 0
    ensures places[0] == Spot(0, Aligned(PAGE_HEADER))
    ensures Aligned(PAGE_HEADER) in pages[0].headers && pages[0].headers[Aligned(PAGE_HEADER)] == 0
  {
    hide ReadRun, NextBuild;
    assert Placed(pages, size, places[0], 0, contents[0]);
  }

  /** The walk's facts about the k-th build. */
  lemma RunIsPlaced(pages: seq<Page>, size: nat, places: seq<Spot>, contents: seq<seq<byte>>, k: nat)
    requires Laid(pages, size, places, contents) && k < |places|
    ensures PagesOk(pages, size) && |places| == |contents|
    ensures places[k].page < |pages|
    ensures ReadRun(pages, size, After(places[k]), |contents[k]|).bytes == contents[k]
    ensures k + 1 < |places| ==>
              && NextBuild(pages, size, ReadRun(pages, size, After(places[k]), |contents[k]|).end)
                 == BuildAt(places[k + 1])
              && places[k + 1].page < |pages|
              && places[k + 1].offset in pages[places[k + 1].page].headers
              && pages[places[k + 1].page].headers[places[k + 1].offset] == k + 1
    ensures k + 1 == |places| ==>
              ReadRun(pages, size, After(places[k]), |contents[k]|).end == LastEnd(pages, size, places, contents)
  {
    hide ReadRun, NextBuild;
    if k + 1 < |places| {
      assert Placed(pages, size, places[k + 1], k + 1, contents[k + 1]);
    }
    assert Placed(pages, size, places[k], k, contents[k]);
  }

  /** Either the last page holds the end of the latest bytes or it has room for a header. */
  lemma BlankOrEnd(pages: seq<Page>, size: nat, places: seq<Spot>, contents: seq<seq<byte>>)
    requires Laid(pages, size, places, contents)
    ensures var end := LastEnd(pages, size, places, contents);
            if end.page == |pages| - 1 then end.offset == pages[|pages| - 1].used
            else pages[|pages| - 1].used == PAGE_HEADER
  {
    hide ReadRun, Holds, NextBuild;
  }

  /** The marks after one more element in the open build, if there is one. */
  function WithElement(marks: seq<Build>, current: Link): (r: seq<Build>)
    ensures |r| == |marks|
  {
    if current.To? && current.build < |marks| then marks[current.build := Tracked(marks[current.build])] else marks
  }

  lemma SameMarkAt(a: seq<Build>, b: seq<Build>, k: nat)
    requires k < |a| && Marks(a) == Marks(b)
    ensures |a| == |b| && Mark(a[k]) == Mark(b[k])
  {
    assert Marks(a)[k] == Marks(b)[k];
  }

  lemma SameMarksResolve(tokens: seq<Token>, a: seq<Build>, b: seq<Build>)
    requires Marks(a) == Marks(b) && Known(tokens, |a|)
    ensures |a| == |b| && Resolved(tokens, a) == Resolved(tokens, b)
  {
    hide Marks;
    assert |Marks(a)| == |a|;
    forall i | 0 <= i < |tokens| && tokens[i].Open?
      ensures BuildTag(a[tokens[i].build]) == BuildTag(b[tokens[i].build])
    {
      SameMarkAt(a, b, tokens[i].build);
    }
    ResolvedAgrees(tokens, a, b);
  }

  lemma MarksUpdate(builds: seq<Build>, k: nat, build: Build)
    requires k < |builds|
    ensures Marks(builds[k := build]) == Marks(builds)[k := Mark(build)]
  {
  }

  lemma MarksIgnoreBytes(builds: seq<Build>, k: nat, bytes: nat)
    requires k < |builds|
    ensures Marks(builds[k := builds[k].(bytes := bytes)]) == Marks(builds)
  {
  }

  lemma FirstOpens()
    ensures LogOf([[]]) == [Open(0)]
  {
    LogOpens([]);
  }

  lemma PlainNothing()
    ensures Plain([]) == []
  {
  }
}
