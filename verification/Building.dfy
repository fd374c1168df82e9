/**
  Well-nested runs of the write API, and the bytes they end in: exactly those of
  a one-shot encoder that knew every count in advance, whatever the page size.
 */
module Building {
  import opened Format
  import opened Wrappers
  import opened Encoding
  import opened Reading
  import opened BuildPages
  import opened Tokens
  import opened Writing

  /**
    A run of calls: a scalar, string or binary write; start/finish around elements
    counted by the caller; or build/complete around elements counted by the writer.
   */
  datatype Item =
    | Leaf(v: Value)
    | Started(isMap: bool, items: seq<Item>)
    | Built(isMap: bool, items: seq<Item>)

  /** Maps get pairs and counts fit 32 bits. */
  predicate WellNested(item: Item) {
    match item
    case Leaf(v) => Writable(v) && !v.Array? && !v.Map?
    case Started(isMap, items) => Countable(isMap, |items|) && AllWellNested(items)
    case Built(isMap, items) => Countable(isMap, |items|) && AllWellNested(items)
  }

  predicate AllWellNested(items: seq<Item>) {
    forall i :: 0 <= i < |items| ==> WellNested(items[i])
  }

  predicate Countable(isMap: bool, n: nat) {
    if isMap then n % 2 == 0 && n / 2 < 0x1_0000_0000 else n < 0x1_0000_0000
  }

  /** The value a run writes. */
  function ValueOf(item: Item): Value {
    match item
    case Leaf(v) => v
    case Started(isMap, items) => Compound(isMap, ValuesOf(items))
    case Built(isMap, items) => Compound(isMap, ValuesOf(items))
  }

  function ValuesOf(items: seq<Item>): (r: seq<Value>)
    ensures |r| == |items|
  {
    if items == [] then [] else ValuesOf(items[..|items| - 1]) + [ValueOf(items[|items| - 1])]
  }

  function Compound(isMap: bool, values: seq<Value>): Value {
    if isMap then Map(values) else Array(values)
  }

  function CompoundTag(isMap: bool, n: nat): Tag {
    if isMap then MapTag(n / 2) else ArrayTag(n)
  }

  lemma {:induction false} ValueIsWritable(item: Item)
    requires WellNested(item)
    ensures Writable(ValueOf(item))
  {
    match item
    case Leaf(_) =>
    case Started(_, items) => ValuesAreWritable(items);
    case Built(_, items) => ValuesAreWritable(items);
  }

  lemma {:induction false} ValuesAreWritable(items: seq<Item>)
    requires AllWellNested(items)
    ensures AllWritable(ValuesOf(items))
  {
    if items != [] {
      ValuesAreWritable(items[..|items| - 1]);
      ValueIsWritable(items[|items| - 1]);
    }
  }

  /** The one-shot encoding of a compound is its header and then its elements. */
  lemma CompoundEncoding(isMap: bool, values: seq<Value>)
    requires AllWritable(values) && Countable(isMap, |values|)
    ensures Writable(Compound(isMap, values))
    ensures Encode(Compound(isMap, values)) == EncodeTag(CompoundTag(isMap, |values|)) + EncodeAll(values)
  {
    hide EncodeTag, EncodeAll, AllWritable, ValidTag;
    CompoundIsWritable(isMap, values);
  }

  lemma CompoundIsWritable(isMap: bool, values: seq<Value>)
    requires AllWritable(values) && Countable(isMap, |values|)
    ensures Writable(Compound(isMap, values)) && ValidTag(CompoundTag(isMap, |values|))
    ensures TagOf(Compound(isMap, values)) == CompoundTag(isMap, |values|)
  {
  }

  // ---------------------------------------------------------------- counting

  function TrackedTimes(build: Build, n: nat): Build {
    if n == 0 then build else Tracked(TrackedTimes(build, n - 1))
  }

  function AfterElements(marks: seq<Build>, current: Link, n: nat): (r: seq<Build>)
    ensures |r| == |marks|
  {
    if current.To? && current.build < |marks| then marks[current.build := TrackedTimes(marks[current.build], n)]
    else marks
  }

  lemma {:induction false} NestedIsNotCounted(build: Build, n: nat)
    requires build.nested != 0
    ensures TrackedTimes(build, n) == build
  {
    if n > 0 {
      NestedIsNotCounted(build, n - 1);
    }
  }

  /** Counting one by one reaches the number of elements, or of pairs. */
  lemma {:induction false} CountIsExact(build: Build, n: nat)
    requires build.count == 0 && !build.keyNeedsValue && build.nested == 0
    requires (if build.isMap then n / 2 else n) < 0x1_0000_0000
    ensures TrackedTimes(build, n)
            == build.(count := if build.isMap then n / 2 else n, keyNeedsValue := build.isMap && n % 2 == 1)
  {
    if n > 0 {
      CountIsExact(build, n - 1);
    }
  }

  // ------------------------------------------------------------ the main claim

  /** Only builds opened since there were n of them, and that still exist. */
  ghost predicate Since(tokens: seq<Token>, n: nat, m: nat) {
    forall i :: 0 <= i < |tokens| && tokens[i].Open? ==> n <= tokens[i].build < m
  }

  /** Marks of the first n builds. */
  ghost function Firsts(builds: seq<Build>, n: nat): seq<Build> {
    if n <= |builds| then Marks(builds)[..n] else []
  }

  /**
    Performs the run of calls for an item. Outside any build, the item's one-shot
    encoding has been appended; inside one, tokens that resolve to it have been.
   */
  method Emit(w: Writer, item: Item) returns (ghost tokens: seq<Token>)
    requires w.Valid() && w.Ready() && w.flag == Ok && WellNested(item)
    modifies w, w.mem
    ensures w.Valid() && w.Ready() && w.flag == Ok && (w.mem == old(w.mem) || fresh(w.mem))
    ensures w.current == old(w.current)
    ensures |w.builds| >= old(|w.builds|)
    ensures Firsts(w.builds, old(|w.builds|)) == AfterElements(old(Marks(w.builds)), w.current, 1)
    ensures Since(tokens, old(|w.builds|), |w.builds|) && Known(tokens, |w.builds|)
    ensures w.Log() == old(w.Log()) + tokens
    ensures Writable(ValueOf(item)) && Resolved(tokens, w.builds) == Encode(ValueOf(item))
    ensures w.Written() == if w.current.To? then old(w.Written()) else old(w.Written()) + Encode(ValueOf(item))
    decreases item, 1
  {
    ValueIsWritable(item);
    match item
    case Leaf(v) => tokens := EmitLeaf(w, v);
    case Started(isMap, items) => tokens := EmitStarted(w, isMap, items);
    case Built(isMap, items) => tokens := EmitBuilt(w, isMap, items);
  }

  method EmitLeaf(w: Writer, v: Value) returns (ghost tokens: seq<Token>)
    requires w.Valid() && w.Ready() && w.flag == Ok && Writable(v) && !v.Array? && !v.Map?
    modifies w, w.mem
    ensures w.Valid() && w.Ready() && w.flag == Ok && (w.mem == old(w.mem) || fresh(w.mem))
    ensures w.current == old(w.current)
    ensures |w.builds| >= old(|w.builds|)
    ensures Firsts(w.builds, old(|w.builds|)) == AfterElements(old(Marks(w.builds)), w.current, 1)
    ensures Since(tokens, old(|w.builds|), |w.builds|) && Known(tokens, |w.builds|)
    ensures w.Log() == old(w.Log()) + tokens
    ensures Resolved(tokens, w.builds) == Encode(v)
    ensures w.Written() == if w.current.To? then old(w.Written()) else old(w.Written()) + Encode(v)
  {
    hide Writer.Valid, Writer.Ready, Writer.Log, Writer.Written, Marks, EncodeTag, Plain;
    assert Encode(v) == EncodeTag(TagOf(v)) + ContentOf(v);
    if v.Str? {
      w.WriteStr(v.bytes);
    } else if v.Bin? {
      w.WriteBin(v.bytes);
    } else {
      assert Encode(v) == EncodeTag(TagOf(v));
      w.WriteTag(TagOf(v));
    }
    tokens := Plain(Encode(v));
    PlainHasNoBuilds(Encode(v));
    ResolvedPlain(Encode(v), w.builds);
    OneElement(old(Marks(w.builds)), w.current);
  }

  lemma PlainHasNoBuilds(s: seq<byte>)
    ensures forall i :: 0 <= i < |Plain(s)| ==> Plain(s)[i].Byte?
  {
    if s != [] {
      PlainHasNoBuilds(s[..|s| - 1]);
    }
  }

  lemma PlainIsSince(s: seq<byte>, n: nat)
    ensures Since(Plain(s), n, n)
  {
    PlainHasNoBuilds(s);
  }

  lemma OneElement(marks: seq<Build>, current: Link)
    ensures WithElement(marks, current) == AfterElements(marks, current, 1)
  {
    if current.To? && current.build < |marks| {
      assert TrackedTimes(marks[current.build], 1) == Tracked(TrackedTimes(marks[current.build], 0));
    }
  }

  /** Where the writer is once the first i items of a container are through; marks, log and out are from before them. */
  ghost predicate SoFar(w: Writer, items: seq<Item>, i: nat, tokens: seq<Token>, marks: seq<Build>, log: seq<Token>,
                        out: seq<byte>)
    reads w, w.mem
    requires w.Valid() && i <= |items|
  {
    && |w.builds| >= |marks|
    && (w.current.To? ==> w.current.build < |marks|)
    && Firsts(w.builds, |marks|) == AfterElements(marks, w.current, i)
    && Since(tokens, |marks|, |w.builds|) && Known(tokens, |w.builds|)
    && w.Log() == log + tokens
    && AllWritable(ValuesOf(items[..i])) && Resolved(tokens, w.builds) == EncodeAll(ValuesOf(items[..i]))
    && w.Written() == if w.current.To? then out else out + EncodeAll(ValuesOf(items[..i]))
  }

  /** All items of a container, one after another. */
  method EmitAll(w: Writer, items: seq<Item>) returns (ghost tokens: seq<Token>)
    requires w.Valid() && w.Ready() && w.flag == Ok && AllWellNested(items)
    modifies w, w.mem
    ensures w.Valid() && w.Ready() && w.flag == Ok && (w.mem == old(w.mem) || fresh(w.mem))
    ensures w.current == old(w.current)
    ensures |w.builds| >= old(|w.builds|)
    ensures Firsts(w.builds, old(|w.builds|)) == AfterElements(old(Marks(w.builds)), w.current, |items|)
    ensures Since(tokens, old(|w.builds|), |w.builds|) && Known(tokens, |w.builds|)
    ensures w.Log() == old(w.Log()) + tokens
    ensures AllWritable(ValuesOf(items)) && Resolved(tokens, w.builds) == EncodeAll(ValuesOf(items))
    ensures w.Written() == if w.current.To? then old(w.Written()) else old(w.Written()) + EncodeAll(ValuesOf(items))
    decreases items, 1
  {
    hide Writer.Valid, Writer.Ready, Writer.Log, Writer.Written, Marks, SoFar, WellNested;
    tokens := [];
    ghost var marks, log, out := Marks(w.builds), w.Log(), w.Written();
    NothingSoFar(w, items);
    var i := 0;
    while i < |items|
      invariant i <= |items|
      invariant w.Valid() && w.Ready() && w.flag == Ok && (w.mem == old(w.mem) || fresh(w.mem))
      invariant w.current == old(w.current)
      invariant SoFar(w, items, i, tokens, marks, log, out)
    {
      tokens := EmitNext(w, items, i, tokens, marks, log, out);
      i := i + 1;
    }
    AllSoFar(w, items, tokens, marks, log, out);
  }

  method EmitNext(w: Writer, items: seq<Item>, i: nat, ghost tokens: seq<Token>, ghost marks: seq<Build>,
                  ghost log: seq<Token>,
                  ghost out: seq<byte>) returns (ghost all: seq<Token>)
    requires w.Valid() && w.Ready() && w.flag == Ok && i < |items| && WellNested(items[i])
    requires SoFar(w, items, i, tokens, marks, log, out)
    modifies w, w.mem
    ensures w.Valid() && w.Ready() && w.flag == Ok && (w.mem == old(w.mem) || fresh(w.mem))
    ensures w.current == old(w.current)
    ensures SoFar(w, items, i + 1, all, marks, log, out)
    decreases items, 0
  {
    hide Writer.Valid, Writer.Ready, Writer.Log, Writer.Written, Marks, EncodeTag, Plain, Resolved, WellNested;
    hide Firsts, AfterElements, Since, Known, Encode, EncodeAll, ValuesOf, ValueOf, Writable, AllWritable;
    ghost var mid, before := w.builds, w.Log();
    ghost var more := Emit(w, items[i]);
    NextItem(tokens, more, items, marks, w.current, mid, w.builds, i);
    Grouped(log, tokens, more);
    Grouped(out, EncodeAll(ValuesOf(items[..i])), Encode(ValueOf(items[i])));
    all := tokens + more;
  }

  lemma NothingSoFar(w: Writer, items: seq<Item>)
    requires w.Valid()
    ensures SoFar(w, items, 0, [], Marks(w.builds), w.Log(), w.Written())
  {
    hide Writer.Log, Writer.Written, Marks;
    assert items[..0] == [];
    assert w.Log() + [] == w.Log() && w.Written() + [] == w.Written();
    CurrentExists(w);
    NoElements(Marks(w.builds), w.current, w.builds);
  }

  lemma AllSoFar(w: Writer, items: seq<Item>, tokens: seq<Token>, marks: seq<Build>, log: seq<Token>, out: seq<byte>)
    requires w.Valid() && SoFar(w, items, |items|, tokens, marks, log, out)
    ensures |w.builds| >= |marks|
    ensures Firsts(w.builds, |marks|) == AfterElements(marks, w.current, |items|)
    ensures Since(tokens, |marks|, |w.builds|) && Known(tokens, |w.builds|)
    ensures w.Log() == log + tokens
    ensures AllWritable(ValuesOf(items)) && Resolved(tokens, w.builds) == EncodeAll(ValuesOf(items))
    ensures w.Written() == if w.current.To? then out else out + EncodeAll(ValuesOf(items))
  {
    hide Writer.Valid, Writer.Log, Writer.Written;
    assert items[..|items|] == items;
  }

  lemma CurrentExists(w: Writer)
    requires w.Valid()
    ensures w.current.To? ==> w.current.build < |w.builds|
    ensures w.current == Null ==> w.builds == []
  {
  }

  lemma IdleLog(w: Writer)
    requires w.Valid() && w.current == Null
    ensures w.Log() == Plain(w.Written())
  {
  }

  lemma NoElements(marks: seq<Build>, current: Link, builds: seq<Build>)
    requires marks == Marks(builds)
    ensures Firsts(builds, |builds|) == AfterElements(marks, current, 0)
    ensures Since([], |builds|, |builds|) && Known([], |builds|)
    ensures Resolved([], builds) == [] && ValuesOf([]) == [] && AllWritable([]) && EncodeAll([]) == []
  {
  }

  lemma SinceAppends(a: seq<Token>, b: seq<Token>, n: nat, mid: nat, m: nat)
    requires Since(a, n, mid) && Since(b, mid, m) && n <= mid <= m
    ensures Since(a + b, n, m)
  {
  }

  lemma Joins(items: seq<Item>, i: nat)
    requires i < |items| && AllWritable(ValuesOf(items[..i])) && Writable(ValueOf(items[i]))
    ensures AllWritable(ValuesOf(items[..i + 1]))
    ensures EncodeAll(ValuesOf(items[..i + 1])) == EncodeAll(ValuesOf(items[..i])) + Encode(ValueOf(items[i]))
  {
    hide Encode, Writable;
    assert items[..i + 1][..i] == items[..i];
    var values := ValuesOf(items[..i + 1]);
    assert values[..i] == ValuesOf(items[..i]) && values[i] == ValueOf(items[i]);
  }

  /** A later sibling does not touch the builds an earlier one opened. */
  lemma SiblingsAgree(tokens: seq<Token>, n: nat, current: Link, mid: seq<Build>, after: seq<Build>)
    requires Since(tokens, n, |mid|) && Known(tokens, |mid|) && |mid| <= |after|
    requires current.To? ==> current.build < n
    requires Firsts(after, |mid|) == AfterElements(Marks(mid), current, 1)
    ensures Known(tokens, |after|) && Resolved(tokens, after) == Resolved(tokens, mid)
  {
    forall i | 0 <= i < |tokens| && tokens[i].Open?
      ensures BuildTag(mid[tokens[i].build]) == BuildTag(after[tokens[i].build])
    {
      var k := tokens[i].build;
      assert Marks(after)[k] == Firsts(after, |mid|)[k] == Marks(mid)[k];
    }
    ResolvedAgrees(tokens, mid, after);
  }

  lemma AnotherElement(marks: seq<Build>, n: nat, current: Link, mid: seq<Build>, after: seq<Build>, i: nat)
    requires n == |marks| <= |mid| <= |after|
    requires current.To? ==> current.build < n
    requires Firsts(mid, n) == AfterElements(marks, current, i)
    requires Firsts(after, |mid|) == AfterElements(Marks(mid), current, 1)
    ensures Firsts(after, n) == AfterElements(marks, current, i + 1)
  {
    hide Tracked;
    forall k | 0 <= k < n
      ensures Marks(after)[k] == AfterElements(marks, current, i + 1)[k]
    {
      assert Marks(after)[k] == Firsts(after, |mid|)[k];
      assert Marks(mid)[k] == Firsts(mid, n)[k];
      assert TrackedTimes(Marks(mid)[k], 1) == Tracked(TrackedTimes(Marks(mid)[k], 0));
    }
  }

  /** One more item after the first i, as its writes show in the log and in the builds. */
  lemma NextItem(tokens: seq<Token>, more: seq<Token>, items: seq<Item>, marks: seq<Build>, current: Link,
                 mid: seq<Build>, after: seq<Build>, i: nat)
    requires i < |items| && |marks| <= |mid| <= |after|
    requires current.To? ==> current.build < |marks|
    requires Since(tokens, |marks|, |mid|) && Known(tokens, |mid|) && Since(more, |mid|, |after|)
               && Known(more, |after|)
    requires Firsts(mid, |marks|) == AfterElements(marks, current, i)
    requires Firsts(after, |mid|) == AfterElements(Marks(mid), current, 1)
    requires AllWritable(ValuesOf(items[..i])) && Resolved(tokens, mid) == EncodeAll(ValuesOf(items[..i]))
    requires Writable(ValueOf(items[i])) && Resolved(more, after) == Encode(ValueOf(items[i]))
    ensures Firsts(after, |marks|) == AfterElements(marks, current, i + 1)
    ensures Since(tokens + more, |marks|, |after|) && Known(tokens + more, |after|)
    ensures AllWritable(ValuesOf(items[..i + 1]))
    ensures EncodeAll(ValuesOf(items[..i + 1])) == EncodeAll(ValuesOf(items[..i])) + Encode(ValueOf(items[i]))
    ensures Resolved(tokens + more, after) == EncodeAll(ValuesOf(items[..i + 1]))
  {
    hide Firsts, AfterElements, Encode, EncodeAll, Resolved, Writable;
    Joins(items, i);
    SiblingsAgree(tokens, |marks|, current, mid, after);
    SinceAppends(tokens, more, |marks|, |mid|, |after|);
    AnotherElement(marks, |marks|, current, mid, after, i);
    ResolvedAppends(tokens, more, after);
  }

  /** start, elements, finish. */
  method EmitStarted(w: Writer, isMap: bool, items: seq<Item>) returns (ghost tokens: seq<Token>)
    requires w.Valid() && w.Ready() && w.flag == Ok
    requires Countable(isMap, |items|) && AllWellNested(items)
    requires Writable(Compound(isMap, ValuesOf(items)))
    modifies w, w.mem
    ensures w.Valid() && w.Ready() && w.flag == Ok && (w.mem == old(w.mem) || fresh(w.mem))
    ensures w.current == old(w.current)
    ensures |w.builds| >= old(|w.builds|)
    ensures Firsts(w.builds, old(|w.builds|)) == AfterElements(old(Marks(w.builds)), w.current, 1)
    ensures Since(tokens, old(|w.builds|), |w.builds|) && Known(tokens, |w.builds|)
    ensures w.Log() == old(w.Log()) + tokens
    ensures Resolved(tokens, w.builds) == Encode(Compound(isMap, ValuesOf(items)))
    ensures w.Written() == if w.current.To? then old(w.Written())
                           else old(w.Written()) + Encode(Compound(isMap, ValuesOf(items)))
    decreases items, 2
  {
    hide Writer.Valid, Writer.Ready, Writer.Log, Writer.Written, Marks, EncodeTag, Plain, Resolved;
    hide Firsts, AfterElements, WithElement, WithNesting, Since, Known, EncodeAll, ValuesOf, Encode, Writable,
         WellNested;
    ghost var marks, current, log, out := Marks(w.builds), w.current, w.Log(), w.Written();
    ghost var values, head := ValuesOf(items), EncodeTag(CompoundTag(isMap, |items|));
    CurrentExists(w);
    w.StartCompound(isMap, if isMap then |items| / 2 else |items|);
    ghost var elements := EmitAll(w, items);
    ghost var before := w.builds;
    CurrentExists(w);
    NestedElements(marks, current, |items|, before);
    w.CompoundPop();
    StartedItem(marks, current, isMap, items, elements, before, w.builds);
    Grouped(log, Plain(head), elements);
    Grouped(out, head, EncodeAll(values));
    tokens := Plain(head) + elements;
  }

  /** What starting a container, emitting its items and finishing it adds to the log, and does to the builds. */
  lemma StartedItem(marks: seq<Build>, current: Link, isMap: bool, items: seq<Item>, elements: seq<Token>,
                    before: seq<Build>, after: seq<Build>)
    requires |marks| <= |before| && (current.To? ==> current.build < |marks|)
    requires Firsts(before, |marks|) == WithNesting(WithElement(marks, current), current, 1)
    requires Marks(after) == WithNesting(Marks(before), current, -1)
    requires Countable(isMap, |items|) && AllWritable(ValuesOf(items))
    requires Since(elements, |marks|, |before|) && Known(elements, |before|)
    requires Resolved(elements, before) == EncodeAll(ValuesOf(items))
    ensures |after| == |before| && Firsts(after, |marks|) == AfterElements(marks, current, 1)
    ensures var head := EncodeTag(CompoundTag(isMap, |items|));
            var tokens := Plain(head) + elements;
            && Since(tokens, |marks|, |after|) && Known(tokens, |after|)
            && Writable(Compound(isMap, ValuesOf(items)))
            && Encode(Compound(isMap, ValuesOf(items))) == head + EncodeAll(ValuesOf(items))
            && Resolved(tokens, after) == Encode(Compound(isMap, ValuesOf(items)))
  {
    hide Firsts, AfterElements, WithElement, WithNesting, Resolved, Plain, EncodeTag, EncodeAll, ValuesOf,
         Writable, Encode;
    Unnested(marks, current, before, after);
    NestingAgrees(elements, current, before, after);
    StartedResolves(isMap, items, elements, after, |marks|);
  }

  lemma StartedResolves(isMap: bool, items: seq<Item>, elements: seq<Token>, builds: seq<Build>, n: nat)
    requires Countable(isMap, |items|) && AllWritable(ValuesOf(items)) && n <= |builds|
    requires Since(elements, n, |builds|) && Known(elements, |builds|)
    requires Resolved(elements, builds) == EncodeAll(ValuesOf(items))
    ensures var head := EncodeTag(CompoundTag(isMap, |items|));
            var tokens := Plain(head) + elements;
            && Since(tokens, n, |builds|) && Known(tokens, |builds|)
            && Writable(Compound(isMap, ValuesOf(items)))
            && Encode(Compound(isMap, ValuesOf(items))) == head + EncodeAll(ValuesOf(items))
            && Resolved(tokens, builds) == Encode(Compound(isMap, ValuesOf(items)))
  {
    hide Resolved, Plain, EncodeTag, EncodeAll, ValuesOf, Writable, Encode;
    var head := EncodeTag(CompoundTag(isMap, |items|));
    CompoundEncoding(isMap, ValuesOf(items));
    PlainIsSince(head, n);
    SinceAppends(Plain(head), elements, n, n, |builds|);
    ResolvedPlain(head, builds);
    ResolvedAppends(Plain(head), elements, builds);
  }

  /** Elements inside a started container leave the enclosing build's count alone. */
  lemma NestedElements(marks: seq<Build>, current: Link, k: nat, before: seq<Build>)
    requires |marks| <= |before|
    requires current.To? ==> current.build < |marks|
    requires Firsts(before, |marks|)
             == AfterElements(WithNesting(WithElement(marks, current), current, 1), current, k)
    ensures Firsts(before, |marks|) == WithNesting(WithElement(marks, current), current, 1)
    ensures current.To? ==> before[current.build].nested > 0
  {
    hide Tracked;
    var started := WithNesting(WithElement(marks, current), current, 1);
    if current.To? {
      NestedIsNotCounted(started[current.build], k);
      assert Firsts(before, |marks|)[current.build] == Mark(before[current.build]);
    }
  }

  lemma Unnested(marks: seq<Build>, current: Link, before: seq<Build>, after: seq<Build>)
    requires |marks| <= |before|
    requires current.To? ==> current.build < |marks|
    requires Firsts(before, |marks|) == WithNesting(WithElement(marks, current), current, 1)
    requires Marks(after) == WithNesting(Marks(before), current, -1)
    ensures |after| == |before| && Firsts(after, |marks|) == AfterElements(marks, current, 1)
  {
    hide Tracked;
    OneElement(marks, current);
    assert |Marks(after)| == |after|;
    forall k | 0 <= k < |marks|
      ensures Marks(after)[k] == WithElement(marks, current)[k]
    {
      assert Firsts(before, |marks|)[k] == Marks(before)[k];
    }
  }

  lemma NestingAgrees(tokens: seq<Token>, current: Link, before: seq<Build>, after: seq<Build>)
    requires Known(tokens, |before|) && |after| == |before|
    requires Marks(after) == WithNesting(Marks(before), current, -1)
    ensures Known(tokens, |after|) && Resolved(tokens, after) == Resolved(tokens, before)
  {
    forall i | 0 <= i < |tokens| && tokens[i].Open?
      ensures BuildTag(before[tokens[i].build]) == BuildTag(after[tokens[i].build])
    {
      assert Marks(after)[tokens[i].build] == WithNesting(Marks(before), current, -1)[tokens[i].build];
    }
    ResolvedAgrees(tokens, before, after);
  }

  /** build, elements, complete. */
  method EmitBuilt(w: Writer, isMap: bool, items: seq<Item>) returns (ghost tokens: seq<Token>)
    requires w.Valid() && w.Ready() && w.flag == Ok
    requires Countable(isMap, |items|) && AllWellNested(items)
    requires Writable(Compound(isMap, ValuesOf(items)))
    modifies w, w.mem
    ensures w.Valid() && w.Ready() && w.flag == Ok && (w.mem == old(w.mem) || fresh(w.mem))
    ensures w.current == old(w.current)
    ensures |w.builds| >= old(|w.builds|)
    ensures Firsts(w.builds, old(|w.builds|)) == AfterElements(old(Marks(w.builds)), w.current, 1)
    ensures Since(tokens, old(|w.builds|), |w.builds|) && Known(tokens, |w.builds|)
    ensures w.Log() == old(w.Log()) + tokens
    ensures Resolved(tokens, w.builds) == Encode(Compound(isMap, ValuesOf(items)))
    ensures w.Written() == if w.current.To? then old(w.Written())
                           else old(w.Written()) + Encode(Compound(isMap, ValuesOf(items)))
    decreases items, 2
  {
    hide Writer.Valid, Writer.Ready, Writer.Log, Writer.Written, Writer.Told, Marks, EncodeTag, Plain, Resolved;
    hide Firsts, AfterElements, WithElement, Since, Known, EncodeAll, ValuesOf, Encode, Writable, WellNested;
    ghost var n, marks, current := |w.builds|, Marks(w.builds), w.current;
    ghost var out, log := w.Written(), w.Log();
    CurrentExists(w);
    if current == Null {
      IdleLog(w);
    }
    w.BuilderBuild(isMap);
    ghost var elements := EmitAll(w, items);
    ghost var before := w.builds;
    BuiltCounts(marks, current, isMap, |items|, before);
    BuiltResolves(isMap, items, elements, before, n);
    tokens := [Open(n)] + elements;
    LogSplits(w, out, log, tokens);
    w.BuilderComplete();
    if current.To? {
      SameMarksResolve(tokens, before, w.builds);
      SameFirsts(before, w.builds, n);
    } else {
      CurrentExists(w);
      tokens := Plain(Encode(Compound(isMap, ValuesOf(items))));
      OutermostEnds(w, out, log, marks, Encode(Compound(isMap, ValuesOf(items))));
    }
  }

  /** The build's own count is exact, and its parent has gained one element. */
  lemma BuiltCounts(marks: seq<Build>, current: Link, isMap: bool, k: nat, before: seq<Build>)
    requires |marks| < |before| && Countable(isMap, k)
    requires current.To? ==> current.build < |marks|
    requires Firsts(before, |marks| + 1)
             == AfterElements(WithElement(marks, current) + [Build(current, isMap, 0, 0, false, 0)], To(|marks|), k)
    ensures Firsts(before, |marks|) == AfterElements(marks, current, 1)
    ensures BuildTag(before[|marks|]) == CompoundTag(isMap, k)
    ensures var build := before[|marks|]; !build.keyNeedsValue && build.nested == 0 && build.parent == current
  {
    var n := |marks|;
    CountIsExact(Build(current, isMap, 0, 0, false, 0), k);
    OneElement(marks, current);
    assert Firsts(before, n + 1)[n] == Mark(before[n]);
    hide Tracked;
    assert Firsts(before, n) == Firsts(before, n + 1)[..n];
  }

  lemma BuiltResolves(isMap: bool, items: seq<Item>, elements: seq<Token>, builds: seq<Build>, n: nat)
    requires Countable(isMap, |items|) && AllWritable(ValuesOf(items)) && n < |builds|
    requires BuildTag(builds[n]) == CompoundTag(isMap, |items|)
    requires Since(elements, n + 1, |builds|) && Known(elements, |builds|)
    requires Resolved(elements, builds) == EncodeAll(ValuesOf(items))
    ensures var tokens := [Open(n)] + elements;
            && Since(tokens, n, |builds|) && Known(tokens, |builds|)
            && Writable(Compound(isMap, ValuesOf(items)))
            && Resolved(tokens, builds) == Encode(Compound(isMap, ValuesOf(items)))
  {
    hide Plain, EncodeTag, EncodeAll, ValuesOf, Writable, Encode, BuildTag;
    CompoundEncoding(isMap, ValuesOf(items));
    var open := [Open(n)];
    assert Resolved(open, builds) == EncodeTag(BuildTag(builds[n])) by {
      assert open[..0] == [];
    }
    hide Resolved;
    ResolvedAppends(open, elements, builds);
  }

  /** With nothing new in the real buffer, the open builds hold exactly what was added to the log. */
  lemma LogSplits(w: Writer, out: seq<byte>, log: seq<Token>, tokens: seq<Token>)
    requires w.Valid() && w.Written() == out && w.Log() == log + tokens
    ensures log == Plain(out) ==> w.Told() == tokens
  {
    hide Writer.Valid, Writer.Written, Writer.Told;
    if log == Plain(out) {
      assert w.Told() == w.Log()[|Plain(out)|..];
    }
  }

  lemma SameFirsts(a: seq<Build>, b: seq<Build>, n: nat)
    requires Marks(a) == Marks(b)
    ensures Firsts(a, n) == Firsts(b, n)
  {
    assert |Marks(a)| == |a| && |Marks(b)| == |b|;
  }

  lemma OutermostEnds(w: Writer, out: seq<byte>, log: seq<Token>, marks: seq<Build>, bytes: seq<byte>)
    requires w.Valid() && w.current == Null && marks == []
    requires log == Plain(out) && w.Written() == out + bytes
    ensures w.Log() == log + Plain(bytes)
    ensures Firsts(w.builds, 0) == AfterElements(marks, w.current, 1)
    ensures Since(Plain(bytes), 0, |w.builds|) && Known(Plain(bytes), |w.builds|)
    ensures Resolved(Plain(bytes), w.builds) == bytes
  {
    hide Resolved;
    PlainAppends(out, bytes);
    PlainIsSince(bytes, 0);
    ResolvedPlain(bytes, w.builds);
    hide Plain;
  }
}
