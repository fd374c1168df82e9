/**
  What a writer has been told so far, as tokens: bytes already encoded, and
  containers whose counts are still open.
 */
module Tokens {
  import opened Format
  import opened Wrappers
  import opened Encoding
  import opened BuildPages

  datatype Token = Byte(b: byte) | Open(build: nat)

  function Plain(s: seq<byte>): (t: seq<Token>)
    ensures |t| == |s|
  {
    if s == [] then [] else Plain(s[..|s| - 1]) + [Byte(s[|s| - 1])]
  }

  lemma {:induction false} PlainAppends(a: seq<byte>, b: seq<byte>)
    ensures Plain(a + b) == Plain(a) + Plain(b)
    decreases |b|
  {
    if b == [] {
      assert a + b == a;
    } else {
      assert (a + b)[..|a + b| - 1] == a + b[..|b| - 1];
      PlainAppends(a, b[..|b| - 1]);
    }
  }

  /** The header a build ends up with. */
  function BuildTag(build: Build): (tag: Tag)
    ensures ValidTag(tag)
  {
    if build.isMap then MapTag(build.count) else ArrayTag(build.count)
  }

  predicate Known(tokens: seq<Token>, n: nat) {
    forall i :: 0 <= i < |tokens| && tokens[i].Open? ==> tokens[i].build < n
  }

  function BytesOf(token: Token, builds: seq<Build>): seq<byte>
    requires token.Open? ==> token.build < |builds|
  {
    match token
    case Byte(b) => [b]
    case Open(k) => EncodeTag(BuildTag(builds[k]))
  }

  /** The bytes the tokens stand for once the builds have their final counts. */
  function Resolved(tokens: seq<Token>, builds: seq<Build>): seq<byte>
    requires Known(tokens, |builds|)
  {
    if tokens == [] then []
    else Resolved(tokens[..|tokens| - 1], builds) + BytesOf(tokens[|tokens| - 1], builds)
  }

  lemma ResolvedSnoc(tokens: seq<Token>, token: Token, builds: seq<Build>)
    requires Known(tokens, |builds|) && (token.Open? ==> token.build < |builds|)
    ensures Known(tokens + [token], |builds|)
    ensures Resolved(tokens + [token], builds) == Resolved(tokens, builds) + BytesOf(token, builds)
  {
    hide BytesOf;
    assert (tokens + [token])[..|tokens|] == tokens;
  }

  lemma ResolvedNothing(builds: seq<Build>)
    ensures Known([], |builds|) && Resolved([], builds) == []
  {
  }

  lemma {:induction false} ResolvedAppends(a: seq<Token>, b: seq<Token>, builds: seq<Build>)
    requires Known(a, |builds|) && Known(b, |builds|)
    ensures Known(a + b, |builds|)
    ensures Resolved(a + b, builds) == Resolved(a, builds) + Resolved(b, builds)
    decreases |b|
  {
    hide Resolved, BytesOf;
    if b == [] {
      assert a + b == a;
      ResolvedNothing(builds);
    } else {
      var front, last := b[..|b| - 1], b[|b| - 1];
      assert a + b == (a + front) + [last] && b == front + [last];
      ResolvedAppends(a, front, builds);
      ResolvedSnoc(a + front, last, builds);
      ResolvedSnoc(front, last, builds);
      Grouped(Resolved(a, builds), Resolved(front, builds), BytesOf(last, builds));
    }
  }

  lemma {:induction false} ResolvedPlain(s: seq<byte>, builds: seq<Build>)
    ensures Known(Plain(s), |builds|) && Resolved(Plain(s), builds) == s
  {
    hide Resolved, EncodeTag;
    if s == [] {
      ResolvedNothing(builds);
    } else {
      var front, last := s[..|s| - 1], s[|s| - 1];
      ResolvedPlain(front, builds);
      assert Plain(s) == Plain(front) + [Byte(last)];
      ResolvedSnoc(Plain(front), Byte(last), builds);
      assert s == front + [last];
    }
  }

  /** Only the type and count of the builds that occur matter. */
  lemma {:induction false} ResolvedAgrees(tokens: seq<Token>, a: seq<Build>, b: seq<Build>)
    requires Known(tokens, |a|) && Known(tokens, |b|)
    requires forall i :: 0 <= i < |tokens| && tokens[i].Open? ==>
               BuildTag(a[tokens[i].build]) == BuildTag(b[tokens[i].build])
    ensures Resolved(tokens, a) == Resolved(tokens, b)
    decreases |tokens|
  {
    hide EncodeTag, BuildTag;
    if tokens != [] {
      ResolvedAgrees(tokens[..|tokens| - 1], a, b);
    }
  }

  /** The tokens of all builds, in creation order. */
  function LogOf(contents: seq<seq<byte>>): seq<Token> {
    if contents == [] then []
    else LogOf(contents[..|contents| - 1]) + [Open(|contents| - 1)] + Plain(contents[|contents| - 1])
  }

  lemma LogGrows(contents: seq<seq<byte>>, more: seq<byte>)
    requires contents != []
    ensures LogOf(contents[|contents| - 1 := contents[|contents| - 1] + more]) == LogOf(contents) + Plain(more)
  {
    var last := |contents| - 1;
    var later := contents[last := contents[last] + more];
    assert later[..last] == contents[..last];
    PlainAppends(contents[last], more);
  }

  lemma LogOpens(contents: seq<seq<byte>>)
    ensures LogOf(contents + [[]]) == LogOf(contents) + [Open(|contents|)]
  {
    assert (contents + [[]])[..|contents|] == contents;
  }

  /** The output of the walk over the first k builds. */
  function Rendered(contents: seq<seq<byte>>, builds: seq<Build>, k: nat): seq<byte>
    requires k <= |contents| == |builds|
  {
    if k == 0 then []
    else Rendered(contents, builds, k - 1) + EncodeTag(BuildTag(builds[k - 1])) + contents[k - 1]
  }

  lemma {:induction false} RenderedIsResolved(contents: seq<seq<byte>>, builds: seq<Build>, k: nat)
    requires k <= |contents| == |builds|
    ensures Known(LogOf(contents[..k]), |builds|)
    ensures Rendered(contents, builds, k) == Resolved(LogOf(contents[..k]), builds)
  {
    hide Resolved, Plain, LogOf, Known;
    if k > 0 {
      var before, open := LogOf(contents[..k - 1]), Open(k - 1);
      RenderedIsResolved(contents, builds, k - 1);
      LogSplits(contents, k);
      ResolvedSnoc(before, open, builds);
      ResolvedPlain(contents[k - 1], builds);
      ResolvedAppends(before + [open], Plain(contents[k - 1]), builds);
    } else {
      assert contents[..k] == [];
      NothingLogged();
      ResolvedNothing(builds);
    }
  }

  lemma NothingLogged()
    ensures LogOf([]) == []
  {
  }

  lemma LogSplits(contents: seq<seq<byte>>, k: nat)
    requires 0 < k <= |contents|
    ensures LogOf(contents[..k]) == LogOf(contents[..k - 1]) + [Open(k - 1)] + Plain(contents[k - 1])
  {
    hide Plain;
    assert contents[..k][..k - 1] == contents[..k - 1];
  }
}
