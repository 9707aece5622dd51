/** The other promises of the splitter: every chunk fits, nothing is lost or doubled,
    and what happens outside the premise on headers. */
module SplitterLaws {
  import opened Common
  import opened Text
  import opened Splitter
  import FenceBalance
  import opened Termination

  // ---------------------------------------------------------------- every chunk fits

  lemma {:induction false} ChunkFits(s: string, maxLen: nat)
    requires 1 <= maxLen < |s| && InRange(s, NextCut(s, maxLen))
    ensures 1 <= |ChunkOf(s, NextCut(s, maxLen))| <= maxLen
  {
    hide HeaderAt, NextCut;
    CutBounds(s, maxLen);
  }

  lemma {:induction false} ChunksFitIn(s: string, n: nat, maxLen: nat)
    requires maxLen >= 1 && EndsIn(s, n, maxLen) && Ends(s, maxLen)
    ensures forall chunk <- Split(s, maxLen) :: 1 <= |chunk| <= maxLen
    decreases n
  {
    hide NextCut, ChunkOf, RestOf, Split, EndsIn, Ends;
    if |s| <= maxLen {
      SplitShort(s, maxLen);
    } else {
      SplitUnfolds(s, n, maxLen);
      ChunkFits(s, maxLen);
      ChunksFitIn(RestOf(s, NextCut(s, maxLen)), n - 1, maxLen);
    }
  }

  /** Every chunk is sent within the limit, closing fence included, and none is empty. */
  lemma ChunksFit(s: string, maxLen: nat)
    requires maxLen >= 1 && Ends(s, maxLen)
    ensures forall chunk <- Split(s, maxLen) :: 1 <= |chunk| <= maxLen
  {
    hide Split, EndsIn;
    var n: nat :| EndsIn(s, n, maxLen);
    ChunksFitIn(s, n, maxLen);
  }

  // ---------------------------------------------------------------- nothing is lost or doubled

  /** How one chunk was put together: re-opened header text first, then a stretch of the
      source, then an injected closing fence when the cut fell inside a block. `header` is the
      fence line such a cut re-opens with. */
  datatype Piece = Piece(head: string, body: string, tail: string, header: string) {
    function Text(): string { head + body + tail }
  }

  function Texts(ps: seq<Piece>): seq<string> {
    if ps == [] then [] else [ps[0].Text()] + Texts(ps[1..])
  }

  /** The pieces with everything injected deleted, joined. */
  function Bodies(ps: seq<Piece>): string {
    if ps == [] then "" else ps[0].body + Bodies(ps[1..])
  }

  /** One string continues the other. */
  predicate Comparable(a: string, b: string) { a <= b || b <= a }

  /** `header` is a fence line that starts in `sent` (and may run past its end). */
  ghost predicate OpensIn(header: string, sent: string) {
    exists u :: IsFence(sent, u) && Comparable(header, sent[u..])
  }

  /** Only re-opened headers are injected, each once: `owed` is the header text that has been
      promised by an earlier cut and not sent yet. A head is a piece of what is owed; source
      text follows only when nothing is owed any more; a header becomes owed only when a
      closing fence was injected into a chunk in which that header's block opens. */
  ghost predicate Marked(ps: seq<Piece>, owed: string)
    decreases |ps|
  {
    if ps == [] then owed == ""
    else
      var p := ps[0];
      && p.head <= owed
      && (p.body != "" ==> p.head == owed)
      && if p.tail == ""
         then p.header == "" && Marked(ps[1..], SkipFront(owed[|p.head|..], IsBlank))
         else p.tail == CLOSING && p.head == owed && OpensIn(p.header, p.head + p.body) && Marked(ps[1..], p.header)
  }

  /** The first `owed` runes of `s` are a header still to be re-sent: no newline inside, ink at its end. */
  ghost predicate IsOwed(s: string, owed: nat, maxLen: nat) {
    && owed <= |s| && owed <= maxLen
    && (owed > 0 ==> owed <= maxLen - 7 && !IsSpace(s[owed - 1]))
    && forall i :: 0 <= i < owed ==> s[i] != '\n'
  }

  ghost function PieceOf(s: string, c: Cut, owed: nat): Piece
    requires 0 <= c.k <= |s| && owed <= |s|
    requires c.Reopen? ==> c.fence >= 0 && IsFence(s, c.fence) && owed <= |TrimEnd(s[..c.k], IsBlank)|
  {
    match c
    case Plain(k) => Piece(s[..Min(k, owed)], s[Min(k, owed)..k], "", "")
    case Reopen(k, u) => Piece(s[..owed], TrimEnd(s[..k], IsBlank)[owed..], CLOSING, HeaderAt(s, u))
  }

  /** What is owed in front of the rest. */
  ghost function OwedAfter(s: string, c: Cut, owed: nat): nat
    requires 0 <= c.k <= |s|
    requires c.Reopen? ==> c.fence >= 0 && IsFence(s, c.fence)
  {
    match c
    case Plain(k) =>
      var dropped := |s| - k - |RestOf(s, c)|;
      if owed <= k + dropped then 0 else owed - k - dropped
    case Reopen(_, u) => |HeaderAt(s, u)|
  }

  ghost function Layout(s: string, owed: nat, maxLen: nat): seq<Piece>
    requires maxLen >= 1 && Orderly(s, maxLen) && IsOwed(s, owed, maxLen)
    decreases |s|
  {
    if s == "" then []
    else if |s| <= maxLen then [Piece(s[..owed], s[owed..], "", "")]
    else
      OrderlyCut(s, maxLen);
      var c := NextCut(s, maxLen);
      OwedIsSent(s, maxLen, owed);
      OwedStays(s, maxLen, c, owed);
      [PieceOf(s, c, owed)] + Layout(RestOf(s, c), OwedAfter(s, c, owed), maxLen)
  }

  /** A re-opening cut always reaches past the header that is still owed. */
  lemma {:induction false} OwedIsSent(s: string, maxLen: nat, owed: nat)
    requires 1 <= maxLen < |s| && Orderly(s, maxLen) && IsOwed(s, owed, maxLen)
    ensures var c := NextCut(s, maxLen);
            && 0 <= c.k <= |s|
            && (c.Reopen? ==> c.fence >= 0 && IsFence(s, c.fence) && owed <= |TrimEnd(s[..c.k], IsBlank)|)
  {
    hide Orderly, HeaderAt, NextCut;
    OrderlyCut(s, maxLen);
    var c := NextCut(s, maxLen);
    if c.Reopen? {
      ReopenAtNewlineOrLimit(s, maxLen);
      var r := TrimEnd(s[..c.k], IsBlank);
      assert owed > 0 ==> owed <= c.k && s[..c.k][owed - 1] == s[owed - 1];
    }
  }

  lemma {:induction false} ReopenAtNewlineOrLimit(s: string, maxLen: nat)
    requires 1 <= maxLen < |s| && Orderly(s, maxLen) && NextCut(s, maxLen).Reopen?
    ensures var k := NextCut(s, maxLen).k; 0 <= k < |s| && (k == maxLen - 5 || s[k] == '\n')
  {
    hide Orderly, HeaderAt, Unclosed, NaturalEnd;
    OrderlyCut(s, maxLen);
  }

  /** Plain cuts keep the owed invariant; a re-opening one starts it afresh. */
  lemma {:induction false} OwedStays(s: string, maxLen: nat, c: Cut, owed: nat)
    requires IsOwed(s, owed, maxLen) && InRange(s, c)
    requires c.Reopen? ==> |HeaderAt(s, c.fence)| <= maxLen - 7
    ensures IsOwed(RestOf(s, c), OwedAfter(s, c, owed), maxLen)
  {
    hide HeaderAt, IsOwed;
    if c.Plain? {
      OwedSuffix(s, |s| - |RestOf(s, c)|, owed, maxLen);
    } else {
      ReopenedOwes(s, c.k, c.fence, maxLen);
    }
  }

  lemma {:induction false} OwedSuffix(s: string, at: nat, owed: nat, maxLen: nat)
    requires at <= |s| && IsOwed(s, owed, maxLen)
    ensures IsOwed(s[at..], if owed <= at then 0 else owed - at, maxLen)
  {
  }

  lemma {:induction false} ReopenedOwes(s: string, k: nat, u: nat, maxLen: nat)
    requires k <= |s| && IsFence(s, u) && |HeaderAt(s, u)| <= maxLen - 7
    ensures IsOwed(RestOf(s, Reopen(k, u)), |HeaderAt(s, u)|, maxLen)
  {
    hide HeaderAt, RestOf;
    HeaderFacts(s, u);
    ReopenedStart(s, k, u);
  }

  /** The rest after re-opening begins with the whole header. */
  lemma {:induction false} ReopenedStart(s: string, k: nat, u: nat)
    requires k <= |s| && IsFence(s, u)
    ensures HeaderAt(s, u) <= RestOf(s, Reopen(k, u))
  {
    hide HeaderAt, IsSpace, TrimEnd, TrimSpace, HeaderEnd, HeaderLine;
    HeaderFacts(s, u);
    assert !IsSpace('`') by { TickIsInk(); }
    TrimKeepsStart(HeaderAt(s, u), "\n" + s[k..]);
    assert HeaderAt(s, u) + "\n" + s[k..] == HeaderAt(s, u) + ("\n" + s[k..]);
  }

  lemma TickIsInk()
    ensures !IsSpace('`')
  {
  }

  lemma {:induction false} TrimKeepsStart(h: string, t: string)
    requires h != "" && !IsSpace(h[0]) && !IsSpace(h[|h| - 1])
    ensures h <= TrimSpace(h + t)
  {
    hide IsSpace, TrimSpace, TrimEnd;
    var r := TrimSpace(h + t);
    assert (h + t)[0] == h[0];
    assert r == TrimEnd(h + t, IsSpace);
    assert (h + t)[|h| - 1] == h[|h| - 1];
    assert |r| >= |h|;
    assert (h + t)[..|h|] == h;
  }

  lemma {:induction false} PieceText(s: string, c: Cut, owed: nat)
    requires 0 <= c.k <= |s| && owed <= |s|
    requires c.Reopen? ==> c.fence >= 0 && IsFence(s, c.fence) && owed <= |TrimEnd(s[..c.k], IsBlank)|
    ensures PieceOf(s, c, owed).Text() == ChunkOf(s, c)
  {
    hide HeaderAt;
    match c {
      case Plain(k) => assert s[..Min(k, owed)] + s[Min(k, owed)..k] + "" == s[..k];
      case Reopen(k, u) =>
        var r := TrimEnd(s[..k], IsBlank);
        assert s[..owed] == r[..owed];
        assert r[..owed] + r[owed..] == r;
    }
  }

  /** The ink of the source text a cut takes, and of what it leaves, add up. */
  lemma {:induction false} CutKeepsInk(s: string, c: Cut, owed: nat)
    requires 0 <= c.k <= |s| && owed <= |s| && (owed > 0 ==> !IsSpace(s[owed - 1]))
    requires c.Reopen? ==> c.fence >= 0 && IsFence(s, c.fence) && owed <= |TrimEnd(s[..c.k], IsBlank)|
    requires OwedAfter(s, c, owed) <= |RestOf(s, c)|
    ensures Ink(s[owed..]) == Ink(PieceOf(s, c, owed).body) + Ink(RestOf(s, c)[OwedAfter(s, c, owed)..])
  {
    match c {
      case Plain(k) => PlainKeepsInk(s, k, owed);
      case Reopen(k, u) => ReopenKeepsInk(s, k, u, owed);
    }
  }

  lemma {:induction false} PlainKeepsInk(s: string, k: nat, owed: nat)
    requires k <= |s| && owed <= |s| && (owed > 0 ==> !IsSpace(s[owed - 1]))
    requires OwedAfter(s, Plain(k), owed) <= |RestOf(s, Plain(k))|
    ensures Ink(s[owed..]) == Ink(s[Min(k, owed)..k]) + Ink(RestOf(s, Plain(k))[OwedAfter(s, Plain(k), owed)..])
  {
    hide Ink, SkipFront;
    var r := SkipFront(s[k..], IsBlank);
    if owed <= k {
      assert s[owed..] == s[owed..k] + s[k..];
      InkConcat(s[owed..k], s[k..]);
      InkOfSkipFront(s[k..], IsBlank);
      assert r[0..] == r;
    } else {
      var at := |s| - |r|;
      assert r == s[at..];
      assert owed > at by {
        assert s[k..][owed - 1 - k] == s[owed - 1];
      }
      assert s[owed..] == r[owed - at..];
      assert Ink(s[k..k]) == "" by { InkOfSpaces(s[k..k]); }
    }
  }

  lemma {:induction false} ReopenKeepsInk(s: string, k: nat, u: nat, owed: nat)
    requires k <= |s| && IsFence(s, u) && owed <= |TrimEnd(s[..k], IsBlank)|
    ensures Ink(s[owed..]) == Ink(TrimEnd(s[..k], IsBlank)[owed..])
                              + (ReopenedStart(s, k, u); Ink(RestOf(s, Reopen(k, u))[|HeaderAt(s, u)|..]))
  {
    hide Ink, HeaderAt, TrimEnd, TrimSpace;
    TrimmedTailInk(s, k, owed);
    ReopenedStart(s, k, u);
    HeaderFacts(s, u);
    TickIsInk();
    assert !IsSpace(HeaderAt(s, u)[0]);
    RestInk(HeaderAt(s, u), s[k..]);
  }

  lemma {:induction false} TrimmedTailInk(s: string, k: nat, owed: nat)
    requires k <= |s| && owed <= |TrimEnd(s[..k], IsBlank)|
    ensures Ink(s[owed..]) == Ink(TrimEnd(s[..k], IsBlank)[owed..]) + Ink(s[k..])
  {
    hide Ink, TrimEnd;
    var x := s[..k];
    var r := TrimEnd(x, IsBlank);
    assert r[owed..] + x[|r|..] == x[owed..];
    InkConcat(r[owed..], x[|r|..]);
    InkOfSpaces(x[|r|..]);
    assert x[owed..] + s[k..] == s[owed..];
    InkConcat(x[owed..], s[k..]);
  }

  lemma {:induction false} RestInk(h: string, t: string)
    requires h != "" && !IsSpace(h[0]) && h <= TrimSpace(h + "\n" + t)
    ensures Ink(TrimSpace(h + "\n" + t)[|h|..]) == Ink(t)
  {
    hide Ink, TrimEnd;
    var whole := h + "\n" + t;
    assert whole[0] == h[0];
    var r := TrimSpace(whole);
    InkOfTrimEnd(whole, IsSpace);
    assert h + r[|h|..] == r;
    InkConcat(h, r[|h|..]);
    assert whole == h + ("\n" + t);
    InkConcat(h, "\n" + t);
    InkConcat("\n", t);
    InkOfSpaces("\n");
    assert "" + Ink(t) == Ink(t);
    assert (Ink(h) + Ink(r[|h|..]))[|Ink(h)|..] == (Ink(h) + Ink(t))[|Ink(h)|..];
  }

  lemma {:induction false} ReopenIsMarked(s: string, k: nat, u: nat, owed: nat)
    requires IsFence(s, u) && u + 3 <= k <= |s| && owed <= |TrimEnd(s[..k], IsBlank)|
    ensures var p := PieceOf(s, Reopen(k, u), owed); OpensIn(p.header, p.head + p.body)
  {
    hide HeaderAt, TrimEnd;
    var p := PieceOf(s, Reopen(k, u), owed);
    var r := TrimEnd(s[..k], IsBlank);
    assert s[..k][u + 2] == '`';
    assert u + 3 <= |r|;
    assert p.head + p.body == r;
    HeaderFacts(s, u);
    var h := HeaderAt(s, u);
    assert r[u..] <= s[u..] && h <= s[u..];
    assert IsFence(r, u) && Comparable(h, r[u..]);
  }

  lemma {:induction false} LayoutKeeps(s: string, owed: nat, maxLen: nat)
    requires maxLen >= 1 && Orderly(s, maxLen) && Ends(s, maxLen) && IsOwed(s, owed, maxLen)
    ensures Texts(Layout(s, owed, maxLen)) == Split(s, maxLen)
    ensures Ink(Bodies(Layout(s, owed, maxLen))) == Ink(s[owed..])
    ensures Marked(Layout(s, owed, maxLen), s[..owed])
    decreases |s|
  {
    hide NextCut, Orderly, Ink, PieceOf, RestOf, ChunkOf, OwedAfter, Split, EndsIn, Ends;
    if s == "" {
      SplitShort(s, maxLen);
      assert s[owed..] == "";
    } else if |s| <= maxLen {
      SplitShort(s, maxLen);
      assert s[..owed] + s[owed..] + "" == s;
      assert s[owed..] + "" == s[owed..];
    } else {
      OrderlyCut(s, maxLen);
      var c := NextCut(s, maxLen);
      OwedIsSent(s, maxLen, owed);
      OwedStays(s, maxLen, c, owed);
      OrderlyEnds(s, maxLen);
      SplitUnfolds(s, |s|, maxLen);
      var rest, after := RestOf(s, c), OwedAfter(s, c, owed);
      LayoutKeeps(rest, after, maxLen);
      PieceText(s, c, owed);
      CutKeepsInk(s, c, owed);
      InkConcat(PieceOf(s, c, owed).body, Bodies(Layout(rest, after, maxLen)));
      CutIsMarked(s, c, owed, Layout(rest, after, maxLen));
    }
  }

  lemma {:induction false} CutIsMarked(s: string, c: Cut, owed: nat, ps: seq<Piece>)
    requires 0 <= c.k <= |s| && owed <= |s| && (owed > 0 ==> !IsSpace(s[owed - 1]))
    requires c.Reopen? ==> c.fence >= 0 && IsFence(s, c.fence) && c.fence + 3 <= c.k && owed <= |TrimEnd(s[..c.k], IsBlank)|
    requires OwedAfter(s, c, owed) <= |RestOf(s, c)| && Marked(ps, RestOf(s, c)[..OwedAfter(s, c, owed)])
    ensures Marked([PieceOf(s, c, owed)] + ps, s[..owed])
  {
    hide HeaderAt, TrimEnd, TrimSpace, SkipFront, RestOf, OwedAfter, OpensIn;
    var p := PieceOf(s, c, owed);
    assert ([p] + ps)[1..] == ps;
    if c.Plain? {
      PlainOwes(s, c.k, owed);
    } else {
      ReopenIsMarked(s, c.k, c.fence, owed);
      ReopenOwes(s, c.k, c.fence, owed);
      assert p.head == s[..owed];
    }
  }

  lemma {:induction false} ReopenOwes(s: string, k: nat, u: nat, owed: nat)
    requires k <= |s| && IsFence(s, u) && owed <= |TrimEnd(s[..k], IsBlank)|
    ensures OwedAfter(s, Reopen(k, u), owed) <= |RestOf(s, Reopen(k, u))|
    ensures RestOf(s, Reopen(k, u))[..OwedAfter(s, Reopen(k, u), owed)] == HeaderAt(s, u)
  {
    hide HeaderAt, RestOf;
    ReopenedStart(s, k, u);
  }

  /** Cutting inside an owed header leaves the rest of it owed, without leading blanks. */
  lemma {:induction false} PlainOwes(s: string, k: nat, owed: nat)
    requires k <= |s| && owed <= |s| && (owed > 0 ==> !IsSpace(s[owed - 1]))
    requires OwedAfter(s, Plain(k), owed) <= |RestOf(s, Plain(k))|
    ensures SkipFront(s[..owed][Min(k, owed)..], IsBlank) == RestOf(s, Plain(k))[..OwedAfter(s, Plain(k), owed)]
  {
    hide SkipFront, IsSpace, IsBlank;
    var r := SkipFront(s[k..], IsBlank);
    assert r == RestOf(s, Plain(k));
    if owed > k {
      BlankIsSpace(s[owed - 1]);
      OwedInside(s, k, owed);
    } else {
      assert s[..owed][Min(k, owed)..] == "" == r[..0];
    }
  }

  lemma {:induction false} OwedInside(s: string, k: nat, owed: nat)
    requires k < owed <= |s| && !IsBlank(s[owed - 1])
    ensures var r := SkipFront(s[k..], IsBlank);
            |s| - |r| < owed && SkipFront(s[..owed][k..], IsBlank) == r[..owed - (|s| - |r|)]
  {
    hide SkipFront, IsBlank;
    var t, n := s[k..], owed - k;
    assert t[n - 1] == s[owed - 1];
    SkipPrefix(t, n);
    assert s[..owed][k..] == t[..n];
  }

  lemma BlankIsSpace(c: char)
    ensures IsBlank(c) ==> IsSpace(c)
  {
  }

  lemma {:induction false} SkipPrefix(t: string, n: nat)
    requires 0 < n <= |t| && !IsBlank(t[n - 1])
    ensures var dropped := |t| - |SkipFront(t, IsBlank)|;
            dropped < n && SkipFront(t[..n], IsBlank) == SkipFront(t, IsBlank)[..n - dropped]
  {
    hide IsBlank, SkipFront;
    var r := SkipFront(t, IsBlank);
    var d := |t| - |r|;
    assert d < n;
    SkipsTo(t[..n], d, IsBlank);
    assert t[..n][d..] == t[d..][..n - d];
  }

  /** Conservation: delete the injected closing fences and re-opened headers, join what is
      left, and the source comes back, in order, up to white space. */
  lemma {:induction false} NothingLostOrDoubled(s: string, maxLen: nat)
    requires maxLen >= 1 && Orderly(s, maxLen) && Ends(s, maxLen)
    ensures exists ps :: Texts(ps) == Split(s, maxLen) && Marked(ps, "") && Ink(Bodies(ps)) == Ink(s)
  {
    hide Ink, Split, Marked, Layout;
    LayoutKeeps(s, 0, maxLen);
    assert s[0..] == s && s[..0] == "";
  }

  ghost predicate FenceFree(s: string) {
    forall i :: !IsFence(s, i)
  }

  /** When the source has no fence at all nothing is injected: the chunks themselves carry the ink. */
  lemma {:induction false} PlainTextIsOnlyCut(s: string, maxLen: nat)
    requires maxLen >= 1 && FenceFree(s)
    ensures Ends(s, maxLen) && Ink(Joined(Split(s, maxLen))) == Ink(s)
    decreases |s|
  {
    FenceFreeEnds(s, maxLen);
    hide Ink, NextCut, RestOf, FenceFree, Split, EndsIn, Ends;
    if |s| > maxLen {
      SplitUnfolds(s, |s|, maxLen);
      var c := NextCut(s, maxLen);
      PlainStep(s, maxLen);
      var rest := RestOf(s, c);
      PlainTextIsOnlyCut(rest, maxLen);
      InkConcat(s[..c.k], Joined(Split(rest, maxLen)));
    } else {
      SplitShort(s, maxLen);
      assert s + "" == s;
    }
  }

  lemma FenceFreeEnds(s: string, maxLen: nat)
    requires maxLen >= 1 && FenceFree(s)
    ensures EndsIn(s, |s|, maxLen) && Ends(s, maxLen)
  {
    hide EndsIn, Ends;
    assert HeadersFit(s, maxLen);
    FittingHeadersEnd(s, maxLen);
  }

  lemma {:induction false} PlainStep(s: string, maxLen: nat)
    requires 1 <= maxLen < |s| && FenceFree(s)
    ensures var c := NextCut(s, maxLen);
            && c.Plain? && 1 <= c.k <= |s|
            && |RestOf(s, c)| < |s| && FenceFree(RestOf(s, c))
            && Ink(s) == Ink(s[..c.k]) + Ink(RestOf(s, c))
  {
    hide Ink, NextCut, SkipFront;
    CutBounds(s, maxLen);
    var c := NextCut(s, maxLen);
    assert c.Plain?;
    hide FenceFree;
    PlainRestInk(s, c.k);
  }

  lemma {:induction false} PlainRestInk(s: string, k: nat)
    requires 1 <= k <= |s| && FenceFree(s)
    ensures var r := SkipFront(s[k..], IsBlank); |r| < |s| && FenceFree(r) && Ink(s) == Ink(s[..k]) + Ink(r)
  {
    hide FenceFree, SkipFront, Ink;
    var r := SkipFront(s[k..], IsBlank);
    assert r == s[|s| - |r|..];
    SuffixHasNoFences(s, |s| - |r|);
    InkConcat(s[..k], s[k..]);
    assert s == s[..k] + s[k..];
    InkOfSkipFront(s[k..], IsBlank);
  }

  lemma {:induction false} SuffixHasNoFences(s: string, at: nat)
    requires at <= |s| && FenceFree(s)
    ensures FenceFree(s[at..])
  {
    forall i ensures !IsFence(s[at..], i) {
      assert IsFence(s[at..], i) ==> IsFence(s, at + i);
    }
  }

  function Joined(chunks: seq<string>): string {
    if chunks == [] then "" else chunks[0] + Joined(chunks[1..])
  }

  // ---------------------------------------------------------------- outside the premises

  lemma {:induction false} UnclosedStays(s: string, i: nat, open: int)
    requires forall j :: i <= j ==> !IsFence(s, j)
    ensures Unclosed(s, i, open) == open
    decreases |s| - i
  {
    if i + 3 <= |s| {
      UnclosedStays(s, i + 1, open);
    }
  }

  /** The line-start premise of `FenceBalance` matters: with a fence in mid-line a plain cut
      can fall inside it, and a balanced text comes out unbalanced. */
  lemma MidLineFenceIsTorn()
    ensures var s := "aaaa```bbbb```";
            Ends(s, 10) && Fences(s) == 2 && Split(s, 10) == [s[..5], s[5..]] && Fences(s[5..]) == 1
  {
    hide Fences, Split, Ends;
    var s := "aaaa```bbbb```";
    assert Torn(s);
    TornCut(s);
    TornFences(s);
  }

  ghost predicate Torn(s: string) {
    |s| == 14 && IsFence(s, 4) && IsFence(s, 11) && forall i :: 0 <= i < 4 || 7 <= i < 11 ==> s[i] == (if i < 4 then 'a' else 'b')
  }

  lemma {:induction false} TornNextCut(s: string)
    requires Torn(s)
    ensures NextCut(s, 10) == Plain(5)
  {
    hide HeaderAt, CutBlock;
    var t := s[..5];
    assert EffectiveLimit(10) == 5;
    assert forall i :: 0 <= i < |s| ==> !IsNewline(s[i]) && !IsGap(s[i]);
    assert NaturalEnd(s, 5) == 5;
    assert forall j :: !IsFence(t, j);
    UnclosedStays(t, 0, -1);
  }

  lemma {:induction false} TornCut(s: string)
    requires Torn(s)
    ensures Ends(s, 10) && Split(s, 10) == [s[..5], s[5..]]
  {
    hide NextCut, Split;
    TornNextCut(s);
    var rest := RestOf(s, Plain(5));
    assert s[5..][0] == '`';
    assert rest == s[5..];
    EndsShort(rest, 0, 10);
    EndsBefore(s, 0, 10);
    SplitUnfolds(s, 1, 10);
    SplitShort(rest, 10);
  }

  lemma {:induction false} TornFences(s: string)
    requires Torn(s)
    ensures Fences(s) == 2 && Fences(s[5..]) == 1
  {
    hide Fences;
    FencesAfter(s, 4);
    FenceBalance.OneFence(s[4..]);
    FencesAfter(s[7..], 4);
    FenceBalance.OneFence(s[11..]);
    assert s[4..][3..] == s[7..] && s[7..][4..] == s[11..] && s[11..][3..] == "";
    FencesAdd(s[5..], 2);
    assert s[5..][2..] == s[7..];
    assert |s[5..][..2]| == 2;
    FenceBalance.TooShort(s[5..][..2]);
    FenceBalance.TooShort("");
  }

  lemma {:induction false} FencesAfter(s: string, k: nat)
    requires k <= |s| && forall i :: 0 <= i < k ==> s[i] != '`'
    ensures Fences(s) == Fences(s[k..])
  {
    FencesAdd(s, k);
    forall i ensures !IsFence(s[..k], i) {
      assert 0 <= i < k ==> s[..k][i] == s[i];
    }
    NoFences(s[..k]);
  }
}
