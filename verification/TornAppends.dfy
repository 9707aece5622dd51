/** Appends to the session log byte by byte: what is read back when a crash, or a failing
    device, may stop any append after any number of its bytes. */
module TornAppends {
  import opened Common
  import opened Messages
  import opened SessionLog

  /** The JSON encoding of messages, one line each. */
  datatype Codec = Codec(encode: Message -> string, decode: string -> Option<Message>)

  /** An append and how many bytes of its line, newline included, reached the file. */
  datatype Attempt = Attempt(msg: Message, written: nat)

  function LineText(c: Codec, m: Message): string { c.encode(m) + "\n" }

  predicate Whole(c: Codec, a: Attempt) { a.written >= |LineText(c, a.msg)| }

  function Bytes(c: Codec, a: Attempt): string { LineText(c, a.msg)[..Min(a.written, |LineText(c, a.msg)|)] }

  function TextOf(c: Codec, es: seq<Attempt>): string {
    if es == [] then "" else TextOf(c, es[..|es| - 1]) + Bytes(c, es[|es| - 1])
  }

  /** A piece of an object that ends in mid-line. */
  predicate Piece(c: Codec, a: Attempt) { 0 < a.written <= |c.encode(a.msg)| }

  /** A full object without its newline. */
  predicate Complete(c: Codec, a: Attempt) { a.written == |c.encode(a.msg)| }

  ghost predicate Pieces(c: Codec, es: seq<Attempt>) {
    forall e <- es :: Piece(c, e)
  }

  /** What the store relies on: an object reads back and has no newline in it; an object cut short
      is no object; and neither are several of them, cut short or not, on one line. */
  ghost predicate Json(c: Codec) {
    && (forall m :: c.encode(m) != "" && '\n' !in c.encode(m) && c.decode(c.encode(m)) == Some(m))
    && (forall a :: Piece(c, a) && !Complete(c, a) ==> c.decode(Bytes(c, a)) == None)
    && (forall es :: Pieces(c, es) && |es| >= 2 ==> c.decode(TextOf(c, es)) == None)
  }

  // ---------------------------------------------------------------- reading

  /** The end of the first line. */
  function LineEnd(t: string): (r: nat)
    ensures r <= |t| && (forall i :: 0 <= i < r ==> t[i] != '\n') && (r < |t| ==> t[r] == '\n')
  {
    if t == "" || t[0] == '\n' then 0 else 1 + LineEnd(t[1..])
  }

  function Parse(c: Codec, s: string): Line {
    if s == "" then Blank
    else match c.decode(s)
         case None => Corrupt
         case Some(m) => Encoded(m)
  }

  /** The lines a scanner yields: what follows the last newline is one, unless it is empty. */
  function LinesOf(c: Codec, t: string): seq<Line>
    decreases |t|
  {
    if t == "" then []
    else
      var i := LineEnd(t);
      if i == |t| then [Parse(c, t)] else [Parse(c, t[..i])] + LinesOf(c, t[i + 1..])
  }

  /** The file ends where a new line begins. */
  predicate Clean(t: string) { t == "" || t[|t| - 1] == '\n' }

  /** What `GetHistory` finds in a log with this text. */
  function Read(c: Codec, t: string, skip: int): seq<Message> {
    Decoded(After(LinesOf(c, t), skip))
  }

  lemma {:induction false} LineEndIs(t: string, i: nat)
    requires i <= |t| && (forall k :: 0 <= k < i ==> t[k] != '\n') && (i < |t| ==> t[i] == '\n')
    ensures LineEnd(t) == i
  {
    if i > 0 {
      LineEndIs(t[1..], i - 1);
    }
  }

  lemma FirstLine(c: Codec, s: string, rest: string)
    requires '\n' !in s
    ensures LinesOf(c, s + "\n" + rest) == [Parse(c, s)] + LinesOf(c, rest)
  {
    hide Parse;
    var t := s + "\n" + rest;
    LineEndIs(t, |s|);
    assert t[..|s|] == s && t[|s| + 1..] == rest;
  }

  /** A text that ends where a line begins, and another after it. */
  lemma {:induction false} LinesConcat(c: Codec, a: string, b: string)
    requires Clean(a)
    ensures LinesOf(c, a + b) == LinesOf(c, a) + LinesOf(c, b)
    decreases |a|
  {
    hide Parse, LinesOf;
    if a == "" {
      assert a + b == b;
      NoLines(c);
    } else {
      var i := LineEnd(a);
      var s, rest := a[..i], a[i + 1..];
      LinesConcat(c, rest, b);
      FirstLine(c, s, rest);
      FirstLine(c, s, rest + b);
      assert a == s + "\n" + rest && a + b == s + "\n" + (rest + b);
    }
  }

  lemma OneLine(c: Codec, s: string)
    requires '\n' !in s
    ensures LinesOf(c, s + "\n") == [Parse(c, s)]
    ensures s != "" ==> LinesOf(c, s) == [Parse(c, s)]
  {
    hide Parse;
    FirstLine(c, s, "");
    assert s + "\n" + "" == s + "\n";
    LineEndIs(s, |s|);
  }

  lemma NoLines(c: Codec)
    ensures LinesOf(c, "") == []
  {
  }

  // ---------------------------------------------------------------- the line being written

  /** The torn appends since the last newline. */
  function Tail(c: Codec, es: seq<Attempt>): seq<Attempt> {
    if es == [] then []
    else
      var e, before := es[|es| - 1], Tail(c, es[..|es| - 1]);
      if Whole(c, e) then [] else if e.written == 0 then before else before + [e]
  }

  lemma TextGrows(c: Codec, es: seq<Attempt>, e: Attempt)
    ensures TextOf(c, es + [e]) == TextOf(c, es) + Bytes(c, e)
  {
    assert (es + [e])[..|es|] == es;
  }

  lemma TailGrows(c: Codec, es: seq<Attempt>, e: Attempt)
    ensures Tail(c, es + [e]) ==
            if Whole(c, e) then [] else if e.written == 0 then Tail(c, es) else Tail(c, es) + [e]
  {
    assert (es + [e])[..|es|] == es;
  }

  lemma BytesOf(c: Codec, a: Attempt)
    requires Json(c)
    ensures Whole(c, a) ==> Bytes(c, a) == c.encode(a.msg) + "\n"
    ensures !Whole(c, a) && a.written > 0 ==> Piece(c, a)
    ensures Piece(c, a) ==> Bytes(c, a) == c.encode(a.msg)[..a.written] && '\n' !in Bytes(c, a) && Bytes(c, a) != ""
    ensures a.written == 0 ==> Bytes(c, a) == ""
  {
    assert '\n' !in c.encode(a.msg);
  }

  lemma {:induction false} PiecesText(c: Codec, es: seq<Attempt>)
    requires Json(c) && Pieces(c, es)
    ensures '\n' !in TextOf(c, es) && (TextOf(c, es) == "" <==> es == [])
  {
    hide Json, Bytes, Piece;
    if es != [] {
      assert es[|es| - 1] in es;
      BytesOf(c, es[|es| - 1]);
      PiecesText(c, es[..|es| - 1]);
    }
  }

  /** The finished lines of the file, without the torn end. */
  function Finished(c: Codec, es: seq<Attempt>): string {
    if es == [] then ""
    else if Whole(c, es[|es| - 1]) then TextOf(c, es)
    else Finished(c, es[..|es| - 1])
  }

  lemma {:induction false} TextSplits(c: Codec, es: seq<Attempt>)
    requires Json(c)
    ensures Pieces(c, Tail(c, es)) && Clean(Finished(c, es))
    ensures TextOf(c, es) == Finished(c, es) + TextOf(c, Tail(c, es))
  {
    hide Json, Bytes, Piece;
    if es != [] {
      var e, init := es[|es| - 1], es[..|es| - 1];
      TextSplits(c, init);
      BytesOf(c, e);
      if !Whole(c, e) && e.written > 0 {
        TextGrows(c, Tail(c, init), e);
      }
    }
  }

  /** The file ends where a line begins exactly when no append tore since the last newline. */
  lemma CleanIffNoTail(c: Codec, es: seq<Attempt>)
    requires Json(c)
    ensures Clean(TextOf(c, es)) <==> Tail(c, es) == []
  {
    hide Json, Pieces, Tail, Finished;
    var tail := TextOf(c, Tail(c, es));
    TextSplits(c, es);
    PiecesText(c, Tail(c, es));
    assert TextOf(c, es) == Finished(c, es) + tail;
    if tail != "" {
      assert TextOf(c, es)[|TextOf(c, es)| - 1] == tail[|tail| - 1];
    }
  }

  /** What a torn end reads as: a message only if it is one full object. */
  function TornLine(c: Codec, tail: seq<Attempt>): seq<Line> {
    if tail == [] then [] else if |tail| == 1 && Complete(c, tail[0]) then [Encoded(tail[0].msg)] else [Corrupt]
  }

  lemma TornReads(c: Codec, tail: seq<Attempt>)
    requires Json(c) && Pieces(c, tail)
    ensures LinesOf(c, TextOf(c, tail)) == TornLine(c, tail)
  {
    hide Bytes;
    PiecesText(c, tail);
    if tail != [] {
      OneLine(c, TextOf(c, tail));
      if |tail| == 1 {
        assert TextOf(c, tail[..0]) == "";
        assert TextOf(c, tail) == Bytes(c, tail[0]);
        assert tail[0] in tail;
        BytesOf(c, tail[0]);
        var full := c.encode(tail[0].msg);
        assert full[..|full|] == full && c.decode(full) == Some(tail[0].msg);
      }
    }
  }

  /** An object written on a torn end: no object, unless the end was not torn. */
  lemma GluedParses(c: Codec, tail: seq<Attempt>, m: Message)
    requires Json(c) && Pieces(c, tail)
    ensures var line := TextOf(c, tail) + c.encode(m);
            '\n' !in line && Parse(c, line) == if tail == [] then Encoded(m) else Corrupt
  {
    hide Bytes, TextOf;
    var full := Attempt(m, |c.encode(m)|);
    assert c.encode(m) != "" && Piece(c, full);
    BytesOf(c, full);
    assert c.encode(m)[..|c.encode(m)|] == c.encode(m);
    TextGrows(c, tail, full);
    PiecesText(c, tail + [full]);
    PiecesText(c, tail);
    if tail == [] {
      assert TextOf(c, tail) + c.encode(m) == c.encode(m);
    } else {
      assert Pieces(c, tail + [full]) && |tail + [full]| >= 2;
    }
  }

  /** A whole append on top of a torn end finishes that line, and spoils it. */
  lemma WholeReads(c: Codec, tail: seq<Attempt>, e: Attempt)
    requires Json(c) && Pieces(c, tail) && Whole(c, e)
    ensures LinesOf(c, TextOf(c, tail) + Bytes(c, e)) == if tail == [] then [Encoded(e.msg)] else [Corrupt]
  {
    hide Json, Pieces, Bytes, TextOf, Parse, LinesOf;
    BytesOf(c, e);
    GluedParses(c, tail, e.msg);
    var line := TextOf(c, tail) + c.encode(e.msg);
    OneLine(c, line);
    assert line + "\n" == TextOf(c, tail) + Bytes(c, e);
  }

  // ---------------------------------------------------------------- what a run of appends reads as

  /** The lines of the file, told from the appends alone: a whole append at a line's start is a
      line of its own, a whole append on a torn end makes that line corrupt. */
  function Expected(c: Codec, es: seq<Attempt>): seq<Line> {
    if es == [] then []
    else
      var e, init := es[|es| - 1], es[..|es| - 1];
      if Whole(c, e) then Expected(c, init) + [if Tail(c, init) == [] then Encoded(e.msg) else Corrupt]
      else Expected(c, init)
  }

  lemma {:induction false} FinishedReads(c: Codec, es: seq<Attempt>)
    requires Json(c)
    ensures LinesOf(c, Finished(c, es)) == Expected(c, es)
  {
    hide Json, Bytes, LinesOf, Pieces;
    if es == [] {
      NoLines(c);
    } else {
      var e, init := es[|es| - 1], es[..|es| - 1];
      FinishedReads(c, init);
      if Whole(c, e) {
        TextSplits(c, init);
        WholeReads(c, Tail(c, init), e);
        var last := TextOf(c, Tail(c, init)) + Bytes(c, e);
        assert TextOf(c, es) == Finished(c, init) + last;
        LinesConcat(c, Finished(c, init), last);
      }
    }
  }

  /** After any appends, torn anywhere, the file has exactly these lines. */
  lemma RunReads(c: Codec, es: seq<Attempt>)
    requires Json(c)
    ensures LinesOf(c, TextOf(c, es)) == Expected(c, es) + TornLine(c, Tail(c, es))
  {
    hide Json, LinesOf, TextOf, TornLine, Expected, Pieces;
    TextSplits(c, es);
    FinishedReads(c, es);
    TornReads(c, Tail(c, es));
    LinesConcat(c, Finished(c, es), TextOf(c, Tail(c, es)));
  }

  /** Without torn appends the file is the line log: one line a message. */
  lemma {:induction false} WholeAppendsAreLines(c: Codec, ms: seq<Message>)
    requires Json(c)
    ensures var es := seq(|ms|, i requires 0 <= i < |ms| => Attempt(ms[i], |LineText(c, ms[i])|));
            LinesOf(c, TextOf(c, es)) == Encode(ms)
  {
    hide Json, LinesOf, TextOf;
    var es := seq(|ms|, i requires 0 <= i < |ms| => Attempt(ms[i], |LineText(c, ms[i])|));
    RunReads(c, es);
    WholeExpected(c, ms);
  }

  lemma {:induction false} WholeExpected(c: Codec, ms: seq<Message>)
    ensures var es := seq(|ms|, i requires 0 <= i < |ms| => Attempt(ms[i], |LineText(c, ms[i])|));
            Expected(c, es) == Encode(ms) && Tail(c, es) == []
  {
    if ms != [] {
      var es := seq(|ms|, i requires 0 <= i < |ms| => Attempt(ms[i], |LineText(c, ms[i])|));
      var init := ms[..|ms| - 1];
      WholeExpected(c, init);
      assert es[..|es| - 1] == seq(|init|, i requires 0 <= i < |init| => Attempt(init[i], |LineText(c, init[i])|));
      assert Encode(ms) == Encode(init) + [Encoded(ms[|ms| - 1])];
    }
  }

  /** An append that ran to its end is read back, after all that was read before, if and only if
      the file ended where a line begins. Otherwise it is lost, and so is the unterminated message
      it was glued to. */
  lemma AppendReadsIffClean(c: Codec, es: seq<Attempt>, e: Attempt, skip: int)
    requires Json(c) && Whole(c, e) && skip <= |Filled(LinesOf(c, TextOf(c, es)))|
    ensures Read(c, TextOf(c, es + [e]), skip) == Read(c, TextOf(c, es), skip) + [e.msg] <==> Clean(TextOf(c, es))
    ensures !Clean(TextOf(c, es)) ==> Read(c, TextOf(c, es + [e]), skip) == Decoded(After(Expected(c, es), skip))
  {
    hide Json, LinesOf, TextOf, Clean, After, Decoded, Filled, Whole;
    CleanIffNoTail(c, es);
    RunReads(c, es);
    RunReads(c, es + [e]);
    TailGrows(c, es, e);
    ExpectedGrows(c, es, e);
    var lines := Expected(c, es);
    if Tail(c, es) == [] {
      assert lines + [] == lines && (lines + [Encoded(e.msg)]) + [] == lines + [Encoded(e.msg)];
      ReadOne(lines, Encoded(e.msg), skip);
    } else {
      assert (lines + [Corrupt]) + [] == lines + [Corrupt];
      ReadOne(lines, Corrupt, skip);
      ReadOne(lines, TornLine(c, Tail(c, es))[0], skip);
      assert TornLine(c, Tail(c, es)) == [TornLine(c, Tail(c, es))[0]];
    }
  }

  lemma ExpectedGrows(c: Codec, es: seq<Attempt>, e: Attempt)
    requires Whole(c, e)
    ensures Expected(c, es + [e]) == Expected(c, es) + [if Tail(c, es) == [] then Encoded(e.msg) else Corrupt]
  {
    hide Tail;
    assert (es + [e])[..|es|] == es;
  }

  // ---------------------------------------------------------------- whole runs

  /** The messages whose appends ran to their end. */
  function Acknowledged(c: Codec, es: seq<Attempt>): seq<Message> {
    if es == [] then []
    else Acknowledged(c, es[..|es| - 1]) + (if Whole(c, es[|es| - 1]) then [es[|es| - 1].msg] else [])
  }

  /** No append that ran to its end began in mid-line. */
  ghost predicate NeverOnTorn(c: Codec, es: seq<Attempt>) {
    forall i :: 0 <= i < |es| && Whole(c, es[i]) ==> Clean(TextOf(c, es[..i]))
  }

  lemma NeverOnTornUnfolds(c: Codec, es: seq<Attempt>)
    requires es != []
    ensures var e, init := es[|es| - 1], es[..|es| - 1];
            NeverOnTorn(c, es) <==> NeverOnTorn(c, init) && (Whole(c, e) ==> Clean(TextOf(c, init)))
  {
    hide Clean, TextOf, Whole;
    var e, init := es[|es| - 1], es[..|es| - 1];
    forall i | 0 <= i < |init| ensures init[..i] == es[..i] && init[i] == es[i] {
    }
    if NeverOnTorn(c, es) {
      assert Whole(c, es[|es| - 1]) ==> Clean(TextOf(c, es[..|es| - 1]));
    }
  }

  lemma {:induction false} FinishedAreAcknowledged(c: Codec, es: seq<Attempt>)
    requires Json(c)
    ensures |Decoded(Expected(c, es))| <= |Acknowledged(c, es)|
    ensures NeverOnTorn(c, es) ==> Decoded(Expected(c, es)) == Acknowledged(c, es)
    ensures !NeverOnTorn(c, es) ==> |Decoded(Expected(c, es))| < |Acknowledged(c, es)|
  {
    hide Json, Clean, TextOf, Whole, NeverOnTorn, Tail;
    if es == [] {
      NothingTorn(c);
    } else {
      var e, init := es[|es| - 1], es[..|es| - 1];
      FinishedAreAcknowledged(c, init);
      NeverOnTornUnfolds(c, es);
      CleanIffNoTail(c, init);
      if Whole(c, e) {
        var line := if Tail(c, init) == [] then Encoded(e.msg) else Corrupt;
        DecodedConcat(Expected(c, init), [line]);
        assert [line][1..] == [];
      }
    }
  }

  lemma NothingTorn(c: Codec)
    ensures NeverOnTorn(c, [])
  {
  }

  /** Every append that reported success is read back, in order, followed at most by the one object
      at the end that lacks only its newline, if and only if none of them began in mid-line. */
  lemma AcknowledgedAreReadIff(c: Codec, es: seq<Attempt>)
    requires Json(c)
    ensures Read(c, TextOf(c, es), 0) == Acknowledged(c, es) + Decoded(TornLine(c, Tail(c, es)))
       <==> NeverOnTorn(c, es)
  {
    hide Json, LinesOf, TextOf, Expected, Acknowledged, NeverOnTorn, TornLine, Decoded, Tail;
    var lines, torn := Expected(c, es), TornLine(c, Tail(c, es));
    RunReads(c, es);
    FinishedAreAcknowledged(c, es);
    DecodedConcat(lines, torn);
    NoneBlank(c, es);
  }

  /** No line of such a file is empty. */
  lemma NoneBlank(c: Codec, es: seq<Attempt>)
    ensures After(Expected(c, es) + TornLine(c, Tail(c, es)), 0) == Expected(c, es) + TornLine(c, Tail(c, es))
  {
    hide Expected, Tail;
    ExpectedFilled(c, es);
    FilledConcat(Expected(c, es), TornLine(c, Tail(c, es)));
    var torn := TornLine(c, Tail(c, es));
    if torn != [] {
      assert torn[1..] == [];
    }
  }

  lemma {:induction false} ExpectedFilled(c: Codec, es: seq<Attempt>)
    ensures Filled(Expected(c, es)) == Expected(c, es)
  {
    hide Tail, Whole;
    if es != [] {
      var e, init := es[|es| - 1], es[..|es| - 1];
      ExpectedFilled(c, init);
      if Whole(c, e) {
        var line := if Tail(c, init) == [] then Encoded(e.msg) else Corrupt;
        FilledConcat(Expected(c, init), [line]);
        assert [line][1..] == [];
      }
    }
  }

  lemma OneTorn(c: Codec, torn: Attempt)
    requires Piece(c, torn)
    ensures Tail(c, [torn]) == [torn] && Expected(c, [torn]) == []
  {
    assert !Whole(c, torn);
    assert [torn][..0] == [];
    assert Tail(c, []) == [] && Expected(c, []) == [];
  }

  /** A torn append followed by one that succeeds: neither is read. */
  lemma TornSwallowsNext(c: Codec, torn: Attempt, next: Attempt)
    requires Json(c) && Piece(c, torn) && Whole(c, next)
    ensures Read(c, TextOf(c, [torn, next]), 0) == []
  {
    hide Json, TextOf, LinesOf, After, Decoded, Filled, Tail, Expected, Piece, Whole;
    OneTorn(c, torn);
    assert [torn] + [next] == [torn, next];
    TailGrows(c, [torn], next);
    ExpectedGrows(c, [torn], next);
    RunReads(c, [torn, next]);
    NothingRead(0);
    ReadOne([], Corrupt, 0);
    assert [] + [Corrupt] == [Corrupt] == [Corrupt] + [];
  }
}
