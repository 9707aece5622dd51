/** What survives a crash between any two writes of a session operation. */
module CrashLaws {
  import opened Messages
  import opened SessionLog

  /** The metadata never hides more lines than the log holds. `count` may be stale. */
  ghost predicate Sound(d: Disk, key: string) {
    0 <= MetaOf(d, key).skip <= LineCount(d, key)
  }

  /** The last `k` elements. */
  function Last<T>(s: seq<T>, k: nat): seq<T> {
    if k >= |s| then s else s[|s| - k..]
  }

  // ---------------------------------------------------------------- frames

  ghost predicate SameFiles(d: Disk, d': Disk, f: string) {
    LinesIn(d, f) == LinesIn(d', f) && (f in d.metas <==> f in d'.metas) && (f in d.metas ==> d.metas[f] == d'.metas[f])
  }

  ghost predicate Touches(w: Write, f: string) {
    !w.Rename? && w.file == f
  }

  lemma {:induction false} OtherFilesStay(d: Disk, ws: seq<Write>, f: string)
    requires forall w <- ws :: !Touches(w, f)
    ensures SameFiles(d, ApplyAll(d, ws), f)
    decreases |ws|
  {
    if ws != [] {
      assert ws[0] in ws;
      OtherFilesStay(Apply(d, ws[0]), ws[1..], f);
    }
  }

  lemma SameFilesSameSession(d: Disk, d': Disk, key: string)
    requires SameFiles(d, d', SanitizeKey(key))
    ensures VisibleLines(d, key) == VisibleLines(d', key) && MetaOf(d, key) == MetaOf(d', key)
    ensures LineCount(d, key) == LineCount(d', key)
    ensures History(d, key) == History(d', key) && Summary(d, key) == Summary(d', key)
    ensures (Sound(d, key) ==> Sound(d', key))
  {
  }

  lemma WritesStayInFile(d: Disk, op: Op, f: string)
    requires f != SanitizeKey(op.key)
    ensures forall w <- Writes(d, op) :: !Touches(w, f)
  {
  }

  /** A crash in one session leaves every other session as it was. */
  lemma CrashIsLocal(d: Disk, op: Op, n: nat, key: string)
    requires n <= |Writes(d, op)| && SanitizeKey(key) != SanitizeKey(op.key)
    ensures History(CrashAfter(d, op, n), key) == History(d, key)
    ensures Summary(CrashAfter(d, op, n), key) == Summary(d, key)
  {
    var ws := Writes(d, op);
    WritesStayInFile(d, op, SanitizeKey(key));
    OtherFilesStay(d, ws[..n], SanitizeKey(key));
    SameFilesSameSession(d, CrashAfter(d, op, n), key);
  }

  // ---------------------------------------------------------------- the two-write operations, write by write

  /** The state of the log and metadata after each prefix of `[v, w]`. */
  lemma PrefixesOfTwo(d: Disk, v: Write, w: Write, n: nat)
    requires n <= 2
    ensures ApplyAll(d, [v, w][..n]) == if n == 0 then d else if n == 1 then Apply(d, v) else Apply(Apply(d, v), w)
  {
    ApplyOne(d, v);
    ApplyTwo(d, v, w);
    assert [v, w][..0] == [] && [v, w][..1] == [v] && [v, w][..2] == [v, w];
  }

  lemma PrefixesOfOne(d: Disk, v: Write, n: nat)
    requires n <= 1
    ensures ApplyAll(d, [v][..n]) == if n == 0 then d else Apply(d, v)
  {
    ApplyOne(d, v);
    assert [v][..0] == [] && [v][..1] == [v];
  }

  lemma {:induction false} SkipNothing(lines: seq<Line>)
    ensures After(lines, 0) == Filled(lines)
  {
  }

  lemma {:induction false} AppendedLines(d: Disk, key: string, msg: Message)
    requires Sound(d, key)
    ensures var d' := Apply(d, Append(SanitizeKey(key), Encoded(msg)));
            && VisibleLines(d', key) == VisibleLines(d, key) + [Encoded(msg)]
            && History(d', key) == History(d, key) + [msg]
            && LineCount(d', key) == LineCount(d, key) + 1
  {
    hide Filled, After, Decoded;
    var lines := LinesIn(d, SanitizeKey(key));
    AfterGrows(lines, Encoded(msg), MetaOf(d, key).skip);
    ReadOne(lines, Encoded(msg), MetaOf(d, key).skip);
  }

  /** Metadata does not touch the log. */
  lemma MetaOnly(d: Disk, key: string, meta: Meta)
    ensures var d' := Apply(d, PutMeta(SanitizeKey(key), meta));
            MetaOf(d', key) == meta && LinesIn(d', SanitizeKey(key)) == LinesIn(d, SanitizeKey(key)) && LineCount(d', key) == LineCount(d, key)
  {
  }

  // ---------------------------------------------------------------- the promises

  /** An append is all or nothing, and is visible as soon as its line is on disk, whatever
      the metadata still says. */
  lemma AppendIsAllOrNothing(d: Disk, key: string, msg: Message, n: nat)
    requires Sound(d, key) && n <= |Writes(d, Add(key, msg))|
    ensures var c := CrashAfter(d, Add(key, msg), n);
            && History(c, key) == History(d, key) + (if n == 0 then [] else [msg])
            && Summary(c, key) == Summary(d, key) && Sound(c, key)
  {
    hide Filled, After, Decoded;
    var ws := Writes(d, Add(key, msg));
    PrefixesOfTwo(d, ws[0], ws[1], n);
    AppendedLines(d, key, msg);
    var grown := Apply(d, ws[0]);
    MetaOnly(grown, key, MetaOf(d, key).(count := MetaOf(d, key).count + 1));
    assert History(d, key) + [] == History(d, key);
  }

  /** Replacing the history shows the old one, every line the log still holds, or the new one. */
  lemma SetHistoryNeverLoses(d: Disk, key: string, history: seq<Message>, n: nat)
    requires Sound(d, key) && n <= |Writes(d, Op.SetHistory(key, history))|
    ensures var c := CrashAfter(d, Op.SetHistory(key, history), n);
            && History(c, key) == (if n == 0 then History(d, key)
                                   else if n == 1 then Decoded(Filled(LinesIn(d, SanitizeKey(key)))) else history)
            && Summary(c, key) == Summary(d, key) && Sound(c, key)
  {
    hide Filled, Decoded;
    var ws := Writes(d, Op.SetHistory(key, history));
    PrefixesOfTwo(d, ws[0], ws[1], n);
    MetaOnly(d, key, MetaOf(d, key).(skip := 0, count := |history|));
    SkipNothing(LinesIn(d, SanitizeKey(key)));
    EncodedReadsBack(history);
    SkipNothing(Encode(history));
  }

  lemma {:induction false} VisibleIsSuffix(d: Disk, key: string)
    requires Sound(d, key)
    ensures exists hidden :: Decoded(Filled(LinesIn(d, SanitizeKey(key)))) == hidden + History(d, key)
  {
    hide Filled, Decoded;
    var filled, skip := Filled(LinesIn(d, SanitizeKey(key))), MetaOf(d, key).skip;
    assert filled == filled[..skip] + filled[skip..];
    DecodedConcat(filled[..skip], filled[skip..]);
    assert VisibleLines(d, key) == filled[skip..];
    assert Decoded(filled) == Decoded(filled[..skip]) + History(d, key);
  }

  /** Compaction never changes what a reader sees, except that a crash between its two writes
      may bring back messages that had been truncated, in front of the visible ones. */
  lemma CompactKeepsVisible(d: Disk, key: string, n: nat)
    requires Sound(d, key) && n <= |Writes(d, Save(key))|
    ensures var c := CrashAfter(d, Save(key), n);
            && Sound(c, key) && Summary(c, key) == Summary(d, key)
            && (exists back :: History(c, key) == back + History(d, key))
            && (n != 1 ==> History(c, key) == History(d, key))
  {
    hide Filled, Decoded, After;
    var ws := Writes(d, Save(key));
    assert [] + History(d, key) == History(d, key);
    if ws == [] {
      assert ws[..n] == [];
    } else {
      PrefixesOfTwo(d, ws[0], ws[1], n);
      var active := History(d, key);
      MetaOnly(d, key, MetaOf(d, key).(skip := 0, count := |active|));
      SkipNothing(LinesIn(d, SanitizeKey(key)));
      VisibleIsSuffix(d, key);
      EncodedReadsBack(active);
      SkipNothing(Encode(active));
    }
  }

  /** A finished compaction leaves nothing hidden: the log holds the visible messages and no other line. When
      nothing was hidden the directory stays as it was. */
  lemma CompactLeavesOnlyVisible(d: Disk, key: string)
    ensures var c := Step(d, Save(key));
            if MetaOf(d, key).skip == 0 then c == d
            else LinesIn(c, SanitizeKey(key)) == Encode(History(d, key)) && MetaOf(c, key).skip == 0
  {
    hide Filled, Decoded, After;
    var ws := Writes(d, Save(key));
    if ws != [] {
      ApplyTwo(d, ws[0], ws[1]);
    }
  }

  /** Truncation keeps exactly the last `keepLast` visible lines, whatever count an earlier
      crash left behind. */
  lemma {:induction false} TruncateKeepsLast(d: Disk, key: string, keepLast: int, n: nat)
    requires Sound(d, key) && n <= |Writes(d, Truncate(key, keepLast))|
    ensures var c := CrashAfter(d, Truncate(key, keepLast), n);
            && Sound(c, key) && Summary(c, key) == Summary(d, key)
            && VisibleLines(c, key) == (if n == 0 then VisibleLines(d, key)
                                        else Last(VisibleLines(d, key), if keepLast <= 0 then 0 else keepLast))
  {
    hide Filled, Decoded;
    var ws := Writes(d, Truncate(key, keepLast));
    PrefixesOfOne(d, ws[0], n);
    MetaOnly(d, key, ws[0].meta);
    var filled, skip := Filled(LinesIn(d, SanitizeKey(key))), MetaOf(d, key).skip;
    assert VisibleLines(d, key) == filled[skip..];
    var skip' := ws[0].meta.skip;
    assert filled[skip'..] == filled[skip..][skip' - skip..];
  }

  lemma EncodedEnd(ms: seq<Message>, from: nat)
    requires from <= |ms|
    ensures |Encode(ms)| == |ms| && Encode(ms)[from..] == Encode(ms[from..])
  {
  }

  lemma {:induction false} LastOfEncoded(ms: seq<Message>, k: nat)
    ensures Decoded(Last(Encode(ms), k)) == Last(ms, k)
  {
    hide Decoded, Filled;
    if k < |ms| {
      EncodedEnd(ms, |ms| - k);
      EncodedReadsBack(ms[|ms| - k..]);
    } else {
      EncodedReadsBack(ms);
    }
  }

  /** Soundness survives a crash at any point of any operation, on every session. */
  lemma CrashKeepsSound(d: Disk, op: Op, n: nat, key: string)
    requires Sound(d, key) && n <= |Writes(d, op)|
    ensures Sound(CrashAfter(d, op, n), key)
  {
    if SanitizeKey(key) != SanitizeKey(op.key) {
      WritesStayInFile(d, op, SanitizeKey(key));
      OtherFilesStay(d, Writes(d, op)[..n], SanitizeKey(key));
      SameFilesSameSession(d, CrashAfter(d, op, n), key);
    } else {
      CrashKeepsOwnSound(d, op, n, key);
    }
  }

  lemma CrashKeepsOwnSound(d: Disk, op: Op, n: nat, key: string)
    requires Sound(d, key) && n <= |Writes(d, op)| && SanitizeKey(key) == SanitizeKey(op.key)
    ensures Sound(CrashAfter(d, op, n), key)
  {
    hide Filled, Decoded, After, Writes;
    assert Sound(d, op.key);
    match op {
      case Add(k, msg) => AppendIsAllOrNothing(d, k, msg, n);
      case SetSummary(k, summary) => SummaryKeepsSound(d, k, summary, n);
      case Truncate(k, keepLast) => TruncateKeepsLast(d, k, keepLast, n);
      case SetHistory(k, history) => SetHistoryNeverLoses(d, k, history, n);
      case Save(k) => CompactKeepsVisible(d, k, n);
    }
    assert Sound(CrashAfter(d, op, n), op.key);
  }

  lemma SummaryKeepsSound(d: Disk, key: string, summary: string, n: nat)
    requires Sound(d, key) && n <= |Writes(d, SetSummary(key, summary))|
    ensures Sound(CrashAfter(d, SetSummary(key, summary), n), key)
    ensures History(CrashAfter(d, SetSummary(key, summary), n), key) == History(d, key)
    ensures Summary(CrashAfter(d, SetSummary(key, summary), n), key) == if n == 0 then Summary(d, key) else summary
  {
    var ws := Writes(d, SetSummary(key, summary));
    PrefixesOfOne(d, ws[0], n);
    MetaOnly(d, key, ws[0].meta);
  }

  // ---------------------------------------------------------------- whole runs

  /** An operation that ran to its end or stopped after `n` of its writes. */
  datatype Event = Event(op: Op, n: nat)

  /** A run: each event is an operation cut after at most `n` writes, followed by recovery. */
  function Run(d: Disk, es: seq<Event>): Disk
    decreases |es|
  {
    if es == [] then d
    else
      var ws := Writes(d, es[0].op);
      Run(ApplyAll(d, if es[0].n <= |ws| then ws[..es[0].n] else ws), es[1..])
  }

  /** However often the process dies and comes back, no session is left with hidden lines it
      does not have. */
  lemma {:induction false} RunKeepsSound(d: Disk, es: seq<Event>, key: string)
    requires Sound(d, key)
    ensures Sound(Run(d, es), key)
    decreases |es|
  {
    hide Sound, Writes;
    if es != [] {
      var ws := Writes(d, es[0].op);
      assert ws[..|ws|] == ws;
      var n := if es[0].n <= |ws| then es[0].n else |ws|;
      CrashKeepsSound(d, es[0].op, n, key);
      RunKeepsSound(CrashAfter(d, es[0].op, n), es[1..], key);
    }
  }

  /** Without the soundness that crashes preserve, an append could be swallowed: a skip past
      the end of the log hides the new line. */
  lemma UnsoundSkipSwallowsAppends(key: string, msg: Message)
    ensures var d := Disk(map[], map[SanitizeKey(key) := Meta(key, "", 1, 1)], []);
            !Sound(d, key) && History(Step(d, Add(key, msg)), key) == []
  {
    var d := Disk(map[], map[SanitizeKey(key) := Meta(key, "", 1, 1)], []);
    var ws := Writes(d, Add(key, msg));
    ApplyTwo(d, ws[0], ws[1]);
    assert [] + [Encoded(msg)] == [Encoded(msg)];
    assert [Encoded(msg)][1..] == [];
    assert Filled([Encoded(msg)]) == [Encoded(msg)];
  }
}
