/** The line-log store behaves like the in-memory one: same histories, same summaries,
    whatever skip offsets and compactions do underneath. */
module Refinement {
  import opened Messages
  import opened SessionLog
  import opened CrashLaws
  import Mem = SessionManager

  /** No two keys in use share a file. */
  ghost predicate Separate(keys: set<string>) {
    forall k, k' :: k in keys && k' in keys && SanitizeKey(k) == SanitizeKey(k') ==> k == k'
  }

  ghost predicate AllEncoded(lines: seq<Line>) {
    forall i :: 0 <= i < |lines| ==> lines[i].Encoded?
  }

  /** The files of `key` hold what the in-memory session holds. */
  ghost predicate Holds(d: Disk, m: Mem.Sessions, key: string) {
    && Sound(d, key)
    && AllEncoded(LinesIn(d, SanitizeKey(key)))
    && History(d, key) == Mem.History(m, key)
    && Summary(d, key) == Mem.Summary(m, key)
    && (key !in m ==> LinesIn(d, SanitizeKey(key)) == [])
  }

  ghost predicate Refines(d: Disk, m: Mem.Sessions, keys: set<string>) {
    forall k <- keys :: Holds(d, m, k)
  }

  /** Set operations are used only on sessions something was added to. */
  predicate Permitted(op: Op, m: Mem.Sessions) {
    op.SetSummary? || op.SetHistory? ==> op.key in m
  }

  // ---------------------------------------------------------------- one session

  lemma {:induction false} EncodedLines(lines: seq<Line>)
    requires AllEncoded(lines)
    ensures Filled(lines) == lines && |Decoded(lines)| == |lines| && Encode(Decoded(lines)) == lines
  {
    if lines != [] {
      EncodedLines(lines[1..]);
    }
  }

  lemma {:induction false} VisibleEncoded(d: Disk, key: string)
    requires Sound(d, key) && AllEncoded(LinesIn(d, SanitizeKey(key)))
    ensures AllEncoded(VisibleLines(d, key)) && VisibleLines(d, key) == Encode(History(d, key))
  {
    hide Filled, Decoded;
    var lines := LinesIn(d, SanitizeKey(key));
    EncodedLines(lines);
    EncodedLines(VisibleLines(d, key));
  }

  lemma LinesAfterMeta(d: Disk, f: string, meta: Meta)
    ensures LinesIn(ApplyAll(d, [PutMeta(f, meta)]), f) == LinesIn(d, f)
  {
    ApplyOne(d, PutMeta(f, meta));
  }

  lemma AddHolds(d: Disk, m: Mem.Sessions, key: string, msg: Message)
    requires Holds(d, m, key)
    ensures Holds(Step(d, Add(key, msg)), Mem.Step(m, Add(key, msg)), key)
  {
    hide Filled, Decoded, After;
    var ws := Writes(d, Add(key, msg));
    AppendIsAllOrNothing(d, key, msg, 2);
    assert ws[..2] == ws;
    ApplyTwo(d, ws[0], ws[1]);
    assert LinesIn(Step(d, Add(key, msg)), SanitizeKey(key)) == LinesIn(d, SanitizeKey(key)) + [Encoded(msg)];
  }

  lemma SetSummaryHolds(d: Disk, m: Mem.Sessions, key: string, summary: string)
    requires Holds(d, m, key) && key in m
    ensures Holds(Step(d, SetSummary(key, summary)), Mem.Step(m, SetSummary(key, summary)), key)
  {
    var ws := Writes(d, SetSummary(key, summary));
    SummaryKeepsSound(d, key, summary, 1);
    assert ws[..1] == ws;
    LinesAfterMeta(d, SanitizeKey(key), ws[0].meta);
  }

  lemma SetHistoryHolds(d: Disk, m: Mem.Sessions, key: string, history: seq<Message>)
    requires Holds(d, m, key) && key in m
    ensures Holds(Step(d, SetHistory(key, history)), Mem.Step(m, SetHistory(key, history)), key)
  {
    hide Filled, Decoded, After;
    var ws := Writes(d, SetHistory(key, history));
    SetHistoryNeverLoses(d, key, history, 2);
    assert ws[..2] == ws;
    ApplyTwo(d, ws[0], ws[1]);
  }

  lemma TruncateHolds(d: Disk, m: Mem.Sessions, key: string, keepLast: int)
    requires Holds(d, m, key)
    ensures Holds(Step(d, Truncate(key, keepLast)), Mem.Step(m, Truncate(key, keepLast)), key)
  {
    hide Filled, Decoded, After;
    var ws := Writes(d, Truncate(key, keepLast));
    TruncateKeepsLast(d, key, keepLast, 1);
    assert ws[..1] == ws;
    LinesAfterMeta(d, SanitizeKey(key), ws[0].meta);
    VisibleEncoded(d, key);
    LastOfEncoded(History(d, key), if keepLast <= 0 then 0 else keepLast);
    if key !in m {
      assert Mem.KeepLast([], keepLast) == [];
    }
  }

  lemma SaveHolds(d: Disk, m: Mem.Sessions, key: string)
    requires Holds(d, m, key)
    ensures Holds(Step(d, Save(key)), Mem.Step(m, Save(key)), key)
  {
    hide Filled, Decoded, After;
    var ws := Writes(d, Save(key));
    CompactKeepsVisible(d, key, |ws|);
    assert ws[..|ws|] == ws;
    if ws != [] {
      ApplyTwo(d, ws[0], ws[1]);
      assert key in m by {
        NoLinesNoSkip(d, key);
      }
    }
  }

  lemma NoLinesNoSkip(d: Disk, key: string)
    requires Sound(d, key)
    ensures LinesIn(d, SanitizeKey(key)) == [] ==> MetaOf(d, key).skip == 0
  {
  }

  // ---------------------------------------------------------------- one operation, all sessions

  lemma OwnSessionHolds(d: Disk, m: Mem.Sessions, op: Op)
    requires Holds(d, m, op.key) && Permitted(op, m)
    ensures Holds(Step(d, op), Mem.Step(m, op), op.key)
  {
    hide Holds, Step, Mem.Step;
    match op {
      case Add(k, msg) => AddHolds(d, m, k, msg);
      case SetSummary(k, summary) => SetSummaryHolds(d, m, k, summary);
      case SetHistory(k, history) => SetHistoryHolds(d, m, k, history);
      case Truncate(k, keepLast) => TruncateHolds(d, m, k, keepLast);
      case Save(k) => SaveHolds(d, m, k);
    }
  }

  lemma OtherSessionHolds(d: Disk, m: Mem.Sessions, op: Op, key: string)
    requires Holds(d, m, key) && SanitizeKey(key) != SanitizeKey(op.key)
    ensures Holds(Step(d, op), Mem.Step(m, op), key)
  {
    WritesStayInFile(d, op, SanitizeKey(key));
    OtherFilesStay(d, Writes(d, op), SanitizeKey(key));
    SameFilesSameSession(d, Step(d, op), key);
    assert key != op.key;
  }

  lemma StepRefines(d: Disk, m: Mem.Sessions, op: Op, keys: set<string>)
    requires Separate(keys) && op.key in keys && Refines(d, m, keys) && Permitted(op, m)
    ensures Refines(Step(d, op), Mem.Step(m, op), keys)
  {
    hide Holds, Step, Mem.Step;
    forall k | k in keys ensures Holds(Step(d, op), Mem.Step(m, op), k) {
      if k == op.key {
        OwnSessionHolds(d, m, op);
      } else {
        OtherSessionHolds(d, m, op, k);
      }
    }
  }

  // ---------------------------------------------------------------- whole runs

  function RunDisk(d: Disk, ops: seq<Op>): Disk
    decreases |ops|
  {
    if ops == [] then d else RunDisk(Step(d, ops[0]), ops[1..])
  }

  function RunMem(m: Mem.Sessions, ops: seq<Op>): Mem.Sessions
    decreases |ops|
  {
    if ops == [] then m else RunMem(Mem.Step(m, ops[0]), ops[1..])
  }

  ghost predicate AllPermitted(ops: seq<Op>, m: Mem.Sessions)
    decreases |ops|
  {
    ops != [] ==> Permitted(ops[0], m) && AllPermitted(ops[1..], Mem.Step(m, ops[0]))
  }

  /** The two stores answer every read alike. */
  ghost predicate SameReads(d: Disk, m: Mem.Sessions, keys: set<string>) {
    forall k <- keys :: History(d, k) == Mem.History(m, k) && Summary(d, k) == Mem.Summary(m, k)
  }

  lemma {:induction false} RunRefines(d: Disk, m: Mem.Sessions, ops: seq<Op>, keys: set<string>)
    requires Separate(keys) && Refines(d, m, keys) && AllPermitted(ops, m) && forall op <- ops :: op.key in keys
    ensures Refines(RunDisk(d, ops), RunMem(m, ops), keys)
    decreases |ops|
  {
    hide Refines, Step, Mem.Step, Permitted;
    if ops != [] {
      assert ops[0] in ops;
      StepRefines(d, m, ops[0], keys);
      RunRefines(Step(d, ops[0]), Mem.Step(m, ops[0]), ops[1..], keys);
    }
  }

  /** From an empty directory and an empty store, after any crash-free run. */
  lemma StoresAgree(ops: seq<Op>, keys: set<string>, legacy: seq<Entry>)
    requires Separate(keys) && AllPermitted(ops, map[]) && forall op <- ops :: op.key in keys
    ensures SameReads(RunDisk(Disk(map[], map[], legacy), ops), RunMem(map[], ops), keys)
  {
    hide RunDisk, RunMem;
    RunRefines(Disk(map[], map[], legacy), map[], ops, keys);
  }

  // ---------------------------------------------------------------- where the premises bite

  /** Exactly which operations keep the two stores in agreement: all but a set operation that
      stores something for a session that was never added to. */
  lemma AgreeIffHarmless(d: Disk, m: Mem.Sessions, op: Op, keys: set<string>)
    requires Separate(keys) && op.key in keys && Refines(d, m, keys)
    ensures SameReads(Step(d, op), Mem.Step(m, op), keys) <==>
            (op.key in m || ((op.SetSummary? ==> op.summary == "") && (op.SetHistory? ==> op.history == [])))
  {
    hide Holds;
    if Permitted(op, m) {
      StepRefines(d, m, op, keys);
      RefinesSameReads(Step(d, op), Mem.Step(m, op), keys);
    } else {
      forall k | k in keys && k != op.key
        ensures History(Step(d, op), k) == Mem.History(m, k) && Summary(Step(d, op), k) == Mem.Summary(m, k)
      {
        OtherSessionHolds(d, m, op, k);
        HoldsReads(Step(d, op), Mem.Step(m, op), k);
      }
      HoldsReads(d, m, op.key);
      SetOnAbsent(d, op);
    }
  }

  lemma HoldsReads(d: Disk, m: Mem.Sessions, key: string)
    requires Holds(d, m, key)
    ensures History(d, key) == Mem.History(m, key) && Summary(d, key) == Mem.Summary(m, key) && Sound(d, key)
  {
  }

  lemma RefinesSameReads(d: Disk, m: Mem.Sessions, keys: set<string>)
    requires Refines(d, m, keys)
    ensures SameReads(d, m, keys)
  {
  }

  lemma SetOnAbsent(d: Disk, op: Op)
    requires (op.SetSummary? || op.SetHistory?) && Sound(d, op.key)
    ensures op.SetSummary? ==> History(Step(d, op), op.key) == History(d, op.key) && Summary(Step(d, op), op.key) == op.summary
    ensures op.SetHistory? ==> History(Step(d, op), op.key) == op.history && Summary(Step(d, op), op.key) == Summary(d, op.key)
  {
    hide Filled, Decoded, After;
    var ws := Writes(d, op);
    assert ws[..|ws|] == ws;
    if op.SetSummary? {
      SummaryKeepsSound(d, op.key, op.summary, 1);
    } else {
      SetHistoryNeverLoses(d, op.key, op.history, 2);
    }
  }

  /** Keys that sanitize alike share their files, so a message added under one shows under the other. */
  lemma CollidingKeysShareASession(k: string, k': string, msg: Message)
    requires k != k' && SanitizeKey(k) == SanitizeKey(k')
    ensures var d := Step(Disk(map[], map[], []), Add(k, msg)); History(d, k') == [msg] != Mem.History(Mem.Step(map[], Add(k, msg)), k')
  {
    var d0 := Disk(map[], map[], []);
    AppendIsAllOrNothing(d0, k, msg, 2);
    var ws := Writes(d0, Add(k, msg));
    assert ws[..2] == ws;
    assert [] + [msg] == [msg];
    ApplyTwo(d0, ws[0], ws[1]);
  }

  /** The runes that a file name cannot tell apart. */
  predicate Blurred(c: char) { c == ':' || c == '/' || c == '\\' || c == '_' }

  /** Two keys share a file if and only if they differ only in colons, slashes, backslashes and underscores. */
  lemma KeysCollideIff(k: string, k': string)
    ensures SanitizeKey(k) == SanitizeKey(k') <==>
            |k| == |k'| && forall i :: 0 <= i < |k| ==> k[i] == k'[i] || (Blurred(k[i]) && Blurred(k'[i]))
  {
    assert |SanitizeKey(k)| == |k| && |SanitizeKey(k')| == |k'|;
    if |k| == |k'| {
      forall i | 0 <= i < |k|
        ensures SanitizeKey(k)[i] == SanitizeKey(k')[i] <==> k[i] == k'[i] || (Blurred(k[i]) && Blurred(k'[i]))
      {
      }
    }
  }

  /** A key without such runes, underscores aside, is its own file name. */
  lemma PlainKeyIsItsFile(k: string)
    requires forall i :: 0 <= i < |k| && Blurred(k[i]) ==> k[i] == '_'
    ensures SanitizeKey(k) == k
  {
  }
}
