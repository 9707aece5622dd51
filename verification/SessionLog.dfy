/** The crash-safe session store: one append-only line log and one metadata record per
    session. The directory is a value; every operation is a list of atomic writes on it, and
    a crash (or a failing device) is a prefix of that list. */
module SessionLog {
  import opened Messages

  datatype Line = Blank | Corrupt | Encoded(msg: Message)

  datatype Meta = Meta(key: string, summary: string, skip: int, count: int)

  /** A legacy snapshot file waiting to be imported, as found in the directory. */
  datatype Legacy = Folder | Unreadable | Malformed | Snapshot(key: string, messages: seq<Message>, summary: string)

  datatype Entry = Entry(name: string, content: Legacy)

  datatype Disk = Disk(logs: map<string, seq<Line>>, metas: map<string, Meta>, legacy: seq<Entry>)

  datatype Write =
    | Append(file: string, line: Line)
    | PutLog(file: string, lines: seq<Line>)
    | PutMeta(file: string, meta: Meta)
    | Rename(index: nat)

  const MIGRATED: string := ".migrated"

  function Apply(d: Disk, w: Write): Disk {
    match w
    case Append(f, line) => d.(logs := d.logs[f := LinesIn(d, f) + [line]])
    case PutLog(f, lines) => d.(logs := d.logs[f := lines])
    case PutMeta(f, meta) => d.(metas := d.metas[f := meta])
    case Rename(i) =>
      if i < |d.legacy| then d.(legacy := d.legacy[i := d.legacy[i].(name := d.legacy[i].name + MIGRATED)]) else d
  }

  function ApplyAll(d: Disk, ws: seq<Write>): Disk
    decreases |ws|
  {
    if ws == [] then d else ApplyAll(Apply(d, ws[0]), ws[1..])
  }

  // ---------------------------------------------------------------- reading

  function SanitizeRune(c: char): char {
    if c == ':' || c == '/' || c == '\\' then '_' else c
  }

  /** A session key as a file name component. */
  function SanitizeKey(key: string): string {
    seq(|key|, i requires 0 <= i < |key| => SanitizeRune(key[i]))
  }

  function LinesIn(d: Disk, f: string): seq<Line> {
    if f in d.logs then d.logs[f] else []
  }

  function MetaOf(d: Disk, key: string): Meta {
    var f := SanitizeKey(key);
    if f in d.metas then d.metas[f] else Meta(key, "", 0, 0)
  }

  /** The lines that count: empty ones do not. */
  function Filled(lines: seq<Line>): seq<Line> {
    if lines == [] then [] else (if lines[0].Blank? then [] else [lines[0]]) + Filled(lines[1..])
  }

  /** The messages of the lines that decode. */
  function Decoded(lines: seq<Line>): seq<Message> {
    if lines == [] then [] else (if lines[0].Encoded? then [lines[0].msg] else []) + Decoded(lines[1..])
  }

  /** The counted lines after the first `skip` of them. */
  function After(lines: seq<Line>, skip: int): seq<Line> {
    var filled := Filled(lines);
    if skip <= 0 then filled else if skip >= |filled| then [] else filled[skip..]
  }

  /** The lines of a session that truncation has not hidden. */
  function VisibleLines(d: Disk, key: string): seq<Line> {
    After(LinesIn(d, SanitizeKey(key)), MetaOf(d, key).skip)
  }

  function History(d: Disk, key: string): seq<Message> {
    Decoded(VisibleLines(d, key))
  }

  function Summary(d: Disk, key: string): string {
    MetaOf(d, key).summary
  }

  function LineCount(d: Disk, key: string): nat {
    |Filled(LinesIn(d, SanitizeKey(key)))|
  }

  function Encode(ms: seq<Message>): seq<Line> {
    seq(|ms|, i requires 0 <= i < |ms| => Encoded(ms[i]))
  }

  // ---------------------------------------------------------------- writing

  datatype Op =
    | Add(key: string, msg: Message)
    | SetSummary(key: string, summary: string)
    | Truncate(key: string, keepLast: int)
    | SetHistory(key: string, history: seq<Message>)
    | Save(key: string)

  function NewSkip(count: int, skip: int, keepLast: int): int {
    if keepLast <= 0 then count else if keepLast < count - skip then count - keepLast else skip
  }

  /** The atomic writes of one operation, in order. */
  function Writes(d: Disk, op: Op): seq<Write> {
    var f, meta := SanitizeKey(op.key), MetaOf(d, op.key);
    match op
    case Add(_, msg) =>
      [Append(f, Encoded(msg)), PutMeta(f, meta.(count := meta.count + 1))]
    case SetSummary(_, summary) =>
      [PutMeta(f, meta.(summary := summary))]
    case Truncate(key, keepLast) =>
      var n := LineCount(d, key);
      [PutMeta(f, meta.(count := n, skip := NewSkip(n, meta.skip, keepLast)))]
    case SetHistory(_, history) =>
      [PutMeta(f, meta.(skip := 0, count := |history|)), PutLog(f, Encode(history))]
    case Save(key) =>
      if meta.skip == 0 then []
      else
        var active := History(d, key);
        [PutMeta(f, meta.(skip := 0, count := |active|)), PutLog(f, Encode(active))]
  }

  function Step(d: Disk, op: Op): Disk {
    ApplyAll(d, Writes(d, op))
  }

  /** The directory when the power fails after `n` of the writes of `op`. */
  function CrashAfter(d: Disk, op: Op, n: nat): Disk
    requires n <= |Writes(d, op)|
  {
    ApplyAll(d, Writes(d, op)[..n])
  }

  // ---------------------------------------------------------------- facts

  lemma {:induction false} ApplyConcat(d: Disk, a: seq<Write>, b: seq<Write>)
    ensures ApplyAll(d, a + b) == ApplyAll(ApplyAll(d, a), b)
    decreases |a|
  {
    if a == [] {
      assert a + b == b;
    } else {
      assert (a + b)[0] == a[0] && (a + b)[1..] == a[1..] + b;
      ApplyConcat(Apply(d, a[0]), a[1..], b);
    }
  }

  lemma ApplyOne(d: Disk, w: Write)
    ensures ApplyAll(d, [w]) == Apply(d, w)
  {
    assert [w][1..] == [];
  }

  lemma ApplyTwo(d: Disk, v: Write, w: Write)
    ensures ApplyAll(d, [v, w]) == Apply(Apply(d, v), w)
  {
    assert [v, w][1..] == [w];
    ApplyOne(Apply(d, v), w);
  }

  lemma {:induction false} FilledHead(a: seq<Line>)
    requires a != []
    ensures Filled(a) == Filled([a[0]]) + Filled(a[1..])
  {
    assert [a[0]][1..] == [];
  }

  lemma {:induction false} DecodedHead(a: seq<Line>)
    requires a != []
    ensures Decoded(a) == Decoded([a[0]]) + Decoded(a[1..])
  {
    assert [a[0]][1..] == [];
  }

  lemma {:induction false} FilledConcat(a: seq<Line>, b: seq<Line>)
    ensures Filled(a + b) == Filled(a) + Filled(b)
  {
    if a == [] {
      assert a + b == b;
    } else {
      assert (a + b)[1..] == a[1..] + b && (a + b)[0] == a[0];
      FilledConcat(a[1..], b);
      assert Filled([a[0]]) + (Filled(a[1..]) + Filled(b)) == Filled([a[0]]) + Filled(a[1..]) + Filled(b);
      FilledHead(a);
      FilledHead(a + b);
    }
  }

  lemma {:induction false} DecodedConcat(a: seq<Line>, b: seq<Line>)
    ensures Decoded(a + b) == Decoded(a) + Decoded(b)
  {
    if a == [] {
      assert a + b == b;
    } else {
      assert (a + b)[1..] == a[1..] + b && (a + b)[0] == a[0];
      DecodedConcat(a[1..], b);
      assert Decoded([a[0]]) + (Decoded(a[1..]) + Decoded(b)) == Decoded([a[0]]) + Decoded(a[1..]) + Decoded(b);
      DecodedHead(a);
      DecodedHead(a + b);
    }
  }

  lemma {:induction false} EncodedReadsBack(ms: seq<Message>)
    ensures Filled(Encode(ms)) == Encode(ms) && Decoded(Encode(ms)) == ms
  {
    if ms != [] {
      assert Encode(ms)[1..] == Encode(ms[1..]);
      EncodedReadsBack(ms[1..]);
    }
  }

  lemma {:induction false} FilledAreFilled(lines: seq<Line>)
    ensures Filled(Filled(lines)) == Filled(lines)
  {
    if lines != [] {
      FilledAreFilled(lines[1..]);
      var head := if lines[0].Blank? then [] else [lines[0]];
      FilledConcat(head, Filled(lines[1..]));
    }
  }

  // ---------------------------------------------------------------- the store

  /** What a crash or failing device makes of a list of writes: the first `budget` of them. */
  function Done(ws: seq<Write>, budget: nat): seq<Write> {
    if budget < |ws| then ws[..budget] else ws
  }

  class JSONLStore {
    var disk: Disk
    /** How many more writes the device will take before it fails. */
    var budget: nat

    constructor (disk: Disk, budget: nat)
      ensures this.disk == disk && this.budget == budget
    {
      this.disk, this.budget := disk, budget;
    }

    /** One atomic write: an appended line, an atomically replaced file, or a rename. */
    method Write(w: Write) returns (ok: bool)
      modifies this
      ensures ok == (old(budget) > 0)
      ensures disk == ApplyAll(old(disk), Done([w], old(budget)))
      ensures budget == old(budget) - |Done([w], old(budget))|
    {
      ApplyOne(disk, w);
      ok := budget > 0;
      if ok {
        disk, budget := Apply(disk, w), budget - 1;
      }
    }

    method ReadMeta(key: string) returns (meta: Meta)
      ensures meta == MetaOf(disk, key)
    {
      var f := SanitizeKey(key);
      if f !in disk.metas {
        return Meta(key, "", 0, 0);
      }
      meta := disk.metas[f];
    }

    method AddMsg(key: string, msg: Message) returns (ok: bool)
      modifies this
      ensures ok == (old(budget) >= |Writes(old(disk), Add(key, msg))|)
      ensures disk == ApplyAll(old(disk), Done(Writes(old(disk), Add(key, msg)), old(budget)))
    {
      var f := SanitizeKey(key);
      ok := Write(Append(f, Encoded(msg)));
      if !ok {
        return;
      }
      var meta := ReadMeta(key);
      meta := meta.(count := meta.count + 1);
      ghost var ws := Writes(old(disk), Add(key, msg));
      ApplyOne(old(disk), ws[0]);
      ApplyTwo(old(disk), ws[0], ws[1]);
      ApplyOne(disk, ws[1]);
      assert Done(ws, 1) == [ws[0]];
      ok := Write(PutMeta(f, meta));
    }

    method GetHistory(key: string) returns (msgs: seq<Message>)
      ensures msgs == History(disk, key)
    {
      var meta := ReadMeta(key);
      msgs := ReadMessages(LinesIn(disk, SanitizeKey(key)), meta.skip);
    }

    method GetSummary(key: string) returns (summary: string)
      ensures summary == Summary(disk, key)
    {
      var meta := ReadMeta(key);
      summary := meta.summary;
    }

    method SetSummary(key: string, summary: string) returns (ok: bool)
      modifies this
      ensures ok == (old(budget) >= |Writes(old(disk), Op.SetSummary(key, summary))|)
      ensures disk == ApplyAll(old(disk), Done(Writes(old(disk), Op.SetSummary(key, summary)), old(budget)))
      ensures budget == old(budget) - |Done(Writes(old(disk), Op.SetSummary(key, summary)), old(budget))|
    {
      var meta := ReadMeta(key);
      meta := meta.(summary := summary);
      ok := Write(PutMeta(SanitizeKey(key), meta));
    }

    method TruncateHistory(key: string, keepLast: int) returns (ok: bool)
      modifies this
      ensures ok == (old(budget) >= |Writes(old(disk), Truncate(key, keepLast))|)
      ensures disk == ApplyAll(old(disk), Done(Writes(old(disk), Truncate(key, keepLast)), old(budget)))
    {
      var meta := ReadMeta(key);
      var n := CountLines(LinesIn(disk, SanitizeKey(key)));
      meta := meta.(count := n);
      if keepLast <= 0 {
        meta := meta.(skip := meta.count);
      } else {
        var effective := meta.count - meta.skip;
        if keepLast < effective {
          meta := meta.(skip := meta.count - keepLast);
        }
      }
      ok := Write(PutMeta(SanitizeKey(key), meta));
    }

    /** Metadata first, then the log: a crash in between shows too much, never too little. */
    method ReplaceLog(key: string, meta: Meta, history: seq<Message>) returns (ok: bool)
      modifies this
      ensures var ws := [PutMeta(SanitizeKey(key), meta.(skip := 0, count := |history|)), PutLog(SanitizeKey(key), Encode(history))];
              && ok == (old(budget) >= 2)
              && disk == ApplyAll(old(disk), Done(ws, old(budget)))
              && budget == old(budget) - |Done(ws, old(budget))|
    {
      var f := SanitizeKey(key);
      ghost var v, w := PutMeta(f, meta.(skip := 0, count := |history|)), PutLog(f, Encode(history));
      ApplyOne(old(disk), v);
      ApplyTwo(old(disk), v, w);
      assert [v, w][..1] == [v];
      ok := Write(PutMeta(f, meta.(skip := 0, count := |history|)));
      if !ok {
        return;
      }
      ApplyOne(disk, w);
      ok := Write(PutLog(f, Encode(history)));
    }

    method SetHistory(key: string, history: seq<Message>) returns (ok: bool)
      modifies this
      ensures ok == (old(budget) >= |Writes(old(disk), Op.SetHistory(key, history))|)
      ensures disk == ApplyAll(old(disk), Done(Writes(old(disk), Op.SetHistory(key, history)), old(budget)))
      ensures budget == old(budget) - |Done(Writes(old(disk), Op.SetHistory(key, history)), old(budget))|
    {
      var meta := ReadMeta(key);
      ok := ReplaceLog(key, meta, history);
    }

    method Compact(key: string) returns (ok: bool)
      modifies this
      ensures ok == (old(budget) >= |Writes(old(disk), Save(key))|)
      ensures disk == ApplyAll(old(disk), Done(Writes(old(disk), Save(key)), old(budget)))
    {
      var meta := ReadMeta(key);
      if meta.skip == 0 {
        return true;
      }
      var active := ReadMessages(LinesIn(disk, SanitizeKey(key)), meta.skip);
      ok := ReplaceLog(key, meta, active);
    }
  }

  /** Count lines while reading; decode only those past `skip`, and pass over corrupt ones. */
  method ReadMessages(lines: seq<Line>, skip: int) returns (msgs: seq<Message>)
    ensures msgs == Decoded(After(lines, skip))
  {
    hide After, Decoded, Filled;
    msgs := [];
    var lineNum := 0;
    assert lines[..0] == [];
    NothingRead(skip);
    for i := 0 to |lines|
      invariant lineNum == |Filled(lines[..i])|
      invariant msgs == Decoded(After(lines[..i], skip))
    {
      assert lines[..i + 1] == lines[..i] + [lines[i]];
      ReadOne(lines[..i], lines[i], skip);
      if lines[i].Blank? {
        continue;
      }
      lineNum := lineNum + 1;
      if lineNum <= skip {
        continue;
      }
      if lines[i].Corrupt? {
        continue;
      }
      msgs := msgs + [lines[i].msg];
    }
    assert lines[..|lines|] == lines;
  }

  lemma NothingRead(skip: int)
    ensures Filled([]) == [] && After([], skip) == [] && Decoded([]) == []
  {
  }

  /** What one more line adds to the visible messages. */
  lemma {:induction false} ReadOne(lines: seq<Line>, line: Line, skip: int)
    ensures |Filled(lines + [line])| == |Filled(lines)| + (if line.Blank? then 0 else 1)
    ensures Decoded(After(lines + [line], skip)) == Decoded(After(lines, skip))
                                                    + (if line.Encoded? && |Filled(lines)| >= skip then [line.msg] else [])
  {
    FilledConcat(lines, [line]);
    assert [line][1..] == [];
    assert Filled([line]) == if line.Blank? then [] else [line];
    assert Filled(lines) + [] == Filled(lines);
    var before := Decoded(After(lines, skip));
    assert before + [] == before;
    if !line.Blank? && |Filled(lines)| >= skip {
      AfterGrows(lines, line, skip);
      assert Decoded([line]) == if line.Encoded? then [line.msg] else [];
    }
  }

  lemma {:induction false} AfterGrows(lines: seq<Line>, line: Line, skip: int)
    requires !line.Blank? && skip <= |Filled(lines)|
    ensures After(lines + [line], skip) == After(lines, skip) + [line]
    ensures Decoded(After(lines + [line], skip)) == Decoded(After(lines, skip)) + Decoded([line])
  {
    hide Decoded;
    FilledConcat(lines, [line]);
    assert [line][1..] == [];
    assert Filled([line]) == [line];
    var filled := Filled(lines);
    assert skip > 0 ==> (filled + [line])[skip..] == filled[skip..] + [line];
    DecodedConcat(After(lines, skip), [line]);
  }

  method CountLines(lines: seq<Line>) returns (n: nat)
    ensures n == |Filled(lines)|
  {
    n := 0;
    for i := 0 to |lines|
      invariant n == |Filled(lines[..i])|
    {
      assert lines[..i + 1] == lines[..i] + [lines[i]];
      FilledConcat(lines[..i], [lines[i]]);
      assert Filled([lines[i]]) == if lines[i].Blank? then [] else [lines[i]];
      if !lines[i].Blank? {
        n := n + 1;
      }
    }
    assert lines[..|lines|] == lines;
  }
}
