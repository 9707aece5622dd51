/** Import of legacy snapshot files: a list of writes and renames that may be cut anywhere and
    simply run again. */
module Migration {
  import opened Messages
  import opened SessionLog
  import CrashLaws

  predicate HasSuffix(s: string, suffix: string) {
    |suffix| <= |s| && s[|s| - |suffix|..] == suffix
  }

  /** Is this directory entry a legacy snapshot to import? */
  predicate Eligible(e: Entry) {
    && e.content.Snapshot?
    && HasSuffix(e.name, ".json") && !HasSuffix(e.name, ".meta.json") && !HasSuffix(e.name, MIGRATED)
  }

  function KeyOf(e: Entry): string
    requires Eligible(e)
  {
    if e.content.key == "" then e.name[..|e.name| - |".json"|] else e.content.key
  }

  /** The state after importing history and summary, before the rename. */
  function Imported(d: Disk, key: string, c: Legacy): seq<Write>
    requires c.Snapshot?
  {
    var h := Writes(d, SetHistory(key, c.messages));
    h + if c.summary == "" then [] else Writes(ApplyAll(d, h), SetSummary(key, c.summary))
  }

  /** The writes that deal with entry `i`. */
  function EntryWrites(d: Disk, i: nat): seq<Write>
    requires i < |d.legacy|
  {
    if Eligible(d.legacy[i]) then Imported(d, KeyOf(d.legacy[i]), d.legacy[i].content) + [Rename(i)] else []
  }

  lemma {:induction false} EntriesStayInPlace(d: Disk, ws: seq<Write>)
    ensures |ApplyAll(d, ws).legacy| == |d.legacy|
    decreases |ws|
  {
    if ws != [] {
      EntriesStayInPlace(Apply(d, ws[0]), ws[1..]);
    }
  }

  /** All writes of an uninterrupted run from entry `i` on. */
  function MigrateWrites(d: Disk, i: nat): seq<Write>
    requires i <= |d.legacy|
    decreases |d.legacy| - i
  {
    if i == |d.legacy| then []
    else
      var ws := EntryWrites(d, i);
      EntriesStayInPlace(d, ws);
      ws + MigrateWrites(ApplyAll(d, ws), i + 1)
  }

  /** The directory an uninterrupted run from entry `i` on leaves. */
  function Migrated(d: Disk, i: nat): Disk
    requires i <= |d.legacy|
  {
    ApplyAll(d, MigrateWrites(d, i))
  }

  // ---------------------------------------------------------------- one entry

  /** What importing `c` under `key` leaves, however much of it was there before. */
  function After(d: Disk, key: string, c: Legacy): Disk
    requires c.Snapshot?
  {
    var f, meta := SanitizeKey(key), MetaOf(d, key);
    var meta' := meta.(skip := 0, count := |c.messages|, summary := if c.summary == "" then meta.summary else c.summary);
    d.(logs := d.logs[f := Encode(c.messages)], metas := d.metas[f := meta'])
  }

  /** The three prefixes of an import that matter to a rerun. */
  ghost predicate PartOf(d: Disk, d': Disk, key: string, c: Legacy)
    requires c.Snapshot?
  {
    var f, meta := SanitizeKey(key), MetaOf(d, key);
    var begun := meta.(skip := 0, count := |c.messages|);
    || d' == d
    || d' == d.(metas := d.metas[f := begun])
    || d' == d.(logs := d.logs[f := Encode(c.messages)], metas := d.metas[f := begun])
    || d' == After(d, key, c)
  }

  lemma ImportPrefix(d: Disk, key: string, c: Legacy, n: nat)
    requires c.Snapshot? && n <= |Imported(d, key, c)|
    ensures PartOf(d, ApplyAll(d, Imported(d, key, c)[..n]), key, c)
    ensures n == |Imported(d, key, c)| ==> ApplyAll(d, Imported(d, key, c)[..n]) == After(d, key, c)
  {
    var ws := Imported(d, key, c);
    var h := Writes(d, SetHistory(key, c.messages));
    var d2 := ApplyAll(d, h);
    ApplyTwo(d, h[0], h[1]);
    CrashLaws.PrefixesOfTwo(d, h[0], h[1], if n <= 2 then n else 2);
    if n <= 2 {
      assert ws[..n] == h[..n];
    }
    if c.summary == "" {
      assert h + [] == h && h[..2] == h;
    } else {
      var s := Writes(d2, SetSummary(key, c.summary));
      if n == 3 {
        assert ws[..3] == h + s;
        ApplyConcat(d, h, s);
        ApplyOne(d2, s[0]);
      }
    }
  }

  /** Importing again over any part of an import gives the same as importing once. */
  lemma ImportAgain(d: Disk, d': Disk, key: string, c: Legacy)
    requires c.Snapshot? && PartOf(d, d', key, c)
    ensures After(d', key, c) == After(d, key, c)
  {
    var f := SanitizeKey(key);
    var a, b := After(d', key, c), After(d, key, c);
    assert a.logs == b.logs;
    assert MetaOf(d', key).key == MetaOf(d, key).key;
    assert a.metas[f] == b.metas[f];
    assert a.metas == b.metas;
  }

  lemma RenamedIsNotEligible(e: Entry)
    ensures !Eligible(e.(name := e.name + MIGRATED))
  {
    var name := e.name + MIGRATED;
    assert name[|name| - |MIGRATED|..] == MIGRATED;
  }

  lemma ApplyEntry(d: Disk, i: nat)
    requires i < |d.legacy| && Eligible(d.legacy[i])
    ensures var e := d.legacy[i];
            ApplyAll(d, EntryWrites(d, i)) == Apply(After(d, KeyOf(e), e.content), Rename(i))
  {
    hide Imported, After, KeyOf, HasSuffix;
    var e := d.legacy[i];
    var ws := Imported(d, KeyOf(e), e.content);
    ImportPrefix(d, KeyOf(e), e.content, |ws|);
    assert ws[..|ws|] == ws;
    ApplyConcat(d, ws, [Rename(i)]);
    ApplyOne(ApplyAll(d, ws), Rename(i));
  }

  /** Once an entry has been dealt with there is nothing left to do for it. */
  lemma EntryIsDone(d: Disk, i: nat)
    requires i < |d.legacy|
    ensures var d' := ApplyAll(d, EntryWrites(d, i)); |d'.legacy| == |d.legacy| && !Eligible(d'.legacy[i])
  {
    if Eligible(d.legacy[i]) {
      ApplyEntry(d, i);
      RenamedIsNotEligible(d.legacy[i]);
    }
  }

  /** An entry cut after `n` of its writes and then taken up again ends where it would have. */
  lemma EntryResumes(d: Disk, i: nat, n: nat)
    requires i < |d.legacy| && n <= |EntryWrites(d, i)|
    ensures var d' := ApplyAll(d, EntryWrites(d, i)[..n]);
            |d'.legacy| == |d.legacy| && ApplyAll(d', EntryWrites(d', i)) == ApplyAll(d, EntryWrites(d, i))
  {
    var ws := EntryWrites(d, i);
    var d' := ApplyAll(d, ws[..n]);
    if !Eligible(d.legacy[i]) {
      assert ws[..n] == [];
    } else if n == |ws| {
      assert ws[..n] == ws;
      EntryIsDone(d, i);
    } else {
      var e := d.legacy[i];
      var im := Imported(d, KeyOf(e), e.content);
      assert ws[..n] == im[..n];
      ImportPrefix(d, KeyOf(e), e.content, n);
      ImportAgain(d, d', KeyOf(e), e.content);
      ApplyEntry(d, i);
      ApplyEntry(d', i);
    }
  }

  // ---------------------------------------------------------------- the whole directory

  /** Later entries do not disturb earlier ones. */
  lemma {:induction false} EarlierEntriesStay(d: Disk, ws: seq<Write>, i: nat)
    requires i < |d.legacy| && forall j: nat :: Rename(j) in ws ==> j > i
    ensures |ApplyAll(d, ws).legacy| == |d.legacy| && ApplyAll(d, ws).legacy[i] == d.legacy[i]
    decreases |ws|
  {
    if ws != [] {
      assert ws[0] in ws;
      assert forall j: nat :: Rename(j) in ws[1..] ==> Rename(j) in ws;
      EarlierEntriesStay(Apply(d, ws[0]), ws[1..], i);
    }
  }

  lemma EntryRenamesItself(d: Disk, i: nat, j: nat)
    requires i < |d.legacy| && Rename(j) in EntryWrites(d, i)
    ensures j == i
  {
  }

  lemma {:induction false} RenamesAreLater(d: Disk, i: nat, j: nat)
    requires i <= |d.legacy| && Rename(j) in MigrateWrites(d, i)
    ensures j >= i
    decreases |d.legacy| - i
  {
    hide EntryWrites, ApplyAll;
    if i < |d.legacy| {
      var ws := EntryWrites(d, i);
      EntriesStayInPlace(d, ws);
      if Rename(j) in ws {
        EntryRenamesItself(d, i, j);
      } else {
        RenamesAreLater(ApplyAll(d, ws), i + 1, j);
      }
    }
  }

  lemma MigratedStep(d: Disk, i: nat)
    requires i < |d.legacy|
    ensures var d' := ApplyAll(d, EntryWrites(d, i)); |d'.legacy| == |d.legacy| && Migrated(d, i) == Migrated(d', i + 1)
  {
    var ws := EntryWrites(d, i);
    EntriesStayInPlace(d, ws);
    ApplyConcat(d, ws, MigrateWrites(ApplyAll(d, ws), i + 1));
  }

  /** Crash after any `n` writes of the run from entry `i` on, start over at `i`: the same end. */
  lemma {:induction false} ResumeFrom(d: Disk, i: nat, n: nat)
    requires i <= |d.legacy| && n <= |MigrateWrites(d, i)|
    ensures var d' := ApplyAll(d, MigrateWrites(d, i)[..n]); |d'.legacy| == |d.legacy| && Migrated(d', i) == Migrated(d, i)
    decreases |d.legacy| - i
  {
    hide EntryWrites, Eligible, ApplyAll, Migrated;
    var all := MigrateWrites(d, i);
    var d' := ApplyAll(d, all[..n]);
    EntriesStayInPlace(d, all[..n]);
    if i == |d.legacy| {
      NoWrites(d);
      assert all[..n] == [];
    } else {
      var ws := EntryWrites(d, i);
      var done := ApplyAll(d, ws);
      EntriesStayInPlace(d, ws);
      MigratedStep(d, i);
      MigratedStep(d', i);
      if n <= |ws| {
        assert all[..n] == ws[..n];
        EntryResumes(d, i, n);
      } else {
        var later := MigrateWrites(done, i + 1);
        var m := n - |ws|;
        assert all[..n] == ws + later[..m];
        ApplyConcat(d, ws, later[..m]);
        ResumeFrom(done, i + 1, m);
        EntryStaysDone(d, i, later[..m]);
        NoWrites(d');
      }
    }
  }

  lemma NoWrites(d: Disk)
    ensures ApplyAll(d, []) == d
  {
  }

  lemma {:induction false} EntryStaysDone(d: Disk, i: nat, ws: seq<Write>)
    requires i < |d.legacy|
    requires var done := ApplyAll(d, EntryWrites(d, i));
             |done.legacy| == |d.legacy| && ws <= MigrateWrites(done, i + 1)
    ensures var d' := ApplyAll(ApplyAll(d, EntryWrites(d, i)), ws); |d'.legacy| == |d.legacy| && EntryWrites(d', i) == []
  {
    var done := ApplyAll(d, EntryWrites(d, i));
    EntryIsDone(d, i);
    forall j: nat | Rename(j) in ws ensures j > i {
      assert Rename(j) in MigrateWrites(done, i + 1);
      RenamesAreLater(done, i + 1, j);
    }
    EarlierEntriesStay(done, ws, i);
  }

  /** Runs that die after so many writes each, then one that is left alone. */
  function Rerun(d: Disk, crashes: seq<nat>): Disk
    decreases |crashes|
  {
    if crashes == [] then Migrated(d, 0)
    else
      var ws := MigrateWrites(d, 0);
      Rerun(ApplyAll(d, if crashes[0] <= |ws| then ws[..crashes[0]] else ws), crashes[1..])
  }

  /** Migration may crash at any write, any number of times, and be rerun: the directory ends
      up exactly as after one uninterrupted run. */
  lemma {:induction false} CrashesDoNotMatter(d: Disk, crashes: seq<nat>)
    ensures Rerun(d, crashes) == Migrated(d, 0)
    decreases |crashes|
  {
    hide Migrated;
    if crashes != [] {
      var ws := MigrateWrites(d, 0);
      var n := if crashes[0] <= |ws| then crashes[0] else |ws|;
      assert ws[..|ws|] == ws;
      ResumeFrom(d, 0, n);
      CrashesDoNotMatter(ApplyAll(d, ws[..n]), crashes[1..]);
    }
  }

  /** Running it again after success changes nothing. */
  lemma SecondRunDoesNothing(d: Disk)
    ensures |Migrated(d, 0).legacy| == |d.legacy| && Migrated(Migrated(d, 0), 0) == Migrated(d, 0)
  {
    var ws := MigrateWrites(d, 0);
    assert ws[..|ws|] == ws;
    ResumeFrom(d, 0, |ws|);
  }

  // ---------------------------------------------------------------- what is imported

  /** No later entry is imported into the file of `key`. */
  ghost predicate NotOverwritten(d: Disk, i: nat, f: string) {
    forall j :: i <= j < |d.legacy| && Eligible(d.legacy[j]) ==> SanitizeKey(KeyOf(d.legacy[j])) != f
  }

  /** One entry changes its own name and its own session's files, nothing else. */
  lemma {:induction false} EntryIsLocal(d: Disk, i: nat)
    requires i < |d.legacy|
    ensures var d' := ApplyAll(d, EntryWrites(d, i));
            && |d'.legacy| == |d.legacy| && (forall j :: 0 <= j < |d.legacy| && j != i ==> d'.legacy[j] == d.legacy[j])
            && forall f :: (Eligible(d.legacy[i]) ==> f != SanitizeKey(KeyOf(d.legacy[i]))) ==> CrashLaws.SameFiles(d, d', f)
  {
    hide Imported, KeyOf, Eligible, SanitizeKey;
    if Eligible(d.legacy[i]) {
      ApplyEntry(d, i);
    }
  }

  lemma {:induction false} UntouchedSession(d: Disk, i: nat, f: string)
    requires i <= |d.legacy| && NotOverwritten(d, i, f)
    ensures CrashLaws.SameFiles(d, Migrated(d, i), f)
    decreases |d.legacy| - i
  {
    hide EntryWrites, KeyOf, Eligible, SanitizeKey, Migrated;
    if i < |d.legacy| {
      MigratedStep(d, i);
      EntryIsLocal(d, i);
      var d' := ApplyAll(d, EntryWrites(d, i));
      assert CrashLaws.SameFiles(d, d', f);
      UntouchedSession(d', i + 1, f);
    } else {
      assert Migrated(d, i) == d by { NothingToMigrate(d); }
    }
  }

  lemma NothingToMigrate(d: Disk)
    ensures Migrated(d, |d.legacy|) == d
  {
  }

  /** An imported session reads back as its snapshot: its messages, and its summary if it has
      one, else the summary that was there. */
  lemma {:induction false} ImportReadsBack(d: Disk, i: nat, j: nat)
    requires i <= j < |d.legacy| && Eligible(d.legacy[j])
    requires NotOverwritten(d, j + 1, SanitizeKey(KeyOf(d.legacy[j])))
    ensures var e := d.legacy[j];
            && History(Migrated(d, i), KeyOf(e)) == e.content.messages
            && (e.content.summary != "" ==> Summary(Migrated(d, i), KeyOf(e)) == e.content.summary)
    decreases j - i
  {
    hide EntryWrites, KeyOf, Eligible, SanitizeKey, Migrated, History, Summary;
    MigratedStep(d, i);
    EntryIsLocal(d, i);
    var d' := ApplyAll(d, EntryWrites(d, i));
    if i < j {
      ImportReadsBack(d', i + 1, j);
    } else {
      var key := KeyOf(d.legacy[j]);
      EntryReadsBack(d, j);
      UntouchedSession(d', i + 1, SanitizeKey(key));
      CrashLaws.SameFilesSameSession(d', Migrated(d', i + 1), key);
    }
  }

  lemma EntryReadsBack(d: Disk, i: nat)
    requires i < |d.legacy| && Eligible(d.legacy[i])
    ensures var e, d' := d.legacy[i], ApplyAll(d, EntryWrites(d, i));
            && History(d', KeyOf(e)) == e.content.messages
            && (e.content.summary != "" ==> Summary(d', KeyOf(e)) == e.content.summary)
  {
    hide EntryWrites, KeyOf, HasSuffix, History, Summary, After;
    var e := d.legacy[i];
    ApplyEntry(d, i);
    AfterReadsBack(d, KeyOf(e), e.content);
    var a := After(d, KeyOf(e), e.content);
    CrashLaws.SameFilesSameSession(a, Apply(a, Rename(i)), KeyOf(e));
  }

  lemma AfterReadsBack(d: Disk, key: string, c: Legacy)
    requires c.Snapshot?
    ensures History(After(d, key, c), key) == c.messages
    ensures c.summary != "" ==> Summary(After(d, key, c), key) == c.summary
  {
    hide Filled, Decoded, SessionLog.After;
    EncodedReadsBack(c.messages);
    CrashLaws.SkipNothing(Encode(c.messages));
  }

  // ---------------------------------------------------------------- the loop

  /** The writes that import a snapshot: log and metadata, and the summary if there is one. */
  function ImportSize(c: Legacy): nat
    requires c.Snapshot?
  {
    if c.summary == "" then 2 else 3
  }

  /** The writes that the first `j` entries take, renames included. */
  function SizeTo(entries: seq<Entry>, j: nat): nat
    requires j <= |entries|
  {
    if j == 0 then 0
    else SizeTo(entries, j - 1) + if Eligible(entries[j - 1]) then ImportSize(entries[j - 1].content) + 1 else 0
  }

  /** The device holds out until this entry is imported. */
  predicate IsReached(entries: seq<Entry>, j: nat, budget: nat)
    requires j < |entries|
  {
    Eligible(entries[j]) && SizeTo(entries, j) + ImportSize(entries[j].content) <= budget
  }

  /** How many of the first `j` entries are imported. */
  function ReachedTo(entries: seq<Entry>, j: nat, budget: nat): nat
    requires j <= |entries|
  {
    if j == 0 then 0 else ReachedTo(entries, j - 1, budget) + if IsReached(entries, j - 1, budget) then 1 else 0
  }

  /** Where a migration stands before entry `i`: the writes spent so far are those of the entries
      before it, as far as the device held out. */
  ghost predicate StandsAt(d0: Disk, b0: nat, d: Disk, budget: nat, spent: seq<Write>, i: nat) {
    && i <= |d0.legacy| == |d.legacy| && (forall j :: i <= j < |d.legacy| ==> d.legacy[j] == d0.legacy[j])
    && d == ApplyAll(d0, spent) && |spent| + budget == b0
    && if SizeTo(d0.legacy, i) <= b0
       then |spent| == SizeTo(d0.legacy, i) && MigrateWrites(d0, 0) == spent + MigrateWrites(d, i)
       else budget == 0 && spent == Done(MigrateWrites(d0, 0), b0)
  }

  /** `MigrateFromJSON`: import and rename entry by entry. It ends with an error at the first import
      that fails; a failed rename is not one. The count is of the entries that were imported. */
  method MigrateFromJSON(store: JSONLStore) returns (migrated: nat, ok: bool)
    modifies store
    ensures store.disk == ApplyAll(old(store.disk), Done(MigrateWrites(old(store.disk), 0), old(store.budget)))
    ensures old(store.budget) >= |MigrateWrites(old(store.disk), 0)| ==> store.disk == Migrated(old(store.disk), 0)
    ensures migrated == ReachedTo(old(store.disk.legacy), |old(store.disk.legacy)|, old(store.budget))
    ensures ok <==> forall j: nat :: j < |old(store.disk.legacy)| && Eligible(old(store.disk.legacy)[j]) ==>
                                       IsReached(old(store.disk.legacy), j, old(store.budget))
  {
    hide EntryWrites, KeyOf, Eligible, MigrateWrites, StandsAt, ApplyAll, Done, SizeTo;
    var entries := store.disk.legacy;
    migrated, ok := 0, true;
    ghost var d0, b0 := store.disk, store.budget;
    ghost var spent: seq<Write> := [];
    StandsAtStart(d0, b0);
    for i := 0 to |entries|
      invariant StandsAt(d0, b0, store.disk, store.budget, spent, i)
      invariant migrated == ReachedTo(entries, i, b0)
      invariant forall j: nat :: j < i && Eligible(entries[j]) ==> IsReached(entries, j, b0)
    {
      var e := entries[i];
      ghost var here, left := store.disk, store.budget;
      EligibleIs(e);
      if !(e.content.Snapshot? && HasSuffix(e.name, ".json")) || HasSuffix(e.name, ".meta.json") || HasSuffix(e.name, MIGRATED) {
        StandsAfterNothing(d0, b0, here, left, spent, i);
        continue;
      }
      StandsAfterEntry(d0, b0, here, left, spent, i);
      var done := ImportEntry(store, i);
      spent := spent + Done(EntryWrites(here, i), left);
      if !done {
        NoneReached(entries, i, b0);
        StandsAtEnd(d0, b0, store.disk, store.budget, spent, i + 1);
        return migrated, false;
      }
      migrated := migrated + 1;
    }
    StandsAtEnd(d0, b0, store.disk, store.budget, spent, |entries|);
  }

  lemma StandsAtStart(d: Disk, budget: nat)
    ensures StandsAt(d, budget, d, budget, [], 0)
  {
    hide MigrateWrites;
    assert [] + MigrateWrites(d, 0) == MigrateWrites(d, 0);
  }

  lemma StandsAfterNothing(d0: Disk, b0: nat, d: Disk, budget: nat, spent: seq<Write>, i: nat)
    requires StandsAt(d0, b0, d, budget, spent, i) && i < |d0.legacy| && !Eligible(d0.legacy[i])
    ensures StandsAt(d0, b0, d, budget, spent, i + 1)
  {
    hide Eligible, ApplyAll, MigrateWrites;
    NothingForEntry(d, i);
  }

  lemma StandsAfterEntry(d0: Disk, b0: nat, d: Disk, budget: nat, spent: seq<Write>, i: nat)
    requires StandsAt(d0, b0, d, budget, spent, i) && i < |d0.legacy| && Eligible(d0.legacy[i])
    ensures i < |d.legacy| && d.legacy[i] == d0.legacy[i]
    ensures var ws := Done(EntryWrites(d, i), budget);
            StandsAt(d0, b0, ApplyAll(d, ws), budget - |ws|, spent + ws, i + 1)
    ensures var imported := budget >= ImportSize(d0.legacy[i].content);
            && (imported <==> IsReached(d0.legacy, i, b0))
            && (!imported ==> SizeTo(d0.legacy, i + 1) > b0)
  {
    hide Eligible, ApplyAll, MigrateWrites, EntryWrites;
    var ws := EntryWrites(d, i);
    var part := Done(ws, budget);
    EntrySize(d, i);
    OthersStay(d, i, part);
    ApplyConcat(d0, spent, part);
    if SizeTo(d0.legacy, i) <= b0 {
      Split(d0, spent, ws, MigrateWrites(ApplyAll(d, ws), i + 1), b0);
      assert |ws| <= budget ==> part == ws;
    } else {
      assert spent + [] == spent;
    }
  }

  lemma StandsAtEnd(d0: Disk, b0: nat, d: Disk, budget: nat, spent: seq<Write>, i: nat)
    requires StandsAt(d0, b0, d, budget, spent, i) && (i == |d0.legacy| || SizeTo(d0.legacy, i) > b0)
    ensures d == ApplyAll(d0, Done(MigrateWrites(d0, 0), b0))
    ensures b0 >= |MigrateWrites(d0, 0)| ==> d == Migrated(d0, 0)
  {
    hide Eligible, ApplyAll;
    assert spent + [] == spent;
  }

  /** Part of an entry's writes leaves the other entries as they are. */
  lemma OthersStay(d: Disk, i: nat, ws: seq<Write>)
    requires i < |d.legacy| && ws <= EntryWrites(d, i)
    ensures var d' := ApplyAll(d, ws);
            |d'.legacy| == |d.legacy| && forall j :: 0 <= j < |d.legacy| && j != i ==> d'.legacy[j] == d.legacy[j]
  {
    hide EntryWrites, ApplyAll;
    forall j: nat | Rename(j) in ws ensures j == i {
      assert Rename(j) in EntryWrites(d, i);
      EntryRenamesItself(d, i, j);
    }
    OnlyRenamed(d, i, ws);
  }

  lemma {:induction false} OnlyRenamed(d: Disk, i: nat, ws: seq<Write>)
    requires forall j: nat :: Rename(j) in ws ==> j == i
    ensures var d' := ApplyAll(d, ws);
            |d'.legacy| == |d.legacy| && forall j :: 0 <= j < |d.legacy| && j != i ==> d'.legacy[j] == d.legacy[j]
    decreases |ws|
  {
    if ws != [] {
      assert ws[0] in ws && forall w :: w in ws[1..] ==> w in ws;
      OnlyRenamed(Apply(d, ws[0]), i, ws[1..]);
    }
  }

  lemma EligibleIs(e: Entry)
    ensures Eligible(e) <==>
            e.content.Snapshot? && HasSuffix(e.name, ".json") && !HasSuffix(e.name, ".meta.json") && !HasSuffix(e.name, MIGRATED)
  {
  }

  lemma EntrySize(d: Disk, i: nat)
    requires i < |d.legacy| && Eligible(d.legacy[i])
    ensures |EntryWrites(d, i)| == ImportSize(d.legacy[i].content) + 1
    ensures |ApplyAll(d, EntryWrites(d, i)).legacy| == |d.legacy|
    ensures MigrateWrites(d, i) == EntryWrites(d, i) + MigrateWrites(ApplyAll(d, EntryWrites(d, i)), i + 1)
  {
    hide Eligible, KeyOf, SanitizeKey, Writes, ApplyAll;
    EntriesStayInPlace(d, EntryWrites(d, i));
    var e := d.legacy[i];
    EligibleName(e);
    var d' := ApplyAll(d, Writes(d, SetHistory(KeyOf(e), e.content.messages)));
    ImportSizes(d, KeyOf(e), e.content);
    ImportSizes(d', KeyOf(e), e.content);
  }

  /** Once the device fails, no later entry is imported. */
  lemma {:induction false} NoneReached(entries: seq<Entry>, i: nat, budget: nat)
    requires i < |entries| && Eligible(entries[i]) && !IsReached(entries, i, budget)
    ensures ReachedTo(entries, |entries|, budget) == ReachedTo(entries, i, budget)
  {
    hide Eligible;
    NoneReachedTo(entries, i, |entries|, budget);
  }

  lemma {:induction false} NoneReachedTo(entries: seq<Entry>, i: nat, j: nat, budget: nat)
    requires i < |entries| && Eligible(entries[i]) && !IsReached(entries, i, budget) && i <= j <= |entries|
    ensures ReachedTo(entries, j, budget) == ReachedTo(entries, i, budget)
    ensures j > i ==> SizeTo(entries, j) > budget
  {
    hide Eligible;
    if j > i {
      NoneReachedTo(entries, i, j - 1, budget);
    }
  }

  lemma NothingForEntry(d: Disk, i: nat)
    requires i < |d.legacy| && !Eligible(d.legacy[i])
    ensures EntryWrites(d, i) == [] && MigrateWrites(d, i) == MigrateWrites(d, i + 1)
  {
    assert [] + MigrateWrites(d, i + 1) == MigrateWrites(d, i + 1);
  }

  /** What a failing device makes of a run, entry by entry. */
  lemma Split(d: Disk, spent: seq<Write>, ws: seq<Write>, later: seq<Write>, budget: nat)
    requires |spent| <= budget
    ensures spent + (ws + later) == spent + ws + later
    ensures ApplyAll(d, spent + ws) == ApplyAll(ApplyAll(d, spent), ws)
    ensures budget - |spent| < |ws| ==>
              && Done(spent + (ws + later), budget) == spent + Done(ws, budget - |spent|)
              && ApplyAll(d, spent + Done(ws, budget - |spent|)) == ApplyAll(ApplyAll(d, spent), Done(ws, budget - |spent|))
  {
    hide ApplyAll;
    ApplyConcat(d, spent, ws);
    var n := budget - |spent|;
    if n < |ws| {
      assert (spent + (ws + later))[..budget] == spent + ws[..n];
      ApplyConcat(d, spent, ws[..n]);
    }
  }

  lemma EligibleName(e: Entry)
    requires Eligible(e)
    ensures e.content.Snapshot? && |e.name| >= |".json"|
  {
  }

  /** History, then summary, then the rename that marks the entry as done; an error only if the
      history or the summary could not be written. */
  method ImportEntry(store: JSONLStore, i: nat) returns (ok: bool)
    requires i < |store.disk.legacy| && Eligible(store.disk.legacy[i])
    modifies store
    ensures var ws := EntryWrites(old(store.disk), i);
            && ok == (old(store.budget) >= ImportSize(old(store.disk.legacy)[i].content))
            && store.disk == ApplyAll(old(store.disk), Done(ws, old(store.budget)))
            && store.budget == old(store.budget) - |Done(ws, old(store.budget))|
  {
    hide SanitizeKey, HasSuffix, ApplyAll, Writes;
    var e := store.disk.legacy[i];
    EligibleName(e);
    var key := e.content.key;
    if key == "" {
      key := e.name[..|e.name| - |".json"|];
    }
    ghost var d0, b0 := store.disk, store.budget;
    ghost var ws := EntryWrites(d0, i);
    ghost var h := Writes(d0, SetHistory(key, e.content.messages));
    assert h <= ws;
    ImportSizes(d0, key, e.content);
    ok := store.SetHistory(key, e.content.messages);
    if !ok {
      assert Done(ws, b0) == Done(h, b0);
      return;
    }
    ghost var done := h;
    if e.content.summary != "" {
      ImportSizes(store.disk, key, e.content);
      ghost var s := Writes(store.disk, SetSummary(key, e.content.summary));
      ok := store.SetSummary(key, e.content.summary);
      if !ok {
        ApplyConcat(d0, h, []);
        assert Done(s, b0 - 2) == [] && h + [] == h;
        assert Done(ws, b0) == h;
        return;
      }
      ApplyConcat(d0, h, s);
      done := h + s;
    } else {
      assert h + [] == h;
    }
    assert ws == done + [Rename(i)];
    var _ := store.Write(Rename(i));
    assert Done(ws, b0) == done + Done([Rename(i)], b0 - |done|);
    ApplyConcat(d0, done, Done([Rename(i)], b0 - |done|));
  }

  lemma ImportSizes(d: Disk, key: string, c: Legacy)
    requires c.Snapshot?
    ensures |Writes(d, SetHistory(key, c.messages))| == 2 && |Writes(d, SetSummary(key, c.summary))| == 1
  {
  }

  // ---------------------------------------------------------------- what is imported, and under which key

  /** A snapshot is imported if its name ends in ".json", but not if it is a metadata record. */
  lemma EligibleIff(e: Entry)
    ensures Eligible(e) <==>
            e.content.Snapshot? && (exists stem :: e.name == stem + ".json") && !exists stem :: e.name == stem + ".meta.json"
  {
    SuffixIff(e.name, ".json");
    SuffixIff(e.name, ".meta.json");
    if HasSuffix(e.name, ".json") {
      JsonIsNotMigrated(e.name);
    }
  }

  lemma JsonIsNotMigrated(s: string)
    requires HasSuffix(s, ".json")
    ensures !HasSuffix(s, MIGRATED)
  {
    assert s[|s| - 5..][4] == s[|s| - 1];
    assert |s| >= 9 ==> s[|s| - 9..][8] == s[|s| - 1];
  }

  lemma SuffixIff(s: string, suffix: string)
    ensures HasSuffix(s, suffix) <==> exists stem :: s == stem + suffix
  {
    if HasSuffix(s, suffix) {
      assert s == s[..|s| - |suffix|] + suffix;
    }
  }

  /** Under the key it names, or, when it names none, its file name without ".json". */
  lemma KeyIs(e: Entry, stem: string)
    requires Eligible(e) && e.name == stem + ".json"
    ensures KeyOf(e) == if e.content.key != "" then e.content.key else stem
  {
  }
}
