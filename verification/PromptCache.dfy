/** The cached system prompt, checked against file times before each use. */
module PromptCache {
  import opened Common
  import opened DiskHistory

  /** 1970-01-01 00:00:01, in nanoseconds since the zero time. */
  const FLOOR: int := 62_135_596_801_000_000_000

  datatype Baseline = Baseline(existed: map<Path, bool>, skillFiles: map<Path, int>, maxMtime: int)

  // What one look at a path at moment n says, compared with a baseline.

  predicate SourceSame(existed: map<Path, bool>, maxMtime: int, t: Timeline, n: nat, p: Path) {
    && ((p in existed && existed[p]) <==> p in t(n))
    && (p in t(n) ==> t(n)[p].mtime <= maxMtime)
  }

  predicate SkillSame(files: map<Path, int>, t: Timeline, n: nat, k: Path) {
    && (k in files <==> k in t(n))
    && (k in t(n) ==> files[k] == t(n)[k].mtime)
  }

  /** At some moment from `lo` to `hi` the path looked as the baseline says. */
  ghost predicate SourceSameIn(b: Baseline, t: Timeline, lo: nat, hi: nat, p: Path) {
    exists n :: lo <= n <= hi && SourceSame(b.existed, b.maxMtime, t, n, p)
  }

  ghost predicate SkillSameIn(b: Baseline, t: Timeline, lo: nat, hi: nat, k: Path) {
    exists n :: lo <= n <= hi && SkillSame(b.skillFiles, t, n, k)
  }

  ghost predicate NothingThere(b: Baseline) {
    b.skillFiles == map[] && forall p <- b.existed :: !b.existed[p]
  }

  /** What was read of a path at moment n. */
  predicate TextAt(texts: map<Path, string>, t: Timeline, n: nat, p: Path) {
    (p in texts <==> p in t(n)) && (p in t(n) ==> texts[p] == t(n)[p].content)
  }

  ghost predicate TextIn(texts: map<Path, string>, t: Timeline, lo: nat, hi: nat, p: Path) {
    exists n :: lo <= n <= hi && TextAt(texts, t, n, p)
  }

  /** A file that is there at moment n is in what was read, with the content it has then. */
  predicate Current(texts: map<Path, string>, t: Timeline, n: nat, p: Path) {
    p in t(n) ==> p in texts && texts[p] == t(n)[p].content
  }

  predicate Absent(t: Timeline, n: nat, p: Path) { p !in t(n) }

  ghost predicate AbsentIn(t: Timeline, lo: nat, hi: nat, p: Path) {
    exists n :: lo <= n <= hi && Absent(t, n, p)
  }

  /** What was read is what is there at moment n; or the file is gone again, as it was at some
      moment while the baseline was taken, from `started` to `from`. */
  ghost predicate Accounted(texts: map<Path, string>, t: Timeline, started: nat, from: nat, n: nat, p: Path) {
    Current(texts, t, n, p) && (p in texts && Absent(t, n, p) ==> AbsentIn(t, started, from, p))
  }

  ghost predicate AccountedIn(texts: map<Path, string>, t: Timeline, started: nat, from: nat, lo: nat, hi: nat, p: Path) {
    exists n :: lo <= n <= hi && Accounted(texts, t, started, from, n, p)
  }

  /** Nothing happened to the path from `lo` to `hi`. */
  ghost predicate Quiet(t: Timeline, lo: nat, hi: nat, p: Path) {
    forall n :: lo <= n <= hi ==> (p in t(n) <==> p in t(hi)) && (p in t(n) ==> t(n)[p] == t(hi)[p])
  }

  /** A baseline taken by `from` can only be met again by files that were not touched since. */
  lemma SameSourceIsCurrent(b: Baseline, t: Timeline, stamp: nat -> int, texts: map<Path, string>,
                            started: nat, from: nat, built: nat, lo: nat, hi: nat, p: Path)
    requires Stamped(t, stamp) && (NothingThere(b) || b.maxMtime < stamp(from)) && SourceSameIn(b, t, started, from, p)
    requires SourceSameIn(b, t, lo, hi, p) && TextIn(texts, t, from, built, p) && built <= lo
    ensures AccountedIn(texts, t, started, from, lo, hi, p)
  {
    var s :| started <= s <= from && SourceSame(b.existed, b.maxMtime, t, s, p);
    var n :| lo <= n <= hi && SourceSame(b.existed, b.maxMtime, t, n, p);
    var r :| from <= r <= built && TextAt(texts, t, r, p);
    if p in t(n) {
      UntouchedSince(t, stamp, from, r, n, p);
    } else {
      assert Absent(t, s, p);
    }
    assert Accounted(texts, t, started, from, n, p);
  }

  lemma SameSkillIsCurrent(b: Baseline, t: Timeline, stamp: nat -> int, texts: map<Path, string>,
                           started: nat, from: nat, built: nat, lo: nat, hi: nat, k: Path)
    requires Stamped(t, stamp) && SkillSameIn(b, t, started, from, k)
    requires SkillSameIn(b, t, lo, hi, k) && TextIn(texts, t, from, built, k) && built <= lo
    ensures AccountedIn(texts, t, started, from, lo, hi, k)
  {
    var s :| started <= s <= from && SkillSame(b.skillFiles, t, s, k);
    var n :| lo <= n <= hi && SkillSame(b.skillFiles, t, n, k);
    var r :| from <= r <= built && TextAt(texts, t, r, k);
    if k in t(n) {
      FilesAreOlder(t, stamp, s, k);
      UntouchedSince(t, stamp, s, r, n, k);
    } else {
      assert Absent(t, s, k);
    }
    assert Accounted(texts, t, started, from, n, k);
  }

  lemma Wider(b: Baseline, texts: map<Path, string>, t: Timeline, lo: nat, hi: nat, hi': nat)
    requires hi <= hi'
    ensures forall p :: SourceSameIn(b, t, lo, hi, p) ==> SourceSameIn(b, t, lo, hi', p)
    ensures forall k :: SkillSameIn(b, t, lo, hi, k) ==> SkillSameIn(b, t, lo, hi', k)
    ensures forall p :: TextIn(texts, t, lo, hi, p) ==> TextIn(texts, t, lo, hi', p)
  {
    hide SourceSame, SkillSame, TextAt;
  }

  lemma Earlier(texts: map<Path, string>, t: Timeline, started: nat, from: nat, lo: nat, lo': nat, hi: nat)
    requires lo <= lo'
    ensures forall p :: AccountedIn(texts, t, started, from, lo', hi, p) ==> AccountedIn(texts, t, started, from, lo, hi, p)
  {
    hide Accounted;
  }

  lemma QuietShrinks(t: Timeline, lo: nat, hi: nat, hi': nat, p: Path)
    requires lo <= hi <= hi' && Quiet(t, lo, hi', p)
    ensures Quiet(t, lo, hi, p)
  {
  }

  lemma HigherFloor(b: Baseline, b': Baseline, t: Timeline, lo: nat, hi: nat)
    requires b' == b.(maxMtime := b'.maxMtime) && b.maxMtime <= b'.maxMtime
    ensures forall p :: SourceSameIn(b, t, lo, hi, p) ==> SourceSameIn(b', t, lo, hi, p)
    ensures forall k :: SkillSameIn(b, t, lo, hi, k) ==> SkillSameIn(b', t, lo, hi, k)
  {
    forall p | SourceSameIn(b, t, lo, hi, p) ensures SourceSameIn(b', t, lo, hi, p) {
      var n :| lo <= n <= hi && SourceSame(b.existed, b.maxMtime, t, n, p);
      assert SourceSame(b'.existed, b'.maxMtime, t, n, p);
    }
  }

  lemma StampsArePositive(t: Timeline, stamp: nat -> int, n: nat)
    requires Stamped(t, stamp)
    ensures 0 < stamp(n)
  {
    assert 0 < n ==> stamp(0) < stamp(n);
  }

  /** Noting what one path looks like at moment `now` keeps what was noted of the others. */
  lemma NoteSource(b: Baseline, t: Timeline, lo: nat, hi: nat, now: nat, p: Path, max: int)
    requires lo <= hi <= now && b.maxMtime <= max && (p in t(now) ==> t(now)[p].mtime <= max)
    ensures var b' := b.(existed := b.existed[p := p in t(now)], maxMtime := max);
            SourceSameIn(b', t, lo, now, p) && forall q :: SourceSameIn(b, t, lo, hi, q) ==> SourceSameIn(b', t, lo, now, q)
  {
    var b' := b.(existed := b.existed[p := p in t(now)], maxMtime := max);
    assert SourceSame(b'.existed, max, t, now, p);
    forall q | q != p && SourceSameIn(b, t, lo, hi, q) ensures SourceSameIn(b', t, lo, now, q) {
      var n :| lo <= n <= hi && SourceSame(b.existed, b.maxMtime, t, n, q);
      assert SourceSame(b'.existed, max, t, n, q);
    }
  }

  ghost function SkillNoted(b: Baseline, t: Timeline, now: nat, k: Path, max: int): Baseline {
    b.(skillFiles := if k in t(now) then b.skillFiles[k := t(now)[k].mtime] else b.skillFiles, maxMtime := max)
  }

  lemma NoteText(texts: map<Path, string>, texts': map<Path, string>, t: Timeline, lo: nat, hi: nat, now: nat, p: Path)
    requires lo <= hi <= now && p !in texts
    requires texts' == if p in t(now) then texts[p := t(now)[p].content] else texts
    ensures TextIn(texts', t, lo, now, p)
    ensures forall q :: q != p && TextIn(texts, t, lo, hi, q) ==> TextIn(texts', t, lo, now, q)
  {
    assert TextAt(texts', t, now, p);
    forall q | q != p && TextIn(texts, t, lo, hi, q) ensures TextIn(texts', t, lo, now, q) {
      var n :| lo <= n <= hi && TextAt(texts, t, n, q);
      assert TextAt(texts', t, n, q);
    }
  }

  lemma NoteSkill(b: Baseline, t: Timeline, lo: nat, hi: nat, now: nat, k: Path, max: int)
    requires lo <= hi <= now && b.maxMtime <= max && k !in b.skillFiles
    ensures var b' := SkillNoted(b, t, now, k, max);
            && SkillSameIn(b', t, lo, now, k)
            && (forall q :: q != k && SkillSameIn(b, t, lo, hi, q) ==> SkillSameIn(b', t, lo, now, q))
            && (forall q :: SourceSameIn(b, t, lo, hi, q) ==> SourceSameIn(b', t, lo, now, q))
  {
    var b' := SkillNoted(b, t, now, k, max);
    assert SkillSame(b'.skillFiles, t, now, k);
    forall q | q != k && SkillSameIn(b, t, lo, hi, q) ensures SkillSameIn(b', t, lo, now, q) {
      var n :| lo <= n <= hi && SkillSame(b.skillFiles, t, n, q);
      assert SkillSame(b'.skillFiles, t, n, q);
    }
    forall q | SourceSameIn(b, t, lo, hi, q) ensures SourceSameIn(b', t, lo, now, q) {
      var n :| lo <= n <= hi && SourceSame(b.existed, b.maxMtime, t, n, q);
      assert SourceSame(b'.existed, max, t, n, q);
    }
  }

  ghost function Contents(t: Timeline, n: nat, inputs: set<Path>): map<Path, string> {
    map p | p in inputs && p in t(n) :: t(n)[p].content
  }

  /** The file was not there when the baseline was taken, was there when it was read, and is gone. */
  ghost predicate Flickered(texts: map<Path, string>, t: Timeline, started: nat, from: nat, n: nat, p: Path) {
    AbsentIn(t, started, from, p) && p in texts && Absent(t, n, p)
  }

  /** If nothing changes while the paths are checked, the cached prompt is made of exactly what
      a rebuild would read, if and only if no file flickered. */
  lemma HitEqualsRebuild(texts: map<Path, string>, t: Timeline, started: nat, from: nat, lo: nat, hi: nat,
                         inputs: set<Path>, render: map<Path, string> -> string)
    requires texts.Keys <= inputs
    requires forall p <- inputs :: AccountedIn(texts, t, started, from, lo, hi, p) && Quiet(t, lo, hi, p)
    ensures texts == Contents(t, hi, inputs) <==> forall p <- inputs :: !Flickered(texts, t, started, from, hi, p)
    ensures (forall p <- inputs :: !Flickered(texts, t, started, from, hi, p)) ==>
              render(texts) == render(Contents(t, hi, inputs))
  {
    hide AbsentIn;
    forall p | p in inputs
      ensures p in t(hi) ==> p in texts && texts[p] == t(hi)[p].content
      ensures p in texts && p !in t(hi) ==> Flickered(texts, t, started, from, hi, p)
    {
      var n :| lo <= n <= hi && Accounted(texts, t, started, from, n, p);
    }
    if forall p <- inputs :: !Flickered(texts, t, started, from, hi, p) {
      assert texts == Contents(t, hi, inputs);
    }
  }

  /** A file that is there only while the prompt is built is missed: absent at the baseline,
      read, and absent again at the check. */
  lemma FlickerIsMissed(p: Path, content: string)
    ensures var t: Timeline := n => if n == 1 then map[p := File(1, content)] else map[];
            var b, texts := Baseline(map[p := false], map[], FLOOR), map[p := content];
            && Stamped(t, n => n + 1) && SourceSame(b.existed, b.maxMtime, t, 0, p) && TextAt(texts, t, 1, p)
            && SourceSame(b.existed, b.maxMtime, t, 2, p) && texts != Contents(t, 2, {p})
  {
    var t: Timeline := n => if n == 1 then map[p := File(1, content)] else map[];
    var stamp: nat -> int := n => n + 1;
    forall n: nat ensures Moves(t, stamp, n) {
      assert t(1) == Written(t(0), p, File(stamp(0), content));
      assert t(2) == Deleted(t(1), p);
    }
    assert p !in Contents(t, 2, {p});
  }

  class ContextBuilder {
    const fs: FileSystem
    const sourcePaths: seq<Path>
    const skillRoots: seq<Path>
    /** Every path under the skill roots at which a file may ever be. */
    const skillTree: set<Path>
    /** The prompt made of what was read of the tracked files. */
    const render: map<Path, string> -> string

    var cachedSystemPrompt: string
    var cachedAt: int
    var existedAtCache: Option<map<Path, bool>>
    var skillFilesAtCache: Option<map<Path, int>>

    /** What was read for the cached prompt, and when its baseline and its reading began and ended. */
    ghost var texts: map<Path, string>
    ghost var started: nat
    ghost var from: nat
    ghost var built: nat

    ghost predicate Source(p: Path) { p in sourcePaths || p in skillRoots }

    ghost predicate Tracked(p: Path) { Source(p) || p in skillTree }

    ghost predicate Input(p: Path) { p in sourcePaths || p in skillTree }

    ghost predicate AllSame(b: Baseline, lo: nat, hi: nat) {
      && (forall p :: Source(p) ==> SourceSameIn(b, fs.t, lo, hi, p))
      && (forall k <- skillTree :: SkillSameIn(b, fs.t, lo, hi, k))
    }

    ghost predicate Drifted(b: Baseline, n: nat, p: Path) {
      || (Source(p) && !SourceSame(b.existed, b.maxMtime, fs.t, n, p))
      || (p in skillTree && !SkillSame(b.skillFiles, fs.t, n, p))
    }

    ghost predicate DriftedIn(b: Baseline, lo: nat, hi: nat) {
      exists p, n :: lo <= n <= hi && Drifted(b, n, p)
    }

    ghost predicate Recorded(b: Baseline, lo: nat, hi: nat) {
      && b.maxMtime != 0 && (NothingThere(b) || b.maxMtime < fs.stamp(hi))
      && b.skillFiles.Keys <= skillTree
      && AllSame(b, lo, hi)
    }

    ghost predicate TextsOf(texts: map<Path, string>, lo: nat, hi: nat) {
      && (forall p <- texts :: Input(p))
      && (forall p :: Input(p) ==> TextIn(texts, fs.t, lo, hi, p))
    }

    ghost predicate Cached()
      reads this
    {
      cachedSystemPrompt != "" && existedAtCache.Some? && skillFilesAtCache.Some?
    }

    ghost function Base(): Baseline
      requires Cached()
      reads this
    {
      Baseline(existedAtCache.value, skillFilesAtCache.value, cachedAt)
    }

    ghost predicate Valid()
      reads this, fs
    {
      && Stamped(fs.t, fs.stamp)
      && (cachedSystemPrompt != "" ==>
            && Cached() && started <= from <= built <= fs.now
            && Recorded(Base(), started, from)
            && TextsOf(texts, from, built) && cachedSystemPrompt == render(texts))
    }

    constructor (fs: FileSystem, sourcePaths: seq<Path>, skillRoots: seq<Path>, skillTree: set<Path>,
                 render: map<Path, string> -> string)
      requires Stamped(fs.t, fs.stamp)
      ensures Valid() && cachedSystemPrompt == "" && this.fs == fs && this.render == render
      ensures this.sourcePaths == sourcePaths && this.skillRoots == skillRoots && this.skillTree == skillTree
    {
      this.fs, this.sourcePaths, this.skillRoots, this.skillTree := fs, sourcePaths, skillRoots, skillTree;
      this.render := render;
      cachedSystemPrompt, cachedAt, existedAtCache, skillFilesAtCache := "", 0, None, None;
    }

    method InvalidateCache()
      requires Valid()
      modifies this
      ensures Valid() && cachedSystemPrompt == "" && cachedAt == 0 && existedAtCache == None
      ensures skillFilesAtCache == None
    {
      cachedSystemPrompt, cachedAt, existedAtCache, skillFilesAtCache := "", 0, None, None;
    }

    /** The cached prompt if every tracked path still looks as it did; otherwise a new one. Either
        the cache is as it was before the call, or its baseline was taken during the call. */
    method BuildSystemPromptWithCache() returns (prompt: string, ghost hit: bool)
      requires Valid()
      modifies this, fs
      ensures Valid() && old(fs.now) <= fs.now && prompt == cachedSystemPrompt == render(texts)
      ensures hit ==> prompt != "" &&
                      forall p :: Input(p) ==> AccountedIn(texts, fs.t, started, from, old(fs.now), fs.now, p)
      ensures (hit && unchanged(this)) || (old(fs.now) <= started && started <= from <= built <= fs.now && TextsOf(texts, from, built))
      ensures old(cachedSystemPrompt) != "" ==>
                unchanged(this) || exists p :: Tracked(p) && !Quiet(fs.t, old(started), fs.now, p)
    {
      hide Recorded, AllSame, TextsOf, DriftedIn, Quiet, AccountedIn;
      ghost var drifted: Path := "";
      ghost var first := fs.now;
      if cachedSystemPrompt != "" {
        var changed := SourceFilesChanged();
        if !changed {
          StillCurrent(first);
          return cachedSystemPrompt, true;
        }
        drifted := DriftIsNoise(first);
      }
      ghost var second := fs.now;
      OthersCall();
      ghost var third := fs.now;
      var changed := true;
      if cachedSystemPrompt != "" {
        changed := SourceFilesChanged();
      }
      if changed {
        prompt := Rebuild();
        hit := false;
      } else {
        StillCurrent(third);
        Earlier(texts, fs.t, started, from, first, third, fs.now);
        prompt, hit := cachedSystemPrompt, true;
      }
      if old(cachedSystemPrompt) != "" && Quiet(fs.t, old(started), fs.now, drifted) {
        QuietShrinks(fs.t, old(started), second, fs.now, drifted);
      }
    }

    /** While no lock is held, other calls may rebuild or invalidate the cache. */
    method OthersCall()
      requires Valid()
      modifies this, fs
      ensures Valid() && old(fs.now) <= fs.now
      ensures unchanged(this) || cachedSystemPrompt == "" || old(fs.now) <= started
    {
      hide Recorded, TextsOf;
      var calls: nat :| calls >= 0;
      for i := 0 to calls
        invariant Valid() && old(fs.now) <= fs.now
        invariant unchanged(this) || cachedSystemPrompt == "" || old(fs.now) <= started
      {
        fs.Wait();
        if {
          case true =>
            InvalidateCache();
          case true =>
            var _ := Rebuild();
        }
      }
    }

    method Rebuild() returns (prompt: string)
      requires Stamped(fs.t, fs.stamp)
      modifies this, fs
      ensures Valid() && prompt == cachedSystemPrompt == render(texts)
      ensures old(fs.now) <= started <= from <= built <= fs.now && TextsOf(texts, from, built)
    {
      hide Recorded, TextsOf, AllSame;
      started := fs.now;
      var baseline := BuildCacheBaseline();
      from := fs.now;
      prompt, texts := BuildSystemPrompt();
      built := fs.now;
      cachedSystemPrompt := prompt;
      cachedAt := baseline.maxMtime;
      existedAtCache := Some(baseline.existed);
      skillFilesAtCache := Some(baseline.skillFiles);
      assert prompt != "" ==> Base() == baseline;
    }

    lemma StillCurrent(lo: nat)
      requires Valid() && cachedSystemPrompt != "" && built <= lo && AllSame(Base(), lo, fs.now)
      ensures forall p :: Input(p) ==> AccountedIn(texts, fs.t, started, from, lo, fs.now, p)
    {
      hide AccountedIn, SourceSameIn, SkillSameIn, TextIn, NothingThere;
      forall p | Input(p) ensures AccountedIn(texts, fs.t, started, from, lo, fs.now, p) {
        if p in sourcePaths {
          SameSourceIsCurrent(Base(), fs.t, fs.stamp, texts, started, from, built, lo, fs.now, p);
        } else {
          SameSkillIsCurrent(Base(), fs.t, fs.stamp, texts, started, from, built, lo, fs.now, p);
        }
      }
    }

    /** A path that looks different was touched since the baseline was begun. */
    lemma DriftIsNoise(lo: nat) returns (p: Path)
      requires Valid() && cachedSystemPrompt != "" && from <= lo && DriftedIn(Base(), lo, fs.now)
      ensures Tracked(p) && !Quiet(fs.t, started, fs.now, p)
    {
      var q, n :| lo <= n <= fs.now && Drifted(Base(), n, q);
      p := q;
      if Source(p) && !SourceSame(Base().existed, Base().maxMtime, fs.t, n, p) {
        assert SourceSameIn(Base(), fs.t, started, from, p);
      } else {
        assert SkillSameIn(Base(), fs.t, started, from, p);
      }
      assert !Quiet(fs.t, started, fs.now, p);
    }

    /** Whether a tracked path differs from the baseline now. */
    method FileChangedSince(p: Path) returns (changed: bool)
      modifies fs
      ensures old(fs.now) <= fs.now
      ensures existedAtCache == None ==> changed
      ensures existedAtCache.Some? ==> (changed <==> !SourceSame(existedAtCache.value, cachedAt, fs.t, fs.now, p))
    {
      if existedAtCache == None {
        return true;
      }
      var existedBefore := p in existedAtCache.value && existedAtCache.value[p];
      var mtime := fs.Stat(p);
      if existedBefore != mtime.Some? {
        return true;
      }
      if mtime == None {
        return false;
      }
      return mtime.value > cachedAt;
    }

    method SourceFilesChanged() returns (changed: bool)
      requires Valid() && cachedSystemPrompt != ""
      modifies fs
      ensures old(fs.now) <= fs.now
      ensures if changed then DriftedIn(Base(), old(fs.now), fs.now) else AllSame(Base(), old(fs.now), fs.now)
    {
      if cachedAt == 0 {
        return true;
      }
      changed := AnyChangedSince(sourcePaths);
      if changed {
        return;
      }
      changed := AnyChangedSince(skillRoots);
      if changed {
        return;
      }
      changed := SkillFilesChangedSince();
    }

    method AnyChangedSince(paths: seq<Path>) returns (changed: bool)
      requires Cached() && forall p <- paths :: Source(p)
      modifies fs
      ensures old(fs.now) <= fs.now
      ensures changed ==> DriftedIn(Base(), old(fs.now), fs.now)
      ensures !changed ==> forall p <- paths :: SourceSameIn(Base(), fs.t, old(fs.now), fs.now, p)
    {
      for i := 0 to |paths|
        invariant old(fs.now) <= fs.now
        invariant forall p <- paths[..i] :: SourceSameIn(Base(), fs.t, old(fs.now), fs.now, p)
      {
        ghost var before := fs.now;
        changed := FileChangedSince(paths[i]);
        if changed {
          assert Drifted(Base(), fs.now, paths[i]);
          return;
        }
        Wider(Base(), texts, fs.t, old(fs.now), before, fs.now);
        assert SourceSameIn(Base(), fs.t, old(fs.now), fs.now, paths[i]);
        assert paths[..i + 1] == paths[..i] + [paths[i]];
      }
      assert paths[..|paths|] == paths;
      changed := false;
    }

    /** The snapshot's files by their times, then a walk for files not in it. */
    method SkillFilesChangedSince() returns (changed: bool)
      requires Cached() && Base().skillFiles.Keys <= skillTree
      modifies fs
      ensures old(fs.now) <= fs.now
      ensures changed ==> DriftedIn(Base(), old(fs.now), fs.now)
      ensures !changed ==> forall k <- skillTree :: SkillSameIn(Base(), fs.t, old(fs.now), fs.now, k)
    {
      var filesAtCache := skillFilesAtCache.value;
      var rest := filesAtCache.Keys;
      while rest != {}
        invariant rest <= filesAtCache.Keys && old(fs.now) <= fs.now
        invariant forall k <- filesAtCache.Keys - rest :: SkillSameIn(Base(), fs.t, old(fs.now), fs.now, k)
      {
        var k :| k in rest;
        ghost var before := fs.now;
        var mtime := fs.Stat(k);
        Wider(Base(), texts, fs.t, old(fs.now), before, fs.now);
        if mtime == None || mtime.value != filesAtCache[k] {
          assert Drifted(Base(), fs.now, k);
          return true;
        }
        rest := rest - {k};
        assert SkillSame(Base().skillFiles, fs.t, fs.now, k);
      }
      rest := skillTree;
      while rest != {}
        invariant rest <= skillTree && old(fs.now) <= fs.now
        invariant forall k <- filesAtCache.Keys + (skillTree - rest) :: SkillSameIn(Base(), fs.t, old(fs.now), fs.now, k)
      {
        var k :| k in rest;
        ghost var before := fs.now;
        var mtime := fs.Stat(k);
        Wider(Base(), texts, fs.t, old(fs.now), before, fs.now);
        if mtime.Some? && k !in filesAtCache {
          assert Drifted(Base(), fs.now, k);
          return true;
        }
        rest := rest - {k};
        assert k !in filesAtCache ==> SkillSame(Base().skillFiles, fs.t, fs.now, k);
      }
      return false;
    }

    /** Whether what was noted so far is a baseline of the paths looked at. */
    ghost predicate Noting(b: Baseline, lo: nat, hi: nat) {
      && lo <= hi && 0 <= b.maxMtime < fs.stamp(hi)
      && b.skillFiles.Keys <= skillTree
      && (b.maxMtime == 0 ==> NothingThere(b))
    }

    method BuildCacheBaseline() returns (b: Baseline)
      requires Stamped(fs.t, fs.stamp)
      modifies fs
      ensures old(fs.now) <= fs.now && Recorded(b, old(fs.now), fs.now)
    {
      hide SourceSameIn, SkillSameIn;
      var existed: map<Path, bool>, skillFiles: map<Path, int>, maxMtime := map[], map[], 0;
      StampsArePositive(fs.t, fs.stamp, fs.now);
      var allPaths := sourcePaths + skillRoots;
      for i := 0 to |allPaths|
        invariant skillFiles == map[] && Noting(Baseline(existed, skillFiles, maxMtime), old(fs.now), fs.now)
        invariant forall p <- allPaths[..i] :: SourceSameIn(Baseline(existed, skillFiles, maxMtime), fs.t, old(fs.now), fs.now, p)
      {
        ghost var before, b0 := fs.now, Baseline(existed, skillFiles, maxMtime);
        var p := allPaths[i];
        var mtime := fs.Stat(p);
        FoundIsOlder(before, p);
        existed := existed[p := mtime.Some?];
        if mtime.Some? && mtime.value > maxMtime {
          maxMtime := mtime.value;
        }
        NoteSource(b0, fs.t, old(fs.now), before, fs.now, p, maxMtime);
        assert allPaths[..i + 1] == allPaths[..i] + [p];
      }
      assert allPaths[..|allPaths|] == allPaths;
      var rest := skillTree;
      while rest != {}
        invariant rest <= skillTree && skillFiles.Keys !! rest
        invariant Noting(Baseline(existed, skillFiles, maxMtime), old(fs.now), fs.now)
        invariant forall p <- allPaths :: SourceSameIn(Baseline(existed, skillFiles, maxMtime), fs.t, old(fs.now), fs.now, p)
        invariant forall k <- skillTree - rest :: SkillSameIn(Baseline(existed, skillFiles, maxMtime), fs.t, old(fs.now), fs.now, k)
      {
        ghost var before, b0 := fs.now, Baseline(existed, skillFiles, maxMtime);
        var k :| k in rest;
        var mtime := fs.Stat(k);
        FoundIsOlder(before, k);
        if mtime.Some? {
          skillFiles := skillFiles[k := mtime.value];
          if mtime.value > maxMtime {
            maxMtime := mtime.value;
          }
        }
        NoteSkill(b0, fs.t, old(fs.now), before, fs.now, k, maxMtime);
        assert Baseline(existed, skillFiles, maxMtime) == SkillNoted(b0, fs.t, fs.now, k, maxMtime);
        rest := rest - {k};
      }
      b := Baseline(existed, skillFiles, if maxMtime == 0 then FLOOR else maxMtime);
      if maxMtime == 0 {
        HigherFloor(Baseline(existed, skillFiles, maxMtime), b, fs.t, old(fs.now), fs.now);
      }
    }

    /** What is found was written before now, and stamps only grow. */
    lemma FoundIsOlder(before: nat, p: Path)
      requires Stamped(fs.t, fs.stamp) && before <= fs.now
      ensures fs.stamp(before) <= fs.stamp(fs.now)
      ensures p in fs.t(fs.now) ==> 0 < fs.t(fs.now)[p].mtime < fs.stamp(fs.now)
    {
      if p in fs.t(fs.now) {
        FilesAreOlder(fs.t, fs.stamp, fs.now, p);
      }
    }

    /** Read every tracked file and make the prompt of what is there. */
    method BuildSystemPrompt() returns (prompt: string, ghost texts: map<Path, string>)
      modifies fs
      ensures old(fs.now) <= fs.now && TextsOf(texts, old(fs.now), fs.now) && prompt == render(texts)
    {
      var parts: map<Path, string> := map[];
      var rest := (set p | p in sourcePaths) + skillTree;
      while rest != {}
        invariant old(fs.now) <= fs.now && forall p <- rest :: Input(p)
        invariant forall p <- parts :: Input(p) && p !in rest
        invariant forall p :: Input(p) && p !in rest ==> TextIn(parts, fs.t, old(fs.now), fs.now, p)
      {
        var p :| p in rest;
        ghost var before, parts0 := fs.now, parts;
        var data := fs.ReadFile(p);
        if data.Some? {
          parts := parts[p := data.value];
        }
        NoteText(parts0, parts, fs.t, old(fs.now), before, fs.now, p);
        rest := rest - {p};
      }
      return render(parts), parts;
    }
  }
}
