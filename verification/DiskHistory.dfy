/** A file system that others write to while it is being looked at. */
module DiskHistory {
  import opened Common

  type Path = string

  datatype File = File(mtime: int, content: string)

  type Disk = map<Path, File>

  /** The disk after the n-th change. */
  type Timeline = nat -> Disk

  ghost function Written(d: Disk, p: Path, f: File): Disk { d[p := f] }

  ghost function Deleted(d: Disk, p: Path): Disk { d - {p} }

  /** The n-th change writes one file, stamped with its time, or deletes one, or does nothing here. */
  ghost predicate Moves(t: Timeline, stamp: nat -> int, n: nat) {
    || t(n + 1) == t(n)
    || (exists p, content :: t(n + 1) == Written(t(n), p, File(stamp(n), content)))
    || (exists p :: t(n + 1) == Deleted(t(n), p))
  }

  /** Every write carries a later stamp than all before it. */
  ghost predicate Stamped(t: Timeline, stamp: nat -> int) {
    && (forall i: nat, j: nat :: i < j ==> stamp(i) < stamp(j))
    && (forall n: nat :: Moves(t, stamp, n))
    && (forall p <- t(0) :: 0 < t(0)[p].mtime < stamp(0))
    && 0 < stamp(0)
  }

  lemma {:induction false} FilesAreOlder(t: Timeline, stamp: nat -> int, n: nat, p: Path)
    requires Stamped(t, stamp) && p in t(n)
    ensures 0 < t(n)[p].mtime < stamp(n)
  {
    if n > 0 {
      assert Moves(t, stamp, n - 1);
      assert stamp(n - 1) < stamp(n) && 0 < stamp(n - 1) by {
        assert n - 1 > 0 ==> stamp(0) < stamp(n - 1);
      }
      if p in t(n - 1) {
        FilesAreOlder(t, stamp, n - 1, p);
      }
    }
  }

  /** A file that is there at `b` with a stamp from before `a` was there all the time in between, untouched. */
  lemma {:induction false} UntouchedSince(t: Timeline, stamp: nat -> int, a: nat, r: nat, b: nat, p: Path)
    requires Stamped(t, stamp) && a <= r <= b && p in t(b) && t(b)[p].mtime < stamp(a)
    ensures p in t(r) && t(r)[p] == t(b)[p]
    decreases b
  {
    if r < b {
      assert Moves(t, stamp, b - 1);
      assert a < b - 1 ==> stamp(a) < stamp(b - 1);
      UntouchedSince(t, stamp, a, r, b - 1, p);
    }
  }

  class FileSystem {
    const t: Timeline
    ghost const stamp: nat -> int
    /** How many changes have happened; any number may happen before each call. */
    var now: nat

    constructor (t: Timeline, ghost stamp: nat -> int, now: nat)
      ensures this.t == t && this.stamp == stamp && this.now == now
    {
      this.t, this.stamp, this.now := t, stamp, now;
    }

    method Wait()
      modifies this
      ensures old(now) <= now
    {
      var later: nat :| now <= later;
      now := later;
    }

    method Stat(p: Path) returns (mtime: Option<int>)
      modifies this
      ensures old(now) <= now && mtime == if p in t(now) then Some(t(now)[p].mtime) else None
    {
      Wait();
      mtime := if p in t(now) then Some(t(now)[p].mtime) else None;
    }

    method ReadFile(p: Path) returns (data: Option<string>)
      modifies this
      ensures old(now) <= now && data == if p in t(now) then Some(t(now)[p].content) else None
    {
      Wait();
      data := if p in t(now) then Some(t(now)[p].content) else None;
    }
  }
}
