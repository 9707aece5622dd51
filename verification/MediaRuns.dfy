/** The media index over whole runs in which stores, releases, clean-ups and the file removals
    they leave behind interleave. */
module MediaRuns {
  import opened MediaStore

  /** `checked`: paths that were found to exist and whose refs are still to be inserted; `doomed`:
      paths taken from the index whose files are still to be removed. Both outside the lock. */
  datatype State = State(index: Index, disk: set<string>, checked: multiset<string>, doomed: set<string>)

  datatype Action =
    | Check(path: string)
    | Insert(ref: string, entry: MediaEntry, scope: string)
    | Release(scope: string)
    | Clean(cutoff: int)
    | Remove(path: string)
    | FileArrives(path: string)

  /** A store checks the file, then inserts under a fresh ref; the same path may be stored again. */
  ghost predicate Possible(s: State, a: Action) {
    match a
    case Check(p) => p in s.disk
    case Insert(ref, e, _) => ref !in s.index.refs && e.path in s.checked
    case Remove(p) => p in s.doomed
    case _ => true
  }

  ghost function Step(s: State, a: Action): State {
    match a
    case Check(p) => s.(checked := s.checked + multiset{p})
    case Insert(ref, e, scope) => s.(index := Added(s.index, ref, e, scope), checked := s.checked - multiset{e.path})
    case Release(scope) => Unindexed(s, ScopeRefs(s.index, scope))
    case Clean(cutoff) => Unindexed(s, OlderThan(s.index, cutoff))
    case Remove(p) => s.(disk := s.disk - {p}, doomed := s.doomed - {p})
    case FileArrives(p) => s.(disk := s.disk + {p})
  }

  ghost function Unindexed(s: State, gone: set<string>): State {
    s.(index := Dropped(s.index, gone), doomed := s.doomed + Paths(s.index, gone))
  }

  /** A run; an action that is not possible when its turn comes does nothing. */
  ghost function Run(s: State, actions: seq<Action>): State
    decreases |actions|
  {
    if actions == [] then s else Run(if Possible(s, actions[0]) then Step(s, actions[0]) else s, actions[1..])
  }

  // ---------------------------------------------------------------- the maps

  lemma StepKeepsAgreement(s: State, a: Action)
    requires Agrees(s.index) && Possible(s, a)
    ensures Agrees(Step(s, a).index)
  {
    hide Agrees;
    match a {
      case Insert(ref, e, scope) => AddedAgrees(s.index, ref, e, scope);
      case Release(scope) => DroppedAgrees(s.index, ScopeRefs(s.index, scope));
      case Clean(cutoff) => DroppedAgrees(s.index, OlderThan(s.index, cutoff));
      case _ =>
    }
  }

  /** The three maps agree after any run. */
  lemma {:induction false} RunKeepsAgreement(s: State, actions: seq<Action>)
    requires Agrees(s.index)
    ensures Agrees(Run(s, actions).index)
    decreases |actions|
  {
    hide Agrees, Step, Possible;
    if actions != [] {
      if Possible(s, actions[0]) {
        StepKeepsAgreement(s, actions[0]);
        RunKeepsAgreement(Step(s, actions[0]), actions[1..]);
      } else {
        RunKeepsAgreement(s, actions[1..]);
      }
    }
  }

  // ---------------------------------------------------------------- the files

  predicate Used(x: Index, p: string) {
    exists r <- x.refs :: x.refs[r].path == p
  }

  /** No path is checked for a store while it is in use: stored, about to be stored, or about to be removed. */
  ghost predicate Unshared(s: State, actions: seq<Action>)
    decreases |actions|
  {
    actions != [] ==>
      && (actions[0].Check? ==> !Used(s.index, actions[0].path) && actions[0].path !in s.checked && actions[0].path !in s.doomed)
      && Unshared(if Possible(s, actions[0]) then Step(s, actions[0]) else s, actions[1..])
  }

  /** Stored paths and paths about to be stored exist, are all different, and none is about to be removed. */
  ghost predicate FilesKept(s: State) {
    && FilesThere(s.index, s.disk)
    && (forall p <- s.checked :: s.checked[p] == 1 && p in s.disk && p !in s.doomed && !Used(s.index, p))
    && (forall r <- s.index.refs :: s.index.refs[r].path !in s.doomed)
    && (forall r, q :: r in s.index.refs && q in s.index.refs && r != q ==> s.index.refs[r].path != s.index.refs[q].path)
  }

  lemma StepKeepsFiles(s: State, a: Action)
    requires FilesKept(s) && Possible(s, a)
    requires a.Check? ==> !Used(s.index, a.path) && a.path !in s.checked && a.path !in s.doomed
    ensures FilesKept(Step(s, a))
  {
    match a {
      case Release(scope) => UnindexedKeepsFiles(s, ScopeRefs(s.index, scope));
      case Clean(cutoff) => UnindexedKeepsFiles(s, OlderThan(s.index, cutoff));
      case Insert(ref, e, scope) => InsertKeepsFiles(s, ref, e, scope);
      case _ =>
    }
  }

  lemma InsertKeepsFiles(s: State, ref: string, e: MediaEntry, scope: string)
    requires FilesKept(s) && Possible(s, Insert(ref, e, scope))
    ensures FilesKept(Step(s, Insert(ref, e, scope)))
  {
    hide Used;
    var s' := Step(s, Insert(ref, e, scope));
    forall p | p in s'.checked ensures s'.checked[p] == 1 && p in s.checked && p != e.path {
    }
    forall r | r in s.index.refs ensures s.index.refs[r].path != e.path {
      UsedBy(s.index, r);
    }
    forall p | p in s'.checked ensures !Used(s'.index, p) {
      NotUsedByInsert(s.index, ref, e, scope, p);
    }
  }

  lemma UsedBy(x: Index, r: string)
    requires r in x.refs
    ensures Used(x, x.refs[r].path)
  {
  }

  lemma NotUsedByInsert(x: Index, ref: string, e: MediaEntry, scope: string, p: string)
    requires !Used(x, p) && e.path != p
    ensures !Used(Added(x, ref, e, scope), p)
  {
    var y := Added(x, ref, e, scope);
    forall r | r in y.refs ensures y.refs[r].path != p {
      assert r != ref ==> r in x.refs && y.refs[r] == x.refs[r];
    }
  }

  lemma UnindexedKeepsFiles(s: State, gone: set<string>)
    requires FilesKept(s)
    ensures FilesKept(Unindexed(s, gone))
  {
    var y := Dropped(s.index, gone);
    assert forall r <- y.refs :: r in s.index.refs && r !in gone && y.refs[r] == s.index.refs[r];
    forall p | p in s.checked ensures p !in Paths(s.index, gone) && !Used(y, p) {
      assert !Used(s.index, p);
    }
  }

  /** When no path in use is stored again, every ref that resolves has its file, after any run. */
  lemma {:induction false} RunKeepsFiles(s: State, actions: seq<Action>)
    requires FilesKept(s) && Unshared(s, actions)
    ensures FilesThere(Run(s, actions).index, Run(s, actions).disk)
    decreases |actions|
  {
    hide FilesKept, Step, Possible, FilesThere;
    if actions != [] {
      if Possible(s, actions[0]) {
        StepKeepsFiles(s, actions[0]);
        RunKeepsFiles(Step(s, actions[0]), actions[1..]);
      } else {
        RunKeepsFiles(s, actions[1..]);
      }
    } else {
      KeptAreThere(s);
    }
  }

  lemma KeptAreThere(s: State)
    requires FilesKept(s)
    ensures FilesThere(s.index, s.disk)
  {
  }

  // ---------------------------------------------------------------- how long a ref resolves

  /** The action takes a ref of this scope, stored at this time, out of the index. */
  predicate Ends(a: Action, scope: string, storedAt: int) {
    match a
    case Release(x) => x == scope
    case Clean(cutoff) => storedAt < cutoff
    case _ => false
  }

  predicate Reuses(a: Action, ref: string) { a.Insert? && a.ref == ref }

  lemma StepKeepsRef(s: State, a: Action, ref: string)
    requires Agrees(s.index) && ref in s.index.refs && Possible(s, a)
    ensures var e, scope, x := s.index.refs[ref], s.index.refToScope[ref], Step(s, a).index;
            && (ref in x.refs <==> !Ends(a, scope, e.storedAt))
            && (ref in x.refs ==> x.refs[ref] == e && ref in x.refToScope && x.refToScope[ref] == scope)
  {
  }

  lemma {:induction false} GoneStaysGone(s: State, actions: seq<Action>, ref: string)
    requires ref !in s.index.refs && forall a <- actions :: !Reuses(a, ref)
    ensures ref !in Run(s, actions).index.refs
    decreases |actions|
  {
    if actions != [] {
      assert !Reuses(actions[0], ref);
      GoneStaysGone(if Possible(s, actions[0]) then Step(s, actions[0]) else s, actions[1..], ref);
    }
  }

  /** A stored ref resolves to its entry exactly until its scope is released or it is older than a
      clean-up's cutoff, as generated refs are never reused. */
  lemma {:induction false} ResolvesUntilReleased(s: State, actions: seq<Action>, ref: string)
    requires Agrees(s.index) && ref in s.index.refs && forall a <- actions :: !Reuses(a, ref)
    ensures var e, scope, x := s.index.refs[ref], s.index.refToScope[ref], Run(s, actions).index;
            && (ref in x.refs <==> forall a <- actions :: !Ends(a, scope, e.storedAt))
            && (ref in x.refs ==> x.refs[ref] == e)
    decreases |actions|
  {
    RefHasScope(s, ref);
    hide Agrees, Step, Ends, Possible;
    if actions != [] {
      var a, rest := actions[0], actions[1..];
      assert actions == [a] + rest;
      var scope, storedAt := s.index.refToScope[ref], s.index.refs[ref].storedAt;
      EndsIsPossible(s, a, scope, storedAt);
      if Possible(s, a) {
        StepKeepsRef(s, a, ref);
        StepKeepsAgreement(s, a);
        if Ends(a, scope, storedAt) {
          GoneStaysGone(Step(s, a), rest, ref);
        } else {
          ResolvesUntilReleased(Step(s, a), rest, ref);
        }
      } else {
        ResolvesUntilReleased(s, rest, ref);
      }
    }
  }

  /** So for a ref that has just been stored, with the entry and the scope it was stored with. */
  lemma StoredResolves(s: State, ref: string, e: MediaEntry, scope: string, actions: seq<Action>)
    requires Agrees(s.index) && Possible(s, Insert(ref, e, scope)) && forall a <- actions :: !Reuses(a, ref)
    ensures var x := Run(Step(s, Insert(ref, e, scope)), actions).index;
            && (ref in x.refs <==> forall a <- actions :: !Ends(a, scope, e.storedAt))
            && (ref in x.refs ==> x.refs[ref] == e)
  {
    hide Run, Ends;
    StepKeepsAgreement(s, Insert(ref, e, scope));
    ResolvesUntilReleased(Step(s, Insert(ref, e, scope)), actions, ref);
  }

  /** And storing changes nothing for any other ref. */
  lemma OthersResolveAsBefore(s: State, ref: string, e: MediaEntry, scope: string, r: string)
    requires Agrees(s.index) && Possible(s, Insert(ref, e, scope)) && r != ref
    ensures var x, y := s.index, Step(s, Insert(ref, e, scope)).index;
            && (r in y.refs <==> r in x.refs) && (r in x.refs ==> y.refs[r] == x.refs[r] && r in x.refToScope && r in y.refToScope && y.refToScope[r] == x.refToScope[r])
  {
  }

  lemma RefHasScope(s: State, ref: string)
    requires Agrees(s.index) && ref in s.index.refs
    ensures ref in s.index.refToScope
  {
  }

  lemma EndsIsPossible(s: State, a: Action, scope: string, storedAt: int)
    ensures Ends(a, scope, storedAt) ==> Possible(s, a)
  {
  }
}
