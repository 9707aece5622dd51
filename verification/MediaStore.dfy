/** The index of media files: three maps that describe one relation, and the files behind it. */
module MediaStore {
  import opened Common

  datatype MediaMeta = MediaMeta(filename: string, contentType: string, source: string)

  datatype MediaEntry = MediaEntry(path: string, meta: MediaMeta, storedAt: int)

  datatype Index = Index(refs: map<string, MediaEntry>, scopeToRefs: map<string, set<string>>, refToScope: map<string, string>)

  predicate InScope(x: Index, r: string, s: string) { r in x.refToScope && x.refToScope[r] == s }

  /** The three maps describe the same refs, and no scope is kept without refs. */
  ghost predicate Agrees(x: Index) {
    && x.refs.Keys == x.refToScope.Keys
    && (forall s <- x.scopeToRefs :: x.scopeToRefs[s] != {} && forall r :: r in x.scopeToRefs[s] <==> InScope(x, r, s))
    && (forall r <- x.refToScope :: x.refToScope[r] in x.scopeToRefs)
  }

  ghost function Added(x: Index, ref: string, e: MediaEntry, scope: string): Index {
    var inScope := if scope in x.scopeToRefs then x.scopeToRefs[scope] else {};
    Index(x.refs[ref := e], x.scopeToRefs[scope := inScope + {ref}], x.refToScope[ref := scope])
  }

  /** The index without some refs, and without the scopes that lose their last one. */
  ghost function Dropped(x: Index, gone: set<string>): Index {
    Index(
      x.refs - gone,
      map s | s in x.scopeToRefs && x.scopeToRefs[s] - gone != {} :: x.scopeToRefs[s] - gone,
      x.refToScope - gone)
  }

  ghost function ScopeRefs(x: Index, scope: string): set<string> {
    set r | r in x.refToScope && x.refToScope[r] == scope
  }

  ghost function OlderThan(x: Index, cutoff: int): set<string> {
    set r | r in x.refs && x.refs[r].storedAt < cutoff
  }

  ghost function Paths(x: Index, refs: set<string>): set<string> {
    set r | r in refs && r in x.refs :: x.refs[r].path
  }

  lemma AddedAgrees(x: Index, ref: string, e: MediaEntry, scope: string)
    requires Agrees(x) && ref !in x.refs
    ensures Agrees(Added(x, ref, e, scope))
  {
  }

  lemma DroppedAgrees(x: Index, gone: set<string>)
    requires Agrees(x)
    ensures Agrees(Dropped(x, gone))
  {
    var y := Dropped(x, gone);
    forall r | r in y.refToScope ensures y.refToScope[r] in y.scopeToRefs {
      assert InScope(x, r, x.refToScope[r]);
      assert r in x.scopeToRefs[x.refToScope[r]] - gone;
    }
    forall s, r | s in y.scopeToRefs ensures r in y.scopeToRefs[s] <==> InScope(y, r, s) {
      assert r in x.scopeToRefs[s] <==> InScope(x, r, s);
    }
  }

  /** Dropping one more ref, the way the clean-up does it. */
  lemma DropOneMore(x: Index, gone: set<string>, ref: string)
    requires Agrees(x) && ref in x.refs && ref !in gone
    ensures var y := Dropped(x, gone); var scope := x.refToScope[ref];
                                       && ref in y.refs && y.refs[ref] == x.refs[ref] && ref in y.refToScope && y.refToScope[ref] == scope && scope in y.scopeToRefs
                                       && Dropped(x, gone + {ref}) == Index(y.refs - {ref}, ScopesWithout(y.scopeToRefs, scope, ref), y.refToScope - {ref})
  {
    var y, z := Dropped(x, gone), Dropped(x, gone + {ref});
    assert InScope(x, ref, x.refToScope[ref]);
    assert z.refs == y.refs - {ref};
    assert z.refToScope == y.refToScope - {ref};
    ScopesDropOne(x, gone, ref);
  }

  ghost function ScopesWithout(scopes: map<string, set<string>>, scope: string, ref: string): map<string, set<string>>
    requires scope in scopes
  {
    var left := scopes[scope] - {ref};
    if left == {} then scopes - {scope} else scopes[scope := left]
  }

  lemma ScopesDropOne(x: Index, gone: set<string>, ref: string)
    requires Agrees(x) && ref in x.refs && ref !in gone
    ensures x.refToScope[ref] in Dropped(x, gone).scopeToRefs
    ensures Dropped(x, gone + {ref}).scopeToRefs == ScopesWithout(Dropped(x, gone).scopeToRefs, x.refToScope[ref], ref)
  {
    var scope := x.refToScope[ref];
    assert InScope(x, ref, scope) && scope in x.scopeToRefs;
    assert ref in x.scopeToRefs[scope] - gone;
    assert x.scopeToRefs[scope] - (gone + {ref}) == x.scopeToRefs[scope] - gone - {ref};
    forall s | s in x.scopeToRefs && s != scope ensures x.scopeToRefs[s] - (gone + {ref}) == x.scopeToRefs[s] - gone {
      assert ref in x.scopeToRefs[s] <==> InScope(x, ref, s);
    }
  }

  /** Taking out all refs of one scope is taking out the scope. */
  lemma DropScope(x: Index, scope: string)
    requires Agrees(x)
    ensures var gone := ScopeRefs(x, scope);
            Dropped(x, gone) == Index(x.refs - gone, x.scopeToRefs - {scope}, x.refToScope - gone)
    ensures scope in x.scopeToRefs ==> x.scopeToRefs[scope] == ScopeRefs(x, scope)
    ensures scope !in x.scopeToRefs ==> ScopeRefs(x, scope) == {} && Dropped(x, {}) == x && Paths(x, {}) == {}
  {
    hide Agrees, Dropped;
    DropNothing(x);
    ScopeIs(x, scope);
    DropScopeOnly(x, scope);
  }

  lemma ScopeIs(x: Index, scope: string)
    requires Agrees(x)
    ensures scope in x.scopeToRefs ==> x.scopeToRefs[scope] == ScopeRefs(x, scope)
    ensures scope !in x.scopeToRefs ==> ScopeRefs(x, scope) == {}
  {
    forall r ensures r in ScopeRefs(x, scope) <==> InScope(x, r, scope) {
    }
    if scope in x.scopeToRefs {
      assert forall r :: r in x.scopeToRefs[scope] <==> InScope(x, r, scope);
    }
  }

  lemma DropScopeOnly(x: Index, scope: string)
    requires Agrees(x)
    ensures var gone := ScopeRefs(x, scope);
            Dropped(x, gone) == Index(x.refs - gone, x.scopeToRefs - {scope}, x.refToScope - gone)
  {
    var gone := ScopeRefs(x, scope);
    forall s | s in x.scopeToRefs ensures x.scopeToRefs[s] - gone == if s == scope then {} else x.scopeToRefs[s] {
      assert forall r :: r in x.scopeToRefs[s] <==> InScope(x, r, s);
    }
  }

  lemma DropNothing(x: Index)
    requires Agrees(x)
    ensures Dropped(x, {}) == x && Paths(x, {}) == {}
  {
    forall s | s in x.scopeToRefs ensures x.scopeToRefs[s] - {} == x.scopeToRefs[s] {
    }
  }

  class FileMediaStore {
    var refs: map<string, MediaEntry>
    var scopeToRefs: map<string, set<string>>
    var refToScope: map<string, string>
    /** The files that exist. */
    var disk: set<string>
    const maxAge: int

    ghost function Value(): Index
      reads this
    {
      Index(refs, scopeToRefs, refToScope)
    }

    ghost predicate Valid()
      reads this
    {
      Agrees(Value())
    }

    constructor (maxAge: int, disk: set<string>)
      ensures Valid() && refs == map[] && this.disk == disk && this.maxAge == maxAge
    {
      refs, scopeToRefs, refToScope, this.disk, this.maxAge := map[], map[], map[], disk, maxAge;
    }

    /** `uuid` is the identifier drawn for the new ref. The file is looked at before the lock is
        taken; `meanwhile` are the files that others remove in between. */
    method Store(localPath: string, meta: MediaMeta, scope: string, uuid: string, now: int, meanwhile: set<string>)
      returns (ref: Option<string>)
      requires Valid() && "media://" + uuid !in refs
      modifies this
      ensures Valid() && disk == old(disk) - meanwhile && (ref.Some? <==> localPath in old(disk))
      ensures ref == None ==> Value() == old(Value())
      ensures ref.Some? ==> ref.value == "media://" + uuid
      ensures ref.Some? ==> Value() == Added(old(Value()), ref.value, MediaEntry(localPath, meta, now), scope)
    {
      hide Agrees;
      var found := localPath in disk;
      disk := disk - meanwhile;
      if !found {
        return None;
      }
      var r := "media://" + uuid;
      AddedAgrees(Value(), r, MediaEntry(localPath, meta, now), scope);
      refs := refs[r := MediaEntry(localPath, meta, now)];
      if scope !in scopeToRefs {
        scopeToRefs := scopeToRefs[scope := {}];
      }
      scopeToRefs := scopeToRefs[scope := scopeToRefs[scope] + {r}];
      assert scopeToRefs == Added(old(Value()), r, MediaEntry(localPath, meta, now), scope).scopeToRefs;
      refToScope := refToScope[r := scope];
      ref := Some(r);
    }

    method Resolve(ref: string) returns (entry: Option<MediaEntry>)
      ensures entry == if ref in refs then Some(refs[ref]) else None
    {
      entry := if ref in refs then Some(refs[ref]) else None;
    }

    /** Forget a scope and remove its files; files that cannot be removed stay. */
    method ReleaseAll(scope: string, removable: set<string>)
      requires Valid()
      modifies this
      ensures Valid() && Value() == Dropped(old(Value()), ScopeRefs(old(Value()), scope))
      ensures disk == old(disk) - (Paths(old(Value()), ScopeRefs(old(Value()), scope)) * removable)
    {
      hide Agrees, Dropped, ScopeRefs;
      ghost var was := Value();
      DropScope(was, scope);
      DroppedAgrees(was, ScopeRefs(was, scope));
      if scope !in scopeToRefs {
        return;
      }
      var scopeRefs := scopeToRefs[scope];
      var rest, paths := scopeRefs, {};
      while rest != {}
        invariant rest <= scopeRefs && scopeToRefs == was.scopeToRefs && disk == old(disk)
        invariant refs == was.refs - (scopeRefs - rest) && refToScope == was.refToScope - (scopeRefs - rest)
        invariant paths == Paths(was, scopeRefs - rest)
      {
        var ref :| ref in rest;
        if ref in refs {
          paths := paths + {refs[ref].path};
        }
        OneMorePath(was, scopeRefs - rest, ref);
        refs := refs - {ref};
        refToScope := refToScope - {ref};
        assert scopeRefs - (rest - {ref}) == scopeRefs - rest + {ref};
        rest := rest - {ref};
      }
      assert scopeRefs - {} == scopeRefs;
      scopeToRefs := scopeToRefs - {scope};
      RemoveFiles(paths, removable);
    }

    method CleanExpired(now: int, removable: set<string>) returns (removed: nat)
      requires Valid()
      modifies this
      ensures Valid()
      ensures var gone := if maxAge <= 0 then {} else OlderThan(old(Value()), now - maxAge);
              && Value() == Dropped(old(Value()), gone) && removed == |gone|
              && disk == old(disk) - (Paths(old(Value()), gone) * removable)
    {
      hide Agrees, Dropped;
      ghost var was := Value();
      DropNothing(was);
      if maxAge <= 0 {
        return 0;
      }
      var cutoff := now - maxAge;
      var rest, paths, expired: set<string> := refs.Keys, {}, {};
      while rest != {}
        invariant rest <= was.refs.Keys && disk == old(disk) && expired !! rest && expired <= was.refs.Keys
        invariant Value() == Dropped(was, expired) && paths == Paths(was, expired)
        invariant forall r <- was.refs.Keys - rest :: r in expired <==> was.refs[r].storedAt < cutoff
      {
        var ref :| ref in rest;
        rest := rest - {ref};
        DropOneMore(was, expired, ref);
        OneMorePath(was, expired, ref);
        if refs[ref].storedAt < cutoff {
          expired, paths := expired + {ref}, paths + {refs[ref].path};
          Unlink(ref);
        }
      }
      assert expired == OlderThan(was, cutoff);
      DroppedAgrees(was, expired);
      removed := |expired|;
      RemoveFiles(paths, removable);
    }

    method Unlink(ref: string)
      requires ref in refs && ref in refToScope && refToScope[ref] in scopeToRefs
      modifies this`refs, this`scopeToRefs, this`refToScope
      ensures refs == old(refs) - {ref} && refToScope == old(refToScope) - {ref}
      ensures scopeToRefs == ScopesWithout(old(scopeToRefs), old(refToScope)[ref], ref)
    {
      if ref in refToScope {
        var scope := refToScope[ref];
        if scope in scopeToRefs {
          scopeToRefs := scopeToRefs[scope := scopeToRefs[scope] - {ref}];
          if |scopeToRefs[scope]| == 0 {
            scopeToRefs := scopeToRefs - {scope};
          }
        }
      }
      refs := refs - {ref};
      refToScope := refToScope - {ref};
    }

    method RemoveFiles(paths: set<string>, removable: set<string>)
      modifies this`disk
      ensures disk == old(disk) - (paths * removable)
    {
      var rest := paths;
      while rest != {}
        invariant rest <= paths && disk == old(disk) - ((paths - rest) * removable)
      {
        var p :| p in rest;
        if p in removable {
          disk := disk - {p};
        }
        rest := rest - {p};
      }
    }
  }

  lemma OneMorePath(x: Index, refs: set<string>, ref: string)
    ensures Paths(x, refs + {ref}) == Paths(x, refs) + if ref in x.refs then {x.refs[ref].path} else {}
  {
  }

  // ---------------------------------------------------------------- what a release leaves

  /** Every ref that still resolves has its file. */
  ghost predicate FilesThere(x: Index, disk: set<string>) {
    forall r <- x.refs :: x.refs[r].path in disk
  }

  /** Dropping refs and removing their files leaves every other ref its file, exactly when no
      dropped ref shares its path with a kept one. */
  lemma FilesSurviveIffUnshared(x: Index, gone: set<string>, disk: set<string>)
    requires Agrees(x) && FilesThere(x, disk) && gone <= x.refs.Keys
    ensures FilesThere(Dropped(x, gone), disk - Paths(x, gone))
       <==> (forall r <- x.refs, g <- gone :: r !in gone ==> x.refs[r].path != x.refs[g].path)
  {
    var y := Dropped(x, gone);
    if FilesThere(y, disk - Paths(x, gone)) {
      forall r, g | r in x.refs && g in gone && r !in gone ensures x.refs[r].path != x.refs[g].path {
        assert r in y.refs && x.refs[g].path in Paths(x, gone);
      }
    }
  }

  /** A release takes one scope's refs and nobody else's. */
  lemma ReleaseTakesOneScope(x: Index, scope: string, r: string)
    requires Agrees(x)
    ensures var y := Dropped(x, ScopeRefs(x, scope));
            && (r in y.refs <==> r in x.refs && x.refToScope[r] != scope)
            && (r in y.refs ==> y.refs[r] == x.refs[r] && y.refToScope[r] == x.refToScope[r])
            && scope !in y.scopeToRefs
  {
    DropScope(x, scope);
  }
}
