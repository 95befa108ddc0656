/** `prune_version_omitted_schemas`: a worklist over component references. A
    component is its set of references; `roots` are those of the rest of the
    document, `omitted` the schemas behind the fields this version leaves out. */
module SchemaPrune {

  type Schemas = map<string, set<string>>

  /** A chain of references from the roots to a component of the document. */
  predicate Chain(schemas: Schemas, roots: set<string>, path: seq<string>) {
    && path != [] && path[0] in roots
    && (forall i | 0 <= i < |path| :: path[i] in schemas)
    && (forall i | 0 <= i < |path| - 1 :: path[i + 1] in schemas[path[i]])
  }

  ghost predicate Reachable(schemas: Schemas, roots: set<string>, name: string) {
    exists path :: Chain(schemas, roots, path) && path[|path| - 1] == name
  }

  lemma ReachableStep(schemas: Schemas, roots: set<string>, name: string, next: string)
    requires Reachable(schemas, roots, name) && name in schemas && next in schemas[name] && next in schemas
    ensures Reachable(schemas, roots, next)
  {
    var path :| Chain(schemas, roots, path) && path[|path| - 1] == name;
    assert Chain(schemas, roots, path + [next]) && (path + [next])[|path|] == next;
  }

  lemma RootsReachable(schemas: Schemas, roots: set<string>)
    ensures forall n | n in roots && n in schemas :: Reachable(schemas, roots, n)
  {
    forall n | n in roots && n in schemas ensures Reachable(schemas, roots, n) {
      assert Chain(schemas, roots, [n]);
    }
  }

  lemma {:induction false} ClosedHoldsReachable(schemas: Schemas, roots: set<string>, closed: set<string>, path: seq<string>)
    requires forall n | n in roots && n in schemas :: n in closed
    requires forall n, m | n in closed && n in schemas && m in schemas[n] && m in schemas :: m in closed
    requires Chain(schemas, roots, path)
    ensures path[|path| - 1] in closed
    decreases |path|
  {
    if |path| > 1 {
      var shorter := path[..|path| - 1];
      assert Chain(schemas, roots, shorter);
      ClosedHoldsReachable(schemas, roots, closed, shorter);
    }
  }

  /** Exactly the components a chain of references reaches. */
  method ReachableNames(schemas: Schemas, roots: set<string>) returns (reachable: set<string>)
    ensures forall n :: n in reachable <==> Reachable(schemas, roots, n)
  {
    reachable := {};
    var pending := roots;
    RootsReachable(schemas, roots);
    while pending != {}
      invariant reachable <= schemas.Keys
      invariant forall n | n in reachable :: Reachable(schemas, roots, n)
      invariant forall n | n in pending && n in schemas :: Reachable(schemas, roots, n)
      invariant forall n | n in roots && n in schemas :: n in reachable || n in pending
      invariant forall n, m | n in reachable && m in schemas[n] && m in schemas :: m in reachable || m in pending
      decreases |schemas.Keys - reachable|, |pending|
    {
      var name :| name in pending;
      pending := pending - {name};
      if name !in reachable && name in schemas {
        forall m | m in schemas[name] && m in schemas ensures Reachable(schemas, roots, m) {
          ReachableStep(schemas, roots, name, m);
        }
        assert schemas.Keys - (reachable + {name}) < schemas.Keys - reachable;
        reachable := reachable + {name};
        pending := pending + schemas[name];
      }
    }
    forall n | Reachable(schemas, roots, n) ensures n in reachable {
      var path :| Chain(schemas, roots, path) && path[|path| - 1] == n;
      ClosedHoldsReachable(schemas, roots, reachable, path);
    }
  }

  /** Only omitted, unreachable components go, and all of them; what the roots or
      a reachable component refer to is still there if it was before. */
  method Prune(schemas: Schemas, roots: set<string>, omitted: set<string>) returns (kept: Schemas)
    ensures forall n :: n in kept <==> n in schemas && (n in omitted ==> Reachable(schemas, roots, n))
    ensures forall n | n in kept :: kept[n] == schemas[n]
    ensures forall m | m in roots && m in schemas :: m in kept
    ensures forall n, m | Reachable(schemas, roots, n) && m in schemas[n] && m in schemas :: n in kept && m in kept
    ensures forall n :: Reachable(kept, roots, n) <==> Reachable(schemas, roots, n)
  {
    var reachable := ReachableNames(schemas, roots);
    var todo := omitted - reachable;
    kept := schemas;
    while todo != {}
      invariant todo <= omitted - reachable
      invariant forall n :: n in kept <==> n in schemas && n !in omitted - reachable - todo
      invariant forall n | n in kept :: kept[n] == schemas[n]
      decreases |todo|
    {
      var name :| name in todo;
      kept := kept - {name};
      todo := todo - {name};
    }
    PruningKeepsReach(schemas, kept, roots);
  }

  lemma PruningKeepsReach(schemas: Schemas, kept: Schemas, roots: set<string>)
    requires forall n | n in kept :: n in schemas && kept[n] == schemas[n]
    requires forall n | Reachable(schemas, roots, n) :: n in kept
    ensures forall m | m in roots && m in schemas :: m in kept
    ensures forall n, m | Reachable(schemas, roots, n) && m in schemas[n] && m in schemas :: n in kept && m in kept
    ensures forall n :: Reachable(kept, roots, n) <==> Reachable(schemas, roots, n)
  {
    RootsReachable(schemas, roots);
    forall n, m | Reachable(schemas, roots, n) && m in schemas[n] && m in schemas ensures m in kept {
      ReachableStep(schemas, roots, n, m);
    }
    forall n ensures Reachable(kept, roots, n) <==> Reachable(schemas, roots, n) {
      if Reachable(schemas, roots, n) {
        var path :| Chain(schemas, roots, path) && path[|path| - 1] == n;
        ChainKept(schemas, kept, roots, path);
      } else if Reachable(kept, roots, n) {
        var path :| Chain(kept, roots, path) && path[|path| - 1] == n;
        assert Chain(schemas, roots, path);
        assert false;
      }
    }
  }

  lemma ChainKept(schemas: Schemas, kept: Schemas, roots: set<string>, path: seq<string>)
    requires forall n | n in kept :: n in schemas && kept[n] == schemas[n]
    requires forall n | Reachable(schemas, roots, n) :: n in kept
    requires Chain(schemas, roots, path)
    ensures Chain(kept, roots, path)
  {
    forall i | 0 <= i < |path| ensures path[i] in kept {
      assert Chain(schemas, roots, path[..i + 1]) && path[..i + 1][i] == path[i];
    }
  }
}
