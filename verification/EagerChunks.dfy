/**
 The chunks of a bundle that load eagerly: a depth-first search over static imports from the
 entry chunks, with one shared visited set.  Imports may be cyclic, missing or assets.
 */
module EagerChunks {
  import opened Collections

  datatype Output = Asset | Chunk(fileName: string, imports: seq<string>, isEntry: bool)

  type Bundle = map<string, Output>

  predicate IsChunk(bundle: Bundle, name: string) {
    name in bundle && bundle[name].Chunk?
  }

  function Chunks(bundle: Bundle): set<string> {
    set name | name in bundle && bundle[name].Chunk?
  }

  /** The file names of the entry chunks. */
  function Entries(bundle: Bundle): set<string> {
    set name | name in bundle && bundle[name].Chunk? && bundle[name].isEntry :: bundle[name].fileName
  }

  // ---------------------------------------------------------------------------
  // Reachability through static imports
  // ---------------------------------------------------------------------------

  /** A chain of chunks, each importing the next. */
  ghost predicate IsPath(bundle: Bundle, path: seq<string>) {
    && path != []
    && (forall i :: 0 <= i < |path| ==> IsChunk(bundle, path[i]))
    && (forall i :: 0 <= i < |path| - 1 ==> Imports(bundle, path[i], path[i + 1]))
  }

  ghost predicate Imports(bundle: Bundle, from: string, to: string) {
    IsChunk(bundle, from) && to in bundle[from].imports
  }

  ghost predicate Connects(bundle: Bundle, path: seq<string>, from: string, to: string) {
    IsPath(bundle, path) && path[0] == from && path[|path| - 1] == to
  }

  ghost predicate Reaches(bundle: Bundle, from: string, to: string) {
    exists path :: Connects(bundle, path, from, to)
  }

  /** Reachable from some entry. */
  ghost predicate Eager(bundle: Bundle, name: string) {
    exists entry :: entry in Entries(bundle) && Reaches(bundle, entry, name)
  }

  lemma ReachesSelf(bundle: Bundle, name: string)
    requires IsChunk(bundle, name)
    ensures Reaches(bundle, name, name)
  {
    assert Connects(bundle, [name], name, name);
  }

  lemma ReachesThrough(bundle: Bundle, from: string, imported: string, to: string)
    requires Imports(bundle, from, imported) && Reaches(bundle, imported, to)
    ensures Reaches(bundle, from, to)
  {
    var path :| Connects(bundle, path, imported, to);
    var longer := [from] + path;
    forall i | 0 <= i < |longer| - 1 ensures Imports(bundle, longer[i], longer[i + 1]) {
      if i > 0 {
        assert Imports(bundle, path[i - 1], path[i - 1 + 1]);
      }
    }
    assert Connects(bundle, longer, from, to);
  }

  /** Every chunk that one of `members` imports is in `all`. */
  ghost predicate ClosedFor(bundle: Bundle, members: set<string>, all: set<string>) {
    forall name, imported :: name in members && Imports(bundle, name, imported) && IsChunk(bundle, imported) ==> imported in all
  }

  lemma {:induction false} PathStaysInside(bundle: Bundle, all: set<string>, path: seq<string>)
    requires ClosedFor(bundle, all, all) && IsPath(bundle, path) && path[0] in all
    ensures path[|path| - 1] in all
  {
    if |path| > 1 {
      var front := path[..|path| - 1];
      forall i | 0 <= i < |front| - 1 ensures Imports(bundle, front[i], front[i + 1]) {
        assert Imports(bundle, path[i], path[i + 1]);
      }
      PathStaysInside(bundle, all, front);
      assert Imports(bundle, path[|path| - 2], path[|path| - 2 + 1]);
    }
  }

  // ---------------------------------------------------------------------------
  // The search
  // ---------------------------------------------------------------------------

  class Collector {
    const bundle: Bundle
    var eagerChunks: set<string>

    constructor (bundle: Bundle)
      ensures this.bundle == bundle && eagerChunks == {}
    {
      this.bundle := bundle;
      eagerChunks := {};
    }

    /**
     `collectEagerChunks`: whatever was visited before, the call adds only chunks reachable from
     `fileName`, adds `fileName` itself if it is one, and leaves nothing that a new chunk imports unvisited.
     */
    method CollectEagerChunks(fileName: string)
      requires eagerChunks <= Chunks(bundle)
      modifies this
      ensures old(eagerChunks) <= eagerChunks <= Chunks(bundle)
      ensures IsChunk(bundle, fileName) ==> fileName in eagerChunks
      ensures ClosedFor(bundle, eagerChunks - old(eagerChunks), eagerChunks)
      ensures forall name :: name in eagerChunks - old(eagerChunks) ==> Reaches(bundle, fileName, name)
      decreases |Chunks(bundle) - eagerChunks|
    {
      if fileName in eagerChunks {
        return;
      }
      if !(fileName in bundle && bundle[fileName].Chunk?) {
        return;
      }
      ghost var before := eagerChunks;
      eagerChunks := eagerChunks + {fileName};
      ReachesSelf(bundle, fileName);
      ghost var unvisited := Chunks(bundle) - eagerChunks;
      ProperSubsetSize(unvisited, Chunks(bundle) - before);
      var imports := bundle[fileName].imports;
      for i := 0 to |imports|
        invariant before + {fileName} <= eagerChunks <= Chunks(bundle)
        invariant forall k :: 0 <= k < i && IsChunk(bundle, imports[k]) ==> imports[k] in eagerChunks
        invariant ClosedFor(bundle, eagerChunks - before - {fileName}, eagerChunks)
        invariant forall name :: name in eagerChunks - before ==> Reaches(bundle, fileName, name)
      {
        SubsetSize(Chunks(bundle) - eagerChunks, unvisited);
        ghost var already := eagerChunks;
        CollectEagerChunks(imports[i]);
        forall name | name in eagerChunks - already ensures Reaches(bundle, fileName, name) {
          ReachesThrough(bundle, fileName, imports[i], name);
        }
      }
    }
  }

  /** The whole search, with the outputs visited in any order: exactly the statically reachable chunks. */
  method CollectAll(bundle: Bundle, order: seq<string>) returns (eager: set<string>)
    requires ToSet(order) == bundle.Keys
    ensures forall name :: name in eager <==> Eager(bundle, name)
  {
    var collector := new Collector(bundle);
    for i := 0 to |order|
      invariant collector.eagerChunks <= Chunks(bundle)
      invariant ClosedFor(bundle, collector.eagerChunks, collector.eagerChunks)
      invariant forall name :: name in collector.eagerChunks ==> Eager(bundle, name)
      invariant forall k :: 0 <= k < i ==> EntryVisited(bundle, order[k], collector.eagerChunks)
    {
      assert order[i] in ToSet(order);
      var output := bundle[order[i]];
      if output.Chunk? && output.isEntry {
        ghost var already := collector.eagerChunks;
        collector.CollectEagerChunks(output.fileName);
        assert output.fileName in Entries(bundle);
        assert forall name :: name in collector.eagerChunks - already ==> Eager(bundle, name);
      }
    }
    eager := collector.eagerChunks;
    forall name | Eager(bundle, name) ensures name in eager {
      EntriesVisited(bundle, order, eager);
      var entry :| entry in Entries(bundle) && Reaches(bundle, entry, name);
      var path :| Connects(bundle, path, entry, name);
      PathStaysInside(bundle, eager, path);
    }
  }

  ghost predicate EntryVisited(bundle: Bundle, name: string, eager: set<string>) {
    name in bundle && bundle[name].Chunk? && bundle[name].isEntry && IsChunk(bundle, bundle[name].fileName)
    ==> bundle[name].fileName in eager
  }

  lemma EntriesVisited(bundle: Bundle, order: seq<string>, eager: set<string>)
    requires ToSet(order) == bundle.Keys
    requires forall k :: 0 <= k < |order| ==> EntryVisited(bundle, order[k], eager)
    ensures forall entry :: entry in Entries(bundle) && IsChunk(bundle, entry) ==> entry in eager
  {
    forall entry | entry in Entries(bundle) && IsChunk(bundle, entry) ensures entry in eager {
      var name :| name in bundle && bundle[name].Chunk? && bundle[name].isEntry && bundle[name].fileName == entry;
      assert name in ToSet(order);
      var k :| 0 <= k < |order| && order[k] == name;
      assert EntryVisited(bundle, order[k], eager);
    }
  }
}
