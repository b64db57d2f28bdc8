/** Which crates determine the shape of MCP responses: a search over workspace
    manifests (`crates/nestweaver-mcp/build.rs`, `workspace_shape_roots`). */
module ShapeClosure {
  import opened Base
  import opened Sequences

  /** A crate that has a manifest; `None` when the manifest cannot be read. */
  datatype Crate = Crate(hasSource: bool, dependencies: Option<seq<string>>)

  /** The workspace, the crate that is built, and the crates taken without their
      dependencies. */
  datatype Scope = Scope(crates: map<string, Crate>, root: string, leaves: seq<string>)
  {
    /** The crates whose dependencies are followed. */
    predicate Expands(name: string) {
      name in crates && crates[name].dependencies.Some? && (name == root || name !in leaves)
    }

    predicate HasEdge(from: string, to: string) {
      Expands(from) && to in crates[from].dependencies.value
    }

    /** A chain of dependencies from the root. */
    predicate IsPath(path: seq<string>) {
      && path != [] && path[0] == root
      && forall i :: 0 <= i < |path| - 1 ==> HasEdge(path[i], path[i + 1])
    }

    ghost predicate Reaches(name: string) {
      exists path :: IsPath(path) && path[|path| - 1] == name
    }

    /** Reachable when the edges out of leaves are cut, or a leaf. */
    ghost predicate InClosure(name: string) {
      Reaches(name) || name in leaves
    }

    predicate IsRoot(name: string) {
      name in crates && crates[name].hasSource
    }

    function Universe(): set<string> {
      {root} + (set name | name in leaves)
      + (set name, to
           | name in crates && crates[name].dependencies.Some? && to in crates[name].dependencies.value :: to)
    }
  }

  lemma RootIsReached(scope: Scope)
    ensures scope.Reaches(scope.root)
  {
    assert scope.IsPath([scope.root]);
  }

  lemma EdgeExtends(scope: Scope, from: string, to: string)
    requires scope.Reaches(from) && scope.HasEdge(from, to)
    ensures scope.Reaches(to)
  {
    var path :| scope.IsPath(path) && path[|path| - 1] == from;
    var longer := path + [to];
    assert forall i :: 0 <= i < |path| ==> longer[i] == path[i];
    assert scope.IsPath(longer) && longer[|longer| - 1] == to;
  }

  /** A set that holds the root and follows every edge holds all that is reached. */
  lemma {:induction false} ClosedHoldsPath(scope: Scope, seen: set<string>, path: seq<string>)
    requires scope.root in seen
    requires forall from, to :: from in seen && scope.HasEdge(from, to) ==> to in seen
    requires scope.IsPath(path)
    ensures path[|path| - 1] in seen
    decreases |path|
  {
    if |path| > 1 {
      var shorter := path[..|path| - 1];
      assert forall i :: 0 <= i < |shorter| ==> shorter[i] == path[i];
      ClosedHoldsPath(scope, seen, shorter);
      assert scope.HasEdge(path[|path| - 2], path[|path| - 1]);
    }
  }

  // ----- The search -----------------------------------------------------------

  type Queue = seq<(string, bool)>

  /** Leaves come before any dependency of the same name, so they are met first as
      leaves. */
  predicate LeavesFirst(scope: Scope, queue: Queue, seen: set<string>) {
    forall i :: 0 <= i < |queue| && queue[i].1 && queue[i].0 in scope.leaves && queue[i].0 != scope.root ==>
      queue[i].0 in seen || (queue[i].0, false) in queue[..i]
  }

  predicate IsPendingOrSeen(queue: Queue, seen: set<string>, entry: (string, bool)) {
    entry.0 in seen || entry in queue
  }

  ghost predicate QueueIsSound(scope: Scope, queue: Queue) {
    forall i :: 0 <= i < |queue| ==>
      && queue[i].0 in scope.Universe()
      && if queue[i].1 then scope.Reaches(queue[i].0) else queue[i].0 in scope.leaves
  }

  function Pushed(names: seq<string>): Queue {
    seq(|names|, i requires 0 <= i < |names| => (names[i], true))
  }

  function LeafQueue(names: seq<string>): Queue {
    seq(|names|, i requires 0 <= i < |names| => (names[i], false))
  }

  lemma LeavesAreQueued(leaves: seq<string>)
    ensures forall leaf :: leaf in leaves ==> (leaf, false) in LeafQueue(leaves)
  {
    forall leaf | leaf in leaves
      ensures (leaf, false) in LeafQueue(leaves)
    {
      var i :| 0 <= i < |leaves| && leaves[i] == leaf;
      assert LeafQueue(leaves)[i] == (leaf, false);
    }
  }

  lemma NamesArePushed(names: seq<string>)
    ensures forall name :: name in names <==> (name, true) in Pushed(names)
    ensures forall entry :: entry in Pushed(names) ==> entry.1 && entry.0 in names
  {
    forall name | name in names
      ensures (name, true) in Pushed(names)
    {
      var i :| 0 <= i < |names| && names[i] == name;
      assert Pushed(names)[i] == (name, true);
    }
  }

  lemma PushKeepsLeavesFirst(scope: Scope, queue: Queue, seen: set<string>, names: seq<string>)
    requires LeavesFirst(scope, queue, seen)
    requires forall leaf :: leaf in scope.leaves ==> IsPendingOrSeen(queue, seen, (leaf, false))
    ensures LeavesFirst(scope, queue + Pushed(names), seen)
  {
    var longer := queue + Pushed(names);
    forall i | 0 <= i < |longer| && longer[i].1 && longer[i].0 in scope.leaves && longer[i].0 != scope.root
      ensures longer[i].0 in seen || (longer[i].0, false) in longer[..i]
    {
      if i < |queue| {
        assert longer[..i] == queue[..i];
      } else {
        assert IsPendingOrSeen(queue, seen, (longer[i].0, false));
        assert longer[..i] == queue + longer[|queue|..i];
      }
    }
  }

  lemma PopKeepsLeavesFirst(scope: Scope, queue: Queue, seen: set<string>)
    requires queue != [] && LeavesFirst(scope, queue, seen)
    ensures LeavesFirst(scope, queue[1..], seen + {queue[0].0})
  {
    var rest := queue[1..];
    forall i | 0 <= i < |rest| && rest[i].1 && rest[i].0 in scope.leaves && rest[i].0 != scope.root
      ensures rest[i].0 in seen + {queue[0].0} || (rest[i].0, false) in rest[..i]
    {
      assert rest[i] == queue[i + 1];
      if rest[i].0 !in seen {
        assert queue[..i + 1] == [queue[0]] + rest[..i];
      }
    }
  }

  /** What the search keeps: the queue and the seen crates are in the closure, and
      every leaf and every edge out of a seen crate is seen or pending. */
  ghost predicate SearchInv(scope: Scope, queue: Queue, seen: set<string>) {
    && QueueIsSound(scope, queue)
    && LeavesFirst(scope, queue, seen)
    && (scope.root in seen || (queue != [] && queue[0] == (scope.root, true)))
    && (forall leaf :: leaf in scope.leaves ==> IsPendingOrSeen(queue, seen, (leaf, false)))
    && seen <= scope.Universe()
    && (forall name :: name in seen ==> scope.InClosure(name))
    && (forall from, to :: from in seen && scope.HasEdge(from, to) ==> IsPendingOrSeen(queue, seen, (to, true)))
  }

  lemma SearchStarts(scope: Scope)
    ensures SearchInv(scope, [(scope.root, true)] + LeafQueue(scope.leaves), {})
  {
    RootIsReached(scope);
    LeavesAreQueued(scope.leaves);
  }

  lemma PendingAfterPop(queue: Queue, seen: set<string>, entry: (string, bool))
    requires queue != [] && IsPendingOrSeen(queue, seen, entry)
    ensures IsPendingOrSeen(queue[1..], seen + {queue[0].0}, entry)
  {
    assert queue == [queue[0]] + queue[1..];
  }

  /** Popping keeps everything but the edges of the popped crate, if it is new. */
  lemma PopKeeps(scope: Scope, queue: Queue, seen: set<string>)
    requires SearchInv(scope, queue, seen) && queue != []
    ensures var name := queue[0].0;
      (scope.Expands(name) && name !in seen) || SearchInv(scope, queue[1..], seen + {name})
    ensures queue[0].1 ==> scope.Reaches(queue[0].0)
    ensures QueueIsSound(scope, queue[1..]) && LeavesFirst(scope, queue[1..], seen + {queue[0].0})
    ensures scope.root in seen + {queue[0].0} && queue[0].0 in scope.Universe() && scope.InClosure(queue[0].0)
    ensures forall leaf :: leaf in scope.leaves ==> IsPendingOrSeen(queue[1..], seen + {queue[0].0}, (leaf, false))
    ensures forall from, to :: from in seen && scope.HasEdge(from, to) ==>
      IsPendingOrSeen(queue[1..], seen + {queue[0].0}, (to, true))
  {
    PopKeepsLeavesFirst(scope, queue, seen);
    forall leaf | leaf in scope.leaves
      ensures IsPendingOrSeen(queue[1..], seen + {queue[0].0}, (leaf, false))
    {
      PendingAfterPop(queue, seen, (leaf, false));
    }
    forall from, to | from in seen && scope.HasEdge(from, to)
      ensures IsPendingOrSeen(queue[1..], seen + {queue[0].0}, (to, true))
    {
      PendingAfterPop(queue, seen, (to, true));
    }
  }

  /** A crate met for the first time is expanded exactly when its edges count. */
  lemma TraverseMeansExpands(scope: Scope, queue: Queue, seen: set<string>)
    requires SearchInv(scope, queue, seen) && queue != [] && queue[0].0 !in seen
    ensures var (name, traverse) := queue[0];
      scope.Expands(name) <==> traverse && name in scope.crates && scope.crates[name].dependencies.Some?
  {
    assert queue[..0] == [];
  }

  lemma PushKeeps(scope: Scope, queue: Queue, seen: set<string>)
    requires SearchInv(scope, queue, seen) && queue != [] && queue[0].0 !in seen && scope.Expands(queue[0].0)
    ensures SearchInv(scope, queue[1..] + Pushed(scope.crates[queue[0].0].dependencies.value), seen + {queue[0].0})
  {
    var name := queue[0].0;
    var names := scope.crates[name].dependencies.value;
    var rest, longer := queue[1..], queue[1..] + Pushed(names);
    PopKeeps(scope, queue, seen);
    TraverseMeansExpands(scope, queue, seen);
    PushKeepsLeavesFirst(scope, rest, seen + {name}, names);
    NamesArePushed(names);
    forall to | to in names
      ensures scope.Reaches(to)
    {
      EdgeExtends(scope, name, to);
    }
  }

  /** The queue after a crate is taken from it. */
  function NextQueue(scope: Scope, queue: Queue, seen: set<string>): Queue
    requires queue != []
  {
    var (name, traverse) := queue[0];
    if name !in seen && traverse && name in scope.crates && scope.crates[name].dependencies.Some? then
      queue[1..] + Pushed(scope.crates[name].dependencies.value)
    else
      queue[1..]
  }

  lemma LessIsLeft(scope: Scope, seen: set<string>, name: string)
    requires name in scope.Universe() && name !in seen
    ensures |scope.Universe() - (seen + {name})| < |scope.Universe() - seen|
  {
    assert scope.Universe() - (seen + {name}) == scope.Universe() - seen - {name};
  }

  lemma TurnKeeps(scope: Scope, queue: Queue, seen: set<string>)
    requires SearchInv(scope, queue, seen) && queue != []
    ensures queue[0].0 in scope.Universe()
    ensures queue[0].0 in seen ==> SearchInv(scope, queue[1..], seen)
    ensures queue[0].0 !in seen ==> SearchInv(scope, NextQueue(scope, queue, seen), seen + {queue[0].0})
  {
    PopKeeps(scope, queue, seen);
    if queue[0].0 in seen {
      assert seen + {queue[0].0} == seen;
    } else {
      TraverseMeansExpands(scope, queue, seen);
      if scope.Expands(queue[0].0) {
        PushKeeps(scope, queue, seen);
      }
    }
  }

  // ----- Sorting --------------------------------------------------------------

  predicate IsSorted(names: seq<string>) {
    forall i, j :: 0 <= i < j < |names| ==> Less(names[i], names[j])
  }

  function Insert(names: seq<string>, name: string): (longer: seq<string>)
    ensures forall other :: other in longer <==> other in names || other == name
  {
    if names == [] || Less(name, names[0]) then [name] + names
    else [names[0]] + Insert(names[1..], name)
  }

  function Sort(names: seq<string>): (sorted: seq<string>)
    ensures forall name :: name in sorted <==> name in names
  {
    if names == [] then [] else Insert(Sort(names[1..]), names[0])
  }

  lemma {:induction false} InsertIsSorted(names: seq<string>, name: string)
    requires IsSorted(names) && name !in names
    ensures IsSorted(Insert(names, name))
    decreases |names|
  {
    if names != [] {
      var rest := names[1..];
      assert forall i :: 0 <= i < |rest| ==> rest[i] == names[i + 1];
      LessIsTotal(name, names[0]);
      if Less(name, names[0]) {
        forall i | 0 < i < |names|
          ensures Less(name, names[i])
        {
          LessIsTransitive(name, names[0], names[i]);
        }
      } else {
        InsertIsSorted(rest, name);
        forall other | other in Insert(rest, name)
          ensures Less(names[0], other)
        {
          if other in rest {
            var i :| 0 <= i < |rest| && rest[i] == other;
          }
        }
      }
    }
  }

  lemma {:induction false} SortIsSorted(names: seq<string>)
    requires IsDistinct(names)
    ensures IsSorted(Sort(names))
    decreases |names|
  {
    if names != [] {
      assert forall i :: 0 <= i < |names[1..]| ==> names[1..][i] == names[i + 1];
      SortIsSorted(names[1..]);
      InsertIsSorted(Sort(names[1..]), names[0]);
    }
  }

  lemma FirstIsLeast(names: seq<string>, name: string)
    requires IsSorted(names) && name in names
    ensures name == names[0] || Less(names[0], name)
  {
    var i :| 0 <= i < |names| && names[i] == name;
  }

  /** Two sorted sequences of the same names are the same sequence. */
  lemma {:induction false} SortedIsUnique(a: seq<string>, b: seq<string>)
    requires IsSorted(a) && IsSorted(b) && forall name :: name in a <==> name in b
    ensures a == b
    decreases |a|
  {
    SomeName(b);
    if a != [] {
      assert a[0] in a && a[0] in b && b[0] in b;
      FirstIsLeast(a, b[0]);
      FirstIsLeast(b, a[0]);
      LessIsTotal(a[0], b[0]);
      SameRest(a, b);
      SortedIsUnique(a[1..], b[1..]);
      assert a == [a[0]] + a[1..] && b == [b[0]] + b[1..];
    }
  }

  lemma SomeName(names: seq<string>)
    ensures names != [] ==> exists name :: name in names
  {
    if names != [] {
      assert names[0] in names;
    }
  }

  lemma SameRest(a: seq<string>, b: seq<string>)
    requires IsSorted(a) && IsSorted(b) && (forall name :: name in a <==> name in b)
    requires a != [] && b != [] && a[0] == b[0]
    ensures forall name :: name in a[1..] <==> name in b[1..]
  {
    LessIsTotal(a[0], a[0]);
    assert a[0] !in a[1..] && b[0] !in b[1..];
    assert forall name :: name in a <==> name == a[0] || name in a[1..];
    assert forall name :: name in b <==> name == b[0] || name in b[1..];
  }

  // ----- The result -----------------------------------------------------------

  /** The crates whose sources are hashed: those with sources in the closure, sorted. */
  ghost predicate AreShapeRoots(scope: Scope, roots: seq<string>) {
    IsSorted(roots) && forall name :: name in roots <==> scope.IsRoot(name) && scope.InClosure(name)
  }

  /** Outside a workspace nothing is hashed. */
  method WorkspaceShapeRoots(scope: Option<Scope>) returns (roots: seq<string>)
    ensures scope.None? ==> roots == []
    ensures scope.Some? ==> AreShapeRoots(scope.value, roots)
  {
    if scope.None? {
      return [];
    }
    var found := FindRoots(scope.value);
    SortIsSorted(found);
    return Sort(found);
  }

  ghost predicate AreRootsOf(scope: Scope, roots: seq<string>, seen: set<string>) {
    IsDistinct(roots) && forall name :: name in roots <==> name in seen && scope.IsRoot(name)
  }

  lemma RootsGrow(scope: Scope, roots: seq<string>, seen: set<string>, name: string)
    requires AreRootsOf(scope, roots, seen) && name !in seen
    ensures AreRootsOf(scope, if scope.IsRoot(name) then roots + [name] else roots, seen + {name})
  {
    if scope.IsRoot(name) {
      var more := roots + [name];
      assert forall x :: x in more <==> x in roots || x == name;
      assert forall i :: 0 <= i < |roots| ==> more[i] == roots[i] && more[i] in roots;
    }
  }

  /** The search itself finds each such crate once. */
  method FindRoots(scope: Scope) returns (roots: seq<string>)
    ensures forall name :: name in roots <==> scope.IsRoot(name) && scope.InClosure(name)
    ensures IsDistinct(roots)
  {
    var seen: set<string> := {};
    var queue: Queue := [(scope.root, true)] + LeafQueue(scope.leaves);
    roots := [];
    SearchStarts(scope);
    while queue != []
      invariant SearchInv(scope, queue, seen)
      invariant AreRootsOf(scope, roots, seen)
      decreases |scope.Universe() - seen|, |queue|
    {
      var (name, traverse) := queue[0];
      TurnKeeps(scope, queue, seen);
      if name in seen {
        queue := queue[1..];
        continue;
      }
      LessIsLeft(scope, seen, name);
      RootsGrow(scope, roots, seen, name);
      ghost var next := NextQueue(scope, queue, seen);
      seen := seen + {name};
      queue := queue[1..];
      if name !in scope.crates {
        assert queue == next;
        continue;
      }
      if scope.crates[name].hasSource {
        roots := roots + [name];
      }
      if !traverse || scope.crates[name].dependencies.None? {
        assert queue == next;
        continue;
      }
      queue := queue + Pushed(scope.crates[name].dependencies.value);
      assert queue == next;
    }
    SearchIsComplete(scope, seen);
  }

  lemma SearchIsComplete(scope: Scope, seen: set<string>)
    requires SearchInv(scope, [], seen)
    ensures forall name :: name in seen <==> scope.InClosure(name)
  {
    forall name | scope.InClosure(name)
      ensures name in seen
    {
      if name in scope.leaves {
        assert IsPendingOrSeen([], seen, (name, false));
      } else {
        var path :| scope.IsPath(path) && path[|path| - 1] == name;
        assert forall from, to :: from in seen && scope.HasEdge(from, to) ==> IsPendingOrSeen([], seen, (to, true));
        ClosedHoldsPath(scope, seen, path);
      }
    }
  }

  // ----- Order does not matter ------------------------------------------------

  /** The same workspace with its dependency tables listed in another way. */
  ghost predicate SameUpToOrder(a: Scope, b: Scope) {
    && a.root == b.root && a.crates.Keys == b.crates.Keys
    && (forall name :: name in a.leaves <==> name in b.leaves)
    && forall name :: name in a.crates ==>
         && a.crates[name].hasSource == b.crates[name].hasSource
         && a.crates[name].dependencies.Some? == b.crates[name].dependencies.Some?
         && (a.crates[name].dependencies.Some? ==>
               forall to :: to in a.crates[name].dependencies.value <==> to in b.crates[name].dependencies.value)
  }

  lemma ClosureIgnoresOrder(a: Scope, b: Scope, name: string)
    requires SameUpToOrder(a, b)
    ensures a.InClosure(name) <==> b.InClosure(name)
  {
    assert forall from, to :: a.HasEdge(from, to) <==> b.HasEdge(from, to);
    assert forall path :: a.IsPath(path) <==> b.IsPath(path);
  }

  /** Whatever order the dependency tables list their entries in, the roots are the same
      sequence. */
  lemma RootsIgnoreOrder(a: Scope, b: Scope, rootsOfA: seq<string>, rootsOfB: seq<string>)
    requires SameUpToOrder(a, b) && AreShapeRoots(a, rootsOfA) && AreShapeRoots(b, rootsOfB)
    ensures rootsOfA == rootsOfB
  {
    forall name
      ensures name in rootsOfA <==> name in rootsOfB
    {
      ClosureIgnoresOrder(a, b, name);
    }
    SortedIsUnique(rootsOfA, rootsOfB);
  }
}
