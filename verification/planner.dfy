/** The foreign key planner: Kahn's walk with a fallback for what it leaves out. */
module Planner {
  import opened Model

  type Graph = map<string, seq<string>>  // child -> parents

  ghost predicate Distinct(s: seq<string>) {
    forall i, j | 0 <= i < j < |s| :: s[i] != s[j]
  }

  function Count(s: seq<string>, x: string): nat {
    if s == [] then 0 else Count(s[..|s| - 1], x) + if s[|s| - 1] == x then 1 else 0
  }

  /** The members of `s` that are in `names`, in order. */
  function Keep(s: seq<string>, names: set<string>): seq<string> {
    if s == [] then []
    else
      var last := s[|s| - 1];
      if last in names then Keep(s[..|s| - 1], names) + [last] else Keep(s[..|s| - 1], names)
  }

  function Names(s: seq<string>): set<string> {
    set x | x in s
  }

  /** The parents of `c` among the planned tables, with repetitions. */
  function Parents(edges: Graph, names: set<string>, c: string): seq<string> {
    if c in edges && c in names then Keep(edges[c], names) else []
  }

  lemma {:induction false} KeepMembers(s: seq<string>, names: set<string>)
    ensures forall x :: x in Keep(s, names) <==> x in s && x in names
  {
    if s == [] {
    } else {
      KeepMembers(s[..|s| - 1], names);
      assert s == s[..|s| - 1] + [s[|s| - 1]];
    }
  }

  lemma {:induction false} KeepDistinct(s: seq<string>, names: set<string>)
    requires Distinct(s)
    ensures Distinct(Keep(s, names))
  {
    if s == [] {
    } else {
      KeepDistinct(s[..|s| - 1], names);
      KeepMembers(s[..|s| - 1], names);
    }
  }

  lemma CountAppend(s: seq<string>, y: string, x: string)
    ensures Count(s + [y], x) == Count(s, x) + if y == x then 1 else 0
  {
    assert (s + [y])[..|s|] == s;
  }

  /** The entries of `parents` not yet emitted. */
  function Blocked(parents: seq<string>, done: set<string>): nat {
    if parents == [] then 0
    else Blocked(parents[..|parents| - 1], done) + if parents[|parents| - 1] in done then 0 else 1
  }

  lemma {:induction false} BlockedByOneLess(parents: seq<string>, done: set<string>, t: string)
    requires t !in done
    ensures Blocked(parents, done + {t}) + Count(parents, t) == Blocked(parents, done)
  {
    if parents == [] {
    } else {
      BlockedByOneLess(parents[..|parents| - 1], done, t);
    }
  }

  lemma {:induction false} BlockedMeans(parents: seq<string>, done: set<string>)
    ensures Blocked(parents, {}) == |parents|
    ensures Blocked(parents, done) == 0 <==> forall x | x in parents :: x in done
  {
    if parents == [] {
    } else {
      BlockedMeans(parents[..|parents| - 1], done);
      assert parents == parents[..|parents| - 1] + [parents[|parents| - 1]];
    }
  }

  // ----- Building degrees and child lists -----

  datatype Work = Work(inDegree: map<string, int>, children: map<string, seq<string>>)

  /** The child list of `p` names each planned child once per edge. */
  ghost predicate IsChildList(list: seq<string>, edges: Graph, names: set<string>, p: string) {
    && (forall c | c in list :: c in names)
    && (forall c | c in names :: Count(list, c) == Count(Parents(edges, names, c), p))
  }

  /** The work tables reflect the edges looked at so far. */
  ghost predicate Built(w: Work, edges: Graph, names: set<string>) {
    && w.inDegree.Keys == names && w.children.Keys == names
    && (forall c {:trigger HasDegree(w, edges, names, c)} :: c in names ==> HasDegree(w, edges, names, c))
    && (forall p {:trigger HasChildren(w, edges, names, p)} :: p in names ==> HasChildren(w, edges, names, p))
  }

  ghost predicate HasDegree(w: Work, edges: Graph, names: set<string>, c: string) {
    c in w.inDegree && w.inDegree[c] == |Parents(edges, names, c)|
  }

  ghost predicate HasChildren(w: Work, edges: Graph, names: set<string>, p: string) {
    p in w.children && IsChildList(w.children[p], edges, names, p)
  }

  /** Graphs with the same planned parents build the same work tables. */
  lemma {:induction false} SameParents(w: Work, edges: Graph, edges': Graph, names: set<string>)
    requires Built(w, edges, names)
    requires forall c :: Parents(edges', names, c) == Parents(edges, names, c)
    ensures Built(w, edges', names)
  {
    forall c | c in names
      ensures HasDegree(w, edges', names, c) && HasChildren(w, edges', names, c)
    {
      assert HasDegree(w, edges, names, c) && HasChildren(w, edges, names, c);
    }
  }

  lemma {:induction false} SkipEdge(w: Work, edges: Graph, names: set<string>, child: string, parents: seq<string>,
                                    parent: string)
    requires child in edges && edges[child] == parents && Built(w, edges, names)
    requires child !in names || parent !in names
    ensures Built(w, edges[child := parents + [parent]], names)
  {
    var after := edges[child := parents + [parent]];
    assert (parents + [parent])[..|parents|] == parents;
    SameParents(w, edges, after, names);
  }

  lemma {:induction false} AddEdge(w: Work, edges: Graph, names: set<string>, child: string, parents: seq<string>,
                                   parent: string)
    requires child in edges && edges[child] == parents && Built(w, edges, names)
    requires child in names && parent in names
    ensures Built(Work(w.inDegree[child := w.inDegree[child] + 1], w.children[parent := w.children[parent] + [child]]),
                  edges[child := parents + [parent]], names)
  {
    var after := edges[child := parents + [parent]];
    var w' := Work(w.inDegree[child := w.inDegree[child] + 1], w.children[parent := w.children[parent] + [child]]);
    assert w'.inDegree.Keys == names && w'.children.Keys == names;
    OneMoreParent(edges, names, child, parents, parent);
    forall c | c in names
      ensures HasDegree(w', after, names, c)
    {
      assert HasDegree(w, edges, names, c);
    }
    forall p | p in names
      ensures HasChildren(w', after, names, p)
    {
      assert HasChildren(w, edges, names, p);
      ChildListAfter(w.children[p], edges, names, child, parents, parent, p);
    }
  }

  function Linked(w: Work, child: string, parent: string): Work
    requires child in w.inDegree && parent in w.children
  {
    Work(w.inDegree[child := w.inDegree[child] + 1], w.children[parent := w.children[parent] + [child]])
  }

  /** Looking at one more parent of a planned child keeps the work tables right. */
  lemma {:induction false} LookAtEdge(w: Work, before: Graph, names: set<string>, child: string, parents: seq<string>,
                                      parent: string)
    requires child in names && Built(w, before[child := parents], names)
    ensures child in w.inDegree && (parent in names ==> parent in w.children)
    ensures Built(if parent in names then Linked(w, child, parent) else w, before[child := parents + [parent]], names)
  {
    var seen := before[child := parents];
    assert seen[child := parents + [parent]] == before[child := parents + [parent]];
    if parent in names {
      AddEdge(w, seen, names, child, parents, parent);
    } else {
      SkipEdge(w, seen, names, child, parents, parent);
    }
  }

  lemma {:induction false} ChildListAfter(list: seq<string>, edges: Graph, names: set<string>, child: string,
                                          parents: seq<string>, parent: string, p: string)
    requires child in edges && edges[child] == parents && child in names && parent in names
    requires IsChildList(list, edges, names, p)
    ensures IsChildList(if p == parent then list + [child] else list, edges[child := parents + [parent]], names, p)
  {
    OneMoreParent(edges, names, child, parents, parent);
    forall c | c in names
      ensures Count(if p == parent then list + [child] else list, c) ==
              Count(Parents(edges[child := parents + [parent]], names, c), p)
    {
      CountAppend(list, child, c);
      CountAppend(Parents(edges, names, child), parent, p);
    }
  }

  lemma {:induction false} OneMoreParent(edges: Graph, names: set<string>, child: string, parents: seq<string>,
                                         parent: string)
    requires child in edges && edges[child] == parents && child in names && parent in names
    ensures Parents(edges[child := parents + [parent]], names, child) == Parents(edges, names, child) + [parent]
    ensures forall c | c != child :: Parents(edges[child := parents + [parent]], names, c) == Parents(edges, names, c)
  {
    assert (parents + [parent])[..|parents|] == parents;
  }

  // ----- The walk -----

  /** What holds of the emitted tables and the queue while walking. */
  ghost predicate Walked(inDegree: map<string, int>, order: seq<string>, ready: seq<string>, edges: Graph,
                         names: set<string>)
  {
    && inDegree.Keys == names
    && Distinct(order + ready) && Names(order + ready) <= names
    && (forall c | c in names :: inDegree[c] == Blocked(Parents(edges, names, c), Names(order)))
    && (forall c | c in names :: c in order + ready <==> inDegree[c] == 0)
    && ParentsFirst(order, edges, names)
  }

  ghost predicate ParentsFirst(order: seq<string>, edges: Graph, names: set<string>) {
    forall i | 0 <= i < |order| :: forall p | p in Parents(edges, names, order[i]) :: p in order[..i]
  }

  /** While the children of the table just emitted are being looked at: `left` are
      those still to come. */
  ghost predicate Releasing(inDegree: map<string, int>, order: seq<string>, ready: seq<string>, left: seq<string>,
                            edges: Graph, names: set<string>) {
    && inDegree.Keys == names && Names(left) <= names
    && Distinct(order + ready) && Names(order + ready) <= names
    && (forall c | c in names :: inDegree[c] == Blocked(Parents(edges, names, c), Names(order)) + Count(left, c))
    && (forall c | c in names :: c in order + ready <==> inDegree[c] == 0)
    && ParentsFirst(order, edges, names)
  }

  lemma {:induction false} CountFirst(s: seq<string>, x: string)
    requires s != []
    ensures Count(s, x) == (if s[0] == x then 1 else 0) + Count(s[1..], x)
  {
    if |s| == 1 {
    } else {
      var n := |s| - 1;
      CountFirst(s[..n], x);
      assert s[..n][1..] == s[1..][..n - 1];
    }
  }

  lemma {:induction false} EmitNext(inDegree: map<string, int>, order: seq<string>, ready: seq<string>,
                                    kids: seq<string>, edges: Graph, names: set<string>)
    requires ready != [] && Walked(inDegree, order, ready, edges, names) && Names(kids) <= names
    requires forall c | c in names :: Count(kids, c) == Count(Parents(edges, names, c), ready[0])
    ensures Releasing(inDegree, order + [ready[0]], ready[1..], kids, edges, names)
  {
    var t := ready[0];
    var order' := order + [t];
    assert order' + ready[1..] == order + ready;
    assert (order + ready)[|order|] == t;
    assert forall i | 0 <= i < |order| :: (order + ready)[i] == order[i];
    assert t !in order;
    assert Names(order') == Names(order) + {t};
    forall c | c in names
      ensures inDegree[c] == Blocked(Parents(edges, names, c), Names(order')) + Count(kids, c)
    {
      BlockedByOneLess(Parents(edges, names, c), Names(order), t);
    }
    BlockedMeans(Parents(edges, names, t), Names(order));
    assert t in names && t in order + ready;
    assert forall i | 0 <= i < |order| :: order'[..i] == order[..i] && order'[i] == order[i];
    assert order'[..|order|] == order;
  }

  lemma {:induction false} Emit(w: Work, inDegree: map<string, int>, order: seq<string>, ready: seq<string>,
                                edges: Graph, names: set<string>, distinct: bool)
    requires Built(w, edges, names) && ready != [] && Names(ready) <= names && Names(order) <= names
    requires distinct ==> Walked(inDegree, order, ready, edges, names)
    ensures ready[0] in w.children && Names(w.children[ready[0]]) <= names
    ensures Names(ready[1..]) <= names && Names(order + [ready[0]]) <= names
    ensures distinct ==> Releasing(inDegree, order + [ready[0]], ready[1..], w.children[ready[0]], edges, names)
  {
    var table := ready[0];
    assert table in Names(ready);
    assert HasChildren(w, edges, names, table);
    assert forall x | x in Names(ready[1..]) :: x in Names(ready);
    if distinct {
      EmitNext(inDegree, order, ready, w.children[table], edges, names);
    }
  }

  lemma {:induction false} ReleaseChild(inDegree: map<string, int>, order: seq<string>, ready: seq<string>,
                                        left: seq<string>, edges: Graph, names: set<string>)
    requires left != [] && Releasing(inDegree, order, ready, left, edges, names)
    ensures left[0] in inDegree
    ensures var d := inDegree[left[0]] - 1;
            Releasing(inDegree[left[0] := d], order, if d == 0 then ready + [left[0]] else ready, left[1..],
                      edges, names)
  {
    var c := left[0];
    assert c in Names(left);
    forall x
      ensures Count(left, x) == (if c == x then 1 else 0) + Count(left[1..], x)
    {
      CountFirst(left, x);
    }
    assert inDegree[c] >= 1 && c !in order + ready;
    assert forall x | x in Names(left[1..]) :: x in Names(left);
    assert order + (ready + [c]) == (order + ready) + [c];
  }

  lemma {:induction false} EmptyEntry(w: Work, edges: Graph, names: set<string>, child: string)
    requires child !in edges && Built(w, edges, names)
    ensures Built(w, edges[child := []], names)
  {
    SameParents(w, edges, edges[child := []], names);
  }

  lemma {:induction false} UnplannedEntry(w: Work, edges: Graph, names: set<string>, child: string,
                                          parents: seq<string>)
    requires child !in names && Built(w, edges, names)
    ensures Built(w, edges[child := parents], names)
  {
    SameParents(w, edges, edges[child := parents], names);
  }

  /** The planned tables without a planned parent. */
  ghost function RootSet(edges: Graph, names: set<string>): set<string> {
    set t | t in names && Parents(edges, names, t) == []
  }

  ghost function Positive(inDegree: map<string, int>): nat {
    |set t | t in inDegree && inDegree[t] > 0|
  }

  lemma LowerDegree(inDegree: map<string, int>, c: string)
    requires c in inDegree
    ensures Positive(inDegree[c := inDegree[c] - 1]) <= Positive(inDegree)
    ensures inDegree[c] == 1 ==> Positive(inDegree[c := 0]) < Positive(inDegree)
  {
    var all := set t | t in inDegree && inDegree[t] > 0;
    var after := inDegree[c := inDegree[c] - 1];
    var rest := set t | t in after && after[t] > 0;
    assert rest <= all;
    assert all == rest + (all - rest);
    if inDegree[c] == 1 {
      assert c in all - rest;
    }
  }

  /** What the walk emits: distinct planned tables, each after all its planned
      parents, the roots first and in input order, stopping only when every table
      left out waits for another one left out. */
  ghost predicate WalkResult(order: seq<string>, tables: seq<string>, edges: Graph) {
    var names := Names(tables);
    && Distinct(order) && Names(order) <= names
    && ParentsFirst(order, edges, names)
    && Keep(tables, RootSet(edges, names)) <= order
    && forall c {:trigger Waits(c, order, edges, names)} :: c in names && c !in order ==> Waits(c, order, edges, names)
  }

  ghost predicate Waits(c: string, order: seq<string>, edges: Graph, names: set<string>) {
    exists p :: p in Parents(edges, names, c) && p !in order
  }

  lemma {:induction false} StartWalk(w: Work, tables: seq<string>, ready: seq<string>, edges: Graph)
    requires Distinct(tables) && Built(w, edges, Names(tables))
    requires ready == Keep(tables, RootSet(edges, Names(tables)))
    ensures Walked(w.inDegree, [], ready, edges, Names(tables))
  {
    var names := Names(tables);
    KeepDistinct(tables, RootSet(edges, names));
    KeepMembers(tables, RootSet(edges, names));
    assert [] + ready == ready;
    forall c | c in names
      ensures w.inDegree[c] == Blocked(Parents(edges, names, c), Names([]))
    {
      assert HasDegree(w, edges, names, c);
      BlockedMeans(Parents(edges, names, c), {});
      assert Names([]) == {};
    }
  }

  lemma {:induction false} EndWalk(inDegree: map<string, int>, order: seq<string>, tables: seq<string>, edges: Graph)
    requires Walked(inDegree, order, [], edges, Names(tables))
    requires Keep(tables, RootSet(edges, Names(tables))) <= order
    ensures WalkResult(order, tables, edges)
  {
    var names := Names(tables);
    assert order + [] == order;
    forall c | c in names && c !in order
      ensures Waits(c, order, edges, names)
    {
      BlockedMeans(Parents(edges, names, c), Names(order));
    }
  }

  lemma {:induction false} PrefixKept(roots: seq<string>, order: seq<string>, ready: seq<string>, ready': seq<string>)
    requires ready != [] && ready[1..] <= ready' && roots <= order + ready
    ensures roots <= (order + [ready[0]]) + ready'
  {
    var old', new' := order + ready, (order + [ready[0]]) + ready';
    forall i | 0 <= i < |old'|
      ensures old'[i] == new'[i]
    {
      if i > |order| {
        assert old'[i] == ready[1..][i - |order| - 1];
      }
    }
  }

  lemma NamesAppend(s: seq<string>, x: string)
    ensures Names(s + [x]) == Names(s) + {x}
  {
  }

  lemma {:induction false} SameMembers(a: seq<string>, b: seq<string>)
    requires Distinct(a) && Distinct(b) && Names(a) == Names(b)
    ensures multiset(a) == multiset(b)
  {
    forall x
      ensures multiset(a)[x] == multiset(b)[x]
    {
      DistinctCount(a, x);
      DistinctCount(b, x);
      assert x in Names(a) <==> x in a;
      assert x in Names(b) <==> x in b;
    }
  }

  lemma {:induction false} DistinctCount(s: seq<string>, x: string)
    requires Distinct(s)
    ensures multiset(s)[x] == if x in s then 1 else 0
  {
    if s == [] {
    } else {
      var n := |s| - 1;
      DistinctCount(s[..n], x);
      assert s == s[..n] + [s[n]];
    }
  }

  /** A table left the set of waiting ones, or the queue did not grow. */
  ghost predicate Shrinks(degrees: map<string, int>, queue: seq<string>, degrees': map<string, int>,
                          queue': seq<string>)
  {
    Positive(degrees') < Positive(degrees) || (Positive(degrees') == Positive(degrees) && |queue'| == |queue|)
  }

  /** The state of the queue after some children were looked at. */
  ghost predicate Queued(degrees: map<string, int>, queue: seq<string>, inDegree: map<string, int>, ready: seq<string>,
                         names: set<string>) {
    inDegree.Keys == names && Names(ready) <= names && queue <= ready && Shrinks(degrees, queue, inDegree, ready)
  }

  lemma {:induction false} ReleaseStep(degrees: map<string, int>, queue: seq<string>, inDegree: map<string, int>,
                                       order: seq<string>, ready: seq<string>, kids: seq<string>, k: nat, edges: Graph,
                                       names: set<string>, distinct: bool)
    requires k < |kids| && Names(kids) <= names && Queued(degrees, queue, inDegree, ready, names)
    requires distinct ==> Releasing(inDegree, order, ready, kids[k..], edges, names)
    ensures kids[k] in inDegree
    ensures var d := inDegree[kids[k]] - 1;
            var inDegree', ready' := inDegree[kids[k] := d], if d == 0 then ready + [kids[k]] else ready;
            && Queued(degrees, queue, inDegree', ready', names)
            && (distinct ==> Releasing(inDegree', order, ready', kids[k + 1..], edges, names))
  {
    assert kids[k] in Names(kids);
    assert kids[k..][0] == kids[k] && kids[k..][1..] == kids[k + 1..];
    LowerDegree(inDegree, kids[k]);
    NamesAppend(ready, kids[k]);
    if distinct {
      ReleaseChild(inDegree, order, ready, kids[k..], edges, names);
    }
  }

  class FKPlanner {
    var edges: Graph

    constructor ()
      ensures edges == map[]
    {
      edges := map[];
    }

    /** Replaces the graph; afterwards the parents of a child are those the edge
        list names, in the list's order. */
    method SetDependencies(list: seq<FKEdge>)
      modifies this
      ensures Declares(edges, list)
    {
      edges := map[];
      for i := 0 to |list|
        invariant Declares(edges, list[..i])
      {
        var edge := list[i];
        assert list[..i + 1] == list[..i] + [edge];
        DeclareOne(edges, list[..i], edge);
        edges := edges[edge.child := (if edge.child in edges then edges[edge.child] else []) + [edge.parent]];
      }
      assert list[..|list|] == list;
    }

    /** Zero degree and no children for every table. */
    method InitWork(tables: seq<string>) returns (w: Work)
      ensures Built(w, map[], Names(tables))
    {
      var inDegree: map<string, int>, children: map<string, seq<string>> := map[], map[];
      for i := 0 to |tables|
        invariant inDegree.Keys == Names(tables[..i]) && children.Keys == Names(tables[..i])
        invariant forall t | t in inDegree :: inDegree[t] == 0
        invariant forall t | t in children :: children[t] == []
      {
        assert tables[..i + 1] == tables[..i] + [tables[i]];
        inDegree := inDegree[tables[i] := 0];
        children := children[tables[i] := []];
      }
      assert tables[..|tables|] == tables;
      w := Work(inDegree, children);
    }

    /** Adds the edge from `child` to `parent` if both are among the tables. */
    method AddParent(tables: seq<string>, w0: Work, ghost before: Graph, child: string, ghost parents: seq<string>,
                     parent: string)
      returns (w: Work)
      requires child in Names(tables) && Built(w0, before[child := parents], Names(tables))
      ensures Built(w, before[child := parents + [parent]], Names(tables))
    {
      LookAtEdge(w0, before, Names(tables), child, parents, parent);
      w := if parent in tables then Linked(w0, child, parent) else w0;
    }

    /** Adds the edges from `child` to its parents among the tables. */
    method AddParents(tables: seq<string>, w0: Work, ghost before: Graph, child: string, parents: seq<string>)
      returns (w: Work)
      requires child in Names(tables) && Built(w0, before[child := []], Names(tables))
      ensures Built(w, before[child := parents], Names(tables))
    {
      w := w0;
      ghost var done: seq<string> := [];
      for j := 0 to |parents|
        invariant done == parents[..j]
        invariant Built(w, before[child := done], Names(tables))
      {
        w := AddParent(tables, w, before, child, done, parents[j]);
        done := done + [parents[j]];
      }
      assert done == parents;
    }

    /** Degrees and child lists of the graph induced on `tables`; the edge map is
        visited in an arbitrary order. */
    method Build(tables: seq<string>) returns (w: Work)
      ensures Built(w, edges, Names(tables))
    {
      w := InitWork(tables);
      ghost var seen: Graph := map[];
      var remaining := edges.Keys;
      while remaining != {}
        invariant remaining <= edges.Keys
        invariant seen == map c | c in edges.Keys - remaining :: edges[c]
        invariant Built(w, seen, Names(tables))
      {
        var child :| child in remaining;
        if child in tables {
          EmptyEntry(w, seen, Names(tables), child);
          w := AddParents(tables, w, seen, child, edges[child]);
        } else {
          UnplannedEntry(w, seen, Names(tables), child, edges[child]);
        }
        seen := seen[child := edges[child]];
        remaining := remaining - {child};
      }
      assert seen == edges;
    }

    /** The tables no planned parent holds back, in input order. */
    method Roots(tables: seq<string>, w: Work) returns (ready: seq<string>)
      requires Built(w, edges, Names(tables))
      ensures ready == Keep(tables, RootSet(edges, Names(tables)))
    {
      ready := [];
      for i := 0 to |tables|
        invariant ready == Keep(tables[..i], RootSet(edges, Names(tables)))
      {
        assert tables[..i + 1][..i] == tables[..i];
        assert HasDegree(w, edges, Names(tables), tables[i]);
        if w.inDegree[tables[i]] == 0 {
          ready := ready + [tables[i]];
        }
      }
      assert tables[..|tables|] == tables;
    }

    /** Lowers the degree of each child in `kids` and queues those that reach 0. */
    method ReleaseChildren(degrees: map<string, int>, queue: seq<string>, kids: seq<string>, ghost order: seq<string>,
                           ghost names: set<string>, ghost distinct: bool)
      returns (inDegree: map<string, int>, ready: seq<string>)
      requires degrees.Keys == names && Names(kids) <= names && Names(queue) <= names
      requires distinct ==> Releasing(degrees, order, queue, kids, edges, names)
      ensures inDegree.Keys == names && Names(ready) <= names && queue <= ready
      ensures Shrinks(degrees, queue, inDegree, ready)
      ensures distinct ==> Walked(inDegree, order, ready, edges, names)
    {
      inDegree, ready := degrees, queue;
      for k := 0 to |kids|
        invariant Queued(degrees, queue, inDegree, ready, names)
        invariant distinct ==> Releasing(inDegree, order, ready, kids[k..], edges, names)
      {
        var child := kids[k];
        ReleaseStep(degrees, queue, inDegree, order, ready, kids, k, edges, names, distinct);
        inDegree := inDegree[child := inDegree[child] - 1];
        if inDegree[child] == 0 {
          ready := ready + [child];
        }
      }
    }

    /** Kahn's walk: emits tables as their last parent is emitted, roots first. */
    method Walk(tables: seq<string>, w: Work) returns (order: seq<string>)
      requires Built(w, edges, Names(tables))
      ensures Names(order) <= Names(tables)
      ensures Distinct(tables) ==> WalkResult(order, tables, edges)
    {
      ghost var names, distinct := Names(tables), Distinct(tables);
      var inDegree := w.inDegree;
      var ready := Roots(tables, w);
      ghost var roots := ready;
      KeepMembers(tables, RootSet(edges, names));
      order := [];
      if distinct {
        StartWalk(w, tables, ready, edges);
      }
      assert [] + ready == ready;
      while |ready| > 0
        invariant inDegree.Keys == names && Names(order) <= names && Names(ready) <= names
        invariant distinct ==> Walked(inDegree, order, ready, edges, names)
        invariant roots <= order + ready
        decreases Positive(inDegree), |ready|
      {
        var table := ready[0];
        Emit(w, inDegree, order, ready, edges, names, distinct);
        ghost var wasOrder, wasReady := order, ready;
        order := order + [table];
        inDegree, ready := ReleaseChildren(inDegree, ready[1..], w.children[table], order, names, distinct);
        PrefixKept(roots, wasOrder, wasReady, ready);
      }
      assert order + ready == order;
      if distinct {
        EndWalk(inDegree, order, tables, edges);
      }
    }

    /** The planned order; `walked` is how many tables the walk emitted. */
    method Order(tables: seq<string>) returns (order: seq<string>, ghost walked: nat)
      ensures Names(order) == Names(tables)
      ensures walked <= |order|
      ensures Distinct(tables) ==> Distinct(order) && multiset(order) == multiset(tables)
      ensures Distinct(tables) ==> WalkResult(order[..walked], tables, edges)
      ensures Distinct(tables) ==> order[walked..] == Keep(tables, Names(tables) - Names(order[..walked]))
    {
      var w := Build(tables);
      var walk := Walk(tables, w);
      walked := |walk|;
      order := AppendRest(tables, walk);
      assert order[..walked] == walk;
      if Distinct(tables) {
        SameMembers(order, tables);
      }
    }

    /** Appends the tables the walk left out, in input order. */
    method AppendRest(tables: seq<string>, walk: seq<string>) returns (order: seq<string>)
      requires Names(walk) <= Names(tables)
      ensures walk <= order && Names(order) == Names(tables)
      ensures Distinct(tables) && Distinct(walk) ==> Distinct(order)
      ensures Distinct(tables) ==> order[|walk|..] == Keep(tables, Names(tables) - Names(walk))
    {
      order := walk;
      for i := 0 to |tables|
        invariant walk <= order
        invariant Names(order) == Names(walk) + Names(tables[..i])
        invariant Distinct(walk) ==> Distinct(order)
        invariant Distinct(tables) ==> order[|walk|..] == Keep(tables[..i], Names(tables) - Names(walk))
      {
        var table := tables[i];
        assert tables[..i + 1][..i] == tables[..i];
        NamesAppend(tables[..i], table);
        assert tables[..i + 1] == tables[..i] + [table];
        NamesAppend(order, table);
        assert Distinct(tables) ==> table !in Names(tables[..i]);
        if table !in order {
          assert (order + [table])[|walk|..] == order[|walk|..] + [table];
          order := order + [table];
        }
      }
      assert tables[..|tables|] == tables;
    }
  }

  function ParentsIn(list: seq<FKEdge>, c: string): seq<string> {
    if list == [] then []
    else
      var last := list[|list| - 1];
      if last.child == c then ParentsIn(list[..|list| - 1], c) + [last.parent] else ParentsIn(list[..|list| - 1], c)
  }

  ghost predicate Declares(edges: Graph, list: seq<FKEdge>) {
    forall c :: ParentsIn(list, c) == if c in edges then edges[c] else []
  }

  lemma {:induction false} DeclareOne(edges: Graph, list: seq<FKEdge>, edge: FKEdge)
    requires Declares(edges, list)
    ensures Declares(edges[edge.child := (if edge.child in edges then edges[edge.child] else []) + [edge.parent]],
                     list + [edge])
  {
    assert (list + [edge])[..|list|] == list;
  }
}
