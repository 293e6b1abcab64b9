/** The process groups below a root process: a worklist over the process table,
    which may hold parent cycles, proved to be reachability.
  */
module ProcessGroups {
  /** One parsed line of the process table. */
  datatype Process = Process(pid: int, parent: int, group: int)

  ghost predicate UniquePids(table: seq<Process>) {
    forall i, j :: 0 <= i < j < |table| ==> table[i].pid != table[j].pid
  }

  // ---------- reachability ----------

  /** One or more parent-to-child steps, starting below `root`. */
  ghost predicate IsChain(table: seq<Process>, root: int, chain: seq<Process>) {
    && chain != []
    && chain[0].parent == root
    && (forall i :: 0 <= i < |chain| ==> chain[i] in table)
    && (forall i :: 0 < i < |chain| ==> chain[i].parent == chain[i - 1].pid)
  }

  ghost predicate Reachable(table: seq<Process>, root: int, p: Process) {
    exists chain :: IsChain(table, root, chain) && chain[|chain| - 1] == p
  }

  lemma ChildIsReachable(table: seq<Process>, root: int, parent: int, child: Process)
    requires child in table && child.parent == parent
    requires parent == root || exists p :: Reachable(table, root, p) && p.pid == parent
    ensures Reachable(table, root, child)
  {
    if parent == root {
      assert IsChain(table, root, [child]);
    } else {
      var p :| Reachable(table, root, p) && p.pid == parent;
      var chain :| IsChain(table, root, chain) && chain[|chain| - 1] == p;
      assert IsChain(table, root, chain + [child]);
    }
  }

  /** Every child of the root or of a member is a member. */
  ghost predicate IsClosed(table: seq<Process>, root: int, members: set<int>) {
    forall p :: p in table && (p.parent == root || p.parent in members) ==> p.pid in members
  }

  lemma {:induction false} ClosedHoldsChain(table: seq<Process>, root: int, members: set<int>, chain: seq<Process>)
    requires IsClosed(table, root, members) && IsChain(table, root, chain)
    ensures chain[|chain| - 1].pid in members
  {
    if |chain| == 1 {
      assert chain[0] in table;
    } else {
      var n := |chain| - 1;
      ClosedHoldsChain(table, root, members, chain[..n]);
      assert chain[n] in table && chain[n].parent == chain[..n][n - 1].pid;
    }
  }

  // ---------- the worklist ----------

  function ChildrenOf(table: seq<Process>, parent: int): (children: seq<Process>)
    ensures forall p :: p in children <==> p in table && p.parent == parent
  {
    if table == [] then []
    else
      var n := |table| - 1;
      ChildrenOf(table[..n], parent) + if table[n].parent == parent then [table[n]] else []
  }

  function Listed(children: map<int, seq<Process>>, parent: int): seq<Process> {
    if parent in children then children[parent] else []
  }

  method CollectChildren(table: seq<Process>) returns (children: map<int, seq<Process>>)
    ensures forall parent :: Listed(children, parent) == ChildrenOf(table, parent)
  {
    children := map[];
    for i := 0 to |table|
      invariant forall parent :: Listed(children, parent) == ChildrenOf(table[..i], parent)
    {
      var p := table[i];
      assert table[..i + 1][..i] == table[..i];
      children := children[p.parent := Listed(children, p.parent) + [p]];
    }
    assert table[..|table|] == table;
  }

  function Pids(table: seq<Process>): set<int> { set p | p in table :: p.pid }

  /** A reached process of this pid has lent its group. */
  ghost predicate Contributed(table: seq<Process>, root: int, groups: set<int>, pid: int) {
    exists p :: Reachable(table, root, p) && p.pid == pid && p.group in groups
  }

  ghost predicate Justified(table: seq<Process>, root: int, group: int) {
    exists p :: Reachable(table, root, p) && p.group == group
  }

  /** What the worklist knows: every member was reached and every group comes from a reached process. */
  ghost predicate Sound(table: seq<Process>, root: int, members: set<int>, groups: set<int>) {
    && members <= Pids(table)
    && (forall pid :: pid in members ==> Contributed(table, root, groups, pid))
    && (forall group :: group in groups ==> Justified(table, root, group))
  }

  lemma AddReached(table: seq<Process>, root: int, members: set<int>, groups: set<int>, parent: int, p: Process)
    requires Sound(table, root, members, groups) && p in table && p.parent == parent
    requires parent == root || parent in members
    ensures Sound(table, root, members + {p.pid}, groups + {p.group})
  {
    if parent != root {
      assert Contributed(table, root, groups, parent);
    }
    ChildIsReachable(table, root, parent, p);
    var wider := groups + {p.group};
    forall pid | pid in members + {p.pid} ensures Contributed(table, root, wider, pid) {
      if pid in members {
        assert Contributed(table, root, groups, pid);
        var q :| Reachable(table, root, q) && q.pid == pid && q.group in groups;
        assert Reachable(table, root, q) && q.pid == pid && q.group in wider;
      }
    }
    forall group | group in wider ensures Justified(table, root, group) {
      if group in groups { assert Justified(table, root, group); }
    }
  }

  ghost predicate Waiting(root: int, members: set<int>, pending: seq<int>) {
    forall k :: 0 <= k < |pending| ==> pending[k] == root || pending[k] in members
  }

  /** Only children of processes still pending may be missing. */
  ghost predicate Explored(table: seq<Process>, root: int, members: set<int>, pending: seq<int>) {
    forall p :: p in table && (p.parent == root || p.parent in members) && p.parent !in pending ==> (p.pid in members)
  }

  lemma ExploredGrows(table: seq<Process>, root: int, members: set<int>, pending: seq<int>, parent: int, pid: int)
    requires Explored(table, root, members, pending + [parent])
    ensures Explored(table, root, members + {pid}, pending + [pid] + [parent])
  {
    forall p | p in table && (p.parent == root || p.parent in members + {pid}) && p.parent !in pending + [pid] + [parent]
      ensures p.pid in members + {pid}
    {
      assert forall q :: q in pending + [parent] ==> q in pending + [pid] + [parent];
      assert pid in pending + [pid] + [parent];
    }
  }

  lemma ExploredShrinks(table: seq<Process>, root: int, members: set<int>, pending: seq<int>, parent: int)
    requires Explored(table, root, members, pending + [parent])
    requires forall p :: p in ChildrenOf(table, parent) ==> p.pid in members
    ensures Explored(table, root, members, pending)
  {
    forall p | p in table && (p.parent == root || p.parent in members) && p.parent !in pending ensures p.pid in members {
      if p.parent == parent {
        assert p in ChildrenOf(table, parent);
      } else {
        assert p.parent !in pending + [parent];
      }
    }
  }

  /** `_descendant_process_groups`. On any table every reachable pid lends the group of one of its reached
      processes, and every group comes from one; with unique pids those are exactly the reached groups. */
  method DescendantProcessGroups(table: seq<Process>, root: int) returns (groups: set<int>)
    ensures forall p :: Reachable(table, root, p) ==> Contributed(table, root, groups, p.pid)
    ensures forall group :: group in groups ==> Justified(table, root, group)
    ensures UniquePids(table) ==> forall group :: group in groups <==> Justified(table, root, group)
  {
    hide Reachable, IsChain, Contributed, Justified, ChildrenOf;
    var children := CollectChildren(table);
    var pending := [root];
    var descendants: set<int> := {};
    groups := {};
    assert Explored(table, root, descendants, pending);
    while pending != []
      invariant Sound(table, root, descendants, groups)
      invariant Waiting(root, descendants, pending)
      invariant Explored(table, root, descendants, pending)
      decreases |Pids(table) - descendants|, |pending|
    {
      hide Sound, Explored, Pids;
      var parent := pending[|pending| - 1];
      assert pending == pending[..|pending| - 1] + [parent];
      descendants, groups, pending :=
        Expand(table, root, Listed(children, parent), parent, descendants, groups, pending[..|pending| - 1]);
    }
    MembersAreAll(table, root, descendants, groups);
    GroupsAreAll(table, root, descendants, groups);
  }

  /** The inner loop: every child of `parent` not yet seen joins the members and waits its turn. */
  method Expand(table: seq<Process>, root: int, below: seq<Process>, parent: int, members: set<int>, lent: set<int>,
                waiting: seq<int>)
    returns (descendants: set<int>, groups: set<int>, pending: seq<int>)
    requires below == ChildrenOf(table, parent) && (parent == root || parent in members)
    requires Sound(table, root, members, lent) && Waiting(root, members, waiting)
    requires Explored(table, root, members, waiting + [parent])
    ensures Sound(table, root, descendants, groups) && Waiting(root, descendants, pending)
    ensures Explored(table, root, descendants, pending)
    ensures (descendants == members && pending == waiting)
         || |Pids(table) - descendants| < |Pids(table) - members|
  {
    hide Reachable, IsChain, Contributed, Justified, ChildrenOf, Sound, Explored, Pids;
    descendants, groups, pending := members, lent, waiting;
    for i := 0 to |below|
      invariant Sound(table, root, descendants, groups)
      invariant Waiting(root, descendants, pending)
      invariant Explored(table, root, descendants, pending + [parent])
      invariant forall k :: 0 <= k < i ==> below[k].pid in descendants
      invariant members <= descendants
      invariant descendants == members ==> pending == waiting
    {
      var p := below[i];
      if p.pid in descendants {
        continue;
      }
      assert p in below;
      AddReached(table, root, descendants, groups, parent, p);
      ExploredGrows(table, root, descendants, pending, parent, p.pid);
      descendants := descendants + {p.pid};
      groups := groups + {p.group};
      pending := pending + [p.pid];
    }
    ExploredShrinks(table, root, descendants, pending, parent);
    Shrinks(table, root, members, descendants, groups);
  }

  lemma Shrinks(table: seq<Process>, root: int, before: set<int>, after: set<int>, groups: set<int>)
    requires before <= after && Sound(table, root, after, groups)
    ensures before == after || |Pids(table) - after| < |Pids(table) - before|
  {
    if before != after {
      var pid :| pid in after && pid !in before;
      var smaller, larger := Pids(table) - after, Pids(table) - before;
      assert smaller <= larger - {pid};
      SubsetIsNoLarger(smaller, larger - {pid});
    }
  }

  lemma {:induction false} SubsetIsNoLarger(a: set<int>, b: set<int>)
    requires a <= b
    ensures |a| <= |b|
  {
    assert b == a + (b - a);
  }

  lemma MembersAreAll(table: seq<Process>, root: int, members: set<int>, groups: set<int>)
    requires Sound(table, root, members, groups) && IsClosed(table, root, members)
    ensures forall p :: Reachable(table, root, p) ==> Contributed(table, root, groups, p.pid)
  {
    hide IsClosed, Contributed;
    forall p | Reachable(table, root, p) ensures Contributed(table, root, groups, p.pid) {
      var chain :| IsChain(table, root, chain) && chain[|chain| - 1] == p;
      ClosedHoldsChain(table, root, members, chain);
    }
  }

  lemma GroupsAreAll(table: seq<Process>, root: int, members: set<int>, groups: set<int>)
    requires Sound(table, root, members, groups)
    requires forall p :: Reachable(table, root, p) ==> Contributed(table, root, groups, p.pid)
    ensures UniquePids(table) ==> forall group :: Justified(table, root, group) ==> group in groups
  {
    hide Sound, Reachable, IsChain;
    if UniquePids(table) {
      forall group | Justified(table, root, group) ensures group in groups {
        var p :| Reachable(table, root, p) && p.group == group;
        var q :| Reachable(table, root, q) && q.pid == p.pid && q.group in groups;
        ReachableIsListed(table, root, p);
        ReachableIsListed(table, root, q);
      }
    }
  }

  lemma ReachableIsListed(table: seq<Process>, root: int, p: Process)
    requires Reachable(table, root, p)
    ensures p in table
  {
    var chain :| IsChain(table, root, chain) && chain[|chain| - 1] == p;
    assert chain[|chain| - 1] in table;
  }
}
