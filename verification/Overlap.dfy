/** The overlap graph of one host's jobs and its connected components.

    Two jobs are adjacent when their remote trees are equal or nested. The
    partition is computed by growing one set at a time to a fixpoint; its meaning
    is stated without the algorithm, as reachability along chains of overlaps. */
module OverlapGraph {
  import opened Paths

  datatype DestJob = DestJob(name: string, raw: string, path: string, key: string, del: bool)

  predicate Adjacent(a: DestJob, b: DestJob) {
    Overlaps(a.path, b.path)
  }

  predicate AllClean(group: seq<DestJob>) {
    forall i :: 0 <= i < |group| ==> Clean(group[i].path)
  }

  // ---- reachability ----

  ghost predicate Chain(group: seq<DestJob>, c: seq<nat>) {
    && |c| > 0
    && (forall k :: 0 <= k < |c| ==> c[k] < |group|)
    && (forall k :: 0 < k < |c| ==> Adjacent(group[c[k - 1]], group[c[k]]))
  }

  ghost predicate ChainBetween(group: seq<DestJob>, c: seq<nat>, i: nat, j: nat) {
    Chain(group, c) && c[0] == i && c[|c| - 1] == j
  }

  /** Jobs i and j are joined by a chain of overlaps. */
  ghost predicate Linked(group: seq<DestJob>, i: nat, j: nat) {
    exists c :: ChainBetween(group, c, i, j)
  }

  lemma {:induction false} LinkedRefl(group: seq<DestJob>, i: nat)
    requires i < |group|
    ensures Linked(group, i, i)
  {
    assert ChainBetween(group, [i], i, i);
  }

  lemma {:induction false} LinkedStep(group: seq<DestJob>, i: nat, j: nat, k: nat)
    requires Linked(group, i, j) && k < |group| && j < |group|
    requires Adjacent(group[j], group[k])
    ensures Linked(group, i, k)
  {
    var c :| ChainBetween(group, c, i, j);
    assert ChainBetween(group, c + [k], i, k);
  }

  lemma {:induction false} ChainConcat(group: seq<DestJob>, c: seq<nat>, d: seq<nat>, i: nat, j: nat, k: nat)
    requires ChainBetween(group, c, i, j) && ChainBetween(group, d, j, k)
    ensures ChainBetween(group, c + d[1..], i, k)
    ensures forall x :: x in c || x in d ==> x in c + d[1..]
  {
  }

  lemma {:induction false} ChainPrefix(group: seq<DestJob>, c: seq<nat>, i: nat, m: nat)
    requires Chain(group, c) && c[0] == i && m in c
    ensures Linked(group, i, m)
  {
    var p :| 0 <= p < |c| && c[p] == m;
    assert ChainBetween(group, c[..p + 1], i, m);
  }

  lemma {:induction false} LinkedTrans(group: seq<DestJob>, i: nat, j: nat, k: nat)
    requires Linked(group, i, j) && Linked(group, j, k)
    ensures Linked(group, i, k)
  {
    var c :| ChainBetween(group, c, i, j);
    var d :| ChainBetween(group, d, j, k);
    ChainConcat(group, c, d, i, j, k);
  }

  lemma {:induction false} LinkedSym(group: seq<DestJob>, i: nat, j: nat)
    requires Linked(group, i, j)
    ensures Linked(group, j, i)
  {
    var c :| ChainBetween(group, c, i, j);
    var r := seq(|c|, k requires 0 <= k < |c| => c[|c| - 1 - k]);
    forall k | 0 < k < |r|
      ensures Adjacent(group[r[k - 1]], group[r[k]])
    {
      var m := |c| - k;
      assert Adjacent(group[c[m - 1]], group[c[m]]);
    }
    assert ChainBetween(group, r, j, i);
  }

  /** An owner map that never changes across an overlap never changes along a chain. */
  lemma {:induction false} ChainKeepsOwner(group: seq<DestJob>, owner: seq<int>, c: seq<nat>)
    requires |owner| == |group| && Chain(group, c) && Closed(group, owner)
    ensures owner[c[0]] == owner[c[|c| - 1]]
    decreases |c|
  {
    if |c| > 1 {
      assert Chain(group, c[1..]);
      assert Adjacent(group[c[0]], group[c[1]]);
      ChainKeepsOwner(group, owner, c[1..]);
    }
  }

  /** The tree of job m holds the tree of every job in c. */
  ghost predicate HoldsAll(group: seq<DestJob>, m: nat, c: seq<nat>) {
    && m < |group|
    && (forall k :: 0 <= k < |c| ==> c[k] < |group| && Contains(group[m].path, group[c[k]].path))
  }

  lemma {:induction false} HoldsAllThrough(group: seq<DestJob>, outer: nat, m: nat, c: seq<nat>)
    requires AllClean(group) && outer < |group| && HoldsAll(group, m, c)
    requires Contains(group[outer].path, group[m].path)
    ensures HoldsAll(group, outer, c)
  {
  }

  /** A connected set of paths has an outermost member: one that contains all the others. */
  lemma {:induction false} ChainHasOutermost(group: seq<DestJob>, c: seq<nat>) returns (m: nat)
    requires AllClean(group) && Chain(group, c)
    ensures m in c && HoldsAll(group, m, c)
    decreases |c|
  {
    var last := c[|c| - 1];
    if |c| == 1 {
      m := last;
    } else {
      var front := c[..|c| - 1];
      m := ChainHasOutermost(group, front);
      assert c == front + [last];
      var prev := front[|front| - 1];
      assert Adjacent(group[prev], group[last]);
      OutermostOfTwo(group[m].path, group[prev].path, group[last].path);
      if !Contains(group[m].path, group[last].path) {
        HoldsAllThrough(group, last, m, front);
        m := last;
      }
    }
  }

  /** A tree that holds a neighbour of `last` is nested with `last` one way or the other. */
  lemma {:induction false} OutermostOfTwo(m: string, prev: string, last: string)
    requires Clean(m) && Clean(prev) && Clean(last)
    requires Contains(m, prev) && Overlaps(prev, last)
    ensures Contains(m, last) || Contains(last, m)
  {
    if Contains(last, prev) {
      CommonDescendantOverlaps(m, last, prev);
    }
  }

  // ---- the partition ----

  /** No overlap crosses from one owner to another. */
  ghost predicate Closed(group: seq<DestJob>, owner: seq<int>)
    requires |owner| == |group|
  {
    forall i, j :: 0 <= i < |group| && 0 <= j < |group| && Adjacent(group[i], group[j]) ==>
      owner[i] == owner[j]
  }

  /** `ids` names each job owned by component `c` exactly once, and `members` are those jobs. */
  ghost predicate Lists(group: seq<DestJob>, owner: seq<int>, c: int, ids: seq<nat>, members: seq<DestJob>)
    requires |owner| == |group|
  {
    && |ids| == |members|
    && (forall p, q :: 0 <= p < q < |ids| ==> ids[p] != ids[q])
    && (forall p :: 0 <= p < |ids| ==> ids[p] < |group| && owner[ids[p]] == c && members[p] == group[ids[p]])
    && (forall i :: 0 <= i < |group| && owner[i] == c ==> i in ids)
  }

  /** The partition promised by the source: `owner` sends every job to one component, every
      component lists exactly its jobs, and two jobs share a component iff a chain of
      overlaps joins them. */
  ghost predicate IsComponents(group: seq<DestJob>, components: seq<seq<DestJob>>,
                               owner: seq<int>, ids: seq<seq<nat>>)
  {
    && |owner| == |group|
    && |ids| == |components|
    && (forall i :: 0 <= i < |group| ==> 0 <= owner[i] < |components|)
    && (forall c :: 0 <= c < |components| ==> |ids[c]| > 0 && Lists(group, owner, c, ids[c], components[c]))
    && (forall i, j :: 0 <= i < |group| && 0 <= j < |group| ==>
          (owner[i] == owner[j] <==> Linked(group, i, j)))
  }

  /** The components, whatever their numbering. */
  ghost predicate AreComponents(group: seq<DestJob>, components: seq<seq<DestJob>>) {
    exists owner, ids :: IsComponents(group, components, owner, ids)
  }

  // ---- overlapsAny ----

  ghost predicate OverlapsSome(members: seq<DestJob>, path: string) {
    exists p :: 0 <= p < |members| && Overlaps(members[p].path, path)
  }

  method OverlapsAny(members: seq<DestJob>, path: string) returns (r: bool)
    ensures r <==> OverlapsSome(members, path)
  {
    for i := 0 to |members|
      invariant forall k :: 0 <= k < i ==> !Overlaps(members[k].path, path)
    {
      if Contains(members[i].path, path) || Contains(path, members[i].path) {
        return true;
      }
    }
    return false;
  }

  // ---- overlapComponents ----

  /** Loop state shared by the nested loops: the listed components are finished and closed, one
      more may be under growth, and -1 marks a job not yet taken. */
  ghost predicate Growing(group: seq<DestJob>, owner: seq<int>, ids: seq<seq<nat>>,
                          components: seq<seq<DestJob>>)
  {
    && |owner| == |group|
    && |ids| == |components|
    && (forall i :: 0 <= i < |group| ==> -1 <= owner[i] <= |components|)
    && (forall c :: 0 <= c < |components| ==> |ids[c]| > 0 && Lists(group, owner, c, ids[c], components[c]))
    && (forall i, j {:trigger Adjacent(group[i], group[j])} ::
          0 <= i < |group| && 0 <= j < |group| && 0 <= owner[i] < |components| ==>
          Adjacent(group[i], group[j]) ==> owner[j] == owner[i])
    && (forall c, i :: 0 <= c < |components| && 0 <= i < |group| && owner[i] == c ==>
          Linked(group, ids[c][0], i))
  }

  /** Nothing is owned by a component that does not exist yet. */
  ghost predicate OwnersBelow(owner: seq<int>, n: int) {
    forall i :: 0 <= i < |owner| ==> owner[i] < n
  }

  /** Taking an unowned job into the component under growth keeps every finished component. */
  lemma {:induction false} TakeKeepsFinished(group: seq<DestJob>, owner: seq<int>, ids: seq<seq<nat>>,
                          components: seq<seq<DestJob>>, k: nat)
    requires Growing(group, owner, ids, components)
    requires k < |group| && owner[k] == -1
    ensures Growing(group, owner[k := |components|], ids, components)
  {
  }

  /** Extending the listing of the component under growth by a newly taken job. */
  lemma {:induction false} TakeExtendsListing(group: seq<DestJob>, owner: seq<int>, n: int, ids: seq<nat>,
                           members: seq<DestJob>, k: nat)
    requires |owner| == |group| && k < |group| && owner[k] == -1 && n >= 0
    requires Lists(group, owner, n, ids, members)
    ensures Lists(group, owner[k := n], n, ids + [k], members + [group[k]])
  {
  }

  /** The jobs not yet taken: what shrinks on every sweep that grows a component. */
  ghost function Untaken(owner: seq<int>): set<nat> {
    set i: nat | i < |owner| && owner[i] == -1
  }

  lemma {:induction false} TakeShrinks(owner: seq<int>, k: nat, n: nat)
    requires k < |owner| && owner[k] == -1
    ensures Untaken(owner[k := n]) < Untaken(owner)
  {
    assert k in Untaken(owner) && k !in Untaken(owner[k := n]);
  }

  /** Component number |components| is being grown: it started from job `i`, lists its jobs
      once each, and every one of them is linked to `i`. */
  ghost predicate GrowingFrom(group: seq<DestJob>, owner: seq<int>, ids: seq<seq<nat>>,
                              components: seq<seq<DestJob>>, i: nat, mine: seq<nat>, component: seq<DestJob>)
  {
    && Growing(group, owner, ids, components)
    && Lists(group, owner, |components|, mine, component)
    && |mine| > 0 && mine[0] == i < |group|
    && (forall k :: 0 <= k < |group| && owner[k] == |components| ==> Linked(group, i, k))
  }

  lemma {:induction false} StartComponent(group: seq<DestJob>, owner: seq<int>, ids: seq<seq<nat>>,
                       components: seq<seq<DestJob>>, i: nat)
    requires Growing(group, owner, ids, components) && OwnersBelow(owner, |components|)
    requires i < |group| && owner[i] == -1
    ensures GrowingFrom(group, owner[i := |components|], ids, components, i, [i], [group[i]])
  {
    TakeKeepsFinished(group, owner, ids, components, i);
    TakeExtendsListing(group, owner, |components|, [], [], i);
    assert [] + [i] == [i] && [] + [group[i]] == [group[i]];
    LinkedRefl(group, i);
  }

  lemma {:induction false} TakeJob(group: seq<DestJob>, owner: seq<int>, ids: seq<seq<nat>>,
                components: seq<seq<DestJob>>, i: nat, mine: seq<nat>, component: seq<DestJob>, k: nat)
    requires GrowingFrom(group, owner, ids, components, i, mine, component)
    requires k < |group| && owner[k] == -1 && OverlapsSome(component, group[k].path)
    ensures GrowingFrom(group, owner[k := |components|], ids, components, i, mine + [k], component + [group[k]])
  {
    JoinsThroughMember(group, owner, |components|, mine, component, i, k);
    TakeKeepsFinished(group, owner, ids, components, k);
    TakeExtendsListing(group, owner, |components|, mine, component, k);
  }

  ghost predicate Tracks(taken: array<bool>, owner: seq<int>)
    reads taken
  {
    && taken.Length == |owner|
    && (forall k :: 0 <= k < |owner| ==> (taken[k] <==> owner[k] != -1))
  }

  /** The sweep `for k := range group`: every job not yet taken that overlaps the component joins it. */
  method GrowOnce(group: seq<DestJob>, component: seq<DestJob>, taken: array<bool>, ghost owner: seq<int>,
                  ghost ids: seq<seq<nat>>, ghost components: seq<seq<DestJob>>, ghost i: nat, ghost mine: seq<nat>)
    returns (component': seq<DestJob>, grew: bool, ghost owner': seq<int>, ghost mine': seq<nat>)
    requires GrowingFrom(group, owner, ids, components, i, mine, component) && Tracks(taken, owner)
    modifies taken
    ensures GrowingFrom(group, owner', ids, components, i, mine', component') && Tracks(taken, owner')
    ensures forall k :: 0 <= k < |owner| && owner[k] != -1 ==> owner'[k] != -1
    ensures grew ==> Untaken(owner') < Untaken(owner)
    ensures !grew ==> owner' == owner
    ensures !grew ==> forall k :: 0 <= k < |group| && owner'[k] == -1 ==> !OverlapsSome(component', group[k].path)
  {
    component', grew, owner', mine' := component, false, owner, mine;
    for k := 0 to |group|
      invariant GrowingFrom(group, owner', ids, components, i, mine', component') && Tracks(taken, owner')
      invariant forall h :: 0 <= h < |owner| && owner[h] != -1 ==> owner'[h] != -1
      invariant grew ==> Untaken(owner') < Untaken(owner)
      invariant !grew ==> owner' == owner
      invariant !grew ==> forall h :: 0 <= h < k && owner'[h] == -1 ==> !OverlapsSome(component', group[h].path)
    {
      var hit := OverlapsAny(component', group[k].path);
      if !taken[k] && hit {
        TakeJob(group, owner', ids, components, i, mine', component', k);
        TakeShrinks(owner', k, |components|);
        component' := component' + [group[k]];
        mine' := mine' + [k];
        owner' := owner'[k := |components|];
        taken[k] := true;
        grew := true;
      }
    }
  }

  /** The partition into overlap components. */
  method OverlapComponents(group: seq<DestJob>) returns (components: seq<seq<DestJob>>)
    ensures AreComponents(group, components)
  {
    ghost var owner, ids;
    components, owner, ids := GrowComponents(group);
  }

  /** The loops, one component at a time, with the numbering that they build up. */
  method GrowComponents(group: seq<DestJob>)
    returns (components: seq<seq<DestJob>>, ghost owner: seq<int>, ghost ids: seq<seq<nat>>)
    ensures IsComponents(group, components, owner, ids)
  {
    components, ids := [], [];
    owner := seq(|group|, _ => -1);
    var taken := new bool[|group|](_ => false);
    for i := 0 to |group|
      invariant Growing(group, owner, ids, components) && OwnersBelow(owner, |components|)
      invariant Tracks(taken, owner)
      invariant forall k :: 0 <= k < i ==> owner[k] != -1
    {
      if taken[i] {
        continue;
      }
      StartComponent(group, owner, ids, components, i);
      var component := [group[i]];
      ghost var mine: seq<nat> := [i];
      owner := owner[i := |components|];
      taken[i] := true;
      var grew := true;
      while grew
        invariant GrowingFrom(group, owner, ids, components, i, mine, component) && Tracks(taken, owner)
        invariant forall k :: 0 <= k <= i ==> owner[k] != -1
        invariant !grew ==> forall k :: 0 <= k < |group| && owner[k] == -1 ==> !OverlapsSome(component, group[k].path)
        decreases Untaken(owner), grew
      {
        component, grew, owner, mine :=
          GrowOnce(group, component, taken, owner, ids, components, i, mine);
      }
      FinishComponent(group, owner, ids, components, mine, component);
      components := components + [component];
      ids := ids + [mine];
    }
    ConcludePartition(group, owner, ids, components);
  }

  /** A job that overlaps the growing component is linked to the job it was started from. */
  lemma {:induction false} JoinsThroughMember(group: seq<DestJob>, owner: seq<int>, n: int, mine: seq<nat>,
                           component: seq<DestJob>, i: nat, k: nat)
    requires |owner| == |group| && i < |group| && k < |group|
    requires Lists(group, owner, n, mine, component)
    requires forall h :: 0 <= h < |group| && owner[h] == n ==> Linked(group, i, h)
    requires OverlapsSome(component, group[k].path)
    ensures Linked(group, i, k)
  {
    var p :| 0 <= p < |component| && Overlaps(component[p].path, group[k].path);
    LinkedStep(group, i, mine[p], k);
  }

  /** A grown component that no untaken job overlaps is closed: an overlap with an earlier
      component would have pulled the job in there. */
  lemma {:induction false} FinishComponent(group: seq<DestJob>, owner: seq<int>, ids: seq<seq<nat>>,
                        components: seq<seq<DestJob>>, mine: seq<nat>, component: seq<DestJob>)
    requires Growing(group, owner, ids, components)
    requires |mine| > 0 && Lists(group, owner, |components|, mine, component)
    requires forall k :: 0 <= k < |group| && owner[k] == |components| ==> Linked(group, mine[0], k)
    requires forall k :: 0 <= k < |group| && owner[k] == -1 ==> !OverlapsSome(component, group[k].path)
    ensures Growing(group, owner, ids + [mine], components + [component])
    ensures OwnersBelow(owner, |components| + 1)
  {
    forall i, j | 0 <= i < |group| && 0 <= j < |group| && owner[i] == |components| && Adjacent(group[i], group[j])
      ensures owner[j] == |components|
    {
      var p :| 0 <= p < |mine| && mine[p] == i;
      assert Overlaps(component[p].path, group[j].path);
      assert Adjacent(group[j], group[i]);
    }
  }

  lemma {:induction false} ConcludePartition(group: seq<DestJob>, owner: seq<int>, ids: seq<seq<nat>>,
                          components: seq<seq<DestJob>>)
    requires Growing(group, owner, ids, components) && OwnersBelow(owner, |components|)
    requires forall k :: 0 <= k < |group| ==> owner[k] != -1
    ensures IsComponents(group, components, owner, ids)
  {
    assert Closed(group, owner);
    forall i, j | 0 <= i < |group| && 0 <= j < |group|
      ensures owner[i] == owner[j] <==> Linked(group, i, j)
    {
      if owner[i] == owner[j] {
        var root := ids[owner[i]][0];
        LinkedSym(group, root, i);
        LinkedTrans(group, i, root, j);
      }
      if Linked(group, i, j) {
        var c :| ChainBetween(group, c, i, j);
        ChainKeepsOwner(group, owner, c);
      }
    }
  }
}
