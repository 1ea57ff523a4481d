/** The shared-destination advisory: which jobs are reported, in what order, and why that
    is exactly the set of jobs a deleting neighbour can touch. */
module SharedDestinations {
  import opened Options
  import opened Paths
  import opened OverlapGraph

  const SAMPLE_SIZE: nat := 3

  /** One emitted warning. `atRisk` is the full sorted list behind its `jobs` count;
      `sample` and `deletes` are what the record prints. */
  datatype Advisory = Advisory(host: string, atRisk: seq<DestJob>, deleting: nat,
                               sample: seq<DestJob>, deletes: seq<string>)

  // ---- the (length, text) order ----

  predicate LexLe(a: string, b: string) {
    a == "" || (b != "" && (a[0] < b[0] || (a[0] == b[0] && LexLe(a[1..], b[1..]))))
  }

  lemma {:induction false} LexTotal(a: string, b: string)
    ensures LexLe(a, b) || LexLe(b, a)
    decreases |a|
  {
    if a != "" && b != "" {
      LexTotal(a[1..], b[1..]);
    }
  }

  lemma {:induction false} LexTransitive(a: string, b: string, c: string)
    requires LexLe(a, b) && LexLe(b, c)
    ensures LexLe(a, c)
    decreases |a|
  {
    if a != "" && a[0] == b[0] == c[0] {
      LexTransitive(a[1..], b[1..], c[1..]);
    }
  }

  /** Texts a and b agree before k, where a has the smaller char. */
  predicate FirstDifference(a: string, b: string, k: nat) {
    k < |a| && k < |b| && a[..k] == b[..k] && a[k] < b[k]
  }

  /** The order of texts: a is a prefix of b, or smaller at the first char in which they differ. */
  ghost predicate TextBefore(a: string, b: string) {
    a <= b || exists k: nat :: FirstDifference(a, b, k)
  }

  lemma {:induction false} AgreeBefore(a: string, b: string, k: nat)
    requires FirstDifference(a, b, k)
    ensures k > 0 ==> a[0] == b[0]
  {
    if k > 0 {
      assert a[0] == a[..k][0] && b[0] == b[..k][0];
    }
  }

  lemma {:induction false} FirstStep(a: string, b: string)
    requires a != "" && b != "" && a[0] == b[0]
    ensures TextBefore(a, b) <==> TextBefore(a[1..], b[1..])
  {
    var a', b' := a[1..], b[1..];
    assert a == [a[0]] + a' && b == [b[0]] + b';
    if k: nat :| FirstDifference(a', b', k) {
      assert a[..k + 1] == [a[0]] + a'[..k] && b[..k + 1] == [b[0]] + b'[..k];
      assert FirstDifference(a, b, k + 1);
    }
    if k: nat :| FirstDifference(a, b, k) {
      assert a'[..k - 1] == a[..k][1..] && b'[..k - 1] == b[..k][1..];
      assert FirstDifference(a', b', k - 1);
    }
  }

  /** The recursive comparison is the order of texts. */
  lemma {:induction false} LexIsTextOrder(a: string, b: string)
    ensures LexLe(a, b) <==> TextBefore(a, b)
    decreases |a|
  {
    if a != "" && b != "" && a[0] == b[0] {
      FirstStep(a, b);
      LexIsTextOrder(a[1..], b[1..]);
    } else if a != "" && b != "" {
      assert a[0] < b[0] ==> FirstDifference(a, b, 0);
      forall k: nat | FirstDifference(a, b, k)
        ensures k == 0
      {
        AgreeBefore(a, b, k);
      }
    }
  }

  predicate NotAfter(a: DestJob, b: DestJob) {
    |a.path| < |b.path| || (|a.path| == |b.path| && LexLe(a.path, b.path))
  }

  ghost predicate Sorted(s: seq<DestJob>) {
    forall i, j :: 0 <= i < j < |s| ==> NotAfter(s[i], s[j])
  }

  /** Sorted means by length, and at equal length by text. */
  lemma {:induction false} SortedMeans(s: seq<DestJob>)
    ensures Sorted(s) <==>
            forall i, j :: 0 <= i < j < |s| ==>
              || |s[i].path| < |s[j].path|
              || (|s[i].path| == |s[j].path| && TextBefore(s[i].path, s[j].path))
  {
    forall i, j | 0 <= i < j < |s|
      ensures LexLe(s[i].path, s[j].path) <==> TextBefore(s[i].path, s[j].path)
    {
      LexIsTextOrder(s[i].path, s[j].path);
    }
  }

  /** Stands for slices.SortFunc: some sorted rearrangement, ties in any order. */
  method SortByPath(s: seq<DestJob>) returns (r: seq<DestJob>)
    ensures Sorted(r) && multiset(r) == multiset(s)
  {
    r := [];
    for n := 0 to |s|
      invariant Sorted(r) && multiset(r) == multiset(s[..n])
    {
      assert s[..n + 1] == s[..n] + [s[n]];
      r := InsertByPath(r, s[n]);
    }
    assert s[..|s|] == s;
  }

  method InsertByPath(s: seq<DestJob>, x: DestJob) returns (r: seq<DestJob>)
    requires Sorted(s)
    ensures Sorted(r) && multiset(r) == multiset(s) + multiset{x}
  {
    var k := |s|;
    while k > 0 && !NotAfter(s[k - 1], x)
      invariant 0 <= k <= |s|
      invariant forall h :: k <= h < |s| ==> !NotAfter(s[h], x)
    {
      k := k - 1;
    }
    SortedInsert(s, k, x);
    assert s == s[..k] + s[k..];
    r := s[..k] + [x] + s[k..];
  }

  lemma {:induction false} SortedInsert(s: seq<DestJob>, k: nat, x: DestJob)
    requires Sorted(s) && k <= |s|
    requires k > 0 ==> NotAfter(s[k - 1], x)
    requires forall h :: k <= h < |s| ==> !NotAfter(s[h], x)
    ensures Sorted(s[..k] + [x] + s[k..])
  {
    forall h | 0 <= h < k
      ensures NotAfter(s[h], x)
    {
      if h < k - 1 {
        LexStep(s[h], s[k - 1], x);
      }
    }
    forall h | k <= h < |s|
      ensures NotAfter(x, s[h])
    {
      LexTotal(s[h].path, x.path);
    }
  }

  lemma {:induction false} LexStep(a: DestJob, b: DestJob, c: DestJob)
    requires NotAfter(a, b) && NotAfter(b, c)
    ensures NotAfter(a, c)
  {
    if LexLe(a.path, b.path) && LexLe(b.path, c.path) {
      LexTransitive(a.path, b.path, c.path);
    }
  }

  // ---- the two filters ----

  function Deleters(s: seq<DestJob>): seq<DestJob> {
    if s == [] then []
    else Deleters(s[..|s| - 1]) + (if s[|s| - 1].del then [s[|s| - 1]] else [])
  }

  ghost function Threatened(s: seq<DestJob>, deleting: seq<DestJob>): seq<DestJob> {
    if s == [] then []
    else
      Threatened(s[..|s| - 1], deleting) +
      (if OverlapsSome(deleting, s[|s| - 1].path) then [s[|s| - 1]] else [])
  }

  function Names(s: seq<DestJob>): (names: seq<string>)
    ensures |names| == |s|
    ensures forall i :: 0 <= i < |s| ==> names[i] == s[i].name
  {
    seq(|s|, i requires 0 <= i < |s| => s[i].name)
  }

  lemma {:induction false} DeletersCount(s: seq<DestJob>, d: DestJob)
    ensures multiset(Deleters(s))[d] == if d.del then multiset(s)[d] else 0
  {
    if s != [] {
      DeletersCount(s[..|s| - 1], d);
      assert s == s[..|s| - 1] + [s[|s| - 1]];
    }
  }

  lemma {:induction false} ThreatenedCount(s: seq<DestJob>, deleting: seq<DestJob>, d: DestJob)
    ensures multiset(Threatened(s, deleting))[d] == if OverlapsSome(deleting, d.path) then multiset(s)[d] else 0
  {
    if s != [] {
      ThreatenedCount(s[..|s| - 1], deleting, d);
      assert s == s[..|s| - 1] + [s[|s| - 1]];
    }
  }

  lemma {:induction false} CountMeansIn(s: seq<DestJob>, d: DestJob)
    ensures d in s <==> multiset(s)[d] > 0
  {
  }

  lemma {:induction false} DeletersMembers(s: seq<DestJob>, d: DestJob)
    ensures d in Deleters(s) <==> d in s && d.del
  {
    DeletersCount(s, d);
    CountMeansIn(s, d);
    CountMeansIn(Deleters(s), d);
  }

  /** The deleters stand in the order of the list that they are taken from. */
  lemma {:induction false} DeletersKeepOrder(s: seq<DestJob>, t: seq<DestJob>)
    ensures Deleters(s + t) == Deleters(s) + Deleters(t)
    decreases |t|
  {
    if t == [] {
      assert s + t == s && Deleters(s) + [] == Deleters(s);
    } else {
      assert (s + t)[..|s + t| - 1] == s + t[..|t| - 1];
      DeletersKeepOrder(s, t[..|t| - 1]);
    }
  }

  // ---- warnConflictingTree ----

  ghost predicate HasDeleter(members: seq<DestJob>) {
    exists i :: 0 <= i < |members| && members[i].del
  }

  function Min(a: nat, b: nat): nat { if a <= b then a else b }

  ghost predicate Describes(a: Advisory, members: seq<DestJob>) {
    && |a.atRisk| > 0
    && a.host == a.atRisk[0].raw
    && Sorted(a.atRisk)
    && multiset(a.atRisk) == multiset(Threatened(members, Deleters(members)))
    && a.deleting == |Deleters(members)|
    && a.sample == a.atRisk[..Min(SAMPLE_SIZE, |a.atRisk|)]
    && a.deletes == Names(Deleters(a.atRisk))[..Min(SAMPLE_SIZE, |Deleters(a.atRisk)|)]
  }

  method WarnConflictingTree(members: seq<DestJob>) returns (a: Option<Advisory>)
    ensures a.Some? <==> |members| >= 2 && HasDeleter(members)
    ensures a.Some? ==> Describes(a.value, members)
  {
    if |members| < 2 {
      return None;
    }
    var deleting: seq<DestJob> := [];
    for i := 0 to |members|
      invariant deleting == Deleters(members[..i])
      invariant deleting == [] <==> forall k :: 0 <= k < i ==> !members[k].del
    {
      assert members[..i + 1][..i] == members[..i];
      if members[i].del {
        deleting := deleting + [members[i]];
      }
    }
    assert members[..|members|] == members;
    if deleting == [] {
      return None;
    }
    var risky: seq<DestJob> := [];
    for i := 0 to |members|
      invariant risky == Threatened(members[..i], deleting)
    {
      assert members[..i + 1][..i] == members[..i];
      var hit := OverlapsAny(deleting, members[i].path);
      if hit {
        risky := risky + [members[i]];
      }
    }
    var atRisk := SortByPath(risky);
    AtRiskNonempty(members, deleting, atRisk);
    var deleters := SampleDeleters(atRisk);
    return Some(Advisory(atRisk[0].raw, atRisk, |deleting|,
                         atRisk[..Min(SAMPLE_SIZE, |atRisk|)], deleters));
  }

  method SampleDeleters(atRisk: seq<DestJob>) returns (deleters: seq<string>)
    ensures deleters == Names(Deleters(atRisk))[..Min(SAMPLE_SIZE, |Deleters(atRisk)|)]
  {
    deleters := [];
    for i := 0 to |atRisk|
      invariant |deleters| <= SAMPLE_SIZE
      invariant deleters == Names(Deleters(atRisk[..i]))
    {
      if |deleters| == SAMPLE_SIZE {
        DeletersPrefix(atRisk, i);
        return;
      }
      assert atRisk[..i + 1][..i] == atRisk[..i];
      if atRisk[i].del {
        deleters := deleters + [atRisk[i].name];
      }
    }
    assert atRisk[..|atRisk|] == atRisk;
  }

  lemma {:induction false} DeletersPrefix(s: seq<DestJob>, n: nat)
    requires n <= |s|
    ensures Deleters(s[..n]) <= Deleters(s)
    decreases |s|
  {
    if n == |s| {
      assert s[..n] == s;
    } else {
      assert s[..|s| - 1][..n] == s[..n];
      DeletersPrefix(s[..|s| - 1], n);
    }
  }

  lemma {:induction false} AtRiskNonempty(members: seq<DestJob>, deleting: seq<DestJob>, atRisk: seq<DestJob>)
    requires deleting == Deleters(members) && deleting != []
    requires multiset(atRisk) == multiset(Threatened(members, deleting))
    ensures atRisk != []
  {
    var d := deleting[0];
    DeletersMembers(members, d);
    assert Overlaps(deleting[0].path, d.path);
    ThreatenedCount(members, deleting, d);
    CountMeansIn(members, d);
    CountMeansIn(atRisk, d);
  }

  /** Membership in the reported list, read off the component. */
  lemma {:induction false} AtRiskMembers(a: Advisory, members: seq<DestJob>, d: DestJob)
    requires Describes(a, members)
    ensures d in a.atRisk <==> d in members && OverlapsSome(Deleters(members), d.path)
  {
    ThreatenedCount(members, Deleters(members), d);
    CountMeansIn(members, d);
    CountMeansIn(a.atRisk, d);
  }

  lemma {:induction false} RiskKeepsDeleters(a: Advisory, members: seq<DestJob>, d: DestJob)
    requires Describes(a, members)
    ensures multiset(Deleters(a.atRisk))[d] == multiset(Deleters(members))[d]
  {
    DeletersCount(a.atRisk, d);
    DeletersCount(members, d);
    ThreatenedCount(members, Deleters(members), d);
    CountMeansIn(members, d);
    if d.del && d in members {
      DeletersMembers(members, d);
      var p :| 0 <= p < |Deleters(members)| && Deleters(members)[p] == d;
      assert Overlaps(Deleters(members)[p].path, d.path);
    }
  }

  /** Every deleting job is itself at risk, so the printed names are the outermost deleting
      jobs: all of them, or three. */
  lemma {:induction false} DeletesSample(a: Advisory, members: seq<DestJob>)
    requires Describes(a, members)
    ensures |a.deletes| == Min(3, a.deleting) && a.deleting == |Deleters(a.atRisk)|
    ensures forall i :: 0 <= i < |a.deletes| ==> a.deletes[i] == Deleters(a.atRisk)[i].name
  {
    forall d: DestJob
      ensures multiset(Deleters(a.atRisk))[d] == multiset(Deleters(members))[d]
    {
      RiskKeepsDeleters(a, members, d);
    }
    assert multiset(Deleters(a.atRisk)) == multiset(Deleters(members));
    assert |multiset(Deleters(a.atRisk))| == |multiset(Deleters(members))|;
  }

  // ---- one host group ----

  /** Job i can lose files to a neighbour's pass, or take files from one. */
  ghost predicate Conflicts(group: seq<DestJob>, i: nat, j: nat)
    requires i < |group| && j < |group|
  {
    i != j && Adjacent(group[i], group[j]) && (group[i].del || group[j].del)
  }

  ghost predicate InConflict(group: seq<DestJob>, i: nat)
    requires i < |group|
  {
    exists j :: 0 <= j < |group| && Conflicts(group, i, j)
  }

  ghost predicate Reported(advisories: seq<Advisory>, d: DestJob) {
    exists k :: 0 <= k < |advisories| && d in advisories[k].atRisk
  }

  ghost predicate Distinct(s: seq<DestJob>) {
    forall i, j :: 0 <= i < j < |s| ==> s[i] != s[j]
  }

  /** Everything the advisory promises about one host's jobs. */
  ghost predicate Exact(group: seq<DestJob>, advisories: seq<Advisory>) {
    // a job is reported iff it is in conflict with some other job
    && (forall i :: 0 <= i < |group| ==> (Reported(advisories, group[i]) <==> InConflict(group, i)))
    // both sides of a conflict are in the same advisory
    && (forall i, j, k :: 0 <= i < |group| && 0 <= j < |group| && 0 <= k < |advisories| && Conflicts(group, i, j) ==>
          group[i] in advisories[k].atRisk ==> group[j] in advisories[k].atRisk)
    // and no job is in two advisories
    && (forall d, k, l :: 0 <= k < |advisories| && 0 <= l < |advisories| ==>
          d in advisories[k].atRisk && d in advisories[l].atRisk ==> k == l)
    && (forall k :: 0 <= k < |advisories| ==> WellFormed(group, advisories[k]))
  }

  /** What holds of each emitted record. */
  ghost predicate WellFormed(group: seq<DestJob>, a: Advisory) {
    && |a.atRisk| >= 2
    && a.deleting == |Deleters(a.atRisk)| > 0
    && a.sample == a.atRisk[..Min(3, |a.atRisk|)]
    && |a.deletes| == Min(3, a.deleting)
    && (forall i :: 0 <= i < |a.deletes| ==> a.deletes[i] == Deleters(a.atRisk)[i].name)
    && a.host == a.atRisk[0].raw
    && Sorted(a.atRisk)
    && (forall d :: d in a.atRisk ==> d in group)
    && (Distinct(group) ==> Distinct(a.atRisk))
    && Outermost(group, a)
  }

  /** The first reported job's tree holds every job linked to a reported one, including
      those that the at-risk filter dropped. */
  ghost predicate Outermost(group: seq<DestJob>, a: Advisory)
    requires |a.atRisk| > 0
  {
    forall i, j :: 0 <= i < |group| && 0 <= j < |group| && group[i] in a.atRisk && Linked(group, i, j) ==>
      Contains(a.atRisk[0].path, group[j].path)
  }

  method WarnGroup(group: seq<DestJob>) returns (advisories: seq<Advisory>)
    requires AllClean(group)
    ensures Exact(group, advisories)
  {
    var components := OverlapComponents(group);
    ghost var from;
    advisories, from := WarnComponents(components);
    ghost var owner, ids :| IsComponents(group, components, owner, ids);
    EmittedIsExact(group, components, owner, ids, advisories, from);
  }

  method WarnComponents(components: seq<seq<DestJob>>) returns (advisories: seq<Advisory>, ghost from: seq<nat>)
    ensures Emitted(components, |components|, advisories, from)
  {
    advisories, from := [], [];
    for c := 0 to |components|
      invariant Emitted(components, c, advisories, from)
    {
      var a := WarnConflictingTree(components[c]);
      if a.Some? {
        advisories := advisories + [a.value];
        from := from + [c];
      }
    }
  }

  /** Advisory k came from component from[k]; every component below c with two members and a
      deleter gave one. */
  ghost predicate Emitted(components: seq<seq<DestJob>>, c: nat, advisories: seq<Advisory>, from: seq<nat>) {
    && c <= |components|
    && |from| == |advisories|
    && (forall k :: 0 <= k < |from| ==>
          from[k] < c && |components[from[k]]| >= 2 && HasDeleter(components[from[k]]) &&
          Describes(advisories[k], components[from[k]]))
    && (forall k, l :: 0 <= k < l < |from| ==> from[k] < from[l])
    && (forall b :: 0 <= b < c && |components[b]| >= 2 && HasDeleter(components[b]) ==> b in from)
  }

  /** Membership in a component, by index. */
  lemma {:induction false} ComponentMembers(group: seq<DestJob>, components: seq<seq<DestJob>>, owner: seq<int>,
                         ids: seq<seq<nat>>, c: nat, d: DestJob)
    requires IsComponents(group, components, owner, ids) && c < |components|
    ensures d in components[c] <==> exists i :: 0 <= i < |group| && owner[i] == c && group[i] == d
  {
  }

  /** A job in a component of two or more overlaps some other job. */
  lemma {:induction false} HasNeighbour(group: seq<DestJob>, components: seq<seq<DestJob>>, owner: seq<int>,
                     ids: seq<seq<nat>>, i: nat) returns (j: nat)
    requires IsComponents(group, components, owner, ids) && i < |group|
    requires |components[owner[i]]| >= 2
    ensures j < |group| && j != i && Adjacent(group[i], group[j])
  {
    var c := owner[i];
    assert Lists(group, owner, c, ids[c], components[c]);
    var other := if ids[c][0] == i then ids[c][1] else ids[c][0];
    assert owner[other] == c;
    assert Linked(group, i, other);
    var chain :| ChainBetween(group, chain, i, other);
    j := FirstStepAway(group, chain, i);
  }

  lemma {:induction false} FirstStepAway(group: seq<DestJob>, c: seq<nat>, i: nat) returns (j: nat)
    requires Chain(group, c) && c[0] == i && c[|c| - 1] != i
    ensures j < |group| && j != i && Adjacent(group[i], group[j])
    decreases |c|
  {
    assert Adjacent(group[c[0]], group[c[1]]);
    if c[1] != i {
      j := c[1];
    } else {
      j := FirstStepAway(group, c[1..], i);
    }
  }

  /** A reported job is owned by the advisory's component and overlaps a deleter of it. */
  lemma {:induction false} ReportedMeans(group: seq<DestJob>, components: seq<seq<DestJob>>, owner: seq<int>,
                      ids: seq<seq<nat>>, a: Advisory, c: nat, i: nat) returns (d: nat)
    requires IsComponents(group, components, owner, ids) && c < |components| && i < |group|
    requires Describes(a, components[c]) && group[i] in a.atRisk
    ensures owner[i] == c
    ensures d < |group| && owner[d] == c && group[d].del && Adjacent(group[d], group[i])
  {
    var members := components[c];
    AtRiskMembers(a, members, group[i]);
    ComponentMembers(group, components, owner, ids, c, group[i]);
    var h :| 0 <= h < |group| && owner[h] == c && group[h] == group[i];
    SameOwnerIfAdjacent(group, components, owner, ids, h, i);
    var p :| 0 <= p < |Deleters(members)| && Overlaps(Deleters(members)[p].path, group[i].path);
    var del := Deleters(members)[p];
    DeletersMembers(members, del);
    ComponentMembers(group, components, owner, ids, c, del);
    d :| 0 <= d < |group| && owner[d] == c && group[d] == del;
  }

  lemma {:induction false} SameOwnerIfAdjacent(group: seq<DestJob>, components: seq<seq<DestJob>>, owner: seq<int>,
                            ids: seq<seq<nat>>, i: nat, j: nat)
    requires IsComponents(group, components, owner, ids) && i < |group| && j < |group|
    requires Adjacent(group[i], group[j])
    ensures owner[i] == owner[j]
  {
    LinkedRefl(group, i);
    LinkedStep(group, i, i, j);
  }

  lemma {:induction false} ReportedInConflict(group: seq<DestJob>, components: seq<seq<DestJob>>, owner: seq<int>,
                           ids: seq<seq<nat>>, a: Advisory, c: nat, i: nat)
    requires IsComponents(group, components, owner, ids) && c < |components| && i < |group|
    requires Describes(a, components[c]) && |components[c]| >= 2 && group[i] in a.atRisk
    ensures InConflict(group, i)
  {
    var d := ReportedMeans(group, components, owner, ids, a, c, i);
    if d == i {
      var j := HasNeighbour(group, components, owner, ids, i);
      assert Conflicts(group, i, j);
    } else {
      assert Conflicts(group, i, d);
    }
  }

  /** A job that deletes, or overlaps one that does, is threatened within its component. */
  lemma {:induction false} ConflictThreatens(group: seq<DestJob>, components: seq<seq<DestJob>>, owner: seq<int>,
                          ids: seq<seq<nat>>, i: nat, j: nat)
    requires IsComponents(group, components, owner, ids) && i < |group| && j < |group|
    requires Conflicts(group, i, j)
    ensures owner[i] == owner[j] && |components[owner[i]]| >= 2 && HasDeleter(components[owner[i]])
    ensures group[i] in components[owner[i]]
    ensures OverlapsSome(Deleters(components[owner[i]]), group[i].path)
  {
    SameOwnerIfAdjacent(group, components, owner, ids, i, j);
    var c := owner[i];
    var members := components[c];
    assert Lists(group, owner, c, ids[c], members);
    var p :| 0 <= p < |ids[c]| && ids[c][p] == i;
    var q :| 0 <= q < |ids[c]| && ids[c][q] == j;
    assert p != q;
    var del := if group[j].del then group[j] else group[i];
    assert del == members[if group[j].del then q else p];
    DeletersMembers(members, del);
    var r :| 0 <= r < |Deleters(members)| && Deleters(members)[r] == del;
    assert Overlaps(Deleters(members)[r].path, group[i].path);
  }

  lemma {:induction false} ConflictReported(group: seq<DestJob>, components: seq<seq<DestJob>>, owner: seq<int>,
                         ids: seq<seq<nat>>, advisories: seq<Advisory>, from: seq<nat>, i: nat, j: nat)
    requires IsComponents(group, components, owner, ids) && i < |group| && j < |group|
    requires Emitted(components, |components|, advisories, from)
    requires Conflicts(group, i, j)
    ensures Reported(advisories, group[i])
  {
    ConflictThreatens(group, components, owner, ids, i, j);
    var c := owner[i];
    assert c in from;
    var k :| 0 <= k < |from| && from[k] == c;
    AtRiskMembers(advisories[k], components[c], group[i]);
  }

  lemma {:induction false} OutermostFirst(group: seq<DestJob>, components: seq<seq<DestJob>>, owner: seq<int>,
                       ids: seq<seq<nat>>, a: Advisory, c: nat)
    requires AllClean(group) && IsComponents(group, components, owner, ids) && c < |components|
    requires Describes(a, components[c])
    ensures Outermost(group, a)
  {
    forall i, j | 0 <= i < |group| && 0 <= j < |group| && group[i] in a.atRisk && Linked(group, i, j)
      ensures Contains(a.atRisk[0].path, group[j].path)
    {
      var d := ReportedMeans(group, components, owner, ids, a, c, i);
      var f := FirstIndex(group, components, owner, ids, a, c);
      assert owner[j] == c;
      FirstHolds(group, components, owner, ids, a, c, f, d, j);
    }
  }

  lemma {:induction false} FirstIndex(group: seq<DestJob>, components: seq<seq<DestJob>>, owner: seq<int>,
                   ids: seq<seq<nat>>, a: Advisory, c: nat) returns (f: nat)
    requires IsComponents(group, components, owner, ids) && c < |components|
    requires Describes(a, components[c])
    ensures f < |group| && owner[f] == c && group[f] == a.atRisk[0]
  {
    AtRiskMembers(a, components[c], a.atRisk[0]);
    ComponentMembers(group, components, owner, ids, c, a.atRisk[0]);
    f :| 0 <= f < |group| && owner[f] == c && group[f] == a.atRisk[0];
  }

  /** The outermost member of a chain through the first reported job, a deleter and job j holds
      the deleter, so it is reported too; being shortest, the first reported job equals it. */
  lemma {:induction false} FirstHolds(group: seq<DestJob>, components: seq<seq<DestJob>>, owner: seq<int>,
                   ids: seq<seq<nat>>, a: Advisory, c: nat, f: nat, d: nat, j: nat)
    requires AllClean(group) && IsComponents(group, components, owner, ids) && c < |components|
    requires Describes(a, components[c])
    requires f < |group| && d < |group| && j < |group| && owner[f] == owner[d] == owner[j] == c
    requires group[f] == a.atRisk[0] && group[d].del
    ensures Contains(a.atRisk[0].path, group[j].path)
  {
    var m := LinkedHolder(group, f, d, j);
    HolderReported(group, components, owner, ids, a, c, d, m);
    assert |a.atRisk[0].path| <= |group[m].path|;
    ContainsIsShorter(group[m].path, group[f].path);
  }

  /** Three linked jobs lie below one job that is linked to them. */
  lemma {:induction false} LinkedHolder(group: seq<DestJob>, f: nat, d: nat, j: nat) returns (m: nat)
    requires AllClean(group) && f < |group| && d < |group| && j < |group|
    requires Linked(group, f, d) && Linked(group, d, j)
    ensures m < |group| && Linked(group, f, m)
    ensures Contains(group[m].path, group[f].path)
    ensures Contains(group[m].path, group[d].path)
    ensures Contains(group[m].path, group[j].path)
  {
    var c1 :| ChainBetween(group, c1, f, d);
    var c2 :| ChainBetween(group, c2, d, j);
    var chain := c1 + c2[1..];
    ChainConcat(group, c1, c2, f, d, j);
    m := ChainHasOutermost(group, chain);
    ChainPrefix(group, chain, f, m);
    assert d in c1 && f in c1 && j in c2;
  }

  lemma {:induction false} HolderReported(group: seq<DestJob>, components: seq<seq<DestJob>>, owner: seq<int>,
                       ids: seq<seq<nat>>, a: Advisory, c: nat, d: nat, m: nat)
    requires IsComponents(group, components, owner, ids) && c < |components|
    requires Describes(a, components[c])
    requires d < |group| && m < |group| && owner[d] == owner[m] == c
    requires group[d].del && Adjacent(group[d], group[m])
    ensures group[m] in a.atRisk
  {
    ComponentMembers(group, components, owner, ids, c, group[d]);
    ComponentMembers(group, components, owner, ids, c, group[m]);
    DeletersMembers(components[c], group[d]);
    var r :| 0 <= r < |Deleters(components[c])| && Deleters(components[c])[r] == group[d];
    assert Overlaps(Deleters(components[c])[r].path, group[m].path);
    AtRiskMembers(a, components[c], group[m]);
  }

  lemma {:induction false} DistinctCount(s: seq<DestJob>, d: DestJob)
    requires Distinct(s)
    ensures multiset(s)[d] <= 1
  {
    if s != [] {
      var front := s[..|s| - 1];
      DistinctCount(front, d);
      assert s == front + [s[|s| - 1]];
      CountMeansIn(front, d);
    }
  }

  lemma {:induction false} CountsGiveDistinct(s: seq<DestJob>)
    requires forall d: DestJob :: multiset(s)[d] <= 1
    ensures Distinct(s)
  {
    forall i, j | 0 <= i < j < |s|
      ensures s[i] != s[j]
    {
      if s[i] == s[j] {
        TwiceInSeq(s, i, j);
      }
    }
  }

  lemma {:induction false} NoDuplicates(group: seq<DestJob>, components: seq<seq<DestJob>>, owner: seq<int>,
                     ids: seq<seq<nat>>, a: Advisory, c: nat)
    requires IsComponents(group, components, owner, ids) && c < |components|
    requires Describes(a, components[c]) && Distinct(group)
    ensures Distinct(a.atRisk)
  {
    var members := components[c];
    assert Lists(group, owner, c, ids[c], members);
    assert Distinct(members);
    forall d: DestJob
      ensures multiset(a.atRisk)[d] <= 1
    {
      ThreatenedCount(members, Deleters(members), d);
      DistinctCount(members, d);
    }
    CountsGiveDistinct(a.atRisk);
  }

  lemma {:induction false} AdvisoryWellFormed(group: seq<DestJob>, components: seq<seq<DestJob>>, owner: seq<int>,
                           ids: seq<seq<nat>>, a: Advisory, c: nat)
    requires AllClean(group) && IsComponents(group, components, owner, ids) && c < |components|
    requires Describes(a, components[c]) && |components[c]| >= 2 && HasDeleter(components[c])
    ensures WellFormed(group, a)
  {
    var f := FirstIndex(group, components, owner, ids, a, c);
    var d := ReportedMeans(group, components, owner, ids, a, c, f);
    var n := HasNeighbour(group, components, owner, ids, d);
    SameOwnerIfAdjacent(group, components, owner, ids, d, n);
    HolderReported(group, components, owner, ids, a, c, d, d);
    HolderReported(group, components, owner, ids, a, c, d, n);
    TwoReported(group, components, owner, ids, a, c, d, n);
    DeletesSample(a, components[c]);
    ComponentMembers(group, components, owner, ids, c, group[d]);
    DeletersMembers(components[c], group[d]);
    OutermostFirst(group, components, owner, ids, a, c);
    if Distinct(group) {
      NoDuplicates(group, components, owner, ids, a, c);
    }
    forall x | x in a.atRisk
      ensures x in group
    {
      AtRiskMembers(a, components[c], x);
      ComponentMembers(group, components, owner, ids, c, x);
    }
  }

  /** Two different jobs of one component are two entries, even if their records are equal. */
  lemma {:induction false} TwoReported(group: seq<DestJob>, components: seq<seq<DestJob>>, owner: seq<int>,
                    ids: seq<seq<nat>>, a: Advisory, c: nat, d: nat, n: nat)
    requires IsComponents(group, components, owner, ids) && c < |components|
    requires Describes(a, components[c])
    requires d < |group| && n < |group| && d != n && owner[d] == owner[n] == c
    requires group[d] in a.atRisk && group[n] in a.atRisk
    ensures |a.atRisk| >= 2
  {
    if group[d] == group[n] {
      var members := components[c];
      assert Lists(group, owner, c, ids[c], members);
      var p :| 0 <= p < |ids[c]| && ids[c][p] == d;
      var q :| 0 <= q < |ids[c]| && ids[c][q] == n;
      TwiceInSeq(members, p, q);
      AtRiskMembers(a, members, group[d]);
      ThreatenedCount(members, Deleters(members), group[d]);
      assert |multiset(a.atRisk)| >= multiset(a.atRisk)[group[d]] >= 2;
    }
  }

  lemma {:induction false} TwiceInSeq(s: seq<DestJob>, p: nat, q: nat)
    requires p < |s| && q < |s| && p != q && s[p] == s[q]
    ensures multiset(s)[s[p]] >= 2
  {
    var lo, hi := if p < q then p else q, if p < q then q else p;
    assert s == s[..hi] + [s[hi]] + s[hi + 1..];
    assert s[lo] in s[..hi];
  }

  lemma {:induction false} ReportedExactly(group: seq<DestJob>, components: seq<seq<DestJob>>, owner: seq<int>,
                       ids: seq<seq<nat>>, advisories: seq<Advisory>, from: seq<nat>)
    requires IsComponents(group, components, owner, ids)
    requires Emitted(components, |components|, advisories, from)
    ensures forall i :: 0 <= i < |group| ==> (Reported(advisories, group[i]) <==> InConflict(group, i))
  {
    forall i | 0 <= i < |group|
      ensures Reported(advisories, group[i]) <==> InConflict(group, i)
    {
      if Reported(advisories, group[i]) {
        var k :| 0 <= k < |advisories| && group[i] in advisories[k].atRisk;
        ReportedInConflict(group, components, owner, ids, advisories[k], from[k], i);
      }
      if InConflict(group, i) {
        var j :| 0 <= j < |group| && Conflicts(group, i, j);
        ConflictReported(group, components, owner, ids, advisories, from, i, j);
      }
    }
  }

  lemma {:induction false} SidesTogether(group: seq<DestJob>, components: seq<seq<DestJob>>, owner: seq<int>,
                       ids: seq<seq<nat>>, advisories: seq<Advisory>, from: seq<nat>)
    requires IsComponents(group, components, owner, ids)
    requires Emitted(components, |components|, advisories, from)
    ensures forall i, j, k ::
              0 <= i < |group| && 0 <= j < |group| && 0 <= k < |advisories| && Conflicts(group, i, j) ==>
              group[i] in advisories[k].atRisk ==> group[j] in advisories[k].atRisk
  {
    forall i, j, k | 0 <= i < |group| && 0 <= j < |group| && 0 <= k < |advisories| &&
      Conflicts(group, i, j) && group[i] in advisories[k].atRisk
      ensures group[j] in advisories[k].atRisk
    {
      var _ := ReportedMeans(group, components, owner, ids, advisories[k], from[k], i);
      assert Conflicts(group, j, i);
      ConflictThreatens(group, components, owner, ids, j, i);
      AtRiskMembers(advisories[k], components[from[k]], group[j]);
    }
  }

  lemma {:induction false} ReportedOnce(group: seq<DestJob>, components: seq<seq<DestJob>>, owner: seq<int>,
                       ids: seq<seq<nat>>, advisories: seq<Advisory>, from: seq<nat>)
    requires IsComponents(group, components, owner, ids)
    requires Emitted(components, |components|, advisories, from)
    ensures forall d, k, l :: 0 <= k < |advisories| && 0 <= l < |advisories| ==>
              d in advisories[k].atRisk && d in advisories[l].atRisk ==> k == l
  {
    forall d, k, l | 0 <= k < |advisories| && 0 <= l < |advisories| &&
      d in advisories[k].atRisk && d in advisories[l].atRisk
      ensures k == l
    {
      AtRiskMembers(advisories[k], components[from[k]], d);
      ComponentMembers(group, components, owner, ids, from[k], d);
      var i :| 0 <= i < |group| && owner[i] == from[k] && group[i] == d;
      var _ := ReportedMeans(group, components, owner, ids, advisories[l], from[l], i);
      assert from[k] == from[l];
    }
  }

  lemma {:induction false} EmittedIsExact(group: seq<DestJob>, components: seq<seq<DestJob>>, owner: seq<int>,
                       ids: seq<seq<nat>>, advisories: seq<Advisory>, from: seq<nat>)
    requires AllClean(group) && IsComponents(group, components, owner, ids)
    requires Emitted(components, |components|, advisories, from)
    ensures Exact(group, advisories)
  {
    ReportedExactly(group, components, owner, ids, advisories, from);
    SidesTogether(group, components, owner, ids, advisories, from);
    ReportedOnce(group, components, owner, ids, advisories, from);
    forall k | 0 <= k < |advisories|
      ensures WellFormed(group, advisories[k])
    {
      AdvisoryWellFormed(group, components, owner, ids, advisories[k], from[k]);
    }
  }

  // ---- all hosts ----

  /** A job with the identity of its host: the parsed address or the normalised name. */
  datatype HostedJob = HostedJob(host: string, dest: DestJob)

  predicate CleanJobs(jobs: seq<HostedJob>) {
    forall i :: 0 <= i < |jobs| ==> Clean(jobs[i].dest.path)
  }

  /** The warnings emitted for one host, in order. */
  datatype HostReport = HostReport(host: string, advisories: seq<Advisory>)

  function GroupOf(jobs: seq<HostedJob>, host: string): seq<DestJob> {
    if jobs == [] then []
    else
      var last := jobs[|jobs| - 1];
      GroupOf(jobs[..|jobs| - 1], host) + (if last.host == host then [last.dest] else [])
  }

  ghost predicate StrictlySorted(hosts: seq<string>) {
    forall i, j :: 0 <= i < j < |hosts| ==> hosts[i] != hosts[j] && LexLe(hosts[i], hosts[j])
  }

  /** The map holds the group of every host seen so far, and no other host has jobs. */
  ghost predicate Groups(groups: map<string, seq<DestJob>>, jobs: seq<HostedJob>) {
    && (forall host :: host in groups ==> groups[host] == GroupOf(jobs, host) != [])
    && (forall host :: host !in groups ==> GroupOf(jobs, host) == [])
  }

  lemma {:induction false} GroupsStep(groups: map<string, seq<DestJob>>, jobs: seq<HostedJob>, i: nat)
    requires i < |jobs| && Groups(groups, jobs[..i])
    ensures var key := jobs[i].host;
            var group := (if key in groups then groups[key] else []) + [jobs[i].dest];
            Groups(groups[key := group], jobs[..i + 1])
  {
    forall host: string
      ensures GroupOf(jobs[..i + 1], host) ==
              if jobs[i].host == host then GroupOf(jobs[..i], host) + [jobs[i].dest] else GroupOf(jobs[..i], host)
    {
      GroupOfStep(jobs, i, host);
    }
  }

  lemma {:induction false} GroupOfStep(jobs: seq<HostedJob>, i: nat, host: string)
    requires i < |jobs|
    ensures GroupOf(jobs[..i + 1], host) ==
            if jobs[i].host == host then GroupOf(jobs[..i], host) + [jobs[i].dest] else GroupOf(jobs[..i], host)
  {
    assert jobs[..i + 1][..i] == jobs[..i];
    assert jobs[..i + 1][i] == jobs[i];
  }

  method GroupByHost(jobs: seq<HostedJob>) returns (groups: map<string, seq<DestJob>>)
    ensures Groups(groups, jobs)
  {
    groups := map[];
    for i := 0 to |jobs|
      invariant Groups(groups, jobs[..i])
    {
      GroupsStep(groups, jobs, i);
      var key := jobs[i].host;
      groups := groups[key := (if key in groups then groups[key] else []) + [jobs[i].dest]];
    }
    assert jobs[..|jobs|] == jobs;
  }

  ghost predicate HasReport(out: seq<HostReport>, host: string) {
    exists k :: 0 <= k < |out| && out[k].host == host
  }

  /** Every host that has a job has one block, the blocks are in host order, and each is exact. */
  ghost predicate FullReport(jobs: seq<HostedJob>, out: seq<HostReport>) {
    && (forall k :: 0 <= k < |out| ==> Exact(GroupOf(jobs, out[k].host), out[k].advisories))
    && (forall k, l :: 0 <= k < l < |out| ==> out[k].host != out[l].host && TextBefore(out[k].host, out[l].host))
    && (forall k :: 0 <= k < |out| ==> HasJob(jobs, out[k].host))
    && (forall i :: 0 <= i < |jobs| ==> HasReport(out, jobs[i].host))
  }

  /** The loop over the hosts. */
  method WarnHosts(jobs: seq<HostedJob>, groups: map<string, seq<DestJob>>, hosts: seq<string>)
    returns (out: seq<HostReport>)
    requires CleanJobs(jobs) && Groups(groups, jobs) && forall h :: h in hosts ==> h in groups
    ensures |out| == |hosts| && forall k :: 0 <= k < |out| ==> out[k].host == hosts[k]
    ensures forall k :: 0 <= k < |out| ==> Exact(GroupOf(jobs, out[k].host), out[k].advisories)
  {
    out := [];
    for n := 0 to |hosts|
      invariant |out| == n
      invariant forall k :: 0 <= k < n ==> out[k].host == hosts[k]
      invariant forall k :: 0 <= k < n ==> Exact(GroupOf(jobs, out[k].host), out[k].advisories)
    {
      GroupIsClean(jobs, hosts[n]);
      var advisories := WarnGroup(groups[hosts[n]]);
      out := out + [HostReport(hosts[n], advisories)];
    }
  }

  /** The whole advisory: one block per host that has a job, in host order, each exact for
      that host's jobs. */
  method WarnSharedDestinations(jobs: seq<HostedJob>) returns (out: seq<HostReport>)
    requires CleanJobs(jobs)
    ensures FullReport(jobs, out)
  {
    var groups := GroupByHost(jobs);
    var hosts := SortedHosts(groups.Keys);
    out := WarnHosts(jobs, groups, hosts);
    HostsInTextOrder(hosts);
    HostsAreListed(groups, jobs, hosts);
    forall i | 0 <= i < |jobs|
      ensures HasReport(out, jobs[i].host)
    {
      var k :| 0 <= k < |hosts| && hosts[k] == jobs[i].host;
      assert out[k].host == jobs[i].host;
    }
  }

  predicate HasJob(jobs: seq<HostedJob>, host: string) {
    exists i :: 0 <= i < |jobs| && jobs[i].host == host
  }

  lemma {:induction false} HostsInTextOrder(hosts: seq<string>)
    requires StrictlySorted(hosts)
    ensures forall k, l :: 0 <= k < l < |hosts| ==> hosts[k] != hosts[l] && TextBefore(hosts[k], hosts[l])
  {
    forall k, l | 0 <= k < l < |hosts|
      ensures TextBefore(hosts[k], hosts[l])
    {
      LexIsTextOrder(hosts[k], hosts[l]);
    }
  }

  lemma {:induction false} HostsAreListed(groups: map<string, seq<DestJob>>, jobs: seq<HostedJob>, hosts: seq<string>)
    requires Groups(groups, jobs) && forall h :: h in hosts <==> h in groups
    ensures forall i :: 0 <= i < |jobs| ==> jobs[i].host in hosts
    ensures forall k :: 0 <= k < |hosts| ==> HasJob(jobs, hosts[k])
  {
    forall i | 0 <= i < |jobs|
      ensures jobs[i].host in hosts
    {
      HostIsListed(groups, jobs, i);
    }
    forall k | 0 <= k < |hosts|
      ensures HasJob(jobs, hosts[k])
    {
      assert hosts[k] in groups;
      var i := PositionOf(jobs, hosts[k], 0);
      assert jobs[i].host == hosts[k];
    }
  }

  lemma {:induction false} HostIsListed(groups: map<string, seq<DestJob>>, jobs: seq<HostedJob>, i: nat)
    requires Groups(groups, jobs) && i < |jobs|
    ensures jobs[i].host in groups
  {
    PositionHolds(jobs, i);
  }

  lemma {:induction false} GroupIsClean(jobs: seq<HostedJob>, host: string)
    requires CleanJobs(jobs)
    ensures AllClean(GroupOf(jobs, host))
  {
    if jobs != [] {
      GroupIsClean(jobs[..|jobs| - 1], host);
    }
  }

  /** Stands for slices.Sorted over the map's keys. */
  method SortedHosts(keys: set<string>) returns (hosts: seq<string>)
    ensures forall h :: h in hosts <==> h in keys
    ensures StrictlySorted(hosts)
  {
    hosts := [];
    var left := keys;
    while left != {}
      invariant left <= keys
      invariant forall h :: h in hosts <==> h in keys - left
      invariant StrictlySorted(hosts)
      invariant forall k, x :: 0 <= k < |hosts| && x in left ==> LexLe(hosts[k], x)
      decreases left
    {
      var m := LeastHost(left);
      assert m !in hosts;
      hosts := hosts + [m];
      left := left - {m};
    }
  }

  method LeastHost(keys: set<string>) returns (m: string)
    requires keys != {}
    ensures m in keys && forall h :: h in keys ==> LexLe(m, h)
  {
    m :| m in keys;
    var left := keys - {m};
    LexTotal(m, m);
    while left != {}
      invariant left <= keys && m in keys
      invariant forall h :: h in keys - left ==> LexLe(m, h)
      decreases left
    {
      var x :| x in left;
      LexTotal(m, x);
      if !LexLe(m, x) {
        forall h | h in keys - left
          ensures LexLe(x, h)
        {
          LexTransitive(x, m, h);
        }
        LexTotal(x, x);
        m := x;
      }
      left := left - {x};
    }
  }

  /** Where job i stands in its host's group. */
  ghost function Position(jobs: seq<HostedJob>, i: nat): nat
    requires i < |jobs|
  {
    |GroupOf(jobs[..i], jobs[i].host)|
  }

  lemma {:induction false} GroupGrows(jobs: seq<HostedJob>, n: nat, host: string)
    requires n <= |jobs|
    ensures GroupOf(jobs[..n], host) <= GroupOf(jobs, host)
    decreases |jobs|
  {
    if n == |jobs| {
      assert jobs[..n] == jobs;
    } else {
      assert jobs[..|jobs| - 1][..n] == jobs[..n];
      GroupGrows(jobs[..|jobs| - 1], n, host);
    }
  }

  lemma {:induction false} PositionHolds(jobs: seq<HostedJob>, i: nat)
    requires i < |jobs|
    ensures Position(jobs, i) < |GroupOf(jobs, jobs[i].host)|
    ensures GroupOf(jobs, jobs[i].host)[Position(jobs, i)] == jobs[i].dest
    ensures Position(jobs, i) + 1 == |GroupOf(jobs[..i + 1], jobs[i].host)|
  {
    assert jobs[..i + 1][..i] == jobs[..i];
    GroupGrows(jobs, i + 1, jobs[i].host);
  }

  lemma {:induction false} PositionsDiffer(jobs: seq<HostedJob>, i: nat, j: nat)
    requires i < j < |jobs| && jobs[i].host == jobs[j].host
    ensures Position(jobs, i) < Position(jobs, j)
  {
    PositionHolds(jobs, i);
    assert jobs[..j][..i + 1] == jobs[..i + 1];
    GroupGrows(jobs[..j], i + 1, jobs[i].host);
  }

  lemma {:induction false} PositionOf(jobs: seq<HostedJob>, host: string, p: nat) returns (j: nat)
    requires p < |GroupOf(jobs, host)|
    ensures j < |jobs| && jobs[j].host == host && Position(jobs, j) == p
    decreases |jobs|
  {
    var n := |jobs| - 1;
    if p < |GroupOf(jobs[..n], host)| {
      j := PositionOf(jobs[..n], host, p);
      assert jobs[..n][..j] == jobs[..j];
    } else {
      j := n;
    }
  }

  ghost predicate ShareTree(jobs: seq<HostedJob>, i: nat, j: nat)
    requires i < |jobs| && j < |jobs|
  {
    && i != j
    && jobs[i].host == jobs[j].host
    && Adjacent(jobs[i].dest, jobs[j].dest)
    && (jobs[i].dest.del || jobs[j].dest.del)
  }

  /** Exactness over the whole job file: a job is reported under its host iff some other job
      on that host has an overlapping tree and one of the two deletes. */
  lemma {:induction false} ReportedIffShared(jobs: seq<HostedJob>, report: HostReport, i: nat)
    requires i < |jobs|
    requires report.host == jobs[i].host && Exact(GroupOf(jobs, report.host), report.advisories)
    ensures Reported(report.advisories, jobs[i].dest) <==>
            exists j :: 0 <= j < |jobs| && ShareTree(jobs, i, j)
  {
    var host := jobs[i].host;
    var group := GroupOf(jobs, host);
    var p := Position(jobs, i);
    PositionHolds(jobs, i);
    assert Reported(report.advisories, group[p]) <==> InConflict(group, p);
    if InConflict(group, p) {
      var q :| 0 <= q < |group| && Conflicts(group, p, q);
      var j := PositionOf(jobs, host, q);
      PositionHolds(jobs, j);
      assert ShareTree(jobs, i, j);
    }
    if j :| 0 <= j < |jobs| && ShareTree(jobs, i, j) {
      PositionHolds(jobs, j);
      if i < j {
        PositionsDiffer(jobs, i, j);
      } else {
        PositionsDiffer(jobs, j, i);
      }
      assert Conflicts(group, p, Position(jobs, j));
    }
  }
}
