/** The static checks on the migration chain (scripts/migration_gate.py). */
module Migrations {
  import opened Wrappers
  import opened Ordering

  /** What reading one revision file yields. */
  datatype Parsed =
    | Unparsable
    | Parsed(revision: Option<string>, down: Option<string>, hasUpgrade: bool, hasDowngrade: bool,
             downgradeIsNoop: bool)

  datatype File = File(name: string, parsed: Parsed)

  datatype Revision = Revision(down: Option<string>, file: string, hasUpgrade: bool, hasDowngrade: bool,
                               downgradeIsNoop: bool)

  /** The revisions by id; every file declares at most one step down. */
  type Graph = map<string, Revision>

  datatype Failure =
    | NoFiles
    | CannotParse(file: string)
    | MissingId(file: string)
    | DuplicateId(id: string, first: string, second: string)
    | Unresolved(file: string, down: string)
    | HeadCount(heads: seq<string>)
    | NoUpgrade(file: string)
    | NoDowngrade(file: string)
    | NoopDowngrade(file: string)

  const MISSING := "<missing"

  predicate HasId(p: Parsed) {
    p.Parsed? && p.revision.Some? && p.revision.value != "" && !(MISSING <= p.revision.value)
  }

  function RevisionOf(f: File): Revision
    requires HasId(f.parsed)
  {
    Revision(f.parsed.down, f.name, f.parsed.hasUpgrade, f.parsed.hasDowngrade, f.parsed.downgradeIsNoop)
  }

  // ---------------------------------------------------------------- loading

  /** The dictionary after the first k files; a repeated id overwrites. */
  function GraphOf(files: seq<File>, k: nat): Graph
    requires k <= |files|
  {
    if k == 0 then map[]
    else
      var before, p := GraphOf(files, k - 1), files[k - 1].parsed;
      if HasId(p) then before[p.revision.value := RevisionOf(files[k - 1])] else before
  }

  /** Its keys in the order of their first use. */
  function IdsOf(files: seq<File>, k: nat): seq<string>
    requires k <= |files|
  {
    if k == 0 then []
    else
      var before, p := IdsOf(files, k - 1), files[k - 1].parsed;
      if HasId(p) && p.revision.value !in GraphOf(files, k - 1) then before + [p.revision.value] else before
  }

  function LoadFailure(files: seq<File>, i: nat): seq<Failure>
    requires i < |files|
  {
    var f, before := files[i], GraphOf(files, i);
    if f.parsed.Unparsable? then [CannotParse(f.name)]
    else if !HasId(f.parsed) then [MissingId(f.name)]
    else if f.parsed.revision.value in before then
      [DuplicateId(f.parsed.revision.value, before[f.parsed.revision.value].file, f.name)]
    else []
  }

  function LoadFailures(files: seq<File>, k: nat): seq<Failure>
    requires k <= |files|
  {
    if k == 0 then [] else LoadFailures(files, k - 1) + LoadFailure(files, k - 1)
  }

  method Load(files: seq<File>) returns (failures: seq<Failure>, ids: seq<string>, graph: Graph)
    ensures failures == LoadFailures(files, |files|)
    ensures ids == IdsOf(files, |files|)
    ensures graph == GraphOf(files, |files|)
  {
    failures, ids, graph := [], [], map[];
    for k := 0 to |files|
      invariant failures == LoadFailures(files, k) && ids == IdsOf(files, k) && graph == GraphOf(files, k)
    {
      var f := files[k];
      if f.parsed.Unparsable? {
        failures := failures + [CannotParse(f.name)];
      } else if !HasId(f.parsed) {
        failures := failures + [MissingId(f.name)];
      } else {
        var id := f.parsed.revision.value;
        if id in graph {
          failures := failures + [DuplicateId(id, graph[id].file, f.name)];
        } else {
          ids := ids + [id];
        }
        graph := graph[id := RevisionOf(f)];
      }
    }
  }

  lemma {:induction false} IdsAreKeys(files: seq<File>, k: nat)
    requires k <= |files|
    ensures forall id :: id in IdsOf(files, k) <==> id in GraphOf(files, k)
    ensures Distinct(IdsOf(files, k))
  {
    if k > 0 { IdsAreKeys(files, k - 1); }
  }

  /** Every file holds a revision, and no two the same. */
  ghost predicate Clean(files: seq<File>, k: nat)
    requires k <= |files|
  {
    && (forall i | 0 <= i < k :: HasId(files[i].parsed))
    && (forall i, j | 0 <= i < j < k :: files[i].parsed.revision.value != files[j].parsed.revision.value)
  }

  lemma {:induction false} KeysAreDeclared(files: seq<File>, k: nat, id: string)
    requires k <= |files|
    ensures id in GraphOf(files, k)
       <==> exists i :: 0 <= i < k && HasId(files[i].parsed) && files[i].parsed.revision.value == id
  {
    if k > 0 { KeysAreDeclared(files, k - 1, id); }
  }

  /** The k-th file brings a revision that no earlier file brought. */
  predicate IsNew(files: seq<File>, i: nat)
    requires i < |files|
  {
    HasId(files[i].parsed) && files[i].parsed.revision.value !in GraphOf(files, i)
  }

  lemma CleanNext(files: seq<File>, k: nat)
    requires 0 < k <= |files|
    ensures Clean(files, k) <==> Clean(files, k - 1) && IsNew(files, k - 1)
  {
    if HasId(files[k - 1].parsed) { KeysAreDeclared(files, k - 1, files[k - 1].parsed.revision.value); }
  }

  lemma {:induction false} AllNewIff(files: seq<File>, k: nat)
    requires k <= |files|
    ensures (forall i | 0 <= i < k :: IsNew(files, i)) <==> Clean(files, k)
  {
    if k > 0 {
      AllNewIff(files, k - 1);
      CleanNext(files, k);
    }
  }

  lemma {:induction false} NoLoadFailures(files: seq<File>, k: nat)
    requires k <= |files|
    ensures LoadFailures(files, k) == [] <==> forall i | 0 <= i < k :: IsNew(files, i)
  {
    if k > 0 {
      NoLoadFailures(files, k - 1);
      assert LoadFailure(files, k - 1) == [] <==> IsNew(files, k - 1);
    }
  }

  lemma LoadsIff(files: seq<File>, k: nat)
    requires k <= |files|
    ensures LoadFailures(files, k) == [] <==> Clean(files, k)
  {
    NoLoadFailures(files, k);
    AllNewIff(files, k);
  }

  lemma {:induction false} GraphSize(files: seq<File>, k: nat)
    requires k <= |files| && Clean(files, k)
    ensures |GraphOf(files, k)| == k
  {
    if k > 0 {
      GraphSize(files, k - 1);
      KeysAreDeclared(files, k - 1, files[k - 1].parsed.revision.value);
    }
  }

  // ---------------------------------------------------------------- resolution and heads

  predicate ResolvesAt(graph: Graph, id: string)
    requires id in graph
  {
    graph[id].down.Some? ==> graph[id].down.value in graph
  }

  predicate Resolves(graph: Graph) {
    forall id | id in graph :: ResolvesAt(graph, id)
  }

  function UnresolvedTo(ids: seq<string>, graph: Graph, k: nat): seq<Failure>
    requires k <= |ids| && forall id | id in ids :: id in graph
  {
    if k == 0 then []
    else
      var r := graph[ids[k - 1]];
      UnresolvedTo(ids, graph, k - 1)
      + (if r.down.Some? && r.down.value !in graph then [Unresolved(r.file, r.down.value)] else [])
  }

  /** No other revision steps down to it. */
  predicate IsHead(graph: Graph, id: string) {
    id in graph && forall x | x in graph :: graph[x].down != Some(id)
  }

  function HeadsTo(ids: seq<string>, graph: Graph, k: nat): seq<string>
    requires k <= |ids|
  {
    if k == 0 then [] else HeadsTo(ids, graph, k - 1) + (if IsHead(graph, ids[k - 1]) then [ids[k - 1]] else [])
  }

  function HeadFailures(heads: seq<string>): seq<Failure> {
    if |heads| != 1 then [HeadCount(Sort(StringLt, heads))] else []
  }

  method CheckResolution(ids: seq<string>, graph: Graph) returns (failures: seq<Failure>)
    requires forall id | id in ids :: id in graph
    ensures failures == UnresolvedTo(ids, graph, |ids|)
  {
    failures := [];
    for k := 0 to |ids|
      invariant failures == UnresolvedTo(ids, graph, k)
    {
      var r := graph[ids[k]];
      if r.down.Some? && r.down.value !in graph {
        failures := failures + [Unresolved(r.file, r.down.value)];
      }
    }
  }

  /** Groups the revisions by the revision they step down to; the heads are those nobody steps down to. */
  method FindHeads(ids: seq<string>, graph: Graph) returns (heads: seq<string>)
    requires forall id :: id in ids <==> id in graph
    ensures heads == HeadsTo(ids, graph, |ids|)
  {
    var children: map<Option<string>, seq<string>> := map[];
    for k := 0 to |ids|
      invariant forall d :: d in children <==> exists i :: 0 <= i < k && graph[ids[i]].down == d
    {
      var d := graph[ids[k]].down;
      children := children[d := (if d in children then children[d] else []) + [ids[k]]];
    }
    heads := [];
    for k := 0 to |ids|
      invariant heads == HeadsTo(ids, graph, k)
    {
      ChildlessIsHead(ids, graph, children.Keys, ids[k]);
      if Some(ids[k]) !in children {
        heads := heads + [ids[k]];
      }
    }
  }

  lemma ChildlessIsHead(ids: seq<string>, graph: Graph, parents: set<Option<string>>, id: string)
    requires (forall x :: x in ids <==> x in graph) && id in ids
    requires forall d :: d in parents <==> exists i :: 0 <= i < |ids| && graph[ids[i]].down == d
    ensures Some(id) !in parents <==> IsHead(graph, id)
  {
    if Some(id) in parents {
      var i :| 0 <= i < |ids| && graph[ids[i]].down == Some(id);
      assert ids[i] in graph;
    } else {
      forall x | x in graph
        ensures graph[x].down != Some(id)
      {
        var i :| 0 <= i < |ids| && ids[i] == x;
        assert graph[ids[i]].down in parents;
      }
    }
  }

  lemma {:induction false} ResolvesIff(ids: seq<string>, graph: Graph, k: nat)
    requires k <= |ids| && forall id | id in ids :: id in graph
    ensures UnresolvedTo(ids, graph, k) == [] <==>
            forall i | 0 <= i < k :: ResolvesAt(graph, ids[i])
  {
    if k > 0 { ResolvesIff(ids, graph, k - 1); }
  }

  ghost predicate OneHead(graph: Graph) {
    exists h :: IsHead(graph, h) && forall x | IsHead(graph, x) :: x == h
  }

  lemma {:induction false} HeadsAre(ids: seq<string>, graph: Graph, k: nat)
    requires k <= |ids| && Distinct(ids)
    ensures Distinct(HeadsTo(ids, graph, k))
    ensures forall x :: x in HeadsTo(ids, graph, k) <==> exists i :: 0 <= i < k && ids[i] == x && IsHead(graph, x)
  {
    if k > 0 { HeadsAre(ids, graph, k - 1); }
  }

  lemma TwoDiffer(ids: seq<string>)
    requires Distinct(ids)
    ensures |ids| <= 1 || exists x, y :: x in ids && y in ids && x != y
  {
    if |ids| > 1 { assert ids[0] in ids && ids[1] in ids && ids[0] != ids[1]; }
  }

  lemma OneHeadIff(ids: seq<string>, graph: Graph)
    requires Distinct(ids) && forall id :: id in ids <==> id in graph
    ensures HeadFailures(HeadsTo(ids, graph, |ids|)) == [] <==> OneHead(graph)
  {
    var heads := HeadsTo(ids, graph, |ids|);
    HeadsAre(ids, graph, |ids|);
    forall x
      ensures x in heads <==> IsHead(graph, x)
    {
      if IsHead(graph, x) {
        var i :| 0 <= i < |ids| && ids[i] == x;
      }
    }
    if |heads| == 1 {
      assert heads[0] in heads;
      assert IsHead(graph, heads[0]) && forall x | IsHead(graph, x) :: x == heads[0];
    }
    if OneHead(graph) {
      var h :| IsHead(graph, h) && forall x | IsHead(graph, x) :: x == h;
      assert forall i | 0 <= i < |heads| :: heads[i] in heads && heads[i] == h;
      assert h in heads;
      TwoDiffer(heads);
    }
  }

  // ---------------------------------------------------------------- the walk down

  /** Where n steps down lead; an unknown revision leads nowhere. */
  function StepDown(graph: Graph, at: Option<string>): Option<string> {
    if at.Some? && at.value in graph then graph[at.value].down else None
  }

  function Down(graph: Graph, id: string, n: nat): Option<string> {
    if n == 0 then Some(id) else StepDown(graph, Down(graph, id, n - 1))
  }

  ghost predicate Reaches(graph: Graph, id: string, goal: string) {
    exists n: nat :: n >= 1 && Down(graph, id, n) == Some(goal)
  }

  /** Which revisions must be reversible. */
  ghost predicate AfterBaseline(graph: Graph, baseline: Option<string>, id: string) {
    baseline.None? || (id != baseline.value && Reaches(graph, id, baseline.value))
  }

  lemma {:induction false} DownAdds(graph: Graph, id: string, m: nat, n: nat)
    requires Down(graph, id, m).Some?
    ensures Down(graph, id, m + n) == Down(graph, Down(graph, id, m).value, n)
  {
    if n > 0 { DownAdds(graph, id, m, n - 1); }
  }

  lemma {:induction false} NowhereForever(graph: Graph, id: string, m: nat, n: nat)
    requires Down(graph, id, m).None? && m <= n
    ensures Down(graph, id, n).None?
  {
    if m < n { NowhereForever(graph, id, m, n - 1); }
  }

  /** Once the walk is back where it was, it finds nothing new. */
  lemma {:induction false} CycleRepeats(graph: Graph, id: string, i: nat, n: nat, m: nat)
    requires i < n && Down(graph, id, i) == Down(graph, id, n) && Down(graph, id, n).Some?
    ensures exists j :: 0 <= j < n && Down(graph, id, m) == Down(graph, id, j)
    decreases m
  {
    if m >= n {
      DownAdds(graph, id, n, m - n);
      DownAdds(graph, id, i, m - n);
      CycleRepeats(graph, id, i, n, i + (m - n));
    }
  }

  /** The revisions met in the first n steps. */
  function Visited(graph: Graph, id: string, n: nat): set<string> {
    if n == 0 then {}
    else
      var last := Down(graph, id, n - 1);
      Visited(graph, id, n - 1) + (if last.Some? then {last.value} else {})
  }

  lemma {:induction false} VisitedAre(graph: Graph, id: string, n: nat, x: string)
    ensures x in Visited(graph, id, n) <==> exists i :: 0 <= i < n && Down(graph, id, i) == Some(x)
  {
    if n > 0 {
      VisitedAre(graph, id, n - 1, x);
      if Down(graph, id, n - 1) == Some(x) {
        assert exists i :: 0 <= i < n && Down(graph, id, i) == Some(x) by {
          assert 0 <= n - 1 < n && Down(graph, id, n - 1) == Some(x);
        }
      }
    }
  }

  /** A walk that has ended, or has come back to where it was, finds nothing it has not met. */
  lemma NothingNew(graph: Graph, id: string, n: nat, goal: string)
    requires var at := Down(graph, id, n); at.None? || at.value in Visited(graph, id, n)
    requires goal !in Visited(graph, id, n)
    ensures !Reaches(graph, id, goal)
  {
    forall m: nat
      ensures Down(graph, id, m) != Some(goal)
    {
      VisitedAre(graph, id, n, goal);
      var at := Down(graph, id, n);
      if at.None? {
        if m >= n { NowhereForever(graph, id, n, m); }
      } else {
        VisitedAre(graph, id, n, at.value);
        var i :| 0 <= i < n && Down(graph, id, i) == at;
        CycleRepeats(graph, id, i, n, m);
      }
    }
  }

  /** Walks down with a record of what it has seen, so it ends on every graph. */
  method IsAfterBaseline(graph: Graph, baseline: Option<string>, id: string) returns (r: bool)
    ensures r <==> AfterBaseline(graph, baseline, id)
  {
    if baseline.None? {
      return true;
    }
    if id == baseline.value {
      return false;
    }
    var seen: set<string> := {};
    var current: Option<string> := Some(id);
    ghost var n := 0;
    while current.Some? && current.value !in seen
      invariant current == Down(graph, id, n) && seen == Visited(graph, id, n)
      invariant baseline.value !in seen
      decreases if current.None? then 0 else 1 + |graph.Keys - seen|
    {
      if current == baseline {
        return true;
      }
      SmallerSet(graph.Keys, seen, current.value);
      seen := seen + {current.value};
      current := StepDown(graph, current);
      n := n + 1;
    }
    NothingNew(graph, id, n, baseline.value);
    return false;
  }

  lemma SmallerSet(all: set<string>, seen: set<string>, x: string)
    requires x !in seen
    ensures x in all ==> |all - (seen + {x})| < |all - seen|
  {
    if x in all { assert all - seen == (all - (seen + {x})) + {x}; }
  }

  // ---------------------------------------------------------------- all checks

  ghost function ReversibilityTo(ids: seq<string>, graph: Graph, baseline: Option<string>, k: nat): seq<Failure>
    requires k <= |ids| && forall id | id in ids :: id in graph
  {
    if k == 0 then []
    else
      var id := ids[k - 1];
      var r := graph[id];
      ReversibilityTo(ids, graph, baseline, k - 1)
      + (if !r.hasUpgrade then [NoUpgrade(r.file)] else [])
      + (if !AfterBaseline(graph, baseline, id) then []
         else if !r.hasDowngrade then [NoDowngrade(r.file)]
         else if r.downgradeIsNoop then [NoopDowngrade(r.file)]
         else [])
  }

  ghost function Failures(files: seq<File>, baseline: Option<string>): seq<Failure> {
    IdsAreKeys(files, |files|);
    var ids, graph := IdsOf(files, |files|), GraphOf(files, |files|);
    (if files == [] then [NoFiles] else [])
    + LoadFailures(files, |files|) + UnresolvedTo(ids, graph, |ids|) + HeadFailures(HeadsTo(ids, graph, |ids|))
    + ReversibilityTo(ids, graph, baseline, |ids|)
  }

  method CheckReversibility(ids: seq<string>, graph: Graph, baseline: Option<string>) returns (failures: seq<Failure>)
    requires forall id | id in ids :: id in graph
    ensures failures == ReversibilityTo(ids, graph, baseline, |ids|)
  {
    failures := [];
    for k := 0 to |ids|
      invariant failures == ReversibilityTo(ids, graph, baseline, k)
    {
      var r := graph[ids[k]];
      if !r.hasUpgrade {
        failures := failures + [NoUpgrade(r.file)];
      }
      var after := IsAfterBaseline(graph, baseline, ids[k]);
      if after {
        if !r.hasDowngrade {
          failures := failures + [NoDowngrade(r.file)];
        } else if r.downgradeIsNoop {
          failures := failures + [NoopDowngrade(r.file)];
        }
      }
    }
  }

  method StaticChecks(files: seq<File>, baseline: Option<string>) returns (ok: bool, failures: seq<Failure>)
    ensures failures == Failures(files, baseline)
    ensures ok <==> Passes(files, baseline)
  {
    failures := [];
    if files == [] {
      failures := failures + [NoFiles];
    }
    var loading, ids, graph := Load(files);
    IdsAreKeys(files, |files|);
    var resolution := CheckResolution(ids, graph);
    var heads := FindHeads(ids, graph);
    failures := failures + loading + resolution;
    var heading: seq<Failure> := [];
    if |heads| != 1 {
      heading := [HeadCount(Sort(StringLt, heads))];
    }
    var reversibility := CheckReversibility(ids, graph, baseline);
    failures := failures + heading + reversibility;
    ok := failures == [];
    NoFailuresIff(files, baseline);
  }

  predicate Reversible(r: Revision) { r.hasDowngrade && !r.downgradeIsNoop }

  /** What a passing chain promises. */
  ghost predicate Passes(files: seq<File>, baseline: Option<string>) {
    var graph := GraphOf(files, |files|);
    && files != [] && Clean(files, |files|) && Resolves(graph) && OneHead(graph)
    && forall id | id in graph :: Reverts(graph, baseline, id)
  }

  /** The revision can be applied, and taken back when it was added after the baseline. */
  ghost predicate Reverts(graph: Graph, baseline: Option<string>, id: string)
    requires id in graph
  {
    graph[id].hasUpgrade && (AfterBaseline(graph, baseline, id) ==> Reversible(graph[id]))
  }

  lemma {:induction false} ReversibleIff(ids: seq<string>, graph: Graph, baseline: Option<string>, k: nat)
    requires k <= |ids| && forall id | id in ids :: id in graph
    ensures ReversibilityTo(ids, graph, baseline, k) == [] <==>
            forall i | 0 <= i < k :: Reverts(graph, baseline, ids[i])
  {
    if k > 0 { ReversibleIff(ids, graph, baseline, k - 1); }
  }

  /** What holds of every id in the list holds of every revision. */
  lemma OverIds(ids: seq<string>, graph: Graph, baseline: Option<string>)
    requires forall id :: id in ids <==> id in graph
    ensures (forall i | 0 <= i < |ids| :: ResolvesAt(graph, ids[i])) <==> Resolves(graph)
    ensures (forall i | 0 <= i < |ids| :: Reverts(graph, baseline, ids[i]))
       <==> forall id | id in graph :: Reverts(graph, baseline, id)
  {
    assert forall i | 0 <= i < |ids| :: ids[i] in graph;
    forall id | id in graph
      ensures exists i :: 0 <= i < |ids| && ids[i] == id
    {
    }
  }

  /** The checks report nothing exactly for a chain that keeps every promise. */
  lemma NoFailuresIff(files: seq<File>, baseline: Option<string>)
    ensures Failures(files, baseline) == [] <==> Passes(files, baseline)
  {
    var ids, graph := IdsOf(files, |files|), GraphOf(files, |files|);
    IdsAreKeys(files, |files|);
    LoadsIff(files, |files|);
    ResolvesIff(ids, graph, |ids|);
    OneHeadIff(ids, graph);
    ReversibleIff(ids, graph, baseline, |ids|);
    OverIds(ids, graph, baseline);
  }

  // ---------------------------------------------------------------- linear chains

  /** Every walk down ends. */
  ghost predicate AllRooted(graph: Graph) {
    forall id | id in graph :: Ends(graph, id)
  }

  ghost predicate Ends(graph: Graph, id: string) {
    exists n: nat :: Down(graph, id, n).None?
  }

  ghost predicate Meets(graph: Graph, head: string, id: string) {
    exists m: nat :: Down(graph, head, m) == Some(id)
  }

  /** The walk from `head` meets every revision once and then ends. */
  ghost predicate VisitsAllOnce(graph: Graph, head: string) {
    && (forall i | 0 <= i < |graph| :: Down(graph, head, i).Some? && Down(graph, head, i).value in graph)
    && Down(graph, head, |graph|).None?
    && (forall i, j | 0 <= i < j < |graph| :: Down(graph, head, i) != Down(graph, head, j))
    && (forall id | id in graph :: exists i :: 0 <= i < |graph| && Down(graph, head, i) == Some(id))
  }

  lemma {:induction false} StaysInGraph(graph: Graph, id: string, n: nat)
    requires Resolves(graph) && id in graph
    ensures Down(graph, id, n).Some? ==> Down(graph, id, n).value in graph
  {
    if n > 0 { StaysInGraph(graph, id, n - 1); }
  }

  /** A walk that ends never meets a revision twice. */
  lemma NoRepeats(graph: Graph, id: string, end: nat, i: nat, j: nat)
    requires Down(graph, id, end).None? && i < j && Down(graph, id, j).Some?
    ensures Down(graph, id, i) != Down(graph, id, j)
  {
    if Down(graph, id, i) == Down(graph, id, j) {
      CycleRepeats(graph, id, i, j, end);
      var k :| 0 <= k < j && Down(graph, id, k).None?;
      NowhereForever(graph, id, k, j);
      assert false;
    }
  }

  lemma {:induction false} VisitedCount(graph: Graph, id: string, n: nat)
    requires Ends(graph, id)
    requires n > 0 ==> Down(graph, id, n - 1).Some?
    ensures |Visited(graph, id, n)| == n
  {
    if n > 0 {
      var end: nat :| Down(graph, id, end).None?;
      VisitedCount(graph, id, n - 1);
      var last := Down(graph, id, n - 1);
      forall i | 0 <= i < n - 1
        ensures Down(graph, id, i) != last
      {
        NoRepeats(graph, id, end, i, n - 1);
      }
      VisitedAre(graph, id, n - 1, last.value);
    }
  }

  lemma {:induction false} VisitedInGraph(graph: Graph, id: string, n: nat)
    requires Resolves(graph) && id in graph
    ensures Visited(graph, id, n) <= graph.Keys
  {
    if n > 0 {
      VisitedInGraph(graph, id, n - 1);
      StaysInGraph(graph, id, n - 1);
    }
  }

  lemma SubsetIsSmaller(a: set<string>, b: set<string>)
    requires a <= b
    ensures |a| <= |b|
    ensures |a| == |b| ==> a == b
  {
    assert b == a + (b - a);
  }

  /** A walk that ends takes fewer steps inside the graph than the graph has revisions. */
  lemma WalkFits(graph: Graph, id: string, n: nat)
    requires Resolves(graph) && AllRooted(graph) && id in graph && Down(graph, id, n).Some?
    ensures n < |graph|
  {
    VisitedCount(graph, id, n + 1);
    VisitedInGraph(graph, id, n + 1);
    SubsetIsSmaller(Visited(graph, id, n + 1), graph.Keys);
    assert |graph| == |graph.Keys|;
  }

  /** Walking up from any revision ends at the one head. */
  lemma {:induction false} HeadReachesAll(graph: Graph, head: string, top: string, n: nat, id: string)
    requires Resolves(graph) && AllRooted(graph) && top in graph
    requires forall x | IsHead(graph, x) :: x == head
    requires Down(graph, top, n) == Some(id)
    ensures Meets(graph, head, id)
    decreases |graph| - n
  {
    WalkFits(graph, top, n);
    if !IsHead(graph, top) {
      var child :| child in graph && graph[child].down == Some(top);
      FromChild(graph, child, top, n);
      WalkFits(graph, child, 1 + n);
      HeadReachesAll(graph, head, child, 1 + n, id);
    }
  }

  lemma FromChild(graph: Graph, child: string, top: string, n: nat)
    requires child in graph && graph[child].down == Some(top)
    ensures Down(graph, child, 1 + n) == Down(graph, top, n)
  {
    assert Down(graph, child, 1) == StepDown(graph, Down(graph, child, 0)) == Some(top);
    DownAdds(graph, child, 1, n);
  }

  /** The number of revisions a walk meets before it ends. */
  lemma FirstNone(graph: Graph, id: string, end: nat) returns (length: nat)
    requires Down(graph, id, end).None?
    ensures Down(graph, id, length).None? && (length > 0 ==> Down(graph, id, length - 1).Some?)
  {
    length := end;
    while length > 0 && Down(graph, id, length - 1).None?
      invariant Down(graph, id, length).None?
    {
      length := length - 1;
    }
  }

  /** The one head meets every revision before its walk ends. */
  lemma HeadVisits(graph: Graph, head: string, length: nat, id: string)
    requires Resolves(graph) && AllRooted(graph) && id in graph
    requires forall x | IsHead(graph, x) :: x == head
    requires Down(graph, head, length).None?
    ensures exists i :: 0 <= i < length && Down(graph, head, i) == Some(id)
  {
    assert Down(graph, id, 0) == Some(id);
    HeadReachesAll(graph, head, id, 0, id);
    var m: nat :| Down(graph, head, m) == Some(id);
    if m >= length { NowhereForever(graph, head, length, m); }
  }

  lemma HeadCovers(graph: Graph, head: string, length: nat)
    requires Resolves(graph) && AllRooted(graph) && Down(graph, head, length).None?
    requires forall x | IsHead(graph, x) :: x == head
    ensures graph.Keys <= Visited(graph, head, length)
  {
    forall id | id in graph
      ensures id in Visited(graph, head, length)
    {
      HeadVisits(graph, head, length, id);
      VisitedAre(graph, head, length, id);
    }
  }

  lemma WalkLength(graph: Graph, head: string)
    requires Resolves(graph) && AllRooted(graph) && head in graph
    requires forall x | IsHead(graph, x) :: x == head
    ensures Down(graph, head, |graph|).None?
    ensures |graph| > 0 && Down(graph, head, |graph| - 1).Some?
  {
    var end: nat :| Down(graph, head, end).None?;
    var length := FirstNone(graph, head, end);
    VisitedCount(graph, head, length);
    VisitedInGraph(graph, head, length);
    HeadCovers(graph, head, length);
    assert Visited(graph, head, length) == graph.Keys;
    assert length == |graph.Keys| == |graph|;
  }

  lemma OneHeadIsLinear(graph: Graph, head: string)
    requires Resolves(graph) && AllRooted(graph) && head in graph
    requires forall x | IsHead(graph, x) :: x == head
    ensures VisitsAllOnce(graph, head)
  {
    var length := |graph|;
    WalkLength(graph, head);
    forall i | 0 <= i < length
      ensures Down(graph, head, i).Some? && Down(graph, head, i).value in graph
    {
      if Down(graph, head, i).None? { NowhereForever(graph, head, i, length - 1); }
      StaysInGraph(graph, head, i);
    }
    forall i, j | 0 <= i < j < length
      ensures Down(graph, head, i) != Down(graph, head, j)
    {
      NoRepeats(graph, head, length, i, j);
    }
    forall id | id in graph
      ensures exists i :: 0 <= i < length && Down(graph, head, i) == Some(id)
    {
      HeadVisits(graph, head, length, id);
    }
  }

  lemma LaterEnds(graph: Graph, head: string, id: string, i: nat, end: nat)
    requires Down(graph, head, i) == Some(id) && Down(graph, head, end).None? && i <= end
    ensures Ends(graph, id)
  {
    DownAdds(graph, head, i, end - i);
  }

  /**
   Where revisions resolve and only one is a head, the chain is linear exactly when every walk
   down ends: the walk from the head then meets every revision once.
   */
  lemma LinearIffRooted(graph: Graph, head: string)
    requires Resolves(graph) && IsHead(graph, head) && forall x | IsHead(graph, x) :: x == head
    ensures VisitsAllOnce(graph, head) <==> AllRooted(graph)
  {
    if AllRooted(graph) {
      OneHeadIsLinear(graph, head);
    } else if VisitsAllOnce(graph, head) {
      forall id | id in graph
        ensures Ends(graph, id)
      {
        var i :| 0 <= i < |graph| && Down(graph, head, i) == Some(id);
        LaterEnds(graph, head, id, i, |graph|);
      }
    }
  }

  /** A chain that passes the checks, and whose walks all end, is linear. */
  lemma PassingChainIsLinear(files: seq<File>, baseline: Option<string>)
    requires Passes(files, baseline) && AllRooted(GraphOf(files, |files|))
    ensures exists head :: IsHead(GraphOf(files, |files|), head) && VisitsAllOnce(GraphOf(files, |files|), head)
    ensures |GraphOf(files, |files|)| == |files|
  {
    var graph := GraphOf(files, |files|);
    GraphSize(files, |files|);
    var head :| IsHead(graph, head) && forall x | IsHead(graph, x) :: x == head;
    LinearIffRooted(graph, head);
  }

  function Sound(name: string, id: string, down: Option<string>): File {
    File(name, Parsed(Some(id), down, true, true, false))
  }

  function DetachedCycle(): seq<File> {
    [Sound("a.py", "a", None), Sound("b.py", "b", Some("c")), Sound("c.py", "c", Some("b"))]
  }

  lemma DetachedCycleGraph()
    ensures var files := DetachedCycle();
            GraphOf(files, 3) == map["a" := RevisionOf(files[0]), "b" := RevisionOf(files[1]),
                                     "c" := RevisionOf(files[2])]
  {
    var files := DetachedCycle();
    assert GraphOf(files, 1) == map["a" := RevisionOf(files[0])];
    assert GraphOf(files, 2) == map["a" := RevisionOf(files[0]), "b" := RevisionOf(files[1])];
  }

  lemma CycleBesideRoot(graph: Graph, a: string, b: string, c: string)
    requires graph.Keys == {a, b, c} && a != b && a != c && b != c
    requires graph[a].down == None && graph[b].down == Some(c) && graph[c].down == Some(b)
    ensures Resolves(graph) && OneHead(graph)
  {
    assert IsHead(graph, a) && !IsHead(graph, b) && !IsHead(graph, c);
    assert forall x | IsHead(graph, x) :: x == a;
  }

  /** The checks do not see a cycle that hangs beside the chain. */
  lemma DetachedCyclePasses()
    ensures Passes(DetachedCycle(), None) && !AllRooted(GraphOf(DetachedCycle(), 3))
  {
    var graph := GraphOf(DetachedCycle(), 3);
    DetachedCycleGraph();
    assert "a"[0] != "b"[0] && "b"[0] != "c"[0] && "a"[0] != "c"[0];
    CycleBesideRoot(graph, "a", "b", "c");
    assert Clean(DetachedCycle(), 3);
    assert !Ends(graph, "b") by {
      forall n: nat
        ensures Down(graph, "b", n).Some?
      {
        TwoCycle(graph, n);
      }
    }
    assert "b" in graph;
  }

  lemma {:induction false} TwoCycle(graph: Graph, n: nat)
    requires "b" in graph && "c" in graph && graph["b"].down == Some("c") && graph["c"].down == Some("b")
    ensures Down(graph, "b", n) == Some(if n % 2 == 0 then "b" else "c")
  {
    if n > 0 { TwoCycle(graph, n - 1); }
  }

  /** The baseline itself is never after the baseline, not even where a cycle leads back to it. */
  lemma BaselineOnCycle()
    ensures var files := [Sound("b.py", "b", Some("c")), Sound("c.py", "c", Some("b"))];
            var graph := GraphOf(files, 2);
            Reaches(graph, "b", "b") && !AfterBaseline(graph, Some("b"), "b")
  {
    var files := [Sound("b.py", "b", Some("c")), Sound("c.py", "c", Some("b"))];
    var graph := GraphOf(files, 2);
    assert GraphOf(files, 1) == map["b" := RevisionOf(files[0])];
    assert graph == map["b" := RevisionOf(files[0]), "c" := RevisionOf(files[1])];
    TwoCycle(graph, 2);
  }
}
