/** When the static migration checks report which finding (scripts/migration_gate.py). */
module MigrationFindings {
  import opened Wrappers
  import opened Ordering
  import opened Migrations

  /** The file declares this revision id. */
  predicate Declares(f: File, id: string) { HasId(f.parsed) && f.parsed.revision == Some(id) }

  /** The i-th file is the last one to declare its id, so its revision is the one in force. */
  predicate InForce(files: seq<File>, i: nat) {
    i < |files| && HasId(files[i].parsed)
    && forall j | i < j < |files| :: !Declares(files[j], files[i].parsed.revision.value)
  }

  predicate Declared(files: seq<File>, id: string) { exists f :: f in files && Declares(f, id) }

  /** Some revision in force steps down to this id. */
  ghost predicate SteppedDownTo(files: seq<File>, id: string) {
    exists i: nat :: InForce(files, i) && files[i].parsed.down == Some(id)
  }

  ghost predicate IsHeadOf(files: seq<File>, id: string) { Declared(files, id) && !SteppedDownTo(files, id) }

  /** The heads in order of their ids. */
  ghost predicate ListsHeads(files: seq<File>, heads: seq<string>) {
    StrictlySorted(StringLt, heads) && forall id :: id in heads <==> IsHeadOf(files, id)
  }

  /** The i-th file repeats the id that the j-th file declared last before it. */
  predicate Repeats(files: seq<File>, j: nat, i: nat, id: string) {
    && j < i < |files| && Declares(files[j], id) && Declares(files[i], id)
    && forall k | j < k < i :: !Declares(files[k], id)
  }

  /** When a finding is due. */
  ghost predicate Due(files: seq<File>, baseline: Option<string>, f: Failure) {
    match f
    case NoFiles => files == []
    case CannotParse(name) => exists x :: x in files && x.name == name && x.parsed.Unparsable?
    case MissingId(name) => exists x :: x in files && x.name == name && x.parsed.Parsed? && !HasId(x.parsed)
    case DuplicateId(id, first, second) =>
      exists j: nat, i: nat :: Repeats(files, j, i, id) && files[j].name == first && files[i].name == second
    case Unresolved(name, down) =>
      && !Declared(files, down)
      && exists i: nat :: InForce(files, i) && files[i].name == name && files[i].parsed.down == Some(down)
    case HeadCount(heads) => ListsHeads(files, heads) && |heads| != 1
    case NoUpgrade(name) => exists i: nat :: InForce(files, i) && files[i].name == name && !files[i].parsed.hasUpgrade
    case NoDowngrade(name) =>
      exists i: nat :: InForce(files, i) && files[i].name == name && MustRevert(files, baseline, i)
                       && !files[i].parsed.hasDowngrade
    case NoopDowngrade(name) =>
      exists i: nat :: InForce(files, i) && files[i].name == name && MustRevert(files, baseline, i)
                       && files[i].parsed.hasDowngrade && files[i].parsed.downgradeIsNoop
  }

  ghost predicate MustRevert(files: seq<File>, baseline: Option<string>, i: nat)
    requires InForce(files, i)
  {
    AfterBaseline(GraphOf(files, |files|), baseline, files[i].parsed.revision.value)
  }

  // ---------------------------------------------------------------- the dictionary of revisions

  /** Among the first k files, the i-th is the last to declare the id. */
  predicate LastAmong(files: seq<File>, k: nat, i: nat, id: string)
    requires k <= |files|
  {
    i < k && Declares(files[i], id) && forall j | i < j < k :: !Declares(files[j], id)
  }

  lemma {:induction false} GraphHolds(files: seq<File>, k: nat, id: string)
    requires k <= |files|
    ensures id in GraphOf(files, k) <==> exists i: nat :: LastAmong(files, k, i, id)
    ensures forall i: nat | LastAmong(files, k, i, id) ::
              id in GraphOf(files, k) && GraphOf(files, k)[id] == RevisionOf(files[i])
  {
    if k > 0 {
      GraphHolds(files, k - 1, id);
      var last: nat := k - 1;
      if Declares(files[last], id) {
        assert LastAmong(files, k, last, id);
      } else {
        forall i: nat
          ensures LastAmong(files, k, i, id) <==> LastAmong(files, last, i, id)
        {
          OneMoreFile(files, k, i, id);
        }
        OtherIdStays(files, k, id);
        if exists i: nat :: LastAmong(files, k, i, id) {
          var i: nat :| LastAmong(files, k, i, id);
          assert LastAmong(files, last, i, id);
        }
        if exists i: nat :: LastAmong(files, last, i, id) {
          var i: nat :| LastAmong(files, last, i, id);
          assert LastAmong(files, k, i, id);
        }
      }
    }
  }

  lemma OtherIdStays(files: seq<File>, k: nat, id: string)
    requires 0 < k <= |files| && !Declares(files[k - 1], id)
    ensures id in GraphOf(files, k) <==> id in GraphOf(files, k - 1)
    ensures id in GraphOf(files, k) ==> GraphOf(files, k)[id] == GraphOf(files, k - 1)[id]
  {
  }

  lemma OneMoreFile(files: seq<File>, k: nat, i: nat, id: string)
    requires 0 < k <= |files| && !Declares(files[k - 1], id)
    ensures LastAmong(files, k, i, id) <==> LastAmong(files, k - 1, i, id)
  {
    if LastAmong(files, k, i, id) {
      assert forall j | i < j < k - 1 :: !Declares(files[j], id);
    }
    if LastAmong(files, k - 1, i, id) {
      forall j | i < j < k
        ensures !Declares(files[j], id)
      {
        assert j < k - 1 ==> !Declares(files[j], id);
      }
    }
  }

  lemma InForceIsLast(files: seq<File>, i: nat, id: string)
    ensures LastAmong(files, |files|, i, id) <==> InForce(files, i) && files[i].parsed.revision == Some(id)
  {
  }

  /** The revision of a declared id is that of the file in force. */
  lemma GraphTells(files: seq<File>, id: string) returns (i: nat)
    requires id in GraphOf(files, |files|)
    ensures InForce(files, i) && files[i].parsed.revision == Some(id)
    ensures GraphOf(files, |files|)[id] == RevisionOf(files[i])
  {
    GraphHolds(files, |files|, id);
    i :| LastAmong(files, |files|, i, id);
  }

  lemma InForceIsKnown(files: seq<File>, i: nat)
    requires InForce(files, i)
    ensures var graph, id := GraphOf(files, |files|), files[i].parsed.revision.value;
            id in graph && graph[id] == RevisionOf(files[i])
  {
    var id := files[i].parsed.revision.value;
    GraphHolds(files, |files|, id);
    assert LastAmong(files, |files|, i, id);
  }

  lemma {:induction false} DeclaredAmong(files: seq<File>, k: nat, id: string)
    requires k <= |files|
    ensures id in GraphOf(files, k) <==> exists i :: 0 <= i < k && Declares(files[i], id)
  {
    if k > 0 { DeclaredAmong(files, k - 1, id); }
  }

  lemma DeclaredIff(files: seq<File>, id: string)
    ensures id in GraphOf(files, |files|) <==> Declared(files, id)
  {
    DeclaredAmong(files, |files|, id);
    if Declared(files, id) {
      var f :| f in files && Declares(f, id);
      var i :| 0 <= i < |files| && files[i] == f;
    }
  }

  // ---------------------------------------------------------------- loading

  lemma {:induction false} LoadFailuresHold(files: seq<File>, k: nat, f: Failure)
    requires k <= |files|
    ensures f in LoadFailures(files, k) <==> exists i :: 0 <= i < k && f in LoadFailure(files, i)
  {
    if k > 0 { LoadFailuresHold(files, k - 1, f); }
  }

  lemma LoadFailureTells(files: seq<File>, i: nat, f: Failure)
    requires i < |files|
    ensures f in LoadFailure(files, i) <==>
              || (f == CannotParse(files[i].name) && files[i].parsed.Unparsable?)
              || (f == MissingId(files[i].name) && files[i].parsed.Parsed? && !HasId(files[i].parsed))
              || (f.DuplicateId? && f.second == files[i].name
                  && exists j: nat :: Repeats(files, j, i, f.id) && files[j].name == f.first)
  {
    if HasId(files[i].parsed) {
      var id := files[i].parsed.revision.value;
      GraphHolds(files, i, id);
      forall j: nat
        ensures LastAmong(files, i, j, id) <==> Repeats(files, j, i, id)
      {
      }
    }
  }

  lemma LoadingTells(files: seq<File>, baseline: Option<string>, f: Failure)
    ensures f in LoadFailures(files, |files|)
       <==> (f.CannotParse? || f.MissingId? || f.DuplicateId?) && Due(files, baseline, f)
  {
    LoadFailuresHold(files, |files|, f);
    forall i | 0 <= i < |files|
      ensures f in LoadFailure(files, i) <==>
                || (f == CannotParse(files[i].name) && files[i].parsed.Unparsable?)
                || (f == MissingId(files[i].name) && files[i].parsed.Parsed? && !HasId(files[i].parsed))
                || (f.DuplicateId? && f.second == files[i].name
                    && exists j: nat :: Repeats(files, j, i, f.id) && files[j].name == f.first)
      ensures files[i] in files
    {
      LoadFailureTells(files, i, f);
    }
  }

  // ---------------------------------------------------------------- the chain

  lemma {:induction false} UnresolvedHold(ids: seq<string>, graph: Graph, k: nat, f: Failure)
    requires k <= |ids| && forall id | id in ids :: id in graph
    ensures f in UnresolvedTo(ids, graph, k) <==>
              exists i :: 0 <= i < k && graph[ids[i]].down.Some? && graph[ids[i]].down.value !in graph
                          && f == Unresolved(graph[ids[i]].file, graph[ids[i]].down.value)
  {
    if k > 0 { UnresolvedHold(ids, graph, k - 1, f); }
  }

  lemma ResolutionTells(files: seq<File>, baseline: Option<string>, f: Failure)
    ensures (forall id :: id in IdsOf(files, |files|) <==> id in GraphOf(files, |files|))
    ensures f in UnresolvedTo(IdsOf(files, |files|), GraphOf(files, |files|), |IdsOf(files, |files|)|)
       <==> f.Unresolved? && Due(files, baseline, f)
  {
    var ids, graph := IdsOf(files, |files|), GraphOf(files, |files|);
    IdsAreKeys(files, |files|);
    UnresolvedHold(ids, graph, |ids|, f);
    if f.Unresolved? { DeclaredIff(files, f.down); }
    if f in UnresolvedTo(ids, graph, |ids|) {
      var k :| 0 <= k < |ids| && graph[ids[k]].down.Some? && graph[ids[k]].down.value !in graph
               && f == Unresolved(graph[ids[k]].file, graph[ids[k]].down.value);
      DeclaredIff(files, graph[ids[k]].down.value);
      var i := GraphTells(files, ids[k]);
      assert InForce(files, i) && files[i].name == f.file && files[i].parsed.down == Some(f.down);
    }
    if f.Unresolved? && Due(files, baseline, f) {
      var i: nat :| InForce(files, i) && files[i].name == f.file && files[i].parsed.down == Some(f.down);
      InForceIsKnown(files, i);
      var k :| 0 <= k < |ids| && ids[k] == files[i].parsed.revision.value;
    }
  }

  lemma {:induction false} HeadsHold(ids: seq<string>, graph: Graph, k: nat, id: string)
    requires k <= |ids|
    ensures id in HeadsTo(ids, graph, k) <==> IsHead(graph, id) && exists i :: 0 <= i < k && ids[i] == id
  {
    if k > 0 { HeadsHold(ids, graph, k - 1, id); }
  }

  lemma {:induction false} HeadsDistinct(ids: seq<string>, graph: Graph, k: nat)
    requires k <= |ids| && Distinct(ids)
    ensures Distinct(HeadsTo(ids, graph, k))
  {
    if k > 0 {
      HeadsDistinct(ids, graph, k - 1);
      HeadsHold(ids, graph, k - 1, ids[k - 1]);
    }
  }

  lemma IsHeadIff(files: seq<File>, id: string)
    ensures IsHead(GraphOf(files, |files|), id) <==> IsHeadOf(files, id)
  {
    var graph := GraphOf(files, |files|);
    DeclaredIff(files, id);
    if SteppedDownTo(files, id) {
      var i: nat :| InForce(files, i) && files[i].parsed.down == Some(id);
      InForceIsKnown(files, i);
    }
    if exists x :: x in graph && graph[x].down == Some(id) {
      var x :| x in graph && graph[x].down == Some(id);
      var i := GraphTells(files, x);
      assert InForce(files, i) && files[i].parsed.down == Some(id);
    }
  }

  lemma HeadsAreListed(files: seq<File>)
    ensures var ids, graph := IdsOf(files, |files|), GraphOf(files, |files|);
            ListsHeads(files, Sort(StringLt, HeadsTo(ids, graph, |ids|)))
  {
    var ids, graph := IdsOf(files, |files|), GraphOf(files, |files|);
    var heads := HeadsTo(ids, graph, |ids|);
    IdsAreKeys(files, |files|);
    HeadsDistinct(ids, graph, |ids|);
    StringLtIsOrder();
    SortStrict(StringLt, heads);
    SameElements(Sort(StringLt, heads), heads);
    forall id
      ensures id in Sort(StringLt, heads) <==> IsHeadOf(files, id)
    {
      HeadsHold(ids, graph, |ids|, id);
      IsHeadIff(files, id);
      if IsHead(graph, id) {
        var i :| 0 <= i < |ids| && ids[i] == id;
      }
    }
  }

  lemma HeadsTell(files: seq<File>, baseline: Option<string>, f: Failure)
    ensures var ids, graph := IdsOf(files, |files|), GraphOf(files, |files|);
            f in HeadFailures(HeadsTo(ids, graph, |ids|)) <==> f.HeadCount? && Due(files, baseline, f)
  {
    var ids, graph := IdsOf(files, |files|), GraphOf(files, |files|);
    HeadsAreListed(files);
    OneHeadCount(files, HeadsTo(ids, graph, |ids|), f);
    if f.HeadCount? { DueHeadCount(files, baseline, f.heads); }
  }

  lemma DueHeadCount(files: seq<File>, baseline: Option<string>, heads: seq<string>)
    ensures Due(files, baseline, HeadCount(heads)) <==> ListsHeads(files, heads) && |heads| != 1
  {
  }

  lemma OneHeadCount(files: seq<File>, heads: seq<string>, f: Failure)
    requires ListsHeads(files, Sort(StringLt, heads))
    ensures f in HeadFailures(heads) <==> f.HeadCount? && ListsHeads(files, f.heads) && |f.heads| != 1
  {
    if f.HeadCount? && ListsHeads(files, f.heads) { OneListOfHeads(files, f.heads, Sort(StringLt, heads)); }
  }

  lemma OneListOfHeads(files: seq<File>, a: seq<string>, b: seq<string>)
    requires ListsHeads(files, a) && ListsHeads(files, b)
    ensures a == b
  {
    StringLtIsOrder();
    StrictlySortedUnique(StringLt, a, b);
  }

  // ---------------------------------------------------------------- reversibility

  ghost predicate RevertFailure(graph: Graph, baseline: Option<string>, id: string, f: Failure)
    requires id in graph
  {
    var r := graph[id];
    || (f == NoUpgrade(r.file) && !r.hasUpgrade)
    || (f == NoDowngrade(r.file) && AfterBaseline(graph, baseline, id) && !r.hasDowngrade)
    || (f == NoopDowngrade(r.file) && AfterBaseline(graph, baseline, id) && r.hasDowngrade && r.downgradeIsNoop)
  }

  lemma {:induction false} ReversibilityHold(ids: seq<string>, graph: Graph, baseline: Option<string>, k: nat,
                                             f: Failure)
    requires k <= |ids| && forall id | id in ids :: id in graph
    ensures f in ReversibilityTo(ids, graph, baseline, k)
       <==> exists i :: 0 <= i < k && RevertFailure(graph, baseline, ids[i], f)
  {
    if k > 0 { ReversibilityHold(ids, graph, baseline, k - 1, f); }
  }

  lemma FindingHasFile(files: seq<File>, baseline: Option<string>, f: Failure) returns (i: nat)
    requires (f.NoUpgrade? || f.NoDowngrade? || f.NoopDowngrade?) && Due(files, baseline, f)
    ensures InForce(files, i)
    ensures var graph, id := GraphOf(files, |files|), files[i].parsed.revision.value;
            id in graph && RevertFailure(graph, baseline, id, f)
  {
    if f.NoUpgrade? {
      i :| InForce(files, i) && files[i].name == f.file && !files[i].parsed.hasUpgrade;
    } else if f.NoDowngrade? {
      i :| InForce(files, i) && files[i].name == f.file && MustRevert(files, baseline, i)
           && !files[i].parsed.hasDowngrade;
    } else {
      i :| InForce(files, i) && files[i].name == f.file && MustRevert(files, baseline, i)
           && files[i].parsed.hasDowngrade && files[i].parsed.downgradeIsNoop;
    }
    InForceIsKnown(files, i);
  }

  lemma ReversibilityTells(files: seq<File>, baseline: Option<string>, f: Failure)
    ensures (forall id :: id in IdsOf(files, |files|) <==> id in GraphOf(files, |files|))
    ensures f in ReversibilityTo(IdsOf(files, |files|), GraphOf(files, |files|), baseline, |IdsOf(files, |files|)|)
       <==> (f.NoUpgrade? || f.NoDowngrade? || f.NoopDowngrade?) && Due(files, baseline, f)
  {
    var ids, graph := IdsOf(files, |files|), GraphOf(files, |files|);
    IdsAreKeys(files, |files|);
    ReversibilityHold(ids, graph, baseline, |ids|, f);
    if f in ReversibilityTo(ids, graph, baseline, |ids|) {
      var k :| 0 <= k < |ids| && RevertFailure(graph, baseline, ids[k], f);
      var i := GraphTells(files, ids[k]);
      assert InForce(files, i);
    }
    if (f.NoUpgrade? || f.NoDowngrade? || f.NoopDowngrade?) && Due(files, baseline, f) {
      var i := FindingHasFile(files, baseline, f);
      var k :| 0 <= k < |ids| && ids[k] == files[i].parsed.revision.value;
    }
  }

  // ---------------------------------------------------------------- all findings

  lemma InOneOfFive(a: seq<Failure>, b: seq<Failure>, c: seq<Failure>, d: seq<Failure>, e: seq<Failure>, f: Failure)
    ensures f in a + b + c + d + e <==> f in a || f in b || f in c || f in d || f in e
  {
  }

  /** The checks report exactly the findings that are due. */
  lemma FailuresIff(files: seq<File>, baseline: Option<string>, f: Failure)
    ensures f in Failures(files, baseline) <==> Due(files, baseline, f)
  {
    var ids, graph := IdsOf(files, |files|), GraphOf(files, |files|);
    LoadingTells(files, baseline, f);
    ResolutionTells(files, baseline, f);
    HeadsTell(files, baseline, f);
    ReversibilityTells(files, baseline, f);
    InOneOfFive(if files == [] then [NoFiles] else [], LoadFailures(files, |files|), UnresolvedTo(ids, graph, |ids|),
                HeadFailures(HeadsTo(ids, graph, |ids|)), ReversibilityTo(ids, graph, baseline, |ids|), f);
  }
}
