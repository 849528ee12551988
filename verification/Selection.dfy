/** compareSelection: what the project declares against what the baseline records. */
module Selection {
  import opened Platform
  import opened Manifest
  import opened Parser
  import opened Sorting
  import Check

  datatype Change = Change(kind: string, ecosystem: string, reference: string, where: string)

  function ChangeKey(c: Change): Key { [c.kind, c.ecosystem, c.reference] }

  /** By kind, then ecosystem, then reference. */
  ghost predicate StandsBefore(a: Change, b: Change) {
    || StrLess(a.kind, b.kind)
    || (a.kind == b.kind && StrLess(a.ecosystem, b.ecosystem))
    || (a.kind == b.kind && a.ecosystem == b.ecosystem && StrLess(a.reference, b.reference))
  }

  lemma ByKindEcosystemReference(changes: seq<Change>)
    requires StrictlySorted(ChangeKey, changes)
    ensures forall i, j :: 0 <= i < j < |changes| ==> StandsBefore(changes[i], changes[j])
  {
    forall i, j | 0 <= i < j < |changes| ensures StandsBefore(changes[i], changes[j]) {
      var a, b := ChangeKey(changes[i]), ChangeKey(changes[j]);
      assert KeyLess(a, b);
      KeyLessExactly(a, b);
    }
  }

  ghost predicate DeclaredIn(wf: WorkflowFile, u: UniqueRef) {
    exists t :: t in wf.tools && PairOf(t) == u
  }

  ghost predicate Declared(declared: seq<WorkflowFile>, u: UniqueRef) {
    exists i :: 0 <= i < |declared| && DeclaredIn(declared[i], u)
  }

  ghost predicate FirstDeclaredAt(declared: seq<WorkflowFile>, u: UniqueRef, path: string) {
    exists i :: 0 <= i < |declared| && DeclaredIn(declared[i], u) && path == declared[i].path &&
                forall j :: 0 <= j < i ==> !DeclaredIn(declared[j], u)
  }

  ghost predicate Recorded(lf: Lockfile, u: UniqueRef) { u in Check.Refs(Entries(lf)) }

  /** The changes there should be: an addition for every pair declared and not recorded, naming the first
      declaring file; a removal for every pair recorded and not declared. */
  ghost predicate IsChange(declared: seq<WorkflowFile>, lf: Lockfile, c: Change) {
    var u := UniqueRef(c.ecosystem, c.reference);
    || (c.kind == "added" && Declared(declared, u) && !Recorded(lf, u) && FirstDeclaredAt(declared, u, c.where))
    || (c.kind == "removed" && Recorded(lf, u) && !Declared(declared, u) && c.where == "")
  }

  ghost predicate CurrentOf(declared: seq<WorkflowFile>, current: map<UniqueRef, string>) {
    && (forall u :: u in current <==> Declared(declared, u))
    && (forall u :: u in current ==> FirstDeclaredAt(declared, u, current[u]))
  }

  /** The tools of one more file. */
  method AddFile(current: map<UniqueRef, string>, wf: WorkflowFile, ghost before: seq<WorkflowFile>)
    returns (r: map<UniqueRef, string>)
    requires CurrentOf(before, current)
    ensures CurrentOf(before + [wf], r)
  {
    r := current;
    for i := 0 to |wf.tools|
      invariant forall u :: u in r <==> u in current || exists k :: 0 <= k < i && PairOf(wf.tools[k]) == u
      invariant forall u :: u in r ==> r[u] == if u in current then current[u] else wf.path
    {
      var key := PairOf(wf.tools[i]);
      if key !in r {
        r := r[key := wf.path];
      }
    }
    ghost var after := before + [wf];
    forall u
      ensures u in r <==> Declared(after, u)
      ensures u in r ==> FirstDeclaredAt(after, u, r[u])
    {
      DeclaredOneMore(before, wf, u);
      assert DeclaredIn(wf, u) <==> exists k :: 0 <= k < |wf.tools| && PairOf(wf.tools[k]) == u;
      if u in current {
        FirstStays(before, wf, u, current[u]);
      } else if u in r {
        assert after[|before|] == wf;
        assert forall j :: 0 <= j < |before| ==> after[j] == before[j];
      }
    }
  }

  lemma DeclaredOneMore(before: seq<WorkflowFile>, wf: WorkflowFile, u: UniqueRef)
    ensures Declared(before + [wf], u) <==> Declared(before, u) || DeclaredIn(wf, u)
  {
    var after := before + [wf];
    assert after[|before|] == wf;
    assert forall j :: 0 <= j < |before| ==> after[j] == before[j];
  }

  lemma FirstStays(before: seq<WorkflowFile>, wf: WorkflowFile, u: UniqueRef, p: string)
    requires FirstDeclaredAt(before, u, p)
    ensures FirstDeclaredAt(before + [wf], u, p)
  {
    var i :| 0 <= i < |before| && DeclaredIn(before[i], u) && p == before[i].path &&
             forall j :: 0 <= j < i ==> !DeclaredIn(before[j], u);
    assert (before + [wf])[i] == before[i];
  }

  method RecordedKeys(lf: Lockfile) returns (recorded: set<UniqueRef>)
    ensures recorded == Check.Refs(Entries(lf))
  {
    recorded := {};
    var ps := lf.pipelines.All();
    for i := 0 to |ps|
      invariant recorded == Check.Refs(PipelineTools(ps, i))
    {
      StepEnds(ps, i);
      var steps := ps[i].steps.All();
      for j := 0 to |steps|
        invariant recorded == Check.Refs(AtStep(ps, i, j))
      {
        ToolEnds(ps, i, j);
        var tools := steps[j].tools.All();
        for k := 0 to |tools|
          invariant recorded == Check.Refs(AtTool(ps, i, j, k))
        {
          ToolNext(ps, i, j, k);
          recorded := recorded + {RefOf(tools[k])};
        }
      }
    }
  }

  predicate IsAddition(current: map<UniqueRef, string>, recorded: set<UniqueRef>, visited: set<UniqueRef>, c: Change) {
    var u := UniqueRef(c.ecosystem, c.reference);
    u in visited && u in current && u !in recorded && c == Change("added", u.ecosystem, u.reference, current[u])
  }

  predicate IsRemoval(current: map<UniqueRef, string>, visited: set<UniqueRef>, c: Change) {
    var u := UniqueRef(c.ecosystem, c.reference);
    u in visited && u !in current && c == Change("removed", u.ecosystem, u.reference, "")
  }

  lemma DistinctPush(found: seq<Change>, c: Change)
    requires DistinctKeys(ChangeKey, found)
    requires forall d :: d in found ==> UniqueRef(d.ecosystem, d.reference) != UniqueRef(c.ecosystem, c.reference)
    ensures DistinctKeys(ChangeKey, found + [c])
  {
  }

  /** The first loop over a map, in any order of its keys. */
  method Additions(current: map<UniqueRef, string>, recorded: set<UniqueRef>) returns (found: seq<Change>)
    ensures DistinctKeys(ChangeKey, found)
    ensures forall c :: c in found <==> IsAddition(current, recorded, current.Keys, c)
  {
    found := [];
    var left := current.Keys;
    while left != {}
      invariant left <= current.Keys && DistinctKeys(ChangeKey, found)
      invariant forall c :: c in found <==> IsAddition(current, recorded, current.Keys - left, c)
      decreases |left|
    {
      var u :| u in left;
      left := left - {u};
      if u !in recorded {
        DistinctPush(found, Change("added", u.ecosystem, u.reference, current[u]));
        found := found + [Change("added", u.ecosystem, u.reference, current[u])];
      }
    }
  }

  /** The second loop over a map, in any order of its keys. */
  method Removals(current: map<UniqueRef, string>, recorded: set<UniqueRef>) returns (found: seq<Change>)
    ensures DistinctKeys(ChangeKey, found)
    ensures forall c :: c in found <==> IsRemoval(current, recorded, c)
  {
    found := [];
    var left := recorded;
    while left != {}
      invariant left <= recorded && DistinctKeys(ChangeKey, found)
      invariant forall c :: c in found <==> IsRemoval(current, recorded - left, c)
      decreases |left|
    {
      var u :| u in left;
      left := left - {u};
      if u !in current {
        DistinctPush(found, Change("removed", u.ecosystem, u.reference, ""));
        found := found + [Change("removed", u.ecosystem, u.reference, "")];
      }
    }
  }

  lemma DistinctTogether(a: seq<Change>, b: seq<Change>)
    requires DistinctKeys(ChangeKey, a) && DistinctKeys(ChangeKey, b)
    requires (forall c :: c in a ==> c.kind == "added") && (forall c :: c in b ==> c.kind == "removed")
    ensures DistinctKeys(ChangeKey, a + b)
  {
  }

  lemma FoundIsChange(declared: seq<WorkflowFile>, lf: Lockfile, current: map<UniqueRef, string>, c: Change)
    requires CurrentOf(declared, current)
    ensures IsChange(declared, lf, c) <==>
            IsAddition(current, Check.Refs(Entries(lf)), current.Keys, c) ||
            IsRemoval(current, Check.Refs(Entries(lf)), c)
  {
  }

  /** compareSelection. The two loops over maps visit the keys in any order; the result is always the one
      list, strictly increasing in kind, ecosystem and reference, that holds exactly the changes. */
  method CompareSelection(declared: seq<WorkflowFile>, lf: Lockfile) returns (changes: seq<Change>)
    ensures StrictlySorted(ChangeKey, changes)
    ensures forall i, j :: 0 <= i < j < |changes| ==> StandsBefore(changes[i], changes[j])
    ensures forall c :: c in changes <==> IsChange(declared, lf, c)
  {
    var current: map<UniqueRef, string> := map[];
    for i := 0 to |declared|
      invariant CurrentOf(declared[..i], current)
    {
      assert declared[..i + 1] == declared[..i] + [declared[i]];
      current := AddFile(current, declared[i], declared[..i]);
    }
    assert declared[..|declared|] == declared;
    var recorded := RecordedKeys(lf);
    var added := Additions(current, recorded);
    var removed := Removals(current, recorded);
    DistinctTogether(added, removed);
    changes := Sort(ChangeKey, added + removed);
    SortDistinct(ChangeKey, added + removed);
    forall c ensures c in changes <==> IsChange(declared, lf, c) {
      assert c in changes <==> c in Members(changes);
      FoundIsChange(declared, lf, current, c);
    }
    ByKindEcosystemReference(changes);
  }

  /** Any two such lists are the same list. */
  lemma ChangesDetermined(declared: seq<WorkflowFile>, lf: Lockfile, a: seq<Change>, b: seq<Change>)
    requires StrictlySorted(ChangeKey, a) && forall c :: c in a <==> IsChange(declared, lf, c)
    requires StrictlySorted(ChangeKey, b) && forall c :: c in b <==> IsChange(declared, lf, c)
    ensures a == b
  {
    assert forall c :: c in Members(a) <==> c in Members(b);
    StrictlySortedUnique(ChangeKey, a, b);
  }

  /** The list is empty exactly when declared and recorded pairs are the same. */
  lemma NoChanges(declared: seq<WorkflowFile>, lf: Lockfile)
    ensures (forall c :: !IsChange(declared, lf, c)) <==> (forall u :: Declared(declared, u) <==> Recorded(lf, u))
  {
    forall u | Declared(declared, u) && !Recorded(lf, u)
      ensures exists c :: IsChange(declared, lf, c)
    {
      var p := FirstPlace(declared, u);
      assert IsChange(declared, lf, Change("added", u.ecosystem, u.reference, p));
    }
    forall u | Recorded(lf, u) && !Declared(declared, u)
      ensures exists c :: IsChange(declared, lf, c)
    {
      assert IsChange(declared, lf, Change("removed", u.ecosystem, u.reference, ""));
    }
  }

  lemma FirstPlace(declared: seq<WorkflowFile>, u: UniqueRef) returns (p: string)
    requires Declared(declared, u)
    ensures FirstDeclaredAt(declared, u, p)
  {
    var i := 0;
    while !DeclaredIn(declared[i], u)
      decreases |declared| - i
      invariant 0 <= i < |declared| && forall j :: 0 <= j < i ==> !DeclaredIn(declared[j], u)
    {
      i := i + 1;
    }
    p := declared[i].path;
  }
}
