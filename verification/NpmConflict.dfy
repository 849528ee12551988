/** Npm lockfiles in which one reference stands at two places with nested trees that reach different references,
    as hoisting writes them. The walk descends into the place it meets first, so a dependency can be lost, and
    which one depends on the order of the maps. The outcome is exact when only one reference is in conflict. With
    several, which entries can come first together depends on where they stand, and an entry elsewhere can save
    what a conflict would lose; no condition on the references alone decides it. */
module NpmConflict {
  import opened Parser
  import opened Dependencies
  import opened Sorting
  import opened Npm
  import opened NpmOrder

  /** An entry with this reference and nested tree, below no other entry with it. */
  ghost predicate First(t: Tree, r: string, n: Tree)
    decreases t
  {
    exists name :: Entry(t, name) &&
      if RefAt(t, name) == r then NestedAt(t, name) == n else First(NestedAt(t, name), r, n)
  }

  /** Reached without the reference in conflict, or through this one of its nested trees. */
  ghost predicate Through(t: Tree, r: string, n: Tree, q: string) { Reaches(t, q, r) || Reaches(n, q, r) }

  /** What a walk adds: without the conflicting reference before it, it looks into one of its entries, if any. */
  ghost predicate Adds(t: Tree, r: string, was: set<string>, now: set<string>) {
    if r in was || r !in now then forall q :: q in now - was ==> Reaches(t, q, r)
    else exists n :: First(t, r, n) && ChildrenSeen(n, now) && forall q :: q in now - was ==> Through(t, r, n, q)
  }

  lemma AddsMore(t: Tree, r: string, a: set<string>, b: set<string>, c: set<string>)
    requires a <= b <= c && Adds(t, r, a, b) && Adds(t, r, b, c)
    ensures Adds(t, r, a, c)
  {
    if r !in a && r in b {
      var n :| First(t, r, n) && ChildrenSeen(n, b) && forall q :: q in b - a ==> Through(t, r, n, q);
      assert ChildrenSeen(n, c);
    } else if r !in a && r in c {
      var n :| First(t, r, n) && ChildrenSeen(n, c) && forall q :: q in c - b ==> Through(t, r, n, q);
    }
  }

  /** What the walk of a new entry's nested tree adds, seen from above. */
  lemma AddsBelow(t: Tree, name: string, r: string, was: set<string>, now: set<string>)
    requires Entry(t, name) && RefAt(t, name) !in was && was + {RefAt(t, name)} <= now
    requires Adds(NestedAt(t, name), r, was + {RefAt(t, name)}, now) && ChildrenSeen(NestedAt(t, name), now)
    ensures Adds(t, r, was, now)
  {
    var own, n := RefAt(t, name), NestedAt(t, name);
    assert Reaches(t, own, r);
    if own == r {
      assert First(t, r, n);
    } else {
      assert forall q :: Reaches(n, q, r) ==> Reaches(t, q, r);
      if r !in was && r in now {
        var deeper :| First(n, r, deeper) && ChildrenSeen(deeper, now) &&
          forall q :: q in now - (was + {own}) ==> Through(n, r, deeper, q);
        assert First(t, r, deeper);
        forall q | q in now - was ensures Through(t, r, deeper, q) {
          assert q != own ==> Through(n, r, deeper, q);
        }
      }
    }
  }

  lemma {:induction false} EntryAdds(t: Tree, name: string, r: string, was: Progress, now: Progress)
    requires Recorded(was.seen, was.tools) && name in t.children && VisitsEntry(t, name, was, now)
    ensures was.seen <= now.seen && Adds(t, r, was.seen, now.seen)
    decreases t, 0, 0
  {
    EntryExtends(t, name, was, now);
    if Entry(t, name) && RefAt(t, name) !in was.seen {
      var n, version := NestedAt(t, name), t.children[name].version;
      RecordedAppends(was.seen, was.tools, MakeToolRef(name, version));
      if n.children != map[] {
        var own := WithEntry(was, name, version);
        WalkAdds(n, r, own, now);
        WalkExtends(n, own, now);
      }
      AddsBelow(t, name, r, was.seen, now.seen);
    }
  }

  lemma {:induction false} VisitsAdds(t: Tree, names: seq<string>, r: string, was: Progress, now: Progress)
    requires Recorded(was.seen, was.tools) && (forall n :: n in names ==> n in t.children) && Visits(t, names, was, now)
    ensures was.seen <= now.seen && Adds(t, r, was.seen, now.seen)
    decreases t, 0, |names|
  {
    if names != [] {
      var mid: Progress :| VisitsEntry(t, names[0], was, mid) && Visits(t, names[1..], mid, now);
      EntryExtends(t, names[0], was, mid);
      EntryAdds(t, names[0], r, was, mid);
      VisitsAdds(t, names[1..], r, mid, now);
      AddsMore(t, r, was.seen, mid.seen, now.seen);
    }
  }

  lemma {:induction false} WalkAdds(t: Tree, r: string, was: Progress, now: Progress)
    requires Recorded(was.seen, was.tools) && Walks(t, was, now)
    ensures was.seen <= now.seen && Adds(t, r, was.seen, now.seen)
    decreases t, 1, 0
  {
    var order :| IsOrder(order, t.children.Keys) && Visits(t, order, was, now);
    VisitsAdds(t, order, r, was, now);
  }

  // ---------------------------------------------------------------- the outcome, when one reference is in conflict

  lemma {:induction false} FirstCarries(t: Tree, r: string, n: Tree)
    requires First(t, r, n)
    ensures Carries(t, r, n) && Reaches(t, r, r)
    decreases t
  {
    var name :| Entry(t, name) &&
      if RefAt(t, name) == r then NestedAt(t, name) == n else First(NestedAt(t, name), r, n);
    if RefAt(t, name) != r {
      FirstCarries(NestedAt(t, name), r, n);
    }
  }

  lemma {:induction false} WithoutConflict(t: Tree, r: string, q: string)
    requires !Reaches(t, r, r)
    ensures Reaches(t, q, r) <==> Reachable(t, q)
    decreases t
  {
    forall name | Entry(t, name) ensures Reaches(NestedAt(t, name), q, r) <==> Reachable(NestedAt(t, name), q) {
      assert RefAt(t, name) != r && !Reaches(NestedAt(t, name), r, r);
      WithoutConflict(NestedAt(t, name), r, q);
    }
    assert forall name :: Entry(t, name) ==> |RefAt(t, name)| > 0 && RefAt(t, name) != r;
  }

  /** What a walk collects: everything that is reached without the conflicting reference, and what one of its
      first entries reaches. */
  lemma Outcome(t: Tree, r: string, tools: seq<ToolRef>) returns (n: Tree)
    requires ConsistentBut(t, r) && Walked(t, tools) && Reaches(t, r, r)
    ensures First(t, r, n) && forall q :: q in RefsOf(tools) <==> Through(t, r, n, q)
  {
    var seen :| Walks(t, START, Progress(seen, tools));
    var reach :| Agrees(t, r, reach);
    WalkExtends(t, START, Progress(seen, tools));
    WalkAdds(t, r, START, Progress(seen, tools));
    ReachedBelow(t, r, reach, seen, t, r);
    n :| First(t, r, n) && ChildrenSeen(n, seen) && forall q :: q in seen - {} ==> Through(t, r, n, q);
    FirstCarries(t, r, n);
    AgreesAt(t, r, reach, r, n);
    forall q | Through(t, r, n, q) ensures q in seen {
      if Reaches(t, q, r) {
        ReachedBelow(t, r, reach, seen, t, q);
      } else {
        ReachedBelow(t, r, reach, seen, n, q);
      }
    }
  }

  /** A walk that looks into this nested tree of the conflicting reference and into no other. */
  ghost predicate Steered(t: Tree, r: string, n: Tree, was: set<string>, now: set<string>) {
    was + {r} <= now && ChildrenSeen(n, now) && forall q :: q in now - was ==> Through(t, r, n, q)
  }

  /** Every first entry can come first. */
  lemma {:induction false} SteerTo(t: Tree, r: string, reach: map<string, set<string>>, n: Tree, was: Progress)
    returns (now: Progress)
    requires Agrees(t, r, reach) && First(t, r, n) && Recorded(was.seen, was.tools)
    requires forall q :: q in was.seen ==> !Reaches(t, q, r)
    ensures Walks(t, was, now) && Steered(t, r, n, was.seen, now.seen)
    decreases t
  {
    var name :| Entry(t, name) &&
      if RefAt(t, name) == r then NestedAt(t, name) == n else First(NestedAt(t, name), r, n);
    assert Reaches(t, RefAt(t, name), r);
    var mid: Progress;
    if RefAt(t, name) == r {
      mid := SomeEntry(t, name, was);
      EntryLooksInto(t, name, was, mid);
    } else {
      BelowIsNew(t, r, reach, name, was);
      mid := SteerTo(NestedAt(t, name), r, reach, n, WithEntry(was, name, t.children[name].version));
      SteeredAbove(t, r, name, n, was.seen, mid.seen);
      FirstCarries(NestedAt(t, name), r, n);
    }
    now := CompletedWithout(t, r, name, was, mid);
  }

  lemma SteeredAbove(t: Tree, r: string, name: string, n: Tree, was: set<string>, now: set<string>)
    requires Entry(t, name) && RefAt(t, name) != r
    requires Steered(NestedAt(t, name), r, n, was + {RefAt(t, name)}, now)
    ensures Steered(t, r, n, was, now)
  {
    forall q | q in now - was ensures Through(t, r, n, q) {
      assert Reaches(t, RefAt(t, name), r);
      assert q != RefAt(t, name) ==> Through(NestedAt(t, name), r, n, q);
    }
  }

  lemma BelowIsNew(t: Tree, r: string, reach: map<string, set<string>>, name: string, was: Progress)
    requires Agrees(t, r, reach) && Recorded(was.seen, was.tools) && Entry(t, name) && RefAt(t, name) != r
    requires forall q :: q in was.seen ==> !Reaches(t, q, r)
    ensures var own := WithEntry(was, name, t.children[name].version);
            Recorded(own.seen, own.tools) && forall q :: q in own.seen ==> !Reaches(NestedAt(t, name), q, r)
  {
    assert Reaches(t, RefAt(t, name), r);
    RecordedAppends(was.seen, was.tools, ToolAt(t, name));
    NotItself(NestedAt(t, name), r, reach, RefAt(t, name));
    assert forall q :: Reaches(NestedAt(t, name), q, r) ==> Reaches(t, q, r);
  }

  /** The conflicting entry itself adds what its nested tree reaches. */
  lemma EntryLooksInto(t: Tree, name: string, was: Progress, now: Progress)
    requires Recorded(was.seen, was.tools) && Entry(t, name) && VisitsEntry(t, name, was, now)
    requires RefAt(t, name) !in was.seen
    ensures Steered(t, RefAt(t, name), NestedAt(t, name), was.seen, now.seen)
  {
    var r, n, version := RefAt(t, name), NestedAt(t, name), t.children[name].version;
    RecordedAppends(was.seen, was.tools, MakeToolRef(name, version));
    if n.children != map[] {
      WalkAdds(n, r, WithEntry(was, name, version), now);
      WalkExtends(n, WithEntry(was, name, version), now);
    }
    assert Reaches(t, r, r);
  }

  /** The rest of the walk adds nothing through the conflicting reference once it has been seen. */
  lemma CompletedWithout(t: Tree, r: string, name: string, was: Progress, mid: Progress) returns (now: Progress)
    requires Recorded(was.seen, was.tools) && name in t.children && VisitsEntry(t, name, was, mid) && r in mid.seen
    ensures Walks(t, was, now) && mid.seen <= now.seen && forall q :: q in now.seen - mid.seen ==> Reaches(t, q, r)
  {
    var rest := OrderExists(t.children.Keys - {name});
    now := SomeVisits(t, rest, mid);
    EntryExtends(t, name, was, mid);
    VisitsAdds(t, rest, r, mid, now);
    var order := [name] + rest;
    assert order[0] == name && order[1..] == rest && IsOrder(order, t.children.Keys);
  }

  /** And each is an outcome: some order collects exactly what is reached without the reference in conflict, or
      through this entry of it. */
  lemma CanHappen(t: Tree, r: string, n: Tree) returns (tools: seq<ToolRef>)
    requires ConsistentBut(t, r) && First(t, r, n)
    ensures Walked(t, tools) && forall q :: q in RefsOf(tools) <==> Through(t, r, n, q)
  {
    var reach :| Agrees(t, r, reach);
    var now := SteerTo(t, r, reach, n, START);
    WalkExtends(t, START, now);
    tools := now.tools;
    assert Walks(t, START, Progress(now.seen, tools));
    FirstCarries(t, r, n);
    AgreesAt(t, r, reach, r, n);
    forall q | Through(t, r, n, q) ensures q in now.seen {
      if Reaches(t, q, r) {
        ReachedBelow(t, r, reach, now.seen, t, q);
      } else {
        ReachedBelow(t, r, reach, now.seen, n, q);
      }
    }
  }

  /** No order loses a dependency. */
  ghost predicate NothingLost(t: Tree) {
    forall tools :: Walked(t, tools) ==> forall q :: q in RefsOf(tools) <==> Reachable(t, q)
  }

  /** Each first entry with the reference reaches whatever is not reached without them. */
  ghost predicate FirstsReachAll(t: Tree, r: string) {
    forall n, q :: First(t, r, n) && Reachable(t, q) ==> Through(t, r, n, q)
  }

  lemma CompleteExactly(t: Tree, r: string)
    requires ConsistentBut(t, r)
    ensures NothingLost(t) <==> FirstsReachAll(t, r)
  {
    if NothingLost(t) {
      forall n, q | First(t, r, n) && Reachable(t, q) ensures Through(t, r, n, q) {
        var tools := CanHappen(t, r, n);
        assert q in RefsOf(tools);
      }
    }
    if FirstsReachAll(t, r) {
      forall tools | Walked(t, tools) ensures forall q :: q in RefsOf(tools) <==> Reachable(t, q) {
        CompleteIf(t, r, tools);
      }
    }
  }

  lemma CompleteIf(t: Tree, r: string, tools: seq<ToolRef>)
    requires ConsistentBut(t, r) && Walked(t, tools)
    requires FirstsReachAll(t, r)
    ensures forall q :: q in RefsOf(tools) <==> Reachable(t, q)
  {
    WalkedExactly(t, tools);
    if Reaches(t, r, r) {
      var n := Outcome(t, r, tools);
    } else {
      AllReached(t, r, tools);
    }
  }

  lemma AllReached(t: Tree, r: string, tools: seq<ToolRef>)
    requires ConsistentBut(t, r) && Walked(t, tools) && !Reaches(t, r, r)
    ensures forall q :: q in RefsOf(tools) <==> Reachable(t, q)
  {
    var seen :| Walks(t, START, Progress(seen, tools));
    var reach :| Agrees(t, r, reach);
    WalkExtends(t, START, Progress(seen, tools));
    WalkedExactly(t, tools);
    forall q | Reachable(t, q) ensures q in seen {
      WithoutConflict(t, r, q);
      ReachedBelow(t, r, reach, seen, t, q);
    }
  }

  ghost predicate SameRefs(a: seq<ToolRef>, b: seq<ToolRef>) { forall q :: q in RefsOf(a) <==> q in RefsOf(b) }

  /** No order of the maps shows in the references. */
  ghost predicate OrderHidden(t: Tree) { forall a, b :: Walked(t, a) && Walked(t, b) ==> SameRefs(a, b) }

  /** What one first entry with the reference reaches, each other one does, or it is reached without them. */
  ghost predicate NothingAtStake(t: Tree, r: string) {
    forall m, n, q :: First(t, r, m) && First(t, r, n) && Reaches(m, q, r) ==> Through(t, r, n, q)
  }

  /** Every order collects the same references exactly if nothing is at stake between the first entries. */
  lemma OrderHiddenExactly(t: Tree, r: string)
    requires ConsistentBut(t, r)
    ensures OrderHidden(t) <==> NothingAtStake(t, r)
  {
    if OrderHidden(t) {
      forall m, n, q | First(t, r, m) && First(t, r, n) && Reaches(m, q, r) ensures Through(t, r, n, q) {
        var a := CanHappen(t, r, m);
        var b := CanHappen(t, r, n);
        assert SameRefs(a, b) && q in RefsOf(a);
      }
    }
    if NothingAtStake(t, r) {
      forall a, b | Walked(t, a) && Walked(t, b) ensures SameRefs(a, b) {
        SameOutcome(t, r, a, b);
      }
    }
  }

  lemma SameOutcome(t: Tree, r: string, a: seq<ToolRef>, b: seq<ToolRef>)
    requires ConsistentBut(t, r) && Walked(t, a) && Walked(t, b) && NothingAtStake(t, r)
    ensures SameRefs(a, b)
  {
    if Reaches(t, r, r) {
      var m := Outcome(t, r, a);
      var n := Outcome(t, r, b);
      forall q ensures Through(t, r, m, q) <==> Through(t, r, n, q) {
      }
    } else {
      AllReached(t, r, a);
      AllReached(t, r, b);
    }
  }

  /** In a separate tree the same references are the same tools, and so the same file. */
  lemma FilesAgree(t: Tree, rawA: seq<ToolRef>, a: WorkflowFile, rawB: seq<ToolRef>, b: WorkflowFile)
    requires Separate(t) && Walked(t, rawA) && Finishes(rawA, a) && Walked(t, rawB) && Finishes(rawB, b)
    ensures SameRefs(rawA, rawB) <==> a.tools == b.tools
  {
    SeparateExactly(t);
    FinishedMembers(rawA, JOB, a.tools);
    FinishedMembers(rawB, JOB, b.tools);
    if SameRefs(rawA, rawB) {
      SameTools(t, rawA, rawB);
      SameTools(t, rawB, rawA);
      SameFile(rawA, a, rawB, b);
    }
  }

  // ---------------------------------------------------------------- an input whose order shows

  const LEAF := Tree(map[])

  function Only(name: string, nested: Tree): Tree { Tree(map[name := Dep("1", nested)]) }

  /** x at 1 stands at the top, with y at 1 nested in it, and again, with nothing nested in it, below b at 1. */
  const HOISTED := Tree(map["x" := Dep("1", Only("y", LEAF)), "b" := Dep("1", Only("x", LEAF))])

  /** Every entry, however deep, is at version 1. */
  predicate AllAtOne(t: Tree) {
    forall name :: name in t.children ==> t.children[name].version == "1" && AllAtOne(t.children[name].nested)
  }

  lemma {:induction false} PlainIfAllAtOne(t: Tree, tool: ToolRef)
    requires AllAtOne(t) && FromTree(t, tool)
    ensures tool.version == "1"
    decreases t
  {
    var name :| Entry(t, name) && (tool == ToolAt(t, name) || FromTree(NestedAt(t, name), tool));
    if tool != ToolAt(t, name) {
      PlainIfAllAtOne(NestedAt(t, name), tool);
    }
  }

  lemma LeafReachesNothing(q: string, cut: string)
    ensures !Reaches(LEAF, q, cut)
  {
  }

  lemma OnlyReaches(name: string, q: string, cut: string)
    ensures Entry(Only(name, LEAF), name) && RefAt(Only(name, LEAF), name) == Ref(name, "1")
    ensures Reaches(Only(name, LEAF), q, cut) <==> q == Ref(name, "1")
  {
    assert forall other :: Entry(Only(name, LEAF), other) <==> other == name;
    LeafReachesNothing(q, cut);
    assert NestedAt(Only(name, LEAF), name) == LEAF;
  }

  lemma HoistedEntries()
    ensures forall name :: Entry(HOISTED, name) <==> name in {"x", "b"}
    ensures RefAt(HOISTED, "x") == "x@1" && NestedAt(HOISTED, "x") == Only("y", LEAF)
    ensures RefAt(HOISTED, "b") == "b@1" && NestedAt(HOISTED, "b") == Only("x", LEAF)
  {
    assert Ref("x", "1") == "x@1" && Ref("b", "1") == "b@1";
  }

  lemma HoistedAgrees()
    ensures ConsistentBut(HOISTED, "x@1")
  {
    HoistedEntries();
    var reach: map<string, set<string>> := map["b@1" := {"x@1"}, "y@1" := {}];
    assert Ref("x", "1") == "x@1" && Ref("y", "1") == "y@1";
    OnlyAgrees("x", "x@1", reach);
    OnlyAgrees("y", "x@1", reach);
    forall q ensures Reaches(Only("x", LEAF), q, "x@1") <==> q in reach["b@1"] {
      OnlyReaches("x", q, "x@1");
    }
    assert Agrees(HOISTED, "x@1", reach);
  }

  lemma OnlyAgrees(name: string, cut: string, reach: map<string, set<string>>)
    requires Ref(name, "1") == cut || (Ref(name, "1") in reach && reach[Ref(name, "1")] == {})
    ensures Agrees(Only(name, LEAF), cut, reach)
  {
    assert forall other :: Entry(Only(name, LEAF), other) ==> other == name;
    forall q ensures !Reaches(LEAF, q, cut) {
      LeafReachesNothing(q, cut);
    }
    assert Agrees(LEAF, cut, reach);
  }

  lemma HoistedIsSeparate()
    ensures Separate(HOISTED)
  {
    forall tool ensures FromTree(HOISTED, tool) ==> '@' !in tool.version {
      if FromTree(HOISTED, tool) {
        PlainIfAllAtOne(HOISTED, tool);
      }
    }
    PlainVersionsAreSeparate(HOISTED);
  }

  lemma HoistedFirsts()
    ensures First(HOISTED, "x@1", Only("y", LEAF)) && First(HOISTED, "x@1", LEAF)
  {
    HoistedEntries();
    OnlyReaches("x", "x@1", "x@1");
    assert Entry(HOISTED, "x") && Entry(HOISTED, "b");
    assert NestedAt(Only("x", LEAF), "x") == LEAF;
    assert First(Only("x", LEAF), "x@1", LEAF);
  }

  lemma HoistedReaches()
    ensures Reachable(HOISTED, "y@1") && Reaches(Only("y", LEAF), "y@1", "x@1") && !Through(HOISTED, "x@1", LEAF, "y@1")
  {
    HoistedEntries();
    assert Entry(HOISTED, "x");
    OnlyReaches("y", "y@1", NOWHERE);
    OnlyReaches("y", "y@1", "x@1");
    OnlyReaches("x", "y@1", "x@1");
    LeafReachesNothing("y@1", "x@1");
  }

  /** One order collects y at 1, another never does, and no at-sign is to blame. */
  lemma NestingLosesPackage() returns (a: seq<ToolRef>, b: seq<ToolRef>)
    ensures Separate(HOISTED) && !Consistent(HOISTED) && Reachable(HOISTED, "y@1")
    ensures Walked(HOISTED, a) && "y@1" in RefsOf(a)
    ensures Walked(HOISTED, b) && "y@1" !in RefsOf(b)
  {
    HoistedIsSeparate();
    HoistedAgrees();
    HoistedFirsts();
    HoistedReaches();
    a := CanHappen(HOISTED, "x@1", Only("y", LEAF));
    b := CanHappen(HOISTED, "x@1", LEAF);
    WalkedExactly(HOISTED, b);
  }
}
