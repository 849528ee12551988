/** When the order in which the maps of an npm lockfile are walked shows in its tools, for trees in which equal
    references reach the same references: exactly when two packages of the tree share a reference. Other trees
    are the subject of NpmConflict. */
module NpmOrder {
  import opened Parser
  import opened Dependencies
  import opened Sorting
  import opened Text
  import opened Npm

  lemma {:induction false} FromTreeIsMade(t: Tree, tool: ToolRef)
    requires FromTree(t, tool)
    ensures tool == MakeToolRef(tool.name, tool.version)
    decreases t
  {
    var name :| Entry(t, name) && (tool == ToolAt(t, name) || FromTree(NestedAt(t, name), tool));
    if tool != ToolAt(t, name) {
      FromTreeIsMade(NestedAt(t, name), tool);
    }
  }

  /** No two tools of the tree share a reference by an at-sign. */
  ghost predicate Separate(t: Tree) {
    forall a, b :: FromTree(t, a) && FromTree(t, b) ==> !Shadows(a, b)
  }

  ghost predicate ReferencesDetermine(t: Tree) {
    forall a, b :: FromTree(t, a) && FromTree(t, b) && a.reference == b.reference ==> a == b
  }

  /** References determine the records of a tree exactly if it is separate. */
  lemma SeparateExactly(t: Tree)
    ensures Separate(t) <==> ReferencesDetermine(t)
  {
    if Separate(t) {
      forall a, b | FromTree(t, a) && FromTree(t, b) && a.reference == b.reference ensures a == b {
        ToolsShareExactly(t, a, b);
      }
    } else {
      var a, b :| FromTree(t, a) && FromTree(t, b) && Shadows(a, b);
      ToolsShareExactly(t, a, b);
    }
  }

  lemma ToolsShareExactly(t: Tree, a: ToolRef, b: ToolRef)
    requires FromTree(t, a) && FromTree(t, b)
    ensures a.reference == b.reference && a != b <==> Shadows(a, b) || Shadows(b, a)
  {
    FromTreeIsMade(t, a);
    FromTreeIsMade(t, b);
    SameReferenceExactly(a, b);
    assert a.name == b.name && a.version == b.version ==> a == b;
  }

  /** No version in the tree contains an at-sign, as in every published package. */
  ghost predicate PlainVersions(t: Tree) { forall tool :: FromTree(t, tool) ==> '@' !in tool.version }

  lemma PlainVersionsAreSeparate(t: Tree)
    requires PlainVersions(t)
    ensures Separate(t)
  {
    forall a, b | FromTree(t, a) && FromTree(t, b) ensures !Shadows(a, b) {
      if Shadows(a, b) {
        ContinuesBySeparator(a.name, a.version, b.name, b.version, '@');
      }
    }
  }

  // ---------------------------------------------------------------- walks can be steered

  lemma OrderExists(keys: set<string>) returns (order: seq<string>)
    ensures IsOrder(order, keys)
    decreases |keys|
  {
    if keys == {} {
      return [];
    }
    var k :| k in keys;
    var rest := OrderExists(keys - {k});
    order := [k] + rest;
    assert forall name :: name in order <==> name == k || name in rest;
  }

  /** A walk can be continued in any order. */
  lemma {:induction false} SomeVisits(t: Tree, names: seq<string>, was: Progress) returns (now: Progress)
    requires forall n :: n in names ==> n in t.children
    ensures Visits(t, names, was, now)
    decreases t, 0, |names|
  {
    if names == [] {
      return was;
    }
    var mid := SomeEntry(t, names[0], was);
    now := SomeVisits(t, names[1..], mid);
  }

  lemma {:induction false} SomeEntry(t: Tree, name: string, was: Progress) returns (now: Progress)
    requires name in t.children
    ensures VisitsEntry(t, name, was, now)
    decreases t, 0, 0
  {
    var dep := t.children[name];
    if dep.version == "" || Ref(name, dep.version) in was.seen {
      return was;
    }
    now := WithEntry(was, name, dep.version);
    if dep.nested.children != map[] {
      var order := OrderExists(dep.nested.children.Keys);
      now := SomeVisits(dep.nested, order, now);
    }
  }

  /** Every tool of a consistent tree is collected by some walk, whatever shares its reference. */
  lemma {:induction false} CanComeFirst(t: Tree, reach: map<string, set<string>>, tool: ToolRef, was: Progress)
    returns (now: Progress)
    requires Agrees(t, NOWHERE, reach) && FromTree(t, tool) && Recorded(was.seen, was.tools)
    requires forall r :: r in was.seen ==> !Reachable(t, r)
    ensures Walks(t, was, now) && tool in now.tools
    decreases t
  {
    var name :| Entry(t, name) && (tool == ToolAt(t, name) || FromTree(NestedAt(t, name), tool));
    var r, n, version := RefAt(t, name), NestedAt(t, name), t.children[name].version;
    var mid := WithEntry(was, name, version);
    assert Reachable(t, r) && |r| > 0;
    RecordedAppends(was.seen, was.tools, MakeToolRef(name, version));
    if tool == MakeToolRef(name, version) {
      mid := SomeEntry(t, name, was);
      EntryKeeps(t, name, was, mid);
    } else {
      NotItself(n, NOWHERE, reach, r);
      mid := CanComeFirst(n, reach, tool, mid);
    }
    now := Completed(t, name, was, mid);
  }

  /** A walk that starts with this entry. */
  lemma Completed(t: Tree, name: string, was: Progress, mid: Progress) returns (now: Progress)
    requires Recorded(was.seen, was.tools) && name in t.children && VisitsEntry(t, name, was, mid)
    ensures Walks(t, was, now) && mid.tools <= now.tools
  {
    var rest := OrderExists(t.children.Keys - {name});
    now := SomeVisits(t, rest, mid);
    EntryExtends(t, name, was, mid);
    VisitsExtends(t, rest, mid, now);
    var order := [name] + rest;
    assert order[0] == name && order[1..] == rest && IsOrder(order, t.children.Keys);
  }

  /** A new entry is among the tools from then on. */
  lemma EntryKeeps(t: Tree, name: string, was: Progress, now: Progress)
    requires Recorded(was.seen, was.tools) && Entry(t, name) && VisitsEntry(t, name, was, now)
    requires RefAt(t, name) !in was.seen
    ensures ToolAt(t, name) in now.tools
  {
    var dep := t.children[name];
    var own := WithEntry(was, name, dep.version);
    RecordedAppends(was.seen, was.tools, MakeToolRef(name, dep.version));
    assert own.tools[|was.tools|] == MakeToolRef(name, dep.version);
    if dep.nested.children != map[] {
      WalkExtends(dep.nested, own, now);
    }
  }

  // ---------------------------------------------------------------- exactly when the order shows

  /** Where equal references reach the same references, all orders collect the same tools exactly if no two of
      them share a reference; otherwise some order loses one. */
  lemma OrderShowsExactly(t: Tree)
    requires Consistent(t)
    ensures Separate(t) <==> forall a, b :: Walked(t, a) && Walked(t, b) ==> Members(a) == Members(b)
  {
    SeparateExactly(t);
    if Separate(t) {
      forall a, b | Walked(t, a) && Walked(t, b) ensures Members(a) == Members(b) {
        WalkedExactly(t, a);
        WalkedExactly(t, b);
        SameTools(t, a, b);
        SameTools(t, b, a);
      }
    } else {
      var x, y :| FromTree(t, x) && FromTree(t, y) && x.reference == y.reference && x != y;
      var a, b := OneOrTheOther(t, x, y);
      assert x in Members(a) && x !in Members(b);
    }
  }

  lemma SameTools(t: Tree, a: seq<ToolRef>, b: seq<ToolRef>)
    requires ReferencesDetermine(t) && Walked(t, a) && Walked(t, b)
    requires forall r :: r in RefsOf(a) ==> r in RefsOf(b)
    ensures forall x :: x in a ==> x in b
  {
    WalkedExactly(t, a);
    WalkedExactly(t, b);
    forall x | x in a ensures x in b {
      SharedReference(a, b, x);
      var y :| y in b && y.reference == x.reference;
    }
  }

  /** Of two tools with one reference, each is collected by some walk, and then the other is lost. */
  lemma OneOrTheOther(t: Tree, x: ToolRef, y: ToolRef) returns (a: seq<ToolRef>, b: seq<ToolRef>)
    requires Consistent(t) && FromTree(t, x) && FromTree(t, y) && x.reference == y.reference && x != y
    ensures Walked(t, a) && x in a && y !in a
    ensures Walked(t, b) && y in b && x !in b
  {
    var reach :| Agrees(t, NOWHERE, reach);
    var first := CanComeFirst(t, reach, x, START);
    var second := CanComeFirst(t, reach, y, START);
    a, b := first.tools, second.tools;
    assert Walks(t, START, Progress(first.seen, a)) && Walks(t, START, Progress(second.seen, b));
    WalkedExactly(t, a);
    WalkedExactly(t, b);
    OnlyOne(a, x, y);
    OnlyOne(b, y, x);
  }

  /** So every order of the maps of a separate tree gives the same file. */
  lemma OrderDoesNotMatter(t: Tree, rawA: seq<ToolRef>, a: WorkflowFile, rawB: seq<ToolRef>, b: WorkflowFile)
    requires Consistent(t) && Separate(t)
    requires Walked(t, rawA) && Finishes(rawA, a) && Walked(t, rawB) && Finishes(rawB, b)
    ensures a.tools == b.tools
  {
    OrderShowsExactly(t);
    SameFile(rawA, a, rawB, b);
  }

  lemma SameFile(rawA: seq<ToolRef>, a: WorkflowFile, rawB: seq<ToolRef>, b: WorkflowFile)
    requires Members(rawA) == Members(rawB) && Finishes(rawA, a) && Finishes(rawB, b)
    ensures a.tools == b.tools
  {
    FinishedMembers(rawA, JOB, a.tools);
    FinishedMembers(rawB, JOB, b.tools);
    forall tool ensures tool in Members(a.tools) <==> tool in Members(b.tools) {
      assert forall raw :: raw in rawA <==> raw in Members(rawA);
      assert forall raw :: raw in rawB <==> raw in Members(rawB);
    }
    StrictlySortedUnique(RefKey, a.tools, b.tools);
  }

  /** In the tree of a at b@c and a@b at c, one order lists only the first package, the other only the second. */
  lemma AtSignLosesPackage()
    ensures var leaf := Tree(map[]);
            var t := Tree(map["a" := Dep("b@c", leaf), "a@b" := Dep("c", leaf)]);
            var x, y := MakeToolRef("a", "b@c"), MakeToolRef("a@b", "c");
            x != y && Walked(t, [x]) && Walked(t, [y])
  {
    var leaf := Tree(map[]);
    var t := Tree(map["a" := Dep("b@c", leaf), "a@b" := Dep("c", leaf)]);
    var x, y := MakeToolRef("a", "b@c"), MakeToolRef("a@b", "c");
    assert |x.name| != |y.name|;
    assert Ref("a", "b@c") == "a@b@c" == Ref("a@b", "c");
    TwoEntries(t, "a", "a@b");
    TwoEntries(t, "a@b", "a");
  }

  lemma TwoEntries(t: Tree, first: string, second: string)
    requires t.children.Keys == {first, second} && first != second
    requires t.children[first].version != "" && t.children[first].nested == Tree(map[])
    requires Ref(first, t.children[first].version) == Ref(second, t.children[second].version)
    ensures Walked(t, [ToolAt(t, first)])
  {
    var order := [first, second];
    var mid := WithEntry(START, first, t.children[first].version);
    assert VisitsEntry(t, first, START, mid) && VisitsEntry(t, second, mid, mid);
    assert order[1..] == [second] && order[1..][1..] == [];
    assert Visits(t, [], mid, mid) && Visits(t, order[1..], mid, mid) && Visits(t, order, START, mid);
    assert IsOrder(order, t.children.Keys);
    assert Walks(t, START, Progress(mid.seen, mid.tools)) && mid.tools == [ToolAt(t, first)];
  }
}
