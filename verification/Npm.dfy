/** The npm lockfile of version 1: a tree of dependencies walked with one shared set of seen references. */
module Npm {
  import opened Wrappers
  import opened Parser
  import opened Dependencies
  import opened Sorting
  import opened Text

  datatype Tree = Tree(children: map<string, Dep>)

  datatype Dep = Dep(version: string, nested: Tree)

  function Ref(name: string, version: string): string { name + "@" + version }

  /** makeNPMToolRef: a scoped name has the scope as its owner. */
  function MakeToolRef(name: string, version: string): ToolRef {
    var slash := IndexByte(name, '/');
    var owner := if HasPrefix(name, "@") && slash >= 0 then name[..slash] else "";
    ToolRef("npm", Ref(name, version), owner, name, version, "", "")
  }

  /** A scope, with its at-sign, is the owner; a name without one has none. */
  lemma ScopeIsOwner(scope: string, name: string, version: string)
    requires '/' !in scope
    ensures MakeToolRef(scope + "/" + name, version).owner == if HasPrefix(scope, "@") then scope else ""
  {
    var full := scope + "/" + name;
    assert full[|scope|] == '/' && full[..|scope|] == scope;
    assert forall i :: 0 <= i < |scope| ==> full[i] == scope[i];
    assert IndexByte(full, '/') == |scope|;
    assert full[..1] == if scope == "" then "/" else scope[..1];
  }

  /** A versioned entry of the map. */
  predicate Entry(t: Tree, name: string) { name in t.children && t.children[name].version != "" }

  function RefAt(t: Tree, name: string): string
    requires Entry(t, name)
  {
    Ref(name, t.children[name].version)
  }

  function ToolAt(t: Tree, name: string): ToolRef
    requires Entry(t, name)
  {
    MakeToolRef(name, t.children[name].version)
  }

  function NestedAt(t: Tree, name: string): (n: Tree)
    requires Entry(t, name)
    ensures n < t
  {
    t.children[name].nested
  }

  /** q is the reference of a versioned entry that can be reached through versioned entries, none of which on
      the way carries the reference cut. */
  ghost predicate Reaches(t: Tree, q: string, cut: string)
    decreases t
  {
    exists name :: Entry(t, name) &&
      (RefAt(t, name) == q || (RefAt(t, name) != cut && Reaches(NestedAt(t, name), q, cut)))
  }

  /** No reference is blank, so this cuts nothing. */
  const NOWHERE := ""

  ghost predicate Reachable(t: Tree, q: string) { Reaches(t, q, NOWHERE) }

  /** A versioned entry somewhere in the tree has this reference and this nested tree. */
  ghost predicate Carries(t: Tree, r: string, n: Tree)
    decreases t
  {
    exists name :: Entry(t, name) &&
      ((RefAt(t, name) == r && NestedAt(t, name) == n) || Carries(NestedAt(t, name), r, n))
  }

  /** Equal references, cut apart, have nested trees that reach the same references without passing through cut. */
  ghost predicate Agrees(t: Tree, cut: string, reach: map<string, set<string>>)
    decreases t
  {
    forall name :: Entry(t, name) ==>
      && Agrees(NestedAt(t, name), cut, reach)
      && (RefAt(t, name) != cut ==>
            RefAt(t, name) in reach &&
            forall q :: Reaches(NestedAt(t, name), q, cut) <==> q in reach[RefAt(t, name)])
  }

  ghost predicate ConsistentBut(t: Tree, cut: string) { exists reach :: Agrees(t, cut, reach) }

  /** Equal references have nested trees that reach the same references. */
  ghost predicate Consistent(t: Tree) { ConsistentBut(t, NOWHERE) }

  /** A tool collected for a versioned entry of the tree. */
  ghost predicate FromTree(t: Tree, tool: ToolRef)
    decreases t
  {
    exists name :: Entry(t, name) &&
      (tool == ToolAt(t, name) || FromTree(NestedAt(t, name), tool))
  }

  // ---------------------------------------------------------------- the walk, in any order of the maps

  /** What the walk shares between its calls. */
  datatype Progress = Progress(seen: set<string>, tools: seq<ToolRef>)

  /** A walk over the tree, each map in some order, can lead from was to now. */
  ghost predicate Walks(t: Tree, was: Progress, now: Progress)
    decreases t, 1, 0
  {
    exists order :: IsOrder(order, t.children.Keys) && Visits(t, order, was, now)
  }

  /** The same for the entries with these names, in this order. */
  ghost predicate Visits(t: Tree, names: seq<string>, was: Progress, now: Progress)
    requires forall name :: name in names ==> name in t.children
    decreases t, 0, |names|
  {
    if names == [] then now == was
    else exists mid: Progress :: VisitsEntry(t, names[0], was, mid) && Visits(t, names[1..], mid, now)
  }

  function WithEntry(was: Progress, name: string, version: string): Progress {
    Progress(was.seen + {Ref(name, version)}, was.tools + [MakeToolRef(name, version)])
  }

  ghost predicate VisitsEntry(t: Tree, name: string, was: Progress, now: Progress)
    requires name in t.children
    decreases t, 0, 0
  {
    var dep := t.children[name];
    if dep.version == "" || Ref(name, dep.version) in was.seen then now == was
    else if dep.nested.children == map[] then now == WithEntry(was, name, dep.version)
    else Walks(dep.nested, WithEntry(was, name, dep.version), now)
  }

  lemma {:induction false} VisitsOneMore(t: Tree, names: seq<string>, name: string, was: Progress, mid: Progress,
                                         now: Progress)
    requires (forall n :: n in names ==> n in t.children) && name in t.children
    requires Visits(t, names, was, mid) && VisitsEntry(t, name, mid, now)
    ensures Visits(t, names + [name], was, now)
    decreases |names|
  {
    var all := names + [name];
    if names == [] {
      assert all[0] == name && all[1..] == [] && Visits(t, [], now, now);
    } else {
      var next: Progress :| VisitsEntry(t, names[0], was, next) && Visits(t, names[1..], next, mid);
      VisitsOneMore(t, names[1..], name, next, mid, now);
      assert all[0] == names[0] && all[1..] == names[1..] + [name];
    }
  }

  class Walker {
    var seen: set<string>
    var tools: seq<ToolRef>

    constructor ()
      ensures seen == {} && tools == []
    {
      seen, tools := {}, [];
    }

    ghost function Now(): Progress
      reads this
    {
      Progress(seen, tools)
    }

    /** collectV1Deps. */
    method Collect(t: Tree)
      modifies this
      ensures Walks(t, old(Now()), Now())
      decreases t, 1
    {
      var left := t.children.Keys;
      ghost var order: seq<string> := [];
      while left != {}
        invariant left <= t.children.Keys && IsOrder(order, t.children.Keys - left)
        invariant Visits(t, order, old(Now()), Now())
        decreases |left|
      {
        var name :| name in left;
        left := left - {name};
        ghost var before := Now();
        CollectEntry(t, name);
        VisitsOneMore(t, order, name, old(Now()), before, Now());
        order := order + [name];
      }
      assert t.children.Keys - left == t.children.Keys;
    }

    /** The body of the loop: one entry of the map. */
    method CollectEntry(t: Tree, name: string)
      requires name in t.children
      modifies this
      ensures VisitsEntry(t, name, old(Now()), Now())
      decreases t, 0
    {
      var dep := t.children[name];
      if dep.version == "" {
        return;
      }
      var ref := name + "@" + dep.version;
      if ref in seen {
        return;
      }
      seen := seen + {ref};
      tools := tools + [MakeToolRef(name, dep.version)];
      if dep.nested.children != map[] {
        Collect(dep.nested);
      }
    }
  }

  // ---------------------------------------------------------------- what every walk does, whatever the tree

  /** The tools appended to the list come from the tree. */
  ghost predicate Grown(t: Tree, was: seq<ToolRef>, now: seq<ToolRef>) {
    was <= now && forall i :: |was| <= i < |now| ==> FromTree(t, now[i])
  }

  ghost predicate ChildrenSeen(t: Tree, seen: set<string>) { forall name :: Entry(t, name) ==> RefAt(t, name) in seen }

  /** Some entry with the reference has been looked into. */
  ghost predicate Settled(t: Tree, r: string, seen: set<string>) {
                          exists n :: Carries(t, r, n) && ChildrenSeen(n, seen) }

  /** Only tools of the tree are added, each reference once, and every new reference is settled. */
  ghost predicate Extends(t: Tree, was: Progress, now: Progress) {
    && Recorded(now.seen, now.tools) && was.seen <= now.seen && Grown(t, was.tools, now.tools)
    && forall r :: r in now.seen - was.seen ==> Settled(t, r, now.seen)
  }

  lemma SettledIn(t: Tree, name: string, r: string, seen: set<string>)
    requires Entry(t, name) && Settled(NestedAt(t, name), r, seen)
    ensures Settled(t, r, seen)
  {
    var n :| Carries(NestedAt(t, name), r, n) && ChildrenSeen(n, seen);
    assert Carries(t, r, n);
  }

  lemma SettledStays(t: Tree, r: string, seen: set<string>, more: set<string>)
    requires Settled(t, r, seen) && seen <= more
    ensures Settled(t, r, more)
  {
    var n :| Carries(t, r, n) && ChildrenSeen(n, seen);
    assert ChildrenSeen(n, more);
  }

  lemma GrownIn(t: Tree, name: string, was: seq<ToolRef>, now: seq<ToolRef>)
    requires Entry(t, name) && Grown(NestedAt(t, name), was + [ToolAt(t, name)], now)
    ensures Grown(t, was, now)
  {
  }

  lemma GrownTwice(t: Tree, a: seq<ToolRef>, b: seq<ToolRef>, c: seq<ToolRef>)
    requires Grown(t, a, b) && Grown(t, b, c)
    ensures Grown(t, a, c)
  {
    forall i | |a| <= i < |c| ensures FromTree(t, c[i]) {
      assert i < |b| ==> c[i] == b[i];
    }
  }

  lemma {:induction false} EntryExtends(t: Tree, name: string, was: Progress, now: Progress)
    requires Recorded(was.seen, was.tools) && name in t.children && VisitsEntry(t, name, was, now)
    ensures Extends(t, was, now) && (Entry(t, name) ==> RefAt(t, name) in now.seen)
    decreases t, 0, 0
  {
    if Entry(t, name) && RefAt(t, name) !in was.seen {
      var r, n, version := RefAt(t, name), NestedAt(t, name), t.children[name].version;
      var own := WithEntry(was, name, version);
      RecordedAppends(was.seen, was.tools, MakeToolRef(name, version));
      if n.children != map[] {
        WalkExtends(n, own, now);
      }
      GrownIn(t, name, was.tools, now.tools);
      assert Carries(t, r, n);
      forall q | q in now.seen - was.seen ensures Settled(t, q, now.seen) {
        if q != r {
          SettledIn(t, name, q, now.seen);
        }
      }
    }
  }

  lemma {:induction false} VisitsExtends(t: Tree, names: seq<string>, was: Progress, now: Progress)
    requires Recorded(was.seen, was.tools) && (forall n :: n in names ==> n in t.children) && Visits(t, names, was, now)
    ensures Extends(t, was, now) && forall name :: name in names && Entry(t, name) ==> RefAt(t, name) in now.seen
    decreases t, 0, |names|
  {
    if names != [] {
      var mid: Progress :| VisitsEntry(t, names[0], was, mid) && Visits(t, names[1..], mid, now);
      EntryExtends(t, names[0], was, mid);
      VisitsExtends(t, names[1..], mid, now);
      GrownTwice(t, was.tools, mid.tools, now.tools);
      forall r | r in now.seen - was.seen ensures Settled(t, r, now.seen) {
        if r in mid.seen {
          SettledStays(t, r, mid.seen, now.seen);
        }
      }
      assert forall name :: name in names <==> name == names[0] || name in names[1..];
    }
  }

  lemma {:induction false} WalkExtends(t: Tree, was: Progress, now: Progress)
    requires Recorded(was.seen, was.tools) && Walks(t, was, now)
    ensures Extends(t, was, now) && ChildrenSeen(t, now.seen)
    decreases t, 1, 0
  {
    var order :| IsOrder(order, t.children.Keys) && Visits(t, order, was, now);
    VisitsExtends(t, order, was, now);
  }

  // ---------------------------------------------------------------- what it reaches if references agree

  lemma {:induction false} FromTreeIsReachable(t: Tree, tool: ToolRef)
    requires FromTree(t, tool)
    ensures Reachable(t, tool.reference)
    decreases t
  {
    var name :| Entry(t, name) && (tool == ToolAt(t, name) || FromTree(NestedAt(t, name), tool));
    if tool != ToolAt(t, name) {
      FromTreeIsReachable(NestedAt(t, name), tool);
    }
    assert |RefAt(t, name)| > 0;
  }

  lemma {:induction false} ReachesCarries(t: Tree, q: string, cut: string) returns (n: Tree)
    requires Reaches(t, q, cut)
    ensures Carries(t, q, n) && n < t
    decreases t
  {
    var name :| Entry(t, name) &&
      (RefAt(t, name) == q || (RefAt(t, name) != cut && Reaches(NestedAt(t, name), q, cut)));
    n := NestedAt(t, name);
    if RefAt(t, name) != q {
      n := ReachesCarries(n, q, cut);
    }
  }

  lemma {:induction false} AgreesAt(t: Tree, cut: string, reach: map<string, set<string>>, r: string, n: Tree)
    requires Agrees(t, cut, reach) && Carries(t, r, n)
    ensures Agrees(n, cut, reach)
    ensures r != cut ==> r in reach && forall q :: Reaches(n, q, cut) <==> q in reach[r]
    decreases t
  {
    var name :| Entry(t, name) && ((RefAt(t, name) == r && NestedAt(t, name) == n) || Carries(NestedAt(t, name), r, n));
    if !(RefAt(t, name) == r && NestedAt(t, name) == n) {
      AgreesAt(NestedAt(t, name), cut, reach, r, n);
    }
  }

  /** No reference reaches itself: the trees are finite. */
  lemma {:induction false} NotItself(n: Tree, cut: string, reach: map<string, set<string>>, r: string)
    requires Agrees(n, cut, reach) && r != cut && r in reach && forall q :: Reaches(n, q, cut) <==> q in reach[r]
    ensures !Reaches(n, r, cut)
    decreases n
  {
    if Reaches(n, r, cut) {
      var deeper := ReachesCarries(n, r, cut);
      AgreesAt(n, cut, reach, r, deeper);
      NotItself(deeper, cut, reach, r);
    }
  }

  /** Whatever a settled reference reaches without cut has been seen. */
  lemma {:induction false} SettledReaches(t: Tree, cut: string, reach: map<string, set<string>>, seen: set<string>,
                                          r: string, q: string)
    requires Agrees(t, cut, reach) && forall x :: x in seen ==> Settled(t, x, seen)
    requires r in seen && r != cut && r in reach && q in reach[r]
    ensures q in seen
    decreases |reach[r]|
  {
    var n :| Carries(t, r, n) && ChildrenSeen(n, seen);
    AgreesAt(t, cut, reach, r, n);
    var name :| Entry(n, name) &&
      (RefAt(n, name) == q || (RefAt(n, name) != cut && Reaches(NestedAt(n, name), q, cut)));
    var child := RefAt(n, name);
    if child != q {
      ReachShrinks(n, cut, reach, r, name);
      SettledReaches(t, cut, reach, seen, child, q);
    }
  }

  lemma ReachShrinks(n: Tree, cut: string, reach: map<string, set<string>>, r: string, name: string)
    requires Agrees(n, cut, reach) && r in reach && forall q :: Reaches(n, q, cut) <==> q in reach[r]
    requires Entry(n, name) && RefAt(n, name) != cut
    ensures RefAt(n, name) in reach && |reach[RefAt(n, name)]| < |reach[r]|
  {
    var child := RefAt(n, name);
    NotItself(NestedAt(n, name), cut, reach, child);
    assert Reaches(n, child, cut);
    forall q | q in reach[child] ensures q in reach[r] {
      assert Reaches(n, q, cut);
    }
    SmallerSet(reach[child], reach[r], child);
  }

  lemma SmallerSet(a: set<string>, b: set<string>, x: string)
    requires a <= b && x in b && x !in a
    ensures |a| < |b|
  {
    assert a <= b - {x};
    SubsetSize(a, b - {x});
  }

  lemma {:induction false} SubsetSize(a: set<string>, b: set<string>)
    requires a <= b
    ensures |a| <= |b|
  {
    if a != {} {
      var x :| x in a;
      SubsetSize(a - {x}, b - {x});
    }
  }

  /** So has whatever a tree reaches whose entries have been. */
  lemma ReachedBelow(t: Tree, cut: string, reach: map<string, set<string>>, seen: set<string>, n: Tree, q: string)
    requires Agrees(t, cut, reach) && forall x :: x in seen ==> Settled(t, x, seen)
    requires Agrees(n, cut, reach) && ChildrenSeen(n, seen) && Reaches(n, q, cut)
    ensures q in seen
  {
    var name :| Entry(n, name) &&
      (RefAt(n, name) == q || (RefAt(n, name) != cut && Reaches(NestedAt(n, name), q, cut)));
    if RefAt(n, name) != q {
      SettledReaches(t, cut, reach, seen, RefAt(n, name), q);
    }
  }

  const START := Progress({}, [])

  /** Some walk from the start collects exactly this list. */
  ghost predicate Walked(t: Tree, tools: seq<ToolRef>) {
    exists seen :: Walks(t, START, Progress(seen, tools))
  }

  /** The walk is sound in every order, and complete if equal references reach the same references: those it
      collects are then exactly the reachable ones, each once. */
  lemma WalkedExactly(t: Tree, tools: seq<ToolRef>)
    requires Walked(t, tools)
    ensures Distinct(RefsOf(tools)) && forall tool :: tool in tools ==> FromTree(t, tool)
    ensures forall r :: r in RefsOf(tools) ==> Reachable(t, r)
    ensures Consistent(t) ==> forall r :: r in RefsOf(tools) <==> Reachable(t, r)
  {
    var seen :| Walks(t, START, Progress(seen, tools));
    WalkExtends(t, START, Progress(seen, tools));
    forall r | r in RefsOf(tools) ensures Reachable(t, r) {
      var i :| 0 <= i < |tools| && tools[i].reference == r;
      FromTreeIsReachable(t, tools[i]);
    }
    if Consistent(t) {
      var reach :| Agrees(t, NOWHERE, reach);
      forall r | Reachable(t, r) ensures r in RefsOf(tools) {
        ReachedBelow(t, NOWHERE, reach, seen, t, r);
      }
    }
  }

  const JOB := "npm-install"

  /** The file a walk's tools end up in. */
  ghost predicate Finishes(tools: seq<ToolRef>, wf: WorkflowFile) {
    StrictlySorted(RefKey, wf.tools) && multiset(wf.tools) == multiset(LabelAll(tools, JOB))
  }

  /** The tree names this package at this version: at the top, or nested in packages that all have versions. */
  ghost predicate Names(t: Tree, name: string, version: string)
    decreases t
  {
    exists key :: key in t.children && var dep := t.children[key];
      dep.version != "" && ((key == name && dep.version == version) || Names(dep.nested, name, version))
  }

  lemma {:induction false} FromTreeNames(t: Tree, tool: ToolRef)
    requires FromTree(t, tool)
    ensures Names(t, tool.name, tool.version) && tool.ecosystem == "npm"
    ensures tool.reference == tool.name + "@" + tool.version
    decreases t
  {
    var name :| Entry(t, name) && (tool == ToolAt(t, name) || FromTree(NestedAt(t, name), tool));
    if tool != ToolAt(t, name) {
      FromTreeNames(NestedAt(t, name), tool);
    }
  }

  lemma {:induction false} NamedIsReachable(t: Tree, name: string, version: string)
    requires Names(t, name, version)
    ensures Reachable(t, name + "@" + version)
    decreases t
  {
    var key :| key in t.children && t.children[key].version != "" &&
      ((key == name && t.children[key].version == version) || Names(t.children[key].nested, name, version));
    assert Entry(t, key) && |RefAt(t, key)| > 0;
    if !(key == name && t.children[key].version == version) {
      NamedIsReachable(t.children[key].nested, name, version);
    }
  }

  /** A scope, up to the first slash, is the owner of a scoped name. */
  ghost predicate OwnerOf(name: string, owner: string) {
    if name != "" && name[0] == '@' && '/' in name then '/' !in owner && owner + "/" <= name else owner == ""
  }

  lemma OwnerIsScope(name: string, version: string)
    ensures OwnerOf(name, MakeToolRef(name, version).owner)
  {
    assert HasPrefix(name, "@") <==> name != "" && name[0] == '@' by {
      assert name != "" ==> name[..1] == [name[0]];
    }
    var slash := IndexByte(name, '/');
    assert slash >= 0 ==> name[..slash] + "/" == name[..slash + 1];
  }

  lemma {:induction false} FromTreeOwner(t: Tree, tool: ToolRef)
    requires FromTree(t, tool)
    ensures OwnerOf(tool.name, tool.owner)
    decreases t
  {
    var name :| Entry(t, name) && (tool == ToolAt(t, name) || FromTree(NestedAt(t, name), tool));
    if tool != ToolAt(t, name) {
      FromTreeOwner(NestedAt(t, name), tool);
    } else {
      OwnerIsScope(name, t.children[name].version);
    }
  }

  /** A tool record as makeNPMToolRef fills it, for a package the tree names. */
  ghost predicate ToolNamed(t: Tree, tool: ToolRef) {
    && tool.ecosystem == "npm" && tool.reference == tool.name + "@" + tool.version
    && Names(t, tool.name, tool.version) && OwnerOf(tool.name, tool.owner)
  }

  /** parseNPMV1Dependencies. */
  method ParseV1(t: Tree) returns (tools: seq<ToolRef>)
    ensures Walked(t, tools)
    ensures Distinct(RefsOf(tools)) && forall tool :: tool in tools ==> FromTree(t, tool) && ToolNamed(t, tool)
    ensures Consistent(t) ==> forall r :: r in RefsOf(tools) <==> Reachable(t, r)
    ensures Consistent(t) ==> forall name, version :: Names(t, name, version) ==> name + "@" + version in RefsOf(tools)
  {
    var walker := new Walker();
    walker.Collect(t);
    tools := walker.tools;
    WalkedExactly(t, tools);
    forall tool | tool in tools ensures ToolNamed(t, tool) {
      FromTreeNames(t, tool);
      FromTreeOwner(t, tool);
    }
    forall name, version | Consistent(t) && Names(t, name, version) ensures name + "@" + version in RefsOf(tools) {
      NamedIsReachable(t, name, version);
    }
  }

  /** Parse for a file that has no packages map: every tool is a package the tree names, each reference once; and where
      equal references reach the same references, every package the tree names is listed under its reference. */
  method Parse(path: string, t: Tree) returns (wf: WorkflowFile)
    ensures StepsCover(wf) && wf.unsupported == []
    ensures FileOf(wf, path, "npm", "npm-install") && StrictlySorted(RefKey, wf.tools)
    ensures exists tools :: Walked(t, tools) && Finishes(tools, wf)
    ensures forall tool :: tool in wf.tools ==> Names(t, tool.name, tool.version) && OwnerOf(tool.name, tool.owner)
    ensures Consistent(t) ==>
              forall name, version :: Names(t, name, version) ==> name + "@" + version in RefsOf(wf.tools)
  {
    var tools := ParseV1(t);
    wf := FinishFile(path, "npm", JOB, tools, []);
    FinishedMembers(tools, JOB, wf.tools);
  }
}
