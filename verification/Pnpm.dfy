/** The pnpm lockfile: keys split into name and version, and the loop over the packages map. */
module Pnpm {
  import opened Wrappers
  import opened Text
  import opened Parser
  import opened Dependencies
  import opened Sorting
  import Npm

  /** The key without the leading slash and the peer suffix. */
  function Peeled(key: string): string {
    var trimmed := TrimPrefix(key, "/");
    var paren := IndexByte(trimmed, '(');
    if paren >= 0 then trimmed[..paren] else trimmed
  }

  /** splitPNPMKey. */
  function SplitKey(key: string): Option<(string, string)> {
    var bare := Peeled(key);
    var at := LastIndexByte(bare, '@');
    if at <= 0 then None
    else
      var name, version := bare[..at], bare[at + 1..];
      if name == "" || version == "" then None else Some((name, version))
  }

  function WriteKey(slash: bool, name: string, version: string, peers: string): string {
    (if slash then "/" else "") + (name + "@" + version) + peers
  }

  /** A peer suffix is empty or starts with its parenthesis. */
  predicate IsPeers(peers: string) { peers == "" || peers[0] == '(' }

  lemma CutAtPeers(bare: string, peers: string)
    requires '(' !in bare && IsPeers(peers)
    ensures var i := IndexByte(bare + peers, '(');
            (if i >= 0 then (bare + peers)[..i] else bare + peers) == bare
  {
    var s := bare + peers;
    var i := IndexByte(s, '(');
    assert forall k :: 0 <= k < |bare| ==> s[k] == bare[k];
    assert peers != "" ==> s[|bare|] == '(';
    if peers == "" {
      assert s == bare;
    }
  }

  lemma CutAtVersion(name: string, version: string)
    requires '@' !in version
    ensures var s := name + "@" + version;
            LastIndexByte(s, '@') == |name| && s[..|name|] == name && s[|name| + 1..] == version
  {
    var s := name + "@" + version;
    assert s[|name|] == '@';
    assert forall k :: |name| < k < |s| ==> s[k] == version[k - |name| - 1];
  }

  lemma SplitPeeled(key: string, name: string, version: string)
    requires Peeled(key) == name + "@" + version && '@' !in version
    ensures SplitKey(key) == if name == "" || version == "" then None else Some((name, version))
  {
    CutAtVersion(name, version);
  }

  /** The slash that is written, or else one that the name starts with, is the one that goes. */
  lemma PeeledKey(slash: bool, name: string, version: string, peers: string)
    requires '(' !in name && '(' !in version && IsPeers(peers)
    ensures Peeled(WriteKey(slash, name, version, peers)) ==
            (if !slash && name != "" && name[0] == '/' then name[1..] else name) + "@" + version
  {
    var key, bare := WriteKey(slash, name, version, peers), name + "@" + version;
    if slash {
      assert key[..1] == "/" && key[1..] == bare + peers;
      CutAtPeers(bare, peers);
    } else if name != "" && name[0] == '/' {
      var short := name[1..] + "@" + version;
      assert key[..1] == "/" && key[1..] == short + peers;
      CutAtPeers(short, peers);
    } else {
      assert key == bare + peers && key[..1] == [bare[0]];
      CutAtPeers(bare, peers);
    }
  }

  /** The key gives name and version back exactly when both are non-empty and the name, if no slash is
      written before it, does not start with one. */
  lemma KeyRoundTrip(slash: bool, name: string, version: string, peers: string)
    requires '(' !in name && '(' !in version && '@' !in version && IsPeers(peers)
    ensures SplitKey(WriteKey(slash, name, version, peers)) == Some((name, version)) <==>
            name != "" && version != "" && (slash || name[0] != '/')
  {
    PeeledKey(slash, name, version, peers);
    SplitPeeled(WriteKey(slash, name, version, peers),
                if !slash && name != "" && name[0] == '/' then name[1..] else name, version);
  }

  /** Whatever is split is a key of that form: nothing is made up, and the version has no at-sign. */
  lemma SplitIsSound(key: string) returns (slash: bool, peers: string)
    requires SplitKey(key).Some?
    ensures var (name, version) := SplitKey(key).value;
            && key == WriteKey(slash, name, version, peers) && IsPeers(peers) && name != "" && version != ""
            && '@' !in version && '(' !in name && '(' !in version && (slash || name[0] != '/')
  {
    slash, peers := PeeledIsCut(key);
    var bare := Peeled(key);
    var at := LastIndexByte(bare, '@');
    SplitAt(bare, at);
    Reassociate(if slash then "/" else "", bare, peers);
  }

  lemma PeeledIsCut(key: string) returns (slash: bool, peers: string)
    ensures key == (if slash then "/" else "") + (Peeled(key) + peers) && IsPeers(peers) && '(' !in Peeled(key)
  {
    slash := HasPrefix(key, "/");
    var trimmed := TrimPrefix(key, "/");
    var paren := IndexByte(trimmed, '(');
    peers := if paren >= 0 then trimmed[paren..] else "";
    assert trimmed == Peeled(key) + peers;
    assert key == (if slash then "/" else "") + trimmed;
  }

  lemma SplitAt(bare: string, at: int)
    requires 0 < at < |bare| && bare[at] == '@'
    ensures bare == bare[..at] + "@" + bare[at + 1..]
  {
  }

  lemma Reassociate(a: string, b: string, c: string)
    ensures a + b + c == a + (b + c)
  {
  }

  /** A key as pnpm writes it. */
  ghost predicate IsPackageKey(key: string) {
    exists slash, name, version, peers ::
      && '(' !in name && '(' !in version && '@' !in version && IsPeers(peers)
      && key == WriteKey(slash, name, version, peers)
      && name != "" && version != "" && (slash || name[0] != '/')
  }

  /** A locked package becomes a tool exactly if it has an integrity hash and a key as pnpm writes it. */
  lemma CoveredExactly(key: string, pkg: Package)
    ensures Classify(key, pkg).Tool? <==> pkg.integrity != "" && IsPackageKey(key)
  {
    if SplitKey(key).Some? {
      var slash, peers := SplitIsSound(key);
    }
    if slash, name, version, peers :|
        && '(' !in name && '(' !in version && '@' !in version && IsPeers(peers)
        && key == WriteKey(slash, name, version, peers)
        && name != "" && version != "" && (slash || name[0] != '/') {
      KeyRoundTrip(slash, name, version, peers);
    }
  }

  datatype Package = Package(integrity: string)

  const NO_HASH := "not a registry dependency (directory, link or git): no integrity hash to compare"
  const BAD_KEY := "unsupported pnpm key format"

  /** What becomes of one entry of the packages map. */
  function Classify(key: string, pkg: Package): (o: Outcome)
    ensures !o.Ignored?
  {
    if pkg.integrity == "" then Skipped(UnsupportedRef("npm", key, NO_HASH))
    else match SplitKey(key)
      case None => Skipped(UnsupportedRef("npm", key, BAD_KEY))
      case Some((name, version)) => Tool(Npm.MakeToolRef(name, version))
  }

  function Outcomes(packages: map<string, Package>, order: seq<string>): seq<Outcome>
    requires forall key :: key in order ==> key in packages
  {
    seq(|order|, i requires 0 <= i < |order| => Classify(order[i], packages[order[i]]))
  }

  /** What the loop makes of the map in some order of its keys. */
  ghost predicate Collected(packages: map<string, Package>, tools: seq<ToolRef>, unsupported: seq<UnsupportedRef>) {
    exists order :: IsOrder(order, packages.Keys) &&
      tools == Kept(Outcomes(packages, order)) && unsupported == ReportsIn(Outcomes(packages, order))
  }

  lemma OneMoreKey(packages: map<string, Package>, order: seq<string>, key: string)
    requires (forall k :: k in order ==> k in packages) && key in packages
    ensures var o, front := Classify(key, packages[key]), Outcomes(packages, order);
            var now := Outcomes(packages, order + [key]);
            && Kept(now) == (if o.Tool? && o.tool.reference !in RefsOf(Kept(front)) then Kept(front) + [o.tool]
                             else Kept(front))
            && ReportsIn(now) == if o.Skipped? then ReportsIn(front) + [o.ref] else ReportsIn(front)
  {
    assert Outcomes(packages, order + [key]) == Outcomes(packages, order) + [Classify(key, packages[key])];
    OneMoreOutcome(Outcomes(packages, order), Classify(key, packages[key]));
  }

  /** The loop over the map. */
  method Collect(packages: map<string, Package>) returns (tools: seq<ToolRef>, unsupported: seq<UnsupportedRef>)
    ensures Collected(packages, tools, unsupported)
  {
    var seen: set<string> := {};
    tools, unsupported := [], [];
    var left := packages.Keys;
    ghost var order: seq<string> := [];
    while left != {}
      invariant left <= packages.Keys && IsOrder(order, packages.Keys - left) && Recorded(seen, tools)
      invariant tools == Kept(Outcomes(packages, order)) && unsupported == ReportsIn(Outcomes(packages, order))
      decreases |left|
    {
      var key :| key in left;
      left := left - {key};
      OneMoreKey(packages, order, key);
      order := order + [key];
      var pkg := packages[key];
      if pkg.integrity == "" {
        unsupported := unsupported + [UnsupportedRef("npm", key, NO_HASH)];
        continue;
      }
      var split := SplitKey(key);
      if split.None? {
        unsupported := unsupported + [UnsupportedRef("npm", key, BAD_KEY)];
        continue;
      }
      var (name, version) := split.value;
      var ref := name + "@" + version;
      if ref in seen {
        continue;
      }
      RecordedAppends(seen, tools, Npm.MakeToolRef(name, version));
      seen := seen + {ref};
      tools := tools + [Npm.MakeToolRef(name, version)];
    }
    assert packages.Keys - left == packages.Keys;
  }

  ghost predicate Yields(packages: map<string, Package>, o: Outcome) {
    exists key :: key in packages && Classify(key, packages[key]) == o
  }

  /** A reference determines the record, because no split version has an at-sign. */
  lemma ReferenceDeterminesTool(packages: map<string, Package>, a: ToolRef, b: ToolRef)
    requires Yields(packages, Tool(a)) && Yields(packages, Tool(b)) && a.reference == b.reference
    ensures a == b
  {
    var k :| k in packages && Classify(k, packages[k]) == Tool(a);
    var l :| l in packages && Classify(l, packages[l]) == Tool(b);
    var slashA, peersA := SplitIsSound(k);
    var slashB, peersB := SplitIsSound(l);
    assert a.name + ['@'] + a.version == b.name + ['@'] + b.version;
    SplitAtLast(a.name, a.version, b.name, b.version, '@');
  }

  /** In any order nothing is lost and nothing is made up: every tool of the map is kept, once per reference, and
      every other key is reported, once. */
  lemma CollectedExactly(packages: map<string, Package>, tools: seq<ToolRef>, unsupported: seq<UnsupportedRef>)
    requires Collected(packages, tools, unsupported)
    ensures forall t :: t in tools <==> Yields(packages, Tool(t))
    ensures forall u :: u in unsupported <==> Yields(packages, Skipped(u))
    ensures Distinct(RefsOf(tools)) && Distinct(unsupported)
  {
    var order :| IsOrder(order, packages.Keys) &&
      tools == Kept(Outcomes(packages, order)) && unsupported == ReportsIn(Outcomes(packages, order));
    var os := Outcomes(packages, order);
    KeptFacts(os);
    ReportsFacts(os);
    YieldsInOrder(packages, order);
    ReportsDiffer(packages, order);
    forall t | Yields(packages, Tool(t)) ensures t in tools {
      var i :| 0 <= i < |tools| && RefsOf(tools)[i] == t.reference;
      assert tools[i] in tools;
      ReferenceDeterminesTool(packages, tools[i], t);
    }
  }

  lemma YieldsInOrder(packages: map<string, Package>, order: seq<string>)
    requires IsOrder(order, packages.Keys)
    ensures forall o :: o in Outcomes(packages, order) <==> Yields(packages, o)
  {
    var os := Outcomes(packages, order);
    forall o ensures o in os <==> Yields(packages, o) {
      if o in os {
        var i :| 0 <= i < |os| && os[i] == o;
        assert order[i] in packages;
      }
      if key :| key in packages && Classify(key, packages[key]) == o {
        var i :| 0 <= i < |order| && order[i] == key;
        assert os[i] == o;
      }
    }
  }

  lemma ReportsDiffer(packages: map<string, Package>, order: seq<string>)
    requires IsOrder(order, packages.Keys)
    ensures var os := Outcomes(packages, order);
            forall i, j :: 0 <= i < j < |os| && os[i].Skipped? ==> os[i] != os[j]
  {
    forall key, pkg ensures Classify(key, pkg).Skipped? ==> Classify(key, pkg).ref.raw == key {
    }
  }

  /** The key of a package with an integrity hash names this package at this version. */
  ghost predicate Names(packages: map<string, Package>, name: string, version: string) {
    exists key :: key in packages && packages[key].integrity != "" && SplitKey(key) == Some((name, version))
  }

  /** What is reported, and why: first of all a missing integrity hash. */
  ghost predicate ReportOf(packages: map<string, Package>, key: string, u: UnsupportedRef) {
    && key in packages && u.ecosystem == "npm" && u.raw == key
    && if packages[key].integrity == "" then
         u.reason == "not a registry dependency (directory, link or git): no integrity hash to compare"
       else SplitKey(key) == None && u.reason == "unsupported pnpm key format"
  }

  /** The file lists exactly the packages that keys with an integrity hash name, once per reference, and reports
      every other key. */
  method Parse(path: string, packages: map<string, Package>) returns (wf: WorkflowFile)
    ensures StepsCover(wf) && exists tools :: Collected(packages, tools, wf.unsupported) && Npm.Finishes(tools, wf)
    ensures FileOf(wf, path, "npm", "npm-install") && StrictlySorted(RefKey, wf.tools)
    ensures forall t :: t in wf.tools ==> Names(packages, t.name, t.version) && Npm.OwnerOf(t.name, t.owner)
    ensures forall name, version :: Names(packages, name, version) ==> name + "@" + version in RefsOf(wf.tools)
    ensures Distinct(wf.unsupported)
    ensures forall u :: u in wf.unsupported <==> exists key :: ReportOf(packages, key, u)
  {
    var tools, unsupported := Collect(packages);
    CollectedExactly(packages, tools, unsupported);
    ToolsAreNamed(packages, tools);
    ReportsAre(packages);
    wf := FinishFile(path, "npm", Npm.JOB, tools, unsupported);
    FinishedMembers(tools, Npm.JOB, wf.tools);
  }

  ghost predicate ToolNamed(packages: map<string, Package>, t: ToolRef) {
    && t.ecosystem == "npm" && t.reference == t.name + "@" + t.version
    && Names(packages, t.name, t.version) && Npm.OwnerOf(t.name, t.owner)
  }

  lemma ToolsAreNamed(packages: map<string, Package>, tools: seq<ToolRef>)
    requires forall t :: t in tools <==> Yields(packages, Tool(t))
    ensures forall t :: t in tools ==> ToolNamed(packages, t)
    ensures forall name, version :: Names(packages, name, version) ==> name + "@" + version in RefsOf(tools)
  {
    forall t | t in tools ensures ToolNamed(packages, t) {
      var key :| key in packages && Classify(key, packages[key]) == Tool(t);
      Npm.OwnerIsScope(t.name, t.version);
    }
    forall name, version | Names(packages, name, version) ensures name + "@" + version in RefsOf(tools) {
      NamedIsListed(packages, tools, name, version);
    }
  }

  lemma NamedIsListed(packages: map<string, Package>, tools: seq<ToolRef>, name: string, version: string)
    requires Names(packages, name, version) && forall t :: t in tools <==> Yields(packages, Tool(t))
    ensures name + "@" + version in RefsOf(tools)
  {
    var key :| key in packages && packages[key].integrity != "" && SplitKey(key) == Some((name, version));
    var tool := Npm.MakeToolRef(name, version);
    assert Classify(key, packages[key]) == Tool(tool);
    assert tool in tools;
    var i :| 0 <= i < |tools| && tools[i] == tool;
    assert RefsOf(tools)[i] == name + "@" + version;
  }

  lemma ReportsAre(packages: map<string, Package>)
    ensures forall u :: Yields(packages, Skipped(u)) <==> exists key :: ReportOf(packages, key, u)
  {
    forall u ensures Yields(packages, Skipped(u)) <==> exists key :: ReportOf(packages, key, u) {
      if key :| key in packages && Classify(key, packages[key]) == Skipped(u) {
        assert ReportOf(packages, key, u);
      }
      if key :| ReportOf(packages, key, u) {
        assert Classify(key, packages[key]) == Skipped(u);
      }
    }
  }

  /** So every order of the map gives the same tools, and reports the same entries. */
  lemma OrderDoesNotMatter(packages: map<string, Package>, rawA: seq<ToolRef>, a: WorkflowFile, rawB: seq<ToolRef>,
                           b: WorkflowFile)
    requires Collected(packages, rawA, a.unsupported) && Npm.Finishes(rawA, a)
    requires Collected(packages, rawB, b.unsupported) && Npm.Finishes(rawB, b)
    ensures a.tools == b.tools && Members(a.unsupported) == Members(b.unsupported)
  {
    CollectedExactly(packages, rawA, a.unsupported);
    CollectedExactly(packages, rawB, b.unsupported);
    FinishedMembers(rawA, Npm.JOB, a.tools);
    FinishedMembers(rawB, Npm.JOB, b.tools);
    assert forall t :: t in a.tools <==> t in b.tools;
    StrictlySortedUnique(RefKey, a.tools, b.tools);
  }
}
