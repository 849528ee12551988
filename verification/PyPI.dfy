/** requirements.txt: each line becomes one tool, one unsupported entry, or is no requirement at all. */
module PyPI {
  import opened Text
  import opened Parser
  import opened Dependencies
  import opened Sorting
  import opened VersionSpec

  predicate IsPipOption(line: string) {
    || HasPrefix(line, "-r ") || HasPrefix(line, "-e ") || HasPrefix(line, "-c ")
    || HasPrefix(line, "-f ") || HasPrefix(line, "-i ") || HasPrefix(line, "--")
  }

  /** A line that declares something: not blank, not a comment, not an option for pip. */
  predicate IsRequirement(raw: string) {
    var line := TrimSpace(raw);
    line != "" && !HasPrefix(line, "#") && !IsPipOption(line)
  }

  function CutAt(line: string, mark: string): string {
    var i := Find(line, mark);
    if i >= 0 then TrimSpace(line[..i]) else line
  }

  function CutTightMarker(line: string): string {
    var i := IndexByte(line, ';');
    if i >= 0 && TrimSpace(line[..i]) != "" then TrimSpace(line[..i]) else line
  }

  function DropExtras(line: string): string {
    var open, close := IndexByte(line, '['), IndexByte(line, ']');
    if open >= 0 && close > open then line[..open] + line[close + 1..] else line
  }

  /** The line without comment, environment marker and extras. */
  function Requirement(line: string): string {
    DropExtras(CutTightMarker(CutAt(CutAt(line, " #"), " ;")))
  }

  const UNREADABLE := "no package and version could be read from this requirement"
  const RANGE := "version range: pin with == for a baseline entry, or record a resolved requirements file"

  function OutcomeOf(raw: string): Outcome {
    if !IsRequirement(raw) then Ignored
    else
      var line := Requirement(TrimSpace(raw));
      var spec := SplitSpec(line);
      if spec.name == "" then Skipped(UnsupportedRef("pypi", line, UNREADABLE))
      else if !spec.exact then Skipped(UnsupportedRef("pypi", line, RANGE))
      else Tool(IndexTool(spec.name, spec.version))
  }

  function Outcomes(lines: seq<string>): seq<Outcome> {
    seq(|lines|, i requires 0 <= i < |lines| => OutcomeOf(lines[i]))
  }

  function RequirementsOf(lines: seq<string>): seq<string> {
    if lines == [] then []
    else RequirementsOf(lines[..|lines| - 1]) + if IsRequirement(lines[|lines| - 1]) then [lines[|lines| - 1]] else []
  }

  lemma OneMoreLine(lines: seq<string>, i: nat)
    requires i < |lines|
    ensures var o, front, now := OutcomeOf(lines[i]), Outcomes(lines[..i]), Outcomes(lines[..i + 1]);
            && ToolsIn(now) == (if o.Tool? then ToolsIn(front) + [o.tool] else ToolsIn(front))
            && ReportsIn(now) == if o.Skipped? then ReportsIn(front) + [o.ref] else ReportsIn(front)
  {
    assert Outcomes(lines[..i + 1]) == Outcomes(lines[..i]) + [OutcomeOf(lines[i])];
    OneMoreOutcome(Outcomes(lines[..i]), OutcomeOf(lines[i]));
  }

  lemma {:induction false} AccountedUpTo(lines: seq<string>, n: nat)
    requires n <= |lines|
    ensures Answered(Outcomes(lines[..n])) == |RequirementsOf(lines[..n])|
  {
    if n > 0 {
      AccountedUpTo(lines, n - 1);
      OneMoreAnswered(Outcomes(lines[..n - 1]), OutcomeOf(lines[n - 1]));
      OneMoreRequirement(lines, n - 1);
      NextOutcomes(lines, n - 1);
    } else {
      assert lines[..0] == [];
    }
  }

  /** How many became a tool or a report. */
  function Answered(os: seq<Outcome>): nat { |ToolsIn(os)| + |ReportsIn(os)| }

  lemma OneMoreAnswered(front: seq<Outcome>, o: Outcome)
    ensures Answered(front + [o]) == Answered(front) + if o.Ignored? then 0 else 1
  {
    OneMoreOutcome(front, o);
  }

  lemma NextOutcomes(lines: seq<string>, i: nat)
    requires i < |lines|
    ensures Outcomes(lines[..i + 1]) == Outcomes(lines[..i]) + [OutcomeOf(lines[i])]
  {
  }

  lemma OneMoreRequirement(lines: seq<string>, i: nat)
    requires i < |lines|
    ensures |RequirementsOf(lines[..i + 1])| ==
            |RequirementsOf(lines[..i])| + if OutcomeOf(lines[i]).Ignored? then 0 else 1
  {
    assert lines[..i + 1][..i] == lines[..i];
  }

  /** No requirement is lost and none is counted twice. */
  lemma EveryRequirementAccounted(lines: seq<string>)
    ensures |ToolsIn(Outcomes(lines))| + |ReportsIn(Outcomes(lines))| == |RequirementsOf(lines)|
  {
    AccountedUpTo(lines, |lines|);
    assert lines[..|lines|] == lines;
  }

  /** The middle of the loop body: the line is rewritten step by step, first the comment and the markers. */
  method StripTail(raw: string) returns (line: string)
    ensures line == CutTightMarker(CutAt(CutAt(raw, " #"), " ;"))
  {
    line := raw;
    var comment := Find(line, " #");
    if comment >= 0 {
      line := TrimSpace(line[..comment]);
    }
    assert line == CutAt(raw, " #");
    var marker := Find(line, " ;");
    if marker >= 0 {
      line := TrimSpace(line[..marker]);
    }
    assert line == CutAt(CutAt(raw, " #"), " ;");
    var tight := IndexByte(line, ';');
    if tight >= 0 {
      var candidate := TrimSpace(line[..tight]);
      if candidate != "" {
        line := candidate;
      }
    }
  }

  /** Then the extras. */
  method Strip(raw: string) returns (line: string)
    ensures line == Requirement(raw)
  {
    line := StripTail(raw);
    var open := IndexByte(line, '[');
    if open >= 0 {
      var close := IndexByte(line, ']');
      if close > open {
        line := line[..open] + line[close + 1..];
      }
    }
  }

  /** The line loop. */
  method Collect(lines: seq<string>) returns (tools: seq<ToolRef>, unsupported: seq<UnsupportedRef>)
    ensures tools == ToolsIn(Outcomes(lines)) && unsupported == ReportsIn(Outcomes(lines))
  {
    tools, unsupported := [], [];
    for i := 0 to |lines|
      invariant tools == ToolsIn(Outcomes(lines[..i])) && unsupported == ReportsIn(Outcomes(lines[..i]))
    {
      OneMoreLine(lines, i);
      var line := TrimSpace(lines[i]);
      if line == "" || HasPrefix(line, "#") {
        continue;
      }
      if IsPipOption(line) {
        continue;
      }
      line := Strip(line);
      var name, version, exact := ParseVersionSpec(line);
      if name == "" {
        unsupported := unsupported + [UnsupportedRef("pypi", line, UNREADABLE)];
      } else if !exact {
        unsupported := unsupported + [UnsupportedRef("pypi", line, RANGE)];
      } else {
        tools := tools + [ToolRef("pypi", name + "@" + version, "", name, version, "", "")];
      }
    }
    assert lines[..|lines|] == lines;
  }

  lemma OutcomeAt(lines: seq<string>, o: Outcome)
    ensures o in Outcomes(lines) <==> exists i :: 0 <= i < |lines| && OutcomeOf(lines[i]) == o
  {
    if i :| 0 <= i < |lines| && OutcomeOf(lines[i]) == o {
      assert Outcomes(lines)[i] == o;
    }
  }

  lemma CollectedAre(lines: seq<string>)
    ensures forall t :: t in ToolsIn(Outcomes(lines)) <==>
              exists i :: 0 <= i < |lines| && OutcomeOf(lines[i]) == Tool(t)
    ensures forall t :: t in ToolsIn(Outcomes(lines)) ==>
              t.ecosystem == "pypi" && t.reference == t.name + "@" + t.version
    ensures forall u :: u in ReportsIn(Outcomes(lines)) <==>
              exists i :: 0 <= i < |lines| && OutcomeOf(lines[i]) == Skipped(u)
  {
    ToolsAreOutcomes(Outcomes(lines));
    forall t ensures t in ToolsIn(Outcomes(lines)) <==> exists i :: 0 <= i < |lines| && OutcomeOf(lines[i]) == Tool(t) {
      OutcomeAt(lines, Tool(t));
    }
    forall u
      ensures u in ReportsIn(Outcomes(lines)) <==> exists i :: 0 <= i < |lines| && OutcomeOf(lines[i]) == Skipped(u)
    {
      OutcomeAt(lines, Skipped(u));
    }
  }

  /** Parse: the tools come out as a sorted permutation, in one step; the rest in the order of the lines. */
  method Parse(path: string, lines: seq<string>) returns (wf: WorkflowFile)
    ensures Sorted(RefKey, wf.tools)
    ensures multiset(wf.tools) == multiset(LabelAll(ToolsIn(Outcomes(lines)), "pip-install"))
    ensures wf.unsupported == ReportsIn(Outcomes(lines)) && |wf.tools| + |wf.unsupported| == |RequirementsOf(lines)|
    ensures StepsCover(wf) && FileOf(wf, path, "pypi", "pip-install")
    ensures forall t :: t in wf.tools <==>
              exists i, raw :: 0 <= i < |lines| && OutcomeOf(lines[i]) == Tool(raw) &&
                               t == raw.(stepName := "dependencies", jobName := "pip-install")
    ensures forall u :: u in wf.unsupported <==> exists i :: 0 <= i < |lines| && OutcomeOf(lines[i]) == Skipped(u)
  {
    var tools, unsupported := Collect(lines);
    CollectedAre(lines);
    wf := FinishFile(path, "pypi", "pip-install", tools, unsupported);
    EveryRequirementAccounted(lines);
    assert |wf.tools| == |multiset(wf.tools)| == |LabelAll(tools, "pip-install")|;
  }

  // ---------------------------------------------------------------- a written requirement is read back

  /** What may follow a requirement: blanks, a comment after a blank, an environment marker. */
  predicate IsTail(t: string) {
    t == "" || t[0] == ';' || (t[0] == ' ' && (IsTail(t[1..]) || (|t| > 1 && t[1] == '#')))
  }

  predicate IsCore(s: string) { s != "" && SpaceFree(s) && ';' !in s }

  lemma {:induction false} PrefixIsTail(t: string, m: nat)
    requires IsTail(t) && m <= |t|
    ensures IsTail(t[..m])
  {
    if m > 1 && t[0] == ' ' && IsTail(t[1..]) {
      PrefixIsTail(t[1..], m - 1);
      assert t[1..][..m - 1] == t[..m][1..];
    }
  }

  /** Trimming a requirement takes something off its tail at most. */
  lemma {:induction false} TrimTail(core: string, t: string) returns (m: nat)
    requires IsCore(core)
    ensures m <= |t| && TrimSpace(core + t) == core + t[..m] && Ends(t[..m])
  {
    var s := core + t;
    assert s[0] == core[0];
    m := |t|;
    assert t[..m] == t;
    if t == "" {
      assert s == core;
    } else {
      assert s[|s| - 1] == t[|t| - 1];
      if IsSpace(t[|t| - 1]) {
        var short := t[..|t| - 1];
        assert s[..|s| - 1] == core + short;
        m := TrimTail(core, short);
        assert short[..m] == t[..m];
      }
    }
  }

  /** A cut at a mark that the core does not contain leaves the core and part of the tail. */
  lemma CutKeepsCore(core: string, t: string, mark: string) returns (m: nat)
    requires IsCore(core) && IsTail(t) && Ends(t) && |mark| == 2 && mark[0] == ' '
    ensures m <= |t| && CutAt(core + t, mark) == core + t[..m] && IsTail(t[..m]) && Ends(t[..m])
    ensures forall k :: !Occurs(core + t[..m], mark, k)
  {
    var line := core + t;
    var i := Find(line, mark);
    m := |t|;
    assert t[..m] == t;
    if i >= 0 {
      assert line[i..i + 2][0] == ' ';
      assert forall k :: 0 <= k < |core| ==> line[k] == core[k];
      var part := t[..i - |core|];
      assert line[..i] == core + part;
      m := TrimTail(core, part);
      assert part[..m] == t[..m];
      PrefixIsTail(t, m);
      NoneInPrefix(line, core + t[..m], mark, i);
    }
  }

  lemma NoneInPrefix(line: string, prefix: string, mark: string, first: nat)
    requires prefix <= line && |prefix| <= first && forall k :: 0 <= k < first ==> !Occurs(line, mark, k)
    requires mark != ""
    ensures forall k :: !Occurs(prefix, mark, k)
  {
    forall k ensures !Occurs(prefix, mark, k) {
      assert 0 <= k && k + |mark| <= |prefix| ==> k < first && prefix[k..k + |mark|] == line[k..k + |mark|];
      assert 0 <= k < first ==> !Occurs(line, mark, k);
    }
  }

  lemma TightCutKeepsCore(core: string, t: string) returns (m: nat)
    requires IsCore(core) && IsTail(t) && Ends(t)
    ensures m <= |t| && CutTightMarker(core + t) == core + t[..m] && IsTail(t[..m]) && Ends(t[..m]) && ';' !in t[..m]
  {
    var line := core + t;
    var i := IndexByte(line, ';');
    m := |t|;
    assert t[..m] == t;
    if i >= 0 {
      assert forall k :: 0 <= k < |core| ==> line[k] == core[k];
      var part := t[..i - |core|];
      assert line[..i] == core + part;
      m := TrimTail(core, part);
      assert part[..m] == t[..m];
      PrefixIsTail(t, m);
      assert forall k :: 0 <= k < m ==> t[k] == line[|core| + k];
    } else {
      assert forall k :: 0 <= k < |t| ==> t[k] == line[|core| + k];
    }
  }

  lemma {:induction false} NoTailLeft(t: string)
    requires IsTail(t) && Ends(t) && ';' !in t && forall k :: !Occurs(t, " #", k)
    ensures t == ""
  {
    if t != "" {
      assert t[0] == ' ';
      var rest := t[1..];
      assert |t| > 1 ==> t[0..2] == [t[0], t[1]];
      assert !Occurs(t, " #", 0);
      assert IsTail(rest);
      forall k ensures !Occurs(rest, " #", k) {
        assert !Occurs(t, " #", k + 1);
        assert 0 <= k && k + 2 <= |rest| ==> rest[k..k + 2] == t[k + 1..k + 3];
      }
      NoTailLeft(rest);
    }
  }

  /** Comment and marker go, whatever they contain; the requirement stays. */
  lemma TailIsCut(core: string, t: string)
    requires IsCore(core) && IsTail(t) && Ends(t)
    ensures CutTightMarker(CutAt(CutAt(core + t, " #"), " ;")) == core
  {
    var m1 := CutKeepsCore(core, t, " #");
    var t1 := t[..m1];
    var m2 := CutKeepsCore(core, t1, " ;");
    var t2 := t1[..m2];
    var m3 := TightCutKeepsCore(core, t2);
    var t3 := t2[..m3];
    assert t3 == t1[..m3];
    NoCommentIn(core, t1, m3);
    NoTailLeft(t3);
    assert core + t3 == core;
  }

  lemma NoCommentIn(core: string, t: string, m: nat)
    requires m <= |t| && forall k :: !Occurs(core + t, " #", k)
    ensures forall k :: !Occurs(t[..m], " #", k)
  {
    forall k ensures !Occurs(t[..m], " #", k) {
      assert !Occurs(core + t, " #", |core| + k);
      assert 0 <= k && k + 2 <= m ==> (core + t)[|core| + k..|core| + k + 2] == t[..m][k..k + 2];
    }
  }

  predicate Bracketless(s: string) { '[' !in s && ']' !in s }

  predicate IsExtras(e: string) { e == "" || (|e| >= 2 && e[0] == '[' && e[|e| - 1] == ']' && ']' !in e[..|e| - 1]) }

  lemma ExtrasAreDropped(name: string, extras: string, rest: string)
    requires Bracketless(name) && Bracketless(rest) && IsExtras(extras)
    ensures DropExtras(name + extras + rest) == name + rest
  {
    var line := name + extras + rest;
    assert forall k :: 0 <= k < |name| ==> line[k] == name[k];
    assert forall k :: |name| <= k < |name| + |extras| ==> line[k] == extras[k - |name|];
    assert forall k :: |name| + |extras| <= k < |line| ==> line[k] == rest[k - |name| - |extras|];
    if extras == "" {
      assert line == name + rest;
    } else {
      assert forall k :: 0 <= k < |extras| - 1 ==> extras[k] == extras[..|extras| - 1][k];
      var open, close := IndexByte(line, '['), IndexByte(line, ']');
      assert line[|name|] == '[' && line[|name| + |extras| - 1] == ']';
      assert open == |name| && close == |name| + |extras| - 1;
      assert line[..open] == name && line[close + 1..] == rest;
    }
  }

  /** name, extras, operator, version, then blanks, comment or marker: exactly that name and version are
      recorded for == and ===, and for any other operator the line is reported. */
  lemma RequirementRoundTrip(left: string, name: string, extras: string, op: string, version: string, tail: string,
                             right: string)
    requires Blank(left) && Blank(right) && IsTail(tail) && Ends(tail) && IsExtras(extras) && IsOperator(op)
    requires PlainName(name) && Bracketless(name) && name[0] != '#' && !HasPrefix(name, "--")
    requires PlainVersion(version) && Bracketless(version)
    requires ';' !in name && ';' !in extras && ';' !in version && SpaceFree(extras)
    ensures OutcomeOf(left + (name + extras + (op + version) + tail) + right) ==
            if op == "==" || op == "===" then Tool(ToolRef("pypi", name + "@" + version, "", name, version, "", ""))
            else Skipped(UnsupportedRef("pypi", name + (op + version), RANGE))
  {
    var o := OperatorHasNumber(op);
    var spec := op + version;
    OperatorIsPlain(o);
    NotAnOption(name, extras, spec, tail);
    assert Bracketless(spec) && IsCore(name + extras + spec);
    RequirementOf(left, name, extras, spec, tail, right);
    PlainSpec(name, o, version);
  }

  /** What a declaring line is stripped to: its name with what follows the extras. */
  lemma RequirementOf(left: string, name: string, extras: string, spec: string, tail: string, right: string)
    requires Blank(left) && Blank(right) && IsTail(tail) && Ends(tail) && IsExtras(extras)
    requires name != "" && Bracketless(name) && Bracketless(spec) && IsCore(name + extras + spec)
    requires !HasPrefix(name + extras + spec + tail, "#") && !IsPipOption(name + extras + spec + tail)
    ensures var raw := left + (name + extras + spec + tail) + right;
            IsRequirement(raw) && Requirement(TrimSpace(raw)) == name + spec
  {
    var core := name + extras + spec;
    EndsLikeTail(core, tail);
    TrimPadded(left, core + tail, right);
    TailIsCut(core, tail);
    ExtrasAreDropped(name, extras, spec);
  }

  lemma OperatorIsPlain(o: nat)
    requires o < |OPERATORS|
    ensures OPERATORS[o] != "" && SpaceFree(OPERATORS[o]) && Bracketless(OPERATORS[o]) && ';' !in OPERATORS[o]
  {
  }

  lemma NotAnOption(name: string, extras: string, spec: string, tail: string)
    requires PlainName(name) && name[0] != '#' && !HasPrefix(name, "--") && IsExtras(extras) && SpaceFree(extras)
    requires |spec| >= 2 && SpaceFree(spec) && IsOperatorChar(spec[0])
    ensures !HasPrefix(name + extras + spec + tail, "#") && !IsPipOption(name + extras + spec + tail)
  {
    var core := name + extras + spec;
    var line := core + tail;
    assert SpaceFree(core);
    assert forall k :: 0 <= k < |core| ==> line[k] == core[k];
    assert line[0] == name[0] && |core| >= 3 && line[2] == core[2];
    assert |name| >= 2 ==> line[1] == name[1] && name[..2] == [name[0], name[1]];
    assert |name| == 1 ==> line[1] == if extras == "" then spec[0] else '[';
    assert line[..2] == [line[0], line[1]];
    assert line[..3] == [line[0], line[1], line[2]];
  }

  lemma PlainSpec(name: string, o: nat, version: string)
    requires PlainName(name) && PlainVersion(version) && o < |OPERATORS|
    ensures SplitSpec(name + (OPERATORS[o] + version)) == Spec(name, version, o < 2)
  {
    PlainSplit(name, OPERATORS[o], version);
    SplitsThere(name, o, version);
    PinsAre(o);
    assert name + OPERATORS[o] + version == name + (OPERATORS[o] + version);
  }

  // ---------------------------------------------------------------- no declaration is lost

  /** A line for pip itself: two dashes, or one of five letters behind one dash and a blank behind it. */
  predicate OptionLine(line: string) {
    && |line| >= 2 && line[0] == '-'
    && (line[1] == '-' || (|line| >= 3 && line[1] in "recfi" && line[2] == ' '))
  }

  /** Exactly the blank lines, the comments and the options are passed over: any other line is recorded or reported. */
  lemma SilentExactly(raw: string)
    ensures var line := TrimSpace(raw);
            OutcomeOf(raw).Ignored? <==> line == "" || line[0] == '#' || OptionLine(line)
  {
    StartsWithOne(TrimSpace(raw), '#');
    OptionsAre(TrimSpace(raw));
  }

  lemma StartsWithOne(line: string, a: char)
    ensures HasPrefix(line, [a]) <==> line != "" && line[0] == a
  {
    assert line != "" ==> line[..1] == [line[0]];
  }

  lemma StartsWithTwo(line: string, a: char, b: char)
    ensures HasPrefix(line, [a, b]) <==> |line| >= 2 && line[0] == a && line[1] == b
  {
    assert |line| >= 2 ==> line[..2] == [line[0], line[1]];
  }

  lemma StartsWithThree(line: string, a: char, b: char, c: char)
    ensures HasPrefix(line, [a, b, c]) <==> |line| >= 3 && line[0] == a && line[1] == b && line[2] == c
  {
    assert |line| >= 3 ==> line[..3] == [line[0], line[1], line[2]];
  }

  lemma OptionsAre(line: string)
    ensures IsPipOption(line) <==> OptionLine(line)
  {
    StartsWithThree(line, '-', 'r', ' ');
    StartsWithThree(line, '-', 'e', ' ');
    StartsWithThree(line, '-', 'c', ' ');
    StartsWithThree(line, '-', 'f', ' ');
    StartsWithThree(line, '-', 'i', ' ');
    StartsWithTwo(line, '-', '-');
  }

  /** Comment and markers never take the whole of a line that is neither blank nor a comment: what begins with a
      marker stays as it is. */
  lemma SomethingStays(line: string)
    requires line != "" && !IsSpace(line[0])
    ensures CutTightMarker(CutAt(CutAt(line, " #"), " ;")) != ""
    ensures line[0] == ';' ==> CutTightMarker(line) == line
  {
    CutLeavesFirst(line, " #");
    CutLeavesFirst(CutAt(line, " #"), " ;");
    assert line[0] == ';' ==> line[..0] == "";
  }

  lemma CutLeavesFirst(line: string, mark: string)
    requires line != "" && !IsSpace(line[0]) && mark != "" && IsSpace(mark[0])
    ensures CutAt(line, mark) != "" && CutAt(line, mark)[0] == line[0]
  {
    var i := Find(line, mark);
    if i >= 0 {
      assert line[i..i + |mark|][0] == mark[0] && i > 0;
      assert line[..i] == [line[0]] + line[1..i];
      TrimKeepsFront([line[0]], line[1..i]);
    }
  }

  /** In particular every line that begins with neither of their marks. */
  lemma DeclarationIsAccounted(raw: string)
    requires TrimSpace(raw) != "" && TrimSpace(raw)[0] != '#' && TrimSpace(raw)[0] != '-'
    ensures !OutcomeOf(raw).Ignored?
  {
    SilentExactly(raw);
  }

  /** A bare name, with or without extras, comment or marker, is reported under its name as not pinned. */
  lemma BareNameIsReported(left: string, name: string, extras: string, tail: string, right: string)
    requires Blank(left) && Blank(right) && IsTail(tail) && Ends(tail) && IsExtras(extras) && SpaceFree(extras)
    requires PlainName(name) && Bracketless(name) && name[0] != '#' && name[0] != '-'
    requires ';' !in name && ';' !in extras
    ensures OutcomeOf(left + (name + extras + "" + tail) + right) ==
            Skipped(UnsupportedRef("pypi", name,
              "version range: pin with == for a baseline entry, or record a resolved requirements file"))
  {
    var line := name + extras + "" + tail;
    assert name + extras + "" == name + extras && IsCore(name + extras) && line[0] == name[0];
    StartsWithOne(line, '#');
    OptionsAre(line);
    RequirementOf(left, name, extras, "", tail, right);
    BareIsReported(left + line + right, name);
  }

  lemma BareIsReported(raw: string, name: string)
    requires IsRequirement(raw) && Requirement(TrimSpace(raw)) == name + "" && PlainName(name)
    ensures OutcomeOf(raw) == Skipped(UnsupportedRef("pypi", name, RANGE))
  {
    assert name + "" == name;
    BareLine(name);
    AlreadyTrimmed(name);
    assert forall i :: 0 <= i < |name| ==> name[i] != ' ';
  }

  // ---------------------------------------------------------------- text that the version swallows

  /** Text without the marks of comments, markers, extras and operators. */
  predicate Unmarked(t: string) {
    '#' !in t && ';' !in t && ',' !in t && '*' !in t && Bracketless(t) && Find(t, "===") < 0
  }

  lemma NoMark(line: string, mark: string, c: char)
    requires c !in line && c in mark
    ensures Find(line, mark) < 0
  {
    var i :| 0 <= i < |mark| && mark[i] == c;
    forall k ensures !Occurs(line, mark, k) {
      assert 0 <= k && k + |mark| <= |line| ==> line[k + i] == line[k..k + |mark|][i];
    }
  }

  lemma NothingToCut(line: string)
    requires '#' !in line && ';' !in line && Bracketless(line)
    ensures Requirement(line) == line
  {
    NoMark(line, " #", '#');
    NoMark(line, " ;", ';');
  }

  /** Unmarked text after a pinned version becomes part of the version that is recorded. */
  lemma TailBecomesVersion(name: string, version: string, tail: string)
    requires PlainName(name) && Bracketless(name) && '#' !in name && ';' !in name && !HasPrefix(name, "--")
    requires PlainVersion(version) && Unmarked(version) && Unmarked(tail) && Ends(tail)
    ensures OutcomeOf(name + "==" + (version + tail)) == Tool(IndexTool(name, version + tail))
  {
    var line := name + "==" + (version + tail);
    PinnedLine(name, version, tail, line);
    NothingToCut(line);
    RestIsSwallowed(name, version, tail);
    PinIsRecorded(line, name, version + tail);
  }

  lemma PinnedLine(name: string, version: string, tail: string, line: string)
    requires PlainName(name) && name[0] != '#' && !HasPrefix(name, "--") && PlainVersion(version) && Ends(tail)
    requires line == name + "==" + (version + tail)
    ensures TrimSpace(line) == line && IsRequirement(line)
  {
    var spec := "==" + version;
    assert line == name + "" + spec + tail == name + spec + tail;
    NotAnOption(name, "", spec, tail);
    assert (name + spec)[0] == name[0] && (name + spec)[|name + spec| - 1] == version[|version| - 1];
    EndsLikeTail(name + spec, tail);
    AlreadyTrimmed(line);
  }

  lemma PinIsRecorded(line: string, name: string, version: string)
    requires TrimSpace(line) == line && IsRequirement(line) && Requirement(line) == line && name != ""
    requires SplitSpec(line) == Spec(name, version, true)
    ensures OutcomeOf(line) == Tool(IndexTool(name, version))
  {
  }

  /** So do the hash option of a pinned requirement, and the backslash that continues its line. */
  lemma HashBecomesVersion(name: string, version: string, digest: string)
    requires PlainName(name) && Bracketless(name) && '#' !in name && ';' !in name && !HasPrefix(name, "--")
    requires PlainVersion(version) && Unmarked(version) && PlainVersion(digest) && Unmarked(digest)
    ensures OutcomeOf(name + "==" + (version + (" --hash=" + digest))) ==
            Tool(IndexTool(name, version + (" --hash=" + digest)))
    ensures OutcomeOf(name + "==" + (version + " \\")) == Tool(IndexTool(name, version + " \\"))
  {
    HashIsUnmarked(digest);
    TailBecomesVersion(name, version, " --hash=" + digest);
    NoMark(" \\", "===", '=');
    TailBecomesVersion(name, version, " \\");
  }

  lemma HashIsUnmarked(digest: string)
    requires PlainVersion(digest) && Unmarked(digest)
    ensures Unmarked(" --hash=" + digest) && Ends(" --hash=" + digest)
  {
    var option := " --hash=" + digest;
    forall k ensures !Occurs(option, "===", k) {
      assert forall x :: 8 <= x < |option| ==> option[x] == digest[x - 8];
      assert 0 <= k && k + 3 <= |option| ==> option[k..k + 3] == [option[k], option[k + 1], option[k + 2]];
    }
    assert option[|option| - 1] == digest[|digest| - 1];
  }
}
