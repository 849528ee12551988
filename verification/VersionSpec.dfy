/** parseVersionSpec: a requirement split into package, version, and whether the version is an exact pin. */
module VersionSpec {
  import opened Text

  datatype Spec = Spec(name: string, version: string, exact: bool)

  /** In the order they are looked for. */
  const OPERATORS: seq<string> := ["===", "==", "~=", ">=", "<=", "!=", ">", "<"]

  /** The first operator from i on that occurs in the line, or the number of operators. */
  function OperatorFrom(line: string, i: nat): (r: nat)
    requires i <= |OPERATORS|
    ensures i <= r <= |OPERATORS| && forall k :: i <= k < r ==> Find(line, OPERATORS[k]) < 0
    ensures r < |OPERATORS| ==> Find(line, OPERATORS[r]) >= 0
    decreases |OPERATORS| - i
  {
    if i == |OPERATORS| || Find(line, OPERATORS[i]) >= 0 then i else OperatorFrom(line, i + 1)
  }

  function UpToComma(version: string): string {
    var comma := IndexByte(version, ',');
    if comma >= 0 then TrimSpace(version[..comma]) else version
  }

  function SplitAtOperator(before: string, op: string, after: string): Spec {
    var name, version := TrimSpace(before), UpToComma(TrimSpace(after));
    if name == "" || version == "" then Spec("", "", false)
    else Spec(name, version, '*' !in version && (op == "==" || op == "==="))
  }

  predicate HasOperatorOrBlank(s: string) { exists i :: 0 <= i < |s| && s[i] in "=<>!~ " }

  function BareName(line: string): Spec {
    var name := TrimSpace(line);
    Spec(if name != "" && !HasOperatorOrBlank(name) then name else "", "", false)
  }

  function SplitSpec(line: string): Spec {
    var o := OperatorFrom(line, 0);
    if o == |OPERATORS| then BareName(line)
    else
      var op, idx := OPERATORS[o], Find(line, OPERATORS[o]);
      SplitAtOperator(line[..idx], op, line[idx + |op|..])
  }

  method ParseVersionSpec(line: string) returns (name: string, version: string, exact: bool)
    ensures Spec(name, version, exact) == SplitSpec(line)
  {
    for i := 0 to |OPERATORS|
      invariant OperatorFrom(line, 0) == OperatorFrom(line, i)
    {
      var op := OPERATORS[i];
      var idx := Find(line, op);
      if idx >= 0 {
        assert SplitSpec(line) == SplitAtOperator(line[..idx], op, line[idx + |op|..]);
        name := TrimSpace(line[..idx]);
        version := TrimSpace(line[idx + |op|..]);
        var comma := IndexByte(version, ',');
        if comma >= 0 {
          version := TrimSpace(version[..comma]);
        }
        if name == "" || version == "" {
          return "", "", false;
        }
        if '*' in version {
          return name, version, false;
        }
        return name, version, op == "==" || op == "===";
      }
    }
    var trimmed := TrimSpace(line);
    if trimmed != "" && !HasOperatorOrBlank(trimmed) {
      return trimmed, "", false;
    }
    return "", "", false;
  }

  predicate IsOperatorChar(c: char) { c == '=' || c == '<' || c == '>' || c == '~' || c == '!' }

  predicate OperatorFree(s: string) { forall i :: 0 <= i < |s| ==> !IsOperatorChar(s[i]) }

  lemma OperatorsAreOperatorChars(o: nat)
    requires o < |OPERATORS|
    ensures |OPERATORS[o]| > 0 && forall i :: 0 <= i < |OPERATORS[o]| ==> IsOperatorChar(OPERATORS[o][i])
  {
  }

  /** Text that does not prolong an operator written before it. */
  predicate Apart(after: string) { after == "" || !IsOperatorChar(after[0]) }

  /** After operator-free text, an operator is found inside the one that was written or in the text behind it. */
  lemma FoundWhere(before: string, op: string, after: string, p: string, k: nat)
    requires OperatorFree(before) && Apart(after) && |p| > 0
    requires forall i :: 0 <= i < |p| ==> IsOperatorChar(p[i])
    requires Occurs(before + op + after, p, k)
    ensures || (|before| <= k && k + |p| <= |before| + |op| && op[k - |before|..k - |before| + |p|] == p)
            || (|before| + |op| <= k && Occurs(after, p, k - |before| - |op|))
  {
    var s, end := before + op + after, |before| + |op|;
    assert forall i :: 0 <= i < |before| ==> s[i] == before[i];
    assert forall i :: 0 <= i < |p| ==> p[i] == s[k + i];
    assert forall x :: k <= x < k + |p| ==> s[x] == p[x - k];
    assert IsOperatorChar(s[k + 0]) && (after != "" ==> s[end] == after[0]);
    if k < end {
      assert forall i :: 0 <= i < |p| ==> p[i] == op[k - |before| + i];
    } else {
      assert s[k..k + |p|] == after[k - end..k - end + |p|];
    }
  }

  /** No operator contains one that is looked for before it. */
  lemma EarlierNotInside(o: nat, e: nat, i: nat)
    requires e < o < |OPERATORS| && i + |OPERATORS[e]| <= |OPERATORS[o]|
    ensures OPERATORS[o][i..i + |OPERATORS[e]|] != OPERATORS[e]
  {
    var w, p := OPERATORS[o], OPERATORS[e];
    assert i == 0 && |p| == |w| && w[0] != p[0];
  }

  /** The operators looked for before the one with this number. */
  predicate NoneEarlierIn(s: string, o: nat)
    requires o <= |OPERATORS|
  {
    forall e :: 0 <= e < o ==> Find(s, OPERATORS[e]) < 0
  }

  /** So an operator looked for earlier is found in the line exactly where it is found in the text behind. */
  lemma EarlierFoundBehind(before: string, o: nat, after: string, e: nat)
    requires e < o < |OPERATORS| && OperatorFree(before) && Apart(after)
    ensures var idx, behind := Find(before + OPERATORS[o] + after, OPERATORS[e]), Find(after, OPERATORS[e]);
            (idx >= 0 <==> behind >= 0) && (idx >= 0 ==> idx >= |before| + |OPERATORS[o]|)
  {
    var op, p := OPERATORS[o], OPERATORS[e];
    var idx, behind := Find(before + op + after, p), Find(after, p);
    if idx >= 0 {
      EarlierOccursBehind(before, o, after, e, idx);
    }
    if behind >= 0 {
      OccursInLine(before + op, after, p, behind);
    }
  }

  lemma EarlierOccursBehind(before: string, o: nat, after: string, e: nat, k: nat)
    requires e < o < |OPERATORS| && OperatorFree(before) && Apart(after)
    requires Occurs(before + OPERATORS[o] + after, OPERATORS[e], k)
    ensures k >= |before| + |OPERATORS[o]| && Occurs(after, OPERATORS[e], k - |before| - |OPERATORS[o]|)
  {
    OperatorsAreOperatorChars(e);
    FoundWhere(before, OPERATORS[o], after, OPERATORS[e], k);
    if k < |before| + |OPERATORS[o]| {
      EarlierNotInside(o, e, k - |before|);
    }
  }

  lemma OccursInLine(front: string, after: string, p: string, k: nat)
    requires Occurs(after, p, k)
    ensures Occurs(front + after, p, |front| + k)
  {
    assert (front + after)[|front| + k..|front| + k + |p|] == after[k..k + |p|];
  }

  /** So the operator that was written splits the line, if none looked for before it stands behind it. */
  lemma SplitsThereUnless(before: string, o: nat, after: string)
    requires o < |OPERATORS| && OperatorFree(before) && Apart(after) && NoneEarlierIn(after, o)
    ensures SplitSpec(before + OPERATORS[o] + after) == SplitAtOperator(before, OPERATORS[o], after)
  {
    var op := OPERATORS[o];
    var line := before + op + after;
    forall e | 0 <= e < o ensures Find(line, OPERATORS[e]) < 0 {
      EarlierFoundBehind(before, o, after, e);
    }
    assert line[|before|..|before| + |op|] == op;
    assert Occurs(line, op, |before|);
    var idx := Find(line, op);
    OperatorsAreOperatorChars(o);
    FoundWhere(before, op, after, op, idx);
    assert idx == |before|;
    FirstIs(line, o);
    assert line[..idx] == before && line[idx + |op|..] == after;
  }

  lemma FirstIs(line: string, o: nat)
    requires o < |OPERATORS| && NoneEarlierIn(line, o) && Find(line, OPERATORS[o]) >= 0
    ensures OperatorFrom(line, 0) == o
  {
  }

  lemma NotFound(s: string, p: string)
    requires OperatorFree(s) && p != "" && IsOperatorChar(p[0])
    ensures Find(s, p) < 0
  {
    forall k ensures !Occurs(s, p, k) {
      assert 0 <= k && k + |p| <= |s| ==> s[k..k + |p|][0] == s[k];
    }
  }

  /** In particular if nothing behind it is an operator character. */
  lemma SplitsThere(before: string, o: nat, after: string)
    requires o < |OPERATORS| && OperatorFree(before) && OperatorFree(after)
    ensures SplitSpec(before + OPERATORS[o] + after) == SplitAtOperator(before, OPERATORS[o], after)
  {
    forall e | 0 <= e < o ensures Find(after, OPERATORS[e]) < 0 {
      OperatorsAreOperatorChars(e);
      NotFound(after, OPERATORS[e]);
    }
    SplitsThereUnless(before, o, after);
  }

  /** A line without operators is read as a bare name, or not at all if a blank stands inside it; it never pins. */
  lemma BareLine(line: string)
    requires OperatorFree(line)
    ensures SplitSpec(line) ==
            Spec(if ' ' in TrimSpace(line) then "" else TrimSpace(line), "", false)
  {
    forall o | 0 <= o < |OPERATORS| ensures Find(line, OPERATORS[o]) < 0 {
      OperatorsAreOperatorChars(o);
      NotFound(line, OPERATORS[o]);
    }
    NoOperatorFrom(line, 0);
    TrimmedIsOperatorFree(line);
    var name := TrimSpace(line);
    assert HasOperatorOrBlank(name) <==> ' ' in name;
  }

  lemma {:induction false} NoOperatorFrom(line: string, i: nat)
    requires i <= |OPERATORS| && forall o :: 0 <= o < |OPERATORS| ==> Find(line, OPERATORS[o]) < 0
    ensures OperatorFrom(line, i) == |OPERATORS|
    decreases |OPERATORS| - i
  {
  }

  lemma {:induction false} TrimmedIsOperatorFree(s: string)
    requires OperatorFree(s)
    ensures OperatorFree(TrimSpace(s))
    decreases |s|
  {
    if s != "" {
      if IsSpace(s[0]) {
        TrimmedIsOperatorFree(s[1..]);
      } else if IsSpace(s[|s| - 1]) {
        TrimmedIsOperatorFree(s[..|s| - 1]);
      }
    }
  }

  /** The operators, and which of them pin. */
  predicate IsOperator(op: string) { op in ["===", "==", "~=", ">=", "<=", "!=", ">", "<"] }

  lemma OperatorHasNumber(op: string) returns (o: nat)
    requires IsOperator(op)
    ensures o < |OPERATORS| && OPERATORS[o] == op && (o < 2 <==> op == "==" || op == "===")
  {
    o :| o < |OPERATORS| && OPERATORS[o] == op;
  }

  predicate PlainVersion(v: string) {
    v != "" && OperatorFree(v) && SpaceFree(v) && ',' !in v && '*' !in v
  }

  /** A version with a star is read back as well, and never pins: it is a range, whatever the operator. */
  lemma StarNeverPins(name: string, op: string, version: string)
    requires PlainName(name) && IsOperator(op) && OperatorFree(version) && SpaceFree(version)
    requires ',' !in version && '*' in version
    ensures SplitSpec(name + op + version) == Spec(name, version, false)
  {
    var o := OperatorHasNumber(op);
    SplitsThere(name, o, version);
    AlreadyTrimmed(name);
    AlreadyTrimmed(version);
  }

  /** What has no name before its operator is not read at all. */
  lemma NamelessIsUnreadable(blanks: string, op: string, rest: string)
    requires Blank(blanks) && IsOperator(op) && OperatorFree(rest)
    ensures SplitSpec(blanks + op + rest) == Spec("", "", false)
  {
    var o := OperatorHasNumber(op);
    assert forall i :: 0 <= i < |blanks| ==> !IsOperatorChar(blanks[i]);
    SplitsThere(blanks, o, rest);
    BlankTrimsAway(blanks);
  }

  lemma {:induction false} BlankTrimsAway(s: string)
    requires Blank(s)
    ensures TrimSpace(s) == ""
  {
    if s != "" {
      BlankTrimsAway(s[1..]);
    }
  }

  predicate PlainName(n: string) { n != "" && OperatorFree(n) && SpaceFree(n) }

  /** A name and a version written around an operator, with any blanks, are read back, and only == and === pin. */
  lemma SpecRoundTrip(a: string, name: string, b: string, o: nat, c: string, version: string, d: string)
    requires Blank(a) && Blank(b) && Blank(c) && Blank(d) && PlainName(name) && PlainVersion(version)
    requires o < |OPERATORS|
    ensures SplitSpec((a + name + b) + OPERATORS[o] + (c + version + d)) == Spec(name, version, o < 2)
  {
    PaddedIsOperatorFree(a, name, b);
    PaddedIsOperatorFree(c, version, d);
    SplitsThere(a + name + b, o, c + version + d);
    TrimPadded(a, name, b);
    TrimPadded(c, version, d);
    PinsAre(o);
  }

  lemma PaddedIsOperatorFree(left: string, s: string, right: string)
    requires Blank(left) && Blank(right) && OperatorFree(s)
    ensures OperatorFree(left + s + right)
  {
  }

  lemma PinsAre(o: nat)
    requires o < |OPERATORS|
    ensures OPERATORS[o] == "==" || OPERATORS[o] == "===" <==> o < 2
  {
  }

  lemma PlainSplit(name: string, op: string, version: string)
    requires PlainName(name) && PlainVersion(version)
    ensures SplitAtOperator(name, op, version) == Spec(name, version, op == "==" || op == "===")
  {
  }

  /** A plain name before an operator is read back exactly if no operator that is looked for before that one
      stands behind it, and a version does. */
  lemma NameReadBack(name: string, o: nat, rest: string)
    requires PlainName(name) && o < |OPERATORS| && Apart(rest)
    ensures SplitSpec(name + OPERATORS[o] + rest).name == name <==>
            NoneEarlierIn(rest, o) && UpToComma(TrimSpace(rest)) != ""
  {
    if NoneEarlierIn(rest, o) {
      NameKept(name, o, rest);
    } else {
      NameLost(name, o, rest);
    }
  }

  lemma NameKept(name: string, o: nat, rest: string)
    requires PlainName(name) && o < |OPERATORS| && Apart(rest) && NoneEarlierIn(rest, o)
    ensures SplitSpec(name + OPERATORS[o] + rest).name == name <==> UpToComma(TrimSpace(rest)) != ""
  {
    SplitsThereUnless(name, o, rest);
    NameOfSplit(name, OPERATORS[o], rest);
  }

  lemma NameLost(name: string, o: nat, rest: string)
    requires PlainName(name) && o < |OPERATORS| && Apart(rest) && !NoneEarlierIn(rest, o)
    ensures SplitSpec(name + OPERATORS[o] + rest).name != name
  {
    NameSwallows(name, o, rest);
    OperatorEnds(o);
    LongerName(name, OPERATORS[o], SplitSpec(name + OPERATORS[o] + rest).name);
  }

  lemma LongerName(name: string, op: string, read: string)
    requires name != "" && op != "" && (read == "" || name + op <= read)
    ensures read != name
  {
  }

  lemma NameOfSplit(name: string, op: string, rest: string)
    requires PlainName(name)
    ensures SplitAtOperator(name, op, rest).name == name <==> UpToComma(TrimSpace(rest)) != ""
  {
    AlreadyTrimmed(name);
  }

  /** Otherwise the operator that was written ends up in the name. */
  lemma NameSwallows(name: string, o: nat, rest: string)
    requires PlainName(name) && o < |OPERATORS| && Apart(rest) && !NoneEarlierIn(rest, o)
    ensures var read := SplitSpec(name + OPERATORS[o] + rest).name; read == "" || name + OPERATORS[o] <= read
  {
    var line, core := name + OPERATORS[o] + rest, name + OPERATORS[o];
    SplitsBehind(name, o, rest);
    var idx := Find(line, OPERATORS[OperatorFrom(line, 0)]);
    FrontStays(core, o, line, idx);
  }

  /** The line is then split behind the operator that was written. */
  lemma SplitsBehind(name: string, o: nat, rest: string)
    requires PlainName(name) && o < |OPERATORS| && Apart(rest) && !NoneEarlierIn(rest, o)
    ensures var line := name + OPERATORS[o] + rest;
            OperatorFrom(line, 0) < o && Find(line, OPERATORS[OperatorFrom(line, 0)]) >= |name + OPERATORS[o]|
  {
    var line := name + OPERATORS[o] + rest;
    var e :| 0 <= e < o && Find(rest, OPERATORS[e]) >= 0;
    EarlierFoundBehind(name, o, rest, e);
    assert OperatorFrom(line, 0) <= e;
    EarlierFoundBehind(name, o, rest, OperatorFrom(line, 0));
  }

  lemma FrontStays(core: string, o: nat, line: string, idx: nat)
    requires o < |OPERATORS| && core != "" && !IsSpace(core[0]) && core <= line && |core| <= idx <= |line|
    requires |OPERATORS[o]| <= |core| && core[|core| - |OPERATORS[o]|..] == OPERATORS[o]
    ensures core <= TrimSpace(line[..idx])
  {
    OperatorEnds(o);
    assert core[|core| - 1] == core[|core| - |OPERATORS[o]|..][|OPERATORS[o]| - 1];
    assert line[..idx] == core + line[|core|..idx];
    TrimKeepsFront(core, line[|core|..idx]);
  }

  lemma OperatorEnds(o: nat)
    requires o < |OPERATORS|
    ensures OPERATORS[o] != "" && !IsSpace(OPERATORS[o][|OPERATORS[o]| - 1])
  {
  }

  /** A pin that follows a range in the same line splits it: the range ends up in the package name. */
  lemma PinAfterRange(name: string, o: nat, bound: string, version: string)
    requires PlainName(name) && PlainVersion(bound) && PlainVersion(version) && 2 <= o < |OPERATORS|
    ensures SplitSpec(name + OPERATORS[o] + (bound + ",") + "==" + version) ==
            Spec(name + OPERATORS[o] + (bound + ","), version, true)
  {
    var before := name + OPERATORS[o] + (bound + ",");
    var line := before + "==" + version;
    FirstPairIsThePin(before, line, name, o, bound, version);
    FirstIs(line, 1);
    assert before[0] == name[0] && before[|before| - 1] == ',';
    SplitAtPin(before, version, line);
  }

  lemma SplitAtPin(before: string, version: string, line: string)
    requires line == before + "==" + version && OperatorFrom(line, 0) == 1 && Find(line, "==") == |before|
    requires before != "" && !IsSpace(before[0]) && !IsSpace(before[|before| - 1]) && PlainVersion(version)
    ensures SplitSpec(line) == Spec(before, version, true)
  {
    assert line[..|before|] == before && line[|before| + 2..] == version;
    AlreadyTrimmed(before);
    AlreadyTrimmed(version);
  }

  lemma FirstPairIsThePin(before: string, line: string, name: string, o: nat, bound: string, version: string)
    requires PlainName(name) && PlainVersion(bound) && PlainVersion(version) && 2 <= o < |OPERATORS|
    requires before == name + OPERATORS[o] + (bound + ",") && line == before + "==" + version
    ensures Find(line, "===") == -1 && Find(line, "==") == |before|
  {
    forall k | 0 <= k && k + 1 < |line| && k != |before| ensures !(line[k] == '=' && line[k + 1] == '=') {
      NoPairBefore(name, o, bound, k, line, version);
    }
    assert line[|before| + 2] == version[0];
    forall k ensures !Occurs(line, "===", k) && (Occurs(line, "==", k) ==> k == |before|) {
      assert 0 <= k && k + 2 <= |line| ==> line[k..k + 2] == [line[k], line[k + 1]];
      assert 0 <= k && k + 3 <= |line| ==> line[k..k + 3] == [line[k], line[k + 1], line[k + 2]];
    }
    assert line[|before|..|before| + 2] == "==";
    assert Occurs(line, "==", |before|);
  }

  /** No two equals signs stand side by side before the pin, nor after it. */
  lemma NoPairBefore(name: string, o: nat, bound: string, k: nat, line: string, version: string)
    requires PlainName(name) && PlainVersion(bound) && PlainVersion(version) && 2 <= o < |OPERATORS|
    requires line == name + OPERATORS[o] + (bound + ",") + "==" + version
    requires k + 1 < |line| && k != |name + OPERATORS[o] + (bound + ",")|
    ensures !(line[k] == '=' && line[k + 1] == '=')
  {
  }

  // ---------------------------------------------------------------- what is read as the version

  predicate Ends(t: string) { t == "" || !IsSpace(t[|t| - 1]) }

  /** Trimming takes blanks off the end of what follows a core. */
  lemma {:induction false} TrimmedTo(gap: string, core: string, t: string) returns (m: nat)
    requires Blank(gap) && core != "" && !IsSpace(core[0]) && !IsSpace(core[|core| - 1])
    ensures m <= |t| && TrimSpace(gap + core + t) == core + t[..m] && Blank(t[m..]) && Ends(t[..m])
    decreases |t|
  {
    m := |t|;
    assert t[..m] == t;
    if Ends(t) {
      NothingToTrim(gap, core, t);
    } else {
      var short := t[..|t| - 1];
      m := TrimmedTo(gap, core, short);
      assert short[..m] == t[..m] && t[m..] == short[m..] + [t[|t| - 1]];
      LastBlankGoes(gap, core, t);
    }
  }

  lemma NothingToTrim(gap: string, core: string, t: string)
    requires Blank(gap) && core != "" && !IsSpace(core[0]) && !IsSpace(core[|core| - 1]) && Ends(t)
    ensures TrimSpace(gap + core + t) == core + t
  {
    EndsLikeTail(core, t);
    TrimFront(gap, core + t);
    Regrouped(gap, core, t);
  }

  lemma Regrouped(a: string, b: string, c: string)
    ensures a + b + c == a + (b + c)
  {
  }

  lemma {:induction false} TrimFront(gap: string, s: string)
    requires Blank(gap) && s != "" && !IsSpace(s[0]) && !IsSpace(s[|s| - 1])
    ensures TrimSpace(gap + s) == s
  {
    if gap == "" {
      assert gap + s == s;
    } else {
      assert (gap + s)[0] == gap[0] && (gap + s)[1..] == gap[1..] + s;
      TrimFront(gap[1..], s);
    }
  }

  lemma EndsLikeTail(core: string, t: string)
    requires core != "" && !IsSpace(core[0]) && !IsSpace(core[|core| - 1]) && Ends(t)
    ensures !IsSpace((core + t)[0]) && !IsSpace((core + t)[|core + t| - 1])
  {
    assert (core + t)[|core + t| - 1] == if t == "" then core[|core| - 1] else t[|t| - 1];
  }

  lemma LastBlankGoes(gap: string, core: string, t: string)
    requires Blank(gap) && core != "" && !IsSpace(core[0]) && t != "" && IsSpace(t[|t| - 1])
    ensures TrimSpace(gap + core + t) == TrimSpace(gap + core + t[..|t| - 1])
    decreases |gap|
  {
    var s, short := gap + core + t, gap + core + t[..|t| - 1];
    assert s[|s| - 1] == t[|t| - 1] && s[..|s| - 1] == short;
    if gap == "" {
      assert s[0] == core[0];
    } else {
      assert s[0] == gap[0] && s[1..] == gap[1..] + core + t && short[1..] == gap[1..] + core + t[..|t| - 1];
      LastBlankGoes(gap[1..], core, t);
    }
  }

  /** All of it, or what stands before the first comma. */
  function BeforeComma(s: string): string {
    var comma := IndexByte(s, ',');
    if comma >= 0 then s[..comma] else s
  }

  /** A version is what is read exactly if only blanks follow it up to the first comma. */
  lemma VersionOfText(gap: string, version: string, tail: string)
    requires Blank(gap) && PlainVersion(version)
    ensures UpToComma(TrimSpace(gap + version + tail)) == version <==> Blank(BeforeComma(tail))
  {
    var m := TrimmedTo(gap, version, tail);
    CommaAfter(version, tail[..m]);
    SameFirstComma(tail, m);
    var comma := IndexByte(tail, ',');
    if comma >= 0 {
      assert tail[..m][..comma] == tail[..comma];
      CutAtComma(version, tail[..m], comma);
    } else {
      BlankExactly(version, tail, m);
    }
  }

  lemma CutAtComma(version: string, t: string, comma: nat)
    requires PlainVersion(version) && comma <= |t|
    ensures TrimSpace((version + t)[..|version| + comma]) == version <==> Blank(t[..comma])
  {
    assert (version + t)[..|version| + comma] == "" + version + t[..comma];
    var n := TrimmedTo("", version, t[..comma]);
    BlankExactly(version, t[..comma], n);
  }

  lemma BlankExactly(core: string, t: string, m: nat)
    requires m <= |t| && Blank(t[m..]) && Ends(t[..m])
    ensures core + t[..m] == core <==> Blank(t)
  {
    assert m > 0 ==> t[..m][m - 1] == t[m - 1];
    assert m == 0 ==> t[m..] == t && core + t[..m] == core;
    assert m > 0 ==> |core + t[..m]| > |core|;
  }

  lemma CommaAfter(version: string, t: string)
    requires ',' !in version
    ensures IndexByte(version + t, ',') == if IndexByte(t, ',') >= 0 then |version| + IndexByte(t, ',') else -1
  {
    var s := version + t;
    assert forall k :: 0 <= k < |version| ==> s[k] == version[k];
    assert forall k :: 0 <= k < |t| ==> s[|version| + k] == t[k];
  }

  /** Blanks at the end hide no comma. */
  lemma SameFirstComma(t: string, m: nat)
    requires m <= |t| && Blank(t[m..])
    ensures IndexByte(t[..m], ',') == IndexByte(t, ',')
  {
    assert forall k :: m <= k < |t| ==> t[k] == t[m..][k - m];
    assert forall k :: 0 <= k < m ==> t[k] == t[..m][k];
  }

  /** Operator-free text before it changes nothing about which operators are found. */
  lemma NoneEarlierBehind(front: string, tail: string, o: nat)
    requires OperatorFree(front) && o <= |OPERATORS|
    ensures NoneEarlierIn(front + tail, o) <==> NoneEarlierIn(tail, o)
  {
    forall e | 0 <= e < o ensures Find(front + tail, OPERATORS[e]) < 0 <==> Find(tail, OPERATORS[e]) < 0 {
      OperatorsAreOperatorChars(e);
      FoundBehind(front, tail, OPERATORS[e]);
    }
  }

  lemma FoundBehind(front: string, tail: string, p: string)
    requires OperatorFree(front) && p != "" && IsOperatorChar(p[0])
    ensures Find(front + tail, p) < 0 <==> Find(tail, p) < 0
  {
    var s, i := front + tail, Find(tail, p);
    if i >= 0 {
      OccursInLine(front, tail, p, i);
    }
    forall k | Occurs(s, p, k) ensures Occurs(tail, p, k - |front|) {
      assert s[k] == s[k..k + |p|][0] == p[0];
      assert IsOperatorChar(s[k]) && k >= |front|;
      assert s[k..k + |p|] == tail[k - |front|..k - |front| + |p|];
    }
  }

  /** Name, version and pin of a requirement are read back, whatever follows, exactly if that holds no operator
      that is looked for before the one written, and nothing but blanks before its first comma. */
  lemma VersionReadBack(name: string, o: nat, gap: string, version: string, tail: string)
    requires PlainName(name) && o < |OPERATORS| && Blank(gap) && PlainVersion(version)
    ensures SplitSpec(name + OPERATORS[o] + (gap + version + tail)) == Spec(name, version, o < 2) <==>
            NoneEarlierIn(tail, o) && Blank(BeforeComma(tail))
  {
    var rest := gap + version + tail;
    assert rest[0] == (gap + version)[0] && !IsOperatorChar(rest[0]);
    assert rest == (gap + version) + tail;
    NoneEarlierBehind(gap + version, tail, o);
    NameReadBack(name, o, rest);
    if NoneEarlierIn(tail, o) {
      SplitsThereUnless(name, o, rest);
      AlreadyTrimmed(name);
      VersionOfText(gap, version, tail);
      PinsAre(o);
    }
  }

  /** Text that is neither an operator, a comma nor a star becomes part of the version, and of the pin. */
  lemma RestIsSwallowed(name: string, version: string, tail: string)
    requires PlainName(name) && PlainVersion(version) && Ends(tail) && ',' !in tail && '*' !in tail
    requires Find(tail, "===") < 0
    ensures SplitSpec(name + "==" + (version + tail)) == Spec(name, version + tail, true)
  {
    NoneEarlierBehind(version, tail, 1);
    assert (version + tail)[0] == version[0];
    SplitsThereUnless(name, 1, version + tail);
    SwallowedText(version, tail);
    SplitOfPin(name, version + tail);
  }

  lemma SplitOfPin(name: string, rest: string)
    requires PlainName(name) && rest != "" && UpToComma(TrimSpace(rest)) == rest && '*' !in rest
    ensures SplitAtOperator(name, "==", rest) == Spec(name, rest, true)
  {
    AlreadyTrimmed(name);
  }

  lemma SwallowedText(version: string, tail: string)
    requires PlainVersion(version) && Ends(tail) && ',' !in tail && '*' !in tail
    ensures UpToComma(TrimSpace(version + tail)) == version + tail && '*' !in version + tail
  {
    EndsLikeTail(version, tail);
    AlreadyTrimmed(version + tail);
  }
}
