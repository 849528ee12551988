/** normalizePyPIName against the normalized names of PEP 503. */
module PyName {
  import opened Text

  predicate IsSeparator(c: char) { c == '.' || c == '_' || c == '-' }

  function RunLength(s: string): (n: nat)
    ensures n <= |s| && (n > 0 <==> s != "" && IsSeparator(s[0]))
    ensures forall i :: 0 <= i < n ==> IsSeparator(s[i])
    ensures n < |s| ==> !IsSeparator(s[n])
  {
    if s == "" || !IsSeparator(s[0]) then 0 else 1 + RunLength(s[1..])
  }

  /** PEP 503: every run of separators becomes one dash, and letters become lower case. */
  function Pep503(s: string): string
    decreases |s|
  {
    if s == "" then ""
    else if IsSeparator(s[0]) then "-" + Pep503(s[RunLength(s)..])
    else [Lower(s[0])] + Pep503(s[1..])
  }

  function TrimSeparators(s: string): (t: string)
    ensures t == "" || (!IsSeparator(t[0]) && !IsSeparator(t[|t| - 1]))
    decreases |s|
  {
    if s != "" && IsSeparator(s[0]) then TrimSeparators(s[1..])
    else if s != "" && IsSeparator(s[|s| - 1]) then TrimSeparators(s[..|s| - 1])
    else s
  }

  function TrimDashes(s: string): string
    decreases |s|
  {
    if s != "" && s[0] == '-' then TrimDashes(s[1..])
    else if s != "" && s[|s| - 1] == '-' then TrimDashes(s[..|s| - 1])
    else s
  }

  predicate EndsInSeparator(s: string) { s != "" && IsSeparator(s[|s| - 1]) }

  lemma {:induction false} RunAppend(p: string, c: char)
    ensures RunLength(p + [c]) == if RunLength(p) == |p| && IsSeparator(c) then |p| + 1 else RunLength(p)
  {
    if p != "" {
      assert (p + [c])[1..] == p[1..] + [c];
      RunAppend(p[1..], c);
    } else {
      assert p + [c] == [c] && [c][1..] == "";
    }
  }

  /** One more character at the end: what the loop with its flag does. */
  lemma {:induction false} PepAppend(p: string, c: char)
    ensures Pep503(p + [c]) == Pep503(p) +
              if !IsSeparator(c) then [Lower(c)] else if EndsInSeparator(p) then "" else "-"
    decreases |p|
  {
    var s := p + [c];
    if p == "" {
      assert s == [c] && s[1..] == "";
    } else if !IsSeparator(p[0]) {
      assert s[1..] == p[1..] + [c];
      PepAppend(p[1..], c);
    } else {
      RunAppend(p, c);
      var n := RunLength(p);
      if n < |p| {
        assert s[n..] == p[n..] + [c];
        PepAppend(p[n..], c);
      } else {
        AfterRun(p, c);
      }
    }
  }

  lemma AfterRun(p: string, c: char)
    requires p != "" && RunLength(p) == |p|
    ensures Pep503(p + [c]) == "-" + (if IsSeparator(c) then "" else [Lower(c)]) && Pep503(p) == "-"
  {
    RunAppend(p, c);
    RunThenRest(p);
    RunThenRest(p + [c]);
    assert p[|p|..] == "" && (p + [c])[|p|..] == [c] && (p + [c])[|p| + 1..] == "";
    OneCharacter(c);
  }

  lemma RunThenRest(s: string)
    requires s != "" && IsSeparator(s[0])
    ensures Pep503(s) == "-" + Pep503(s[RunLength(s)..])
  {
  }

  lemma OneCharacter(c: char)
    ensures Pep503([c]) == if IsSeparator(c) then "-" else [Lower(c)]
  {
    assert [c][1..] == "";
  }

  /** The loop over the lowered name, then the trim. */
  method NormalizePyPIName(raw: string) returns (r: string)
    ensures r == Pep503(TrimSeparators(TrimSpace(raw)))
  {
    var name := TrimSpace(raw);
    if name == "" {
      return "";
    }
    var b, lastDash := "", false;
    var lowered := ToLower(name);
    for i := 0 to |lowered|
      invariant b == Pep503(name[..i]) && lastDash == EndsInSeparator(name[..i])
    {
      assert name[..i + 1] == name[..i] + [name[i]];
      PepAppend(name[..i], name[i]);
      var c := lowered[i];
      if c == '.' || c == '_' || c == '-' {
        if !lastDash {
          b := b + "-";
          lastDash := true;
        }
        continue;
      }
      lastDash := false;
      b := b + [c];
    }
    assert name[..|name|] == name;
    TrimCommutes(name);
    r := TrimDashes(b);
  }

  lemma {:induction false} TrimLastDash(x: string)
    ensures TrimDashes(x + "-") == TrimDashes(x)
  {
    if x == "" {
      assert x + "-" == "-" && "-"[1..] == "";
    } else if x[0] == '-' {
      assert (x + "-")[1..] == x[1..] + "-";
      TrimLastDash(x[1..]);
    } else {
      assert (x + "-")[..|x|] == x;
    }
  }

  /** A name with plain edges keeps plain edges. */
  lemma PepEdges(t: string)
    requires t != "" && !IsSeparator(t[0]) && !IsSeparator(t[|t| - 1])
    ensures var p := Pep503(t); p != "" && p[0] == Lower(t[0]) && p[|p| - 1] == Lower(t[|t| - 1])
  {
    assert t == t[..|t| - 1] + [t[|t| - 1]];
    PepAppend(t[..|t| - 1], t[|t| - 1]);
  }

  lemma LeadingSeparator(s: string)
    requires s != "" && IsSeparator(s[0])
    ensures TrimDashes(Pep503(s)) == TrimDashes(Pep503(s[1..]))
  {
  }

  lemma TrailingSeparator(front: string, c: char)
    requires IsSeparator(c)
    ensures TrimDashes(Pep503(front + [c])) == TrimDashes(Pep503(front))
  {
    var p := Pep503(front);
    PepAppend(front, c);
    if EndsInSeparator(front) {
      assert Pep503(front + [c]) == p;
    } else {
      TrimLastDash(p);
    }
  }

  /** Trimming dashes at the end is trimming separators at the start. */
  lemma {:induction false} TrimCommutes(s: string)
    ensures TrimDashes(Pep503(s)) == Pep503(TrimSeparators(s))
    decreases |s|
  {
    if s == "" {
    } else if IsSeparator(s[0]) {
      LeadingSeparator(s);
      TrimCommutes(s[1..]);
    } else if IsSeparator(s[|s| - 1]) {
      assert s == s[..|s| - 1] + [s[|s| - 1]];
      TrailingSeparator(s[..|s| - 1], s[|s| - 1]);
      TrimCommutes(s[..|s| - 1]);
    } else {
      PepEdges(s);
    }
  }

  /** The same letters up to case, and separators in the same places whichever they are. */
  predicate Alike(a: string, b: string) {
    && |a| == |b|
    && forall i :: 0 <= i < |a| ==> Lower(a[i]) == Lower(b[i]) || (IsSeparator(a[i]) && IsSeparator(b[i]))
  }

  lemma {:induction false} AlikeRuns(a: string, b: string)
    requires Alike(a, b)
    ensures RunLength(a) == RunLength(b)
  {
  }

  lemma {:induction false} AlikeIsOneProject(a: string, b: string)
    requires Alike(a, b)
    ensures Pep503(a) == Pep503(b)
    decreases |a|
  {
    AlikeRuns(a, b);
    if a != "" {
      var n := if IsSeparator(a[0]) then RunLength(a) else 1;
      AlikeIsOneProject(a[n..], b[n..]);
    }
  }

  /** Without separators the letters are lowered and nothing else. */
  lemma {:induction false} LettersAreLowered(s: string)
    requires forall i :: 0 <= i < |s| ==> s[i] != '.' && s[i] != '_' && s[i] != '-'
    ensures Pep503(s) == ToLower(s)
  {
    if s != "" {
      var rest := s[1..];
      assert forall i :: 0 <= i < |rest| ==> rest[i] == s[i + 1];
      LettersAreLowered(rest);
      assert ToLower(s) == [Lower(s[0])] + ToLower(rest);
    }
  }

  predicate StartsPlain(s: string) { s != "" ==> !IsSeparator(s[0]) }

  predicate AllSeparators(s: string) { forall i :: 0 <= i < |s| ==> s[i] == '.' || s[i] == '_' || s[i] == '-' }

  lemma DashThenRest(run: string, b: string)
    requires run != "" && AllSeparators(run) && StartsPlain(b)
    ensures Pep503(run + b) == "-" + Pep503(b)
  {
    RunOf(run, b);
    RunThenRest(run + b);
    assert (run + b)[|run|..] == b;
  }

  /** Behind anything but a separator a name is normalized as if it began there. */
  lemma {:induction false} PepSplits(a: string, rest: string)
    requires !EndsInSeparator(a)
    ensures Pep503(a + rest) == Pep503(a) + Pep503(rest)
    decreases |rest|
  {
    if rest == "" {
      assert a + rest == a;
    } else {
      var front, c := rest[..|rest| - 1], rest[|rest| - 1];
      assert rest == front + [c] && a + rest == (a + front) + [c];
      PepSplits(a, front);
      PepAppend(front, c);
      PepAppend(a + front, c);
      assert EndsInSeparator(a + front) == EndsInSeparator(front) by {
        assert front == "" ==> a + front == a;
        assert front != "" ==> (a + front)[|a + front| - 1] == front[|front| - 1];
      }
    }
  }

  /** A run of separators, however long and whichever they are, becomes one dash. */
  lemma RunBecomesDash(a: string, run: string, b: string)
    requires run != "" && AllSeparators(run) && StartsPlain(b) && !EndsInSeparator(a)
    ensures Pep503(a + (run + b)) == Pep503(a) + ("-" + Pep503(b))
  {
    PepSplits(a, run + b);
    DashThenRest(run, b);
  }

  lemma {:induction false} RunOf(run: string, b: string)
    requires AllSeparators(run) && StartsPlain(b)
    ensures RunLength(run + b) == |run|
  {
    if run == "" {
      assert run + b == b;
    } else {
      assert (run + b)[1..] == run[1..] + b;
      RunOf(run[1..], b);
    }
  }

  // ---------------------------------------------------------------- the names that stay as they are

  predicate IsUpper(c: char) { 'A' <= c <= 'Z' }

  /** Lower case, no dot or underscore, no two dashes side by side. */
  predicate Collapsed(s: string) {
    && (forall i :: 0 <= i < |s| ==> !IsUpper(s[i]) && s[i] != '.' && s[i] != '_')
    && forall i :: 0 <= i < |s| - 1 ==> !(s[i] == '-' && s[i + 1] == '-')
  }

  lemma {:induction false} PepCollapses(s: string)
    ensures Collapsed(Pep503(s)) && (Pep503(s) != "" && Pep503(s)[0] == '-' <==> s != "" && IsSeparator(s[0]))
    decreases |s|
  {
    if s != "" {
      PepCollapses(if IsSeparator(s[0]) then s[RunLength(s)..] else s[1..]);
    }
  }

  lemma {:induction false} CollapsedIsFixed(s: string)
    requires Collapsed(s)
    ensures Pep503(s) == s
  {
    if s != "" {
      var rest := s[1..];
      assert forall i :: 0 <= i < |rest| ==> rest[i] == s[i + 1];
      CollapsedIsFixed(rest);
      assert s == [s[0]] + rest;
      if IsSeparator(s[0]) {
        assert |s| > 1 ==> s[1] != '-';
        assert RunLength(rest) == 0 && RunLength(s) == 1;
      }
    }
  }

  function Normalized(raw: string): string { Pep503(TrimSeparators(TrimSpace(raw))) }

  predicate SpaceAtEdge(s: string) { s != "" && (IsSpace(s[0]) || IsSpace(s[|s| - 1])) }

  lemma LowerKeepsSpace(c: char)
    ensures IsSpace(Lower(c)) <==> IsSpace(c)
  {
  }

  lemma {:induction false} TrimSpaceShortens(s: string)
    requires SpaceAtEdge(s)
    ensures |TrimSpace(s)| < |s|
  {
  }

  lemma {:induction false} PepIsNoLonger(s: string)
    ensures |Pep503(s)| <= |s|
    decreases |s|
  {
    if s != "" {
      PepIsNoLonger(if IsSeparator(s[0]) then s[RunLength(s)..] else s[1..]);
    }
  }

  lemma {:induction false} TrimSeparatorsIsNoLonger(s: string)
    ensures |TrimSeparators(s)| <= |s|
    decreases |s|
  {
    if s != "" {
      if IsSeparator(s[0]) {
        TrimSeparatorsIsNoLonger(s[1..]);
      } else if IsSeparator(s[|s| - 1]) {
        TrimSeparatorsIsNoLonger(s[..|s| - 1]);
      }
    }
  }

  /** Normalizing again changes nothing exactly when no blank was hidden behind an outer separator. */
  lemma NormalizedTwice(raw: string)
    ensures Normalized(Normalized(raw)) == Normalized(raw) <==> !SpaceAtEdge(TrimSeparators(TrimSpace(raw)))
  {
    var t := TrimSeparators(TrimSpace(raw));
    var n := Normalized(raw);
    if t != "" {
      PepEdges(t);
      LowerKeepsSpace(t[0]);
      LowerKeepsSpace(t[|t| - 1]);
      if SpaceAtEdge(t) {
        TrimSpaceShortens(n);
        PepIsNoLonger(TrimSeparators(TrimSpace(n)));
        TrimSeparatorsIsNoLonger(TrimSpace(n));
      } else {
        PepCollapses(t);
        CollapsedIsFixed(n);
        assert TrimSpace(n) == n && TrimSeparators(n) == n;
      }
    }
  }

  /** In particular for every name without blanks, where the trims leave only separators to remove. */
  lemma PlainNames(raw: string)
    requires SpaceFree(raw)
    ensures Normalized(raw) == Pep503(TrimSeparators(raw)) == TrimDashes(Pep503(raw))
    ensures Normalized(Normalized(raw)) == Normalized(raw)
  {
    assert TrimSpace(raw) == raw;
    TrimCommutes(raw);
    TrimmedIsSpaceFree(raw);
    NormalizedTwice(raw);
  }

  lemma {:induction false} TrimmedIsSpaceFree(s: string)
    requires SpaceFree(s)
    ensures SpaceFree(TrimSeparators(s))
    decreases |s|
  {
    if s != "" {
      if IsSeparator(s[0]) {
        TrimmedIsSpaceFree(s[1..]);
      } else if IsSeparator(s[|s| - 1]) {
        TrimmedIsSpaceFree(s[..|s| - 1]);
      }
    }
  }

  /** A dash can shield a blank from the first trim. */
  lemma HiddenBlank()
    ensures Normalized("- a") == " a" && Normalized(" a") == "a"
  {
  }
}
