/** The string searches and trims of Go's strings package that the parsers use, over ASCII. */
module Text {
  /** The first position of c at or after i, or -1. */
  function IndexFrom(s: string, c: char, i: nat): (r: int)
    requires i <= |s|
    ensures r == -1 || (i <= r < |s| && s[r] == c && forall k :: i <= k < r ==> s[k] != c)
    ensures r == -1 ==> forall k :: i <= k < |s| ==> s[k] != c
    decreases |s| - i
  {
    if i == |s| then -1 else if s[i] == c then i else IndexFrom(s, c, i + 1)
  }

  function IndexByte(s: string, c: char): (r: int)
    ensures r == -1 || (0 <= r < |s| && s[r] == c && forall k :: 0 <= k < r ==> s[k] != c)
    ensures r == -1 ==> c !in s
  {
    IndexFrom(s, c, 0)
  }

  /** The last position of c, or -1. */
  function LastIndexByte(s: string, c: char): (r: int)
    ensures r == -1 || (0 <= r < |s| && s[r] == c && forall k :: r < k < |s| ==> s[k] != c)
    ensures r == -1 ==> c !in s
  {
    if s == "" then -1 else if s[|s| - 1] == c then |s| - 1 else LastIndexByte(s[..|s| - 1], c)
  }

  predicate Occurs(s: string, p: string, i: int) { 0 <= i && i + |p| <= |s| && s[i..i + |p|] == p }

  /** strings.Index: the first occurrence of p at or after i, or -1. */
  function FindFrom(s: string, p: string, i: nat): (r: int)
    requires i <= |s|
    ensures r == -1 || (i <= r && Occurs(s, p, r) && forall k :: i <= k < r ==> !Occurs(s, p, k))
    ensures r == -1 ==> forall k :: i <= k <= |s| ==> !Occurs(s, p, k)
    decreases |s| - i
  {
    if Occurs(s, p, i) then i else if i == |s| then -1 else FindFrom(s, p, i + 1)
  }

  function Find(s: string, p: string): (r: int)
    ensures r == -1 || (0 <= r && Occurs(s, p, r) && forall k :: 0 <= k < r ==> !Occurs(s, p, k))
    ensures r == -1 ==> forall k :: 0 <= k <= |s| ==> !Occurs(s, p, k)
  {
    FindFrom(s, p, 0)
  }

  predicate HasPrefix(s: string, p: string) { |p| <= |s| && s[..|p|] == p }

  predicate HasSuffix(s: string, p: string) { |p| <= |s| && s[|s| - |p|..] == p }

  function TrimPrefix(s: string, p: string): string { if HasPrefix(s, p) then s[|p|..] else s }

  function TrimSuffix(s: string, p: string): string { if HasSuffix(s, p) then s[..|s| - |p|] else s }

  /** The ASCII characters that unicode.IsSpace accepts: blank, tab, newline, vertical tab, form feed, return. */
  predicate IsSpace(c: char) { c == ' ' || '\t' <= c <= '\r' }

  lemma BlanksAre(c: char)
    ensures IsSpace(c) <==> c as int in {9, 10, 11, 12, 13, 32}
  {
  }

  predicate SpaceFree(s: string) { forall i :: 0 <= i < |s| ==> !IsSpace(s[i]) }

  function TrimSpace(s: string): (t: string)
    ensures t == "" || (!IsSpace(t[0]) && !IsSpace(t[|t| - 1]))
    ensures |t| <= |s|
    decreases |s|
  {
    if s != "" && IsSpace(s[0]) then TrimSpace(s[1..])
    else if s != "" && IsSpace(s[|s| - 1]) then TrimSpace(s[..|s| - 1])
    else s
  }

  predicate Blank(s: string) { forall i :: 0 <= i < |s| ==> IsSpace(s[i]) }

  lemma {:induction false} TrimPadded(left: string, s: string, right: string)
    requires Blank(left) && Blank(right) && s != "" && !IsSpace(s[0]) && !IsSpace(s[|s| - 1])
    ensures TrimSpace(left + s + right) == s
    decreases |left| + |right|
  {
    var t := left + s + right;
    if left != "" {
      assert t[0] == left[0] && t[1..] == left[1..] + s + right;
      TrimPadded(left[1..], s, right);
    } else if right != "" {
      assert t[0] == s[0] && t[|t| - 1] == right[|right| - 1];
      assert t[..|t| - 1] == left + s + right[..|right| - 1];
      TrimPadded(left, s, right[..|right| - 1]);
    } else {
      assert t == s;
    }
  }

  /** Trimming takes nothing off a front that begins and ends without a blank. */
  lemma {:induction false} TrimKeepsFront(core: string, t: string)
    requires core != "" && !IsSpace(core[0]) && !IsSpace(core[|core| - 1])
    ensures core <= TrimSpace(core + t)
    decreases |t|
  {
    var s := core + t;
    if t == "" {
      assert s == core;
    } else if IsSpace(t[|t| - 1]) {
      assert s[..|s| - 1] == core + t[..|t| - 1];
      TrimKeepsFront(core, t[..|t| - 1]);
    }
  }

  lemma AlreadyTrimmed(s: string)
    requires s != "" && !IsSpace(s[0]) && !IsSpace(s[|s| - 1])
    ensures TrimSpace(s) == s
  {
  }

  function Lower(c: char): (l: char)
    ensures l as int == c as int + if 65 <= c as int <= 90 then 32 else 0
  {
    if 'A' <= c <= 'Z' then c - 'A' + 'a' else c
  }

  function ToLower(s: string): (t: string)
    ensures |t| == |s| && forall i :: 0 <= i < |s| ==> t[i] == Lower(s[i])
  {
    seq(|s|, i requires 0 <= i < |s| => Lower(s[i]))
  }

  /** b continues a behind a separator, and what it continues with stands before y in x. */
  ghost predicate Continues(a: string, x: string, b: string, y: string, sep: char) {
    exists mid :: b == a + [sep] + mid && x == mid + [sep] + y
  }

  lemma ContinuesBySeparator(a: string, x: string, b: string, y: string, sep: char)
    requires Continues(a, x, b, y, sep)
    ensures sep in x
  {
    var mid :| b == a + [sep] + mid && x == mid + [sep] + y;
    assert x[|mid|] == sep;
  }

  /** With the shorter first part first: two different pairs are joined to one text exactly if so. */
  lemma JoinedAlike(a: string, x: string, b: string, y: string, sep: char)
    requires |a| <= |b|
    ensures a + [sep] + x == b + [sep] + y <==> (a == b && x == y) || Continues(a, x, b, y, sep)
  {
    var s, t := a + [sep] + x, b + [sep] + y;
    if s == t {
      assert s[..|a|] == a && s[|a|] == sep && s[|a| + 1..] == x;
      assert t[..|b|] == b && t[|b|] == sep && t[|b| + 1..] == y;
      if |a| < |b| {
        var mid := s[|a| + 1..|b|];
        assert b == a + [sep] + mid;
        assert x == mid + [sep] + y;
      }
    }
    if mid :| b == a + [sep] + mid && x == mid + [sep] + y {
      assert a + [sep] + (mid + [sep] + y) == a + [sep] + mid + [sep] + y;
    }
  }

  /** Whatever the first parts, two different pairs can only be joined to one text if one second part ends in the
      separator and the other; and if one does, some two pairs are. */
  lemma TailsCollideExactly(x: string, y: string, sep: char)
    ensures (exists a, b :: a != b && a + [sep] + x == b + [sep] + y) <==>
            HasSuffix(x, [sep] + y) || HasSuffix(y, [sep] + x)
  {
    if a, b :| a != b && a + [sep] + x == b + [sep] + y {
      if |a| <= |b| {
        EndsInTail(a, x, b, y, sep);
      } else {
        EndsInTail(b, y, a, x, sep);
      }
    }
    if HasSuffix(x, [sep] + y) {
      TailCollides(x, y, sep);
    } else if HasSuffix(y, [sep] + x) {
      TailCollides(y, x, sep);
      var a, b :| a != b && a + [sep] + y == b + [sep] + x;
      assert b + [sep] + x == a + [sep] + y;
    }
  }

  lemma EndsInTail(a: string, x: string, b: string, y: string, sep: char)
    requires |a| <= |b| && a != b && a + [sep] + x == b + [sep] + y
    ensures HasSuffix(x, [sep] + y)
  {
    JoinedAlike(a, x, b, y, sep);
    var mid :| b == a + [sep] + mid && x == mid + [sep] + y;
    assert x[|mid|..] == [sep] + y;
  }

  lemma TailCollides(x: string, y: string, sep: char)
    requires HasSuffix(x, [sep] + y)
    ensures exists a, b :: a != b && a + [sep] + x == b + [sep] + y
  {
    var mid := x[..|x| - |y| - 1];
    assert x == mid + ([sep] + y) == mid + [sep] + y;
    JoinedAlike("", x, "" + [sep] + mid, y, sep);
    assert Continues("", x, "" + [sep] + mid, y, sep);
  }

  /** A name and a separator-free tail, joined by the separator, can be told apart again. */
  lemma SplitAtLast(a: string, x: string, b: string, y: string, sep: char)
    requires sep !in x && sep !in y && a + [sep] + x == b + [sep] + y
    ensures a == b && x == y
  {
    var s := a + [sep] + x;
    assert s[|a|] == sep && s[|b|] == sep;
    assert forall i :: |a| < i < |s| ==> s[i] == x[i - |a| - 1];
    assert forall i :: |b| < i < |s| ==> s[i] == y[i - |b| - 1];
    assert |a| == |b|;
    assert a == s[..|a|] && b == s[..|b|];
    assert x == s[|a| + 1..] && y == s[|b| + 1..];
  }
}
