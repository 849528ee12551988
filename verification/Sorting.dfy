/** Byte-wise string order, and sorting by a list of strings as sort.Slice does it in this program: compare
    the first field, then the next one on a tie. */
module Sorting {

  predicate StrLess(a: string, b: string) {
    if b == "" then false
    else if a == "" then true
    else if a[0] != b[0] then a[0] < b[0]
    else StrLess(a[1..], b[1..])
  }

  lemma {:induction false} StrTotal(a: string, b: string)
    ensures StrLess(a, b) || StrLess(b, a) || a == b
    ensures !(StrLess(a, b) && StrLess(b, a))
    ensures !StrLess(a, a)
  {
    if a != "" {
      StrTotal(a[1..], a[1..]);
      if b != "" {
        StrTotal(a[1..], b[1..]);
        assert a == [a[0]] + a[1..] && b == [b[0]] + b[1..];
      }
    }
  }

  lemma {:induction false} StrTransitive(a: string, b: string, c: string)
    requires StrLess(a, b) && StrLess(b, c)
    ensures StrLess(a, c)
  {
    if a != "" && a[0] == b[0] == c[0] {
      StrTransitive(a[1..], b[1..], c[1..]);
    }
  }

  /** Byte-wise: at the first difference the smaller character, or the end of the shorter string, comes first. */
  ghost predicate Precedes(a: string, b: string, k: nat) {
    k <= |a| && k < |b| && a[..k] == b[..k] && (k == |a| || a[k] < b[k])
  }

  lemma {:induction false} StrLessExactly(a: string, b: string)
    ensures StrLess(a, b) <==> exists k :: Precedes(a, b, k)
  {
    if b == "" {
    } else if a == "" || a[0] != b[0] {
      assert StrLess(a, b) ==> Precedes(a, b, 0);
      FirstDiffers(a, b);
    } else {
      StrLessExactly(a[1..], b[1..]);
      if k: nat :| Precedes(a[1..], b[1..], k) {
        assert a[..k + 1] == [a[0]] + a[1..][..k] && b[..k + 1] == [b[0]] + b[1..][..k];
        assert Precedes(a, b, k + 1);
      }
      if k: nat :| Precedes(a, b, k) {
        assert k > 0;
        assert a[1..][..k - 1] == a[..k][1..] && b[1..][..k - 1] == b[..k][1..];
        assert Precedes(a[1..], b[1..], k - 1);
      }
    }
  }

  lemma FirstDiffers(a: string, b: string)
    requires b != "" && (a == "" || a[0] != b[0])
    ensures forall k :: Precedes(a, b, k) ==> k == 0
  {
    forall k: nat ensures Precedes(a, b, k) ==> k == 0 {
      if 0 < k <= |a| && k < |b| {
        assert a[..k][0] == a[0] && b[..k][0] == b[0];
      }
    }
  }

  type Key = seq<string>

  lemma KeyLessHead(a: Key, b: Key)
    requires a != [] && b != []
    ensures KeyLess(a, b) <==> StrLess(a[0], b[0]) || (a[0] == b[0] && KeyLess(a[1..], b[1..]))
  {
    StrTotal(a[0], b[0]);
  }

  /** Of keys with three fields the first that differs decides. */
  lemma KeyLessExactly(a: Key, b: Key)
    requires |a| == |b| == 3
    ensures KeyLess(a, b) <==> || StrLess(a[0], b[0])
                               || (a[0] == b[0] && StrLess(a[1], b[1]))
                               || (a[0] == b[0] && a[1] == b[1] && StrLess(a[2], b[2]))
  {
    KeyLessHead(a, b);
    KeyLessHead(a[1..], b[1..]);
    KeyLessHead(a[1..][1..], b[1..][1..]);
    assert a[1..][0] == a[1] && a[1..][1..][0] == a[2] && a[1..][1..][1..] == [];
    assert b[1..][0] == b[1] && b[1..][1..][0] == b[2] && b[1..][1..][1..] == [];
  }

  predicate KeyLess(a: Key, b: Key) {
    if b == [] then false
    else if a == [] then true
    else if a[0] != b[0] then StrLess(a[0], b[0])
    else KeyLess(a[1..], b[1..])
  }

  lemma {:induction false} KeyTotal(a: Key, b: Key)
    ensures KeyLess(a, b) || KeyLess(b, a) || a == b
    ensures !(KeyLess(a, b) && KeyLess(b, a))
    ensures !KeyLess(a, a)
  {
    if a != [] {
      KeyTotal(a[1..], a[1..]);
      if b != [] {
        StrTotal(a[0], b[0]);
        KeyTotal(a[1..], b[1..]);
        assert a == [a[0]] + a[1..] && b == [b[0]] + b[1..];
      }
    }
  }

  lemma {:induction false} KeyTransitive(a: Key, b: Key, c: Key)
    requires KeyLess(a, b) && KeyLess(b, c)
    ensures KeyLess(a, c)
  {
    if a != [] {
      StrTotal(a[0], b[0]);
      StrTotal(b[0], c[0]);
      if a[0] == b[0] == c[0] {
        KeyTransitive(a[1..], b[1..], c[1..]);
      } else if a[0] != b[0] && b[0] != c[0] {
        StrTransitive(a[0], b[0], c[0]);
        StrTotal(a[0], c[0]);
      }
    }
  }

  /** Never a later element before an earlier one; equal keys may stand in any order. */
  ghost predicate Sorted<T>(key: T -> Key, s: seq<T>) {
    forall i, j :: 0 <= i < j < |s| ==> !KeyLess(key(s[j]), key(s[i]))
  }

  ghost predicate StrictlySorted<T>(key: T -> Key, s: seq<T>) {
    forall i, j :: 0 <= i < j < |s| ==> KeyLess(key(s[i]), key(s[j]))
  }

  function Insert<T>(key: T -> Key, x: T, s: seq<T>): seq<T> {
    if s == [] then [x]
    else if KeyLess(key(x), key(s[0])) then [x] + s
    else [s[0]] + Insert(key, x, s[1..])
  }

  /** A sorted arrangement of s; sort.Slice promises no more than that. */
  function Sort<T>(key: T -> Key, s: seq<T>): seq<T> {
    if s == [] then [] else Insert(key, s[0], Sort(key, s[1..]))
  }

  lemma NotBefore(x: Key, first: Key, other: Key)
    requires KeyLess(x, first) && !KeyLess(other, first)
    ensures !KeyLess(other, x)
  {
    if KeyLess(other, x) {
      KeyTransitive(other, x, first);
    }
  }

  lemma {:induction false} InsertCounts<T>(key: T -> Key, x: T, s: seq<T>)
    ensures multiset(Insert(key, x, s)) == multiset(s) + multiset{x}
  {
    if s != [] {
      assert s == [s[0]] + s[1..];
      InsertCounts(key, x, s[1..]);
    }
  }

  lemma {:induction false} InsertKeeps<T>(key: T -> Key, x: T, s: seq<T>)
    requires Sorted(key, s)
    ensures Sorted(key, Insert(key, x, s))
  {
    if s == [] {
    } else if KeyLess(key(x), key(s[0])) {
      forall j | 0 <= j < |s| ensures !KeyLess(key(s[j]), key(x)) {
        KeyTotal(key(s[0]), key(s[j]));
        NotBefore(key(x), key(s[0]), key(s[j]));
      }
    } else {
      InsertKeeps(key, x, s[1..]);
      FirstStaysFirst(key, x, s);
    }
  }

  lemma FirstStaysFirst<T>(key: T -> Key, x: T, s: seq<T>)
    requires s != [] && Sorted(key, s) && !KeyLess(key(x), key(s[0]))
    ensures forall y :: y in Insert(key, x, s[1..]) ==> !KeyLess(key(y), key(s[0]))
  {
    var rest := Insert(key, x, s[1..]);
    InsertCounts(key, x, s[1..]);
    forall y | y in rest ensures !KeyLess(key(y), key(s[0])) {
      assert y in multiset(rest);
      assert y == x || y in s[1..];
    }
  }

  lemma {:induction false} SortSorts<T>(key: T -> Key, s: seq<T>)
    ensures Sorted(key, Sort(key, s))
    ensures multiset(Sort(key, s)) == multiset(s)
  {
    if s != [] {
      assert s == [s[0]] + s[1..];
      SortSorts(key, s[1..]);
      InsertKeeps(key, s[0], Sort(key, s[1..]));
      InsertCounts(key, s[0], Sort(key, s[1..]));
    }
  }

  ghost predicate DistinctKeys<T>(key: T -> Key, s: seq<T>) {
    forall i, j :: 0 <= i < j < |s| ==> key(s[i]) != key(s[j])
  }

  ghost function Members<T(!new)>(s: seq<T>): set<T> { set x | x in s }

  lemma {:induction false} DistinctByCount<T>(key: T -> Key, s: seq<T>, t: seq<T>)
    requires multiset(s) == multiset(t) && DistinctKeys(key, s)
    ensures DistinctKeys(key, t)
  {
    forall i, j | 0 <= i < j < |t| ensures key(t[i]) != key(t[j]) {
      if key(t[i]) == key(t[j]) {
        assert t[i] in multiset(s) && t[j] in multiset(s);
        var a :| 0 <= a < |s| && s[a] == t[i];
        var b :| 0 <= b < |s| && s[b] == t[j];
        assert a == b;
        TwiceCounted(t, i, j);
        OnceCounted(key, s, a);
        assert false;
      }
    }
  }

  lemma TwiceCounted<T>(t: seq<T>, i: nat, j: nat)
    requires i < j < |t| && t[i] == t[j]
    ensures multiset(t)[t[i]] >= 2
  {
    assert t == t[..j] + t[j..];
    assert t[i] in t[..j] && t[j] in t[j..];
  }

  lemma {:induction false} OnceCounted<T>(key: T -> Key, s: seq<T>, a: nat)
    requires DistinctKeys(key, s) && a < |s|
    ensures multiset(s)[s[a]] == 1
  {
    assert s == s[..a] + [s[a]] + s[a + 1..];
    assert s[a] !in s[..a] && s[a] !in s[a + 1..];
  }

  /** Sorting elements with distinct keys gives the strictly increasing list of exactly those elements. */
  lemma SortDistinct<T(!new)>(key: T -> Key, s: seq<T>)
    requires DistinctKeys(key, s)
    ensures StrictlySorted(key, Sort(key, s))
    ensures Members(Sort(key, s)) == Members(s)
  {
    var t := Sort(key, s);
    SortSorts(key, s);
    DistinctByCount(key, s, t);
    forall i, j | 0 <= i < j < |t| ensures KeyLess(key(t[i]), key(t[j])) {
      KeyTotal(key(t[i]), key(t[j]));
    }
    forall x ensures x in t <==> x in s {
      assert x in t <==> x in multiset(t);
    }
  }

  /** Such a list is determined by its elements: the order they came in, and the algorithm, do not matter. */
  lemma {:induction false} StrictlySortedUnique<T(!new)>(key: T -> Key, s: seq<T>, t: seq<T>)
    requires StrictlySorted(key, s) && StrictlySorted(key, t) && Members(s) == Members(t)
    ensures s == t
  {
    assert t != [] ==> t[0] in Members(t);
    if s == [] {
    } else {
      assert s[0] in Members(s);
      assert s[0] in t;
      assert t[0] in Members(t);
      assert t[0] in s;
      HeadIsLeast(key, s, t[0]);
      HeadIsLeast(key, t, s[0]);
      KeyTotal(key(s[0]), key(t[0]));
      assert s[0] == t[0];
      TailMembers(key, s);
      TailMembers(key, t);
      StrictlySortedUnique(key, s[1..], t[1..]);
      assert s == [s[0]] + s[1..] && t == [t[0]] + t[1..];
    }
  }

  lemma HeadIsLeast<T>(key: T -> Key, s: seq<T>, x: T)
    requires StrictlySorted(key, s) && x in s
    ensures x == s[0] || KeyLess(key(s[0]), key(x))
  {
  }

  lemma TailMembers<T(!new)>(key: T -> Key, s: seq<T>)
    requires StrictlySorted(key, s) && s != []
    ensures Members(s[1..]) == Members(s) - {s[0]}
  {
    assert s == [s[0]] + s[1..];
    forall i | 0 < i < |s| ensures s[i] != s[0] {
      KeyTotal(key(s[0]), key(s[0]));
      assert KeyLess(key(s[0]), key(s[i]));
    }
  }
}
