/** The client's in-memory answer cache: a map of string keys to values with an expiry instant.
    Times and durations are counted in nanoseconds, as in Go's time package. */
module Cache {
  import opened Wrappers

  const SECOND: int := 1_000_000_000
  const CACHE_TTL: int := 5 * 60 * SECOND
  const EVICT_ABOVE: nat := 512

  datatype Entry<V> = Entry(data: V, expiresAt: int)

  type Store<V> = map<string, Entry<V>>

  /** getCache: a missing entry and one whose expiry lies strictly in the past are both a miss. */
  function Lookup<V>(c: Store<V>, now: int, key: string): Option<V> {
    if key in c && now <= c[key].expiresAt then Some(c[key].data) else None
  }

  function Evict<V>(c: Store<V>, now: int): Store<V> {
    map k | k in c && now <= c[k].expiresAt :: c[k]
  }

  /** setCache: above the size limit the expired entries go first, then the entry is written. */
  function Put<V>(c: Store<V>, now: int, key: string, v: V): Store<V> {
    (if |c| > EVICT_ABOVE then Evict(c, now) else c)[key := Entry(v, now + CACHE_TTL)]
  }

  /** The same cache if it never evicted anything. */
  function PutKeepingAll<V>(c: Store<V>, now: int, key: string, v: V): Store<V> {
    c[key := Entry(v, now + CACHE_TTL)]
  }

  // ---------------------------------------------------------------- whole runs

  /** One operation on the cache, with the instant the clock showed. */
  datatype Op<V> = Set(at: int, key: string, value: V) | Get(at: int, key: string)

  ghost predicate Monotone<V>(ops: seq<Op<V>>) {
    forall i, j :: 0 <= i < j < |ops| ==> ops[i].at <= ops[j].at
  }

  /** The cache after the first n operations. */
  function After<V>(ops: seq<Op<V>>, n: nat): Store<V>
    requires n <= |ops|
  {
    if n == 0 then map[]
    else
      match ops[n - 1]
      case Set(at, key, v) => Put(After(ops, n - 1), at, key, v)
      case Get(_, _) => After(ops, n - 1)
  }

  /** What a lookup should find, read off the history alone: the newest value set under the key,
      provided it is no older than the time to live. */
  function Newest<V>(ops: seq<Op<V>>, n: nat, now: int, key: string): Option<V>
    requires n <= |ops|
  {
    if n == 0 then None
    else if ops[n - 1].Set? && ops[n - 1].key == key then
      if now - ops[n - 1].at <= CACHE_TTL then Some(ops[n - 1].value) else None
    else Newest(ops, n - 1, now, key)
  }

  /** Over every history with a monotone clock, the evicting cache answers every present and future
      lookup with the newest value set under that key in the last five minutes, and with nothing else. */
  lemma {:induction false} LookupIsNewest<V>(ops: seq<Op<V>>, n: nat, now: int, key: string)
    requires n <= |ops| && Monotone(ops)
    requires forall i :: 0 <= i < n ==> ops[i].at <= now
    ensures Lookup(After(ops, n), now, key) == Newest(ops, n, now, key)
  {
    if n > 0 {
      LookupIsNewest(ops, n - 1, now, key);
    }
  }

  /** Eviction is invisible: one write to caches that no present or future lookup can tell apart
      leaves caches that no present or future lookup can tell apart. */
  ghost predicate Indistinguishable<V(!new)>(a: Store<V>, b: Store<V>, now: int) {
    forall t, k :: now <= t ==> Lookup(a, t, k) == Lookup(b, t, k)
  }

  lemma EvictionUnobservable<V(!new)>(a: Store<V>, b: Store<V>, was: int, now: int, key: string, v: V)
    requires Indistinguishable(a, b, was) && was <= now
    ensures Indistinguishable(Put(a, now, key, v), PutKeepingAll(b, now, key, v), now)
  {
    forall t, k | now <= t
      ensures Lookup(Put(a, now, key, v), t, k) == Lookup(PutKeepingAll(b, now, key, v), t, k)
    {
      assert Lookup(a, t, k) == Lookup(b, t, k);
    }
  }

  /** What the eviction is for: a write to a cache of more than 512 entries leaves no expired entry behind, and a
      write to a smaller one takes nothing away. */
  lemma OversizedPutDropsExpired<V>(c: Store<V>, now: int, key: string, v: V, k: string)
    requires k in c && k != key
    ensures k !in Put(c, now, key, v) <==> |c| > 512 && c[k].expiresAt < now
    ensures k in Put(c, now, key, v) ==> Put(c, now, key, v)[k] == c[k]
  {
  }

  /** A value is found for five minutes after it was kept, to the nanosecond, and not longer. */
  lemma FoundForFiveMinutes<V>(c: Store<V>, at: int, key: string, v: V, now: int)
    ensures Lookup(Put(c, at, key, v), now, key) == if now - at <= 300_000_000_000 then Some(v) else None
  {
  }

  // ---------------------------------------------------------------- keys

  ghost predicate ColonFree(s: string) { ':' !in s }

  function ResolveKey(ecosystem: string, reference: string): string {
    "resolve:" + ecosystem + ":" + reference
  }

  function ProfileKey(ecosystem: string, reference: string): string {
    "profile:" + ecosystem + ":" + reference
  }

  lemma SplitAtColon(a: string, x: string, b: string, y: string)
    requires ColonFree(a) && ColonFree(b)
    requires a + ":" + x == b + ":" + y
    ensures a == b && x == y
  {
    var s := a + ":" + x;
    assert s[|a|] == ':' && s[|b|] == ':';
    assert s[..|a|] == a && s[..|b|] == b;
    assert |a| == |b|;
    assert x == s[|a| + 1..] && y == s[|b| + 1..];
  }

  /** For colon-free ecosystem names a key determines its pair. */
  lemma ResolveKeyInjective(e1: string, r1: string, e2: string, r2: string)
    requires ColonFree(e1) && ColonFree(e2)
    requires ResolveKey(e1, r1) == ResolveKey(e2, r2)
    ensures e1 == e2 && r1 == r2
  {
    assert e1 + ":" + r1 == ResolveKey(e1, r1)[8..];
    assert e2 + ":" + r2 == ResolveKey(e2, r2)[8..];
    SplitAtColon(e1, r1, e2, r2);
  }

  /** Resolution keys and profile keys never meet, whatever the names. */
  lemma KeySpacesDisjoint(e1: string, r1: string, e2: string, r2: string)
    ensures ResolveKey(e1, r1) != ProfileKey(e2, r2)
  {
    assert ResolveKey(e1, r1)[0] == 'r' && ProfileKey(e2, r2)[0] == 'p';
  }

  /** Two ecosystem names have references that share a key exactly if one name with a colon begins the other. */
  lemma EcosystemsCollideExactly(e1: string, e2: string)
    requires e1 != e2
    ensures (exists r1, r2 :: ResolveKey(e1, r1) == ResolveKey(e2, r2)) <==> e1 + ":" <= e2 || e2 + ":" <= e1
  {
    if r1, r2 :| ResolveKey(e1, r1) == ResolveKey(e2, r2) {
      assert e1 + ":" + r1 == ResolveKey(e1, r1)[8..] && e2 + ":" + r2 == ResolveKey(e2, r2)[8..];
      BothBegin(e1 + ":", r1, e2 + ":", r2);
      BeginsProperly(e1, e2);
      BeginsProperly(e2, e1);
    }
    if e1 + ":" <= e2 {
      BeginsCollides(e1, e2);
    } else if e2 + ":" <= e1 {
      BeginsCollides(e2, e1);
      var r1, r2 :| ResolveKey(e2, r1) == ResolveKey(e1, r2);
      assert ResolveKey(e1, r2) == ResolveKey(e2, r1);
    }
  }

  lemma BeginsProperly(a: string, b: string)
    requires a != b
    ensures a + ":" <= b + ":" ==> a + ":" <= b
  {
    var x, y := a + ":", b + ":";
    assert x[..|a|] == a && y[..|b|] == b;
    assert |x| <= |b| ==> y[..|x|] == b[..|x|];
    assert x <= y ==> x[..|a|] == y[..|a|];
  }

  lemma BothBegin(a: string, x: string, b: string, y: string)
    requires a + x == b + y
    ensures a <= b || b <= a
  {
    var s := a + x;
    assert s[..|a|] == a && s[..|b|] == b;
    assert if |a| <= |b| then b[..|a|] == a else a[..|b|] == b;
  }

  lemma BeginsCollides(e1: string, e2: string)
    requires e1 + ":" <= e2
    ensures exists r1, r2 :: ResolveKey(e1, r1) == ResolveKey(e2, r2)
  {
    var rest := (e2 + ":")[|e1| + 1..];
    assert e2 + ":" == e1 + ":" + rest;
    assert ResolveKey(e2, "") == "resolve:" + (e2 + ":");
    assert ResolveKey(e1, rest) == "resolve:" + (e1 + ":" + rest);
  }

  /** With a colon in the ecosystem name, two different pairs can share a key. */
  lemma ColonBreaksKeys()
    ensures ResolveKey("npm", "a:b") == ResolveKey("npm:a", "b")
  {
  }
}
