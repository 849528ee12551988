/** prefetch: which ecosystems get a batch, and for which references. */
module Prefetch {
  import opened Wrappers
  import opened Platform
  import opened ResolvePool

  /** The references of one ecosystem, in order. */
  function ReferencesIn(refs: seq<UniqueRef>, e: string): seq<string> {
    if refs == [] then []
    else
      var n := |refs| - 1;
      ReferencesIn(refs[..n], e) + if refs[n].ecosystem == e then [refs[n].reference] else []
  }

  function Present(refs: seq<UniqueRef>): set<string> { set u | u in refs :: u.ecosystem }

  lemma {:induction false} ListedOnce(refs: seq<UniqueRef>, e: string)
    requires Distinct(refs)
    ensures |ReferencesIn(refs, e)| == |References(refs, e)|
  {
    if refs == [] {
      assert References(refs, e) == {};
    } else {
      var n := |refs| - 1;
      ListedOnce(refs[..n], e);
      assert refs[n] !in refs[..n];
      assert References(refs, e) == References(refs[..n], e) + if refs[n].ecosystem == e then {refs[n]} else {};
    }
  }

  lemma OneMoreReference(refs: seq<UniqueRef>, i: nat)
    requires i < |refs|
    ensures Present(refs[..i + 1]) == Present(refs[..i]) + {refs[i].ecosystem}
    ensures forall e :: ReferencesIn(refs[..i + 1], e) ==
                        ReferencesIn(refs[..i], e) + if refs[i].ecosystem == e then [refs[i].reference] else []
  {
    assert refs[..i + 1][..i] == refs[..i];
  }

  lemma ListedOne(u: UniqueRef, e: string)
    ensures ReferencesIn([u], e) == if u.ecosystem == e then [u.reference] else []
  {
    assert [u][..0] == [];
  }

  /** The list keeps the order of the pairs. */
  lemma {:induction false} ListedInOrder(a: seq<UniqueRef>, b: seq<UniqueRef>, e: string)
    ensures ReferencesIn(a + b, e) == ReferencesIn(a, e) + ReferencesIn(b, e)
  {
    if b == [] {
      assert a + b == a;
    } else {
      var n := |b| - 1;
      ListedInOrder(a, b[..n], e);
      assert (a + b)[..|a| + n] == a + b[..n] && (a + b)[|a| + n] == b[n];
    }
  }

  /** The grouping loop: every ecosystem present gets the list of its references. */
  method GroupByEcosystem(refs: seq<UniqueRef>) returns (byEco: map<string, seq<string>>)
    ensures byEco.Keys == Present(refs)
    ensures forall e :: e in byEco ==> byEco[e] == ReferencesIn(refs, e)
  {
    byEco := map[];
    for i := 0 to |refs|
      invariant byEco.Keys == Present(refs[..i])
      invariant forall e :: e in byEco ==> byEco[e] == ReferencesIn(refs[..i], e)
      invariant forall e :: e !in byEco ==> ReferencesIn(refs[..i], e) == []
    {
      var e := refs[i].ecosystem;
      OneMoreReference(refs, i);
      byEco := byEco[e := (if e in byEco then byEco[e] else []) + [refs[i].reference]];
    }
    assert refs[..|refs|] == refs;
  }

  /** The sending loop, over the groups in any order: a batch goes out for exactly the batchable ecosystems,
      once each. */
  method ChooseBatches(refs: seq<UniqueRef>, resolvers: set<string>) returns (batches: seq<string>)
    requires Distinct(refs)
    ensures Distinct(batches)
    ensures (set e | e in batches) == Batchable(Config(refs, resolvers))
  {
    var byEco := GroupByEcosystem(refs);
    batches := [];
    var left := byEco.Keys;
    while left != {}
      invariant left <= byEco.Keys
      invariant Distinct(batches) && forall e :: e in batches ==> e !in left
      invariant forall e :: e in batches <==> e in byEco.Keys - left && e in resolvers && |byEco[e]| >= 2
      decreases |left|
    {
      var e :| e in left;
      left := left - {e};
      if e in resolvers && |byEco[e]| >= 2 {
        batches := batches + [e];
      }
    }
    forall e ensures e in batches <==> e in Batchable(Config(refs, resolvers)) {
      ListedOnce(refs, e);
    }
  }
}
