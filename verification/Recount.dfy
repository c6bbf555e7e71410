/**
  Two ways of asking whether provider p can serve model m: from the index, and by recounting the client tables.
  The recount passes over marks of a client whose identifier is empty; the index does not.
 */
module Recount {
  import opened Prelude
  import opened Registrations
  import opened RegistryTables
  import opened Listings

  /** The recount's rule: how many units the client tables show, and the named clients' marks. */
  ghost predicate RecountAvailable(t: Tables, m: string, p: string, now: int) {
    var n := ProviderTotal(t, m, p);
    && n > 0
    && (if m in t.models then
          var r := t.models[m];
          Servable(n, |Exhausted(t, r, p, now) - {""}|, |CoolingDown(t, r, p) - {""}|, |Suspended(t, r, p) - {""}|)
        else Servable(n, 0, 0, 0))
  }

  ghost predicate IndexAvailable(t: Tables, m: string, p: string, now: int) {
    m in t.models && Available(t, t.models[m], p, now)
  }

  /** The nameless client is over quota for p, and exactly its unit is missing beside named suspended clients. */
  ghost predicate NamelessClientDecides(t: Tables, m: string, p: string, now: int) {
    && m in t.models
    && "" in Exhausted(t, t.models[m], p, now)
    && Suspended(t, t.models[m], p) != {}
    && ProviderTotal(t, m, p) == |Exhausted(t, t.models[m], p, now)| + |Suspended(t, t.models[m], p)|
  }

  /** A suspension is only ever recorded for a named client. */
  ghost predicate SuspensionsNamed(t: Tables) {
    forall m | m in t.models :: "" !in t.models[m].suspended
  }

  lemma SlotKeepsSuspensionsNamed(t: Tables, c: string, p: string, list: seq<Option<ModelInfo>>, m: string)
    requires m in t.models ==> "" !in t.models[m].suspended
    ensures SlotAfter(t, c, p, list, m).Some? ==> "" !in SlotAfter(t, c, p, list, m).value.suspended
  {}

  lemma RegisterKeepsSuspensionsNamed(t: Tables, c: string, p: string, list: seq<Option<ModelInfo>>)
    requires Consistent(t) && SuspensionsNamed(t)
    ensures SuspensionsNamed(AfterRegister(t, c, p, list))
  {
    var u := AfterRegister(t, c, p, list);
    forall m | m in u.models ensures "" !in u.models[m].suspended {
      assert u.models[m] == SlotAfter(t, c, p, list, m).value;
      SlotKeepsSuspensionsNamed(t, c, p, list, m);
    }
  }

  /** Conservation makes the two ways agree, except in the one case where the nameless client decides. */
  lemma RecountAgreesWithIndex(t: Tables, m: string, p: string, now: int)
    requires Consistent(t) && SuspensionsNamed(t) && p != NO_PROVIDER
    ensures RecountAvailable(t, m, p, now) == IndexAvailable(t, m, p, now) <==> !NamelessClientDecides(t, m, p, now)
  {
    assert Balanced(t, m);
    assert Tally(SlotOf(t.models, m), p) == ProviderTotal(t, m, p);
    if m in t.models {
      var r := t.models[m];
      assert CoolingDown(t, r, p) - {""} == CoolingDown(t, r, p);
      assert Suspended(t, r, p) - {""} == Suspended(t, r, p);
      if "" !in Exhausted(t, r, p, now) {
        assert Exhausted(t, r, p, now) - {""} == Exhausted(t, r, p, now);
      }
    }
  }
}
