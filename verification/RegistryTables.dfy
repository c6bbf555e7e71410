/**
  The registry's tables as one value: the per-model index next to the per-client tables it must agree with.
  Count and Providers are redundant: they must always be the sums this module defines over the client tables.
 */
module RegistryTables {
  import opened Prelude
  import opened Registrations

  datatype Tables = Tables(
    models: map<string, Registration>,
    clientModels: map<string, seq<string>>,
    clientInfos: map<string, map<string, ModelInfo>>,
    clientProviders: map<string, string>)

  function SlotOf(models: map<string, Registration>, m: string): Slot {
    if m in models then Some(models[m]) else None
  }

  lemma SlotsDetermineModels(a: map<string, Registration>, b: map<string, Registration>)
    requires forall m :: SlotOf(a, m) == SlotOf(b, m)
    ensures a == b
  {
    forall m ensures m in a <==> m in b { assert SlotOf(a, m) == SlotOf(b, m); }
    forall m | m in a ensures a[m] == b[m] { assert SlotOf(a, m) == SlotOf(b, m); }
  }

  function ProviderOf(t: Tables, c: string): string {
    if c in t.clientProviders then t.clientProviders[c] else NO_PROVIDER
  }

  /** How often client c lists model m. */
  function ListedBy(t: Tables, c: string, m: string): nat {
    if c in t.clientModels then multiset(t.clientModels[c])[m] else 0
  }

  // ---------------------------------------------------------------- the sums

  ghost function Weights(t: Tables, m: string): map<string, nat> {
    map c | c in t.clientModels :: ListedBy(t, c, m)
  }

  ghost function ProviderWeights(t: Tables, m: string, p: string): map<string, nat> {
    map c | c in t.clientModels :: Share(ProviderOf(t, c), p, ListedBy(t, c, m))
  }

  /** The total multiplicity of model m over all clients' lists, and over the clients whose provider is p. */
  ghost function Total(t: Tables, m: string): nat { Sum(Weights(t, m)) }

  ghost function ProviderTotal(t: Tables, m: string, p: string): nat { Sum(ProviderWeights(t, m, p)) }

  /** Everything but client c's own part of the two sums. */
  ghost function OthersTotal(t: Tables, c: string, m: string): nat { Sum(Weights(t, m) - {c}) }

  ghost function OthersProviderTotal(t: Tables, c: string, m: string, p: string): nat {
    Sum(ProviderWeights(t, m, p) - {c})
  }

  lemma TotalSplits(t: Tables, c: string, m: string, p: string)
    ensures Total(t, m) == OthersTotal(t, c, m) + ListedBy(t, c, m)
    ensures ProviderTotal(t, m, p) == OthersProviderTotal(t, c, m, p) + Share(ProviderOf(t, c), p, ListedBy(t, c, m))
  {
    SumUpdate(Weights(t, m), c, 0);
    SumUpdate(ProviderWeights(t, m, p), c, 0);
  }

  /** If nobody else lists the model, nobody else is in any provider's tally either. */
  lemma NobodyElse(t: Tables, c: string, m: string, p: string)
    requires OthersTotal(t, c, m) == 0
    ensures OthersProviderTotal(t, c, m, p) == 0
  {
    var w, v := Weights(t, m) - {c}, ProviderWeights(t, m, p) - {c};
    SumZero(w);
    SumZero(v);
    forall d | d in v ensures v[d] == 0 { assert d in w && w[d] == 0; }
  }

  // ---------------------------------------------------------------- the conservation invariant

  /** The index entry of model m is exactly what the client tables say. */
  ghost predicate Balanced(t: Tables, m: string) {
    && WellKept(SlotOf(t.models, m), m)
    && Count(SlotOf(t.models, m)) == Total(t, m)
    && forall p :: Tally(SlotOf(t.models, m), p) == ProviderTotal(t, m, p)
  }

  /** The client tables agree among themselves: a client has infos exactly for what it lists. */
  ghost predicate ClientWellKept(t: Tables, c: string) {
    c in t.clientModels ==>
      && t.clientModels[c] != [] && "" !in t.clientModels[c]
      && c in t.clientInfos
      && (forall m :: m in t.clientInfos[c] <==> m in t.clientModels[c])
      && (forall m | m in t.clientInfos[c] :: t.clientInfos[c][m].id == m)
  }

  ghost predicate Consistent(t: Tables) {
    && (forall m :: Balanced(t, m))
    && t.clientInfos.Keys == t.clientModels.Keys
    && (forall c :: ClientWellKept(t, c))
    && t.clientProviders.Keys <= t.clientModels.Keys
    && (forall c | c in t.clientProviders :: t.clientProviders[c] != NO_PROVIDER)
  }

  /** A model nobody else lists has no provider tally but the client's own. */
  lemma SoleClientTally(t: Tables, c: string, m: string, p: string)
    requires Balanced(t, m) && OthersTotal(t, c, m) == 0
    ensures Tally(SlotOf(t.models, m), p) == Share(ProviderOf(t, c), p, ListedBy(t, c, m))
  {
    TotalSplits(t, c, m, p);
    NobodyElse(t, c, m, p);
  }

  lemma TalliesDetermineProviders(slot: Slot, m: string, q: string, n: nat)
    requires slot.Some? && WellKept(slot, m) && forall p :: Tally(slot, p) == Share(q, p, n)
    ensures slot.value.providers == Credit(map[], q, n)
  {
    var ps := slot.value.providers;
    forall p ensures (p in ps <==> p in Credit(map[], q, n)) && (p in ps ==> ps[p] == n) {
      assert Tally(slot, p) == Share(q, p, n);
    }
  }

  /** A client's own list is always really held by the index. */
  lemma ConsistentHolds(t: Tables, c: string, m: string)
    requires Balanced(t, m)
    ensures Holds(SlotOf(t.models, m), ProviderOf(t, c), ListedBy(t, c, m))
  {
    var slot, q, n := SlotOf(t.models, m), ProviderOf(t, c), ListedBy(t, c, m);
    TotalSplits(t, c, m, q);
    assert Tally(slot, q) == ProviderTotal(t, m, q);
    if slot.Some? && slot.value.count == n {
      forall p ensures Tally(slot, p) == Share(q, p, n) { SoleClientTally(t, c, m, p); }
      TalliesDetermineProviders(slot, m, q, n);
    }
  }

  /** A model is present exactly when some client lists it. */
  lemma PresentIffListed(t: Tables, m: string)
    requires Consistent(t)
    ensures m in t.models <==> exists c :: c in t.clientModels && m in t.clientModels[c]
  {
    assert Balanced(t, m);
    SumZero(Weights(t, m));
    if m in t.models {
      var c :| c in Weights(t, m) && Weights(t, m)[c] != 0;
      assert m in t.clientModels[c];
    } else {
      forall c | c in t.clientModels ensures m !in t.clientModels[c] { assert Weights(t, m)[c] == 0; }
    }
  }

  /** The counters are positive, so no provider is kept with a zero tally. */
  lemma ProviderPresentIffServed(t: Tables, m: string, p: string)
    requires Consistent(t) && m in t.models
    ensures p in t.models[m].providers
            <==> p != NO_PROVIDER && exists c :: c in t.clientModels && ProviderOf(t, c) == p && m in t.clientModels[c]
  {
    assert Balanced(t, m);
    var w := ProviderWeights(t, m, p);
    SumZero(w);
    assert Tally(SlotOf(t.models, m), p) == Sum(w);
    if p in t.models[m].providers {
      var c :| c in w && w[c] != 0;
      assert m in t.clientModels[c] && ProviderOf(t, c) == p;
    } else if p != NO_PROVIDER {
      forall c | c in t.clientModels && ProviderOf(t, c) == p ensures m !in t.clientModels[c] { assert w[c] == 0; }
    }
  }

  // ---------------------------------------------------------------- registering and unregistering

  predicate Usable(model: Option<ModelInfo>) { model.Some? && model.value.id != "" }

  /** The identifiers of the usable models of a list, in order and with repetitions. */
  function Ids(list: seq<Option<ModelInfo>>): seq<string> {
    if list == [] then []
    else
      var front := Ids(list[..|list| - 1]);
      var last := list[|list| - 1];
      if Usable(last) then front + [last.value.id] else front
  }

  /** For each listed identifier, the first model of the list that carries it. */
  function FirstInfos(list: seq<Option<ModelInfo>>): map<string, ModelInfo> {
    if list == [] then map[]
    else
      var front := FirstInfos(list[..|list| - 1]);
      var last := list[|list| - 1];
      if Usable(last) && last.value.id !in front then front[last.value.id := last.value] else front
  }

  lemma {:induction false} FirstInfosOfIds(list: seq<Option<ModelInfo>>, m: string)
    ensures m in FirstInfos(list) <==> m in Ids(list)
    ensures m in FirstInfos(list) ==> FirstInfos(list)[m].id == m
    ensures "" !in Ids(list)
    ensures m in FirstInfos(list) ==> exists i :: 0 <= i < |list| && list[i] == Some(FirstInfos(list)[m])
                                                  && forall j | 0 <= j < i :: !Usable(list[j]) || list[j].value.id != m
    ensures m in Ids(list) <==> m != "" && exists i :: 0 <= i < |list| && list[i].Some? && list[i].value.id == m
  {
    if list != [] {
      var front, last := list[..|list| - 1], list[|list| - 1];
      FirstInfosOfIds(front, m);
      if m in FirstInfos(front) {
        var i :| 0 <= i < |front| && front[i] == Some(FirstInfos(front)[m])
                 && forall j | 0 <= j < i :: !Usable(front[j]) || front[j].value.id != m;
        assert list[i] == Some(FirstInfos(list)[m]);
        assert forall j | 0 <= j < i :: list[j] == front[j];
      } else if Usable(last) && last.value.id == m {
        assert list[|front|] == Some(FirstInfos(list)[m]);
        forall j | 0 <= j < |front| ensures !Usable(list[j]) || list[j].value.id != m { assert list[j] == front[j]; }
      }
      if i :| 0 <= i < |list| && list[i].Some? && list[i].value.id == m && m != "" {
        assert i < |front| ==> front[i] == list[i];
      }
      if m in Ids(front) {
        var i :| 0 <= i < |front| && front[i].Some? && front[i].value.id == m;
        assert list[i] == front[i];
      }
    }
  }

  /** Where a registered list names model m. */
  ghost function Positions(list: seq<Option<ModelInfo>>, m: string): set<int> {
    set i | 0 <= i < |list| && list[i].Some? && list[i].value.id == m
  }

  /** Every occurrence in the list counts, however often the identifier is repeated. */
  lemma {:induction false} EveryOccurrenceCounts(list: seq<Option<ModelInfo>>, m: string)
    requires m != ""
    ensures multiset(Ids(list))[m] == |Positions(list, m)|
  {
    if list != [] {
      var n := |list| - 1;
      EveryOccurrenceCounts(list[..n], m);
      if list[n].Some? && list[n].value.id == m {
        assert Positions(list, m) == Positions(list[..n], m) + {n};
      } else {
        assert Positions(list, m) == Positions(list[..n], m);
      }
    }
  }

  /** The identifiers stand in the order of the list: number k is from position at[k], and no named model is skipped. */
  lemma {:induction false} IdsInOrder(list: seq<Option<ModelInfo>>) returns (at: seq<nat>)
    ensures IdsAt(list, Ids(list), at)
  {
    at := [];
    if list != [] {
      var n := |list| - 1;
      at := IdsInOrder(list[..n]);
      OneMoreId(list[..n], list[n], Ids(list[..n]), at);
      assert list[..n] + [list[n]] == list;
      if list[n].Some? && list[n].value.id != "" { at := at + [n]; }
    }
  }

  ghost predicate IdsAt(list: seq<Option<ModelInfo>>, ids: seq<string>, at: seq<nat>) {
    && |at| == |ids|
    && (forall j, k | 0 <= j < k < |at| :: at[j] < at[k])
    && (forall k | 0 <= k < |at| :: at[k] < |list| && list[at[k]].Some? && list[at[k]].value.id == ids[k] != "")
    && (forall i | 0 <= i < |list| && list[i].Some? && list[i].value.id != "" :: i in at)
  }

  lemma OneMoreId(list: seq<Option<ModelInfo>>, last: Option<ModelInfo>, ids: seq<string>, at: seq<nat>)
    requires IdsAt(list, ids, at)
    ensures if last.Some? && last.value.id != "" then IdsAt(list + [last], ids + [last.value.id], at + [|list|])
            else IdsAt(list + [last], ids, at)
  {
    forall i: int | i in at ensures i in at + [|list|] {}
  }

  function InfoOf(infos: map<string, ModelInfo>, m: string): ModelInfo {
    if m in infos then infos[m] else ModelInfo(m, "")
  }

  function ChangeOf(t: Tables, c: string, p: string, list: seq<Option<ModelInfo>>, m: string): Change {
    Change(c, ProviderOf(t, c), p, ListedBy(t, c, m), multiset(Ids(list))[m], InfoOf(FirstInfos(list), m))
  }

  /** The slot of model m once client c has registered list under provider p. */
  function SlotAfter(t: Tables, c: string, p: string, list: seq<Option<ModelInfo>>, m: string): Slot {
    var ch := ChangeOf(t, c, p, list, m);
    if c in t.clientModels || Ids(list) == [] then Rebalanced(SlotOf(t.models, m), ch)
    else Offer(SlotOf(t.models, m), p, ch.info, ch.after)
  }

  function ModelsAfterRegister(t: Tables, c: string, p: string, list: seq<Option<ModelInfo>>)
    : map<string, Registration>
  {
    map m | m in t.models.Keys + FirstInfos(list).Keys && SlotAfter(t, c, p, list, m).Some?
      :: SlotAfter(t, c, p, list, m).value
  }

  /** The tables once client c has registered list under provider p; an empty list leaves no trace of the client. */
  function AfterRegister(t: Tables, c: string, p: string, list: seq<Option<ModelInfo>>): Tables {
    var models := ModelsAfterRegister(t, c, p, list);
    if Ids(list) == [] then
      Tables(models, t.clientModels - {c}, t.clientInfos - {c}, t.clientProviders - {c})
    else
      Tables(models, t.clientModels[c := Ids(list)], t.clientInfos[c := FirstInfos(list)],
             if p != NO_PROVIDER then t.clientProviders[c := p] else t.clientProviders - {c})
  }

  function AfterUnregister(t: Tables, c: string): Tables { AfterRegister(t, c, NO_PROVIDER, []) }

  /** A list without usable models is the same as unregistering. */
  lemma EmptyListUnregisters(t: Tables, c: string, p: string, list: seq<Option<ModelInfo>>)
    requires Ids(list) == []
    ensures AfterRegister(t, c, p, list) == AfterUnregister(t, c)
  {
    forall m ensures m !in FirstInfos(list) && SlotAfter(t, c, p, list, m) == SlotAfter(t, c, NO_PROVIDER, [], m) {
      FirstInfosOfIds(list, m);
    }
    assert FirstInfos(list).Keys == FirstInfos([]).Keys;
    assert ModelsAfterRegister(t, c, p, list) == ModelsAfterRegister(t, c, NO_PROVIDER, []);
  }

  lemma SlotsAfterRegister(t: Tables, c: string, p: string, list: seq<Option<ModelInfo>>, m: string)
    requires Balanced(t, m)
    ensures SlotOf(AfterRegister(t, c, p, list).models, m) == SlotAfter(t, c, p, list, m)
  {
    FirstInfosOfIds(list, m);
    ConsistentHolds(t, c, m);
  }

  /** Tables that differ only in client c's own rows agree on everybody else's part of the sums. */
  lemma OthersUndisturbed(t: Tables, u: Tables, c: string, m: string, q: string)
    requires forall d | d != c :: d in t.clientModels <==> d in u.clientModels
    requires forall d | d != c :: ListedBy(t, d, m) == ListedBy(u, d, m)
    requires forall d | d != c :: ProviderOf(t, d) == ProviderOf(u, d)
    ensures Weights(u, m) - {c} == Weights(t, m) - {c}
    ensures ProviderWeights(u, m, q) - {c} == ProviderWeights(t, m, q) - {c}
  {
    SameOthers(Weights(u, m), Weights(t, m), c);
    forall d | d != c && d in t.clientModels ensures ProviderWeights(u, m, q)[d] == ProviderWeights(t, m, q)[d] {
      assert ListedBy(t, d, m) == ListedBy(u, d, m) && ProviderOf(t, d) == ProviderOf(u, d);
    }
    SameOthers(ProviderWeights(u, m, q), ProviderWeights(t, m, q), c);
  }

  lemma SameOthers(a: map<string, nat>, b: map<string, nat>, c: string)
    requires forall d | d != c :: (d in a <==> d in b) && (d in a ==> a[d] == b[d])
    ensures a - {c} == b - {c}
  {}

  lemma OnlyOwnRowsChange(t: Tables, c: string, p: string, list: seq<Option<ModelInfo>>, m: string)
    ensures var u := AfterRegister(t, c, p, list);
            && (forall d | d != c :: d in t.clientModels <==> d in u.clientModels)
            && (forall d | d != c :: ListedBy(t, d, m) == ListedBy(u, d, m))
            && (forall d | d != c :: ProviderOf(t, d) == ProviderOf(u, d))
            && ListedBy(u, c, m) == ChangeOf(t, c, p, list, m).after
            && (Ids(list) != [] ==> ProviderOf(u, c) == p)
  {}

  /** The sums change by the client's own part. */
  lemma TotalsAfterRegister(t: Tables, c: string, p: string, list: seq<Option<ModelInfo>>, m: string, q: string)
    ensures var u, ch := AfterRegister(t, c, p, list), ChangeOf(t, c, p, list, m);
            && Total(u, m) == Total(t, m) - ch.before + ch.after
            && ProviderTotal(u, m, q)
               == ProviderTotal(t, m, q) - Share(ch.oldProvider, q, ch.before) + Share(p, q, ch.after)
  {
    OnlyOwnRowsChange(t, c, p, list, m);
    OthersUndisturbed(t, AfterRegister(t, c, p, list), c, m, q);
    TotalSplits(t, c, m, q);
    TotalSplits(AfterRegister(t, c, p, list), c, m, q);
  }

  /** The counter of one provider stays equal to its sum. */
  lemma RegisterKeepsTally(t: Tables, c: string, p: string, list: seq<Option<ModelInfo>>, m: string, q: string)
    requires Balanced(t, m)
    ensures Count(SlotAfter(t, c, p, list, m)) == Total(AfterRegister(t, c, p, list), m)
    ensures Tally(SlotAfter(t, c, p, list, m), q) == ProviderTotal(AfterRegister(t, c, p, list), m, q)
  {
    assert Tally(SlotOf(t.models, m), q) == ProviderTotal(t, m, q);
    TotalsAfterRegister(t, c, p, list, m, q);
    SlotTallies(t, c, p, list, m, q);
  }

  lemma SlotTallies(t: Tables, c: string, p: string, list: seq<Option<ModelInfo>>, m: string, q: string)
    requires Balanced(t, m)
    ensures var slot, ch := SlotOf(t.models, m), ChangeOf(t, c, p, list, m);
            && Count(SlotAfter(t, c, p, list, m)) == Count(slot) - ch.before + ch.after
            && Tally(SlotAfter(t, c, p, list, m), q)
               == Tally(slot, q) - Share(ch.oldProvider, q, ch.before) + Share(p, q, ch.after)
  {
    FirstInfosOfIds(list, m);
    ConsistentHolds(t, c, m);
    var slot, ch := SlotOf(t.models, m), ChangeOf(t, c, p, list, m);
    if c in t.clientModels || Ids(list) == [] {
      RebalancedTallies(slot, ch, m, q);
    } else {
      OfferTallies(slot, p, ch.info, ch.after, q);
    }
  }

  /** Registering keeps every counter equal to its sum, whatever changes: provider, models or multiplicities. */
  lemma RegisterKeepsBalance(t: Tables, c: string, p: string, list: seq<Option<ModelInfo>>, m: string)
    requires Balanced(t, m)
    ensures Balanced(AfterRegister(t, c, p, list), m)
  {
    var slot, ch := SlotOf(t.models, m), ChangeOf(t, c, p, list, m);
    SlotsAfterRegister(t, c, p, list, m);
    RegisterKeepsTally(t, c, p, list, m, p);
    forall q { RegisterKeepsTally(t, c, p, list, m, q); }
    FirstInfosOfIds(list, m);
    ConsistentHolds(t, c, m);
    if c in t.clientModels || Ids(list) == [] {
      RebalancedWellKept(slot, ch, m);
    } else {
      OfferTallies(slot, p, ch.info, ch.after, p);
    }
  }

  lemma RegisterKeepsConsistency(t: Tables, c: string, p: string, list: seq<Option<ModelInfo>>)
    requires Consistent(t)
    ensures Consistent(AfterRegister(t, c, p, list))
  {
    var u := AfterRegister(t, c, p, list);
    forall m ensures Balanced(u, m) { RegisterKeepsBalance(t, c, p, list, m); }
    forall d ensures ClientWellKept(u, d) {
      assert ClientWellKept(t, d);
      if d == c { forall m { FirstInfosOfIds(list, m); } }
    }
  }

  /** After registering, the client's own part of every counter is the number of occurrences in its list. */
  lemma RegisteredUnits(t: Tables, c: string, p: string, list: seq<Option<ModelInfo>>, m: string, q: string)
    requires Balanced(t, m) && m != ""
    ensures var slot := SlotOf(AfterRegister(t, c, p, list).models, m);
            && Count(slot) == OthersTotal(t, c, m) + |Positions(list, m)|
            && Tally(slot, q)
               == OthersProviderTotal(t, c, m, q) + if q == p && q != NO_PROVIDER then |Positions(list, m)| else 0
  {
    SlotsAfterRegister(t, c, p, list, m);
    RegisterKeepsTally(t, c, p, list, m, q);
    OnlyOwnRowsChange(t, c, p, list, m);
    OthersUndisturbed(t, AfterRegister(t, c, p, list), c, m, q);
    TotalSplits(AfterRegister(t, c, p, list), c, m, q);
    EveryOccurrenceCounts(list, m);
  }

  /** The first model a list names under an identifier is what the index and the client's table show afterwards. */
  lemma RegisteredInfos(t: Tables, c: string, p: string, list: seq<Option<ModelInfo>>, i: nat)
    requires Consistent(t) && i < |list| && list[i].Some? && list[i].value.id != ""
    requires forall j | 0 <= j < i && list[j].Some? :: list[j].value.id != list[i].value.id
    ensures var u, info := AfterRegister(t, c, p, list), list[i].value;
            && Shows(SlotOf(u.models, info.id), p, info)
            && c in u.clientInfos && info.id in u.clientInfos[c] && u.clientInfos[c][info.id] == info
  {
    var m := list[i].value.id;
    FirstIsKept(list, i);
    assert Balanced(t, m);
    SlotsAfterRegister(t, c, p, list, m);
    var ch := ChangeOf(t, c, p, list, m);
    if c in t.clientModels {
      RebalancedInfoShows(SlotOf(t.models, m), ch);
    } else {
      OfferedInfoShows(SlotOf(t.models, m), p, ch.info, ch.after);
    }
  }

  lemma FirstIsKept(list: seq<Option<ModelInfo>>, i: nat)
    requires i < |list| && list[i].Some? && list[i].value.id != ""
    requires forall j | 0 <= j < i && list[j].Some? :: list[j].value.id != list[i].value.id
    ensures list[i].value.id in Ids(list) && multiset(Ids(list))[list[i].value.id] > 0
    ensures list[i].value.id in FirstInfos(list) && FirstInfos(list)[list[i].value.id] == list[i].value
  {
    var m := list[i].value.id;
    FirstInfosOfIds(list, m);
    assert m in Ids(list);
    var k :| 0 <= k < |list| && list[k] == Some(FirstInfos(list)[m])
             && forall j | 0 <= j < k :: !Usable(list[j]) || list[j].value.id != m;
    assert k == i;
  }

  /** A known client that registers again has no marks left on the models it lists or listed. */
  lemma ReconcilingClearsOwnMarks(t: Tables, c: string, p: string, list: seq<Option<ModelInfo>>, m: string)
    requires Consistent(t) && c in t.clientModels && m in AfterRegister(t, c, p, list).models
    requires ListedBy(t, c, m) > 0 || (m != "" && Positions(list, m) != {})
    ensures var u := AfterRegister(t, c, p, list).models[m]; c !in u.quotaExceeded && c !in u.suspended
  {
    assert Balanced(t, m);
    SlotsAfterRegister(t, c, p, list, m);
    if m != "" { EveryOccurrenceCounts(list, m); }
  }

  /** What registering does not concern stays: other models, other clients' marks and lists, other providers' infos. */
  lemma RegisteringLeavesTheRest(t: Tables, c: string, p: string, list: seq<Option<ModelInfo>>, m: string, d: string,
                                 q: string)
    requires Consistent(t) && d != c && m in t.models && m in AfterRegister(t, c, p, list).models
    ensures var r, u := t.models[m], AfterRegister(t, c, p, list).models[m];
            && SameMarks(r, u, d)
            && (q != p && q != ProviderOf(t, c) ==> SameInfo(r, u, q))
            && (Positions(list, m) == {} && ListedBy(t, c, m) == 0 ==> u == r)
  {
    assert Balanced(t, m);
    SlotsAfterRegister(t, c, p, list, m);
    PresentIffListed(t, m);
    var lister :| lister in t.clientModels && m in t.clientModels[lister];
    assert ClientWellKept(t, lister);
    EveryOccurrenceCounts(list, m);
    var slot, ch := SlotOf(t.models, m), ChangeOf(t, c, p, list, m);
    if c in t.clientModels || Ids(list) == [] {
      RebalancedLeavesTheRest(slot, ch, d, q);
    } else {
      OfferLeavesTheRest(slot, p, ch.info, ch.after, d, q);
    }
  }

  // ---------------------------------------------------------------- re-registration against leave-and-join

  lemma SlotsAfterLeaveAndJoin(t: Tables, c: string, p: string, list: seq<Option<ModelInfo>>, m: string)
    requires Balanced(t, m)
    ensures SlotOf(AfterRegister(AfterUnregister(t, c), c, p, list).models, m)
            == LeaveAndJoin(SlotOf(t.models, m), ChangeOf(t, c, p, list, m))
  {
    var left := AfterUnregister(t, c);
    SlotsAfterRegister(t, c, NO_PROVIDER, [], m);
    RegisterKeepsBalance(t, c, NO_PROVIDER, [], m);
    SlotsAfterRegister(left, c, p, list, m);
    assert ListedBy(left, c, m) == 0;
  }

  lemma LeaveAndJoinKey<T>(table: map<string, T>, c: string, x: T)
    ensures (table - {c})[c := x] == table[c := x] && table - {c} - {c} == table - {c}
  {}

  lemma ClientTablesAfterLeaveAndJoin(t: Tables, c: string, p: string, list: seq<Option<ModelInfo>>)
    ensures var direct, detour := AfterRegister(t, c, p, list), AfterRegister(AfterUnregister(t, c), c, p, list);
            && direct.clientModels == detour.clientModels
            && direct.clientInfos == detour.clientInfos
            && direct.clientProviders == detour.clientProviders
  {
    LeaveAndJoinKey(t.clientModels, c, Ids(list));
    LeaveAndJoinKey(t.clientInfos, c, FirstInfos(list));
    LeaveAndJoinKey(t.clientProviders, c, p);
    var left := AfterUnregister(t, c);
    assert left.clientModels == t.clientModels - {c} && left.clientInfos == t.clientInfos - {c}
        && left.clientProviders == t.clientProviders - {c};
  }

  ghost predicate MarksRebindIn(t: Tables, c: string, p: string, list: seq<Option<ModelInfo>>, m: string) {
    MarksRebind(SlotOf(t.models, m), ChangeOf(t, c, p, list, m))
  }

  lemma SlotRebinds(t: Tables, c: string, p: string, list: seq<Option<ModelInfo>>, m: string)
    requires Balanced(t, m) && c in t.clientModels
    ensures SlotOf(AfterRegister(t, c, p, list).models, m)
            == SlotOf(AfterRegister(AfterUnregister(t, c), c, p, list).models, m)
            <==> MarksRebindIn(t, c, p, list, m)
  {
    ConsistentHolds(t, c, m);
    SlotsAfterRegister(t, c, p, list, m);
    SlotsAfterLeaveAndJoin(t, c, p, list, m);
    RebalancedIsLeaveAndJoin(SlotOf(t.models, m), ChangeOf(t, c, p, list, m));
  }

  /**
    Reconciling an existing client gives exactly the tables of unregistering it and registering it afresh if and
    only if the marks on its models are its own where it is the sole client, and absent where it is new.
   */
  lemma ReRegisterIsLeaveAndJoin(t: Tables, c: string, p: string, list: seq<Option<ModelInfo>>)
    requires Consistent(t) && c in t.clientModels
    ensures AfterRegister(t, c, p, list) == AfterRegister(AfterUnregister(t, c), c, p, list)
            <==> forall m :: MarksRebindIn(t, c, p, list, m)
  {
    var direct, detour := AfterRegister(t, c, p, list), AfterRegister(AfterUnregister(t, c), c, p, list);
    forall m ensures SlotOf(direct.models, m) == SlotOf(detour.models, m) <==> MarksRebindIn(t, c, p, list, m) {
      assert Balanced(t, m);
      SlotRebinds(t, c, p, list, m);
    }
    ClientTablesAfterLeaveAndJoin(t, c, p, list);
    if forall m :: MarksRebindIn(t, c, p, list, m) {
      SlotsDetermineModels(direct.models, detour.models);
    }
  }

  // ---------------------------------------------------------------- marks stay with the clients that offer

  /** Every quota or suspension mark of a model belongs to a client that lists the model. */
  ghost predicate MarksOffered(t: Tables, m: string) {
    m in t.models ==>
      forall c | c in t.models[m].quotaExceeded.Keys + t.models[m].suspended.Keys :: ListedBy(t, c, m) > 0
  }

  /** The caller discipline under which re-registration is always leave-and-join. */
  lemma OfferedMarksRebind(t: Tables, c: string, p: string, list: seq<Option<ModelInfo>>, m: string)
    requires Balanced(t, m) && MarksOffered(t, m)
    ensures MarksRebindIn(t, c, p, list, m)
  {
    if m in t.models && ListedBy(t, c, m) == t.models[m].count {
      TotalSplits(t, c, m, NO_PROVIDER);
      SumZero(Weights(t, m) - {c});
      forall d | d != c ensures ListedBy(t, d, m) == 0 {
        assert d in Weights(t, m) - {c} <==> d in t.clientModels;
      }
    }
  }

  /** Registering never leaves a mark behind on a model its client stopped offering. */
  lemma RegisterKeepsMarksOffered(t: Tables, c: string, p: string, list: seq<Option<ModelInfo>>, m: string)
    requires Balanced(t, m) && MarksOffered(t, m)
    ensures MarksOffered(AfterRegister(t, c, p, list), m)
  {
    SlotsAfterRegister(t, c, p, list, m);
    OnlyOwnRowsChange(t, c, p, list, m);
    var slot, after := SlotOf(t.models, m), SlotAfter(t, c, p, list, m);
    if after.Some? {
      forall d | d in after.value.quotaExceeded.Keys + after.value.suspended.Keys
        ensures ListedBy(AfterRegister(t, c, p, list), d, m) > 0
      {
        assert slot.Some? && d in slot.value.quotaExceeded.Keys + slot.value.suspended.Keys;
      }
    }
  }
}
