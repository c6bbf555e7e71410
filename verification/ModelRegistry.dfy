/** The registry object: its tables are updated in place, and its listings are cached per handler. */
module ModelRegistries {
  import opened Prelude
  import opened Registrations
  import opened RegistryTables
  import opened Listings
  import opened Recount
  import opened RegistryRuns
  import Text

  datatype CacheEntry = CacheEntry(rows: seq<Row>, expiresAt: Option<int>)

  /** Everything one reconciliation works from. */
  datatype Reconciliation = Reconciliation(
    client: string,
    oldProvider: string,
    newProvider: string,
    oldCounts: map<string, nat>,
    newCounts: map<string, nat>,
    newModels: map<string, ModelInfo>)
  {
    function Before(m: string): nat { if m in oldCounts then oldCounts[m] else 0 }
    function After(m: string): nat { if m in newCounts then newCounts[m] else 0 }
    function Of(m: string): Change {
      Change(client, oldProvider, newProvider, Before(m), After(m), InfoOf(newModels, m))
    }
  }

  /** counts[m] is the multiplicity of m in ids, for exactly the m that occur. */
  ghost predicate CountsOf(counts: map<string, nat>, ids: seq<string>) {
    && (forall m :: m in counts <==> m in ids)
    && (forall m | m in counts :: counts[m] == multiset(ids)[m])
  }

  /** rows lists the set without repetition, in some order. */
  ghost predicate Represents(rows: seq<Row>, listing: set<Row>) {
    && NoRepeats(rows)
    && (forall row :: row in rows <==> row in listing)
  }

  /** One model of the recount: how often its provider's clients list it, and the first info found. */
  datatype ProviderModel = ProviderModel(count: nat, info: ModelInfo)

  function Counted(entries: map<string, ProviderModel>, m: string): nat {
    if m in entries then entries[m].count else 0
  }

  /** info is what some client of the provider registered for model m. */
  ghost predicate FromClient(t: Tables, provider: string, m: string, info: ModelInfo) {
    info.id == m
    && exists c ::
         && c in t.clientInfos && ProviderOf(t, c) == provider
         && m in t.clientInfos[c] && t.clientInfos[c][m] == info
  }

  function InfoIds(infos: seq<ModelInfo>): seq<string> {
    seq(|infos|, i requires 0 <= i < |infos| => infos[i].id)
  }

  ghost predicate NoRepeats<T>(s: seq<T>) {
    forall i, j | 0 <= i < j < |s| :: s[i] != s[j]
  }

  lemma AppendInfo(infos: seq<ModelInfo>, info: ModelInfo)
    requires NoRepeats(InfoIds(infos)) && info.id !in InfoIds(infos)
    ensures InfoIds(infos + [info]) == InfoIds(infos) + [info.id]
    ensures NoRepeats(InfoIds(infos + [info]))
  {}

  lemma OneMoreClient(t: Tables, m: string, p: string, todo: set<string>, c: string)
    requires c in todo && c in t.clientModels
    ensures Sum(ProviderWeights(t, m, p) - (todo - {c}))
            == Sum(ProviderWeights(t, m, p) - todo) + Share(ProviderOf(t, c), p, ListedBy(t, c, m))
  {
    var w := ProviderWeights(t, m, p);
    SumWithout(w - (todo - {c}), c);
    assert w - (todo - {c}) - {c} == w - todo;
  }

  method CountIds(ids: seq<string>) returns (counts: map<string, nat>)
    ensures CountsOf(counts, ids)
  {
    counts := map[];
    for i := 0 to |ids|
      invariant CountsOf(counts, ids[..i])
    {
      assert ids[..i + 1] == ids[..i] + [ids[i]];
      counts := counts[ids[i] := (if ids[i] in counts then counts[ids[i]] else 0) + 1];
    }
    assert ids[..|ids|] == ids;
  }

  /** The first loop of registration: skip unusable models, count identifiers, keep each identifier's first model. */
  method Collect(list: seq<Option<ModelInfo>>)
    returns (raw: seq<string>, newModels: map<string, ModelInfo>, newCounts: map<string, nat>)
    ensures raw == Ids(list) && newModels == FirstInfos(list)
    ensures CountsOf(newCounts, raw)
    ensures forall m | m in newCounts :: newCounts[m] == |Positions(list, m)|
  {
    raw, newModels, newCounts := [], map[], map[];
    for i := 0 to |list|
      invariant raw == Ids(list[..i]) && newModels == FirstInfos(list[..i])
      invariant CountsOf(newCounts, raw)
    {
      assert list[..i + 1][..i] == list[..i];
      if list[i].None? || list[i].value.id == "" { continue; }
      var model := list[i].value;
      raw := raw + [model.id];
      newCounts := newCounts[model.id := (if model.id in newCounts then newCounts[model.id] else 0) + 1];
      if model.id in newModels { continue; }
      newModels := newModels[model.id := model];
    }
    assert list[..|list|] == list;
    forall m | m in newCounts ensures newCounts[m] == |Positions(list, m)| {
      FirstInfosOfIds(list, m);
      EveryOccurrenceCounts(list, m);
    }
  }

  /** Count a list into the entries, whose infos all come from clients of the provider. */
  method CountList(ids: seq<string>, infos: map<string, ModelInfo>, entries: map<string, ProviderModel>,
                   ghost t: Tables, ghost provider: string)
    returns (counted: map<string, ProviderModel>)
    requires forall m | m in ids :: m in infos && FromClient(t, provider, m, infos[m])
    requires forall m | m in entries :: entries[m].count > 0 && FromClient(t, provider, m, entries[m].info)
    ensures forall m | m in counted :: counted[m].count > 0 && FromClient(t, provider, m, counted[m].info)
    ensures forall m :: Counted(counted, m) == Counted(entries, m) + multiset(ids)[m]
  {
    counted := entries;
    for i := 0 to |ids|
      invariant forall m | m in counted :: counted[m].count > 0 && FromClient(t, provider, m, counted[m].info)
      invariant forall m :: Counted(counted, m) == Counted(entries, m) + multiset(ids[..i])[m]
    {
      assert ids[..i + 1] == ids[..i] + [ids[i]];
      var modelID := ids[i];
      var entry := if modelID in counted then counted[modelID] else ProviderModel(0, infos[modelID]);
      counted := counted[modelID := entry.(count := entry.count + 1)];
    }
    assert ids[..|ids|] == ids;
  }

  // ---------------------------------------------------------------- counting marks

  ghost function Outside(marked: set<string>, todo: set<string>): set<string> { set c | c in marked && c !in todo }

  lemma OneMoreOutside(marked: set<string>, todo: set<string>, c: string)
    requires c in todo
    ensures |Outside(marked, todo - {c})| == |Outside(marked, todo)| + if c in marked then 1 else 0
  {
    assert Outside(marked, todo - {c}) == Outside(marked, todo) + if c in marked then {c} else {};
  }

  lemma FirstAndLastOutside(marked: set<string>, todo: set<string>)
    ensures todo == {} ==> Outside(marked, todo) == marked
    ensures marked <= todo ==> Outside(marked, todo) == {}
  {}

  method CountExhausted(clientProviders: map<string, string>, registration: Registration, provider: string, now: int,
                        ghost t: Tables)
    returns (n: nat, expiresAt: Option<int>)
    requires provider != NO_PROVIDER && t.clientProviders == clientProviders
    ensures n == |Exhausted(t, registration, provider, now)|
    ensures IsLeast(expiresAt, set c | c in Exhausted(t, registration, provider, now)
                                 :: registration.quotaExceeded[c] + QUOTA_WINDOW)
  {
    n, expiresAt := 0, None;
    ghost var hits: set<string> := {};
    var todo := registration.quotaExceeded.Keys;
    while todo != {}
      invariant todo <= registration.quotaExceeded.Keys
      invariant n == |hits|
      invariant forall c :: c in hits <==> c !in todo && c in Exhausted(t, registration, provider, now)
      invariant forall c | c in hits ::
                  expiresAt.Some? && expiresAt.value <= registration.quotaExceeded[c] + QUOTA_WINDOW
      invariant expiresAt.Some? ==>
                  exists c :: c in hits && expiresAt.value == registration.quotaExceeded[c] + QUOTA_WINDOW
      decreases |todo|
    {
      var clientID :| clientID in todo;
      todo := todo - {clientID};
      if clientID in clientProviders && clientProviders[clientID] == provider {
        var recoveryAt := registration.quotaExceeded[clientID] + QUOTA_WINDOW;
        if now < recoveryAt {
          n := n + 1;
          hits := hits + {clientID};
          if expiresAt.None? || recoveryAt < expiresAt.value { expiresAt := Some(recoveryAt); }
        }
      }
    }
    assert hits == Exhausted(t, registration, provider, now);
  }

  method CountSuspended(clientProviders: map<string, string>, registration: Registration, provider: string,
                        ghost t: Tables)
    returns (cooling: nat, other: nat)
    requires provider != NO_PROVIDER && t.clientProviders == clientProviders
    ensures cooling == |CoolingDown(t, registration, provider)|
    ensures other == |Suspended(t, registration, provider)|
  {
    ghost var cools, others := CoolingDown(t, registration, provider), Suspended(t, registration, provider);
    cooling, other := 0, 0;
    var todo := registration.suspended.Keys;
    FirstAndLastOutside(cools, todo);
    FirstAndLastOutside(others, todo);
    while todo != {}
      invariant todo <= registration.suspended.Keys
      invariant cooling == |Outside(cools, todo)| && other == |Outside(others, todo)|
      decreases |todo|
    {
      var clientID :| clientID in todo;
      OneMoreOutside(cools, todo, clientID);
      OneMoreOutside(others, todo, clientID);
      todo := todo - {clientID};
      if clientID !in clientProviders || clientProviders[clientID] != provider { continue; }
      if Text.EqualFold(registration.suspended[clientID], QUOTA_REASON) {
        cooling := cooling + 1;
      } else {
        other := other + 1;
      }
    }
    FirstAndLastOutside(cools, todo);
    FirstAndLastOutside(others, todo);
  }

  /** The recount's versions pass over marks of a client without a name. */
  method CountNamedExhausted(clientProviders: map<string, string>, registration: Registration, provider: string,
                             now: int, ghost t: Tables)
    returns (n: nat)
    requires provider != NO_PROVIDER && t.clientProviders == clientProviders
    ensures n == |Exhausted(t, registration, provider, now) - {""}|
  {
    ghost var exhausted := Exhausted(t, registration, provider, now) - {""};
    n := 0;
    var todo := registration.quotaExceeded.Keys;
    FirstAndLastOutside(exhausted, todo);
    while todo != {}
      invariant todo <= registration.quotaExceeded.Keys && n == |Outside(exhausted, todo)|
      decreases |todo|
    {
      var clientID :| clientID in todo;
      OneMoreOutside(exhausted, todo, clientID);
      todo := todo - {clientID};
      if clientID == "" || clientID !in clientProviders || clientProviders[clientID] != provider { continue; }
      if now - registration.quotaExceeded[clientID] < QUOTA_WINDOW { n := n + 1; }
    }
    FirstAndLastOutside(exhausted, todo);
  }

  method CountNamedSuspended(clientProviders: map<string, string>, registration: Registration, provider: string,
                             ghost t: Tables)
    returns (cooling: nat, other: nat)
    requires provider != NO_PROVIDER && t.clientProviders == clientProviders
    ensures cooling == |CoolingDown(t, registration, provider) - {""}|
    ensures other == |Suspended(t, registration, provider) - {""}|
  {
    ghost var cools := CoolingDown(t, registration, provider) - {""};
    ghost var others := Suspended(t, registration, provider) - {""};
    cooling, other := 0, 0;
    var todo := registration.suspended.Keys;
    FirstAndLastOutside(cools, todo);
    FirstAndLastOutside(others, todo);
    while todo != {}
      invariant todo <= registration.suspended.Keys
      invariant cooling == |Outside(cools, todo)| && other == |Outside(others, todo)|
      decreases |todo|
    {
      var clientID :| clientID in todo;
      OneMoreOutside(cools, todo, clientID);
      OneMoreOutside(others, todo, clientID);
      todo := todo - {clientID};
      if clientID == "" || clientID !in clientProviders || clientProviders[clientID] != provider { continue; }
      if Text.EqualFold(registration.suspended[clientID], QUOTA_REASON) {
        cooling := cooling + 1;
      } else {
        other := other + 1;
      }
    }
    FirstAndLastOutside(cools, todo);
    FirstAndLastOutside(others, todo);
  }

  class ModelRegistry {
    var models: map<string, Registration>
    var clientModels: map<string, seq<string>>
    var clientModelInfos: map<string, map<string, ModelInfo>>
    var clientProviders: map<string, string>
    var availableModelsCache: map<string, CacheEntry>
    /** When each cached listing was built. */
    ghost var builtAt: map<string, int>

    ghost function View(): Tables
      reads this
    {
      Tables(models, clientModels, clientModelInfos, clientProviders)
    }

    /** Every cached listing is the one of its building time, with that listing's expiry. */
    ghost predicate CacheSound()
      reads this
    {
      && builtAt.Keys == availableModelsCache.Keys
      && forall h | h in availableModelsCache ::
           && Represents(availableModelsCache[h].rows, Listing(View(), builtAt[h]))
           && IsExpiry(View(), builtAt[h], availableModelsCache[h].expiresAt)
    }

    ghost predicate Valid()
      reads this
    {
      Consistent(View()) && SuspensionsNamed(View()) && CacheSound()
    }

    constructor ()
      ensures Valid()
      ensures View() == EMPTY
    {
      models, clientModels, clientModelInfos, clientProviders := map[], map[], map[], map[];
      availableModelsCache, builtAt := map[], map[];
      new;
      EmptyIsConsistent();
    }

    method InvalidateAvailableModelsCache()
      modifies `availableModelsCache, `builtAt
      ensures availableModelsCache == map[] && builtAt == map[]
    {
      availableModelsCache, builtAt := map[], map[];
    }

    // -------------------------------------------------------------- single registrations

    method AddModelRegistration(modelID: string, provider: string, model: ModelInfo)
      modifies `models
      ensures modelID == "" ==> models == old(models)
      ensures modelID != "" ==> SlotOf(models, modelID) == Offer(SlotOf(old(models), modelID), provider, model, 1)
      ensures forall m | m != modelID :: SlotOf(models, m) == SlotOf(old(models), m)
    {
      if modelID == "" { return; }
      if modelID in models {
        var existing := models[modelID];
        existing := existing.(count := existing.count + 1, info := model);
        if provider != NO_PROVIDER {
          var tally := if provider in existing.providers then existing.providers[provider] else 0;
          existing := existing.(providers := existing.providers[provider := tally + 1],
                                infoByProvider := existing.infoByProvider[provider := model]);
        }
        models := models[modelID := existing];
        return;
      }
      var registration := Registration(model, map[], 1, map[], map[], map[]);
      if provider != NO_PROVIDER {
        registration := registration.(providers := map[provider := 1], infoByProvider := map[provider := model]);
      }
      models := models[modelID := registration];
    }

    method RemoveModelRegistration(clientID: string, modelID: string, provider: string)
      requires Removable(SlotOf(models, modelID))
      modifies `models
      ensures SlotOf(models, modelID) == Withdraw(SlotOf(old(models), modelID), clientID, provider, 1)
      ensures forall m | m != modelID :: SlotOf(models, m) == SlotOf(old(models), m)
    {
      if modelID !in models { return; }
      var registration := models[modelID];
      registration := registration.(count := registration.count - 1,
                                    quotaExceeded := registration.quotaExceeded - {clientID},
                                    suspended := registration.suspended - {clientID});
      if registration.count < 0 { registration := registration.(count := 0); }
      if provider != NO_PROVIDER && provider in registration.providers {
        var tally := registration.providers[provider];
        if tally <= 1 {
          registration := registration.(providers := registration.providers - {provider},
                                        infoByProvider := registration.infoByProvider - {provider});
        } else {
          registration := registration.(providers := registration.providers[provider := tally - 1]);
        }
      }
      models := models[modelID := registration];
      if registration.count <= 0 {
        models := models - {modelID};
      }
    }

    /** Remove the client's registration of one model n times. */
    method RemoveRepeatedly(clientID: string, modelID: string, provider: string, n: nat)
      requires Removable(SlotOf(models, modelID))
      modifies `models
      ensures SlotOf(models, modelID) == Withdraw(SlotOf(old(models), modelID), clientID, provider, n)
      ensures forall m | m != modelID :: SlotOf(models, m) == SlotOf(old(models), m)
    {
      for i := 0 to n
        invariant SlotOf(models, modelID) == Withdraw(SlotOf(old(models), modelID), clientID, provider, i)
        invariant forall m | m != modelID :: SlotOf(models, m) == SlotOf(old(models), m)
      {
        WithdrawAgain(SlotOf(old(models), modelID), clientID, provider, i);
        RemoveModelRegistration(clientID, modelID, provider);
      }
    }

    method AddRepeatedly(modelID: string, provider: string, model: ModelInfo, n: nat)
      requires modelID != ""
      modifies `models
      ensures SlotOf(models, modelID) == Offer(SlotOf(old(models), modelID), provider, model, n)
      ensures forall m | m != modelID :: SlotOf(models, m) == SlotOf(old(models), m)
    {
      for i := 0 to n
        invariant SlotOf(models, modelID) == Offer(SlotOf(old(models), modelID), provider, model, i)
        invariant forall m | m != modelID :: SlotOf(models, m) == SlotOf(old(models), m)
      {
        OfferAgain(SlotOf(old(models), modelID), provider, model, i);
        AddModelRegistration(modelID, provider, model);
      }
    }

    // -------------------------------------------------------------- the five phases, each over all models

    method MoveOverlaps(rec: Reconciliation)
      modifies `models
      ensures forall m :: SlotOf(models, m) == MoveOverlapOff(SlotOf(old(models), m), rec.Of(m))
    {
      if rec.oldProvider == rec.newProvider || rec.oldProvider == NO_PROVIDER { return; }
      var todo := rec.newCounts.Keys;
      while todo != {}
        invariant todo <= rec.newCounts.Keys
        invariant forall m :: SlotOf(models, m) == if m in todo then SlotOf(old(models), m)
                                                   else MoveOverlapOff(SlotOf(old(models), m), rec.Of(m))
        decreases |todo|
      {
        var id :| id in todo;
        todo := todo - {id};
        assert SlotOf(models, id) == SlotOf(old(models), id);
        var newCount, oldCount := rec.newCounts[id], rec.Before(id);
        if newCount == 0 || oldCount == 0 { continue; }
        var toRemove := if oldCount < newCount then oldCount else newCount;
        if id in models && rec.oldProvider in models[id].providers {
          var reg := models[id];
          var tally := reg.providers[rec.oldProvider];
          if tally <= toRemove {
            reg := reg.(providers := reg.providers - {rec.oldProvider},
                        infoByProvider := reg.infoByProvider - {rec.oldProvider});
          } else {
            reg := reg.(providers := reg.providers[rec.oldProvider := tally - toRemove]);
          }
          models := models[id := reg];
        }
      }
    }

    method DropRemovedModels(rec: Reconciliation)
      requires forall m :: Removable(SlotOf(models, m))
      modifies `models
      ensures forall m :: SlotOf(models, m) == DropRemoved(SlotOf(old(models), m), rec.Of(m))
    {
      var todo := set id | id in rec.oldCounts && rec.After(id) == 0;
      while todo != {}
        invariant forall id | id in todo :: id in rec.oldCounts && rec.After(id) == 0
        invariant forall m :: SlotOf(models, m) == if m in todo then SlotOf(old(models), m)
                                                   else DropRemoved(SlotOf(old(models), m), rec.Of(m))
        decreases |todo|
      {
        var id :| id in todo;
        todo := todo - {id};
        assert SlotOf(models, id) == SlotOf(old(models), id) && Removable(SlotOf(old(models), id));
        RemoveRepeatedly(rec.client, id, rec.oldProvider, rec.oldCounts[id]);
      }
    }

    method TrimOverages(rec: Reconciliation)
      requires forall m :: Removable(SlotOf(models, m))
      modifies `models
      ensures forall m :: SlotOf(models, m) == TrimOverage(SlotOf(old(models), m), rec.Of(m))
    {
      var todo := rec.oldCounts.Keys;
      while todo != {}
        invariant todo <= rec.oldCounts.Keys
        invariant forall m :: SlotOf(models, m) == if m in todo then SlotOf(old(models), m)
                                                   else TrimOverage(SlotOf(old(models), m), rec.Of(m))
        decreases |todo|
      {
        var id :| id in todo;
        todo := todo - {id};
        assert SlotOf(models, id) == SlotOf(old(models), id) && Removable(SlotOf(old(models), id));
        var oldCount, newCount := rec.oldCounts[id], rec.After(id);
        if newCount != 0 && oldCount > newCount {
          RemoveRepeatedly(rec.client, id, rec.oldProvider, oldCount - newCount);
        }
      }
    }

    method AddShortfallOf(rec: Reconciliation, id: string)
      requires id != "" && id in rec.newCounts && id in rec.newModels
      modifies `models
      ensures SlotOf(models, id) == AddShortfall(SlotOf(old(models), id), rec.Of(id))
      ensures forall m | m != id :: SlotOf(models, m) == SlotOf(old(models), m)
    {
      var newCount, oldCount := rec.newCounts[id], rec.Before(id);
      if newCount > oldCount {
        AddRepeatedly(id, rec.newProvider, rec.newModels[id], newCount - oldCount);
      }
    }

    method AddShortfalls(rec: Reconciliation)
      requires "" !in rec.newCounts && rec.newModels.Keys == rec.newCounts.Keys
      modifies `models
      ensures forall m :: SlotOf(models, m) == AddShortfall(SlotOf(old(models), m), rec.Of(m))
    {
      var todo := rec.newCounts.Keys;
      while todo != {}
        invariant todo <= rec.newCounts.Keys
        invariant forall m :: SlotOf(models, m) == if m in todo then SlotOf(old(models), m)
                                                   else AddShortfall(SlotOf(old(models), m), rec.Of(m))
        decreases |todo|
      {
        var id :| id in todo;
        todo := todo - {id};
        assert SlotOf(models, id) == SlotOf(old(models), id);
        AddShortfallOf(rec, id);
      }
    }

    method RefreshOne(rec: Reconciliation, id: string)
      requires id in rec.newModels && id in rec.newCounts && rec.newCounts[id] > 0
      modifies `models
      ensures SlotOf(models, id) == Refresh(SlotOf(old(models), id), rec.Of(id))
      ensures forall m | m != id :: SlotOf(models, m) == SlotOf(old(models), m)
    {
      if id !in models { return; }
      var reg := models[id].(info := rec.newModels[id]);
      if rec.newProvider != NO_PROVIDER {
        reg := reg.(infoByProvider := reg.infoByProvider[rec.newProvider := rec.newModels[id]]);
      }
      reg := reg.(quotaExceeded := reg.quotaExceeded - {rec.client}, suspended := reg.suspended - {rec.client});
      if rec.oldProvider != rec.newProvider && rec.newProvider != NO_PROVIDER {
        var overlap := if rec.Before(id) < rec.newCounts[id] then rec.Before(id) else rec.newCounts[id];
        if overlap > 0 {
          var tally := if rec.newProvider in reg.providers then reg.providers[rec.newProvider] else 0;
          reg := reg.(providers := reg.providers[rec.newProvider := tally + overlap]);
        }
      }
      models := models[id := reg];
    }

    method RefreshListed(rec: Reconciliation)
      requires rec.newModels.Keys == rec.newCounts.Keys && forall m | m in rec.newCounts :: rec.newCounts[m] > 0
      modifies `models
      ensures forall m :: SlotOf(models, m) == Refresh(SlotOf(old(models), m), rec.Of(m))
    {
      var todo := rec.newModels.Keys;
      while todo != {}
        invariant todo <= rec.newModels.Keys
        invariant forall m :: SlotOf(models, m) == if m in todo then SlotOf(old(models), m)
                                                   else Refresh(SlotOf(old(models), m), rec.Of(m))
        decreases |todo|
      {
        var id :| id in todo;
        todo := todo - {id};
        assert SlotOf(models, id) == SlotOf(old(models), id);
        RefreshOne(rec, id);
      }
    }

    // -------------------------------------------------------------- whole clients

    /** What unregistering does for one entry of the client's list. */
    method Detach(clientID: string, modelID: string, provider: string, hasProvider: bool)
      requires Removable(SlotOf(models, modelID)) && (!hasProvider ==> provider == NO_PROVIDER)
      modifies `models
      ensures SlotOf(models, modelID) == Withdraw(SlotOf(old(models), modelID), clientID, provider, 1)
      ensures forall m | m != modelID :: SlotOf(models, m) == SlotOf(old(models), m)
    {
      if modelID !in models { return; }
      var registration := models[modelID];
      registration := registration.(count := registration.count - 1,
                                    quotaExceeded := registration.quotaExceeded - {clientID},
                                    suspended := registration.suspended - {clientID});
      if hasProvider && provider in registration.providers {
        var tally := registration.providers[provider];
        if tally <= 1 {
          registration := registration.(providers := registration.providers - {provider},
                                        infoByProvider := registration.infoByProvider - {provider});
        } else {
          registration := registration.(providers := registration.providers[provider := tally - 1]);
        }
      }
      models := models[modelID := registration];
      if registration.count <= 0 {
        models := models - {modelID};
      }
    }

    method DetachAll(clientID: string, ids: seq<string>, provider: string, hasProvider: bool)
      requires forall m :: Removable(SlotOf(models, m))
      requires !hasProvider ==> provider == NO_PROVIDER
      modifies `models
      ensures forall m :: SlotOf(models, m) == Withdraw(SlotOf(old(models), m), clientID, provider, multiset(ids)[m])
    {
      for i := 0 to |ids|
        invariant forall m :: SlotOf(models, m)
                              == Withdraw(SlotOf(old(models), m), clientID, provider, multiset(ids[..i])[m])
      {
        assert ids[..i + 1] == ids[..i] + [ids[i]];
        assert Removable(SlotOf(old(models), ids[i]));
        WithdrawAgain(SlotOf(old(models), ids[i]), clientID, provider, multiset(ids[..i])[ids[i]]);
        Detach(clientID, ids[i], provider, hasProvider);
      }
      assert ids[..|ids|] == ids;
    }

    method UnregisterClientInternal(clientID: string)
      requires Consistent(View())
      modifies `models, `clientModels, `clientModelInfos, `clientProviders
      ensures View() == AfterUnregister(old(View()), clientID)
    {
      var hasProvider := clientID in clientProviders;
      var provider := if hasProvider then clientProviders[clientID] else NO_PROVIDER;
      if clientID in clientModels {
        forall m ensures Removable(SlotOf(models, m)) { assert Balanced(View(), m); }
        DetachAll(clientID, clientModels[clientID], provider, hasProvider);
        clientModels := clientModels - {clientID};
        clientModelInfos := clientModelInfos - {clientID};
      }
      if hasProvider {
        clientProviders := clientProviders - {clientID};
      }
      ModelsAfterUnregister(old(View()), clientID, models);
    }

    method UnregisterClient(clientID: string)
      requires Valid()
      modifies this
      ensures Valid()
      ensures View() == Apply(old(View()), Unregister(clientID))
    {
      StepKeepsConsistency(View(), Unregister(clientID));
      UnregisterClientInternal(clientID);
      InvalidateAvailableModelsCache();
    }

    /** An existing client's new list is worked into the index in five phases. */
    method Reconcile(rec: Reconciliation, ghost list: seq<Option<ModelInfo>>)
      requires Consistent(View()) && rec.client in clientModels
      requires rec.oldProvider == ProviderOf(View(), rec.client)
      requires CountsOf(rec.oldCounts, clientModels[rec.client])
      requires CountsOf(rec.newCounts, Ids(list)) && rec.newModels == FirstInfos(list)
      modifies `models
      ensures models == ModelsAfterRegister(old(View()), rec.client, rec.newProvider, list)
    {
      forall m ensures Removable(SlotOf(models, m))
                       && (m in rec.newModels <==> m in rec.newCounts) && "" !in rec.newCounts
                       && rec.Of(m) == ChangeOf(View(), rec.client, rec.newProvider, list, m)
      {
        assert Balanced(View(), m);
        FirstInfosOfIds(list, m);
      }
      MoveOverlaps(rec);
      forall m ensures Removable(SlotOf(models, m)) { FirstPhasesStayRemovable(SlotOf(old(models), m), rec.Of(m)); }
      ghost var moved := models;
      DropRemovedModels(rec);
      forall m ensures Removable(SlotOf(models, m)) { FirstPhasesStayRemovable(SlotOf(moved, m), rec.Of(m)); }
      TrimOverages(rec);
      AddShortfalls(rec);
      RefreshListed(rec);
      ModelsAfterReconcile(old(View()), rec, list, models);
    }

    /** A client without rows of its own only adds. */
    method OfferAll(ids: seq<string>, provider: string, newModels: map<string, ModelInfo>)
      requires forall id | id in ids :: id in newModels && id != ""
      modifies `models
      ensures forall m :: SlotOf(models, m)
                          == Offer(SlotOf(old(models), m), provider, InfoOf(newModels, m), multiset(ids)[m])
    {
      for i := 0 to |ids|
        invariant forall m :: SlotOf(models, m)
                              == Offer(SlotOf(old(models), m), provider, InfoOf(newModels, m), multiset(ids[..i])[m])
      {
        assert ids[..i + 1] == ids[..i] + [ids[i]];
        OfferAgain(SlotOf(old(models), ids[i]), provider, newModels[ids[i]], multiset(ids[..i])[ids[i]]);
        AddModelRegistration(ids[i], provider, newModels[ids[i]]);
      }
      assert ids[..|ids|] == ids;
    }

    method RegisterFresh(clientID: string, provider: string, raw: seq<string>, newModels: map<string, ModelInfo>,
                         ghost list: seq<Option<ModelInfo>>)
      requires Consistent(View()) && clientID !in clientModels
      requires raw == Ids(list) != [] && newModels == FirstInfos(list)
      modifies `models
      ensures models == ModelsAfterRegister(old(View()), clientID, provider, list)
    {
      forall id | id in raw ensures id in newModels && id != "" { FirstInfosOfIds(list, id); }
      OfferAll(raw, provider, newModels);
      ModelsAfterFirstRegister(old(View()), clientID, provider, list, models);
    }

    /** Work a usable list into the index, whether or not the client is known. */
    method IndexClient(clientID: string, provider: string, raw: seq<string>, newModels: map<string, ModelInfo>,
                       newCounts: map<string, nat>, ghost list: seq<Option<ModelInfo>>)
      requires Consistent(View())
      requires raw == Ids(list) != [] && newModels == FirstInfos(list) && CountsOf(newCounts, raw)
      modifies `models
      ensures models == ModelsAfterRegister(old(View()), clientID, provider, list)
    {
      var oldProvider := if clientID in clientProviders then clientProviders[clientID] else NO_PROVIDER;
      if clientID !in clientModels {
        RegisterFresh(clientID, provider, raw, newModels, list);
        return;
      }
      var oldCounts := CountIds(clientModels[clientID]);
      Reconcile(Reconciliation(clientID, oldProvider, provider, oldCounts, newCounts, newModels), list);
    }

    /** Registration as far as the tables go. */
    method UpdateTables(clientID: string, provider: string, list: seq<Option<ModelInfo>>)
      requires Consistent(View())
      modifies `models, `clientModels, `clientModelInfos, `clientProviders
      ensures View() == AfterRegister(old(View()), clientID, provider, list)
    {
      var raw, newModels, newCounts := Collect(list);
      if raw == [] {
        EmptyListUnregisters(View(), clientID, provider, list);
        UnregisterClientInternal(clientID);
        clientModels := clientModels - {clientID};
        clientModelInfos := clientModelInfos - {clientID};
        clientProviders := clientProviders - {clientID};
        return;
      }
      IndexClient(clientID, provider, raw, newModels, newCounts, list);
      clientModels := clientModels[clientID := raw];
      clientModelInfos := clientModelInfos[clientID := newModels];
      clientProviders := if provider != NO_PROVIDER then clientProviders[clientID := provider]
                         else clientProviders - {clientID};
    }

    method RegisterClient(clientID: string, clientProvider: string, list: seq<Option<ModelInfo>>)
      requires Valid()
      modifies this
      ensures Valid()
      ensures View() == Apply(old(View()), Register(clientID, Text.ToLower(clientProvider), list))
      ensures forall m | m != "" ::
                Count(SlotOf(models, m)) == OthersTotal(old(View()), clientID, m) + |Positions(list, m)|
    {
      var provider := Text.ToLower(clientProvider);
      StepKeepsConsistency(View(), Register(clientID, provider, list));
      CountsAfterRegister(View(), clientID, provider, list);
      UpdateTables(clientID, provider, list);
      InvalidateAvailableModelsCache();
    }

    // -------------------------------------------------------------- availability and listings

    method ProviderModelAvailable(registration: Registration, provider: string, now: int)
      returns (available: bool, expiresAt: Option<int>)
      ensures available == Available(View(), registration, provider, now)
      ensures if provider != NO_PROVIDER && provider in registration.providers && registration.providers[provider] > 0
              then IsLeast(expiresAt, set c | c in Exhausted(View(), registration, provider, now)
                                        :: registration.quotaExceeded[c] + QUOTA_WINDOW)
              else expiresAt == None
    {
      if provider == NO_PROVIDER || provider !in registration.providers { return false, None; }
      var availableClients := registration.providers[provider];
      if availableClients <= 0 { return false, None; }
      var expired;
      expired, expiresAt := CountExhausted(clientProviders, registration, provider, now, View());
      var cooling, other := CountSuspended(clientProviders, registration, provider, View());
      var effective := availableClients - expired - other;
      if effective < 0 { effective := 0; }
      available := effective > 0 || (availableClients > 0 && (expired > 0 || cooling > 0) && other == 0);
    }

    /** The rows of one model, and the earliest recovery among its providers. */
    method ListModel(modelID: string, now: int) returns (rows: seq<Row>, expiresAt: Option<int>)
      requires modelID in models
      ensures NoRepeats(rows)
      ensures forall row :: row in rows <==> row.model == modelID && Listed(View(), now, row)
      ensures IsLeast(expiresAt, ModelRecoveries(View(), modelID, now))
    {
      rows, expiresAt := [], None;
      var registration := models[modelID];
      var todo := registration.providers.Keys;
      ghost var seen: set<int> := {};
      while todo != {}
        invariant todo <= registration.providers.Keys
        invariant NoRepeats(rows)
        invariant forall row :: row in rows
                                <==> row.model == modelID && row.provider !in todo && Listed(View(), now, row)
        invariant forall at ::
                    at in seen
                    <==> exists p ::
                           p in registration.providers && p !in todo && at in Recoveries(View(), modelID, p, now)
        invariant IsLeast(expiresAt, seen)
        decreases |todo|
      {
        var provider :| provider in todo;
        todo := todo - {provider};
        var available, providerExpiresAt := ProviderModelAvailable(registration, provider, now);
        EarlierIsLeast(expiresAt, providerExpiresAt, seen, Recoveries(View(), modelID, provider, now));
        seen := seen + Recoveries(View(), modelID, provider, now);
        if providerExpiresAt.Some? && (expiresAt.None? || providerExpiresAt.value < expiresAt.value) {
          expiresAt := providerExpiresAt;
        }
        if available {
          rows := rows + [RowOf(registration, modelID, provider)];
        }
      }
      forall at ensures at in seen <==> at in ModelRecoveries(View(), modelID, now) {}
    }

    method BuildAvailableModels(now: int) returns (rows: seq<Row>, expiresAt: Option<int>)
      ensures Represents(rows, Listing(View(), now))
      ensures IsExpiry(View(), now, expiresAt)
    {
      rows, expiresAt := [], None;
      var todo := models.Keys;
      ghost var seen: set<int> := {};
      while todo != {}
        invariant todo <= models.Keys
        invariant NoRepeats(rows)
        invariant forall row :: row in rows <==> row.model !in todo && Listed(View(), now, row)
        invariant forall at :: at in seen
                               <==> exists m :: m in models && m !in todo && at in ModelRecoveries(View(), m, now)
        invariant IsLeast(expiresAt, seen)
        decreases |todo|
      {
        var modelID :| modelID in todo;
        todo := todo - {modelID};
        var modelRows, modelExpiresAt := ListModel(modelID, now);
        EarlierIsLeast(expiresAt, modelExpiresAt, seen, ModelRecoveries(View(), modelID, now));
        seen := seen + ModelRecoveries(View(), modelID, now);
        expiresAt := Earlier(expiresAt, modelExpiresAt);
        rows := rows + modelRows;
      }
      forall at ensures at in seen <==> at in AllRecoveries(View(), now) {}
    }

    /**
      The cached path: what a rebuild would give now. A caller may have read its clock before the cached listing was
      built; unless a mark recovered in between that makes no difference, and if one did the caller gets the listing of
      the later moment.
     */
    method GetAvailableModels(handlerType: string, now: int) returns (rows: seq<Row>)
      requires Valid()
      modifies `availableModelsCache, `builtAt
      ensures Valid() && View() == old(View())
      ensures (handlerType in old(builtAt) ==>
                 forall at | at in AllRecoveries(View(), now) :: old(builtAt)[handlerType] < at)
              ==> Represents(rows, Listing(View(), now))
      ensures (handlerType in old(builtAt) ==> old(builtAt)[handlerType] <= now)
              ==> Represents(rows, Listing(View(), now))
      ensures exists at :: now <= at && Represents(rows, Listing(View(), at))
      ensures handlerType in availableModelsCache && availableModelsCache[handlerType].rows == rows
      ensures availableModelsCache - {handlerType} == old(availableModelsCache) - {handlerType}
    {
      if handlerType in availableModelsCache && Unexpired(availableModelsCache[handlerType].expiresAt, now) {
        rows := availableModelsCache[handlerType].rows;
        ghost var built := builtAt[handlerType];
        if built <= now {
          ListingStable(View(), built, availableModelsCache[handlerType].expiresAt, now);
        } else if forall at | at in AllRecoveries(View(), now) :: built < at {
          NoRecoverySameListing(View(), now, built);
        }
        return;
      }
      var expiresAt;
      rows, expiresAt := BuildAvailableModels(now);
      availableModelsCache := availableModelsCache[handlerType := CacheEntry(rows, expiresAt)];
      builtAt := builtAt[handlerType := now];
    }

    // -------------------------------------------------------------- the recount by provider

    /** One client's list, counted into the entries. */
    method CountClient(clientID: string, entries: map<string, ProviderModel>, ghost provider: string)
      returns (counted: map<string, ProviderModel>)
      requires Consistent(View()) && clientID in clientModels && ProviderOf(View(), clientID) == provider
      requires forall m | m in entries :: entries[m].count > 0 && FromClient(View(), provider, m, entries[m].info)
      ensures forall m | m in counted :: counted[m].count > 0 && FromClient(View(), provider, m, counted[m].info)
      ensures forall m :: Counted(counted, m) == Counted(entries, m) + ListedBy(View(), clientID, m)
    {
      assert ClientWellKept(View(), clientID);
      counted := CountList(clientModels[clientID], clientModelInfos[clientID], entries, View(), provider);
    }

    method CountProviderModels(provider: string) returns (entries: map<string, ProviderModel>)
      requires Consistent(View()) && provider != NO_PROVIDER
      ensures forall m | m in entries :: entries[m].count > 0 && FromClient(View(), provider, m, entries[m].info)
      ensures forall m :: Counted(entries, m) == ProviderTotal(View(), m, provider)
    {
      entries := map[];
      var todo := clientProviders.Keys;
      forall m ensures Sum(ProviderWeights(View(), m, provider) - todo) == 0 {
        SumZero(ProviderWeights(View(), m, provider) - todo);
      }
      while todo != {}
        invariant todo <= clientProviders.Keys
        invariant forall m | m in entries :: entries[m].count > 0 && FromClient(View(), provider, m, entries[m].info)
        invariant forall m :: Counted(entries, m) == Sum(ProviderWeights(View(), m, provider) - todo)
        decreases |todo|
      {
        var clientID :| clientID in todo;
        forall m { OneMoreClient(View(), m, provider, todo, clientID); }
        todo := todo - {clientID};
        if clientProviders[clientID] == provider {
          entries := CountClient(clientID, entries, provider);
        }
      }
      forall m ensures Counted(entries, m) == ProviderTotal(View(), m, provider) {
        assert ProviderWeights(View(), m, provider) - todo == ProviderWeights(View(), m, provider);
      }
    }

    /** Whether the counted units of one model leave the provider able to serve it. */
    method RecountModel(modelID: string, provider: string, count: nat, now: int) returns (available: bool)
      requires provider != NO_PROVIDER && count > 0 && count == ProviderTotal(View(), modelID, provider)
      ensures available == RecountAvailable(View(), modelID, provider, now)
    {
      var expired, cooling, other := 0, 0, 0;
      if modelID in models {
        expired := CountNamedExhausted(clientProviders, models[modelID], provider, now, View());
        cooling, other := CountNamedSuspended(clientProviders, models[modelID], provider, View());
      }
      var effective := count - expired - other;
      if effective < 0 { effective := 0; }
      available := effective > 0 || (count > 0 && (expired > 0 || cooling > 0) && other == 0);
    }

    method RecountAll(provider: string, entries: map<string, ProviderModel>, now: int) returns (result: seq<ModelInfo>)
      requires provider != NO_PROVIDER
      requires forall m | m in entries :: entries[m].count > 0 && FromClient(View(), provider, m, entries[m].info)
      requires forall m :: Counted(entries, m) == ProviderTotal(View(), m, provider)
      ensures NoRepeats(InfoIds(result))
      ensures forall m :: m in InfoIds(result) <==> m in entries && RecountAvailable(View(), m, provider, now)
      ensures forall info | info in result :: FromClient(View(), provider, info.id, info)
    {
      result := [];
      ghost var good := set m | m in entries && RecountAvailable(View(), m, provider, now);
      var todo := entries.Keys;
      while todo != {}
        invariant todo <= entries.Keys
        invariant NoRepeats(InfoIds(result))
        invariant forall m :: m in InfoIds(result) <==> m in good - todo
        invariant forall info | info in result :: FromClient(View(), provider, info.id, info)
        decreases |todo|
      {
        var modelID :| modelID in todo;
        todo := todo - {modelID};
        var entry := entries[modelID];
        assert Counted(entries, modelID) == ProviderTotal(View(), modelID, provider);
        var available := RecountModel(modelID, provider, entry.count, now);
        if available {
          AppendInfo(result, entry.info);
          result := result + [entry.info];
        }
      }
    }

    /** The models available from one provider, recounted from the client tables. */
    method GetAvailableModelsByProvider(provider: string, now: int) returns (result: seq<ModelInfo>)
      requires Valid()
      ensures NoRepeats(InfoIds(result))
      ensures var p := Text.ToLower(Text.Trim(provider));
              forall m :: m in InfoIds(result) <==> p != NO_PROVIDER && RecountAvailable(View(), m, p, now)
      ensures forall info | info in result :: FromClient(View(), Text.ToLower(Text.Trim(provider)), info.id, info)
    {
      var p := Text.ToLower(Text.Trim(provider));
      if p == NO_PROVIDER { return []; }
      var entries := CountProviderModels(p);
      result := RecountAll(p, entries, now);
      forall m ensures m in entries <==> ProviderTotal(View(), m, p) > 0 {
        assert Counted(entries, m) == ProviderTotal(View(), m, p);
      }
    }

    // -------------------------------------------------------------- marks

    method SetModelQuotaExceeded(clientID: string, modelID: string, now: int)
      requires Valid()
      modifies `models, `availableModelsCache, `builtAt
      ensures Valid() && View() == Apply(old(View()), SetQuota(clientID, modelID, now))
    {
      StepKeepsConsistency(View(), SetQuota(clientID, modelID, now));
      if modelID in models {
        var registration := models[modelID];
        models := models[modelID := registration.(quotaExceeded := registration.quotaExceeded[clientID := now])];
        InvalidateAvailableModelsCache();
      }
    }

    method ClearModelQuotaExceeded(clientID: string, modelID: string)
      requires Valid()
      modifies `models, `availableModelsCache, `builtAt
      ensures Valid() && View() == Apply(old(View()), ClearQuota(clientID, modelID))
    {
      StepKeepsConsistency(View(), ClearQuota(clientID, modelID));
      if modelID in models {
        var registration := models[modelID];
        models := models[modelID := registration.(quotaExceeded := registration.quotaExceeded - {clientID})];
        InvalidateAvailableModelsCache();
      }
    }

    method SuspendClientModel(clientID: string, modelID: string, reason: string)
      requires Valid()
      modifies `models, `availableModelsCache, `builtAt
      ensures Valid() && View() == Apply(old(View()), Suspend(clientID, modelID, reason))
    {
      if clientID == "" || modelID == "" { return; }
      if modelID !in models { return; }
      var registration := models[modelID];
      if clientID in registration.suspended { return; }
      StepKeepsConsistency(View(), Suspend(clientID, modelID, reason));
      models := models[modelID := registration.(suspended := registration.suspended[clientID := reason])];
      InvalidateAvailableModelsCache();
    }

    method ResumeClientModel(clientID: string, modelID: string)
      requires Valid()
      modifies `models, `availableModelsCache, `builtAt
      ensures Valid() && View() == Apply(old(View()), Resume(clientID, modelID))
    {
      if clientID == "" || modelID == "" { return; }
      if modelID !in models { return; }
      var registration := models[modelID];
      if clientID !in registration.suspended {
        assert registration.suspended - {clientID} == registration.suspended;
        return;
      }
      StepKeepsConsistency(View(), Resume(clientID, modelID));
      models := models[modelID := registration.(suspended := registration.suspended - {clientID})];
      InvalidateAvailableModelsCache();
    }

    /** Drop one model's marks whose window is over, and report whether there was any. */
    method CleanModel(modelID: string, now: int) returns (dropped: bool)
      requires modelID in models
      modifies `models
      ensures models == old(models)[modelID := CleanedRegistration(old(models)[modelID], now)]
      ensures !dropped ==> models == old(models)
    {
      var registration := models[modelID];
      var kept := UnexpiredMarks(registration.quotaExceeded, now);
      dropped := kept != registration.quotaExceeded;
      if dropped {
        models := models[modelID := registration.(quotaExceeded := kept)];
      }
    }

    method CleanModels(now: int) returns (invalidated: bool)
      modifies `models
      ensures models == Cleaned(old(View()), now).models
      ensures !invalidated ==> models == old(models)
    {
      ghost var t, cleaned := View(), Cleaned(View(), now).models;
      invalidated := false;
      var todo := models.Keys;
      while todo != {}
        invariant todo <= models.Keys && models.Keys == t.models.Keys
        invariant forall m | m in todo :: models[m] == t.models[m]
        invariant forall m | m in models && m !in todo :: models[m] == cleaned[m]
        invariant !invalidated ==> models == t.models
        decreases |todo|
      {
        var modelID :| modelID in todo;
        todo := todo - {modelID};
        var dropped := CleanModel(modelID, now);
        invalidated := invalidated || dropped;
      }
      assert models == cleaned;
    }

    /** The cached listings are dropped only if some mark was. */
    method CleanupExpiredQuotas(now: int)
      requires Valid()
      modifies `models, `availableModelsCache, `builtAt
      ensures Valid() && View() == Apply(old(View()), Cleanup(now))
    {
      StepKeepsConsistency(View(), Cleanup(now));
      var invalidated := CleanModels(now);
      if invalidated {
        InvalidateAvailableModelsCache();
      }
    }
  }

  // ---------------------------------------------------------------- from slots to whole tables

  lemma CountsAfterRegister(t: Tables, c: string, p: string, list: seq<Option<ModelInfo>>)
    requires Consistent(t)
    ensures forall m | m != "" ::
              Count(SlotOf(AfterRegister(t, c, p, list).models, m)) == OthersTotal(t, c, m) + |Positions(list, m)|
  {
    forall m | m != ""
      ensures Count(SlotOf(AfterRegister(t, c, p, list).models, m)) == OthersTotal(t, c, m) + |Positions(list, m)|
    {
      assert Balanced(t, m);
      RegisteredUnits(t, c, p, list, m, p);
    }
  }

  lemma ModelsFromSlots(t: Tables, c: string, p: string, list: seq<Option<ModelInfo>>,
                        models: map<string, Registration>)
    requires Consistent(t)
    requires forall m :: SlotOf(models, m) == SlotAfter(t, c, p, list, m)
    ensures models == ModelsAfterRegister(t, c, p, list)
  {
    forall m ensures SlotOf(models, m) == SlotOf(AfterRegister(t, c, p, list).models, m) {
      assert Balanced(t, m);
      SlotsAfterRegister(t, c, p, list, m);
    }
    SlotsDetermineModels(models, AfterRegister(t, c, p, list).models);
  }

  lemma ModelsAfterUnregister(t: Tables, c: string, models: map<string, Registration>)
    requires Consistent(t)
    requires forall m :: SlotOf(models, m) == Withdraw(SlotOf(t.models, m), c, ProviderOf(t, c), ListedBy(t, c, m))
    ensures models == ModelsAfterRegister(t, c, NO_PROVIDER, [])
  {
    ModelsFromSlots(t, c, NO_PROVIDER, [], models);
  }

  lemma ModelsAfterFirstRegister(t: Tables, c: string, p: string, list: seq<Option<ModelInfo>>,
                                 models: map<string, Registration>)
    requires Consistent(t) && c !in t.clientModels && Ids(list) != []
    requires forall m :: SlotOf(models, m)
                         == Offer(SlotOf(t.models, m), p, InfoOf(FirstInfos(list), m), multiset(Ids(list))[m])
    ensures models == ModelsAfterRegister(t, c, p, list)
  {
    ModelsFromSlots(t, c, p, list, models);
  }

  lemma ModelsAfterReconcile(t: Tables, rec: Reconciliation, list: seq<Option<ModelInfo>>,
                             models: map<string, Registration>)
    requires Consistent(t) && rec.client in t.clientModels
    requires forall m :: rec.Of(m) == ChangeOf(t, rec.client, rec.newProvider, list, m)
    requires forall m :: SlotOf(models, m) == AllPhases(SlotOf(t.models, m), rec.Of(m))
    ensures models == ModelsAfterRegister(t, rec.client, rec.newProvider, list)
  {
    forall m ensures SlotOf(models, m) == SlotAfter(t, rec.client, rec.newProvider, list, m) {
      assert Balanced(t, m);
      ConsistentHolds(t, rec.client, m);
      PhasesRebalance(SlotOf(t.models, m), rec.Of(m));
    }
    ModelsFromSlots(t, rec.client, rec.newProvider, list, models);
  }
}
