/**
  When a provider can serve a model, in terms of the clients that list it and their marks: the rule the index applies to
  four numbers, said without the numbers.
 */
module Availability {
  import opened Prelude
  import opened Registrations
  import opened RegistryTables
  import opened Listings
  import opened Recount
  import opened RegistryRuns
  import Text

  // ---------------------------------------------------------------- clients and their marks

  /** The clients of provider p that list model m. */
  ghost function Listers(t: Tables, m: string, p: string): set<string> {
    set c | c in t.clientModels && m in t.clientModels[c] && c in t.clientProviders && t.clientProviders[c] == p
  }

  /** The letters of "quota", each in either case. */
  predicate SaysQuota(reason: string) {
    && |reason| == 5
    && reason[0] in "qQ" && reason[1] in "uU" && reason[2] in "oO" && reason[3] in "tT" && reason[4] in "aA"
  }

  /** Client c's quota mark on the model is less than five minutes old. */
  predicate OverQuota(r: Registration, c: string, now: int) {
    c in r.quotaExceeded && now < r.quotaExceeded[c] + 5 * 60 * 1_000_000_000
  }

  /** Client c is suspended for the model, for another reason than its quota. */
  predicate Stopped(r: Registration, c: string) { c in r.suspended && !SaysQuota(r.suspended[c]) }

  ghost function OverSet(t: Tables, r: Registration, p: string, now: int): set<string> {
    set c | c in r.quotaExceeded && c in t.clientProviders && t.clientProviders[c] == p && OverQuota(r, c, now)
  }

  ghost function StoppedSet(t: Tables, r: Registration, p: string): set<string> {
    set c | c in r.suspended && c in t.clientProviders && t.clientProviders[c] == p && Stopped(r, c)
  }

  lemma QuotaReason(reason: string)
    ensures Text.EqualFold(reason, QUOTA_REASON) <==> SaysQuota(reason)
  {
    var lower := Text.ToLower(reason);
    forall i | 0 <= i < |QUOTA_REASON| { Text.ToLowerChars(QUOTA_REASON, i); }
    assert Text.ToLower(QUOTA_REASON) == "quota";
    if |reason| == 5 {
      forall i | 0 <= i < 5 { Text.ToLowerChars(reason, i); }
      assert lower == "quota"
         <==> lower[0] == 'q' && lower[1] == 'u' && lower[2] == 'o' && lower[3] == 't' && lower[4] == 'a';
    }
  }

  lemma MarkedSets(t: Tables, r: Registration, p: string, now: int)
    requires p != NO_PROVIDER
    ensures Exhausted(t, r, p, now) == OverSet(t, r, p, now) && Suspended(t, r, p) == StoppedSet(t, r, p)
  {
    forall c | c in r.suspended { QuotaReason(r.suspended[c]); }
    forall c ensures c in Exhausted(t, r, p, now) <==> c in OverSet(t, r, p, now) {}
    forall c ensures c in Suspended(t, r, p) <==> c in StoppedSet(t, r, p) {}
  }

  // ---------------------------------------------------------------- units and clients

  lemma UnitsOfListers(t: Tables, m: string, p: string)
    requires p != NO_PROVIDER
    ensures ProviderTotal(t, m, p) > 0 <==> Listers(t, m, p) != {}
  {
    var w := ProviderWeights(t, m, p);
    SumZero(w);
    if Listers(t, m, p) != {} {
      var c :| c in Listers(t, m, p);
      assert w[c] > 0;
    } else {
      forall c | c in w ensures w[c] == 0 { assert c !in Listers(t, m, p); }
    }
  }

  /** No client of the provider lists the model twice. */
  ghost predicate ListedOnce(t: Tables, m: string, p: string) {
    forall c | c in Listers(t, m, p) :: multiset(t.clientModels[c])[m] == 1
  }

  lemma UnitsAreListers(t: Tables, m: string, p: string)
    requires p != NO_PROVIDER && ListedOnce(t, m, p)
    ensures ProviderTotal(t, m, p) == |Listers(t, m, p)|
  {
    var w := ProviderWeights(t, m, p);
    forall c | c in w ensures w[c] <= 1 && (w[c] == 1 <==> c in Listers(t, m, p)) {
      assert c in Listers(t, m, p) ==> multiset(t.clientModels[c])[m] == 1;
    }
    SumOfOnes(w);
    assert (set c | c in w && w[c] == 1) == Listers(t, m, p);
  }

  // ---------------------------------------------------------------- the rule, for index and recount

  /** The index lists the pair at that moment. */
  ghost predicate Served(t: Tables, m: string, p: string, now: int) {
    exists row :: row in Listing(t, now) && row.model == m && row.provider == p
  }

  lemma ServedIff(t: Tables, m: string, p: string, now: int)
    ensures Served(t, m, p, now) <==> IndexAvailable(t, m, p, now)
  {
    if IndexAvailable(t, m, p, now) {
      assert Listed(t, now, RowOf(t.models[m], m, p));
      assert RowOf(t.models[m], m, p) in Listing(t, now);
    }
  }

  lemma IndexUnits(t: Tables, m: string, p: string)
    requires Consistent(t) && p != NO_PROVIDER
    ensures ProviderTotal(t, m, p) == Tally(SlotOf(t.models, m), p)
    ensures Listers(t, m, p) != {} ==> m in t.models && p in t.models[m].providers
  {
    assert Balanced(t, m);
    assert Tally(SlotOf(t.models, m), p) == ProviderTotal(t, m, p);
    UnitsOfListers(t, m, p);
  }

  /** As long as no client of the provider is stopped, every listed model is served, whatever quota marks there are. */
  lemma ServedUnlessStopped(t: Tables, m: string, p: string, now: int)
    requires Consistent(t) && p != NO_PROVIDER
    requires m in t.models ==> StoppedSet(t, t.models[m], p) == {}
    ensures Served(t, m, p, now) <==> Listers(t, m, p) != {}
  {
    ServedIff(t, m, p, now);
    IndexUnits(t, m, p);
    UnitsOfListers(t, m, p);
    if m in t.models { MarkedSets(t, t.models[m], p, now); }
  }

  /** Beside a stopped client, each mark takes a unit away, so a client with both kinds of marks takes away two. */
  lemma ServedBesideStopped(t: Tables, m: string, p: string, now: int)
    requires Consistent(t) && p != NO_PROVIDER && m in t.models && StoppedSet(t, t.models[m], p) != {}
    ensures Served(t, m, p, now)
            <==> ProviderTotal(t, m, p) > |OverSet(t, t.models[m], p, now)| + |StoppedSet(t, t.models[m], p)|
  {
    ServedIff(t, m, p, now);
    IndexUnits(t, m, p);
    MarkedSets(t, t.models[m], p, now);
  }

  /** The clients that list the model and have no mark that counts, and those that have both kinds of marks. */
  ghost function FreeClients(t: Tables, m: string, p: string, now: int): set<string>
    requires m in t.models
  {
    set c | c in Listers(t, m, p) && !OverQuota(t.models[m], c, now) && !Stopped(t.models[m], c)
  }

  ghost function DoublyMarked(t: Tables, m: string, p: string, now: int): set<string>
    requires m in t.models
  {
    set c | c in Listers(t, m, p) && OverQuota(t.models[m], c, now) && Stopped(t.models[m], c)
  }

  /**
    Where lists do not repeat the model and marks are on listed pairs: beside a stopped client the model is served
    exactly if more clients are free than are doubly marked.
   */
  lemma ServedIffFreeOutnumber(t: Tables, m: string, p: string, now: int)
    requires Consistent(t) && p != NO_PROVIDER && m in t.models && StoppedSet(t, t.models[m], p) != {}
    requires ListedOnce(t, m, p) && MarksOffered(t, m)
    ensures Served(t, m, p, now) <==> |FreeClients(t, m, p, now)| > |DoublyMarked(t, m, p, now)|
  {
    var r, all := t.models[m], Listers(t, m, p);
    var over, stopped := OverSet(t, r, p, now), StoppedSet(t, r, p);
    ServedBesideStopped(t, m, p, now);
    UnitsAreListers(t, m, p);
    forall c | c in over + stopped ensures c in all { assert ListedBy(t, c, m) > 0; }
    assert FreeClients(t, m, p, now) == all - (over + stopped);
    assert DoublyMarked(t, m, p, now) == over * stopped;
    FreeAgainstBoth(all, over, stopped);
  }

  lemma FreeAgainstBoth(all: set<string>, a: set<string>, b: set<string>)
    requires a <= all && b <= all
    ensures |all| - |a| - |b| == |all - (a + b)| - |a * b|
  {
    assert |a + b| == |a| + |b| - |a * b|;
    assert all == (all - (a + b)) + (a + b);
  }

  /** So if no client has both kinds of marks, it is served exactly if some client is free. */
  lemma ServedIffSomeoneFree(t: Tables, m: string, p: string, now: int)
    requires Consistent(t) && p != NO_PROVIDER && m in t.models && StoppedSet(t, t.models[m], p) != {}
    requires ListedOnce(t, m, p) && MarksOffered(t, m)
    requires forall c | c in Listers(t, m, p) :: !(OverQuota(t.models[m], c, now) && Stopped(t.models[m], c))
    ensures Served(t, m, p, now)
            <==> exists c :: c in Listers(t, m, p) && !OverQuota(t.models[m], c, now) && !Stopped(t.models[m], c)
  {
    ServedIffFreeOutnumber(t, m, p, now);
    assert DoublyMarked(t, m, p, now) == {};
    if c :| c in Listers(t, m, p) && !OverQuota(t.models[m], c, now) && !Stopped(t.models[m], c) {
      assert c in FreeClients(t, m, p, now);
    } else {
      assert FreeClients(t, m, p, now) == {};
    }
  }

  /** The recount follows the same two rules, with the marks of named clients. */
  lemma RecountedUnlessStopped(t: Tables, m: string, p: string, now: int)
    requires p != NO_PROVIDER && (m in t.models ==> StoppedSet(t, t.models[m], p) <= {""})
    ensures RecountAvailable(t, m, p, now) <==> Listers(t, m, p) != {}
  {
    UnitsOfListers(t, m, p);
    if m in t.models {
      MarkedSets(t, t.models[m], p, now);
      assert Suspended(t, t.models[m], p) - {""} == {};
    }
  }

  lemma RecountedBesideStopped(t: Tables, m: string, p: string, now: int)
    requires p != NO_PROVIDER && m in t.models && !(StoppedSet(t, t.models[m], p) <= {""})
    ensures var over, stopped := OverSet(t, t.models[m], p, now) - {""}, StoppedSet(t, t.models[m], p) - {""};
            RecountAvailable(t, m, p, now) <==> ProviderTotal(t, m, p) > |over| + |stopped|
  {
    MarkedSets(t, t.models[m], p, now);
    var c :| c in StoppedSet(t, t.models[m], p) && c != "";
    assert c in Suspended(t, t.models[m], p) - {""};
  }

  // ---------------------------------------------------------------- what a listing shows

  /** A row shows the info the provider's client registered, if it was the last to register the model. */
  lemma RowShowsRegisteredInfo(t: Tables, c: string, p: string, list: seq<Option<ModelInfo>>, i: nat, now: int,
                               row: Row)
    requires Consistent(t) && p != NO_PROVIDER && i < |list| && list[i].Some? && list[i].value.id != ""
    requires forall j | 0 <= j < i && list[j].Some? :: list[j].value.id != list[i].value.id
    requires row in Listing(AfterRegister(t, c, p, list), now) && row.model == list[i].value.id && row.provider == p
    ensures row.info == list[i].value
  {
    RegisteredInfos(t, c, p, list, i);
  }

  /** Each provider's row has that provider's own info; a registration under other providers does not change it. */
  lemma RowShowsOwnInfo(t: Tables, now: int, row: Row)
    requires Consistent(t) && row in Listing(t, now)
    ensures row.model in t.models && row.provider in t.models[row.model].infoByProvider
    ensures row.info == t.models[row.model].infoByProvider[row.provider]
  {
    assert Balanced(t, row.model);
  }

  lemma OthersLeaveTheRow(t: Tables, c: string, p: string, list: seq<Option<ModelInfo>>, now: int, row: Row, later: Row)
    requires Consistent(t) && row in Listing(t, now) && later in Listing(AfterRegister(t, c, p, list), now)
    requires row.model == later.model && row.provider == later.provider && row.provider != p
    requires row.provider != ProviderOf(t, c)
    ensures row == later
  {
    RegisterKeepsConsistency(t, c, p, list);
    RowShowsOwnInfo(t, now, row);
    RowShowsOwnInfo(AfterRegister(t, c, p, list), now, later);
    var d: string := c + "'";
    RegisteringLeavesTheRest(t, c, p, list, row.model, d, row.provider);
  }

  // ---------------------------------------------------------------- a doubly marked client hides a free one

  lemma DoubleMarkHidesFreeClient()
    ensures var t := Run([Register("a", "p", OneModel("m")), Register("b", "p", OneModel("m"))]
                         + [SetQuota("a", "m", 0)] + [Suspend("a", "m", "manual")]);
            && "m" in t.models && Listers(t, "m", "p") == {"a", "b"}
            && !OverQuota(t.models["m"], "b", 1) && !Stopped(t.models["m"], "b")
            && !Served(t, "m", "p", 1)
  {
    var first, second := Register("a", "p", OneModel("m")), Register("b", "p", OneModel("m"));
    var ops := [first, second];
    RunOneMore([], first);
    RunOneMore([first], second);
    assert [] + [first] == [first] && [first] + [second] == ops;
    TwoClients("a", "b", "p", "m");
    RunOneMore(ops, SetQuota("a", "m", 0));
    RunOneMore(ops + [SetQuota("a", "m", 0)], Suspend("a", "m", "manual"));
    ReachableIsConsistent(ops + [SetQuota("a", "m", 0)] + [Suspend("a", "m", "manual")]);
    DoubleMarkDecides(Run(ops + [SetQuota("a", "m", 0)] + [Suspend("a", "m", "manual")]));
  }

  lemma DoubleMarkDecides(t: Tables)
    requires Consistent(t) && "m" in t.models
    requires t.clientModels == map["a" := ["m"], "b" := ["m"]] && t.clientProviders == map["a" := "p", "b" := "p"]
    requires t.models["m"].quotaExceeded == map["a" := 0] && t.models["m"].suspended == map["a" := "manual"]
    ensures Listers(t, "m", "p") == {"a", "b"} && !Served(t, "m", "p", 1)
    ensures !OverQuota(t.models["m"], "b", 1) && !Stopped(t.models["m"], "b")
  {
    assert Listers(t, "m", "p") == {"a", "b"};
    assert StoppedSet(t, t.models["m"], "p") == {"a"} && OverSet(t, t.models["m"], "p", 1) == {"a"};
    UnitsAreListers(t, "m", "p");
    ServedBesideStopped(t, "m", "p", 1);
  }
}
