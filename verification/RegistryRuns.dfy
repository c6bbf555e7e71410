/** Every operation of the registry as a step on its tables, and what holds after any sequence of steps. */
module RegistryRuns {
  import opened Prelude
  import opened Registrations
  import opened RegistryTables
  import opened Listings
  import opened Recount
  import Text

  datatype Op =
    | Register(client: string, provider: string, list: seq<Option<ModelInfo>>)
    | Unregister(client: string)
    | SetQuota(client: string, model: string, now: int)
    | ClearQuota(client: string, model: string)
    | Suspend(client: string, model: string, reason: string)
    | Resume(client: string, model: string)
    | Cleanup(now: int)

  function WithMarks(t: Tables, m: string, quota: map<string, int>, suspended: map<string, string>): Tables
    requires m in t.models
  {
    t.(models := t.models[m := t.models[m].(quotaExceeded := quota, suspended := suspended)])
  }

  function Apply(t: Tables, op: Op): Tables {
    match op
    case Register(c, p, list) => AfterRegister(t, c, p, list)
    case Unregister(c) => AfterUnregister(t, c)
    case SetQuota(c, m, now) =>
      if m in t.models then WithMarks(t, m, t.models[m].quotaExceeded[c := now], t.models[m].suspended) else t
    case ClearQuota(c, m) =>
      if m in t.models then WithMarks(t, m, t.models[m].quotaExceeded - {c}, t.models[m].suspended) else t
    case Suspend(c, m, reason) =>
      if c == "" || m == "" || m !in t.models || c in t.models[m].suspended then t
      else WithMarks(t, m, t.models[m].quotaExceeded, t.models[m].suspended[c := reason])
    case Resume(c, m) =>
      if c == "" || m == "" || m !in t.models then t
      else WithMarks(t, m, t.models[m].quotaExceeded, t.models[m].suspended - {c})
    case Cleanup(now) => Cleaned(t, now)
  }

  /** u differs from t in marks only. */
  ghost predicate OnlyMarksDiffer(t: Tables, u: Tables) {
    && u.clientModels == t.clientModels && u.clientInfos == t.clientInfos && u.clientProviders == t.clientProviders
    && u.models.Keys == t.models.Keys
    && forall m | m in t.models ::
         && u.models[m].count == t.models[m].count && u.models[m].providers == t.models[m].providers
         && u.models[m].info == t.models[m].info && u.models[m].infoByProvider == t.models[m].infoByProvider
  }

  lemma MarksDoNotBalance(t: Tables, u: Tables, m: string)
    requires Balanced(t, m) && OnlyMarksDiffer(t, u)
    ensures Balanced(u, m)
  {
    assert Weights(u, m) == Weights(t, m);
    forall p ensures Tally(SlotOf(u.models, m), p) == ProviderTotal(u, m, p) {
      assert Tally(SlotOf(t.models, m), p) == ProviderTotal(t, m, p);
      assert ProviderWeights(u, m, p) == ProviderWeights(t, m, p);
    }
  }

  lemma MarksDoNotCount(t: Tables, u: Tables)
    requires Consistent(t) && OnlyMarksDiffer(t, u)
    ensures Consistent(u)
  {
    forall m ensures Balanced(u, m) {
      assert Balanced(t, m);
      MarksDoNotBalance(t, u, m);
    }
    forall c ensures ClientWellKept(u, c) { assert ClientWellKept(t, c); }
  }

  lemma WithMarksOnlyMarks(t: Tables, m: string, quota: map<string, int>, suspended: map<string, string>)
    requires m in t.models
    ensures OnlyMarksDiffer(t, WithMarks(t, m, quota, suspended))
  {}

  lemma CleanedOnlyMarks(t: Tables, now: int)
    ensures OnlyMarksDiffer(t, Cleaned(t, now))
  {}

  lemma MarkingOnlyMarks(t: Tables, op: Op)
    requires !op.Register? && !op.Unregister?
    ensures OnlyMarksDiffer(t, Apply(t, op))
  {
    if op.Cleanup? {
      CleanedOnlyMarks(t, op.now);
    } else if op.model in t.models {
      var u := Apply(t, op);
      WithMarksOnlyMarks(t, op.model, u.models[op.model].quotaExceeded, u.models[op.model].suspended);
    }
  }

  lemma MarkingKeepsSuspensionsNamed(t: Tables, op: Op)
    requires SuspensionsNamed(t) && !op.Register? && !op.Unregister?
    ensures SuspensionsNamed(Apply(t, op))
  {}

  lemma StepKeepsConsistency(t: Tables, op: Op)
    requires Consistent(t) && SuspensionsNamed(t)
    ensures Consistent(Apply(t, op)) && SuspensionsNamed(Apply(t, op))
  {
    match op
    case Register(c, p, list) =>
      RegisterKeepsConsistency(t, c, p, list);
      RegisterKeepsSuspensionsNamed(t, c, p, list);
    case Unregister(c) =>
      RegisterKeepsConsistency(t, c, NO_PROVIDER, []);
      RegisterKeepsSuspensionsNamed(t, c, NO_PROVIDER, []);
    case _ =>
      MarkingOnlyMarks(t, op);
      MarkingKeepsSuspensionsNamed(t, op);
      MarksDoNotCount(t, Apply(t, op));
  }

  function QuotaMark(t: Tables, m: string, c: string): Option<int> {
    if m in t.models && c in t.models[m].quotaExceeded then Some(t.models[m].quotaExceeded[c]) else None
  }

  function SuspensionMark(t: Tables, m: string, c: string): Option<string> {
    if m in t.models && c in t.models[m].suspended then Some(t.models[m].suspended[c]) else None
  }

  /** A quota mark is set, cleared, or dropped after five minutes; every other one, and every suspension, stays. */
  lemma QuotaMarksAfter(t: Tables, c: string, m: string, now: int, x: string, d: string)
    ensures QuotaMark(Apply(t, SetQuota(c, m, now)), x, d)
            == if x == m && d == c && m in t.models then Some(now) else QuotaMark(t, x, d)
    ensures QuotaMark(Apply(t, ClearQuota(c, m)), x, d) == if x == m && d == c then None else QuotaMark(t, x, d)
    ensures QuotaMark(Apply(t, Cleanup(now)), x, d)
            == if QuotaMark(t, x, d).Some? && now >= QuotaMark(t, x, d).value + 5 * 60 * 1_000_000_000
               then None else QuotaMark(t, x, d)
    ensures SuspensionMark(Apply(t, SetQuota(c, m, now)), x, d) == SuspensionMark(t, x, d)
    ensures SuspensionMark(Apply(t, ClearQuota(c, m)), x, d) == SuspensionMark(t, x, d)
    ensures SuspensionMark(Apply(t, Cleanup(now)), x, d) == SuspensionMark(t, x, d)
  {}

  /** A named client is suspended with its first reason until it is resumed; every other mark stays. */
  lemma SuspensionsAfter(t: Tables, c: string, m: string, reason: string, x: string, d: string)
    ensures SuspensionMark(Apply(t, Suspend(c, m, reason)), x, d)
            == if x == m && d == c && c != "" && m != "" && m in t.models && SuspensionMark(t, m, c).None?
               then Some(reason) else SuspensionMark(t, x, d)
    ensures SuspensionMark(Apply(t, Resume(c, m)), x, d)
            == if x == m && d == c && c != "" && m != "" then None else SuspensionMark(t, x, d)
    ensures QuotaMark(Apply(t, Suspend(c, m, reason)), x, d) == QuotaMark(t, x, d)
    ensures QuotaMark(Apply(t, Resume(c, m)), x, d) == QuotaMark(t, x, d)
  {}

  // ---------------------------------------------------------------- runs

  const EMPTY := Tables(map[], map[], map[], map[])

  /** The tables after a sequence of operations on an empty registry. */
  function Run(ops: seq<Op>): Tables {
    if ops == [] then EMPTY else Apply(Run(ops[..|ops| - 1]), ops[|ops| - 1])
  }

  lemma RunOneMore(ops: seq<Op>, op: Op)
    ensures Run(ops + [op]) == Apply(Run(ops), op)
  {
    assert (ops + [op])[..|ops|] == ops;
  }

  /** A mark is placed only on a model its client currently offers. */
  ghost predicate Disciplined(t: Tables, op: Op) {
    (op.SetQuota? || op.Suspend?) ==> ListedBy(t, op.client, op.model) > 0
  }

  lemma EmptyIsConsistent()
    ensures Consistent(EMPTY) && SuspensionsNamed(EMPTY)
  {
    forall m, p ensures Weights(EMPTY, m) == map[] && ProviderWeights(EMPTY, m, p) == map[] {}
  }

  /** In every reachable state the counters are the sums. */
  lemma {:induction false} ReachableIsConsistent(ops: seq<Op>)
    ensures Consistent(Run(ops)) && SuspensionsNamed(Run(ops))
  {
    if ops == [] {
      EmptyIsConsistent();
    } else {
      ReachableIsConsistent(ops[..|ops| - 1]);
      StepKeepsConsistency(Run(ops[..|ops| - 1]), ops[|ops| - 1]);
    }
  }

  lemma StepKeepsMarksOffered(t: Tables, op: Op, m: string)
    requires Consistent(t) && Disciplined(t, op) && MarksOffered(t, m)
    ensures MarksOffered(Apply(t, op), m)
  {
    assert Balanced(t, m);
    match op
    case Register(c, p, list) => RegisterKeepsMarksOffered(t, c, p, list, m);
    case Unregister(c) => RegisterKeepsMarksOffered(t, c, NO_PROVIDER, [], m);
    case _ => MarkingKeepsMarksOffered(t, op, m);
  }

  lemma MarkingKeepsMarksOffered(t: Tables, op: Op, m: string)
    requires !op.Register? && !op.Unregister? && Disciplined(t, op) && MarksOffered(t, m)
    ensures MarksOffered(Apply(t, op), m)
  {
    var u := Apply(t, op);
    assert u.clientModels == t.clientModels;
    if m in u.models {
      forall d | d in u.models[m].quotaExceeded.Keys + u.models[m].suspended.Keys ensures ListedBy(u, d, m) > 0 {
        if d !in t.models[m].quotaExceeded.Keys + t.models[m].suspended.Keys {
          assert op.SetQuota? || op.Suspend?;
          assert op.model == m && op.client == d;
        }
      }
    }
  }

  /** If marks are only placed on offered pairs, every mark ever present belongs to a client offering the model. */
  lemma {:induction false} ReachableMarksAreOffered(ops: seq<Op>, m: string)
    requires forall i | 0 <= i < |ops| :: Disciplined(Run(ops[..i]), ops[i])
    ensures MarksOffered(Run(ops), m)
  {
    if ops != [] {
      var before := ops[..|ops| - 1];
      forall i | 0 <= i < |before| ensures Disciplined(Run(before[..i]), before[i]) { assert before[..i] == ops[..i]; }
      ReachableMarksAreOffered(before, m);
      ReachableIsConsistent(before);
      StepKeepsMarksOffered(Run(before), ops[|ops| - 1], m);
    }
  }

  /** Under that discipline re-registering a client is always the same as unregistering and registering it. */
  lemma ReachableReRegister(ops: seq<Op>, c: string, p: string, list: seq<Option<ModelInfo>>)
    requires forall i | 0 <= i < |ops| :: Disciplined(Run(ops[..i]), ops[i])
    ensures Run(ops + [Register(c, p, list)]) == Run(ops + [Unregister(c)] + [Register(c, p, list)])
  {
    var t := Run(ops);
    ReachableIsConsistent(ops);
    RunOneMore(ops, Register(c, p, list));
    RunOneMore(ops, Unregister(c));
    RunOneMore(ops + [Unregister(c)], Register(c, p, list));
    if c in t.clientModels {
      forall m ensures MarksRebindIn(t, c, p, list, m) {
        ReachableMarksAreOffered(ops, m);
        assert Balanced(t, m);
        OfferedMarksRebind(t, c, p, list, m);
      }
      ReRegisterIsLeaveAndJoin(t, c, p, list);
    } else {
      UnregisteringAStranger(t, c);
    }
  }

  lemma UnregisteringAStranger(t: Tables, c: string)
    requires Consistent(t) && c !in t.clientModels
    ensures AfterUnregister(t, c) == t
  {
    forall m ensures SlotOf(AfterUnregister(t, c).models, m) == SlotOf(t.models, m) {
      assert Balanced(t, m);
      SlotsAfterRegister(t, c, NO_PROVIDER, [], m);
    }
    SlotsDetermineModels(AfterUnregister(t, c).models, t.models);
  }

  // ---------------------------------------------------------------- the two exceptions really occur

  function OneModel(m: string): seq<Option<ModelInfo>> { [Some(ModelInfo(m, ""))] }

  lemma OneModelLists(m: string)
    requires m != ""
    ensures Ids(OneModel(m)) == [m] && FirstInfos(OneModel(m)) == map[m := ModelInfo(m, "")]
  {
    assert OneModel(m)[..0] == [];
  }

  /** A first and a second client of one provider offering the same model. */
  lemma TwoClients(a: string, b: string, p: string, m: string)
    requires a != b && p != NO_PROVIDER && m != ""
    ensures var t := AfterRegister(AfterRegister(EMPTY, a, p, OneModel(m)), b, p, OneModel(m));
            var info := ModelInfo(m, "");
            && t.models == map[m := Registration(info, map[p := info], 2, map[], map[p := 2], map[])]
            && t.clientModels == map[a := [m], b := [m]]
            && t.clientProviders == map[a := p, b := p]
  {
    OneModelLists(m);
    var info := ModelInfo(m, "");
    var t1 := AfterRegister(EMPTY, a, p, OneModel(m));
    forall x ensures SlotOf(t1.models, x) == if x == m then Offer(None, p, info, 1) else None {
      SlotsOfFresh(EMPTY, a, p, m, x);
    }
    SlotsDetermineModels(t1.models, map[m := Offer(None, p, info, 1).value]);
    var t2 := AfterRegister(t1, b, p, OneModel(m));
    forall x ensures SlotOf(t2.models, x) == if x == m then Offer(Offer(None, p, info, 1), p, info, 1) else None {
      SlotsOfFresh(t1, b, p, m, x);
    }
    OfferAgain(None, p, info, 1);
    SlotsDetermineModels(t2.models, map[m := Offer(None, p, info, 2).value]);
  }

  lemma SlotsOfFresh(t: Tables, c: string, p: string, m: string, x: string)
    requires c !in t.clientModels && m != ""
    ensures SlotOf(AfterRegister(t, c, p, OneModel(m)).models, x)
            == if x == m then Offer(SlotOf(t.models, x), p, ModelInfo(m, ""), 1) else SlotOf(t.models, x)
  {
    OneModelLists(m);
  }

  /** A run after which the recount calls a model available that the index calls unavailable. */
  lemma NamelessClientCanDecide()
    ensures var t := Run([Register("", "p", OneModel("m")), Register("b", "p", OneModel("m"))]
                         + [SetQuota("", "m", 0)] + [Suspend("b", "m", "manual")]);
            RecountAvailable(t, "m", "p", 1) && !IndexAvailable(t, "m", "p", 1)
  {
    var first, second := Register("", "p", OneModel("m")), Register("b", "p", OneModel("m"));
    var ops := [first, second];
    RunOneMore([], first);
    RunOneMore([first], second);
    assert [] + [first] == [first] && [first] + [second] == ops;
    TwoClients("", "b", "p", "m");
    RunOneMore(ops, SetQuota("", "m", 0));
    RunOneMore(ops + [SetQuota("", "m", 0)], Suspend("b", "m", "manual"));
    ReachableIsConsistent(ops + [SetQuota("", "m", 0)] + [Suspend("b", "m", "manual")]);
    NamelessClientDecidesHere(Run(ops + [SetQuota("", "m", 0)] + [Suspend("b", "m", "manual")]));
  }

  lemma NamelessClientDecidesHere(t: Tables)
    requires Consistent(t) && SuspensionsNamed(t) && "m" in t.models
    requires t.clientProviders == map["" := "p", "b" := "p"]
    requires var r := t.models["m"];
             r.providers == map["p" := 2] && r.quotaExceeded == map["" := 0] && r.suspended == map["b" := "manual"]
    ensures RecountAvailable(t, "m", "p", 1) && !IndexAvailable(t, "m", "p", 1)
  {
    var r := t.models["m"];
    TheMarksThatCount(t, r);
    assert |Exhausted(t, r, "p", 1)| == 1 && |Suspended(t, r, "p")| == 1;
    BalancedTally(t, "m", "p");
    RecountAgreesWithIndex(t, "m", "p", 1);
  }

  lemma TheMarksThatCount(t: Tables, r: Registration)
    requires t.clientProviders == map["" := "p", "b" := "p"]
    requires r.quotaExceeded == map["" := 0] && r.suspended == map["b" := "manual"]
    ensures Exhausted(t, r, "p", 1) == {""} && Suspended(t, r, "p") == {"b"} && CoolingDown(t, r, "p") == {}
  {
    assert !Text.EqualFold("manual", QUOTA_REASON) by {
      assert Text.ToLower("manual")[0] != Text.ToLower(QUOTA_REASON)[0];
    }
  }

  lemma BalancedTally(t: Tables, m: string, p: string)
    requires Consistent(t)
    ensures Tally(SlotOf(t.models, m), p) == ProviderTotal(t, m, p)
  {
    assert Balanced(t, m);
  }

  /** A run after which reconciling keeps a stranger's mark that leaving and joining would drop. */
  lemma StrangersMarkCanSurvive()
    ensures var ops := [Register("a", "p", OneModel("m"))] + [SetQuota("stranger", "m", 0)];
            Run(ops + [Register("a", "p", OneModel("m"))])
            != Run(ops + [Unregister("a")] + [Register("a", "p", OneModel("m"))])
  {
    var join := Register("a", "p", OneModel("m"));
    var ops := [join] + [SetQuota("stranger", "m", 0)];
    assert [] + [join] == [join];
    RunOneMore([], join);
    RunOneMore([join], SetQuota("stranger", "m", 0));
    RunOneMore(ops, join);
    RunOneMore(ops, Unregister("a"));
    RunOneMore(ops + [Unregister("a")], join);
    ReachableIsConsistent(ops);
    JoinedAndMarked(Run([join]), Run(ops));
    StrangersMarkDecides(Run(ops));
  }

  lemma JoinedAndMarked(joined: Tables, t: Tables)
    requires joined == AfterRegister(EMPTY, "a", "p", OneModel("m")) && t == Apply(joined, SetQuota("stranger", "m", 0))
    ensures "m" in t.models && t.models["m"].count == 1 && "stranger" in t.models["m"].quotaExceeded
    ensures "a" in t.clientModels && ListedBy(t, "a", "m") == 1
  {
    OneModelLists("m");
    SlotsOfFresh(EMPTY, "a", "p", "m", "m");
  }

  lemma StrangersMarkDecides(t: Tables)
    requires Consistent(t) && "m" in t.models && t.models["m"].count == 1 && "stranger" in t.models["m"].quotaExceeded
    requires "a" in t.clientModels && ListedBy(t, "a", "m") == 1
    ensures AfterRegister(t, "a", "p", OneModel("m")) != AfterRegister(AfterUnregister(t, "a"), "a", "p", OneModel("m"))
  {
    OneModelLists("m");
    assert !MarksRebindIn(t, "a", "p", OneModel("m"), "m");
    ReRegisterIsLeaveAndJoin(t, "a", "p", OneModel("m"));
  }
}
