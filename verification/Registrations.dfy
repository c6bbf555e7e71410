/**
  One model's registration, and what the registry does to it. Every step of the registry acts on each
  model identifier independently, so the reconciliation of a whole client is described one slot at a time.

  A slot is the registration stored under a model identifier, or None when no client offers the model.
 */
module Registrations {
  import opened Prelude

  /** The identifier is what the registry indexes by; everything else about a model is carried along. */
  datatype ModelInfo = ModelInfo(id: string, details: string)

  datatype Registration = Registration(
    info: ModelInfo,
    infoByProvider: map<string, ModelInfo>,
    count: int,
    quotaExceeded: map<string, int>,
    providers: map<string, int>,
    suspended: map<string, string>)

  type Slot = Option<Registration>

  /** An empty provider name stands for "no provider": it is never indexed. */
  const NO_PROVIDER := ""

  function Credit(providers: map<string, int>, p: string, n: nat): map<string, int> {
    if p == NO_PROVIDER || n == 0 then providers
    else providers[p := (if p in providers then providers[p] else 0) + n]
  }

  function Debit(providers: map<string, int>, p: string, n: nat): map<string, int> {
    if n == 0 || p !in providers then providers
    else if providers[p] <= n then providers - {p}
    else providers[p := providers[p] - n]
  }

  /** The provider-specific infos that survive a debit: they go together with the provider's last unit. */
  function InfosAfterDebit(infos: map<string, ModelInfo>, providers: map<string, int>, p: string, n: nat)
    : map<string, ModelInfo>
  {
    if n > 0 && p in providers && providers[p] <= n then infos - {p} else infos
  }

  function InfosAfterCredit(infos: map<string, ModelInfo>, p: string, info: ModelInfo): map<string, ModelInfo> {
    if p == NO_PROVIDER then infos else infos[p := info]
  }

  // ---------------------------------------------------------------- withdrawing and offering

  /** n withdrawals of a model by client c under provider p. */
  function Withdraw(slot: Slot, c: string, p: string, n: nat): Slot {
    if n == 0 || slot.None? then slot
    else
      var r := slot.value;
      if r.count <= n then None
      else Some(r.(count := r.count - n,
                   providers := Debit(r.providers, p, n),
                   infoByProvider := InfosAfterDebit(r.infoByProvider, r.providers, p, n),
                   quotaExceeded := r.quotaExceeded - {c},
                   suspended := r.suspended - {c}))
  }

  /** n offers of a model under provider p. */
  function Offer(slot: Slot, p: string, info: ModelInfo, n: nat): Slot {
    if n == 0 then slot
    else match slot
      case None => Some(Registration(info, InfosAfterCredit(map[], p, info), n, map[], Credit(map[], p, n), map[]))
      case Some(r) => Some(r.(info := info,
                              count := r.count + n,
                              providers := Credit(r.providers, p, n),
                              infoByProvider := InfosAfterCredit(r.infoByProvider, p, info)))
  }

  /** A registration that is present has units left, and none of them under the empty provider name. */
  predicate Removable(slot: Slot) {
    slot.Some? ==> slot.value.count > 0 && NO_PROVIDER !in slot.value.providers
  }

  lemma WithdrawAgain(slot: Slot, c: string, p: string, n: nat)
    requires Removable(slot)
    ensures Withdraw(Withdraw(slot, c, p, n), c, p, 1) == Withdraw(slot, c, p, n + 1)
  {
    if slot.Some? && slot.value.count > n + 1 {
      var r := slot.value;
      var a, b := Withdraw(Withdraw(slot, c, p, n), c, p, 1).value, Withdraw(slot, c, p, n + 1).value;
      assert a.providers == b.providers;
      assert a.infoByProvider == b.infoByProvider;
      assert a.quotaExceeded == b.quotaExceeded;
      assert a.suspended == b.suspended;
    }
  }

  lemma OfferAgain(slot: Slot, p: string, info: ModelInfo, n: nat)
    ensures Offer(Offer(slot, p, info, n), p, info, 1) == Offer(slot, p, info, n + 1)
  {
    var a, b := Offer(Offer(slot, p, info, n), p, info, 1).value, Offer(slot, p, info, n + 1).value;
    assert a.providers == b.providers;
    assert a.infoByProvider == b.infoByProvider;
  }

  // ---------------------------------------------------------------- the five phases of reconciliation

  function Min(a: nat, b: nat): nat { if a < b then a else b }

  /** What one reconciliation knows about one model: the client, both providers, both multiplicities. */
  datatype Change = Change(client: string, oldProvider: string, newProvider: string, before: nat, after: nat,
                           info: ModelInfo) {
    predicate ProviderChanged() { oldProvider != newProvider }
  }

  /** Phase 1: the overlap of both lists leaves the old provider's tally. */
  function MoveOverlapOff(slot: Slot, ch: Change): Slot {
    if slot.Some? && ch.ProviderChanged() && ch.oldProvider != NO_PROVIDER && ch.after > 0 && ch.before > 0 then
      var r := slot.value;
      var n := Min(ch.after, ch.before);
      Some(r.(providers := Debit(r.providers, ch.oldProvider, n),
              infoByProvider := InfosAfterDebit(r.infoByProvider, r.providers, ch.oldProvider, n)))
    else slot
  }

  /** Phase 2: models that are no longer listed are withdrawn as often as they were listed. */
  function DropRemoved(slot: Slot, ch: Change): Slot {
    if ch.after == 0 then Withdraw(slot, ch.client, ch.oldProvider, ch.before) else slot
  }

  /** Phase 3: models listed less often than before lose the difference. */
  function TrimOverage(slot: Slot, ch: Change): Slot {
    if ch.after > 0 && ch.before > ch.after
    then Withdraw(slot, ch.client, ch.oldProvider, ch.before - ch.after) else slot
  }

  /** Phase 4: models listed more often than before gain the difference. */
  function AddShortfall(slot: Slot, ch: Change): Slot {
    if ch.after > ch.before then Offer(slot, ch.newProvider, ch.info, ch.after - ch.before) else slot
  }

  /**
    Phase 5: listed models get fresh metadata, lose the client's marks, and the overlap is credited to the new
    provider.
   */
  function Refresh(slot: Slot, ch: Change): Slot {
    if slot.None? || ch.after == 0 then slot
    else
      var r := slot.value;
      var overlap := if ch.ProviderChanged() then Min(ch.after, ch.before) else 0;
      Some(r.(info := ch.info,
              infoByProvider := InfosAfterCredit(r.infoByProvider, ch.newProvider, ch.info),
              quotaExceeded := r.quotaExceeded - {ch.client},
              suspended := r.suspended - {ch.client},
              providers := Credit(r.providers, ch.newProvider, overlap)))
  }

  function AllPhases(slot: Slot, ch: Change): Slot {
    Refresh(AddShortfall(TrimOverage(DropRemoved(MoveOverlapOff(slot, ch), ch), ch), ch), ch)
  }

  lemma FirstPhasesStayRemovable(slot: Slot, ch: Change)
    requires Removable(slot)
    ensures Removable(MoveOverlapOff(slot, ch)) && Removable(DropRemoved(slot, ch))
  {}

  // ---------------------------------------------------------------- the closed form

  /**
    What reconciliation is meant to achieve for one model, said without phases: the old multiplicity leaves the
    old provider, the new one arrives at the new provider, and the client starts without marks.
   */
  function Rebalanced(slot: Slot, ch: Change): Slot {
    if ch.after == 0 then Withdraw(slot, ch.client, ch.oldProvider, ch.before)
    else match slot
      case None => Offer(None, ch.newProvider, ch.info, ch.after)
      case Some(r) => Some(Registration(
        ch.info,
        InfosAfterCredit(InfosAfterDebit(r.infoByProvider, r.providers, ch.oldProvider, ch.before),
                         ch.newProvider, ch.info),
        r.count - ch.before + ch.after,
        r.quotaExceeded - {ch.client},
        Credit(Debit(r.providers, ch.oldProvider, ch.before), ch.newProvider, ch.after),
        r.suspended - {ch.client}))
  }

  /** How many units of a model a slot carries, in all and under provider p. */
  function Count(slot: Slot): int { if slot.None? then 0 else slot.value.count }

  function Tally(slot: Slot, p: string): int {
    if slot.None? || p !in slot.value.providers then 0 else slot.value.providers[p]
  }

  /**
    No zero entries, no nameless provider, one provider-specific info for every provider, and identifiers that agree.
   */
  predicate WellKept(slot: Slot, m: string) {
    slot.Some? ==>
      var r := slot.value;
      && r.count > 0
      && NO_PROVIDER !in r.providers
      && (forall q | q in r.providers :: 0 < r.providers[q])
      && r.infoByProvider.Keys == r.providers.Keys
      && r.info.id == m
      && (forall q | q in r.infoByProvider :: r.infoByProvider[q].id == m)
  }

  /** The slot really carries the n units that a client of provider p is about to take back. */
  predicate Holds(slot: Slot, p: string, n: nat) {
    match slot
    case None => n == 0
    case Some(r) =>
      && r.count > 0 && r.count >= n
      && NO_PROVIDER !in r.providers
      && (forall q | q in r.providers :: 0 < r.providers[q])
      && (p != NO_PROVIDER && n > 0 ==> p in r.providers && r.providers[p] >= n)
      && (r.count == n ==> r.providers == Credit(map[], p, n))
  }

  /** Debiting in two portions is debiting their sum; likewise for crediting. */
  lemma DebitTwice(providers: map<string, int>, p: string, a: nat, b: nat)
    requires p in providers ==> 0 < providers[p]
    ensures Debit(Debit(providers, p, a), p, b) == Debit(providers, p, a + b)
  {}

  lemma CreditTwice(providers: map<string, int>, p: string, a: nat, b: nat)
    ensures Credit(Credit(providers, p, a), p, b) == Credit(providers, p, a + b)
  {}

  lemma TrimThenAddIsOneStep(providers: map<string, int>, p: string, before: nat, after: nat)
    requires NO_PROVIDER !in providers && after > 0
    requires p != NO_PROVIDER && before > 0 ==> p in providers && providers[p] >= before
    ensures Credit(Debit(providers, p, before - Min(before, after)), p, after - Min(before, after))
            == Credit(Debit(providers, p, before), p, after)
  {}

  /** Phases 1 to 3 on a model that stays listed: how much leaves the old provider's tally, and nothing else moves. */
  function Kept(r: Registration, ch: Change): Registration
  {
    var overlap := Min(ch.after, ch.before);
    var gone := if ch.ProviderChanged() then ch.before else ch.before - overlap;
    var trimmed := ch.before > ch.after;
    r.(count := r.count - (ch.before - overlap),
       providers := Debit(r.providers, ch.oldProvider, gone),
       infoByProvider := InfosAfterDebit(r.infoByProvider, r.providers, ch.oldProvider, gone),
       quotaExceeded := if trimmed then r.quotaExceeded - {ch.client} else r.quotaExceeded,
       suspended := if trimmed then r.suspended - {ch.client} else r.suspended)
  }

  lemma FirstThreePhases(slot: Slot, ch: Change)
    requires slot.Some? && ch.after > 0 && Holds(slot, ch.oldProvider, ch.before)
    ensures TrimOverage(DropRemoved(MoveOverlapOff(slot, ch), ch), ch) == Some(Kept(slot.value, ch))
  {
    var r := slot.value;
    var moved := MoveOverlapOff(slot, ch).value;
    var overlap := Min(ch.after, ch.before);
    if r.providers != map[] && ch.oldProvider in r.providers {
      DebitTwice(r.providers, ch.oldProvider, overlap, ch.before - overlap);
    }
    if ch.before <= ch.after {
      assert moved.infoByProvider == Kept(r, ch).infoByProvider;
      assert moved.providers == Kept(r, ch).providers;
    } else {
      var t := TrimOverage(DropRemoved(MoveOverlapOff(slot, ch), ch), ch).value;
      assert t.providers == Kept(r, ch).providers;
      assert t.infoByProvider == Kept(r, ch).infoByProvider;
      assert t.quotaExceeded == Kept(r, ch).quotaExceeded && t.suspended == Kept(r, ch).suspended;
    }
  }

  /** Phases 4 and 5 on a registration that is present. */
  lemma FourthAndFifthPhase(k: Registration, ch: Change)
    requires ch.after > 0
    ensures var overlap := Min(ch.after, ch.before);
            Refresh(AddShortfall(Some(k), ch), ch) == Some(Registration(
              ch.info,
              InfosAfterCredit(k.infoByProvider, ch.newProvider, ch.info),
              k.count + (ch.after - overlap),
              k.quotaExceeded - {ch.client},
              Credit(Credit(k.providers, ch.newProvider, ch.after - overlap), ch.newProvider,
                     if ch.ProviderChanged() then overlap else 0),
              k.suspended - {ch.client}))
  {
    var a := Refresh(AddShortfall(Some(k), ch), ch).value;
    assert a.infoByProvider == InfosAfterCredit(k.infoByProvider, ch.newProvider, ch.info);
  }

  lemma TalliesSettle(r: Registration, ch: Change)
    requires ch.after > 0 && Holds(Some(r), ch.oldProvider, ch.before)
    ensures var overlap := Min(ch.after, ch.before);
            Credit(Credit(Kept(r, ch).providers, ch.newProvider, ch.after - overlap), ch.newProvider,
                   if ch.ProviderChanged() then overlap else 0)
            == Credit(Debit(r.providers, ch.oldProvider, ch.before), ch.newProvider, ch.after)
  {
    var overlap := Min(ch.after, ch.before);
    if ch.ProviderChanged() {
      CreditTwice(Debit(r.providers, ch.oldProvider, ch.before), ch.newProvider, ch.after - overlap, overlap);
    } else {
      TrimThenAddIsOneStep(r.providers, ch.oldProvider, ch.before, ch.after);
    }
  }

  lemma InfosSettle(r: Registration, ch: Change)
    requires ch.after > 0 && Holds(Some(r), ch.oldProvider, ch.before)
    ensures InfosAfterCredit(Kept(r, ch).infoByProvider, ch.newProvider, ch.info)
            == InfosAfterCredit(InfosAfterDebit(r.infoByProvider, r.providers, ch.oldProvider, ch.before),
                                ch.newProvider, ch.info)
  {}

  lemma LastTwoPhases(r: Registration, ch: Change)
    requires ch.after > 0 && Holds(Some(r), ch.oldProvider, ch.before)
    ensures Refresh(AddShortfall(Some(Kept(r, ch)), ch), ch) == Rebalanced(Some(r), ch)
  {
    FourthAndFifthPhase(Kept(r, ch), ch);
    TalliesSettle(r, ch);
    InfosSettle(r, ch);
    assert Kept(r, ch).quotaExceeded - {ch.client} == r.quotaExceeded - {ch.client};
    assert Kept(r, ch).suspended - {ch.client} == r.suspended - {ch.client};
  }

  /** The five phases balance: together they do exactly what the closed form says. */
  lemma PhasesRebalance(slot: Slot, ch: Change)
    requires Holds(slot, ch.oldProvider, ch.before)
    ensures AllPhases(slot, ch) == Rebalanced(slot, ch)
  {
    if ch.after > 0 {
      match slot
      case None =>
        assert AddShortfall(None, ch) == Offer(None, ch.newProvider, ch.info, ch.after);
        var a, b := AllPhases(slot, ch).value, Rebalanced(slot, ch).value;
        assert a.infoByProvider == b.infoByProvider && a.quotaExceeded == b.quotaExceeded && a.suspended == b.suspended;
      case Some(r) =>
        FirstThreePhases(slot, ch);
        LastTwoPhases(r, ch);
    }
  }

  // ---------------------------------------------------------------- conservation, slot by slot

  /** What client c of provider q contributes to provider p's tally when it lists a model n times. */
  function Share(q: string, p: string, n: nat): nat {
    if p == q && p != NO_PROVIDER then n else 0
  }

  lemma RebalancedTallies(slot: Slot, ch: Change, m: string, p: string)
    requires WellKept(slot, m) && Holds(slot, ch.oldProvider, ch.before) && (ch.after > 0 ==> ch.info.id == m)
    ensures Count(Rebalanced(slot, ch)) == Count(slot) - ch.before + ch.after
    ensures Tally(Rebalanced(slot, ch), p)
            == Tally(slot, p) - Share(ch.oldProvider, p, ch.before) + Share(ch.newProvider, p, ch.after)
  {}

  lemma RebalancedWellKept(slot: Slot, ch: Change, m: string)
    requires WellKept(slot, m) && Holds(slot, ch.oldProvider, ch.before) && (ch.after > 0 ==> ch.info.id == m)
    ensures WellKept(Rebalanced(slot, ch), m)
  {}

  lemma OfferTallies(slot: Slot, q: string, info: ModelInfo, n: nat, p: string)
    requires WellKept(slot, info.id)
    ensures WellKept(Offer(slot, q, info, n), info.id)
    ensures Count(Offer(slot, q, info, n)) == Count(slot) + n
    ensures Tally(Offer(slot, q, info, n), p) == Tally(slot, p) + Share(q, p, n)
  {}

  // ---------------------------------------------------------------- what is new and what stays

  predicate SameMarks(r: Registration, u: Registration, d: string) {
    && (d in u.quotaExceeded <==> d in r.quotaExceeded)
    && (d in r.quotaExceeded ==> u.quotaExceeded[d] == r.quotaExceeded[d])
    && (d in u.suspended <==> d in r.suspended)
    && (d in r.suspended ==> u.suspended[d] == r.suspended[d])
  }

  predicate SameInfo(r: Registration, u: Registration, q: string) {
    && (q in u.infoByProvider <==> q in r.infoByProvider)
    && (q in r.infoByProvider ==> u.infoByProvider[q] == r.infoByProvider[q])
  }

  /** Other clients' marks and other providers' infos stay, and so does everything if nothing comes or goes. */
  lemma RebalancedLeavesTheRest(slot: Slot, ch: Change, d: string, q: string)
    requires slot.Some? && Rebalanced(slot, ch).Some? && d != ch.client
    ensures SameMarks(slot.value, Rebalanced(slot, ch).value, d)
    ensures q != ch.oldProvider && q != ch.newProvider ==> SameInfo(slot.value, Rebalanced(slot, ch).value, q)
    ensures ch.before == ch.after == 0 ==> Rebalanced(slot, ch) == slot
  {}

  lemma OfferLeavesTheRest(slot: Slot, p: string, info: ModelInfo, n: nat, d: string, q: string)
    requires slot.Some?
    ensures Offer(slot, p, info, n).Some? && SameMarks(slot.value, Offer(slot, p, info, n).value, d)
    ensures q != p ==> SameInfo(slot.value, Offer(slot, p, info, n).value, q)
    ensures n == 0 ==> Offer(slot, p, info, n) == slot
  {}

  /** The slot shows the given info, in general and for the provider, and the provider has units. */
  predicate Shows(slot: Slot, p: string, info: ModelInfo) {
    && slot.Some? && slot.value.info == info
    && (p != NO_PROVIDER ==>
          p in slot.value.providers && p in slot.value.infoByProvider && slot.value.infoByProvider[p] == info)
  }

  lemma OfferedInfoShows(slot: Slot, p: string, info: ModelInfo, n: nat)
    requires n > 0
    ensures Shows(Offer(slot, p, info, n), p, info)
  {}

  lemma RebalancedInfoShows(slot: Slot, ch: Change)
    requires ch.after > 0
    ensures Shows(Rebalanced(slot, ch), ch.newProvider, ch.info)
  {}

  // ---------------------------------------------------------------- re-registering is leaving and joining

  /** Withdrawing everything and then offering the new multiplicity afresh. */
  function LeaveAndJoin(slot: Slot, ch: Change): Slot {
    Offer(Withdraw(slot, ch.client, ch.oldProvider, ch.before), ch.newProvider, ch.info, ch.after)
  }

  /**
    The marks on a slot under which it makes no difference whether the client reconciles or leaves and joins:
    a model the client alone offers carries no other client's mark, and a model it newly offers carries none of its own.
   */
  predicate MarksRebind(slot: Slot, ch: Change) {
    slot.Some? && ch.after > 0 ==>
      var r := slot.value;
      && (ch.before == r.count ==> r.quotaExceeded.Keys <= {ch.client} && r.suspended.Keys <= {ch.client})
      && (ch.before == 0 ==> ch.client !in r.quotaExceeded && ch.client !in r.suspended)
  }

  lemma RebalancedIsLeaveAndJoin(slot: Slot, ch: Change)
    requires Holds(slot, ch.oldProvider, ch.before)
    requires slot.Some? ==> slot.value.infoByProvider.Keys == slot.value.providers.Keys
    ensures Rebalanced(slot, ch) == LeaveAndJoin(slot, ch) <==> MarksRebind(slot, ch)
  {
    if slot.Some? && ch.after > 0 {
      var r, a, b := slot.value, Rebalanced(slot, ch).value, LeaveAndJoin(slot, ch).value;
      assert a.count == b.count && a.info == b.info;
      assert a.providers == b.providers;
      assert a.infoByProvider == b.infoByProvider;
      assert a.quotaExceeded == b.quotaExceeded && a.suspended == b.suspended <==> MarksRebind(slot, ch) by {
        if ch.before == r.count {
          assert b.quotaExceeded == map[] && b.suspended == map[];
          assert a.quotaExceeded.Keys == r.quotaExceeded.Keys - {ch.client};
          assert a.suspended.Keys == r.suspended.Keys - {ch.client};
          assert a.quotaExceeded == map[] <==> a.quotaExceeded.Keys == {};
          assert a.suspended == map[] <==> a.suspended.Keys == {};
        } else if ch.before == 0 {
          assert a.quotaExceeded == r.quotaExceeded <==> ch.client !in r.quotaExceeded;
          assert a.suspended == r.suspended <==> ch.client !in r.suspended;
        }
      }
    }
  }
}
