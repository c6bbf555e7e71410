/**
  Which (model, provider) pairs the registry lists at a given moment, and how long a listing stays right.
  Time is an integer number of nanoseconds.
 */
module Listings {
  import opened Prelude
  import opened Registrations
  import opened RegistryTables
  import Text

  const QUOTA_WINDOW: int := 300_000_000_000

  const QUOTA_REASON := "quota"

  /** The clients of provider p whose quota mark on the registration has not yet recovered. */
  function Exhausted(t: Tables, r: Registration, p: string, now: int): set<string> {
    set c | c in r.quotaExceeded && ProviderOf(t, c) == p && now < r.quotaExceeded[c] + QUOTA_WINDOW
  }

  /** The clients of provider p suspended for quota reasons (cooling down), and for any other reason. */
  function CoolingDown(t: Tables, r: Registration, p: string): set<string> {
    set c | c in r.suspended && ProviderOf(t, c) == p && Text.EqualFold(r.suspended[c], QUOTA_REASON)
  }

  function Suspended(t: Tables, r: Registration, p: string): set<string> {
    set c | c in r.suspended && ProviderOf(t, c) == p && !Text.EqualFold(r.suspended[c], QUOTA_REASON)
  }

  /** The availability rule, from the four numbers it depends on. */
  predicate Servable(available: int, exhausted: int, cooling: int, suspended: int) {
    || available - exhausted - suspended > 0
    || (available > 0 && (exhausted > 0 || cooling > 0) && suspended == 0)
  }

  predicate Available(t: Tables, r: Registration, p: string, now: int) {
    && p != NO_PROVIDER && p in r.providers && r.providers[p] > 0
    && Servable(r.providers[p], |Exhausted(t, r, p, now)|, |CoolingDown(t, r, p)|, |Suspended(t, r, p)|)
  }

  datatype Row = Row(model: string, provider: string, info: ModelInfo)

  function RowOf(r: Registration, m: string, p: string): Row {
    Row(m, p, if p in r.infoByProvider then r.infoByProvider[p] else r.info)
  }

  predicate Listed(t: Tables, now: int, row: Row) {
    && row.model in t.models
    && row.provider in t.models[row.model].providers
    && Available(t, t.models[row.model], row.provider, now)
    && row == RowOf(t.models[row.model], row.model, row.provider)
  }

  /** The listing as a set of rows, since the order of the source's map iteration is arbitrary. */
  ghost function Listing(t: Tables, now: int): (rows: set<Row>)
    ensures forall row :: row in rows <==> Listed(t, now, row)
  {
    var rows := set m, p | m in t.models && p in t.models[m].providers && Available(t, t.models[m], p, now)
      :: RowOf(t.models[m], m, p);
    forall row | Listed(t, now, row) ensures row in rows {
      assert RowOf(t.models[row.model], row.model, row.provider) in rows;
    }
    rows
  }

  // ---------------------------------------------------------------- the expiry of a listing

  /** The moments at which the marks that now count against provider p on model m recover. */
  function Recoveries(t: Tables, m: string, p: string, now: int): set<int> {
    if m in t.models && p != NO_PROVIDER && p in t.models[m].providers && t.models[m].providers[p] > 0 then
      set c | c in Exhausted(t, t.models[m], p, now) :: t.models[m].quotaExceeded[c] + QUOTA_WINDOW
    else {}
  }

  ghost function ModelRecoveries(t: Tables, m: string, now: int): set<int> {
    if m in t.models then set p, at | p in t.models[m].providers && at in Recoveries(t, m, p, now) :: at else {}
  }

  ghost function AllRecoveries(t: Tables, now: int): set<int> {
    set m, at | m in t.models && at in ModelRecoveries(t, m, now) :: at
  }

  /** least is the least element of s, or None when s is empty. */
  ghost predicate IsLeast(least: Option<int>, s: set<int>) {
    && (forall at | at in s :: least.Some? && least.value <= at)
    && (least.Some? ==> least.value in s)
  }

  function Earlier(a: Option<int>, b: Option<int>): Option<int> {
    if b.Some? && (a.None? || b.value < a.value) then b else a
  }

  lemma EarlierIsLeast(a: Option<int>, b: Option<int>, s: set<int>, u: set<int>)
    requires IsLeast(a, s) && IsLeast(b, u)
    ensures IsLeast(Earlier(a, b), s + u)
  {}

  /** The earliest recovery among all marks that count now; None if no mark counts. */
  ghost predicate IsExpiry(t: Tables, now: int, expiry: Option<int>) { IsLeast(expiry, AllRecoveries(t, now)) }

  predicate Unexpired(expiry: Option<int>, now: int) { expiry.None? || now < expiry.value }

  /** As long as no counted mark recovers, the listing stays the same set of rows. */
  lemma NoRecoverySameListing(t: Tables, now: int, later: int)
    requires now <= later && forall at | at in AllRecoveries(t, now) :: later < at
    ensures Listing(t, later) == Listing(t, now)
  {
    forall row ensures Listed(t, later, row) <==> Listed(t, now, row) {
      var m, p := row.model, row.provider;
      if m in t.models && p != NO_PROVIDER && p in t.models[m].providers && t.models[m].providers[p] > 0 {
        NoRecoveryNoChange(t, now, later, m, p);
      }
    }
  }

  /** Until the expiry nothing the availability rule reads can change. */
  lemma ListingStable(t: Tables, now: int, expiry: Option<int>, later: int)
    requires IsExpiry(t, now, expiry) && now <= later && Unexpired(expiry, later)
    ensures Listing(t, later) == Listing(t, now)
  {
    NoRecoverySameListing(t, now, later);
  }

  /**
    Between two moments the clients over quota stay the same, for every model and provider with units, exactly if no
    mark that counts at the first one recovers up to the second.
   */
  lemma ExhaustedSameIffNoRecovery(t: Tables, now: int, later: int)
    requires now <= later
    ensures (forall m, p |
               m in t.models && p != NO_PROVIDER && p in t.models[m].providers && t.models[m].providers[p] > 0 ::
               Exhausted(t, t.models[m], p, later) == Exhausted(t, t.models[m], p, now))
            <==> forall at | at in AllRecoveries(t, now) :: later < at
  {
    if forall at | at in AllRecoveries(t, now) :: later < at {
      forall m, p | m in t.models && p != NO_PROVIDER && p in t.models[m].providers && t.models[m].providers[p] > 0
        ensures Exhausted(t, t.models[m], p, later) == Exhausted(t, t.models[m], p, now)
      {
        NoRecoveryNoChange(t, now, later, m, p);
      }
    } else {
      var at :| at in AllRecoveries(t, now) && at <= later;
      var m :| m in t.models && at in ModelRecoveries(t, m, now);
      var p :| p in t.models[m].providers && at in Recoveries(t, m, p, now);
      var c :| c in Exhausted(t, t.models[m], p, now) && t.models[m].quotaExceeded[c] + QUOTA_WINDOW == at;
      assert c !in Exhausted(t, t.models[m], p, later);
    }
  }

  lemma NoRecoveryNoChange(t: Tables, now: int, later: int, m: string, p: string)
    requires now <= later && forall at | at in AllRecoveries(t, now) :: later < at
    requires m in t.models && p != NO_PROVIDER && p in t.models[m].providers && t.models[m].providers[p] > 0
    ensures Exhausted(t, t.models[m], p, later) == Exhausted(t, t.models[m], p, now)
  {
    var r := t.models[m];
    forall c | c in Exhausted(t, r, p, now) ensures c in Exhausted(t, r, p, later) {
      var at := r.quotaExceeded[c] + QUOTA_WINDOW;
      assert at in Recoveries(t, m, p, now);
      assert at in ModelRecoveries(t, m, now);
      assert at in AllRecoveries(t, now);
    }
  }

  /** The expiry is tight: at that very moment a quota window that counted has closed. */
  lemma ExpiryIsTight(t: Tables, now: int, expiry: int)
    requires IsExpiry(t, now, Some(expiry))
    ensures now < expiry
    ensures exists m, p :: m in t.models && p in t.models[m].providers
                           && Exhausted(t, t.models[m], p, expiry) < Exhausted(t, t.models[m], p, now)
  {
    var m :| m in t.models && expiry in ModelRecoveries(t, m, now);
    var p :| p in t.models[m].providers && expiry in Recoveries(t, m, p, now);
    var c :| c in Exhausted(t, t.models[m], p, now) && t.models[m].quotaExceeded[c] + QUOTA_WINDOW == expiry;
    assert c !in Exhausted(t, t.models[m], p, expiry);
    assert Exhausted(t, t.models[m], p, expiry) < Exhausted(t, t.models[m], p, now);
  }

  // ---------------------------------------------------------------- cleaning up old quota marks

  function UnexpiredMarks(marks: map<string, int>, now: int): map<string, int> {
    map c | c in marks && now - marks[c] < QUOTA_WINDOW :: marks[c]
  }

  function CleanedRegistration(r: Registration, now: int): Registration {
    r.(quotaExceeded := UnexpiredMarks(r.quotaExceeded, now))
  }

  function Cleaned(t: Tables, now: int): Tables {
    t.(models := map m | m in t.models :: CleanedRegistration(t.models[m], now))
  }

  /** Cleaning up never shows: every listing from then on is the one there would have been. */
  lemma CleanupIsInvisible(t: Tables, now: int, later: int)
    requires now <= later
    ensures Listing(Cleaned(t, now), later) == Listing(t, later)
  {
    var u := Cleaned(t, now);
    forall row ensures Listed(u, later, row) <==> Listed(t, later, row) {
      var m, p := row.model, row.provider;
      if m in t.models {
        assert Exhausted(u, u.models[m], p, later) == Exhausted(t, t.models[m], p, later);
        assert CoolingDown(u, u.models[m], p) == CoolingDown(t, t.models[m], p);
        assert Suspended(u, u.models[m], p) == Suspended(t, t.models[m], p);
      }
    }
  }
}
