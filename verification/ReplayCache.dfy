/**
  The in-memory cache of reasoning items for stateless replay: bounded, with a sliding lifetime, evicting the oldest
  entries in batches. Times are integer nanoseconds.
 */
module ReplayCaches {
  import opened Prelude
  import Text

  const TTL: int := 3_600_000_000_000

  const MAX_ENTRIES: nat := 10240

  const EVICT_BATCH: nat := 128

  const KEY_PREFIX := "codex-reasoning-replay"

  lemma Limits()
    ensures TTL == 60 * 60 * 1_000_000_000 && MAX_ENTRIES == 10240 && EVICT_BATCH == 128
  {}

  datatype Entry = Entry(items: seq<Bytes>, timestamp: int)

  datatype Candidate = Candidate(key: string, timestamp: int)

  // ---------------------------------------------------------------- keys

  function Separated(model: string, session: string): string { KEY_PREFIX + "\0" + model + "\0" + session }

  /** The cache key of a model and session, or the empty text if either is blank. */
  function Key(modelName: string, sessionKey: string): string {
    var model, session := Text.Trim(modelName), Text.Trim(sessionKey);
    if model == "" || session == "" then "" else Separated(model, session)
  }

  /** The model and the session as the key joins them. */
  function Joined(model: string, session: string): string { model + ['\0'] + session }

  lemma SameSeparated(m1: string, s1: string, m2: string, s2: string)
    ensures Separated(m1, s1) == Separated(m2, s2) <==> Joined(m1, s1) == Joined(m2, s2)
  {
    assert Separated(m1, s1) == KEY_PREFIX + ['\0'] + Joined(m1, s1);
    assert Separated(m2, s2) == KEY_PREFIX + ['\0'] + Joined(m2, s2);
    assert Separated(m1, s1)[|KEY_PREFIX| + 1..] == Joined(m1, s1);
    assert Separated(m2, s2)[|KEY_PREFIX| + 1..] == Joined(m2, s2);
  }

  /** Different models or sessions never share a key, as long as model names hold no NUL. */
  lemma KeysDiffer(m1: string, s1: string, m2: string, s2: string)
    requires '\0' !in Text.Trim(m1) && '\0' !in Text.Trim(m2) && Key(m1, s1) == Key(m2, s2) != ""
    ensures Text.Trim(m1) == Text.Trim(m2) && Text.Trim(s1) == Text.Trim(s2)
  {
    SameSeparated(Text.Trim(m1), Text.Trim(s1), Text.Trim(m2), Text.Trim(s2));
    Text.CutAtFirst(Text.Trim(m1), '\0', Text.Trim(s1));
    Text.CutAtFirst(Text.Trim(m2), '\0', Text.Trim(s2));
  }

  /** At position p stands a NUL with something that is not white space on either side. */
  predicate SplitsAt(t: string, p: nat) {
    0 < p < |t| - 1 && t[p] == '\0' && !Text.IsSpace(t[p - 1]) && !Text.IsSpace(t[p + 1])
  }

  /** Some other model and session have the same key. */
  ghost predicate Collides(modelName: string, sessionKey: string) {
    exists m, s :: Key(m, s) == Key(modelName, sessionKey)
                   && (Text.Trim(m) != Text.Trim(modelName) || Text.Trim(s) != Text.Trim(sessionKey))
  }

  /** A key is shared exactly if the joined text can be split at a NUL other than the one that joins it. */
  lemma CollidesIffSplitsElsewhere(modelName: string, sessionKey: string)
    requires Key(modelName, sessionKey) != ""
    ensures var model, session := Text.Trim(modelName), Text.Trim(sessionKey);
            Collides(modelName, sessionKey)
            <==> exists p: nat :: p != |model| && SplitsAt(Joined(model, session), p)
  {
    var model, session := Text.Trim(modelName), Text.Trim(sessionKey);
    Text.TrimIsTrim(modelName);
    Text.TrimIsTrim(sessionKey);
    if m, s :| Key(m, s) == Key(modelName, sessionKey) && (Text.Trim(m) != model || Text.Trim(s) != session) {
      SameSeparated(Text.Trim(m), Text.Trim(s), model, session);
      Text.TrimIsTrim(m);
      Text.TrimIsTrim(s);
      OtherSplit(model, session, Text.Trim(m), Text.Trim(s));
    }
    if p: nat :| p != |model| && SplitsAt(Joined(model, session), p) {
      var m, s := PartsOf(model, session, p);
      Text.TrimIsTrim(m);
      Text.TrimIsTrim(s);
      SameSeparated(m, s, model, session);
      assert Key(m, s) == Key(modelName, sessionKey);
    }
  }

  lemma OtherSplit(model: string, session: string, m: string, s: string)
    requires Joined(m, s) == Joined(model, session) && (m != model || s != session)
    requires m != "" && s != "" && Text.IsTrim(m) && Text.IsTrim(s)
    ensures |m| != |model| && SplitsAt(Joined(model, session), |m|)
  {
    var t := Joined(m, s);
    assert t[..|m|] == m && t[|m| + 1..] == s;
    assert Joined(model, session)[..|model|] == model && Joined(model, session)[|model| + 1..] == session;
    assert t[|m| - 1] == m[|m| - 1] && t[|m| + 1] == s[0];
  }

  lemma PartsOf(model: string, session: string, p: nat) returns (m: string, s: string)
    requires model != "" && session != "" && Text.IsTrim(model) && Text.IsTrim(session)
    requires p != |model| && SplitsAt(Joined(model, session), p)
    ensures Joined(m, s) == Joined(model, session) && |m| != |model|
    ensures m != "" && s != "" && Text.IsTrim(m) && Text.IsTrim(s)
  {
    var t := Joined(model, session);
    assert t[0] == model[0] && t[|t| - 1] == session[|session| - 1];
    m, s := t[..p], t[p + 1..];
    assert t == m + ['\0'] + s;
  }

  /** Two sessions that share an entry. */
  lemma KeysCanCollide()
    ensures Key("a\0b", "c") == Key("a", "b\0c") != ""
  {
    Text.TrimIsTrim("a\0b");
    Text.TrimIsTrim("c");
    Text.TrimIsTrim("a");
    Text.TrimIsTrim("b\0c");
    SameSeparated("a\0b", "c", "a", "b\0c");
  }

  // ---------------------------------------------------------------- sorting candidates by age

  predicate SortedByAge(c: seq<Candidate>) { forall i, j | 0 <= i < j < |c| :: c[i].timestamp <= c[j].timestamp }

  ghost predicate NoRepeats(c: seq<Candidate>) { forall i, j | 0 <= i < j < |c| :: c[i].key != c[j].key }

  /** Put one candidate into its place among sorted ones. */
  function InsertByAge(c: seq<Candidate>, x: Candidate): seq<Candidate> {
    if c == [] || x.timestamp < c[0].timestamp then [x] + c else [c[0]] + InsertByAge(c[1..], x)
  }

  lemma {:induction false} InsertKeepsAll(c: seq<Candidate>, x: Candidate)
    ensures |InsertByAge(c, x)| == |c| + 1
    ensures forall y :: y in InsertByAge(c, x) <==> y in c || y == x
  {
    if c != [] && c[0].timestamp <= x.timestamp {
      InsertKeepsAll(c[1..], x);
      assert c == [c[0]] + c[1..];
    }
  }

  lemma {:induction false} InsertKeepsOrder(c: seq<Candidate>, x: Candidate)
    requires SortedByAge(c)
    ensures SortedByAge(InsertByAge(c, x))
  {
    if c != [] && c[0].timestamp <= x.timestamp {
      InsertKeepsOrder(c[1..], x);
      InsertKeepsAll(c[1..], x);
      var rest := InsertByAge(c[1..], x);
      forall j | 0 <= j < |rest| ensures c[0].timestamp <= rest[j].timestamp { assert rest[j] in rest; }
    }
  }

  lemma {:induction false} InsertKeepsApart(c: seq<Candidate>, x: Candidate)
    requires NoRepeats(c) && forall y | y in c :: y.key != x.key
    ensures NoRepeats(InsertByAge(c, x))
  {
    if c != [] && c[0].timestamp <= x.timestamp {
      forall y | y in c[1..] ensures y.key != x.key && y.key != c[0].key {}
      InsertKeepsApart(c[1..], x);
      InsertKeepsAll(c[1..], x);
      var rest := InsertByAge(c[1..], x);
      forall j | 0 <= j < |rest| ensures c[0].key != rest[j].key { assert rest[j] in rest; }
    }
  }

  method SortByAge(c: seq<Candidate>) returns (r: seq<Candidate>)
    requires NoRepeats(c)
    ensures SortedByAge(r) && NoRepeats(r) && |r| == |c|
    ensures forall y :: y in r <==> y in c
  {
    r := [];
    for i := 0 to |c|
      invariant SortedByAge(r) && NoRepeats(r) && |r| == i
      invariant forall y :: y in r <==> y in c[..i]
    {
      assert c[..i + 1] == c[..i] + [c[i]];
      InsertKeepsAll(r, c[i]);
      InsertKeepsOrder(r, c[i]);
      InsertKeepsApart(r, c[i]);
      r := InsertByAge(r, c[i]);
    }
    assert c[..|c|] == c;
  }

  // ---------------------------------------------------------------- eviction

  /** after is what is left of before when a number of its oldest entries are gone. */
  ghost predicate EvictedOldest(before: map<string, Entry>, after: map<string, Entry>, count: nat) {
    && after.Keys <= before.Keys
    && (forall k | k in after :: after[k] == before[k])
    && |before.Keys - after.Keys| == (if count < |before| then count else |before|)
    && (forall gone, kept | gone in before.Keys - after.Keys && kept in after ::
          before[gone].timestamp <= before[kept].timestamp)
  }

  lemma SizeAfterEviction(before: map<string, Entry>, after: map<string, Entry>, count: nat)
    requires EvictedOldest(before, after, count)
    ensures |after| == |before| - (if count < |before| then count else |before|)
  {
    assert before.Keys == after.Keys + (before.Keys - after.Keys);
    assert |after.Keys| == |after| && |before.Keys| == |before|;
  }

  /** An entry younger than all others outlives every eviction that does not empty the cache. */
  lemma YoungestSurvives(before: map<string, Entry>, after: map<string, Entry>, count: nat, youngest: string)
    requires EvictedOldest(before, after, count) && count < |before| && youngest in before
    requires forall k | k in before && k != youngest :: before[k].timestamp < before[youngest].timestamp
    ensures youngest in after && after[youngest] == before[youngest]
  {
    SizeAfterEviction(before, after, count);
    assert after.Keys != {} by { assert |after.Keys| == |after| > 0; }
    var kept :| kept in after;
    assert kept != youngest ==> before[kept].timestamp < before[youngest].timestamp;
  }

  // ---------------------------------------------------------------- the cache

  /** Every entry holds the items last stored under its key, stamped with the time it was last stored or returned. */
  ghost predicate Faithful(entries: map<string, Entry>, stored: map<string, seq<Bytes>>, touched: map<string, int>) {
    // The equation with true makes this one proposition, proved as a whole where it is needed.
    (forall k | k in entries ::
       && k in stored && entries[k].items == stored[k]
       && k in touched && entries[k].timestamp == touched[k]) == true
  }

  class ReplayCache {
    var entries: map<string, Entry>
    /** What normalisation makes of one item; None if the item is refused. */
    const normalize: Bytes -> Option<Bytes>
    /** For each key, the items last stored under it and when they were last stored or returned. */
    ghost var stored: map<string, seq<Bytes>>
    ghost var touched: map<string, int>

    ghost predicate Valid()
      reads this
    {
      |entries| <= MAX_ENTRIES && Faithful(entries, stored, touched)
    }

    constructor (normalize: Bytes -> Option<Bytes>)
      ensures Valid() && entries == map[] && this.normalize == normalize
    {
      this.normalize, entries, stored, touched := normalize, map[], map[], map[];
    }

    /** The accepted items, normalised, in order. */
    function Normalized(items: seq<Bytes>): seq<Bytes> {
      if items == [] then []
      else
        var front := Normalized(items[..|items| - 1]);
        match normalize(items[|items| - 1])
        case None => front
        case Some(item) => front + [item]
    }

    /** What is kept are all accepted items, normalised, in their order: number k comes from position at[k]. */
    lemma {:induction false} NormalizedInOrder(items: seq<Bytes>) returns (at: seq<nat>)
      ensures NormalizedAt(items, Normalized(items), at)
    {
      at := [];
      if items != [] {
        var n := |items| - 1;
        at := NormalizedInOrder(items[..n]);
        OneMoreItem(items[..n], items[n], Normalized(items[..n]), at);
        assert items[..n] + [items[n]] == items;
        if normalize(items[n]).Some? { at := at + [n]; }
      }
    }

    ghost predicate NormalizedAt(items: seq<Bytes>, kept: seq<Bytes>, at: seq<nat>) {
      && |at| == |kept|
      && (forall j, k | 0 <= j < k < |at| :: at[j] < at[k])
      && (forall k | 0 <= k < |at| :: at[k] < |items| && normalize(items[at[k]]) == Some(kept[k]))
      && (forall i | 0 <= i < |items| && normalize(items[i]).Some? :: i in at)
    }

    lemma OneMoreItem(items: seq<Bytes>, last: Bytes, kept: seq<Bytes>, at: seq<nat>)
      requires NormalizedAt(items, kept, at)
      ensures match normalize(last)
              case None => NormalizedAt(items + [last], kept, at)
              case Some(item) => NormalizedAt(items + [last], kept + [item], at + [|items|])
    {
      forall i: int | i in at ensures i in at + [|items|] {}
    }

    method NormalizeItems(items: seq<Bytes>) returns (normalized: seq<Bytes>)
      ensures normalized == Normalized(items)
    {
      normalized := [];
      for i := 0 to |items|
        invariant normalized == Normalized(items[..i])
      {
        assert items[..i + 1][..i] == items[..i];
        var item := normalize(items[i]);
        if item.Some? { normalized := normalized + [item.value]; }
      }
      assert items[..|items|] == items;
    }

    /** One candidate for each entry, in whatever order the map is walked. */
    method Candidates() returns (candidates: seq<Candidate>)
      ensures NoRepeats(candidates) && |candidates| == |entries|
      ensures forall c :: c in candidates <==> c.key in entries && c.timestamp == entries[c.key].timestamp
    {
      candidates := [];
      var todo := entries.Keys;
      while todo != {}
        invariant todo <= entries.Keys && NoRepeats(candidates)
        invariant |candidates| + |todo| == |entries|
        invariant forall c :: c in candidates
                              <==> c.key in entries && c.key !in todo && c.timestamp == entries[c.key].timestamp
        decreases |todo|
      {
        var key :| key in todo;
        todo := todo - {key};
        forall i | 0 <= i < |candidates| ensures candidates[i].key != key { assert candidates[i] in candidates; }
        candidates := candidates + [Candidate(key, entries[key].timestamp)];
      }
    }

    method RemoveFirst(sorted: seq<Candidate>, n: nat)
      requires n <= |sorted|
      modifies `entries
      ensures entries == old(entries) - KeysOf(sorted[..n])
    {
      assert sorted[..0] == [] && old(entries) - KeysOf([]) == old(entries);
      for i := 0 to n
        invariant entries == old(entries) - KeysOf(sorted[..i])
      {
        FrontKeys(sorted, i);
        entries := entries - {sorted[i].key};
        assert entries == old(entries) - KeysOf(sorted[..i + 1]);
      }
    }

    method EvictOldest(count: nat)
      modifies `entries
      ensures EvictedOldest(old(entries), entries, count)
    {
      var candidates := Candidates();
      var sorted := SortByAge(candidates);
      var n := if count > |sorted| then |sorted| else count;
      RemoveFirst(sorted, n);
      OldestRemoved(old(entries), sorted, n);
      KeysCount(sorted[..n]);
      forall k | k in KeysOf(sorted[..n]) ensures k in old(entries) {
        var c :| c in sorted[..n] && c.key == k;
        assert c in sorted;
      }
      assert old(entries).Keys - entries.Keys == KeysOf(sorted[..n]);
    }

    /** Put one entry in, and make room if that was one too many. */
    method StoreEntry(k: string, normalized: seq<Bytes>, now: int)
      requires |entries| <= MAX_ENTRIES
      modifies `entries
      ensures var grown := old(entries)[k := Entry(normalized, now)];
              if |grown| > MAX_ENTRIES then EvictedOldest(grown, entries, EVICT_BATCH) else entries == grown
      ensures |entries| <= MAX_ENTRIES
    {
      entries := entries[k := Entry(normalized, now)];
      ghost var grown := entries;
      assert grown.Keys == old(entries).Keys + {k};
      assert |grown.Keys| <= |old(entries).Keys| + 1;
      if |entries| > MAX_ENTRIES {
        EvictOldest(EVICT_BATCH);
        SizeAfterEviction(grown, entries, EVICT_BATCH);
      }
    }

    /** Store the items of a finished turn; false if there is no key or nothing acceptable. */
    method CacheItems(modelName: string, sessionKey: string, items: seq<Bytes>, now: int) returns (ok: bool)
      requires Valid()
      modifies this
      ensures Valid()
      ensures ok <==> Key(modelName, sessionKey) != "" && Normalized(items) != []
      ensures !ok ==> entries == old(entries) && stored == old(stored) && touched == old(touched)
      ensures ok ==>
                var k := Key(modelName, sessionKey);
                var grown := old(entries)[k := Entry(Normalized(items), now)];
                && stored == old(stored)[k := Normalized(items)] && touched == old(touched)[k := now]
                && (if |grown| > MAX_ENTRIES then EvictedOldest(grown, entries, EVICT_BATCH) else entries == grown)
    {
      var k := Key(modelName, sessionKey);
      if k == "" { return false; }
      var normalized := NormalizeItems(items);
      if normalized == [] { return false; }
      StoreEntry(k, normalized, now);
      stored, touched := stored[k := normalized], touched[k := now];
      return true;
    }

    /** A hit returns what was last stored under the key, no older than the lifetime, and starts its lifetime anew. */
    method GetItems(modelName: string, sessionKey: string, now: int) returns (r: Option<seq<Bytes>>)
      requires Valid()
      modifies this
      ensures Valid() && stored == old(stored)
      ensures var k := Key(modelName, sessionKey);
              && (r.Some? <==> k != "" && k in old(entries) && now - old(entries)[k].timestamp <= TTL)
              && (r.Some? ==>
                    && k in stored && r.value == stored[k] && now - old(touched)[k] <= TTL
                    && entries == old(entries)[k := Entry(stored[k], now)] && touched == old(touched)[k := now])
              && (r.None? ==>
                    && touched == old(touched)
                    && entries == if k != "" then old(entries) - {k} else old(entries))
    {
      var k := Key(modelName, sessionKey);
      if k == "" { return None; }
      if k !in entries {
        assert entries - {k} == entries;
        return None;
      }
      var entry := entries[k];
      if now - entry.timestamp > TTL {
        entries := entries - {k};
        assert entries.Keys == old(entries).Keys - {k};
        assert |entries.Keys| <= |old(entries).Keys|;
        return None;
      }
      entries := entries[k := entry.(timestamp := now)];
      touched := touched[k := now];
      assert entries.Keys == old(entries).Keys;
      assert |entries.Keys| == |old(entries).Keys|;
      return Some(entry.items);
    }

    method DeleteItems(modelName: string, sessionKey: string)
      requires Valid()
      modifies `entries
      ensures Valid()
      ensures var k := Key(modelName, sessionKey);
              entries == if k == "" then old(entries) else old(entries) - {k}
    {
      var k := Key(modelName, sessionKey);
      if k == "" { return; }
      entries := entries - {k};
      assert entries.Keys == old(entries).Keys - {k};
      assert |entries.Keys| <= |old(entries).Keys|;
    }

    /** Drop exactly the entries that have outlived their lifetime. */
    method PurgeExpired(now: int)
      requires Valid()
      modifies `entries
      ensures Valid()
      ensures forall k :: k in entries <==> k in old(entries) && now - old(entries)[k].timestamp <= TTL
      ensures forall k | k in entries :: entries[k] == old(entries)[k]
    {
      var todo := entries.Keys;
      while todo != {}
        invariant todo <= old(entries).Keys
        invariant forall k :: k in entries
                              <==> k in old(entries) && (k in todo || now - old(entries)[k].timestamp <= TTL)
        invariant forall k | k in entries :: entries[k] == old(entries)[k]
        decreases |todo|
      {
        var key :| key in todo;
        todo := todo - {key};
        if now - entries[key].timestamp > TTL { entries := entries - {key}; }
      }
      assert entries.Keys <= old(entries).Keys;
      SubsetNotLarger(entries.Keys, old(entries).Keys);
      assert |entries.Keys| == |entries| && |old(entries).Keys| == |old(entries)|;
    }
  }

  ghost function KeysOf(c: seq<Candidate>): set<string> { set x | x in c :: x.key }

  lemma FrontKeys(c: seq<Candidate>, i: nat)
    requires i < |c|
    ensures KeysOf(c[..i + 1]) == KeysOf(c[..i]) + {c[i].key}
  {
    assert c[..i + 1] == c[..i] + [c[i]];
  }

  /** The last of several unlike candidates brings a key of its own. */
  lemma LastKeyIsNew(c: seq<Candidate>)
    requires c != [] && NoRepeats(c)
    ensures c[|c| - 1].key !in KeysOf(c[..|c| - 1])
  {
    forall x | x in c[..|c| - 1] ensures x.key != c[|c| - 1].key {
      var j :| 0 <= j < |c| - 1 && c[j] == x;
    }
  }

  lemma {:induction false} KeysCount(c: seq<Candidate>)
    requires NoRepeats(c)
    ensures |KeysOf(c)| == |c|
  {
    if c != [] {
      KeysCount(c[..|c| - 1]);
      FrontKeys(c, |c| - 1);
      LastKeyIsNew(c);
      assert c[..|c| - 1 + 1] == c;
    }
  }

  /** Removing the front of the sorted candidates leaves only entries at least as young. */
  lemma OldestRemoved(before: map<string, Entry>, sorted: seq<Candidate>, n: nat)
    requires SortedByAge(sorted) && n <= |sorted|
    requires forall c :: c in sorted <==> c.key in before && c.timestamp == before[c.key].timestamp
    ensures forall gone, kept | gone in KeysOf(sorted[..n]) && kept in before.Keys - KeysOf(sorted[..n]) ::
              before[gone].timestamp <= before[kept].timestamp
  {
    forall gone, kept | gone in KeysOf(sorted[..n]) && kept in before.Keys - KeysOf(sorted[..n])
      ensures before[gone].timestamp <= before[kept].timestamp
    {
      var i :| 0 <= i < n && sorted[i].key == gone;
      assert sorted[i] in sorted;
      assert Candidate(kept, before[kept].timestamp) in sorted;
      var j :| 0 <= j < |sorted| && sorted[j] == Candidate(kept, before[kept].timestamp);
      assert j < n ==> sorted[j] in sorted[..n];
    }
  }
}
