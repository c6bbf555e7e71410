/**
  Saving the same tree a second time: exactly when that changes nothing, and how it can change something. A second save
  matches sequence elements anew, and a merged element need not be recognised as the one it was merged from.
 */
module YamlResave {
  import opened Prelude
  import opened YamlTrees
  import opened YamlMerge
  import Text

  // ---------------------------------------------------------------- the merge result can be merged into again

  lemma {:induction false} PrunedIsPaired(path: Path, n: Node)
    requires WellFormed(n)
    ensures Paired(Pruned(path, n))
    decreases n, 1
  {
    match n.kind
    case Mapping => PrunedPairsArePaired(path, n, 0);
    case Sequence => forall i | 0 <= i < |n.content| { PrunedIsPaired(path, n.content[i]); }
    case _ =>
  }

  /** The content of a mapping whose values are paired. */
  predicate PairedContent(c: seq<Node>) {
    |c| % 2 == 0 && forall i | 0 <= i < Pairs(c) :: Paired(c[2 * i + 1])
  }

  lemma PairInFront(key: Node, value: Node, c: seq<Node>)
    requires PairedContent(c) && Paired(value)
    ensures PairedContent([key, value] + c)
  {
    var all := [key, value] + c;
    assert all[1] == value;
    forall i | 1 <= i < Pairs(all) ensures Paired(all[2 * i + 1]) {
      var k := i - 1;
      assert all[2 * i + 1] == c[2 * k + 1];
      assert Paired(c[2 * k + 1]);
    }
  }

  lemma PairBehind(c: seq<Node>, key: Node, value: Node)
    requires PairedContent(c) && Paired(value)
    ensures PairedContent(c + [key, value])
  {
    var all := c + [key, value];
    forall i | 0 <= i < Pairs(all) ensures Paired(all[2 * i + 1]) {
      if i < Pairs(c) { assert all[2 * i + 1] == c[2 * i + 1]; }
    }
  }

  lemma {:induction false} PrunedPairsArePaired(path: Path, n: Node, i: nat)
    requires n.kind == Mapping && WellFormed(n) && i <= Pairs(n.content)
    ensures PairedContent(PrunedPairs(path, n, i))
    decreases n, 0, Pairs(n.content) - i
  {
    if i < Pairs(n.content) {
      var child := path + [n.content[2 * i].value];
      PrunedPairsArePaired(path, n, i + 1);
      PrunedIsPaired(child, n.content[2 * i + 1]);
      var rest := PrunedPairs(path, n, i + 1);
      if PrunedPair(path, n, i) == [] {
        assert [] + rest == rest;
      } else {
        PairInFront(n.content[2 * i], Pruned(child, n.content[2 * i + 1]), rest);
      }
    }
  }

  lemma {:induction false} KeptIsPaired(c: seq<Node>, keep: set<string>, i: nat)
    requires i <= Pairs(c) && PairedContent(c)
    ensures PairedContent(KeepPairs(c, keep, i))
    decreases Pairs(c) - i
  {
    if i < Pairs(c) {
      KeptIsPaired(c, keep, i + 1);
      KeepPairsStep(c, keep, i);
      var rest := KeepPairs(c, keep, i + 1);
      if Text.Trim(c[2 * i].value) in keep {
        PairInFront(c[2 * i], c[2 * i + 1], rest);
      } else {
        assert [] + rest == rest;
      }
    }
  }

  lemma {:induction false} MergeKeepsPaired(d: Node, s: Node, path: Path)
    requires Paired(d) && WellFormed(s)
    ensures Paired(MergeNode(d, s, path))
    decreases s, 3
  {
    WellFormedIsPaired(s);
    match s.kind
    case Mapping => PairsKeepPaired(if d.kind == Mapping then d.content else s.content, s, path, Pairs(s.content));
    case Sequence =>
      if !(d.kind == Scalar && d.tag == "!!null" && s.content == []) {
        var original := if d.kind == Sequence then d.content else [];
        var m := MergeNode(d, s, path);
        assert m.content == MergeElements(original, s, path);
        forall i | 0 <= i < |m.content| ensures Paired(m.content[i]) { ElementKeepsPaired(original, s, path, i); }
      }
    case Scalar =>
  }

  lemma ElementKeepsPaired(original: seq<Node>, s: Node, path: Path, i: nat)
    requires s.kind == Sequence && WellFormed(s) && i < |s.content|
    requires forall j | 0 <= j < |original| :: Paired(original[j])
    ensures Paired(MergeElement(original, s, path, i))
    decreases s, 2
  {
    var j, e := Matches(original, s.content, |s.content|)[i], s.content[i];
    WellFormedIsPaired(e);
    if j < |original| {
      var m := MergeNode(original[j], e, path);
      MergeKeepsPaired(original[j], e, path);
      if m.kind == Mapping && e.kind == Mapping { KeptIsPaired(m.content, KeptKeys(e.content), 0); }
    }
  }

  lemma {:induction false} PairsKeepPaired(c: seq<Node>, s: Node, path: Path, n: nat)
    requires s.kind == Mapping && WellFormed(s) && n <= Pairs(s.content) && PairedContent(c)
    ensures PairedContent(MergePairs(c, s, path, n))
    decreases s, 2, n
  {
    if n > 0 {
      PairsKeepPaired(c, s, path, n - 1);
      var merged, key, value := MergePairs(c, s, path, n - 1), s.content[2 * (n - 1)], s.content[2 * (n - 1) + 1];
      KeyKeepsPaired(merged, key, value, path);
    }
  }

  lemma KeyKeepsPaired(c: seq<Node>, key: Node, value: Node, path: Path)
    requires PairedContent(c) && WellFormed(value)
    ensures PairedContent(MergeKey(c, key, value, path))
    decreases value, 4
  {
    var child, j := path + [key.value], Find(c, key.value);
    if j < Pairs(c) {
      MergeKeepsPaired(c[2 * j + 1], value, child);
    } else if !Droppable(child, value) {
      PrunedIsPaired(child, value);
      PairBehind(c, key, Pruned(child, value));
    }
  }

  // ---------------------------------------------------------------- exactly when merging changes nothing

  /**
    Merging s into m changes nothing: scalars agree, keys of s that m lacks are droppable, and every sequence element is
    settled in its place.
   */
  ghost predicate Settled(m: Node, s: Node, path: Path)
    decreases s, 3
  {
    match s.kind
    case Mapping =>
      m.kind == Mapping && forall i | 0 <= i < Pairs(s.content) :: PairSettled(m.content, s, path, i)
    case Sequence =>
      || (m.kind == Scalar && m.tag == "!!null" && s.content == [])
      || (m.kind == Sequence && |m.content| == |s.content|
          && forall i | 0 <= i < |s.content| :: ElementSettled(m.content, s, path, i))
    case _ => m.kind == s.kind && m.tag == s.tag && m.value == s.value
  }

  ghost predicate PairSettled(c: seq<Node>, s: Node, path: Path, i: nat)
    requires i < Pairs(s.content)
    decreases s, 0
  {
    var child, value := path + [s.content[2 * i].value], s.content[2 * i + 1];
    match Lookup(c, s.content[2 * i].value)
    case Some(v) => Settled(v, value, child)
    case None => Droppable(child, value)
  }

  /**
    An element that is matched in its own place is settled if nothing in it changes. One that is matched elsewhere has
    to be what it becomes from there.
   */
  ghost predicate ElementSettled(c: seq<Node>, s: Node, path: Path, i: nat)
    requires i < |s.content| == |c|
    decreases s, 2
  {
    if Matches(c, s.content, |s.content|)[i] == i then InPlaceSettled(c[i], s.content[i], path)
    else c[i] == MergeElement(c, s, path, i)
  }

  /** A mapping has no key its source lacks; its blank keys are then pruned away again, so they do not matter. */
  ghost predicate InPlaceSettled(m: Node, e: Node, path: Path)
    decreases e, 4
  {
    if e.kind == Mapping then
      && m.kind == Mapping && OnlyWanted(m.content, KeptKeys(e.content))
      && forall i | 0 <= i < Pairs(e.content) && !IsBlank(e.content[2 * i]) :: PairSettled(m.content, e, path, i)
    else Settled(m, e, path)
  }

  // ---------------------------------------------------------------- settled means unchanged

  lemma {:induction false} SettledStays(m: Node, s: Node, path: Path)
    requires Paired(m) && WellFormed(s) && Settled(m, s, path)
    ensures MergeNode(m, s, path) == m
    decreases s, 3
  {
    match s.kind
    case Mapping => SettledPairsStay(m.content, s, path, Pairs(s.content));
    case Sequence =>
      if !(m.kind == Scalar && m.tag == "!!null" && s.content == []) {
        forall i | 0 <= i < |s.content| ensures MergeElement(m.content, s, path, i) == m.content[i] {
          SettledElementStays(m.content, s, path, i);
        }
        assert MergeElements(m.content, s, path) == m.content;
      }
    case Scalar =>
  }

  lemma {:induction false} SettledPairsStay(c: seq<Node>, s: Node, path: Path, n: nat)
    requires PairedContent(c) && WellFormed(s) && s.kind == Mapping && n <= Pairs(s.content)
    requires forall i | 0 <= i < Pairs(s.content) :: PairSettled(c, s, path, i)
    ensures MergePairs(c, s, path, n) == c
    decreases s, 1, n
  {
    if n > 0 {
      SettledPairsStay(c, s, path, n - 1);
      assert PairSettled(c, s, path, n - 1);
      SettledPairStays(c, s, path, n - 1);
    }
  }

  lemma SettledPairStays(c: seq<Node>, s: Node, path: Path, i: nat)
    requires PairedContent(c) && WellFormed(s) && s.kind == Mapping
    requires i < Pairs(s.content) && PairSettled(c, s, path, i)
    ensures MergePair(c, s, path, i) == c
    decreases s, 0
  {
    var key, value := s.content[2 * i], s.content[2 * i + 1];
    var j := Find(c, key.value);
    if j < Pairs(c) { SettledStays(c[2 * j + 1], value, path + [key.value]); }
  }

  lemma SettledElementStays(c: seq<Node>, s: Node, path: Path, i: nat)
    requires s.kind == Sequence && WellFormed(s) && i < |s.content| == |c| && ElementSettled(c, s, path, i)
    requires forall j | 0 <= j < |c| :: Paired(c[j])
    ensures MergeElement(c, s, path, i) == c[i]
    decreases s, 2
  {
    if Matches(c, s.content, |s.content|)[i] == i { InPlaceStays(c[i], s.content[i], path); }
  }

  lemma InPlaceStays(m: Node, e: Node, path: Path)
    requires Paired(m) && WellFormed(e) && InPlaceSettled(m, e, path)
    ensures PruneMissing(MergeNode(m, e, path), e) == m
    decreases e, 4
  {
    if e.kind == Mapping {
      OnlyBlankKeysCome(m.content, e, path, Pairs(e.content));
      BlankTailGoes(m.content, MergePairs(m.content, e, path, Pairs(e.content)), KeptKeys(e.content), 0);
    } else {
      SettledStays(m, e, path);
    }
  }

  /** all is c followed by pairs with blank keys. */
  predicate BlankTail(c: seq<Node>, all: seq<Node>) {
    && |c| % 2 == 0 && |all| % 2 == 0 && c <= all
    && forall i | Pairs(c) <= i < Pairs(all) :: IsBlank(all[2 * i])
  }

  lemma {:induction false} BlankPairsGo(c: seq<Node>, all: seq<Node>, keep: set<string>, i: nat)
    requires BlankTail(c, all) && "" !in keep && Pairs(c) <= i <= Pairs(all)
    ensures KeepPairs(all, keep, i) == []
    decreases Pairs(all) - i
  {
    if i < Pairs(all) {
      assert IsBlank(all[2 * i]);
      BlankPairsGo(c, all, keep, i + 1);
    }
  }

  lemma {:induction false} BlankTailGoes(c: seq<Node>, all: seq<Node>, keep: set<string>, i: nat)
    requires BlankTail(c, all) && OnlyWanted(c, keep) && "" !in keep && i <= Pairs(c)
    ensures KeepPairs(all, keep, i) == c[2 * i..]
    decreases Pairs(c) - i
  {
    if i < Pairs(c) {
      BlankTailGoes(c, all, keep, i + 1);
      KeepPairsStep(all, keep, i);
      assert all[2 * i] == c[2 * i] && all[2 * i + 1] == c[2 * i + 1] && Text.Trim(c[2 * i].value) in keep;
      PairAndRest(c, i);
    } else {
      BlankPairsGo(c, all, keep, i);
    }
  }

  lemma PairAndRest(c: seq<Node>, i: nat)
    requires i < Pairs(c)
    ensures c[2 * i..] == [c[2 * i], c[2 * i + 1]] + c[2 * (i + 1)..]
  {}

  /** Merging into a settled element appends at most blank keys. */
  lemma {:induction false} OnlyBlankKeysCome(c: seq<Node>, e: Node, path: Path, n: nat)
    requires PairedContent(c) && WellFormed(e) && e.kind == Mapping && n <= Pairs(e.content)
    requires OnlyWanted(c, KeptKeys(e.content))
    requires forall i | 0 <= i < Pairs(e.content) && !IsBlank(e.content[2 * i]) :: PairSettled(c, e, path, i)
    ensures BlankTail(c, MergePairs(c, e, path, n))
    decreases e, 3, n
  {
    if n > 0 {
      OnlyBlankKeysCome(c, e, path, n - 1);
      OnePairComes(c, MergePairs(c, e, path, n - 1), e, path, n - 1);
    }
  }

  lemma OnePairComes(c: seq<Node>, all: seq<Node>, e: Node, path: Path, i: nat)
    requires BlankTail(c, all) && PairedContent(c) && WellFormed(e) && e.kind == Mapping && i < Pairs(e.content)
    requires OnlyWanted(c, KeptKeys(e.content)) && (IsBlank(e.content[2 * i]) || PairSettled(c, e, path, i))
    ensures BlankTail(c, MergePair(all, e, path, i))
    decreases e, 2
  {
    if IsBlank(e.content[2 * i]) {
      BlankKeyComesBehind(c, all, e, path, i);
    } else {
      OtherKeyStays(c, all, e, path, i);
    }
  }

  lemma BlankKeyComesBehind(c: seq<Node>, all: seq<Node>, e: Node, path: Path, i: nat)
    requires BlankTail(c, all) && OnlyWanted(c, KeptKeys(e.content))
    requires i < Pairs(e.content) && IsBlank(e.content[2 * i])
    ensures BlankTail(c, MergePair(all, e, path, i))
  {
    var key, value := e.content[2 * i], e.content[2 * i + 1];
    var child, j := path + [key.value], Find(all, key.value);
    if j < Pairs(all) {
      BlankKeyIsBehind(c, all, KeptKeys(e.content), key.value);
      UpdateBehind(c, all, j, MergeNode(all[2 * j + 1], value, child));
    } else if !Droppable(child, value) {
      AppendBehind(c, all, key, Pruned(child, value));
    }
  }

  lemma BlankKeyIsBehind(c: seq<Node>, all: seq<Node>, keep: set<string>, key: string)
    requires BlankTail(c, all) && OnlyWanted(c, keep) && "" !in keep && Text.Trim(key) == ""
    ensures Find(all, key) >= Pairs(c)
  {
    forall k | 0 <= k < Pairs(c) ensures all[2 * k].value != key {
      assert all[2 * k] == c[2 * k] && Text.Trim(c[2 * k].value) in keep;
    }
  }

  lemma AppendBehind(c: seq<Node>, all: seq<Node>, key: Node, v: Node)
    requires BlankTail(c, all) && IsBlank(key)
    ensures BlankTail(c, AppendPair(all, key, v))
  {
    assert (all + [key, v])[..|c|] == c;
  }

  lemma UpdateBehind(c: seq<Node>, all: seq<Node>, j: nat, v: Node)
    requires BlankTail(c, all) && Pairs(c) <= j < Pairs(all)
    ensures BlankTail(c, all[2 * j + 1 := v])
  {
    assert all[2 * j + 1 := v][..|c|] == c;
  }

  lemma OtherKeyStays(c: seq<Node>, all: seq<Node>, e: Node, path: Path, i: nat)
    requires BlankTail(c, all) && PairedContent(c) && WellFormed(e) && e.kind == Mapping
    requires i < Pairs(e.content) && !IsBlank(e.content[2 * i]) && PairSettled(c, e, path, i)
    ensures MergePair(all, e, path, i) == all
    decreases e, 1
  {
    var key, value := e.content[2 * i], e.content[2 * i + 1];
    FindBeforeBlanks(c, all, key.value);
    var j := Find(c, key.value);
    if j < Pairs(c) {
      assert all[2 * j + 1] == c[2 * j + 1];
      SettledStays(c[2 * j + 1], value, path + [key.value]);
    }
  }

  lemma FindBeforeBlanks(c: seq<Node>, all: seq<Node>, key: string)
    requires BlankTail(c, all) && Text.Trim(key) != ""
    ensures Find(all, key) == if Find(c, key) < Pairs(c) then Find(c, key) else Pairs(all)
  {
    var j := if Find(c, key) < Pairs(c) then Find(c, key) else Pairs(all);
    forall k | 0 <= k < j ensures all[2 * k].value != key {
      if k < Pairs(c) { assert all[2 * k] == c[2 * k]; }
    }
    FindIs(all, key, j);
  }

  // ---------------------------------------------------------------- unchanged means settled

  lemma {:induction false} UnchangedIsSettled(m: Node, s: Node, path: Path)
    requires Paired(m) && WellFormed(s) && MergeNode(m, s, path) == m
    ensures Settled(m, s, path)
    decreases s, 3
  {
    match s.kind
    case Mapping =>
      forall i | 0 <= i < Pairs(s.content) ensures PairSettled(m.content, s, path, i) {
        FindIs(s.content, s.content[2 * i].value, i);
        MergedMappingLookup(m, s, path, s.content[2 * i].value);
        FixedFateIsSettled(m, s, path, i);
      }
    case Sequence =>
      if !(m.kind == Scalar && m.tag == "!!null" && s.content == []) {
        assert m.content == MergeElements(m.content, s, path);
        forall i | 0 <= i < |s.content| ensures ElementSettled(m.content, s, path, i) {
          assert m.content[i] == MergeElement(m.content, s, path, i);
          if Matches(m.content, s.content, |s.content|)[i] == i {
            FixedInPlaceIsSettled(m.content[i], s.content[i], path);
          }
        }
      }
    case Scalar =>
  }

  lemma FixedFateIsSettled(m: Node, s: Node, path: Path, i: nat)
    requires m.kind == Mapping && s.kind == Mapping && Paired(m) && WellFormed(s) && i < Pairs(s.content)
    requires Merged(Lookup(m.content, s.content[2 * i].value), s, path, i) == Lookup(m.content, s.content[2 * i].value)
    ensures PairSettled(m.content, s, path, i)
    decreases s, 0
  {
    var key := s.content[2 * i].value;
    LookupIsPaired(m, key);
    if Lookup(m.content, key).Some? {
      UnchangedIsSettled(Lookup(m.content, key).value, s.content[2 * i + 1], path + [key]);
    }
  }

  lemma FixedInPlaceIsSettled(m: Node, e: Node, path: Path)
    requires Paired(m) && WellFormed(e) && PruneMissing(MergeNode(m, e, path), e) == m
    ensures InPlaceSettled(m, e, path)
    decreases e, 4
  {
    if e.kind == Mapping {
      var x := MergeNode(m, e, path);
      KeptOnlyWanted(x.content, KeptKeys(e.content), 0);
      forall i | 0 <= i < Pairs(e.content) && !IsBlank(e.content[2 * i]) ensures PairSettled(m.content, e, path, i) {
        PruneMissingLookup(x, e, i);
        FindIs(e.content, e.content[2 * i].value, i);
        MergedMappingLookup(m, e, path, e.content[2 * i].value);
        FixedFateIsSettled(m, e, path, i);
      }
    } else {
      UnchangedIsSettled(m, e, path);
    }
  }

  // ---------------------------------------------------------------- main results

  /** Merging a source into a tree changes nothing if and only if the tree is settled. */
  lemma UnchangedIffSettled(m: Node, s: Node, path: Path)
    requires Paired(m) && WellFormed(s)
    ensures MergeNode(m, s, path) == m <==> Settled(m, s, path)
  {
    if Settled(m, s, path) { SettledStays(m, s, path); }
    if MergeNode(m, s, path) == m { UnchangedIsSettled(m, s, path); }
  }

  /** Saving twice is saving once if and only if the first save leaves a settled tree. */
  lemma SavingTwiceIff(d: Node, s: Node, path: Path)
    requires Paired(d) && WellFormed(s)
    ensures var once := MergeNode(d, s, path);
            MergeNode(once, s, path) == once <==> Settled(once, s, path)
  {
    MergeKeepsPaired(d, s, path);
    UnchangedIffSettled(MergeNode(d, s, path), s, path);
  }

  // ---------------------------------------------------------------- when elements are recognised in their places

  /** From number i on, target i is recognised in element i: by identity, or if by identity in none, by structure. */
  predicate KeepsPlace(c: seq<Node>, targets: seq<Node>, i: nat)
    requires i < |c| == |targets|
  {
    if exists k :: i <= k < |c| && SameIdentity(c[k], targets[i]) then SameIdentity(c[i], targets[i])
    else StructurallyEqual(c[i], targets[i])
  }

  lemma MatchedInPlaceIff(c: seq<Node>, targets: seq<Node>, used: set<nat>, i: nat)
    requires i < |c| == |targets| && forall k: nat :: k in used <==> k < i
    ensures Match(c, used, targets[i]) == i <==> KeepsPlace(c, targets, i)
  {
    if k :| i <= k < |c| && SameIdentity(c[k], targets[i]) {
      assert k !in used;
      MatchIsFirst(c, used, targets[i], k);
      if KeepsPlace(c, targets, i) { MatchIsFirst(c, used, targets[i], i); }
    } else if KeepsPlace(c, targets, i) {
      MatchIsFirst(c, used, targets[i], i);
    }
  }

  predicate InOrder(m: seq<nat>) { forall i | 0 <= i < |m| :: m[i] == i }

  lemma OneMoreInOrder(m: seq<nat>, last: nat)
    ensures InOrder(m + [last]) <==> InOrder(m) && last == |m|
  {
    if InOrder(m + [last]) {
      assert (m + [last])[|m|] == last;
      forall i | 0 <= i < |m| ensures m[i] == i { assert (m + [last])[i] == m[i]; }
    }
  }

  lemma TakenInOrder(m: seq<nat>, none: nat)
    requires |m| <= none && InOrder(m)
    ensures forall k: nat :: k in Taken(m, none) <==> k < |m|
  {
    forall k: nat | k < |m| ensures k in Taken(m, none) { assert m[k] == k; }
  }

  lemma LastPlaceIff(c: seq<Node>, targets: seq<Node>, i: nat)
    requires i < |c| == |targets|
    ensures InOrder(Matches(c, targets, i + 1)) <==> InOrder(Matches(c, targets, i)) && KeepsPlace(c, targets, i)
  {
    var front := Matches(c, targets, i);
    OneMoreInOrder(front, Match(c, Taken(front, |c|), targets[i]));
    if InOrder(front) {
      TakenInOrder(front, |c|);
      MatchedInPlaceIff(c, targets, Taken(front, |c|), i);
    }
  }

  predicate AllKeepPlace(c: seq<Node>, targets: seq<Node>, n: nat)
    requires n <= |c| == |targets|
  {
    n > 0 ==> AllKeepPlace(c, targets, n - 1) && KeepsPlace(c, targets, n - 1)
  }

  /** Every element is matched in its own place if and only if every one is recognised there. */
  lemma {:induction false} OwnPlacesIff(c: seq<Node>, targets: seq<Node>, n: nat)
    requires n <= |c| == |targets|
    ensures InOrder(Matches(c, targets, n)) <==> AllKeepPlace(c, targets, n)
  {
    if n > 0 {
      OwnPlacesIff(c, targets, n - 1);
      LastPlaceIff(c, targets, n - 1);
    }
  }

  /** At every sequence, each element is recognised in its place and has no key its source element lacks. */
  predicate PlacesKept(m: Node, s: Node)
    decreases s, 1
  {
    match s.kind
    case Mapping =>
      forall i | 0 <= i < Pairs(s.content) :: PlacesKeptUnder(Lookup(m.content, s.content[2 * i].value), s, i)
    case Sequence =>
      m.kind == Sequence && |m.content| == |s.content| ==>
        && AllKeepPlace(m.content, s.content, |s.content|)
        && forall i | 0 <= i < |s.content| ::
          && (s.content[i].kind == Mapping ==> OnlyWanted(m.content[i].content, KeptKeys(s.content[i].content)))
          && PlacesKept(m.content[i], s.content[i])
    case _ => true
  }

  predicate PlacesKeptUnder(v: Option<Node>, s: Node, i: nat)
    requires i < Pairs(s.content)
    decreases s, 0
  {
    v.Some? ==> PlacesKept(v.value, s.content[2 * i + 1])
  }

  lemma {:induction false} CoveringInPlaceIsSettled(m: Node, s: Node, path: Path)
    requires Covers(m, s, path) && PlacesKept(m, s)
    ensures Settled(m, s, path)
    decreases s, 1
  {
    match s.kind
    case Mapping =>
      forall i | 0 <= i < Pairs(s.content) ensures PairSettled(m.content, s, path, i) {
        CoveringPairIsSettled(m, s, path, i);
      }
    case Sequence =>
      if m.kind == Sequence {
        OwnPlacesIff(m.content, s.content, |s.content|);
        forall i | 0 <= i < |s.content| ensures ElementSettled(m.content, s, path, i) {
          var e := s.content[i];
          assert Covers(m.content[i], e, path) && PlacesKept(m.content[i], e);
          if e.kind == Mapping {
            forall k | 0 <= k < Pairs(e.content) ensures PairSettled(m.content[i].content, e, path, k) {
              CoveringPairIsSettled(m.content[i], e, path, k);
            }
          } else {
            CoveringInPlaceIsSettled(m.content[i], e, path);
          }
        }
      }
    case Scalar =>
  }

  lemma CoveringPairIsSettled(m: Node, s: Node, path: Path, i: nat)
    requires s.kind == Mapping && Covers(m, s, path) && PlacesKept(m, s) && i < Pairs(s.content)
    ensures PairSettled(m.content, s, path, i)
    decreases s, 0
  {
    var key := s.content[2 * i].value;
    assert CoversPair(m.content, s, path, i) && PlacesKeptUnder(Lookup(m.content, key), s, i);
    if Lookup(m.content, key).Some? {
      CoveringInPlaceIsSettled(Lookup(m.content, key).value, s.content[2 * i + 1], path + [key]);
    }
  }

  /** So saving a blank-safe tree twice is saving it once whenever every element keeps its place in the first result. */
  lemma SavingTwiceInPlace(d: Node, s: Node, path: Path)
    requires Paired(d) && WellFormed(s) && BlankSafe(s, path) && PlacesKept(MergeNode(d, s, path), s)
    ensures MergeNode(MergeNode(d, s, path), s, path) == MergeNode(d, s, path)
  {
    MergeCovers(d, s, path);
    CoveringInPlaceIsSettled(MergeNode(d, s, path), s, path);
    SavingTwiceIff(d, s, path);
  }

  // ---------------------------------------------------------------- a second save can lose comments

  lemma {:induction false} NoScalarUnder(content: seq<Node>, key: string, i: nat)
    requires i <= Pairs(content)
    requires forall k | i <= k < Pairs(content) :: Text.ToLower(Text.Trim(content[2 * k].value)) != key
    ensures ScalarUnder(content, key, i) == ""
    decreases Pairs(content) - i
  {
    if i < Pairs(content) { NoScalarUnder(content, key, i + 1); }
  }

  lemma {:induction false} NoIdentityByKey(content: seq<Node>, k: nat)
    requires k <= |IDENTITY_KEYS|
    requires forall i | 0 <= i < Pairs(content) :: |content[2 * i].value| == 1 && Text.IsTrim(content[2 * i].value)
    ensures IdentityByKey(content, k) == ""
    decreases |IDENTITY_KEYS| - k
  {
    if k < |IDENTITY_KEYS| {
      assert |IDENTITY_KEYS[k]| >= 2;
      forall i | 0 <= i < Pairs(content) ensures Text.ToLower(Text.Trim(content[2 * i].value)) != IDENTITY_KEYS[k] {
        Text.TrimIsTrim(content[2 * i].value);
        assert |Text.ToLower(Text.Trim(content[2 * i].value))| == 1;
      }
      NoScalarUnder(content, IDENTITY_KEYS[k], 0);
      NoIdentityByKey(content, k + 1);
    }
  }

  function Pair(key1: string, value1: string, key2: string, value2: string, notes: string): Node {
    Node(Mapping, "!!map", "", notes, [Str(key1), Str(value1), Str(key2), Str(value2)])
  }

  lemma PairIdentity(key1: string, value1: string, key2: string, value2: string, notes: string)
    requires |key1| == 1 && |key2| == 1 && Text.IsTrim(key1) && Text.IsTrim(key2)
    requires Text.IsTrim(value1) && Text.IsTrim(value2) && value2 != ""
    ensures Identity(Pair(key1, value1, key2, value2, notes))
            == if value1 != "" then Text.ToLower(key1) + "=" + value1 else Text.ToLower(key2) + "=" + value2
  {
    var n := Pair(key1, value1, key2, value2, notes);
    NoIdentityByKey(n.content, 0);
    Text.TrimIsTrim(key1);
    Text.TrimIsTrim(key2);
    Text.TrimIsTrim(value1);
    Text.TrimIsTrim(value2);
    assert IdentityByFirstScalar(n.content, 0)
        == if value1 != "" then Text.ToLower(key1) + "=" + value1 else IdentityByFirstScalar(n.content, 1);
  }

  function List(element: Node): Node { Node(Sequence, "!!seq", "", "", [element]) }

  // The generated element {x: 1, y: 2}, the commented one {y: "", x: 1} it is recognised in, and what they merge into.

  const GENERATED := Pair("x", "1", "y", "2", "")
  const COMMENTED := Pair("y", "", "x", "1", "comment")
  const MERGED := Pair("y", "2", "x", "1", "comment")

  lemma ListMatch(original: Node, target: Node)
    ensures Matches([original], [target], 1)
            == [if SameIdentity(original, target) || StructurallyEqual(original, target) then 0 else 1]
  {
    assert Matches([original], [target], 0) == [] && Taken([], 1) == {};
  }

  lemma ListMerge(original: Node, target: Node, path: Path)
    ensures MergeNode(List(original), List(target), path)
            == List(if SameIdentity(original, target) || StructurallyEqual(original, target)
                    then PruneMissing(MergeNode(original, target, path), target) else target)
  {
    ListMatch(original, target);
    assert MergeElements([original], List(target), path) == [MergeElement([original], List(target), path, 0)];
  }

  lemma CommentedIsRecognised()
    ensures SameIdentity(COMMENTED, GENERATED)
  {
    PairIdentity("x", "1", "y", "2", "");
    PairIdentity("y", "", "x", "1", "comment");
  }

  lemma MergedIsNotRecognised()
    ensures !SameIdentity(MERGED, GENERATED) && !StructurallyEqual(MERGED, GENERATED)
  {
    PairIdentity("x", "1", "y", "2", "");
    PairIdentity("y", "2", "x", "1", "comment");
    assert "y=2"[0] != "x=1"[0];
    Text.TrimIsTrim("x");
    Text.TrimIsTrim("y");
    assert !StructurallyEqual(MERGED.content[0], GENERATED.content[0]);
  }

  lemma PairsMerge(path: Path)
    ensures MergePairs(COMMENTED.content, GENERATED, path, 2) == MERGED.content
  {
    var c, s := COMMENTED.content, GENERATED;
    FindIs(c, "x", 1);
    assert MergePairs(c, s, path, 1) == MergePair(c, s, path, 0) == c[3 := Str("1")] == c;
    FindIs(c, "y", 0);
    assert MergePairs(c, s, path, 2) == MergePair(c, s, path, 1) == c[1 := Str("2")] == MERGED.content;
  }

  lemma NothingIsMissing()
    ensures KeepPairs(MERGED.content, KeptKeys(GENERATED.content), 0) == MERGED.content
  {
    var c, keep, wanted := MERGED.content, KeptKeys(GENERATED.content), GENERATED.content;
    Text.TrimIsTrim("x");
    Text.TrimIsTrim("y");
    assert Text.Trim(wanted[2 * 0].value) in keep && Text.Trim(wanted[2 * 1].value) in keep;
    KeepPairsStep(c, keep, 1);
    KeepPairsStep(c, keep, 0);
    assert KeepPairs(c, keep, 2) == [];
  }

  lemma ElementsMerge(path: Path)
    ensures PruneMissing(MergeNode(COMMENTED, GENERATED, path), GENERATED) == MERGED
  {
    PairsMerge(path);
    NothingIsMissing();
  }

  /** The first save keeps the element's comment; the second no longer recognises the element and loses it. */
  lemma SavingTwiceCanLoseComments(path: Path)
    ensures MergeNode(List(COMMENTED), List(GENERATED), path) == List(MERGED)
    ensures MergeNode(List(MERGED), List(GENERATED), path) == List(GENERATED) != List(MERGED)
  {
    CommentedIsRecognised();
    ElementsMerge(path);
    ListMerge(COMMENTED, GENERATED, path);
    MergedIsNotRecognised();
    ListMerge(MERGED, GENERATED, path);
    assert MERGED.notes != GENERATED.notes;
  }
}
