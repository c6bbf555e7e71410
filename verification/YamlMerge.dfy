/**
  The comment-preserving merge of a generated YAML tree into the tree of the existing file, on values, and what it
  guarantees: nothing of the source is lost, and nothing of the destination moves.
 */
module YamlMerge {
  import opened Prelude
  import opened YamlTrees
  import Text

  /** Everything but the notes is taken from src. */
  function CopyShallow(dst: Node, src: Node): Node { src.(notes := dst.notes) }

  function PruneMissing(dst: Node, src: Node): Node {
    if dst.kind == Mapping && src.kind == Mapping
    then dst.(content := KeepPairs(dst.content, KeptKeys(src.content), 0)) else dst
  }

  function MergeNode(dst: Node, src: Node, path: Path): Node
    decreases src, 4
  {
    match src.kind
    case Mapping =>
      var d := if dst.kind != Mapping then CopyShallow(dst, src) else dst;
      d.(content := MergePairs(d.content, src, path, Pairs(src.content)))
    case Sequence =>
      if dst.kind == Scalar && dst.tag == "!!null" && src.content == [] then dst
      else
        var d := if dst.kind != Sequence then dst.(kind := Sequence, tag := "!!seq", content := []) else dst;
        d.(content := MergeElements(d.content, src, path))
    case Scalar => dst.(kind := src.kind, tag := src.tag, value := src.value)
    case Alias => dst.(kind := src.kind, tag := src.tag, value := src.value)
    case NoKind => dst
    case Document => CopyShallow(dst, src)
  }

  /** The content of a mapping after the first n pairs of src have been merged into it. */
  function MergePairs(dst: seq<Node>, src: Node, path: Path, n: nat): seq<Node>
    requires n <= Pairs(src.content)
    decreases src, 3, n
  {
    if n == 0 then dst else MergePair(MergePairs(dst, src, path, n - 1), src, path, n - 1)
  }

  function MergePair(dst: seq<Node>, src: Node, path: Path, i: nat): seq<Node>
    requires i < Pairs(src.content)
    decreases src, 2
  {
    MergeKey(dst, src.content[2 * i], src.content[2 * i + 1], path)
  }

  /** One key of the source: its value is merged in place, or appended in pruned form, or left out. */
  function MergeKey(dst: seq<Node>, key: Node, value: Node, path: Path): seq<Node>
    decreases value, 5
  {
    var child := path + [key.value];
    var j := Find(dst, key.value);
    if j < Pairs(dst) then dst[2 * j + 1 := MergeNode(dst[2 * j + 1], value, child)]
    else if Droppable(child, value) then dst
    else AppendPair(dst, key, Pruned(child, value))
  }

  /** Appending after a stray last key would pair it up; a well-formed mapping has none. */
  function AppendPair(dst: seq<Node>, key: Node, value: Node): seq<Node> { dst + [key, value] }

  function MergeElements(dst: seq<Node>, src: Node, path: Path): seq<Node>
    decreases src, 2
  {
    seq(|src.content|, i requires 0 <= i < |src.content| => MergeElement(dst, src, path, i))
  }

  function MergeElement(dst: seq<Node>, src: Node, path: Path, i: nat): Node
    requires i < |src.content|
    decreases src, 1
  {
    var j := Matches(dst, src.content, |src.content|)[i];
    if j < |dst| then PruneMissing(MergeNode(dst[j], src.content[i], path), src.content[i]) else src.content[i]
  }

  /** The merge of two root nodes; anything but two mappings is replaced. */
  function MergeMapping(dst: Node, src: Node, path: Path): Node {
    if dst.kind != Mapping || src.kind != Mapping then CopyShallow(dst, src)
    else dst.(content := MergePairs(dst.content, src, path, Pairs(src.content)))
  }

  // ---------------------------------------------------------------- well-formed trees

  predicate UniqueKeys(content: seq<Node>) {
    forall i, j | 0 <= i < j < Pairs(content) :: content[2 * i].value != content[2 * j].value
  }

  /** No aliases or unknown nodes; mappings alternate unique keys with values. */
  predicate WellFormed(n: Node) {
    && (n.kind == Mapping || n.kind == Sequence || n.kind == Scalar)
    && (n.kind == Mapping ==>
          && |n.content| % 2 == 0 && UniqueKeys(n.content)
          && (forall i | 0 <= i < Pairs(n.content) :: WellFormed(n.content[2 * i + 1])))
    && (n.kind == Sequence ==> forall i | 0 <= i < |n.content| :: WellFormed(n.content[i]))
  }

  /** Every mapping in the tree has a value for each key. */
  predicate Paired(n: Node) {
    && (n.kind == Mapping ==>
          |n.content| % 2 == 0 && forall i | 0 <= i < Pairs(n.content) :: Paired(n.content[2 * i + 1]))
    && (n.kind == Sequence ==> forall i | 0 <= i < |n.content| :: Paired(n.content[i]))
  }

  predicate IsBlank(key: Node) { Text.Trim(key.value) == "" }

  /**
    Nothing of the source can be lost through a blank key: wherever a mapping is an element of a sequence, the values
    of its blank keys are droppable. Blank keys anywhere else do no harm.
   */
  predicate BlankSafe(s: Node, path: Path)
    decreases s, 1
  {
    match s.kind
    case Mapping =>
      forall i | 0 <= i < Pairs(s.content) :: BlankSafe(s.content[2 * i + 1], path + [s.content[2 * i].value])
    case Sequence => forall i | 0 <= i < |s.content| :: ElementSafe(s.content[i], path)
    case _ => true
  }

  predicate ElementSafe(e: Node, path: Path)
    decreases e, 2
  {
    if e.kind == Mapping then forall i | 0 <= i < Pairs(e.content) :: ElementPairSafe(e, path, i)
    else BlankSafe(e, path)
  }

  predicate ElementPairSafe(e: Node, path: Path, i: nat)
    requires i < Pairs(e.content)
    decreases e, 0
  {
    var child, value := path + [e.content[2 * i].value], e.content[2 * i + 1];
    if IsBlank(e.content[2 * i]) then Droppable(child, value) else BlankSafe(value, child)
  }

  // ---------------------------------------------------------------- covering

  /**
    d says everything s says: scalars agree, sequences agree element by element (an explicit null may stand for an
    empty one), and every key of s has a covering value in d or is missing because its value is droppable.
   */
  ghost predicate Covers(d: Node, s: Node, path: Path)
    decreases s, 1
  {
    match s.kind
    case Mapping =>
      d.kind == Mapping && forall i | 0 <= i < Pairs(s.content) :: CoversPair(d.content, s, path, i)
    case Sequence =>
      || (d.kind == Scalar && d.tag == "!!null" && s.content == [])
      || (d.kind == Sequence && |d.content| == |s.content|
          && forall i | 0 <= i < |s.content| :: Covers(d.content[i], s.content[i], path))
    case Scalar => d.kind == Scalar && d.tag == s.tag && d.value == s.value
    case _ => false
  }

  ghost predicate CoversPair(d: seq<Node>, s: Node, path: Path, i: nat)
    requires i < Pairs(s.content)
    decreases s, 0
  {
    var key, value := s.content[2 * i].value, s.content[2 * i + 1];
    match Lookup(d, key)
    case Some(v) => Covers(v, value, path + [key])
    case None => Droppable(path + [key], value)
  }

  // ---------------------------------------------------------------- lookups through the building blocks

  lemma LookupUpdate(c: seq<Node>, j: nat, v: Node, key: string)
    requires j < Pairs(c)
    ensures Find(c[2 * j + 1 := v], key) == Find(c, key)
    ensures Lookup(c[2 * j + 1 := v], key) == if Find(c, key) == j then Some(v) else Lookup(c, key)
  {
    FindIs(c[2 * j + 1 := v], key, Find(c, key));
  }

  lemma LookupConcat(a: seq<Node>, b: seq<Node>, key: string)
    requires |a| % 2 == 0
    ensures Lookup(a + b, key) == if Lookup(a, key).Some? then Lookup(a, key) else Lookup(b, key)
  {
    var c, n := a + b, Pairs(a);
    if Find(a, key) < n {
      FindIs(c, key, Find(a, key));
    } else {
      forall k | 0 <= k < n + Find(b, key) ensures c[2 * k].value != key {
        if k < n { assert c[2 * k] == a[2 * k]; } else { assert c[2 * k] == b[2 * (k - n)]; }
      }
      FindIs(c, key, n + Find(b, key));
    }
  }

  lemma LookupPair(key: Node, value: Node, k: string)
    ensures Lookup([key, value], k) == if key.value == k then Some(value) else None
  {
    assert Find([key, value], k) == if key.value == k then 0 else 1;
  }

  lemma LookupOwn(n: Node, i: nat)
    requires i < Pairs(n.content) && UniqueKeys(n.content)
    ensures Lookup(n.content, n.content[2 * i].value) == Some(n.content[2 * i + 1])
  {
    FindIs(n.content, n.content[2 * i].value, i);
  }

  // ---------------------------------------------------------------- pruned copies cover what they copy

  lemma {:induction false} ZeroPrunesToZero(path: Path, n: Node)
    requires IsZero(n)
    ensures IsZero(Pruned(path, n))
    decreases n, 1
  {
    match n.kind
    case Mapping => ZeroPairsVanish(path, n, 0);
    case Sequence => forall i | 0 <= i < |n.content| { ZeroPrunesToZero(path, n.content[i]); }
    case _ =>
  }

  lemma {:induction false} ZeroPairsVanish(path: Path, n: Node, i: nat)
    requires n.kind == Mapping && IsZero(n) && i <= Pairs(n.content)
    ensures PrunedPairs(path, n, i) == []
    decreases Pairs(n.content) - i
  {
    if i < Pairs(n.content) {
      assert (2 * i + 1) % 2 == 1;
      assert IsZero(n.content[2 * i + 1]);
      ZeroPairsVanish(path, n, i + 1);
    }
  }

  /** Whatever pruning leaves out is droppable by the rule for new keys. */
  lemma PrunedAwayIsDroppable(path: Path, n: Node)
    requires IsKnownDefault(path, n) || IsEmptyCollection(Pruned(path, n))
    ensures Droppable(path, n)
  {
    if IsZero(n) { ZeroPrunesToZero(path, n); }
  }

  /** The pruned pairs from number k on give each later key its pruned value, or nothing if it is left out. */
  lemma {:induction false} LookupPruned(path: Path, n: Node, k: nat, i: nat)
    requires k <= i < Pairs(n.content) && UniqueKeys(n.content)
    ensures var key, value := n.content[2 * i].value, n.content[2 * i + 1];
            Lookup(PrunedPairs(path, n, k), key)
            == if PrunedPair(path, n, i) == [] then None else Some(Pruned(path + [key], value))
    decreases Pairs(n.content) - k
  {
    var key, value := n.content[2 * i].value, n.content[2 * i + 1];
    LookupConcat(PrunedPair(path, n, k), PrunedPairs(path, n, k + 1), key);
    if PrunedPair(path, n, k) != [] {
      LookupPair(n.content[2 * k], Pruned(path + [n.content[2 * k].value], n.content[2 * k + 1]), key);
    }
    if k < i {
      assert n.content[2 * k].value != key;
      LookupPruned(path, n, k + 1, i);
    } else {
      LookupPrunedLater(path, n, k + 1, key);
    }
  }

  lemma {:induction false} LookupPrunedLater(path: Path, n: Node, k: nat, key: string)
    requires k <= Pairs(n.content) && forall j | k <= j < Pairs(n.content) :: n.content[2 * j].value != key
    ensures Lookup(PrunedPairs(path, n, k), key) == None
    decreases Pairs(n.content) - k
  {
    if k < Pairs(n.content) {
      LookupConcat(PrunedPair(path, n, k), PrunedPairs(path, n, k + 1), key);
      if PrunedPair(path, n, k) != [] {
        LookupPair(n.content[2 * k], Pruned(path + [n.content[2 * k].value], n.content[2 * k + 1]), key);
      }
      LookupPrunedLater(path, n, k + 1, key);
    }
  }

  lemma {:induction false} PrunedCovers(path: Path, s: Node)
    requires WellFormed(s)
    ensures Covers(Pruned(path, s), s, path)
    decreases s
  {
    match s.kind
    case Mapping =>
      forall i | 0 <= i < Pairs(s.content) ensures CoversPair(Pruned(path, s).content, s, path, i) {
        var child, value := path + [s.content[2 * i].value], s.content[2 * i + 1];
        LookupPruned(path, s, 0, i);
        if PrunedPair(path, s, i) == [] { PrunedAwayIsDroppable(child, value); } else { PrunedCovers(child, value); }
      }
    case Sequence => forall i | 0 <= i < |s.content| { PrunedCovers(path, s.content[i]); }
    case _ =>
  }

  lemma {:induction false} CoversItself(s: Node, path: Path)
    requires WellFormed(s)
    ensures Covers(s, s, path)
    decreases s
  {
    match s.kind
    case Mapping =>
      forall i | 0 <= i < Pairs(s.content) ensures CoversPair(s.content, s, path, i) {
        LookupOwn(s, i);
        CoversItself(s.content[2 * i + 1], path + [s.content[2 * i].value]);
      }
    case Sequence => forall i | 0 <= i < |s.content| { CoversItself(s.content[i], path); }
    case _ =>
  }

  // ---------------------------------------------------------------- the fate of every key

  /** What becomes of the source's pair i, given what the destination has under its key. */
  function Merged(had: Option<Node>, s: Node, path: Path, i: nat): Option<Node>
    requires i < Pairs(s.content)
  {
    var child, value := path + [s.content[2 * i].value], s.content[2 * i + 1];
    match had
    case Some(v) => Some(MergeNode(v, value, child))
    case None => if Droppable(child, value) then None else Some(Pruned(child, value))
  }

  lemma MergePairLookup(dst: seq<Node>, s: Node, path: Path, i: nat, key: string)
    requires i < Pairs(s.content) && |dst| % 2 == 0
    ensures |MergePair(dst, s, path, i)| % 2 == 0
    ensures Lookup(MergePair(dst, s, path, i), key)
            == if s.content[2 * i].value == key then Merged(Lookup(dst, key), s, path, i) else Lookup(dst, key)
  {
    var k, value := s.content[2 * i], s.content[2 * i + 1];
    var child := path + [k.value];
    var j := Find(dst, k.value);
    if j < Pairs(dst) {
      LookupUpdate(dst, j, MergeNode(dst[2 * j + 1], value, child), key);
    } else if !Droppable(child, value) {
      LookupConcat(dst, [k, Pruned(child, value)], key);
      LookupPair(k, Pruned(child, value), key);
    }
  }

  /** After n pairs: the keys of those pairs have met their fate, every other key is as it was. */
  lemma {:induction false} MergePairsLookup(dst: seq<Node>, s: Node, path: Path, n: nat, key: string)
    requires n <= Pairs(s.content) && |dst| % 2 == 0 && UniqueKeys(s.content)
    ensures |MergePairs(dst, s, path, n)| % 2 == 0
    ensures Lookup(MergePairs(dst, s, path, n), key)
            == if Find(s.content, key) < n then Merged(Lookup(dst, key), s, path, Find(s.content, key))
               else Lookup(dst, key)
  {
    if n > 0 {
      MergePairsLookup(dst, s, path, n - 1, key);
      MergePairLookup(MergePairs(dst, s, path, n - 1), s, path, n - 1, key);
      if s.content[2 * (n - 1)].value == key { FindIs(s.content, key, n - 1); }
    }
  }

  /** The fate of each key in a merged mapping: merged in place, appended in pruned form, dropped, or left alone. */
  lemma MergedMappingLookup(d: Node, s: Node, path: Path, key: string)
    requires d.kind == Mapping && s.kind == Mapping && |d.content| % 2 == 0 && UniqueKeys(s.content)
    ensures var i := Find(s.content, key);
            Lookup(MergeNode(d, s, path).content, key)
            == if i < Pairs(s.content) then Merged(Lookup(d.content, key), s, path, i) else Lookup(d.content, key)
  {
    MergePairsLookup(d.content, s, path, Pairs(s.content), key);
  }

  // ---------------------------------------------------------------- pruning of matched elements

  lemma {:induction false} LookupKept(c: seq<Node>, keep: set<string>, i: nat, key: string)
    requires i <= Pairs(c) && Text.Trim(key) in keep
    ensures Lookup(KeepPairs(c, keep, i), key) == Lookup(c[2 * i..], key)
    decreases Pairs(c) - i
  {
    if i < Pairs(c) {
      LookupKept(c, keep, i + 1, key);
      var pair := c[2 * i..2 * i + 2];
      assert c[2 * i..] == pair + c[2 * (i + 1)..];
      assert pair == [c[2 * i], c[2 * i + 1]];
      LookupConcat(pair, c[2 * (i + 1)..], key);
      LookupConcat(pair, KeepPairs(c, keep, i + 1), key);
      LookupPair(c[2 * i], c[2 * i + 1], key);
    }
  }

  lemma KeepPairsStep(c: seq<Node>, keep: set<string>, i: nat)
    requires i < Pairs(c)
    ensures KeepPairs(c, keep, i)
            == (if Text.Trim(c[2 * i].value) in keep then [c[2 * i], c[2 * i + 1]] else []) + KeepPairs(c, keep, i + 1)
  {
    assert c[2 * i..2 * i + 2] == [c[2 * i], c[2 * i + 1]];
  }

  predicate OnlyWanted(c: seq<Node>, keep: set<string>) {
    forall k | 0 <= k < Pairs(c) :: Text.Trim(c[2 * k].value) in keep
  }

  lemma WantedInFront(key: Node, value: Node, c: seq<Node>, keep: set<string>)
    requires Text.Trim(key.value) in keep && OnlyWanted(c, keep)
    ensures OnlyWanted([key, value] + c, keep)
  {
    var all := [key, value] + c;
    forall k | 0 <= k < Pairs(all) ensures Text.Trim(all[2 * k].value) in keep {
      if k > 0 { assert all[2 * k] == c[2 * (k - 1)]; }
    }
  }

  /** A merged element keeps no key the source element does not have. */
  lemma {:induction false} KeptOnlyWanted(c: seq<Node>, keep: set<string>, i: nat)
    requires i <= Pairs(c)
    ensures OnlyWanted(KeepPairs(c, keep, i), keep)
    decreases Pairs(c) - i
  {
    if i < Pairs(c) {
      KeptOnlyWanted(c, keep, i + 1);
      KeepPairsStep(c, keep, i);
      if Text.Trim(c[2 * i].value) in keep {
        WantedInFront(c[2 * i], c[2 * i + 1], KeepPairs(c, keep, i + 1), keep);
      } else {
        assert [] + KeepPairs(c, keep, i + 1) == KeepPairs(c, keep, i + 1);
      }
    }
  }

  /** A blank key of a matched sequence element never survives the pruning. */
  lemma {:induction false} BlankKeyNeverKept(c: seq<Node>, src: seq<Node>, i: nat, key: string)
    requires i <= Pairs(c) && Text.Trim(key) == ""
    ensures Lookup(KeepPairs(c, KeptKeys(src), i), key) == None
    decreases Pairs(c) - i
  {
    if i < Pairs(c) {
      BlankKeyNeverKept(c, src, i + 1, key);
      if Text.Trim(c[2 * i].value) in KeptKeys(src) {
        LookupConcat([c[2 * i], c[2 * i + 1]], KeepPairs(c, KeptKeys(src), i + 1), key);
        LookupPair(c[2 * i], c[2 * i + 1], key);
        assert c[2 * i..2 * i + 2] == [c[2 * i], c[2 * i + 1]];
      }
    }
  }

  /** What pruning leaves under the source's own keys: nothing under the blank ones, everything under the others. */
  lemma PruneMissingLookup(d: Node, s: Node, i: nat)
    requires d.kind == Mapping && s.kind == Mapping && i < Pairs(s.content)
    ensures var key := s.content[2 * i].value;
            Lookup(PruneMissing(d, s).content, key)
            == if IsBlank(s.content[2 * i]) then None else Lookup(d.content, key)
  {
    var key := s.content[2 * i].value;
    if IsBlank(s.content[2 * i]) {
      BlankKeyNeverKept(d.content, s.content, 0, key);
    } else {
      LookupKept(d.content, KeptKeys(s.content), 0, key);
      assert d.content[0..] == d.content;
    }
  }

  /** Removing keys the source lacks keeps it covered exactly if the values of its blank keys are droppable. */
  lemma PruneMissingCovers(d: Node, s: Node, path: Path)
    requires d.kind == Mapping && s.kind == Mapping
    requires forall i | 0 <= i < Pairs(s.content) && !IsBlank(s.content[2 * i]) :: CoversPair(d.content, s, path, i)
    ensures Covers(PruneMissing(d, s), s, path)
            <==> forall i | 0 <= i < Pairs(s.content) && IsBlank(s.content[2 * i]) ::
                   Droppable(path + [s.content[2 * i].value], s.content[2 * i + 1])
  {
    var kept := PruneMissing(d, s);
    forall i | 0 <= i < Pairs(s.content)
      ensures CoversPair(kept.content, s, path, i)
              == if IsBlank(s.content[2 * i]) then Droppable(path + [s.content[2 * i].value], s.content[2 * i + 1])
                 else CoversPair(d.content, s, path, i)
    {
      PruneMissingLookup(d, s, i);
    }
  }

  // ---------------------------------------------------------------- main result: the merge covers its source

  lemma {:induction false} WellFormedIsPaired(n: Node)
    requires WellFormed(n)
    ensures Paired(n)
    decreases n
  {
    match n.kind
    case Mapping => forall i | 0 <= i < Pairs(n.content) { WellFormedIsPaired(n.content[2 * i + 1]); }
    case Sequence => forall i | 0 <= i < |n.content| { WellFormedIsPaired(n.content[i]); }
    case _ =>
  }

  /** The merge covers every source from which no blank key can lose anything, whatever it is merged into. */
  lemma {:induction false} MergeCovers(d: Node, s: Node, path: Path)
    requires Paired(d) && WellFormed(s) && BlankSafe(s, path)
    ensures Covers(MergeNode(d, s, path), s, path)
    decreases s
  {
    match s.kind
    case Mapping => forall i | 0 <= i < Pairs(s.content) { MergedPairCovers(d, s, path, i); }
    case Sequence =>
      var m := MergeNode(d, s, path);
      if !(d.kind == Scalar && d.tag == "!!null" && s.content == []) {
        var original := if d.kind == Sequence then d.content else [];
        assert m.content == MergeElements(original, s, path);
        forall i | 0 <= i < |s.content| ensures Covers(m.content[i], s.content[i], path) {
          MatchedElementCovers(original, s, path, i);
        }
      }
    case _ =>
  }

  lemma MatchedElementCovers(original: seq<Node>, s: Node, path: Path, i: nat)
    requires s.kind == Sequence && WellFormed(s) && i < |s.content| && ElementSafe(s.content[i], path)
    requires forall j | 0 <= j < |original| :: Paired(original[j])
    ensures Covers(MergeElement(original, s, path, i), s.content[i], path)
    decreases s, 1
  {
    var j, e := Matches(original, s.content, |s.content|)[i], s.content[i];
    if j >= |original| {
      CoversItself(e, path);
    } else if e.kind == Mapping {
      forall k | 0 <= k < Pairs(e.content) && !IsBlank(e.content[2 * k])
        ensures CoversPair(MergeNode(original[j], e, path).content, e, path, k)
      {
        assert ElementPairSafe(e, path, k);
        MergedPairCovers(original[j], e, path, k);
      }
      forall k | 0 <= k < Pairs(e.content) && IsBlank(e.content[2 * k])
        ensures Droppable(path + [e.content[2 * k].value], e.content[2 * k + 1])
      {
        assert ElementPairSafe(e, path, k);
      }
      PruneMissingCovers(MergeNode(original[j], e, path), e, path);
    } else {
      MergeCovers(original[j], e, path);
    }
  }

  lemma LookupIsPaired(d: Node, key: string)
    requires d.kind == Mapping && Paired(d)
    ensures Lookup(d.content, key).Some? ==> Paired(Lookup(d.content, key).value)
  {}

  /** One key of the source; a destination of another kind is first replaced by a copy of the source. */
  lemma MergedPairCovers(d: Node, s: Node, path: Path, i: nat)
    requires s.kind == Mapping && Paired(d) && WellFormed(s) && i < Pairs(s.content)
    requires BlankSafe(s.content[2 * i + 1], path + [s.content[2 * i].value])
    ensures CoversPair(MergeNode(d, s, path).content, s, path, i)
    decreases s, 1
  {
    var key := s.content[2 * i].value;
    var had := if d.kind == Mapping then d else s;
    WellFormedIsPaired(s);
    FindIs(s.content, key, i);
    MergePairsLookup(had.content, s, path, Pairs(s.content), key);
    LookupIsPaired(had, key);
    MergedFateCovers(Lookup(had.content, key), s, path, i);
  }

  lemma MergedFateCovers(had: Option<Node>, s: Node, path: Path, i: nat)
    requires s.kind == Mapping && WellFormed(s) && i < Pairs(s.content) && (had.Some? ==> Paired(had.value))
    requires BlankSafe(s.content[2 * i + 1], path + [s.content[2 * i].value])
    ensures var child, value := path + [s.content[2 * i].value], s.content[2 * i + 1];
            match Merged(had, s, path, i)
            case Some(v) => Covers(v, value, child)
            case None => Droppable(child, value)
    decreases s, 0
  {
    var child, value := path + [s.content[2 * i].value], s.content[2 * i + 1];
    if had.Some? { MergeCovers(had.value, value, child); } else { PrunedCovers(child, value); }
  }

  // ---------------------------------------------------------------- main result: exactly which sources are covered

  lemma {:induction false} StructurallyEqualItself(n: Node)
    ensures StructurallyEqual(n, n)
    decreases n
  {
    forall i | 0 <= i < |n.content| { StructurallyEqualItself(n.content[i]); }
  }

  /** The first element not yet taken over is the match for itself. */
  lemma OwnMatch(c: seq<Node>, used: set<nat>, k: nat)
    requires k < |c| && k !in used && forall i | 0 <= i < k :: i in used
    ensures Match(c, used, c[k]) == k
  {
    StructurallyEqualItself(c[k]);
    if HasIdentityMatch(c, used, c[k]) {
      assert SameIdentity(c[k], c[k]);
    }
    MatchIsFirst(c, used, c[k], k);
  }

  /** Merged into itself, a sequence keeps every element in its place. */
  lemma {:induction false} OwnMatches(c: seq<Node>, n: nat)
    requires n <= |c|
    ensures forall i | 0 <= i < n :: Matches(c, c, n)[i] == i
  {
    if n > 0 {
      OwnMatches(c, n - 1);
      var front := Matches(c, c, n - 1);
      forall i | 0 <= i < n - 1 ensures i in Taken(front, |c|) { assert front[i] == i; }
      assert n - 1 !in Taken(front, |c|);
      OwnMatch(c, Taken(front, |c|), n - 1);
    }
  }

  /** If merging a source into itself covers it, then nothing of it can be lost through a blank key. */
  lemma {:induction false} OnlyBlankSafeCoversItself(s: Node, path: Path)
    requires WellFormed(s) && Covers(MergeNode(s, s, path), s, path)
    ensures BlankSafe(s, path)
    decreases s, 1
  {
    match s.kind
    case Mapping =>
      forall i | 0 <= i < Pairs(s.content) ensures BlankSafe(s.content[2 * i + 1], path + [s.content[2 * i].value]) {
        OwnPairSafe(s, path, i);
      }
    case Sequence =>
      OwnMatches(s.content, |s.content|);
      forall i | 0 <= i < |s.content| ensures ElementSafe(s.content[i], path) {
        assert MergeNode(s, s, path).content == MergeElements(s.content, s, path);
        assert MergeElement(s.content, s, path, i)
            == PruneMissing(MergeNode(s.content[i], s.content[i], path), s.content[i]);
        OwnElementSafe(s.content[i], path);
      }
    case _ =>
  }

  lemma OwnPairSafe(s: Node, path: Path, i: nat)
    requires s.kind == Mapping && WellFormed(s) && i < Pairs(s.content)
    requires CoversPair(MergeNode(s, s, path).content, s, path, i)
    ensures BlankSafe(s.content[2 * i + 1], path + [s.content[2 * i].value])
    decreases s, 0
  {
    var key, value := s.content[2 * i].value, s.content[2 * i + 1];
    LookupOwn(s, i);
    FindIs(s.content, key, i);
    MergedMappingLookup(s, s, path, key);
    OnlyBlankSafeCoversItself(value, path + [key]);
  }

  lemma OwnElementSafe(e: Node, path: Path)
    requires WellFormed(e) && Covers(PruneMissing(MergeNode(e, e, path), e), e, path)
    ensures ElementSafe(e, path)
    decreases e, 2
  {
    if e.kind == Mapping {
      forall i | 0 <= i < Pairs(e.content) ensures ElementPairSafe(e, path, i) {
        assert CoversPair(PruneMissing(MergeNode(e, e, path), e).content, e, path, i);
        PruneMissingLookup(MergeNode(e, e, path), e, i);
        if !IsBlank(e.content[2 * i]) { OwnPairSafe(e, path, i); }
      }
    } else {
      OnlyBlankSafeCoversItself(e, path);
    }
  }

  /**
    The merge covers a source in every destination if and only if no blank key can lose anything of it; and the source
    itself is a destination that shows the loss if there is one.
   */
  lemma MergeCoversIffBlankSafe(s: Node, path: Path)
    requires WellFormed(s)
    ensures (forall d | Paired(d) :: Covers(MergeNode(d, s, path), s, path)) <==> BlankSafe(s, path)
    ensures Covers(MergeNode(s, s, path), s, path) <==> BlankSafe(s, path)
  {
    WellFormedIsPaired(s);
    if BlankSafe(s, path) {
      forall d | Paired(d) ensures Covers(MergeNode(d, s, path), s, path) { MergeCovers(d, s, path); }
    } else {
      if Covers(MergeNode(s, s, path), s, path) { OnlyBlankSafeCoversItself(s, path); }
      assert Paired(s) && !Covers(MergeNode(s, s, path), s, path);
    }
  }

  function Str(value: string): Node { Node(Scalar, "!!str", value, "", []) }

  // The tree {match: [{id: a, "": x}]} loses a value when it is merged into a file that already holds it.

  const LOSSY_ELEMENT := Node(Mapping, "!!map", "", "", [Str("id"), Str("a"), Str(""), Str("x")])
  const LOSSY_LIST := Node(Sequence, "!!seq", "", "", [LOSSY_ELEMENT])
  const LOSSY := Node(Mapping, "!!map", "", "", [Str("match"), LOSSY_LIST])

  lemma LossyIsWellFormed()
    ensures WellFormed(LOSSY_ELEMENT) && WellFormed(LOSSY_LIST) && WellFormed(LOSSY)
  {
    assert forall i | 0 <= i < Pairs(LOSSY_ELEMENT.content) :: WellFormed(LOSSY_ELEMENT.content[2 * i + 1]);
  }

  lemma LossyIsNotBlankSafe()
    ensures !BlankSafe(LOSSY, [])
  {
    assert !ElementPairSafe(LOSSY_ELEMENT, ["match"], 1);
    assert LOSSY_LIST.content[0] == LOSSY_ELEMENT;
    assert !BlankSafe(LOSSY_LIST, ["match"]);
    var i := 0;
    assert [] + [LOSSY.content[2 * i].value] == ["match"] && LOSSY.content[2 * i + 1] == LOSSY_LIST;
  }

  lemma BlankKeyCanBeLost()
    ensures Paired(LOSSY) && WellFormed(LOSSY) && !Covers(MergeNode(LOSSY, LOSSY, []), LOSSY, [])
  {
    LossyIsWellFormed();
    WellFormedIsPaired(LOSSY);
    LossyIsNotBlankSafe();
    MergeCoversIffBlankSafe(LOSSY, []);
  }

  // ---------------------------------------------------------------- main result: the destination stays in place

  /** The keys the merge appends, in source order: absent from the destination and not droppable. */
  function NewKeys(dst: seq<Node>, s: Node, path: Path, n: nat): seq<string>
    requires n <= Pairs(s.content)
  {
    if n == 0 then []
    else NewKeys(dst, s, path, n - 1) + NewKey(Lookup(dst, s.content[2 * (n - 1)].value), s, path, n - 1)
  }

  lemma KeysUpdate(c: seq<Node>, j: nat, v: Node)
    requires j < Pairs(c)
    ensures Keys(c[2 * j + 1 := v]) == Keys(c)
  {}

  lemma KeysAppend(c: seq<Node>, key: Node, value: Node)
    requires |c| % 2 == 0
    ensures Keys(c + [key, value]) == Keys(c) + [key.value]
  {}

  /** The key pair number i adds, if any, given what its key has so far. */
  function NewKey(had: Option<Node>, s: Node, path: Path, i: nat): seq<string>
    requires i < Pairs(s.content)
  {
    var key, value := s.content[2 * i].value, s.content[2 * i + 1];
    if had.None? && !Droppable(path + [key], value) then [key] else []
  }

  lemma MergePairKeys(dst: seq<Node>, s: Node, path: Path, i: nat)
    requires i < Pairs(s.content) && |dst| % 2 == 0
    ensures Keys(MergePair(dst, s, path, i)) == Keys(dst) + NewKey(Lookup(dst, s.content[2 * i].value), s, path, i)
  {
    var key, value := s.content[2 * i], s.content[2 * i + 1];
    var child, j := path + [key.value], Find(dst, key.value);
    if j < Pairs(dst) {
      KeysUpdate(dst, j, MergeNode(dst[2 * j + 1], value, child));
    } else if !Droppable(child, value) {
      KeysAppend(dst, key, Pruned(child, value));
    }
  }

  /** Destination keys keep their order; new ones follow in the source's order. */
  lemma {:induction false} KeysInOrder(dst: seq<Node>, s: Node, path: Path, n: nat)
    requires n <= Pairs(s.content) && |dst| % 2 == 0 && UniqueKeys(s.content)
    ensures Keys(MergePairs(dst, s, path, n)) == Keys(dst) + NewKeys(dst, s, path, n)
  {
    if n > 0 {
      var key := s.content[2 * (n - 1)].value;
      KeysInOrder(dst, s, path, n - 1);
      FindIs(s.content, key, n - 1);
      MergePairsLookup(dst, s, path, n - 1, key);
      OneMoreKey(dst, MergePairs(dst, s, path, n - 1), s, path, n - 1);
    }
  }

  lemma OneMoreKey(dst: seq<Node>, merged: seq<Node>, s: Node, path: Path, i: nat)
    requires i < Pairs(s.content) && |merged| % 2 == 0
    requires Keys(merged) == Keys(dst) + NewKeys(dst, s, path, i)
    requires Lookup(merged, s.content[2 * i].value) == Lookup(dst, s.content[2 * i].value)
    ensures Keys(MergePair(merged, s, path, i)) == Keys(dst) + NewKeys(dst, s, path, i + 1)
  {
    MergePairKeys(merged, s, path, i);
    Associate(Keys(dst), NewKeys(dst, s, path, i), NewKey(Lookup(dst, s.content[2 * i].value), s, path, i));
  }

  /** What the merge leaves at the place of the destination's pair i, after the first n pairs of the source. */
  function InPlace(dst: seq<Node>, s: Node, path: Path, n: nat, i: nat): Node
    requires i < Pairs(dst) && n <= Pairs(s.content)
  {
    var key := dst[2 * i].value;
    var k := Find(s.content, key);
    if k < n && Find(dst, key) == i then MergeNode(dst[2 * i + 1], s.content[2 * k + 1], path + [key])
    else dst[2 * i + 1]
  }

  lemma MergePairPlace(dst: seq<Node>, s: Node, path: Path, k: nat, i: nat)
    requires k < Pairs(s.content) && |dst| % 2 == 0 && i < Pairs(dst)
    ensures |MergePair(dst, s, path, k)| >= |dst| && |MergePair(dst, s, path, k)| % 2 == 0
    ensures MergePair(dst, s, path, k)[2 * i] == dst[2 * i]
    ensures var key, value := s.content[2 * k].value, s.content[2 * k + 1];
            MergePair(dst, s, path, k)[2 * i + 1]
            == if Find(dst, key) == i then MergeNode(dst[2 * i + 1], value, path + [key]) else dst[2 * i + 1]
  {}

  /** Every key node of the destination, with its comments, stays where it was; only values with a source change. */
  lemma {:induction false} DestinationKeepsItsPlaces(dst: seq<Node>, s: Node, path: Path, n: nat, i: nat)
    requires n <= Pairs(s.content) && |dst| % 2 == 0 && UniqueKeys(s.content) && i < Pairs(dst)
    ensures |MergePairs(dst, s, path, n)| >= |dst|
    ensures MergePairs(dst, s, path, n)[2 * i] == dst[2 * i]
    ensures MergePairs(dst, s, path, n)[2 * i + 1] == InPlace(dst, s, path, n, i)
  {
    if n > 0 {
      var k := n - 1;
      var key := s.content[2 * k].value;
      DestinationKeepsItsPlaces(dst, s, path, k, i);
      FindIs(s.content, key, k);
      FindPreserved(dst, s, path, k, key);
      MergePairPlace(MergePairs(dst, s, path, k), s, path, k, i);
    }
  }

  lemma MergePairFind(dst: seq<Node>, s: Node, path: Path, k: nat, key: string)
    requires k < Pairs(s.content) && |dst| % 2 == 0
    ensures |MergePair(dst, s, path, k)| >= |dst| && |MergePair(dst, s, path, k)| % 2 == 0
    ensures if Find(dst, key) < Pairs(dst) then Find(MergePair(dst, s, path, k), key) == Find(dst, key)
            else Find(MergePair(dst, s, path, k), key) >= Pairs(dst)
  {
    var k', value := s.content[2 * k], s.content[2 * k + 1];
    var child, j := path + [k'.value], Find(dst, k'.value);
    if j < Pairs(dst) {
      LookupUpdate(dst, j, MergeNode(dst[2 * j + 1], value, child), key);
    } else if !Droppable(child, value) {
      FindInLonger(dst, [k', Pruned(child, value)], key);
    }
  }

  /** A key the destination has is found at the same place throughout the merge. */
  lemma {:induction false} FindPreserved(dst: seq<Node>, s: Node, path: Path, n: nat, key: string)
    requires n <= Pairs(s.content) && |dst| % 2 == 0
    ensures |MergePairs(dst, s, path, n)| >= |dst| && |MergePairs(dst, s, path, n)| % 2 == 0
    ensures if Find(dst, key) < Pairs(dst) then Find(MergePairs(dst, s, path, n), key) == Find(dst, key)
            else Find(MergePairs(dst, s, path, n), key) >= Pairs(dst)
  {
    if n > 0 {
      FindPreserved(dst, s, path, n - 1, key);
      MergePairFind(MergePairs(dst, s, path, n - 1), s, path, n - 1, key);
    }
  }

  lemma FindInLonger(a: seq<Node>, b: seq<Node>, key: string)
    requires |a| % 2 == 0
    ensures if Find(a, key) < Pairs(a) then Find(a + b, key) == Find(a, key) else Find(a + b, key) >= Pairs(a)
  {
    if Find(a, key) < Pairs(a) {
      FindIs(a + b, key, Find(a, key));
    } else {
      forall k | 0 <= k < Pairs(a) ensures (a + b)[2 * k].value != key { assert (a + b)[2 * k] == a[2 * k]; }
    }
  }

  /** The merge never touches the notes of the node it merges into. */
  lemma NotesSurvive(d: Node, s: Node, path: Path)
    ensures MergeNode(d, s, path).notes == d.notes
  {}

  /**
    A sequence ends up with the source's length; a matched element keeps its node's notes, an unmatched one is a copy.
   */
  lemma SequenceElements(d: Node, s: Node, path: Path, i: nat)
    requires d.kind == Sequence && s.kind == Sequence && i < |s.content|
    ensures |MergeNode(d, s, path).content| == |s.content|
    ensures var j, e := Matches(d.content, s.content, |s.content|)[i], MergeNode(d, s, path).content[i];
            if j < |d.content| then e.notes == d.content[j].notes else e == s.content[i]
    ensures var j, e := Matches(d.content, s.content, |s.content|)[i], MergeNode(d, s, path).content[i];
            j < |d.content| && s.content[i].kind == Mapping ==>
              OnlyWanted(e.content, KeptKeys(s.content[i].content))
  {
    var j := Matches(d.content, s.content, |s.content|)[i];
    assert MergeNode(d, s, path).content == MergeElements(d.content, s, path);
    assert MergeNode(d, s, path).content[i] == MergeElement(d.content, s, path, i);
    if j < |d.content| && s.content[i].kind == Mapping {
      KeptOnlyWanted(MergeNode(d.content[j], s.content[i], path).content, KeptKeys(s.content[i].content), 0);
    }
  }

  /** A generated configuration is covered in every existing file it is saved to exactly if it is blank-safe. */
  lemma SaveCoversIffBlankSafe(s: Node)
    requires s.kind == Mapping && WellFormed(s)
    ensures (forall d: Node | d.kind == Mapping && Paired(d) :: Covers(MergeMapping(d, s, []), s, []))
            <==> BlankSafe(s, [])
  {
    MergeCoversIffBlankSafe(s, []);
    WellFormedIsPaired(s);
    forall d: Node | d.kind == Mapping ensures MergeMapping(d, s, []) == MergeNode(d, s, []) {}
    assert Covers(MergeMapping(s, s, []), s, []) <==> BlankSafe(s, []);
  }

  /**
    Saving a generated configuration into an existing file: everything generated is there, and nothing existing moved.
   */
  lemma RootMerge(d: Node, s: Node)
    requires d.kind == Mapping && s.kind == Mapping && Paired(d) && WellFormed(s)
    ensures BlankSafe(s, []) ==> Covers(MergeMapping(d, s, []), s, [])
    ensures MergeMapping(d, s, []).notes == d.notes
    ensures Keys(MergeMapping(d, s, []).content) == Keys(d.content) + NewKeys(d.content, s, [], Pairs(s.content))
    ensures forall i | 0 <= i < Pairs(d.content) ::
              && MergeMapping(d, s, []).content[2 * i] == d.content[2 * i]
              && MergeMapping(d, s, []).content[2 * i + 1] == InPlace(d.content, s, [], Pairs(s.content), i)
  {
    if BlankSafe(s, []) { MergeCovers(d, s, []); }
    assert MergeMapping(d, s, []) == MergeNode(d, s, []);
    KeysInOrder(d.content, s, [], Pairs(s.content));
    forall i | 0 <= i < Pairs(d.content) { DestinationKeepsItsPlaces(d.content, s, [], Pairs(s.content), i); }
  }
}
