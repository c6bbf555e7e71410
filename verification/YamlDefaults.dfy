/**
  Which generated values a save may leave out: the table of zero and default scalars, and what becomes of each value of
  the generated tree, said of the values themselves.
 */
module YamlDefaults {
  import opened Prelude
  import opened YamlTrees
  import opened YamlMerge
  import Text

  // ---------------------------------------------------------------- the table

  /** The keys of a path with dots between them. */
  function Dotted(path: Path): string {
    if path == [] then "" else if |path| == 1 then path[0] else Dotted(path[..|path| - 1]) + "." + path[|path| - 1]
  }

  /** Zero values, wherever they stand. */
  predicate ZeroScalar(tag: string, value: string) {
    || (tag, value) == ("!!bool", "false")
    || (tag, value) == ("!!int", "0") || (tag, value) == ("!!int", "0.0")
    || (tag, value) == ("!!float", "0") || (tag, value) == ("!!float", "0.0")
    || (tag, value) == ("!!str", "")
    || tag == "!!null"
  }

  /** Zero values, and the defaults of five settings. */
  predicate DefaultScalar(path: Path, tag: string, value: string) {
    || ZeroScalar(tag, value)
    || (path != [] && tag == "!!str" && (Dotted(path), value) == ("pprof.addr", "127.0.0.1:8316"))
    || (path != [] && tag == "!!str" && Dotted(path) == "remote-management.panel-github-repository"
        && value == "https://github.com/router-for-me/Cli-Proxy-API-Management-Center")
    || (path != [] && tag == "!!str" && (Dotted(path), value) == ("plugins.dir", "plugins"))
    || (path != [] && tag == "!!str" && (Dotted(path), value) == ("routing.strategy", "round-robin"))
    || (path != [] && tag == "!!int" && (Dotted(path), value) == ("error-logs-max-files", "10"))
  }

  /** Every scalar leaf is in the table; one that is an element of a sequence has to be a zero value. */
  predicate AllDefault(n: Node, path: Path, element: bool) {
    match n.kind
    case Scalar => if element then ZeroScalar(n.tag, n.value) else DefaultScalar(path, n.tag, n.value)
    case Mapping =>
      forall i | 0 <= i < Pairs(n.content) :: AllDefault(n.content[2 * i + 1], path + [n.content[2 * i].value], false)
    case Sequence => forall i | 0 <= i < |n.content| :: AllDefault(n.content[i], path, true)
    case _ => false
  }

  // ---------------------------------------------------------------- the code's tests follow the table

  lemma {:induction false} JoinLast(path: Path)
    requires |path| >= 2
    ensures Join(path) == Join(path[..|path| - 1]) + "." + path[|path| - 1]
  {
    if |path| == 2 {
      assert path[1..] == [path[1]] && path[..1] == [path[0]];
    } else {
      JoinLast(path[1..]);
      var n := |path|;
      assert path[1..][..n - 2] == path[..n - 1][1..];
      Associate(path[0] + ".", Join(path[1..n - 1]), "." + path[n - 1]);
      assert path[0] + "." + (Join(path[1..n - 1]) + "." + path[n - 1])
          == path[0] + "." + Join(path[1..n - 1]) + "." + path[n - 1];
    }
  }

  lemma {:induction false} JoinIsDotted(path: Path)
    ensures Join(path) == Dotted(path)
  {
    if |path| >= 2 {
      JoinLast(path);
      JoinIsDotted(path[..|path| - 1]);
    }
  }

  lemma ScalarTests(path: Path, n: Node)
    requires n.kind == Scalar
    ensures IsZero(n) <==> ZeroScalar(n.tag, n.value)
    ensures IsKnownDefault(path, n) <==> DefaultScalar(path, n.tag, n.value)
  {
    JoinIsDotted(path);
  }

  // The equation with true makes this and the outcomes below one proposition each, proved as a whole.

  predicate AllZeroValues(c: seq<Node>) { |c| >= 2 ==> IsZero(c[1]) && AllZeroValues(c[2..]) }

  lemma {:induction false} AllZeroValuesIff(c: seq<Node>)
    ensures AllZeroValues(c) <==> forall i | 0 <= i < |c| && i % 2 == 1 :: IsZero(c[i])
  {
    if |c| >= 2 {
      AllZeroValuesIff(c[2..]);
      forall i | 2 <= i < |c| && i % 2 == 1 ensures IsZero(c[i]) <==> IsZero(c[2..][i - 2]) {}
      if forall i | 0 <= i < |c| && i % 2 == 1 :: IsZero(c[i]) {
        forall k | 0 <= k < |c[2..]| && k % 2 == 1 ensures IsZero(c[2..][k]) { assert c[2..][k] == c[k + 2]; }
      } else {
        var i :| 0 <= i < |c| && i % 2 == 1 && !IsZero(c[i]);
        if i > 1 { assert (i - 2) % 2 == 1 && !IsZero(c[2..][i - 2]); }
      }
    }
  }

  lemma ZeroMapping(n: Node)
    requires n.kind == Mapping
    ensures IsZero(n) <==> AllZeroValues(n.content)
  {
    AllZeroValuesIff(n.content);
  }

  lemma {:induction false} ZeroIsDefault(n: Node, path: Path, element: bool)
    requires WellFormed(n) && IsZero(n)
    ensures AllDefault(n, path, element)
    decreases n
  {
    match n.kind
    case Scalar => ScalarTests(path, n);
    case Mapping =>
      forall i | 0 <= i < Pairs(n.content)
        ensures AllDefault(n.content[2 * i + 1], path + [n.content[2 * i].value], false)
      {
        assert (2 * i + 1) % 2 == 1;
        ZeroIsDefault(n.content[2 * i + 1], path + [n.content[2 * i].value], false);
      }
    case Sequence => forall i | 0 <= i < |n.content| { ZeroIsDefault(n.content[i], path, true); }
  }

  lemma ZeroPairInFront(key: Node, value: Node, c: seq<Node>)
    ensures AllZeroValues([key, value] + c) <==> IsZero(value) && AllZeroValues(c)
  {
    assert ([key, value] + c)[2..] == c;
  }

  lemma MappingIsZeroIff(n: Node, path: Path)
    requires n.kind == Mapping && forall k | 0 <= k < Pairs(n.content) :: ValueFollows(n, path, k)
    ensures AllZeroValues(PrunedPairs(path, n, 0)) <==> forall k | 0 <= k < Pairs(n.content) :: PairDefault(n, path, k)
  {
    if forall k | 0 <= k < Pairs(n.content) :: PairDefault(n, path, k) {
      DefaultPairsPruneToZero(n, path, 0);
    } else if AllZeroValues(PrunedPairs(path, n, 0)) {
      forall k | 0 <= k < Pairs(n.content) ensures PairDefault(n, path, k) { ZeroPairsAreDefault(n, path, 0, k); }
    }
  }

  /** What pruning leaves is a zero value exactly if the whole tree is in the table. */
  lemma {:induction false} PrunedIsZeroIff(n: Node, path: Path)
    requires WellFormed(n)
    ensures IsZero(Pruned(path, n)) <==> AllDefault(n, path, true)
    decreases n
  {
    match n.kind
    case Scalar => ScalarTests(path, n);
    case Mapping =>
      ZeroMapping(Pruned(path, n));
      forall i | 0 <= i < Pairs(n.content) ensures ValueFollows(n, path, i) {
        PrunedIsZeroIff(n.content[2 * i + 1], path + [n.content[2 * i].value]);
      }
      MappingIsZeroIff(n, path);
      if forall k | 0 <= k < Pairs(n.content) :: PairDefault(n, path, k) {
        forall k | 0 <= k < Pairs(n.content)
          ensures AllDefault(n.content[2 * k + 1], path + [n.content[2 * k].value], false)
        {
          assert PairDefault(n, path, k);
        }
      }
    case Sequence =>
      var p := Pruned(path, n);
      forall i | 0 <= i < |n.content| ensures IsZero(p.content[i]) <==> AllDefault(n.content[i], path, true) {
        assert p.content[i] == Pruned(path, n.content[i]);
        PrunedIsZeroIff(n.content[i], path);
      }
  }

  /** Pruning leaves a zero value of value number i exactly if it is in the table. */
  predicate ValueFollows(n: Node, path: Path, i: nat)
    requires i < Pairs(n.content)
  {
    var child, value := path + [n.content[2 * i].value], n.content[2 * i + 1];
    (WellFormed(value) && (IsZero(Pruned(child, value)) <==> AllDefault(value, child, true))) == true
  }

  predicate PairDefault(n: Node, path: Path, i: nat)
    requires i < Pairs(n.content)
  {
    AllDefault(n.content[2 * i + 1], path + [n.content[2 * i].value], false) == true
  }

  lemma {:induction false} DefaultPairsPruneToZero(n: Node, path: Path, i: nat)
    requires i <= Pairs(n.content) && forall k | 0 <= k < Pairs(n.content) :: ValueFollows(n, path, k)
    requires forall k | i <= k < Pairs(n.content) :: PairDefault(n, path, k)
    ensures AllZeroValues(PrunedPairs(path, n, i))
    decreases Pairs(n.content) - i
  {
    if i < Pairs(n.content) {
      DefaultPairsPruneToZero(n, path, i + 1);
      assert ValueFollows(n, path, i) && PairDefault(n, path, i);
      OnePairIsZeroIff(n, path, i);
    }
  }

  lemma {:induction false} ZeroPairsAreDefault(n: Node, path: Path, i: nat, k: nat)
    requires i <= k < Pairs(n.content) && forall j | 0 <= j < Pairs(n.content) :: ValueFollows(n, path, j)
    requires AllZeroValues(PrunedPairs(path, n, i))
    ensures PairDefault(n, path, k)
    decreases k - i
  {
    assert ValueFollows(n, path, i);
    OnePairIsZeroIff(n, path, i);
    if i < k { ZeroPairsAreDefault(n, path, i + 1, k); }
  }

  lemma OnePairIsZeroIff(n: Node, path: Path, i: nat)
    requires i < Pairs(n.content) && ValueFollows(n, path, i)
    ensures AllZeroValues(PrunedPairs(path, n, i))
            <==> AllZeroValues(PrunedPairs(path, n, i + 1)) && PairDefault(n, path, i)
  {
    var child, value, rest := path + [n.content[2 * i].value], n.content[2 * i + 1], PrunedPairs(path, n, i + 1);
    PrunedPairFollowsTable(n, path, i);
    if PrunedPair(path, n, i) == [] {
      assert [] + rest == rest;
    } else {
      ZeroPairInFront(n.content[2 * i], Pruned(child, value), rest);
    }
  }

  /** A pair that is dropped is in the table; one that is kept is in it only as a collection of zero values. */
  lemma PrunedPairFollowsTable(n: Node, path: Path, i: nat)
    requires i < Pairs(n.content) && ValueFollows(n, path, i)
    ensures var child, value := path + [n.content[2 * i].value], n.content[2 * i + 1];
            if PrunedPair(path, n, i) == [] then AllDefault(value, child, false)
            else IsZero(Pruned(child, value)) <==> AllDefault(value, child, false)
  {
    var child, value := path + [n.content[2 * i].value], n.content[2 * i + 1];
    if value.kind == Scalar {
      ScalarTests(child, value);
    } else if IsKnownDefault(child, value) {
      ZeroIsDefault(value, child, false);
    } else if IsEmptyCollection(Pruned(child, value)) {
      assert IsZero(Pruned(child, value));
    }
  }

  /** The rule for new keys, by the table: a value is left out exactly if it is in it altogether. */
  lemma DroppableIffAllDefault(n: Node, path: Path)
    requires WellFormed(n)
    ensures Droppable(path, n) <==> AllDefault(n, path, false)
  {
    PrunedIsZeroIff(n, path);
    if n.kind == Scalar { ScalarTests(path, n); }
  }

  // ---------------------------------------------------------------- following keys

  /** The node one arrives at by following keys through mappings. */
  function At(n: Node, keys: Path): Option<Node> {
    if keys == [] then Some(n)
    else if n.kind != Mapping then None
    else match Lookup(n.content, keys[0])
      case None => None
      case Some(v) => At(v, keys[1..])
  }

  /** There is a mapping on the way that has not the next key. */
  predicate Absent(n: Node, keys: Path) {
    && keys != [] && n.kind == Mapping
    && match Lookup(n.content, keys[0])
       case None => true
       case Some(v) => Absent(v, keys[1..])
  }

  /** The keys lead somewhere in a well-formed tree. */
  predicate Reaches(n: Node, keys: Path) { (WellFormed(n) && At(n, keys).Some?) == true }

  lemma {:induction false} AllDefaultBelow(n: Node, path: Path, keys: Path)
    requires AllDefault(n, path, false) && At(n, keys).Some?
    ensures AllDefault(At(n, keys).value, path + keys, false)
    decreases |keys|
  {
    if keys == [] {
      assert path + keys == path;
    } else {
      var j := Find(n.content, keys[0]);
      assert AllDefault(n.content[2 * j + 1], path + [n.content[2 * j].value], false);
      AllDefaultBelow(n.content[2 * j + 1], path + [keys[0]], keys[1..]);
      assert path + [keys[0]] + keys[1..] == path + keys;
    }
  }

  /** One key further: the pair it leads to. */
  lemma AtOneKey(n: Node, keys: Path) returns (i: nat, u: Node)
    requires keys != [] && Reaches(n, keys)
    ensures n.kind == Mapping && i < Pairs(n.content) && i == Find(n.content, keys[0])
    ensures n.content[2 * i].value == keys[0] && n.content[2 * i + 1] == u
    ensures Reaches(u, keys[1..]) && At(u, keys[1..]) == At(n, keys) && WellFormed(u) && WellFormed(n)
  {
    i := Find(n.content, keys[0]);
    u := n.content[2 * i + 1];
  }

  lemma LongerPath(path: Path, keys: Path)
    requires keys != []
    ensures path + [keys[0]] + keys[1..] == path + keys
  {}

  lemma AtPruned(n: Node, path: Path, keys: Path, i: nat)
    requires keys != [] && n.kind == Mapping && WellFormed(n)
    requires i < Pairs(n.content) && n.content[2 * i].value == keys[0]
    ensures At(Pruned(path, n), keys)
            == if PrunedPair(path, n, i) == [] then None
               else At(Pruned(path + [keys[0]], n.content[2 * i + 1]), keys[1..])
  {
    LookupPruned(path, n, 0, i);
  }

  /** What pruning makes of a value of the tree: it is in the table, or it is there in pruned form. */
  predicate PrunedOutcome(found: Option<Node>, v: Node, path: Path) {
    (match found
     case None => AllDefault(v, path, false)
     case Some(w) => w == Pruned(path, v)) == true
  }

  lemma DroppedBelow(u: Node, path: Path, keys: Path)
    requires Reaches(u, keys) && (IsKnownDefault(path, u) || IsEmptyCollection(Pruned(path, u)))
    ensures PrunedOutcome(None, At(u, keys).value, path + keys)
  {
    PrunedAwayIsDroppable(path, u);
    DroppableIffAllDefault(u, path);
    AllDefaultBelow(u, path, keys);
  }

  lemma {:induction false} PrunedValues(n: Node, path: Path, keys: Path)
    requires Reaches(n, keys)
    ensures PrunedOutcome(At(Pruned(path, n), keys), At(n, keys).value, path + keys)
    decreases |keys|
  {
    if keys == [] {
      assert path + keys == path;
    } else {
      var i, u := AtOneKey(n, keys);
      AtPruned(n, path, keys, i);
      LongerPath(path, keys);
      if PrunedPair(path, n, i) == [] {
        DroppedBelow(u, path + [keys[0]], keys[1..]);
      } else {
        PrunedValues(u, path + [keys[0]], keys[1..]);
      }
    }
  }

  /** What becomes of a new scalar: it is there as it is, exactly if it is not in the table. */
  predicate ScalarOutcome(found: Option<Node>, v: Node, path: Path) {
    found == if DefaultScalar(path, v.tag, v.value) then None else Some(v)
  }

  lemma DroppedScalar(v: Node, path: Path)
    requires v.kind == Scalar && PrunedOutcome(None, v, path)
    ensures ScalarOutcome(None, v, path)
  {}

  lemma PrunedPairScalar(n: Node, path: Path, i: nat)
    requires i < Pairs(n.content) && n.content[2 * i + 1].kind == Scalar
    ensures var child, u := path + [n.content[2 * i].value], n.content[2 * i + 1];
            ScalarOutcome(if PrunedPair(path, n, i) == [] then None else Some(Pruned(child, u)), u, child)
  {
    ScalarTests(path + [n.content[2 * i].value], n.content[2 * i + 1]);
  }

  /** Below a new value, pruning takes out exactly the scalars of the table. */
  lemma {:induction false} PrunedScalarIff(n: Node, path: Path, keys: Path)
    requires keys != [] && Reaches(n, keys) && At(n, keys).value.kind == Scalar
    ensures ScalarOutcome(At(Pruned(path, n), keys), At(n, keys).value, path + keys)
    decreases |keys|
  {
    var i, u := AtOneKey(n, keys);
    AtPruned(n, path, keys, i);
    LongerPath(path, keys);
    if keys[1..] == [] {
      PrunedPairScalar(n, path, i);
      assert path + [keys[0]] == path + keys;
    } else if PrunedPair(path, n, i) == [] {
      DroppedBelow(u, path + [keys[0]], keys[1..]);
      DroppedScalar(At(n, keys).value, path + keys);
    } else {
      PrunedScalarIff(u, path + [keys[0]], keys[1..]);
    }
  }

  // ---------------------------------------------------------------- what becomes of every value

  /** What there is under a key before a mapping is merged in; anything else is first replaced by the source. */
  function Had(d: Node, s: Node, key: string): Option<Node> {
    Lookup((if d.kind == Mapping then d else s).content, key)
  }

  /** What a new value leaves at the keys below it. */
  function NewAt(u: Node, path: Path, keys: Path): Option<Node> {
    if Droppable(path, u) then None else At(Pruned(path, u), keys)
  }

  /** One key further in the merge: into the value the destination has, or into the pruned new one. */
  lemma AtMerged(d: Node, s: Node, path: Path, keys: Path, i: nat)
    requires keys != [] && s.kind == Mapping && Paired(d) && WellFormed(s)
    requires i < Pairs(s.content) && i == Find(s.content, keys[0]) && s.content[2 * i].value == keys[0]
    ensures Had(d, s, keys[0]).Some? ==> Paired(Had(d, s, keys[0]).value)
    ensures var child, u := path + [keys[0]], s.content[2 * i + 1];
            At(MergeNode(d, s, path), keys)
            == match Had(d, s, keys[0])
               case Some(v) => At(MergeNode(v, u, child), keys[1..])
               case None => NewAt(u, child, keys[1..])
  {
    var had := if d.kind == Mapping then d else s;
    WellFormedIsPaired(s);
    LookupIsPaired(had, keys[0]);
    MergePairsLookup(had.content, s, path, Pairs(s.content), keys[0]);
  }

  /** A value of the source, and what is found in its place: a scalar is there with its tag and text. */
  predicate SavedOutcome(found: Option<Node>, v: Node, path: Path, before: Option<Node>) {
    (match found
     case None => AllDefault(v, path, false) && before.None?
     case Some(w) => v.kind == Scalar ==> w.kind == Scalar && w.tag == v.tag && w.value == v.value) == true
  }

  lemma NewValueIsSaved(u: Node, path: Path, keys: Path)
    requires Reaches(u, keys)
    ensures SavedOutcome(NewAt(u, path, keys), At(u, keys).value, path + keys, None)
  {
    DroppableIffAllDefault(u, path);
    if AllDefault(u, path, false) {
      AllDefaultBelow(u, path, keys);
    } else {
      PrunedValues(u, path, keys);
    }
  }

  lemma NewScalarIff(u: Node, path: Path, keys: Path)
    requires Reaches(u, keys) && At(u, keys).value.kind == Scalar
    ensures ScalarOutcome(NewAt(u, path, keys), At(u, keys).value, path + keys)
  {
    DroppableIffAllDefault(u, path);
    if AllDefault(u, path, false) {
      AllDefaultBelow(u, path, keys);
    } else if keys != [] {
      PrunedScalarIff(u, path, keys);
    } else {
      assert path + keys == path;
    }
  }

  lemma ScalarIsTaken(d: Node, s: Node, path: Path)
    ensures SavedOutcome(Some(MergeNode(d, s, path)), s, path, Some(d))
  {}

  lemma BeforeOneKey(d: Node, s: Node, keys: Path)
    requires keys != []
    ensures At(d, keys) == if d.kind != Mapping || Had(d, s, keys[0]).None? then None
                           else At(Had(d, s, keys[0]).value, keys[1..])
  {}

  lemma AbsentBefore(found: Option<Node>, v: Node, path: Path, before: Option<Node>)
    requires SavedOutcome(found, v, path, before)
    ensures SavedOutcome(found, v, path, None)
  {}

  /**
    Every value of the source is found in the merge at its keys: a scalar with its tag and text. What is missing was
    absent from the destination, and every scalar leaf of it is in the table.
   */
  lemma {:induction false} EveryValueIsSaved(d: Node, s: Node, path: Path, keys: Path)
    requires Paired(d) && Reaches(s, keys)
    ensures SavedOutcome(At(MergeNode(d, s, path), keys), At(s, keys).value, path + keys, At(d, keys))
    decreases |keys|
  {
    if keys == [] {
      ScalarIsTaken(d, s, path);
      assert path + keys == path;
    } else {
      var i, u := AtOneKey(s, keys);
      AtMerged(d, s, path, keys, i);
      LongerPath(path, keys);
      BeforeOneKey(d, s, keys);
      var had := Had(d, s, keys[0]);
      if had.Some? {
        EveryValueIsSaved(had.value, u, path + [keys[0]], keys[1..]);
        AbsentBefore(At(MergeNode(d, s, path), keys), At(s, keys).value, path + keys, At(had.value, keys[1..]));
      } else {
        NewValueIsSaved(u, path + [keys[0]], keys[1..]);
      }
    }
  }

  /** A scalar at new keys is written, as it is, exactly if it is not in the table. */
  lemma {:induction false} NewScalarIsSavedIff(d: Node, s: Node, path: Path, keys: Path)
    requires Paired(d) && Reaches(s, keys) && At(s, keys).value.kind == Scalar && Absent(d, keys)
    ensures ScalarOutcome(At(MergeNode(d, s, path), keys), At(s, keys).value, path + keys)
    decreases |keys|
  {
    var i, u := AtOneKey(s, keys);
    AtMerged(d, s, path, keys, i);
    LongerPath(path, keys);
    var had := Had(d, s, keys[0]);
    if had.Some? {
      NewScalarIsSavedIff(had.value, u, path + [keys[0]], keys[1..]);
    } else {
      NewScalarIff(u, path + [keys[0]], keys[1..]);
    }
  }

  /** The same for saving a generated mapping into an existing one. */
  lemma SavedValues(d: Node, s: Node, keys: Path)
    requires d.kind == Mapping && s.kind == Mapping && Paired(d) && WellFormed(s) && At(s, keys).Some?
    ensures var v, found := At(s, keys).value, At(MergeMapping(d, s, []), keys);
            && (found.None? ==> AllDefault(v, keys, false) && At(d, keys).None?)
            && (v.kind == Scalar && found.Some? ==>
                  found.value.kind == Scalar && found.value.tag == v.tag && found.value.value == v.value)
            && (v.kind == Scalar && Absent(d, keys) ==>
                  found == if DefaultScalar(keys, v.tag, v.value) then None else Some(v))
  {
    assert MergeMapping(d, s, []) == MergeNode(d, s, []) && [] + keys == keys;
    EveryValueIsSaved(d, s, [], keys);
    if At(s, keys).value.kind == Scalar && Absent(d, keys) { NewScalarIsSavedIff(d, s, [], keys); }
  }
}
