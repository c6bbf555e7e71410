/**
  YAML nodes as objects that the merge updates in place. Each node knows, for the proof, the tree value it stands for
  and a set of nodes that contains all of its own; the methods are proved to compute the merge on values.
 */
module YamlNodes {
  import opened Prelude
  import opened YamlTrees
  import opened YamlMerge
  import Text

  class YamlNode {
    var kind: Kind
    var tag: string
    var value: string
    var notes: string
    var content: seq<YamlNode>
    ghost var tree: Node
    ghost var repr: set<YamlNode>

    /** The children are separate trees of their own, and together with this node they are the tree. */
    ghost predicate Valid()
      reads this, repr
      decreases repr
    {
      // The equation with true makes this and the predicates below one proposition each, proved as a whole.
      (&& this in repr
       && (forall c | c in content :: c in repr && c.repr <= repr && this !in c.repr && c.Valid())
       && (forall i, j | 0 <= i < j < |content| :: content[i].repr !! content[j].repr)
       && tree.kind == kind && tree.tag == tag && tree.value == value && tree.notes == notes
       && |tree.content| == |content|
       && (forall i | 0 <= i < |content| :: tree.content[i] == content[i].tree)) == true
    }

    constructor (kind: Kind, tag: string, value: string, notes: string, content: seq<YamlNode>,
                 ghost owned: set<YamlNode>)
      requires Forest(content, owned)
      ensures Valid() && tree == Node(kind, tag, value, notes, Trees(content))
      ensures this.content == content && repr == {this} + owned
    {
      this.kind, this.tag, this.value, this.notes, this.content := kind, tag, value, notes, content;
      tree := Node(kind, tag, value, notes, Trees(content));
      repr := {this} + owned;
    }
  }

  /** Valid trees that share no node, all within a set of nodes. */
  ghost predicate Forest(nodes: seq<YamlNode>, owned: set<YamlNode>)
    reads nodes, owned
  {
    (&& (forall n | n in nodes :: n in owned && n.repr <= owned && n.Valid())
     && (forall i, j | 0 <= i < j < |nodes| :: nodes[i].repr !! nodes[j].repr)) == true
  }

  ghost function Trees(nodes: seq<YamlNode>): seq<Node>
    reads nodes
  {
    seq(|nodes|, i requires 0 <= i < |nodes| reads nodes => nodes[i].tree)
  }

  lemma ForestAppend(nodes: seq<YamlNode>, owned: set<YamlNode>, n: YamlNode)
    requires Forest(nodes, owned) && n.Valid() && n.repr !! owned
    ensures Forest(nodes + [n], owned + n.repr)
    ensures Trees(nodes + [n]) == Trees(nodes) + [n.tree]
  {}

  lemma ChildrenForest(n: YamlNode)
    requires n.Valid()
    ensures Forest(n.content, n.repr - {n}) && Trees(n.content) == n.tree.content
  {}

  method DeepCopy(n: YamlNode) returns (copy: YamlNode)
    requires n.Valid()
    ensures copy.Valid() && fresh(copy.repr) && copy.tree == n.tree
    decreases n.repr
  {
    ghost var owned;
    var kids;
    kids, owned := DeepCopies(n, |n.content|);
    copy := new YamlNode(n.kind, n.tag, n.value, n.notes, kids, owned);
    assert copy.tree.content == n.tree.content;
  }

  method DeepCopies(n: YamlNode, count: nat) returns (kids: seq<YamlNode>, ghost owned: set<YamlNode>)
    requires n.Valid() && count <= |n.content|
    ensures Forest(kids, owned) && fresh(owned) && Trees(kids) == n.tree.content[..count]
    decreases n.repr, 0
  {
    kids, owned := [], {};
    for i := 0 to count
      invariant Forest(kids, owned) && fresh(owned) && Trees(kids) == n.tree.content[..i]
    {
      var kid := DeepCopy(n.content[i]);
      ForestAppend(kids, owned, kid);
      kids := kids + [kid];
      owned := owned + kid.repr;
    }
  }

  method CopyNodeShallow(dst: YamlNode, src: YamlNode)
    requires dst.Valid() && src.Valid() && dst.repr !! src.repr
    modifies dst
    ensures dst.Valid() && fresh(dst.repr - {dst})
    ensures dst.tree == CopyShallow(old(dst.tree), src.tree)
  {
    ghost var owned;
    var kids;
    kids, owned := DeepCopies(src, |src.content|);
    Become(dst, src.kind, src.tag, src.value, kids, owned);
    assert dst.tree.content == src.tree.content;
  }

  /** Overwrite a node's data, giving it children that are already trees. */
  method Become(dst: YamlNode, kind: Kind, tag: string, value: string, kids: seq<YamlNode>, ghost owned: set<YamlNode>)
    requires Forest(kids, owned) && dst !in owned
    modifies dst
    ensures dst.Valid() && dst.repr == {dst} + owned && dst.content == kids
    ensures dst.tree == Node(kind, tag, value, old(dst.notes), Trees(kids))
  {
    assert forall n | n in kids :: n != dst && dst !in n.repr;
    dst.kind, dst.tag, dst.value, dst.content := kind, tag, value, kids;
    dst.tree := Node(kind, tag, value, dst.notes, Trees(kids));
    dst.repr := {dst} + owned;
    assert Forest(kids, owned);
  }

  // ---------------------------------------------------------------- reading

  /** The tree a node stands for, as a value. */
  method View(n: YamlNode) returns (v: Node)
    requires n.Valid()
    ensures v == n.tree
    decreases n.repr
  {
    var kids := [];
    for i := 0 to |n.content|
      invariant kids == n.tree.content[..i]
    {
      var kid := View(n.content[i]);
      kids := kids + [kid];
    }
    v := Node(n.kind, n.tag, n.value, n.notes, kids);
  }

  method FindMapKeyIndex(n: YamlNode, key: string) returns (j: int)
    requires n.Valid()
    ensures j == if n.kind == Mapping && Find(n.tree.content, key) < Pairs(n.tree.content)
                 then 2 * Find(n.tree.content, key) else -1
  {
    if n.kind != Mapping { return -1; }
    var i := 0;
    while 2 * i + 1 < |n.content|
      invariant 2 * i <= |n.content|
      invariant forall k | 0 <= k < i :: n.tree.content[2 * k].value != key
    {
      assert n.content[2 * i] in n.content && n.tree.content[2 * i] == n.content[2 * i].tree;
      if n.content[2 * i].value == key {
        FindIs(n.tree.content, key, i);
        return 2 * i;
      }
      i := i + 1;
    }
    FindIs(n.tree.content, key, i);
    return -1;
  }

  // ---------------------------------------------------------------- updating one child

  /** After child number j has become another tree in place, the node is the tree with that child. */
  method Rejoin(n: YamlNode, j: nat, ghost before: set<YamlNode>)
    requires n in before && j < |n.content| && |n.tree.content| == |n.content|
    requires n.tree.kind == n.kind && n.tree.tag == n.tag && n.tree.value == n.value && n.tree.notes == n.notes
    requires forall c | c in n.content :: n !in c.repr && c.Valid()
    requires forall i | 0 <= i < |n.content| && i != j :: n.content[i] in before && n.content[i].repr <= before
                                                          && n.tree.content[i] == n.content[i].tree
    requires forall i, k | 0 <= i < k < |n.content| :: n.content[i].repr !! n.content[k].repr
    modifies n`tree, n`repr
    ensures n.Valid() && n.repr == before + n.content[j].repr
    ensures n.tree == old(n.tree).(content := old(n.tree).content[j := n.content[j].tree])
  {
    n.tree := n.tree.(content := n.tree.content[j := n.content[j].tree]);
    n.repr := before + n.content[j].repr;
  }

  // ---------------------------------------------------------------- keeping some of the children

  /** Child numbers in increasing order, all below a limit. */
  predicate Increasing(kept: seq<nat>, limit: nat) {
    && (forall k | 0 <= k < |kept| :: kept[k] < limit)
    && (forall j, k | 0 <= j < k < |kept| :: kept[j] < kept[k])
  }

  function At<T>(content: seq<T>, kept: seq<nat>): seq<T>
    requires forall k | 0 <= k < |kept| :: kept[k] < |content|
  {
    seq(|kept|, k requires 0 <= k < |kept| => content[kept[k]])
  }

  lemma AtUnchanged(a: seq<Node>, b: seq<Node>, kept: seq<nat>, limit: nat)
    requires |a| == |b| && Increasing(kept, limit) && limit <= |a|
    requires forall k | 0 <= k < limit :: a[k] == b[k]
    ensures At(a, kept) == At(b, kept)
  {}

  lemma AtMore<T>(content: seq<T>, kept: seq<nat>, i: nat)
    requires Increasing(kept, i) && i + 1 < |content|
    ensures Increasing(kept + [i, i + 1], i + 2)
    ensures At(content, kept + [i, i + 1]) == At(content, kept) + [content[i], content[i + 1]]
  {}

  lemma AtOneMore(was: seq<Node>, now: seq<Node>, kept: seq<nat>, i: nat, keep: bool)
    requires |now| == |was| && Increasing(kept, 2 * i) && 2 * i + 1 < |now|
    requires forall k | 0 <= k < |now| && k != 2 * i + 1 :: now[k] == was[k]
    ensures var more := if keep then kept + [2 * i, 2 * i + 1] else kept;
            Increasing(more, 2 * i + 2)
            && At(now, more) == At(was, kept) + if keep then [now[2 * i], now[2 * i + 1]] else []
  {
    AtUnchanged(was, now, kept, 2 * i);
    AtMore(now, kept, 2 * i);
  }

  lemma AtDistinct(n: YamlNode, kept: seq<nat>)
    requires n.Valid() && Increasing(kept, |n.content|)
    ensures Forest(At(n.content, kept), n.repr - {n})
    ensures Trees(At(n.content, kept)) == At(n.tree.content, kept)
  {}

  /** Drop every child but the given ones. */
  method KeepOnly(n: YamlNode, kept: seq<nat>)
    requires n.Valid() && Increasing(kept, |n.content|)
    modifies n
    ensures n.Valid() && n.repr == old(n.repr)
    ensures n.tree == old(n.tree).(content := At(old(n.tree).content, kept))
  {
    AtDistinct(n, kept);
    var nodes := At(n.content, kept);
    ghost var owned := n.repr - {n};
    Become(n, n.kind, n.tag, n.value, nodes, owned);
  }

  lemma PrunedPairOnlyReadsItsPair(path: Path, a: Node, b: Node, i: nat)
    requires i < Pairs(a.content) && |a.content| == |b.content|
    requires a.content[2 * i] == b.content[2 * i] && a.content[2 * i + 1] == b.content[2 * i + 1]
    ensures PrunedPair(path, a, i) == PrunedPair(path, b, i)
  {}

  // ---------------------------------------------------------------- pruning in place

  /** Remove the default-valued descendants of a new node. */
  method PruneKnownDefaults(path: Path, n: YamlNode)
    requires n.Valid()
    modifies n.repr
    ensures n.Valid() && n.repr == old(n.repr) && n.tree == Pruned(path, old(n.tree))
    decreases n.repr, 1
  {
    if n.kind == Mapping {
      PruneMapping(path, n);
    } else if n.kind == Sequence {
      PruneSequence(path, n);
    }
  }

  method PruneSequence(path: Path, n: YamlNode)
    requires n.Valid() && n.kind == Sequence
    modifies n.repr
    ensures n.Valid() && n.repr == old(n.repr) && n.tree == Pruned(path, old(n.tree))
    decreases n.repr, 0
  {
    ghost var t := n.tree;
    for i := 0 to |n.content|
      invariant n.Valid() && n.repr == old(n.repr) && n.content == old(n.content)
      invariant n.tree == t.(content := n.tree.content)
      invariant forall k | 0 <= k < i :: n.tree.content[k] == Pruned(path, t.content[k])
      invariant forall k | i <= k < |n.content| :: n.tree.content[k] == t.content[k]
    {
      PruneChild(path, n, i);
    }
    assert n.tree.content == Pruned(path, t).content;
  }

  /** Prune one child in place. */
  method PruneChild(path: Path, n: YamlNode, i: nat)
    requires n.Valid() && i < |n.content|
    modifies n.repr
    ensures n.Valid() && n.repr == old(n.repr) && n.content == old(n.content)
    ensures n.tree == old(n.tree).(content := old(n.tree).content[i := Pruned(path, old(n.tree).content[i])])
    decreases n.repr, 0, 0
  {
    ghost var before := n.repr;
    PruneKnownDefaults(path, n.content[i]);
    Rejoin(n, i, before);
  }

  /** One pair of a new mapping: prune its value in place, and say whether the pair is kept. */
  method PrunePair(path: Path, n: YamlNode, i: nat) returns (keep: bool)
    requires n.Valid() && n.kind == Mapping && i < Pairs(n.tree.content)
    modifies n.repr
    ensures n.Valid() && n.repr == old(n.repr) && n.content == old(n.content)
    ensures n.tree == old(n.tree).(content := n.tree.content)
    ensures forall k | 0 <= k < |n.content| && k != 2 * i + 1 :: n.tree.content[k] == old(n.tree).content[k]
    ensures PrunedPair(path, old(n.tree), i)
            == if keep then [n.tree.content[2 * i], n.tree.content[2 * i + 1]] else []
    decreases n.repr, 0, 1
  {
    assert n.content[2 * i] in n.content && n.content[2 * i + 1] in n.content;
    var child := path + [n.content[2 * i].value];
    var value := View(n.content[2 * i + 1]);
    if IsKnownDefault(child, value) { return false; }
    PruneChild(child, n, 2 * i + 1);
    assert n.content[2 * i + 1] in n.content;
    keep := !((n.content[2 * i + 1].kind == Mapping || n.content[2 * i + 1].kind == Sequence)
              && |n.content[2 * i + 1].content| == 0);
  }

  /** The first i pairs of t have been pruned in place; the children kept among them are known. */
  ghost predicate PrunedSoFar(path: Path, t: Node, now: Node, kept: seq<nat>, i: nat) {
    (&& |now.content| == |t.content| && i <= Pairs(t.content) && now == t.(content := now.content)
     && (forall k | 2 * i <= k < |t.content| :: now.content[k] == t.content[k])
     && Increasing(kept, 2 * i)
     && PrunedPairs(path, t, 0) == At(now.content, kept) + PrunedPairs(path, t, i)) == true
  }

  lemma PrunedOneMore(path: Path, t: Node, was: Node, now: Node, kept: seq<nat>, i: nat, keep: bool)
    requires PrunedSoFar(path, t, was, kept, i) && i < Pairs(t.content)
    requires |now.content| == |was.content| && now == was.(content := now.content)
    requires forall k | 0 <= k < |now.content| && k != 2 * i + 1 :: now.content[k] == was.content[k]
    requires PrunedPair(path, was, i) == if keep then [now.content[2 * i], now.content[2 * i + 1]] else []
    ensures PrunedSoFar(path, t, now, if keep then kept + [2 * i, 2 * i + 1] else kept, i + 1)
  {
    PrunedPairOnlyReadsItsPair(path, was, t, i);
    AtOneMore(was.content, now.content, kept, i, keep);
    Associate(At(was.content, kept), PrunedPair(path, t, i), PrunedPairs(path, t, i + 1));
  }

  lemma PrunedAtEnd(path: Path, t: Node, now: Node, kept: seq<nat>)
    requires t.kind == Mapping && PrunedSoFar(path, t, now, kept, Pairs(t.content))
    ensures now.(content := At(now.content, kept)) == Pruned(path, t)
  {
    assert PrunedPairs(path, t, Pairs(t.content)) == [];
    assert At(now.content, kept) + [] == At(now.content, kept);
  }

  method PrunePairsInPlace(path: Path, n: YamlNode) returns (kept: seq<nat>)
    requires n.Valid() && n.kind == Mapping
    modifies n.repr
    ensures n.Valid() && n.repr == old(n.repr) && n.content == old(n.content)
    ensures PrunedSoFar(path, old(n.tree), n.tree, kept, Pairs(old(n.tree).content))
    decreases n.repr, 0, 3
  {
    ghost var t := n.tree;
    kept := [];
    assert At(t.content, []) == [];
    var i := 0;
    while i < |n.content| / 2
      invariant n.Valid() && n.repr == old(n.repr) && n.content == old(n.content)
      invariant i <= |n.content| / 2 && PrunedSoFar(path, t, n.tree, kept, i)
    {
      kept := PruneNextPair(path, n, t, kept, i);
      i := i + 1;
    }
  }

  method PruneNextPair(path: Path, n: YamlNode, ghost t: Node, kept: seq<nat>, i: nat) returns (more: seq<nat>)
    requires n.Valid() && n.kind == Mapping && i < Pairs(t.content) && PrunedSoFar(path, t, n.tree, kept, i)
    modifies n.repr
    ensures n.Valid() && n.repr == old(n.repr) && n.content == old(n.content)
    ensures PrunedSoFar(path, t, n.tree, more, i + 1)
    decreases n.repr, 0, 2
  {
    ghost var was := n.tree;
    var keep := PrunePair(path, n, i);
    PrunedOneMore(path, t, was, n.tree, kept, i, keep);
    more := if keep then kept + [2 * i, 2 * i + 1] else kept;
  }

  method PruneMapping(path: Path, n: YamlNode)
    requires n.Valid() && n.kind == Mapping
    modifies n.repr
    ensures n.Valid() && n.repr == old(n.repr) && n.tree == Pruned(path, old(n.tree))
    decreases n.repr, 0, 4
  {
    var kept := PrunePairsInPlace(path, n);
    PrunedAtEnd(path, old(n.tree), n.tree, kept);
    KeepOnly(n, kept);
  }

  // ---------------------------------------------------------------- pruning a matched element

  /** The trimmed, non-blank keys of a mapping. */
  method CollectKeys(n: YamlNode) returns (keep: set<string>)
    requires n.Valid() && n.kind == Mapping
    ensures keep == KeptKeys(n.tree.content)
  {
    keep := {};
    for i := 0 to |n.content| / 2
      invariant forall k | 0 <= k < i && Text.Trim(n.tree.content[2 * k].value) != "" ::
                Text.Trim(n.tree.content[2 * k].value) in keep
      invariant forall key | key in keep :: key in KeptKeys(n.tree.content)
    {
      assert n.content[2 * i] in n.content && n.tree.content[2 * i] == n.content[2 * i].tree;
      var key := Text.Trim(n.content[2 * i].value);
      if key != "" { keep := keep + {key}; }
    }
  }

  ghost predicate KeptSoFar(c: seq<Node>, keep: set<string>, kept: seq<nat>, i: nat) {
    (&& i <= Pairs(c) && Increasing(kept, 2 * i)
     && KeepPairs(c, keep, 0) == At(c, kept) + KeepPairs(c, keep, i)) == true
  }

  lemma KeptOneMore(c: seq<Node>, keep: set<string>, kept: seq<nat>, i: nat)
    requires KeptSoFar(c, keep, kept, i) && i < Pairs(c)
    ensures KeptSoFar(c, keep, if Text.Trim(c[2 * i].value) in keep then kept + [2 * i, 2 * i + 1] else kept, i + 1)
  {
    var wanted := Text.Trim(c[2 * i].value) in keep;
    AtOneMore(c, c, kept, i, wanted);
    KeepPairsStep(c, keep, i);
    Associate(At(c, kept), if wanted then [c[2 * i], c[2 * i + 1]] else [], KeepPairs(c, keep, i + 1));
  }

  lemma KeptAtEnd(c: seq<Node>, keep: set<string>, kept: seq<nat>)
    requires KeptSoFar(c, keep, kept, Pairs(c))
    ensures var all := if |c| % 2 == 1 then kept + [|c| - 1] else kept;
            Increasing(all, |c|) && At(c, all) == KeepPairs(c, keep, 0)
  {
    if |c| % 2 == 1 {
      assert c[2 * Pairs(c)..] == [c[|c| - 1]];
    } else {
      assert c[2 * Pairs(c)..] == [];
    }
  }

  /** The numbers of the children that pruning keeps. */
  method SelectPairs(c: seq<Node>, keep: set<string>) returns (kept: seq<nat>)
    ensures Increasing(kept, |c|) && At(c, kept) == KeepPairs(c, keep, 0)
  {
    kept := [];
    assert At(c, []) == [];
    for i := 0 to |c| / 2
      invariant KeptSoFar(c, keep, kept, i)
    {
      KeptOneMore(c, keep, kept, i);
      if Text.Trim(c[2 * i].value) in keep { kept := kept + [2 * i, 2 * i + 1]; }
    }
    KeptAtEnd(c, keep, kept);
    if |c| % 2 == 1 { kept := kept + [|c| - 1]; }
  }

  method PruneMissingMapKeys(dst: YamlNode, src: YamlNode)
    requires dst.Valid() && src.Valid() && dst.repr !! src.repr
    modifies dst
    ensures dst.Valid() && dst.repr == old(dst.repr) && dst.tree == PruneMissing(old(dst.tree), src.tree)
  {
    if dst.kind != Mapping || src.kind != Mapping { return; }
    var keep := CollectKeys(src);
    var c := Views(dst);
    var kept := SelectPairs(c, keep);
    KeepOnly(dst, kept);
  }

  // ---------------------------------------------------------------- matching sequence elements

  method MatchSequenceElement(original: seq<Node>, used: set<nat>, target: Node) returns (j: int)
    ensures j == if Match(original, used, target) < |original| then Match(original, used, target) else -1
  {
    for i := 0 to |original|
      invariant forall k | 0 <= k < i :: k in used || !SameIdentity(original[k], target)
    {
      if i !in used && SameIdentity(original[i], target) {
        FirstUnusedIs(original, used, n => SameIdentity(n, target), i);
        return i;
      }
    }
    FirstUnusedIs(original, used, n => SameIdentity(n, target), |original|);
    for i := 0 to |original|
      invariant forall k | 0 <= k < i :: k in used || !StructurallyEqual(original[k], target)
    {
      if i !in used && StructurallyEqual(original[i], target) {
        FirstUnusedIs(original, used, n => StructurallyEqual(n, target), i);
        return i;
      }
    }
    FirstUnusedIs(original, used, n => StructurallyEqual(n, target), |original|);
    return -1;
  }

  lemma FirstUnusedIs(original: seq<Node>, used: set<nat>, p: Node -> bool, j: nat)
    requires j <= |original| && (j < |original| ==> j !in used && p(original[j]))
    requires forall k | 0 <= k < j :: k in used || !p(original[k])
    ensures FirstUnused(original, used, p, 0) == j
  {}

  method Views(n: YamlNode) returns (v: seq<Node>)
    requires n.Valid()
    ensures v == n.tree.content
  {
    var all := View(n);
    v := all.content;
  }

  lemma OneMoreChoice(original: seq<Node>, targets: seq<Node>, m: seq<nat>, i: nat)
    requires i < |targets| && m == Matches(original, targets, i)
    ensures Matches(original, targets, i + 1) == m + [Match(original, Taken(m, |original|), targets[i])]
  {}

  /** For each source element the number of the original element it takes over, or the number of elements. */
  method MatchAll(original: seq<Node>, targets: seq<Node>) returns (m: seq<nat>)
    ensures m == Matches(original, targets, |targets|)
  {
    var used: set<nat> := {};
    m := [];
    for i := 0 to |targets|
      invariant m == Matches(original, targets, i) && used == Taken(m, |original|)
    {
      var j := MatchSequenceElement(original, used, targets[i]);
      var choice: nat := if j >= 0 then j else |original|;
      OneMoreChoice(original, targets, m, i);
      TakenMore(m, |original|, choice);
      m := m + [choice];
      if j >= 0 { used := used + {j}; }
    }
  }

  method ReorderSequence(dst: YamlNode, src: YamlNode) returns (m: seq<nat>)
    requires dst.Valid() && src.Valid()
    ensures m == Matches(dst.tree.content, src.tree.content, |src.content|)
  {
    var original := Views(dst);
    var targets := Views(src);
    m := MatchAll(original, targets);
  }

  lemma TakenMore(m: seq<nat>, none: nat, j: nat)
    ensures Taken(m + [j], none) == Taken(m, none) + if j < none then {j} else {}
  {
    forall x ensures x in Taken(m + [j], none) <==> x in Taken(m, none) + if j < none then {j} else {} {
      if x in Taken(m, none) {
        var i :| 0 <= i < |m| && m[i] < none && m[i] == x;
        assert (m + [j])[i] == x;
      }
      if x == j < none { assert (m + [j])[|m|] == x; }
    }
  }

  // ---------------------------------------------------------------- the merge

  /** Merge a source value into one child in place. */
  method MergeChild(dst: YamlNode, j: nat, sv: YamlNode, path: Path)
    requires dst.Valid() && sv.Valid() && dst.repr !! sv.repr && j < |dst.content|
    modifies dst.repr
    ensures dst.Valid() && fresh(dst.repr - old(dst.repr))
    ensures var c := old(dst.tree).content;
            dst.tree == old(dst.tree).(content := c[j := MergeNode(c[j], sv.tree, path)])
    decreases sv.repr, 5
  {
    ghost var before := dst.repr;
    MergeNodePreserve(dst.content[j], sv, path);
    Rejoin(dst, j, before);
  }

  /** Append a new pair, made of nodes of its own. */
  method AppendNodes(dst: YamlNode, key: YamlNode, value: YamlNode)
    requires dst.Valid() && key.Valid() && value.Valid()
    requires dst.repr !! key.repr && dst.repr !! value.repr && key.repr !! value.repr
    modifies dst
    ensures dst.Valid() && dst.repr == old(dst.repr) + key.repr + value.repr
    ensures dst.tree == old(dst.tree).(content := AppendPair(old(dst.tree).content, key.tree, value.tree))
  {
    ChildrenForest(dst);
    ForestAppend(dst.content, dst.repr - {dst}, key);
    ForestAppend(dst.content + [key], dst.repr - {dst} + key.repr, value);
    var kids := dst.content + [key] + [value];
    Become(dst, dst.kind, dst.tag, dst.value, kids, dst.repr - {dst} + key.repr + value.repr);
    assert dst.tree.content == old(dst.tree).content + [key.tree, value.tree];
  }

  /** A fresh copy of a new value in pruned form, and whether that is worth writing out. */
  method PrunedCopy(path: Path, n: YamlNode) returns (copy: YamlNode, keep: bool)
    requires n.Valid()
    ensures copy.Valid() && fresh(copy.repr) && copy.tree == Pruned(path, n.tree)
    ensures keep <==> !Droppable(path, n.tree)
  {
    copy := DeepCopy(n);
    PruneKnownDefaults(path, copy);
    var pruned := View(copy);
    keep := !IsKnownDefault(path, pruned);
  }

  /** A key the destination does not have: append its value in pruned form, unless that is droppable. */
  method AddNewKey(dst: YamlNode, sk: YamlNode, sv: YamlNode, childPath: Path)
    requires dst.Valid() && sk.Valid() && sv.Valid() && dst !in sk.repr && dst !in sv.repr
    modifies dst
    ensures dst.Valid() && fresh(dst.repr - old(dst.repr))
    ensures dst.tree == if Droppable(childPath, sv.tree) then old(dst.tree)
                        else old(dst.tree).(content :=
                            AppendPair(old(dst.tree).content, sk.tree, Pruned(childPath, sv.tree)))
  {
    var candidate, keep := PrunedCopy(childPath, sv);
    if !keep { return; }
    var key := DeepCopy(sk);
    AppendNodes(dst, key, candidate);
  }

  /** One key of the source mapping: merged in place, appended in pruned form, or left out. */
  method MergeKeyInto(dst: YamlNode, sk: YamlNode, sv: YamlNode, path: Path)
    requires dst.Valid() && sk.Valid() && sv.Valid() && dst.repr !! sk.repr && dst.repr !! sv.repr
             && dst.kind == Mapping
    modifies dst.repr
    ensures dst.Valid() && fresh(dst.repr - old(dst.repr))
    ensures dst.tree == old(dst.tree).(content := MergeKey(old(dst.tree).content, sk.tree, sv.tree, path))
    decreases sv.repr, 6
  {
    ghost var t, j := dst.tree, Find(dst.tree.content, sk.tree.value);
    var idx := FindMapKeyIndex(dst, sk.value);
    assert sk.tree.value == sk.value && (if j < Pairs(t.content) then idx == 2 * j else idx == -1);
    var childPath := path + [sk.value];
    if idx >= 0 {
      MergeChild(dst, idx + 1, sv, childPath);
    } else {
      AddNewKey(dst, sk, sv, childPath);
    }
  }

  method MergePairInto(dst: YamlNode, src: YamlNode, path: Path, i: nat)
    requires dst.Valid() && src.Valid() && dst.repr !! src.repr
    requires dst.kind == Mapping && src.kind == Mapping && i < Pairs(src.tree.content)
    modifies dst.repr
    ensures dst.Valid() && fresh(dst.repr - old(dst.repr))
    ensures dst.tree == old(dst.tree).(content := MergePair(old(dst.tree).content, src.tree, path, i))
    decreases src.repr, 0
  {
    var sk, sv := src.content[2 * i], src.content[2 * i + 1];
    assert sk in src.content && sv in src.content;
    assert src.tree.content[2 * i] == sk.tree && src.tree.content[2 * i + 1] == sv.tree;
    MergeKeyInto(dst, sk, sv, path);
  }

  /** The first i pairs of the source have been merged into what was t. */
  ghost predicate PairsMerged(now: Node, t: Node, src: Node, path: Path, i: nat) {
    (i <= Pairs(src.content) && now == t.(content := MergePairs(t.content, src, path, i))) == true
  }

  lemma OneMorePair(now: Node, next: Node, t: Node, src: Node, path: Path, i: nat)
    requires PairsMerged(now, t, src, path, i) && i < Pairs(src.content)
    requires next == now.(content := MergePair(now.content, src, path, i))
    ensures PairsMerged(next, t, src, path, i + 1)
  {}

  method MergeNextPair(dst: YamlNode, src: YamlNode, path: Path, i: nat, ghost t: Node)
    requires dst.Valid() && src.Valid() && dst.repr !! src.repr
    requires dst.kind == Mapping && src.kind == Mapping && i < Pairs(src.tree.content)
    requires PairsMerged(dst.tree, t, src.tree, path, i)
    modifies dst.repr
    ensures dst.Valid() && dst.kind == Mapping && fresh(dst.repr - old(dst.repr))
    ensures PairsMerged(dst.tree, t, src.tree, path, i + 1)
    decreases src.repr, 1
  {
    ghost var was := dst.tree;
    MergePairInto(dst, src, path, i);
    OneMorePair(was, dst.tree, t, src.tree, path, i);
  }

  method MergeAllPairs(dst: YamlNode, src: YamlNode, path: Path)
    requires dst.Valid() && src.Valid() && dst.repr !! src.repr && dst.kind == Mapping && src.kind == Mapping
    modifies dst.repr
    ensures dst.Valid() && fresh(dst.repr - old(dst.repr))
    ensures dst.tree == old(dst.tree).(content :=
            MergePairs(old(dst.tree).content, src.tree, path, Pairs(src.tree.content)))
    decreases src.repr, 2
  {
    ghost var t := dst.tree;
    var i, n := 0, |src.content| / 2;
    while i < n
      invariant i <= n == Pairs(src.tree.content) && src.Valid() && fresh(dst.repr - old(dst.repr))
      invariant dst.kind == Mapping
      invariant dst.Valid() && PairsMerged(dst.tree, t, src.tree, path, i)
    {
      MergeNextPair(dst, src, path, i, t);
      i := i + 1;
    }
  }

  method MergeMappingPreserve(dst: YamlNode, src: YamlNode, path: Path)
    requires dst.Valid() && src.Valid() && dst.repr !! src.repr
    modifies dst.repr
    ensures dst.Valid() && fresh(dst.repr - old(dst.repr))
    ensures dst.tree == MergeMapping(old(dst.tree), src.tree, path)
    decreases src.repr, 3
  {
    if dst.kind != Mapping || src.kind != Mapping {
      CopyNodeShallow(dst, src);
    } else {
      MergeAllPairs(dst, src, path);
    }
  }

  /** Source element i merged into the original it takes over, or copied if it takes over none. */
  method MergeElementAt(original: seq<YamlNode>, src: YamlNode, i: nat, j: nat, path: Path) returns (element: YamlNode)
    requires src.Valid() && i < |src.content|
    requires j < |original| ==> original[j].Valid() && original[j].repr !! src.repr
    modifies if j < |original| then original[j].repr else {}
    ensures element.Valid()
    ensures j < |original| ==>
              && element == original[j] && fresh(element.repr - old(original[j].repr))
              && element.tree
                 == PruneMissing(MergeNode(old(original[j].tree), src.tree.content[i], path), src.tree.content[i])
    ensures j >= |original| ==> fresh(element.repr) && element.tree == src.tree.content[i]
    decreases src.repr, 0
  {
    assert src.content[i] in src.content;
    if j < |original| {
      element := original[j];
      MergeNodePreserve(element, src.content[i], path);
      PruneMissingMapKeys(element, src.content[i]);
    } else {
      element := DeepCopy(src.content[i]);
    }
  }

  lemma OneMoreElement(dst: seq<Node>, src: Node, path: Path, i: nat)
    requires i < |src.content|
    ensures MergeElements(dst, src, path)[..i + 1]
            == MergeElements(dst, src, path)[..i] + [MergeElement(dst, src, path, i)]
  {}

  ghost predicate Apart(reprs: seq<set<YamlNode>>, pool: set<YamlNode>) {
    && (forall q | 0 <= q < |reprs| :: reprs[q] <= pool)
    && (forall p, q | 0 <= p < |reprs| && 0 <= q < |reprs| && p != q :: reprs[p] !! reprs[q])
  }

  /** An original that no source element has taken over yet is as it was, apart from everything merged so far. */
  ghost predicate Waiting(n: YamlNode, tree: Node, repr: set<YamlNode>, owned: set<YamlNode>, pool: set<YamlNode>)
    reads n, pool
  {
    (n.repr == repr && repr <= pool && n.Valid() && n.tree == tree && repr !! owned) == true
  }

  /** What holds after the first i source elements: out is merged, the rest of the originals wait untouched. */
  ghost predicate MergedSoFar(original: seq<YamlNode>, pool: set<YamlNode>, src: Node, path: Path, m: seq<nat>, i: nat,
                              out: seq<YamlNode>, owned: set<YamlNode>, before: seq<Node>, reprs: seq<set<YamlNode>>)
    requires |before| == |reprs| == |original| && i <= |m| == |src.content|
    reads out, owned, original, pool
  {
    (&& Forest(out, owned)
     && (forall q | 0 <= q < |original| && q !in m[..i] :: Waiting(original[q], before[q], reprs[q], owned, pool))
     && Trees(out) == MergeElements(before, src, path)[..i]) == true
  }

  lemma NotTakenBefore(before: seq<Node>, targets: seq<Node>, m: seq<nat>, i: nat)
    requires i < |m| && m == Matches(before, targets, |targets|)
    ensures m[i] < |before| ==> m[i] !in m[..i]
  {
    MatchesInjective(before, targets, |targets|);
  }

  lemma ElementIsMerged(before: seq<Node>, src: Node, path: Path, m: seq<nat>, i: nat, tree: Node)
    requires i < |m| == |src.content| && m == Matches(before, src.content, |src.content|)
    requires tree == if m[i] < |before|
                     then PruneMissing(MergeNode(before[m[i]], src.content[i], path), src.content[i])
                     else src.content[i]
    ensures tree == MergeElement(before, src, path, i)
  {}

  lemma AppendMerged(out: seq<YamlNode>, owned: set<YamlNode>, element: YamlNode, before: seq<Node>, src: Node,
                     path: Path, i: nat)
    requires Forest(out, owned) && element.Valid() && element.repr !! owned && i < |src.content|
    requires Trees(out) == MergeElements(before, src, path)[..i] && element.tree == MergeElement(before, src, path, i)
    ensures Forest(out + [element], owned + element.repr)
    ensures Trees(out + [element]) == MergeElements(before, src, path)[..i + 1]
  {
    ForestAppend(out, owned, element);
    OneMoreElement(before, src, path, i);
  }

  lemma MergedOneMore(original: seq<YamlNode>, pool: set<YamlNode>, src: Node, path: Path, m: seq<nat>, i: nat,
                      out: seq<YamlNode>, owned: set<YamlNode>, before: seq<Node>, reprs: seq<set<YamlNode>>,
                      element: YamlNode)
    requires |before| == |reprs| == |original| && i < |m| == |src.content|
    requires Forest(out, owned) && Trees(out) == MergeElements(before, src, path)[..i]
    requires element.Valid() && element.repr !! owned && element.tree == MergeElement(before, src, path, i)
    requires forall q | 0 <= q < |original| && q !in m[..i + 1] ::
               Waiting(original[q], before[q], reprs[q], owned + element.repr, pool)
    ensures MergedSoFar(original, pool, src, path, m, i + 1, out + [element], owned + element.repr, before, reprs)
  {
    AppendMerged(out, owned, element, before, src, path, i);
  }

  lemma NothingMergedYet(original: seq<YamlNode>, pool: set<YamlNode>, src: Node, path: Path, m: seq<nat>,
                         before: seq<Node>, reprs: seq<set<YamlNode>>)
    requires Forest(original, pool) && |m| == |src.content| && |before| == |reprs| == |original|
    requires forall q | 0 <= q < |original| :: before[q] == original[q].tree && reprs[q] == original[q].repr
    ensures Apart(reprs, pool) && MergedSoFar(original, pool, src, path, m, 0, [], {}, before, reprs)
  {}

  method MergeNext(original: seq<YamlNode>, ghost pool: set<YamlNode>, src: YamlNode, m: seq<nat>, path: Path, i: nat,
                   out: seq<YamlNode>, ghost owned: set<YamlNode>, ghost before: seq<Node>,
                   ghost reprs: seq<set<YamlNode>>)
    returns (element: YamlNode)
    requires |before| == |reprs| == |original| && i < |m| == |src.content| && Apart(reprs, pool)
    requires src.Valid() && pool !! src.repr
    requires m == Matches(before, src.tree.content, |src.content|)
    requires MergedSoFar(original, pool, src.tree, path, m, i, out, owned, before, reprs)
    modifies pool
    ensures element.Valid() && element.repr !! owned && fresh(element.repr - pool)
    ensures MergedSoFar(original, pool, src.tree, path, m, i + 1, out + [element], owned + element.repr, before, reprs)
    decreases src.repr, 1
  {
    NotTakenBefore(before, src.tree.content, m, i);
    assert m[i] < |original| ==> Waiting(original[m[i]], before[m[i]], reprs[m[i]], owned, pool);
    ghost var touched := if m[i] < |original| then reprs[m[i]] else {};
    element := MergeElementAt(original, src, i, m[i], path);
    assert fresh(element.repr - touched) && touched !! owned;
    forall q | 0 <= q < |original| && q !in m[..i + 1]
      ensures Waiting(original[q], before[q], reprs[q], owned + element.repr, pool)
    {
      assert q !in m[..i] && reprs[q] !! touched;
      assert old(Waiting(original[q], before[q], reprs[q], owned, pool));
    }
    assert Forest(out, owned) && Trees(out) == old(Trees(out));
    ElementIsMerged(before, src.tree, path, m, i, element.tree);
    MergedOneMore(original, pool, src.tree, path, m, i, out, owned, before, reprs, element);
  }

  /** Merge the source elements into the originals they take over; an unmatched one is copied. */
  method MergeInto(original: seq<YamlNode>, ghost pool: set<YamlNode>, src: YamlNode, m: seq<nat>, path: Path)
    returns (out: seq<YamlNode>, ghost owned: set<YamlNode>)
    requires Forest(original, pool) && src.Valid() && pool !! src.repr
    requires m == Matches(Trees(original), src.tree.content, |src.content|)
    modifies pool
    ensures Forest(out, owned) && fresh(owned - pool)
    ensures Trees(out) == MergeElements(old(Trees(original)), src.tree, path)
    decreases src.repr, 2
  {
    ghost var before := Trees(original);
    ghost var reprs := seq(|original|, i requires 0 <= i < |original| reads original => original[i].repr);
    NothingMergedYet(original, pool, src.tree, path, m, before, reprs);
    out, owned := MergeEach(original, pool, src, m, path, before, reprs);
    assert MergeElements(before, src.tree, path)[..|m|] == MergeElements(before, src.tree, path);
  }

  method MergeEach(original: seq<YamlNode>, ghost pool: set<YamlNode>, src: YamlNode, m: seq<nat>, path: Path,
                   ghost before: seq<Node>, ghost reprs: seq<set<YamlNode>>)
    returns (out: seq<YamlNode>, ghost owned: set<YamlNode>)
    requires |before| == |reprs| == |original| && |m| == |src.content| && Apart(reprs, pool)
    requires src.Valid() && pool !! src.repr
    requires m == Matches(before, src.tree.content, |src.content|)
    requires MergedSoFar(original, pool, src.tree, path, m, 0, [], {}, before, reprs)
    modifies pool
    ensures fresh(owned - pool) && MergedSoFar(original, pool, src.tree, path, m, |m|, out, owned, before, reprs)
    decreases src.repr, 2, 0
  {
    out, owned := [], {};
    var i := 0;
    while i < |src.content|
      invariant i <= |src.content| && src.Valid() && fresh(owned - pool)
      invariant MergedSoFar(original, pool, src.tree, path, m, i, out, owned, before, reprs)
    {
      var element := MergeNext(original, pool, src, m, path, i, out, owned, before, reprs);
      out := out + [element];
      owned := owned + element.repr;
      i := i + 1;
    }
  }

  method MergeSequence(dst: YamlNode, src: YamlNode, path: Path)
    requires dst.Valid() && src.Valid() && dst.repr !! src.repr
    requires dst.kind == Sequence && src.kind == Sequence
    modifies dst.repr
    ensures dst.Valid() && fresh(dst.repr - old(dst.repr))
    ensures dst.tree == old(dst.tree).(content := MergeElements(old(dst.tree).content, src.tree, path))
    decreases src.repr, 3
  {
    ghost var pool := dst.repr - {dst};
    var original := dst.content;
    var m := ReorderSequence(dst, src);
    assert Trees(original) == dst.tree.content;
    ghost var owned;
    var out;
    out, owned := MergeInto(original, pool, src, m, path);
    Become(dst, dst.kind, dst.tag, dst.value, out, owned);
  }

  method MergeNodePreserve(dst: YamlNode, src: YamlNode, path: Path)
    requires dst.Valid() && src.Valid() && dst.repr !! src.repr
    modifies dst.repr
    ensures dst.Valid() && fresh(dst.repr - old(dst.repr))
    ensures dst.tree == MergeNode(old(dst.tree), src.tree, path)
    decreases src.repr, 4
  {
    match src.kind
    case Mapping =>
      if dst.kind != Mapping { CopyNodeShallow(dst, src); }
      MergeMappingPreserve(dst, src, path);
    case Sequence =>
      if dst.kind == Scalar && dst.tag == "!!null" && |src.content| == 0 { return; }
      if dst.kind != Sequence { Become(dst, Sequence, "!!seq", dst.value, [], {}); }
      MergeSequence(dst, src, path);
    case Scalar => Relabel(dst, src);
    case Alias => Relabel(dst, src);
    case NoKind =>
    case Document => CopyNodeShallow(dst, src);
  }

  /** Take over kind, tag and value; children and notes stay. */
  method Relabel(dst: YamlNode, src: YamlNode)
    requires dst.Valid() && src.Valid() && dst.repr !! src.repr
    modifies dst
    ensures dst.Valid() && dst.repr == old(dst.repr)
    ensures dst.tree == old(dst.tree).(kind := src.tree.kind, tag := src.tree.tag, value := src.tree.value)
  {
    dst.kind, dst.tag, dst.value := src.kind, src.tag, src.value;
    dst.tree := dst.tree.(kind := src.kind, tag := src.tag, value := src.value);
  }
}
