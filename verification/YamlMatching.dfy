/**
  How sequence elements are recognised, said of the keys and texts themselves, and what that means for the merge: an
  element that only one original resembles takes that one over, comments and all.
 */
module YamlMatching {
  import opened Prelude
  import opened YamlTrees
  import opened YamlMerge
  import Text

  // ---------------------------------------------------------------- identities

  /** Pair number i is a scalar under the given name, upper or lower case. */
  predicate ScalarNamed(c: seq<Node>, i: nat, name: string)
    requires i < Pairs(c)
  {
    c[2 * i + 1].kind == Scalar && Text.ToLower(Text.Trim(c[2 * i].value)) == name
  }

  /** The first scalar under a name counts, and if there is none the text is empty. */
  lemma {:induction false} FirstScalarCounts(c: seq<Node>, name: string, from: nat, i: nat)
    requires from <= i <= Pairs(c) && (i < Pairs(c) ==> ScalarNamed(c, i, name))
    requires forall j | from <= j < i :: !ScalarNamed(c, j, name)
    ensures ScalarUnder(c, name, from) == if i < Pairs(c) then Text.Trim(c[2 * i + 1].value) else ""
    decreases i - from
  {
    if from < i {
      assert !ScalarNamed(c, from, name);
      FirstScalarCounts(c, name, from + 1, i);
    }
  }

  const NAMES: seq<string> := ["id", "name", "alias", "api-key", "api_key", "apikey", "key", "provider", "model"]

  lemma {:induction false} FirstNameCounts(c: seq<Node>, from: nat, k: nat)
    requires from <= k <= |NAMES| && (k < |NAMES| ==> ScalarUnder(c, NAMES[k], 0) != "")
    requires forall j | from <= j < k :: ScalarUnder(c, NAMES[j], 0) == ""
    ensures IdentityByKey(c, from) == if k < |NAMES| then NAMES[k] + "=" + ScalarUnder(c, NAMES[k], 0) else ""
    decreases k - from
  {
    assert NAMES == IDENTITY_KEYS;
    if from < k { FirstNameCounts(c, from + 1, k); }
  }

  /** A mapping is known by the first of the names under which it has a text. */
  lemma KnownByName(n: Node, k: nat)
    requires n.kind == Mapping && k < |NAMES| && ScalarUnder(n.content, NAMES[k], 0) != ""
    requires forall j | 0 <= j < k :: ScalarUnder(n.content, NAMES[j], 0) == ""
    ensures Identity(n) == NAMES[k] + "=" + ScalarUnder(n.content, NAMES[k], 0)
  {
    FirstNameCounts(n.content, 0, k);
  }

  predicate HasText(c: seq<Node>, i: nat)
    requires i < Pairs(c)
  {
    c[2 * i + 1].kind == Scalar && Text.Trim(c[2 * i + 1].value) != ""
  }

  lemma {:induction false} FirstTextCounts(c: seq<Node>, from: nat, i: nat)
    requires from <= i <= Pairs(c) && (i < Pairs(c) ==> HasText(c, i))
    requires forall j | from <= j < i :: !HasText(c, j)
    ensures IdentityByFirstScalar(c, from)
            == if i < Pairs(c)
               then Text.ToLower(Text.Trim(c[2 * i].value)) + "=" + Text.Trim(c[2 * i + 1].value) else ""
    decreases i - from
  {
    if from < i {
      assert !HasText(c, from);
      FirstTextCounts(c, from + 1, i);
    }
  }

  /** Without a text under any of the names it is known by its first text, or not at all. */
  lemma KnownByFirstText(n: Node, i: nat)
    requires n.kind == Mapping && i <= Pairs(n.content) && (i < Pairs(n.content) ==> HasText(n.content, i))
    requires forall j | 0 <= j < i :: !HasText(n.content, j)
    requires forall k | 0 <= k < |NAMES| :: ScalarUnder(n.content, NAMES[k], 0) == ""
    ensures Identity(n)
            == if i < Pairs(n.content)
               then Text.ToLower(Text.Trim(n.content[2 * i].value)) + "=" + Text.Trim(n.content[2 * i + 1].value)
               else ""
  {
    FirstNameCounts(n.content, 0, |NAMES|);
    FirstTextCounts(n.content, 0, i);
  }

  // ---------------------------------------------------------------- structure

  const NOTHING := Node(NoKind, "", "", "", [])

  /** What structure looks at: kinds, the number of children, the children's shapes, and trimmed texts. */
  function Shape(n: Node): Node
    decreases n
  {
    match n.kind
    case Mapping =>
      Node(Mapping, "", "", "",
           seq(|n.content|, i requires 0 <= i < |n.content| =>
                              if i < 2 * Pairs(n.content) then Shape(n.content[i]) else NOTHING))
    case Sequence =>
      Node(Sequence, "", "", "", seq(|n.content|, i requires 0 <= i < |n.content| => Shape(n.content[i])))
    case _ => Node(n.kind, "", Text.Trim(n.value), "", [])
  }

  /** Two trees are structurally equal exactly if they have the same shape. */
  lemma {:induction false} StructurallyEqualIff(a: Node, b: Node)
    ensures StructurallyEqual(a, b) <==> Shape(a) == Shape(b)
    decreases a
  {
    if a.kind == b.kind && (a.kind == Mapping || a.kind == Sequence) && |a.content| == |b.content| {
      var n := if a.kind == Mapping then 2 * Pairs(a.content) else |a.content|;
      forall i | 0 <= i < n
        ensures StructurallyEqual(a.content[i], b.content[i]) <==> Shape(a.content[i]) == Shape(b.content[i])
        ensures Shape(a).content[i] == Shape(a.content[i]) && Shape(b).content[i] == Shape(b.content[i])
      {
        StructurallyEqualIff(a.content[i], b.content[i]);
      }
      if forall i | 0 <= i < n :: StructurallyEqual(a.content[i], b.content[i]) {
        assert Shape(a).content == Shape(b).content;
      }
    }
  }

  /** Pair by pair, the keys say the same and the values are of one kind, scalars with the same text. */
  predicate Correspond(a: seq<Node>, b: seq<Node>) {
    && |a| == |b|
    && (forall i | 0 <= i < Pairs(a) :: Text.Trim(a[2 * i].value) == Text.Trim(b[2 * i].value))
    && (forall i | 0 <= i < Pairs(a) ::
          && a[2 * i + 1].kind == b[2 * i + 1].kind
          && (a[2 * i + 1].kind == Scalar ==> Text.Trim(a[2 * i + 1].value) == Text.Trim(b[2 * i + 1].value)))
  }

  /** Keys are plain scalars, as in any configuration. */
  predicate ScalarKeys(n: Node) { forall i | 0 <= i < Pairs(n.content) :: n.content[2 * i].kind == Scalar }

  lemma EqualsCorrespond(a: Node, b: Node)
    requires a.kind == b.kind == Mapping && StructurallyEqual(a, b) && ScalarKeys(a)
    ensures Correspond(a.content, b.content)
  {
    forall i | 0 <= i < Pairs(a.content)
      ensures Text.Trim(a.content[2 * i].value) == Text.Trim(b.content[2 * i].value)
      ensures a.content[2 * i + 1].kind == b.content[2 * i + 1].kind
      ensures a.content[2 * i + 1].kind == Scalar ==>
                Text.Trim(a.content[2 * i + 1].value) == Text.Trim(b.content[2 * i + 1].value)
    {
      assert StructurallyEqual(a.content[2 * i], b.content[2 * i]);
      assert StructurallyEqual(a.content[2 * i + 1], b.content[2 * i + 1]);
    }
  }

  lemma {:induction false} SameScalarUnder(a: seq<Node>, b: seq<Node>, name: string, i: nat)
    requires Correspond(a, b) && i <= Pairs(a)
    ensures ScalarUnder(a, name, i) == ScalarUnder(b, name, i)
    decreases Pairs(a) - i
  {
    if i < Pairs(a) { SameScalarUnder(a, b, name, i + 1); }
  }

  lemma {:induction false} SameByKey(a: seq<Node>, b: seq<Node>, k: nat)
    requires Correspond(a, b) && k <= |IDENTITY_KEYS|
    ensures IdentityByKey(a, k) == IdentityByKey(b, k)
    decreases |IDENTITY_KEYS| - k
  {
    if k < |IDENTITY_KEYS| {
      SameScalarUnder(a, b, IDENTITY_KEYS[k], 0);
      SameByKey(a, b, k + 1);
    }
  }

  lemma {:induction false} SameByFirstScalar(a: seq<Node>, b: seq<Node>, i: nat)
    requires Correspond(a, b) && i <= Pairs(a)
    ensures IdentityByFirstScalar(a, i) == IdentityByFirstScalar(b, i)
    decreases Pairs(a) - i
  {
    if i < Pairs(a) { SameByFirstScalar(a, b, i + 1); }
  }

  /** Structurally equal mappings have the same identity. */
  lemma StructureKeepsIdentity(a: Node, b: Node)
    requires StructurallyEqual(a, b) && ScalarKeys(a)
    ensures Identity(a) == Identity(b)
  {
    if a.kind == Mapping {
      EqualsCorrespond(a, b);
      SameByKey(a.content, b.content, 0);
      SameByFirstScalar(a.content, b.content, 0);
    }
  }

  // ---------------------------------------------------------------- what is recognised is taken over

  /** What an element is recognised by: its trimmed text, or the identity of a mapping. */
  function Label(n: Node): string {
    if n.kind == Scalar then Text.Trim(n.value) else if n.kind == Mapping then Identity(n) else ""
  }

  /** Both carry the same label, and it is not blank. */
  predicate SameLabel(a: Node, b: Node) { a.kind == b.kind && Label(a) == Label(b) != "" }

  lemma ResemblingHasSameLabel(original: Node, target: Node)
    requires ScalarKeys(original) && Label(target) != ""
    ensures SameIdentity(original, target) <==> SameLabel(original, target)
    ensures StructurallyEqual(original, target) ==> SameLabel(original, target)
  {
    if StructurallyEqual(original, target) { StructureKeepsIdentity(original, target); }
  }

  /** Matched or not, an element only ever takes over one of the same label, if it has one. */
  lemma MatchHasSameLabel(original: seq<Node>, used: set<nat>, target: Node)
    requires (forall j | 0 <= j < |original| :: ScalarKeys(original[j])) && Label(target) != ""
    ensures Match(original, used, target) < |original| ==> SameLabel(original[Match(original, used, target)], target)
  {
    var j := Match(original, used, target);
    if j < |original| { ResemblingHasSameLabel(original[j], target); }
  }

  /** A source element without a label resembles no labelled original. */
  lemma UnlabelledResemblesNoLabelled(original: Node, target: Node)
    requires ScalarKeys(original) && Label(original) != "" && Label(target) == ""
    ensures !SameIdentity(original, target) && !StructurallyEqual(original, target)
  {
    if StructurallyEqual(original, target) { StructureKeepsIdentity(original, target); }
  }

  lemma OthersDoNotMatch(original: seq<Node>, used: set<nat>, target: Node, j: nat)
    requires j < |original| && (forall k | 0 <= k < |original| :: ScalarKeys(original[k]))
    requires Label(original[j]) != "" && !SameLabel(original[j], target)
    ensures Match(original, used, target) != j
  {
    if Label(target) != "" {
      MatchHasSameLabel(original, used, target);
    } else {
      UnlabelledResemblesNoLabelled(original[j], target);
    }
  }

  lemma OneMoreMatched(original: seq<Node>, src: seq<Node>, n: nat)
    requires n < |src|
    ensures Matches(original, src, n + 1)
            == Matches(original, src, n) + [Match(original, Taken(Matches(original, src, n), |original|), src[n])]
  {}

  lemma TakenOneMore(m: seq<nat>, none: nat, last: nat, j: nat)
    requires j !in Taken(m, none) && last != j
    ensures j !in Taken(m + [last], none)
  {}

  /** No element before number i takes over original j, if none of them has its label. */
  lemma {:induction false} NotTakenByOthers(original: seq<Node>, src: seq<Node>, i: nat, j: nat)
    requires i <= |src| && j < |original| && (forall k | 0 <= k < |original| :: ScalarKeys(original[k]))
    requires Label(original[j]) != "" && forall k | 0 <= k < i :: !SameLabel(original[j], src[k])
    ensures j !in Taken(Matches(original, src, i), |original|)
  {
    if i > 0 {
      var front := Matches(original, src, i - 1);
      NotTakenByOthers(original, src, i - 1, j);
      OneMoreMatched(original, src, i - 1);
      OthersDoNotMatch(original, Taken(front, |original|), src[i - 1], j);
      TakenOneMore(front, |original|, Match(original, Taken(front, |original|), src[i - 1]), j);
    }
  }

  /** A choice, once made, stays. */
  lemma {:induction false} MatchesStay(original: seq<Node>, src: seq<Node>, i: nat, n: nat)
    requires i <= n <= |src|
    ensures Matches(original, src, i) <= Matches(original, src, n)
  {
    if i < n {
      MatchesStay(original, src, i, n - 1);
      OneMoreMatched(original, src, n - 1);
    }
  }

  lemma OnlyOneMatches(original: seq<Node>, used: set<nat>, target: Node, j: nat)
    requires j < |original| && j !in used && (forall k | 0 <= k < |original| :: ScalarKeys(original[k]))
    requires SameLabel(original[j], target)
    requires forall k | 0 <= k < |original| && k != j :: !SameLabel(original[k], target)
    ensures Match(original, used, target) == j
  {
    ResemblingHasSameLabel(original[j], target);
    assert HasIdentityMatch(original, used, target);
    MatchIsFirst(original, used, target, j);
    MatchHasSameLabel(original, used, target);
  }

  lemma ChosenStays(original: seq<Node>, src: seq<Node>, i: nat, j: nat)
    requires i < |src| && Match(original, Taken(Matches(original, src, i), |original|), src[i]) == j
    ensures Matches(original, src, |src|)[i] == j
  {
    MatchesStay(original, src, i + 1, |src|);
    OneMoreMatched(original, src, i);
    assert Matches(original, src, |src|)[i] == Matches(original, src, i + 1)[i];
  }

  /** The one source element with a label takes over the one original with it. */
  lemma OnlyOneIsTaken(original: seq<Node>, src: seq<Node>, i: nat, j: nat)
    requires i < |src| && j < |original| && (forall k | 0 <= k < |original| :: ScalarKeys(original[k]))
    requires SameLabel(original[j], src[i])
    requires forall k | 0 <= k < |src| && k != i :: !SameLabel(original[j], src[k])
    requires forall k | 0 <= k < |original| && k != j :: !SameLabel(original[k], src[i])
    ensures Matches(original, src, |src|)[i] == j
  {
    NotTakenByOthers(original, src, i, j);
    OnlyOneMatches(original, Taken(Matches(original, src, i), |original|), src[i], j);
    ChosenStays(original, src, i, j);
  }

  /** So an element whose label is in both lists once keeps its comments, wherever it has moved to. */
  lemma LabelledElementKeepsNotes(d: Node, s: Node, path: Path, i: nat, j: nat)
    requires d.kind == Sequence && s.kind == Sequence && i < |s.content| && j < |d.content|
    requires forall k | 0 <= k < |d.content| :: ScalarKeys(d.content[k])
    requires SameLabel(d.content[j], s.content[i])
    requires forall k | 0 <= k < |s.content| && k != i :: !SameLabel(d.content[j], s.content[k])
    requires forall k | 0 <= k < |d.content| && k != j :: !SameLabel(d.content[k], s.content[i])
    ensures |MergeNode(d, s, path).content| == |s.content|
    ensures MergeNode(d, s, path).content[i].notes == d.content[j].notes
  {
    OnlyOneIsTaken(d.content, s.content, i, j);
    SequenceElements(d, s, path, i);
  }

  // ---------------------------------------------------------------- the nodes themselves

  /** What a merged node keeps of the destination, by the kinds of both. */
  lemma MergedShell(d: Node, s: Node, path: Path)
    ensures var m := MergeNode(d, s, path);
            match s.kind
            case Mapping =>
              m.kind == Mapping && m.tag == (if d.kind == Mapping then d.tag else s.tag)
              && m.value == (if d.kind == Mapping then d.value else s.value)
            case Sequence =>
              if d.kind == Scalar && d.tag == "!!null" && s.content == [] then m == d
              else m.kind == Sequence && m.tag == (if d.kind == Sequence then d.tag else "!!seq") && m.value == d.value
            case Scalar => m == Node(Scalar, s.tag, s.value, d.notes, d.content)
            case Alias => m == Node(Alias, s.tag, s.value, d.notes, d.content)
            case NoKind => m == d
            case Document => m == Node(Document, s.tag, s.value, d.notes, s.content)
  {}

  /** The keys a matched element keeps are the non-blank keys of its source element, trimmed. */
  lemma KeptKeysAre(c: seq<Node>, key: string)
    ensures key in KeptKeys(c) <==> key != "" && exists i :: 0 <= i < Pairs(c) && Text.Trim(c[2 * i].value) == key
  {}
}
