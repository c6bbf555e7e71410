/**
  YAML trees as values: what the merge looks at when it compares, matches, copies and prunes nodes. A mapping's
  content alternates keys and values. Style, comments and anchors are one field, notes.
 */
module YamlTrees {
  import opened Prelude
  import Text

  datatype Kind = NoKind | Document | Sequence | Mapping | Scalar | Alias

  datatype Node = Node(kind: Kind, tag: string, value: string, notes: string, content: seq<Node>)

  type Path = seq<string>

  // ---------------------------------------------------------------- mappings

  function Pairs(content: seq<Node>): nat { |content| / 2 }

  /** The pair number of the first key with the given text, or the number of pairs. */
  function FindFrom(content: seq<Node>, key: string, i: nat): (j: nat)
    requires i <= Pairs(content)
    ensures i <= j <= Pairs(content)
    ensures j < Pairs(content) ==> content[2 * j].value == key
    ensures forall k | i <= k < j :: content[2 * k].value != key
    decreases Pairs(content) - i
  {
    if i == Pairs(content) || content[2 * i].value == key then i else FindFrom(content, key, i + 1)
  }

  function Find(content: seq<Node>, key: string): nat { FindFrom(content, key, 0) }

  function Lookup(content: seq<Node>, key: string): Option<Node> {
    var j := Find(content, key);
    if j < Pairs(content) then Some(content[2 * j + 1]) else None
  }

  function Keys(content: seq<Node>): seq<string> {
    seq(Pairs(content), i requires 0 <= i < Pairs(content) => content[2 * i].value)
  }

  /** The found pair is determined by holding the key while no earlier pair does. */
  lemma FindIs(content: seq<Node>, key: string, j: nat)
    requires j <= Pairs(content)
    requires j < Pairs(content) ==> content[2 * j].value == key
    requires forall k | 0 <= k < j :: content[2 * k].value != key
    ensures Find(content, key) == j
  {}

  // ---------------------------------------------------------------- zero values and known defaults

  predicate IsZero(n: Node) {
    match n.kind
    case Scalar =>
      || (n.tag == "!!bool" && n.value == "false")
      || ((n.tag == "!!int" || n.tag == "!!float") && (n.value == "0" || n.value == "0.0"))
      || (n.tag == "!!str" && n.value == "")
      || n.tag == "!!null"
    case Sequence => forall i | 0 <= i < |n.content| :: IsZero(n.content[i])
    case Mapping => forall i | 0 <= i < |n.content| && i % 2 == 1 :: IsZero(n.content[i])
    case _ => false
  }

  const DEFAULT_PPROF_ADDR := "127.0.0.1:8316"
  const DEFAULT_PANEL_REPOSITORY := "https://github.com/router-for-me/Cli-Proxy-API-Management-Center"

  function Join(path: Path): string {
    if path == [] then "" else if |path| == 1 then path[0] else path[0] + "." + Join(path[1..])
  }

  predicate IsKnownDefault(path: Path, n: Node) {
    || IsZero(n)
    || (path != [] && n.kind == Scalar && n.tag == "!!str"
        && (|| (Join(path) == "pprof.addr" && n.value == DEFAULT_PPROF_ADDR)
            || (Join(path) == "remote-management.panel-github-repository" && n.value == DEFAULT_PANEL_REPOSITORY)
            || (Join(path) == "plugins.dir" && n.value == "plugins")
            || (Join(path) == "routing.strategy" && n.value == "round-robin")))
    || (path != [] && n.kind == Scalar && n.tag == "!!int" && Join(path) == "error-logs-max-files" && n.value == "10")
  }

  // ---------------------------------------------------------------- pruning

  predicate IsEmptyCollection(n: Node) { (n.kind == Mapping || n.kind == Sequence) && n.content == [] }

  /** A new node without its default-valued descendants. */
  function Pruned(path: Path, n: Node): (r: Node)
    ensures r.kind == n.kind && r.tag == n.tag && r.value == n.value && r.notes == n.notes
    ensures n.kind == Sequence ==> |r.content| == |n.content|
    ensures n.kind != Mapping && n.kind != Sequence ==> r == n
    decreases n, 3
  {
    match n.kind
    case Mapping => n.(content := PrunedPairs(path, n, 0))
    case Sequence => n.(content := seq(|n.content|, i requires 0 <= i < |n.content| => Pruned(path, n.content[i])))
    case _ => n
  }

  /** What a pair of a new mapping leaves after pruning. */
  function PrunedPair(path: Path, n: Node, i: nat): seq<Node>
    requires i < Pairs(n.content)
    decreases n, 1
  {
    var key, value := n.content[2 * i], n.content[2 * i + 1];
    var child := path + [key.value];
    if IsKnownDefault(child, value) || IsEmptyCollection(Pruned(child, value)) then []
    else [key, Pruned(child, value)]
  }

  function PrunedPairs(path: Path, n: Node, i: nat): seq<Node>
    requires i <= Pairs(n.content)
    decreases n, 2, Pairs(n.content) - i
  {
    if i == Pairs(n.content) then [] else PrunedPair(path, n, i) + PrunedPairs(path, n, i + 1)
  }

  /** A new value that is not written out: after pruning it is a zero value or a known default. */
  predicate Droppable(path: Path, n: Node) { IsKnownDefault(path, Pruned(path, n)) }

  /** Keys of the mapping src, trimmed, without the blank ones. */
  function KeptKeys(src: seq<Node>): set<string> {
    set i | 0 <= i < Pairs(src) && Text.Trim(src[2 * i].value) != "" :: Text.Trim(src[2 * i].value)
  }

  /** The pairs of dst from number i on whose key the source still has. */
  function KeepPairs(dst: seq<Node>, keep: set<string>, i: nat): seq<Node>
    requires i <= Pairs(dst)
    decreases Pairs(dst) - i
  {
    if i == Pairs(dst) then dst[2 * i..]
    else if Text.Trim(dst[2 * i].value) in keep then dst[2 * i..2 * i + 2] + KeepPairs(dst, keep, i + 1)
    else KeepPairs(dst, keep, i + 1)
  }

  // ---------------------------------------------------------------- matching sequence elements

  const IDENTITY_KEYS: seq<string> :=
    ["id", "name", "alias", "api-key", "api_key", "apikey", "key", "provider", "model"]

  /** The trimmed scalar under a key, compared trimmed and lower-cased, or the empty text. */
  function ScalarUnder(content: seq<Node>, key: string, i: nat): string
    requires i <= Pairs(content)
    decreases Pairs(content) - i
  {
    if i == Pairs(content) then ""
    else if content[2 * i + 1].kind == Scalar && Text.ToLower(Text.Trim(content[2 * i].value)) == key
    then Text.Trim(content[2 * i + 1].value)
    else ScalarUnder(content, key, i + 1)
  }

  function IdentityByKey(content: seq<Node>, k: nat): string
    requires k <= |IDENTITY_KEYS|
    decreases |IDENTITY_KEYS| - k
  {
    if k == |IDENTITY_KEYS| then ""
    else
      var v := ScalarUnder(content, IDENTITY_KEYS[k], 0);
      if v != "" then IDENTITY_KEYS[k] + "=" + v else IdentityByKey(content, k + 1)
  }

  function IdentityByFirstScalar(content: seq<Node>, i: nat): string
    requires i <= Pairs(content)
    decreases Pairs(content) - i
  {
    if i == Pairs(content) then ""
    else if content[2 * i + 1].kind == Scalar && Text.Trim(content[2 * i + 1].value) != ""
    then Text.ToLower(Text.Trim(content[2 * i].value)) + "=" + Text.Trim(content[2 * i + 1].value)
    else IdentityByFirstScalar(content, i + 1)
  }

  function Identity(n: Node): string {
    if n.kind != Mapping then ""
    else if IdentityByKey(n.content, 0) != "" then IdentityByKey(n.content, 0)
    else IdentityByFirstScalar(n.content, 0)
  }

  predicate StructurallyEqual(a: Node, b: Node) {
    && a.kind == b.kind
    && (match a.kind
        case Mapping => |a.content| == |b.content|
                        && forall i | 0 <= i < 2 * Pairs(a.content) :: StructurallyEqual(a.content[i], b.content[i])
        case Sequence => |a.content| == |b.content|
                         && forall i | 0 <= i < |a.content| :: StructurallyEqual(a.content[i], b.content[i])
        case _ => Text.Trim(a.value) == Text.Trim(b.value))
  }

  /** The source element is recognised in the original one by its identity or its text. */
  predicate SameIdentity(original: Node, target: Node) {
    match target.kind
    case Mapping => Identity(target) != "" && original.kind == Mapping && Identity(original) == Identity(target)
    case Scalar =>
      Text.Trim(target.value) != "" && original.kind == Scalar && Text.Trim(original.value) == Text.Trim(target.value)
    case _ => false
  }

  /** The first unused element from number i on that p accepts, or the number of elements. */
  function FirstUnused(original: seq<Node>, used: set<nat>, p: Node -> bool, i: nat): (j: nat)
    requires i <= |original|
    ensures i <= j <= |original|
    ensures j < |original| ==> j !in used && p(original[j])
    ensures forall k | i <= k < j :: k in used || !p(original[k])
    decreases |original| - i
  {
    if i == |original| || (i !in used && p(original[i])) then i else FirstUnused(original, used, p, i + 1)
  }

  /** Which original element, if any, a source element takes over: by identity first, by structure otherwise. */
  function Match(original: seq<Node>, used: set<nat>, target: Node): (j: nat)
    ensures j <= |original|
    ensures j < |original| ==>
              j !in used && (SameIdentity(original[j], target) || StructurallyEqual(original[j], target))
  {
    var byIdentity := FirstUnused(original, used, n => SameIdentity(n, target), 0);
    if byIdentity < |original| then byIdentity
    else FirstUnused(original, used, n => StructurallyEqual(n, target), 0)
  }

  predicate HasIdentityMatch(original: seq<Node>, used: set<nat>, target: Node) {
    exists i :: 0 <= i < |original| && i !in used && SameIdentity(original[i], target)
  }

  /** The match is the first unused element of the same identity, or without any the first of the same structure. */
  lemma MatchIsFirst(original: seq<Node>, used: set<nat>, target: Node, k: nat)
    requires k < |original| && k !in used
    requires if HasIdentityMatch(original, used, target) then SameIdentity(original[k], target)
             else StructurallyEqual(original[k], target)
    ensures Match(original, used, target) <= k
    ensures HasIdentityMatch(original, used, target) ==> SameIdentity(original[Match(original, used, target)], target)
  {}

  /** The choices for the first n source elements, made one after the other; |original| stands for none. */
  function Matches(original: seq<Node>, src: seq<Node>, n: nat): (m: seq<nat>)
    requires n <= |src|
    ensures |m| == n
  {
    if n == 0 then []
    else
      var front := Matches(original, src, n - 1);
      front + [Match(original, Taken(front, |original|), src[n - 1])]
  }

  function Taken(m: seq<nat>, none: nat): set<nat> { set i | 0 <= i < |m| && m[i] < none :: m[i] }

  /** No original element is taken over twice. */
  ghost predicate Injective(m: seq<nat>, none: nat) {
    && (forall i | 0 <= i < |m| :: m[i] <= none)
    && (forall i, j | 0 <= i < j < |m| && m[i] < none :: m[i] != m[j])
  }

  lemma OneMoreMatch(m: seq<nat>, none: nat, last: nat)
    requires Injective(m, none) && last <= none && (last < none ==> last !in Taken(m, none))
    ensures Injective(m + [last], none)
  {
    forall i | 0 <= i < |m| && m[i] < none ensures m[i] != last { assert m[i] in Taken(m, none); }
  }

  lemma {:induction false} MatchesInjective(original: seq<Node>, src: seq<Node>, n: nat)
    requires n <= |src|
    ensures Injective(Matches(original, src, n), |original|)
  {
    if n > 0 {
      MatchesInjective(original, src, n - 1);
      var front := Matches(original, src, n - 1);
      OneMoreMatch(front, |original|, Match(original, Taken(front, |original|), src[n - 1]));
    }
  }

  /** An element goes unmatched only if every original element that resembles it was already taken. */
  lemma UnmatchedMeansUnavailable(original: seq<Node>, src: seq<Node>, i: nat, k: nat)
    requires i < |src| && k < |original| && Matches(original, src, i + 1)[i] == |original|
    requires SameIdentity(original[k], src[i]) || StructurallyEqual(original[k], src[i])
    ensures k in Taken(Matches(original, src, i), |original|)
  {
    var used := Taken(Matches(original, src, i), |original|);
    assert Match(original, used, src[i]) == |original|;
  }
}
