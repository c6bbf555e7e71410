/**
  The depth-first expansion of a virtual model, with its backtracked set of names being visited and its depth bound,
  proved to succeed exactly on the finite unrollings that respect the bound.
 */
module VirtualModels {
  import opened Prelude
  import opened Unrolling
  import Text

  datatype ExpandError =
    | TooDeep(name: string)
    | CycleAt(name: string)
    | NoTargets(name: string)
    | Malformed(ref: string)

  datatype Expansion = Ok(targets: seq<VirtualTarget>) | Err(error: ExpandError)

  // ---------------------------------------------------------------- the expansion as a function

  function Expand(cfg: Config, sfx: Suffix, max: nat, name: string, depth: nat, visiting: set<string>): Expansion
    decreases max - depth, 1, 0
  {
    if depth >= max then Err(TooDeep(name))
    else if name in visiting then Err(CycleAt(name))
    else if !cfg.Active(name) then Ok([])
    else if cfg.virtualModels[name].targets == [] then Err(NoTargets(name))
    else ExpandRefs(cfg, sfx, max, LiveRefs(cfg.virtualModels[name].targets), depth, visiting + {name})
  }

  function ExpandRef(cfg: Config, sfx: Suffix, max: nat, ref: string, depth: nat, visiting: set<string>): Expansion
    requires depth < max
    decreases max - depth, 0, 0
  {
    if IsConcrete(ref) then
      match Concrete(sfx, ref)
      case None => Err(Malformed(ref))
      case Some(target) => Ok([target])
    else Expand(cfg, sfx, max, ref, depth + 1, visiting)
  }

  function ExpandRefs(cfg: Config, sfx: Suffix, max: nat, refs: seq<string>, depth: nat,
                      visiting: set<string>): Expansion
    requires depth < max
    decreases max - depth, 0, |refs| + 1
  {
    if refs == [] then Ok([])
    else Join(ExpandRef(cfg, sfx, max, refs[0], depth, visiting), ExpandRefs(cfg, sfx, max, refs[1..], depth, visiting))
  }

  /** The first error wins; otherwise the targets are appended. */
  function Join(a: Expansion, b: Expansion): Expansion {
    if a.Err? then a else if b.Err? then b else Ok(a.targets + b.targets)
  }

  lemma JoinAssociative(a: Expansion, b: Expansion, c: Expansion)
    ensures Join(Join(a, b), c) == Join(a, Join(b, c))
  {
    if a.Ok? && b.Ok? && c.Ok? {
      assert a.targets + b.targets + c.targets == a.targets + (b.targets + c.targets);
    }
  }

  lemma JoinNothing(a: Expansion)
    ensures Join(Ok([]), a) == a
  {
    if a.Ok? { assert [] + a.targets == a.targets; }
  }

  lemma {:induction false} ExpandRefsAppend(cfg: Config, sfx: Suffix, max: nat, front: seq<string>, back: seq<string>,
                                            depth: nat, visiting: set<string>)
    requires depth < max
    ensures ExpandRefs(cfg, sfx, max, front + back, depth, visiting)
            == Join(ExpandRefs(cfg, sfx, max, front, depth, visiting), ExpandRefs(cfg, sfx, max, back, depth, visiting))
  {
    if front == [] {
      assert front + back == back;
      JoinNothing(ExpandRefs(cfg, sfx, max, back, depth, visiting));
    } else {
      ExpandRefsAppend(cfg, sfx, max, front[1..], back, depth, visiting);
      assert (front + back)[0] == front[0] && (front + back)[1..] == front[1..] + back;
      JoinAssociative(ExpandRef(cfg, sfx, max, front[0], depth, visiting),
                      ExpandRefs(cfg, sfx, max, front[1..], depth, visiting),
                      ExpandRefs(cfg, sfx, max, back, depth, visiting));
    }
  }

  lemma {:induction false} LiveRefsAppend(a: seq<Target>, b: seq<Target>)
    ensures LiveRefs(a + b) == LiveRefs(a) + LiveRefs(b)
  {
    if a == [] {
      assert a + b == b;
    } else {
      LiveRefsAppend(a[1..], b);
      assert (a + b)[0] == a[0] && (a + b)[1..] == a[1..] + b;
      Associate([Text.Trim(a[0].ref)], LiveRefs(a[1..]), LiveRefs(b));
    }
  }

  // ---------------------------------------------------------------- success means a bounded finite unrolling

  lemma {:induction false} SuccessUnrolls(cfg: Config, sfx: Suffix, max: nat, name: string, depth: nat,
                                          visiting: set<string>)
    returns (tree: Tree)
    requires Expand(cfg, sfx, max, name, depth, visiting).Ok?
    ensures Unrolls(cfg, sfx, name, tree) && depth + Names(tree) <= max
    ensures Flatten(tree) == Expand(cfg, sfx, max, name, depth, visiting).targets
    decreases max - depth, 1, 0
  {
    if cfg.Active(name) {
      var refs := LiveRefs(cfg.virtualModels[name].targets);
      var children := SuccessUnrollsAll(cfg, sfx, max, refs, depth, visiting + {name});
      tree := Node(name, children);
    } else {
      tree := Absent(name);
    }
  }

  lemma {:induction false} SuccessUnrollsRef(cfg: Config, sfx: Suffix, max: nat, ref: string, depth: nat,
                                             visiting: set<string>)
    returns (tree: Tree)
    requires depth < max && ExpandRef(cfg, sfx, max, ref, depth, visiting).Ok?
    ensures RefUnrolls(cfg, sfx, ref, tree) && depth + 1 + Names(tree) <= max
    ensures Flatten(tree) == ExpandRef(cfg, sfx, max, ref, depth, visiting).targets
    decreases max - depth, 0, 0
  {
    if IsConcrete(ref) {
      tree := Leaf(Concrete(sfx, ref).value);
    } else {
      tree := SuccessUnrolls(cfg, sfx, max, ref, depth + 1, visiting);
    }
  }

  lemma {:induction false} SuccessUnrollsAll(cfg: Config, sfx: Suffix, max: nat, refs: seq<string>, depth: nat,
                                             visiting: set<string>)
    returns (trees: seq<Tree>)
    requires depth < max && ExpandRefs(cfg, sfx, max, refs, depth, visiting).Ok?
    ensures AllUnroll(cfg, sfx, refs, trees) && depth + 1 + NamesBelow(trees) <= max
    ensures FlattenAll(trees) == ExpandRefs(cfg, sfx, max, refs, depth, visiting).targets
    decreases max - depth, 0, |refs| + 1
  {
    if refs == [] {
      trees := [];
    } else {
      var first := SuccessUnrollsRef(cfg, sfx, max, refs[0], depth, visiting);
      var rest := SuccessUnrollsAll(cfg, sfx, max, refs[1..], depth, visiting);
      trees := [first] + rest;
      assert trees[1..] == rest;
    }
  }

  // ---------------------------------------------------------------- a finite unrolling can only fail by its depth

  /** The outcome on a finite unrolling: its flattening within the bound, the depth error beyond it. */
  ghost predicate FollowsTree(result: Expansion, flat: seq<VirtualTarget>, fits: bool) {
    if fits then result == Ok(flat) else result.Err? && result.error.TooDeep?
  }

  lemma {:induction false} UnrollingExpands(cfg: Config, sfx: Suffix, max: nat, name: string, depth: nat,
                                            visiting: set<string>, tree: Tree)
    requires Unrolls(cfg, sfx, name, tree) && Expanded(tree) !! visiting
    requires forall n | n in visiting :: cfg.Active(n)
    ensures FollowsTree(Expand(cfg, sfx, max, name, depth, visiting), Flatten(tree), depth + Names(tree) <= max)
    decreases tree, 1
  {
    if depth < max && tree.Node? {
      NeverBelowItself(cfg, sfx, tree);
      var refs := LiveRefs(cfg.virtualModels[name].targets);
      AllUnrollingsExpand(cfg, sfx, max, refs, depth, visiting + {name}, tree.children);
    }
  }

  lemma {:induction false} AllUnrollingsExpand(cfg: Config, sfx: Suffix, max: nat, refs: seq<string>, depth: nat,
                                               visiting: set<string>, trees: seq<Tree>)
    requires depth < max && AllUnroll(cfg, sfx, refs, trees) && ExpandedBelow(trees) !! visiting
    requires forall n | n in visiting :: cfg.Active(n)
    ensures FollowsTree(ExpandRefs(cfg, sfx, max, refs, depth, visiting), FlattenAll(trees),
                        depth + 1 + NamesBelow(trees) <= max)
    decreases trees, 0
  {
    if refs != [] {
      if !IsConcrete(refs[0]) { UnrollingExpands(cfg, sfx, max, refs[0], depth + 1, visiting, trees[0]); }
      AllUnrollingsExpand(cfg, sfx, max, refs[1..], depth, visiting, trees[1..]);
    }
  }

  // ---------------------------------------------------------------- main results

  /** The name has a finite unrolling, every chain of it within the depth bound, that flattens to out. */
  ghost predicate UnrollsTo(cfg: Config, sfx: Suffix, max: nat, name: string, out: seq<VirtualTarget>) {
    exists tree :: Unrolls(cfg, sfx, name, tree) && Names(tree) <= max && Flatten(tree) == out
  }

  ghost predicate HasUnrolling(cfg: Config, sfx: Suffix, name: string) {
    exists tree :: Unrolls(cfg, sfx, name, tree)
  }

  /** Expansion succeeds with exactly the flattening of a finite unrolling whose chains stay within the depth bound. */
  lemma SucceedsIffUnrollsWithinBound(cfg: Config, sfx: Suffix, max: nat, name: string, out: seq<VirtualTarget>)
    ensures Expand(cfg, sfx, max, name, 0, {}) == Ok(out) <==> UnrollsTo(cfg, sfx, max, name, out)
  {
    if Expand(cfg, sfx, max, name, 0, {}) == Ok(out) {
      var tree := SuccessUnrolls(cfg, sfx, max, name, 0, {});
      assert Unrolls(cfg, sfx, name, tree) && Names(tree) <= max && Flatten(tree) == out;
    }
    if tree :| Unrolls(cfg, sfx, name, tree) && Names(tree) <= max && Flatten(tree) == out {
      UnrollingExpands(cfg, sfx, max, name, 0, {}, tree);
    }
  }

  /** A reported cycle, empty target list or malformed target means that there is no finite unrolling at all. */
  lemma OtherErrorsMeanNoUnrolling(cfg: Config, sfx: Suffix, max: nat, name: string)
    requires var r := Expand(cfg, sfx, max, name, 0, {}); r.Err? && !r.error.TooDeep?
    ensures !HasUnrolling(cfg, sfx, name)
  {
    if tree :| Unrolls(cfg, sfx, name, tree) {
      UnrollingExpands(cfg, sfx, max, name, 0, {}, tree);
      assert false;
    }
  }

  /** If the bound exceeds the number of virtual models, the names being visited run out before the depth does. */
  lemma {:induction false} DepthUnreachable(cfg: Config, sfx: Suffix, max: nat, name: string, depth: nat,
                                            visiting: set<string>)
    requires |cfg.virtualModels| < max && depth == |visiting| && visiting <= cfg.virtualModels.Keys
    ensures var r := Expand(cfg, sfx, max, name, depth, visiting); r.Err? ==> !r.error.TooDeep?
    decreases max - depth, 1, 0
  {
    SubsetNotLarger(visiting, cfg.virtualModels.Keys);
    if name !in visiting && cfg.Active(name) {
      DepthUnreachableBelow(cfg, sfx, max, LiveRefs(cfg.virtualModels[name].targets), depth, visiting + {name});
    }
  }

  lemma {:induction false} DepthUnreachableBelow(cfg: Config, sfx: Suffix, max: nat, refs: seq<string>, depth: nat,
                                                 visiting: set<string>)
    requires |cfg.virtualModels| < max && depth < max && depth + 1 == |visiting| && visiting <= cfg.virtualModels.Keys
    ensures var r := ExpandRefs(cfg, sfx, max, refs, depth, visiting); r.Err? ==> !r.error.TooDeep?
    decreases max - depth, 0, |refs| + 1
  {
    if refs != [] {
      if !IsConcrete(refs[0]) { DepthUnreachable(cfg, sfx, max, refs[0], depth + 1, visiting); }
      DepthUnreachableBelow(cfg, sfx, max, refs[1..], depth, visiting);
    }
  }

  /** With a bound above the number of virtual models, success is the same as having a finite unrolling. */
  lemma AmpleBoundIsExact(cfg: Config, sfx: Suffix, max: nat, name: string)
    requires |cfg.virtualModels| < max
    ensures Expand(cfg, sfx, max, name, 0, {}).Ok? <==> HasUnrolling(cfg, sfx, name)
  {
    DepthUnreachable(cfg, sfx, max, name, 0, {});
    if Expand(cfg, sfx, max, name, 0, {}).Ok? {
      var tree := SuccessUnrolls(cfg, sfx, max, name, 0, {});
      assert Unrolls(cfg, sfx, name, tree);
    } else {
      OtherErrorsMeanNoUnrolling(cfg, sfx, max, name);
    }
  }

  // ---------------------------------------------------------------- success and errors in terms of chains

  /** ref is a live bare reference of the enabled virtual model name. */
  ghost predicate Links(cfg: Config, name: string, ref: string) {
    cfg.Active(name) && ref in LiveRefs(cfg.virtualModels[name].targets) && !IsConcrete(ref)
  }

  ghost predicate IsChain(cfg: Config, c: seq<string>) {
    forall i, j | 0 <= i && j == i + 1 && j < |c| :: Links(cfg, c[i], c[j])
  }

  /** The last name of the chain is what the error says. */
  ghost predicate Explains(cfg: Config, sfx: Suffix, max: nat, c: seq<string>, error: ExpandError)
    requires c != []
  {
    var name, before := c[|c| - 1], c[..|c| - 1];
    match error
    case TooDeep(n) => n == name && |c| > max
    case CycleAt(n) => n == name && name in before
    case NoTargets(n) => n == name && cfg.Active(name) && cfg.virtualModels[name].targets == []
    case Malformed(ref) =>
      && cfg.Active(name) && ref in LiveRefs(cfg.virtualModels[name].targets)
      && IsConcrete(ref) && Concrete(sfx, ref).None?
  }

  function Members(c: seq<string>): set<string> { set n | n in c }

  /** Every reported error is real: some chain from the name ends in what the error describes. */
  lemma {:induction false} ErrorHasChain(cfg: Config, sfx: Suffix, max: nat, name: string, before: seq<string>)
    returns (c: seq<string>)
    requires IsChain(cfg, before + [name]) && Expand(cfg, sfx, max, name, |before|, Members(before)).Err?
    ensures c != [] && before + [name] <= c && IsChain(cfg, c)
    ensures Explains(cfg, sfx, max, c, Expand(cfg, sfx, max, name, |before|, Members(before)).error)
    decreases max - |before|, 1, 0
  {
    c := before + [name];
    if |before| < max && name !in before && cfg.virtualModels[name].targets != [] {
      assert Members(c) == Members(before) + {name};
      c := ErrorHasChainBelow(cfg, sfx, max, LiveRefs(cfg.virtualModels[name].targets), c);
    }
  }

  lemma {:induction false} ErrorHasChainBelow(cfg: Config, sfx: Suffix, max: nat, refs: seq<string>,
                                              before: seq<string>)
    returns (c: seq<string>)
    requires before != [] && |before| <= max && IsChain(cfg, before) && cfg.Active(before[|before| - 1])
    requires forall ref | ref in refs :: ref in LiveRefs(cfg.virtualModels[before[|before| - 1]].targets)
    requires ExpandRefs(cfg, sfx, max, refs, |before| - 1, Members(before)).Err?
    ensures c != [] && before <= c && IsChain(cfg, c)
    ensures Explains(cfg, sfx, max, c, ExpandRefs(cfg, sfx, max, refs, |before| - 1, Members(before)).error)
    decreases max - |before| + 1, 0, |refs| + 1
  {
    var here := ExpandRef(cfg, sfx, max, refs[0], |before| - 1, Members(before));
    assert refs[0] in refs;
    if here.Ok? {
      forall ref | ref in refs[1..] ensures ref in refs {}
      c := ErrorHasChainBelow(cfg, sfx, max, refs[1..], before);
    } else if IsConcrete(refs[0]) {
      c := before;
    } else {
      c := ErrorHasChain(cfg, sfx, max, refs[0], before);
    }
  }

  /** Nothing is wrong with the chain's last name. */
  ghost predicate GoodEnd(cfg: Config, sfx: Suffix, max: nat, c: seq<string>)
    requires c != []
  {
    forall error :: !Explains(cfg, sfx, max, c, error)
  }

  lemma {:induction false} SuccessHasGoodChains(cfg: Config, sfx: Suffix, max: nat, name: string, before: seq<string>,
                                                c: seq<string>)
    requires before + [name] <= c && IsChain(cfg, c)
    requires Expand(cfg, sfx, max, name, |before|, Members(before)).Ok?
    ensures GoodEnd(cfg, sfx, max, c)
    decreases |c| - |before|
  {
    var here := before + [name];
    assert c[|before|] == name;
    assert Members(here) == Members(before) + {name};
    if |c| > |here| {
      var ref := c[|here|];
      assert Links(cfg, c[|before|], ref);
      SuccessIsForEachRef(cfg, sfx, max, LiveRefs(cfg.virtualModels[name].targets), |before|, Members(here), ref);
      assert here + [ref] <= c;
      SuccessHasGoodChains(cfg, sfx, max, ref, here, c);
    } else {
      assert c == here && c[..|c| - 1] == before;
      forall ref | cfg.Active(name) && ref in LiveRefs(cfg.virtualModels[name].targets) && IsConcrete(ref)
        ensures Concrete(sfx, ref).Some?
      {
        SuccessIsForEachRef(cfg, sfx, max, LiveRefs(cfg.virtualModels[name].targets), |before|, Members(here), ref);
      }
    }
  }

  lemma {:induction false} SuccessIsForEachRef(cfg: Config, sfx: Suffix, max: nat, refs: seq<string>, depth: nat,
                                               visiting: set<string>, ref: string)
    requires depth < max && ref in refs && ExpandRefs(cfg, sfx, max, refs, depth, visiting).Ok?
    ensures ExpandRef(cfg, sfx, max, ref, depth, visiting).Ok?
  {
    if ref != refs[0] { SuccessIsForEachRef(cfg, sfx, max, refs[1..], depth, visiting, ref); }
  }

  /**
    Expansion succeeds exactly when no chain of names from the root is longer than the bound (its dangling last name
    included), repeats its last name, or ends at an enabled model with no targets or with a malformed one.
   */
  lemma SucceedsIffChainsAreGood(cfg: Config, sfx: Suffix, max: nat, name: string)
    ensures Expand(cfg, sfx, max, name, 0, {}).Ok?
            <==> forall c: seq<string> | [name] <= c && IsChain(cfg, c) :: GoodEnd(cfg, sfx, max, c)
  {
    assert Members([]) == {} && [] + [name] == [name];
    if Expand(cfg, sfx, max, name, 0, {}).Ok? {
      forall c: seq<string> | [name] <= c && IsChain(cfg, c) ensures GoodEnd(cfg, sfx, max, c) {
        SuccessHasGoodChains(cfg, sfx, max, name, [], c);
      }
    } else {
      var c := ErrorHasChain(cfg, sfx, max, name, []);
      assert !GoodEnd(cfg, sfx, max, c);
    }
  }

  // ---------------------------------------------------------------- the code

  /** The names on the current chain, shared by all levels of the recursion. */
  class Visiting {
    var names: set<string>

    constructor ()
      ensures names == {}
    {
      names := {};
    }
  }

  class Resolver {
    const cfg: Config
    const requestedSuffix: Suffix
    const maxDepth: nat

    constructor (cfg: Config, requestedSuffix: Suffix)
      ensures this.cfg == cfg && this.requestedSuffix == requestedSuffix && maxDepth == cfg.EffectiveMaxDepth()
    {
      this.cfg, this.requestedSuffix, this.maxDepth := cfg, requestedSuffix, cfg.EffectiveMaxDepth();
    }

    /** At every entry the depth is the number of names being visited, and every return leaves that set as it was. */
    method ExpandVirtual(name: string, depth: nat, visiting: Visiting) returns (r: Expansion)
      requires depth == |visiting.names|
      modifies visiting
      ensures visiting.names == old(visiting.names)
      ensures r == Expand(cfg, requestedSuffix, maxDepth, name, depth, old(visiting.names))
      decreases maxDepth - depth
    {
      if depth >= maxDepth { return Err(TooDeep(name)); }
      if name in visiting.names { return Err(CycleAt(name)); }
      if name !in cfg.virtualModels || !Enabled(cfg.virtualModels[name].enabled) { return Ok([]); }
      var entry := cfg.virtualModels[name];
      visiting.names := visiting.names + {name};
      if entry.targets == [] {
        visiting.names := visiting.names - {name};
        return Err(NoTargets(name));
      }
      ghost var inside := visiting.names;
      var out := [];
      for i := 0 to |entry.targets|
        invariant visiting.names == inside
        invariant ExpandRefs(cfg, requestedSuffix, maxDepth, LiveRefs(entry.targets[..i]), depth, inside) == Ok(out)
      {
        var target := entry.targets[i];
        var ref := Text.Trim(target.ref);
        OneMoreTarget(entry.targets, i, depth, inside);
        if !Enabled(target.enabled) { continue; }
        if ref == "" { continue; }
        if '/' in ref {
          var concrete := Concrete(requestedSuffix, ref);
          if concrete.None? {
            visiting.names := visiting.names - {name};
            return Err(Malformed(ref));
          }
          out := out + [concrete.value];
          continue;
        }
        var nested := ExpandVirtual(ref, depth + 1, visiting);
        if nested.Err? {
          visiting.names := visiting.names - {name};
          return nested;
        }
        out := out + nested.targets;
      }
      assert entry.targets[..|entry.targets|] == entry.targets;
      visiting.names := visiting.names - {name};
      return Ok(out);
    }

    /** The targets up to and including number i, and an error there being the error of all of them. */
    lemma OneMoreTarget(targets: seq<Target>, i: nat, depth: nat, inside: set<string>)
      requires i < |targets| && depth < maxDepth
      requires ExpandRefs(cfg, requestedSuffix, maxDepth, LiveRefs(targets[..i]), depth, inside).Ok?
      ensures var before := ExpandRefs(cfg, requestedSuffix, maxDepth, LiveRefs(targets[..i]), depth, inside);
              var ref := Text.Trim(targets[i].ref);
              if Enabled(targets[i].enabled) && ref != "" then
                var here := ExpandRef(cfg, requestedSuffix, maxDepth, ref, depth, inside);
                && ExpandRefs(cfg, requestedSuffix, maxDepth, LiveRefs(targets[..i + 1]), depth, inside)
                   == Join(before, here)
                && (here.Err? ==> ExpandRefs(cfg, requestedSuffix, maxDepth, LiveRefs(targets), depth, inside) == here)
              else LiveRefs(targets[..i + 1]) == LiveRefs(targets[..i])
    {
      var ref := Text.Trim(targets[i].ref);
      assert targets[..i + 1] == targets[..i] + [targets[i]];
      assert targets == targets[..i + 1] + targets[i + 1..];
      LiveRefsAppend(targets[..i], [targets[i]]);
      LiveRefsAppend(targets[..i + 1], targets[i + 1..]);
      assert [targets[i]][1..] == [];
      if Enabled(targets[i].enabled) && ref != "" {
        assert LiveRefs([targets[i]]) == [ref];
        ExpandRefsAppend(cfg, requestedSuffix, maxDepth, LiveRefs(targets[..i]), [ref], depth, inside);
        assert [ref][1..] == [];
        ExpandRefsAppend(cfg, requestedSuffix, maxDepth, LiveRefs(targets[..i + 1]), LiveRefs(targets[i + 1..]),
                         depth, inside);
      }
    }
  }

  datatype ResolveError = ExpansionFailed(error: ExpandError) | NoEnabledTargets(model: string)

  datatype Resolution = NotMatched | Matched(model: string, targets: seq<VirtualTarget>) | Failed(error: ResolveError)

  predicate IsProviderQualified(model: string) {
    var (provider, rest, found) := Text.Cut(Text.Trim(model), '/');
    found && Text.Trim(provider) != "" && Text.Trim(rest) != ""
  }

  /** Whether a request is for an enabled virtual model, and which one. */
  function VirtualName(cfg: Option<Config>, requestedModel: string): Option<string> {
    var requested := Text.Trim(requestedModel);
    if cfg.None? || !cfg.value.RoutingEnabled() || requested == "" then None
    else
      var base := Text.Trim(ParseSuffix(requested).model);
      if base == "" || IsProviderQualified(base) || !cfg.value.Active(base) then None else Some(base)
  }

  function Resolved(name: string, expansion: Expansion): Resolution {
    match expansion
    case Err(error) => Failed(ExpansionFailed(error))
    case Ok(targets) => if targets == [] then Failed(NoEnabledTargets(name)) else Matched(name, targets)
  }

  /** The result in terms of unrollings: a match is the flattening of a bounded one, a failure means there is none. */
  ghost predicate Explained(cfg: Config, sfx: Suffix, max: nat, name: string, r: Resolution) {
    match r
    case NotMatched => false
    case Matched(model, targets) => model == name && targets != [] && UnrollsTo(cfg, sfx, max, name, targets)
    case Failed(NoEnabledTargets(model)) => model == name && UnrollsTo(cfg, sfx, max, name, [])
    case Failed(ExpansionFailed(error)) => forall out :: !UnrollsTo(cfg, sfx, max, name, out)
  }

  lemma ResolvedIsExplained(cfg: Config, sfx: Suffix, max: nat, name: string)
    ensures Explained(cfg, sfx, max, name, Resolved(name, Expand(cfg, sfx, max, name, 0, {})))
  {
    match Expand(cfg, sfx, max, name, 0, {})
    case Ok(targets) => SucceedsIffUnrollsWithinBound(cfg, sfx, max, name, targets);
    case Err(_) =>
      forall out ensures !UnrollsTo(cfg, sfx, max, name, out) {
        SucceedsIffUnrollsWithinBound(cfg, sfx, max, name, out);
      }
  }

  /**
    Resolving a request: it matches with the flattened unrolling of the virtual model exactly when there is a bounded
    finite one that is not empty; requests for anything else are left alone.
   */
  method ResolveVirtualModel(cfg: Option<Config>, requestedModel: string) returns (r: Resolution)
    ensures r == NotMatched <==> VirtualName(cfg, requestedModel).None?
    ensures VirtualName(cfg, requestedModel).Some? ==>
              var base, sfx := VirtualName(cfg, requestedModel).value, ParseSuffix(Text.Trim(requestedModel));
              var max := cfg.value.EffectiveMaxDepth();
              && max == (if cfg.value.maxVirtualDepth > 0 then cfg.value.maxVirtualDepth else 5)
              && r == Resolved(base, Expand(cfg.value, sfx, max, base, 0, {}))
              && Explained(cfg.value, sfx, max, base, r)
  {
    var requested := Text.Trim(requestedModel);
    if cfg.None? || !cfg.value.RoutingEnabled() || requested == "" { return NotMatched; }
    var parsed := ParseSuffix(requested);
    var base := Text.Trim(parsed.model);
    if base == "" || IsProviderQualified(base) { return NotMatched; }
    if base !in cfg.value.virtualModels || !Enabled(cfg.value.virtualModels[base].enabled) { return NotMatched; }
    var resolver := new Resolver(cfg.value, parsed);
    var visiting := new Visiting();
    var targets := resolver.ExpandVirtual(base, 0, visiting);
    ResolvedIsExplained(cfg.value, parsed, cfg.value.EffectiveMaxDepth(), base);
    if targets.Err? { return Failed(ExpansionFailed(targets.error)); }
    if targets.targets == [] { return Failed(NoEnabledTargets(base)); }
    return Matched(base, targets.targets);
  }
}
