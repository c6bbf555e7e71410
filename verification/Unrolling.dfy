/**
  Virtual models as configured, and what expanding one is meant to be: the finite tree obtained by replacing every
  name by its enabled targets, if there is one.
 */
module Unrolling {
  import opened Prelude
  import Text

  datatype Target = Target(ref: string, enabled: Option<bool>)

  datatype Entry = Entry(enabled: Option<bool>, targets: seq<Target>)

  datatype Config = Config(virtualModels: map<string, Entry>, routingEnabled: Option<bool>, maxVirtualDepth: int) {
    predicate RoutingEnabled() { Enabled(routingEnabled) }
    function EffectiveMaxDepth(): nat { if maxVirtualDepth <= 0 then 5 else maxVirtualDepth }
    predicate Active(name: string) { name in virtualModels && Enabled(virtualModels[name].enabled) }
  }

  datatype VirtualTarget = VirtualTarget(provider: string, model: string)

  predicate Enabled(value: Option<bool>) { value.None? || value.value }

  // ---------------------------------------------------------------- suffixes and concrete targets

  datatype Suffix = NoSuffix(model: string) | WithSuffix(model: string, raw: string)

  function ParseSuffix(model: string): Suffix {
    var open := Text.LastIndex(model, '(');
    if open == -1 || model[|model| - 1] != ')' then NoSuffix(model)
    else WithSuffix(model[..open], model[open + 1..|model| - 1])
  }

  /** A provider/model reference as a concrete target; the requested suffix is added if the target has none. */
  function Concrete(requested: Suffix, ref: string): Option<VirtualTarget> {
    var (before, after, found) := Text.Cut(Text.Trim(ref), '/');
    var provider, model := Text.Trim(before), Text.Trim(after);
    if !found || provider == "" || model == "" then None
    else
      var suffixed := if requested.WithSuffix? && ParseSuffix(model).NoSuffix?
                      then model + "(" + requested.raw + ")" else model;
      Some(VirtualTarget(Text.ToLower(provider), suffixed))
  }

  predicate IsConcrete(ref: string) { '/' in ref }

  /** The references an entry stands for: enabled, trimmed, not blank, in order. */
  function LiveRefs(targets: seq<Target>): seq<string> {
    if targets == [] then []
    else
      var ref := Text.Trim(targets[0].ref);
      if Enabled(targets[0].enabled) && ref != "" then [ref] + LiveRefs(targets[1..]) else LiveRefs(targets[1..])
  }

  // ---------------------------------------------------------------- the tree

  datatype Tree = Leaf(target: VirtualTarget) | Absent(name: string) | Node(name: string, children: seq<Tree>)

  /** The tree is what the name unrolls to. */
  ghost predicate Unrolls(cfg: Config, sfx: Suffix, name: string, tree: Tree)
    decreases tree, 1
  {
    match tree
    case Leaf(_) => false
    case Absent(n) => n == name && !cfg.Active(name)
    case Node(n, children) =>
      && n == name && cfg.Active(name) && cfg.virtualModels[name].targets != []
      && AllUnroll(cfg, sfx, LiveRefs(cfg.virtualModels[name].targets), children)
  }

  ghost predicate RefUnrolls(cfg: Config, sfx: Suffix, ref: string, tree: Tree)
    decreases tree, 2
  {
    if IsConcrete(ref) then Concrete(sfx, ref).Some? && tree == Leaf(Concrete(sfx, ref).value)
    else Unrolls(cfg, sfx, ref, tree)
  }

  ghost predicate AllUnroll(cfg: Config, sfx: Suffix, refs: seq<string>, trees: seq<Tree>)
    decreases trees, 0
  {
    if refs == [] || trees == [] then refs == [] && trees == []
    else RefUnrolls(cfg, sfx, refs[0], trees[0]) && AllUnroll(cfg, sfx, refs[1..], trees[1..])
  }

  /** The targets left to right. */
  function Flatten(tree: Tree): seq<VirtualTarget>
    decreases tree, 1
  {
    match tree
    case Leaf(target) => [target]
    case Absent(_) => []
    case Node(_, children) => FlattenAll(children)
  }

  function FlattenAll(trees: seq<Tree>): seq<VirtualTarget>
    decreases trees, 0
  {
    if trees == [] then [] else Flatten(trees[0]) + FlattenAll(trees[1..])
  }

  /** How many names the longest chain of the tree has, dangling and disabled names included. */
  function Names(tree: Tree): nat
    decreases tree, 1
  {
    match tree
    case Leaf(_) => 0
    case Absent(_) => 1
    case Node(_, children) => 1 + NamesBelow(children)
  }

  function NamesBelow(trees: seq<Tree>): nat
    decreases trees, 0
  {
    if trees == [] then 0
    else if Names(trees[0]) > NamesBelow(trees[1..]) then Names(trees[0]) else NamesBelow(trees[1..])
  }

  function Expanded(tree: Tree): set<string>
    decreases tree, 1
  {
    match tree
    case Leaf(_) => {}
    case Absent(_) => {}
    case Node(name, children) => {name} + ExpandedBelow(children)
  }

  function ExpandedBelow(trees: seq<Tree>): set<string>
    decreases trees, 0
  {
    if trees == [] then {} else Expanded(trees[0]) + ExpandedBelow(trees[1..])
  }

  function Size(tree: Tree): nat
    decreases tree, 1
  {
    match tree
    case Leaf(_) => 1
    case Absent(_) => 1
    case Node(_, children) => 1 + SizeBelow(children)
  }

  function SizeBelow(trees: seq<Tree>): nat
    decreases trees, 0
  {
    if trees == [] then 0 else Size(trees[0]) + SizeBelow(trees[1..])
  }

  // ---------------------------------------------------------------- a finite unrolling is unique and acyclic

  lemma {:induction false} UnrollingUnique(cfg: Config, sfx: Suffix, name: string, a: Tree, b: Tree)
    requires Unrolls(cfg, sfx, name, a) && Unrolls(cfg, sfx, name, b)
    ensures a == b
    decreases a, 1
  {
    if a.Node? {
      AllUnrollingsUnique(cfg, sfx, LiveRefs(cfg.virtualModels[name].targets), a.children, b.children);
    }
  }

  lemma {:induction false} AllUnrollingsUnique(cfg: Config, sfx: Suffix, refs: seq<string>, a: seq<Tree>, b: seq<Tree>)
    requires AllUnroll(cfg, sfx, refs, a) && AllUnroll(cfg, sfx, refs, b)
    ensures a == b
    decreases a, 0
  {
    if refs != [] {
      if !IsConcrete(refs[0]) { UnrollingUnique(cfg, sfx, refs[0], a[0], b[0]); }
      AllUnrollingsUnique(cfg, sfx, refs[1..], a[1..], b[1..]);
      assert a == [a[0]] + a[1..] && b == [b[0]] + b[1..];
    }
  }

  /** A name expanded somewhere in an unrolling has its own unrolling there, no larger than the whole. */
  lemma {:induction false} InnerUnrolling(cfg: Config, sfx: Suffix, name: string, tree: Tree, inner: string)
    returns (sub: Tree)
    requires Unrolls(cfg, sfx, name, tree) && inner in Expanded(tree)
    ensures Unrolls(cfg, sfx, inner, sub) && Size(sub) <= Size(tree)
    decreases tree, 1
  {
    if inner == name {
      sub := tree;
    } else {
      sub := InnerUnrollingBelow(cfg, sfx, LiveRefs(cfg.virtualModels[name].targets), tree.children, inner);
    }
  }

  lemma {:induction false} InnerUnrollingBelow(cfg: Config, sfx: Suffix, refs: seq<string>, trees: seq<Tree>,
                                               inner: string)
    returns (sub: Tree)
    requires AllUnroll(cfg, sfx, refs, trees) && inner in ExpandedBelow(trees)
    ensures Unrolls(cfg, sfx, inner, sub) && Size(sub) <= SizeBelow(trees)
    decreases trees, 0
  {
    if inner in Expanded(trees[0]) {
      sub := InnerUnrolling(cfg, sfx, refs[0], trees[0], inner);
    } else {
      sub := InnerUnrollingBelow(cfg, sfx, refs[1..], trees[1..], inner);
    }
  }

  /** No name is expanded again below itself: a finite unrolling repeats no name on any chain. */
  lemma {:induction false} NeverBelowItself(cfg: Config, sfx: Suffix, tree: Tree)
    requires tree.Node? && Unrolls(cfg, sfx, tree.name, tree)
    ensures tree.name !in ExpandedBelow(tree.children)
  {
    if tree.name in ExpandedBelow(tree.children) {
      var refs := LiveRefs(cfg.virtualModels[tree.name].targets);
      var sub := InnerUnrollingBelow(cfg, sfx, refs, tree.children, tree.name);
      UnrollingUnique(cfg, sfx, tree.name, tree, sub);
      assert false;
    }
  }
}
