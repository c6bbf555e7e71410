/**
  How requests, references and suffixes are read: what each piece of text means for the expansion, said by putting the
  text together instead of taking it apart.
 */
module VirtualNames {
  import opened Prelude
  import opened Unrolling
  import opened VirtualModels
  import Text

  // ---------------------------------------------------------------- suffixes

  /** The text is base, then raw in parentheses, which is the last opening one. */
  predicate IsSuffixed(model: string, base: string, raw: string) {
    model == base + "(" + raw + ")" && '(' !in raw
  }

  ghost predicate HasSuffix(model: string) { exists base, raw :: IsSuffixed(model, base, raw) }

  lemma SuffixIsParsed(model: string, base: string, raw: string)
    requires IsSuffixed(model, base, raw)
    ensures ParseSuffix(model) == WithSuffix(base, raw)
  {
    var open := Text.LastIndex(model, '(');
    Text.LastIndexIsLast(model, '(');
    assert model[|base|] == '(';
    forall k | |base| < k < |model| ensures model[k] != '(' {
      if k < |model| - 1 { assert model[k] == raw[k - |base| - 1]; }
    }
    assert open == |base|;
    assert model[..open] == base && model[open + 1..|model| - 1] == raw;
  }

  lemma ParsedIsSuffix(model: string)
    ensures ParseSuffix(model).WithSuffix? ==> IsSuffixed(model, ParseSuffix(model).model, ParseSuffix(model).raw)
    ensures ParseSuffix(model).NoSuffix? ==> ParseSuffix(model).model == model
  {
    var open := Text.LastIndex(model, '(');
    Text.LastIndexIsLast(model, '(');
    if ParseSuffix(model).WithSuffix? {
      assert model == model[..open] + "(" + model[open + 1..|model| - 1] + ")";
    }
  }

  /** A model name is read as suffixed exactly if it is. */
  lemma SuffixIff(model: string)
    ensures ParseSuffix(model).WithSuffix? <==> HasSuffix(model)
  {
    ParsedIsSuffix(model);
    if base, raw :| IsSuffixed(model, base, raw) { SuffixIsParsed(model, base, raw); }
  }

  // ---------------------------------------------------------------- concrete targets

  /** The model as requested: a suffix that was asked for goes to a model that has none of its own. */
  ghost function WithRequested(requested: Suffix, model: string): string {
    match requested
    case WithSuffix(_, raw) => if HasSuffix(model) then model else model + "(" + raw + ")"
    case NoSuffix(_) => model
  }

  /** What stands before the first slash is the provider, what follows is the model; neither may be blank. */
  lemma ConcreteTarget(requested: Suffix, provider: string, model: string)
    requires '/' !in provider
    ensures Concrete(requested, provider + "/" + model)
            == if Text.Trim(provider) == "" || Text.Trim(model) == "" then None
               else Some(VirtualTarget(Text.ToLower(Text.Trim(provider)), WithRequested(requested, Text.Trim(model))))
  {
    Text.TrimAround(provider, '/', model);
    Text.TrimLeftAround(provider, '/', model);
    Text.CutAtFirst(Text.TrimLeft(provider), '/', Text.TrimRight(model));
    SuffixIff(Text.Trim(model));
  }

  lemma NotConcrete(requested: Suffix, ref: string)
    requires '/' !in ref
    ensures Concrete(requested, ref) == None
  {
    Text.TrimLeftKeeps(ref, '/');
    Text.CutWithout(Text.Trim(ref), '/');
  }

  // ---------------------------------------------------------------- targets of an entry

  /** refs are the trimmed references of the targets neither disabled nor blank, in order, from positions at. */
  ghost predicate RefsAt(targets: seq<Target>, refs: seq<string>, at: seq<nat>) {
    && |at| == |refs|
    && (forall j, k | 0 <= j < k < |at| :: at[j] < at[k])
    && (forall k | 0 <= k < |at| ::
          at[k] < |targets| && targets[at[k]].enabled != Some(false) && Text.Trim(targets[at[k]].ref) == refs[k] != "")
    && (forall i | 0 <= i < |targets| && targets[i].enabled != Some(false) ::
          Text.Trim(targets[i].ref) != "" ==> i in at)
  }

  lemma OneMoreRef(targets: seq<Target>, last: Target, refs: seq<string>, at: seq<nat>)
    requires RefsAt(targets, refs, at)
    ensures if last.enabled != Some(false) && Text.Trim(last.ref) != ""
            then RefsAt(targets + [last], refs + [Text.Trim(last.ref)], at + [|targets|])
            else RefsAt(targets + [last], refs, at)
  {
    forall i: int | i in at ensures i in at + [|targets|] {}
  }

  lemma {:induction false} LiveRefsInOrder(targets: seq<Target>) returns (at: seq<nat>)
    ensures RefsAt(targets, LiveRefs(targets), at)
  {
    at := [];
    if targets != [] {
      var n := |targets| - 1;
      at := LiveRefsInOrder(targets[..n]);
      OneMoreRef(targets[..n], targets[n], LiveRefs(targets[..n]), at);
      LiveRefsAppend(targets[..n], [targets[n]]);
      assert targets[..n] + [targets[n]] == targets && [targets[n]][1..] == [];
      if targets[n].enabled != Some(false) && Text.Trim(targets[n].ref) != "" {
        assert LiveRefs([targets[n]]) == [Text.Trim(targets[n].ref)];
        at := at + [n];
      } else {
        assert LiveRefs([targets[n]]) == [] && LiveRefs(targets[..n]) + [] == LiveRefs(targets[..n]);
      }
    }
  }

  // ---------------------------------------------------------------- requests

  /** A provider and a model, neither blank, with a slash between them. */
  ghost predicate NamesProvider(model: string) {
    exists provider, rest :: model == provider + "/" + rest && '/' !in provider
                             && Text.Trim(provider) != "" && Text.Trim(rest) != ""
  }

  /** The virtual model a base name stands for: routing is on, and an entry of that name is not disabled. */
  ghost function NamedBy(cfg: Config, base: string): Option<string> {
    if cfg.routingEnabled != Some(false) && base != "" && !NamesProvider(base)
       && base in cfg.virtualModels && cfg.virtualModels[base].enabled != Some(false)
    then Some(base) else None
  }

  lemma ProviderQualifiedIff(base: string)
    requires Text.IsTrim(base)
    ensures IsProviderQualified(base) <==> NamesProvider(base)
  {
    Text.TrimIsTrim(base);
    if '/' in base {
      var i := FirstSlash(base);
      Text.CutAtFirst(base[..i], '/', base[i + 1..]);
      assert base == base[..i] + "/" + base[i + 1..];
      if provider, rest :| base == provider + "/" + rest && '/' !in provider
                           && Text.Trim(provider) != "" && Text.Trim(rest) != "" {
        Text.CutAtFirst(provider, '/', rest);
      }
    } else {
      Text.CutWithout(base, '/');
      forall provider: string, rest: string ensures base != provider + "/" + rest {
        assert (provider + "/" + rest)[|provider|] == '/';
      }
    }
  }

  lemma {:induction false} FirstSlash(s: string) returns (i: nat)
    requires '/' in s
    ensures i < |s| && s[i] == '/' && '/' !in s[..i]
  {
    if s[0] == '/' {
      i := 0;
    } else {
      assert s == [s[0]] + s[1..];
      var j := FirstSlash(s[1..]);
      i := j + 1;
      assert s[..i] == [s[0]] + s[1..][..j];
    }
  }

  /** Without a suffix the whole trimmed request is the name, with one what stands before it. */
  lemma RequestedName(cfg: Config, requestedModel: string)
    ensures !HasSuffix(Text.Trim(requestedModel)) ==>
              VirtualName(Some(cfg), requestedModel) == NamedBy(cfg, Text.Trim(requestedModel))
    ensures forall base, raw | IsSuffixed(Text.Trim(requestedModel), base, raw) ::
              VirtualName(Some(cfg), requestedModel) == NamedBy(cfg, Text.Trim(base))
  {
    var requested := Text.Trim(requestedModel);
    SuffixIff(requested);
    ParsedIsSuffix(requested);
    Text.TrimTwice(requestedModel);
    Text.TrimIsTrim(ParseSuffix(requested).model);
    ProviderQualifiedIff(Text.Trim(ParseSuffix(requested).model));
    forall base, raw | IsSuffixed(requested, base, raw) ensures ParseSuffix(requested) == WithSuffix(base, raw) {
      SuffixIsParsed(requested, base, raw);
    }
  }

  // ---------------------------------------------------------------- an entry with one target

  lemma SingleTargetExpands(cfg: Config, sfx: Suffix, max: nat, name: string, ref: string)
    requires name in cfg.virtualModels && cfg.virtualModels[name] == Entry(None, [Target(ref, None)])
    requires Text.Trim(ref) != "" && '/' in Text.Trim(ref) && max > 0
    ensures Expand(cfg, sfx, max, name, 0, {})
            == match Concrete(sfx, Text.Trim(ref))
               case None => Err(Malformed(Text.Trim(ref)))
               case Some(target) => Ok([target])
  {
    var target, trimmed := Target(ref, None), Text.Trim(ref);
    assert [target][1..] == [] && [trimmed] + [] == [trimmed];
    assert LiveRefs([target]) == [trimmed];
    OneRefExpands(cfg, sfx, max, trimmed, 0, {name});
    assert {} + {name} == {name};
  }

  lemma OneRefExpands(cfg: Config, sfx: Suffix, max: nat, ref: string, depth: nat, visiting: set<string>)
    requires depth < max && IsConcrete(ref)
    ensures ExpandRefs(cfg, sfx, max, [ref], depth, visiting)
            == match Concrete(sfx, ref)
               case None => Err(Malformed(ref))
               case Some(target) => Ok([target])
  {
    var rest: seq<string> := [ref][1..];
    assert rest == [] && ExpandRefs(cfg, sfx, max, rest, depth, visiting) == Ok([]);
    if Concrete(sfx, ref).Some? { assert [Concrete(sfx, ref).value] + [] == [Concrete(sfx, ref).value]; }
  }

  lemma SlashIsTrimmedAround(provider: string, model: string)
    ensures var ref := Text.Trim(provider + "/" + model); ref != "" && '/' in ref
    ensures Text.Trim(Text.Trim(provider + "/" + model)) == Text.Trim(provider + "/" + model)
  {
    Text.TrimAround(provider, '/', model);
    assert Text.Trim(provider + "/" + model)[|Text.TrimLeft(provider)|] == '/';
    Text.TrimTwice(provider + "/" + model);
  }

  /** A request for a virtual model whose one target is provider/model resolves to just that, or is refused. */
  method ResolveSingle(cfg: Config, requestedModel: string, name: string, provider: string, model: string)
    returns (r: Resolution)
    requires '/' !in provider && VirtualName(Some(cfg), requestedModel) == Some(name)
    requires cfg.virtualModels[name] == Entry(None, [Target(provider + "/" + model, None)])
    ensures var sfx := ParseSuffix(Text.Trim(requestedModel));
            if Text.Trim(provider) != "" && Text.Trim(model) != ""
            then r == Matched(name, [VirtualTarget(Text.ToLower(Text.Trim(provider)),
                                                   WithRequested(sfx, Text.Trim(model)))])
            else r.Failed?
  {
    var ref, sfx := provider + "/" + model, ParseSuffix(Text.Trim(requestedModel));
    r := ResolveVirtualModel(Some(cfg), requestedModel);
    SlashIsTrimmedAround(provider, model);
    SingleTargetExpands(cfg, sfx, cfg.EffectiveMaxDepth(), name, ref);
    ConcreteTarget(sfx, provider, model);
  }
}
