/**
 * Code synthesis for a union declaration (`enum_wrap2`): the enum, one dispatching trait
 * implementation per requested trait, and one `Into` conversion per variant, as an
 * abstract item list in emission order.
 */
module Generator {
  import opened Wrappers
  import opened Syntax
  import opened Registry
  import opened Input

  /** The ways generation aborts the compilation. */
  datatype GenError =
    | NoVariantIdent(path: Path)
    | TraitNotRegistered(traitPath: string)
    | ArbitraryReceiverType
    | NoReceiver(traitIdent: string, methodIdent: string)

  /** The abort message of each failure. */
  function Message(e: GenError): string {
    match e
    case NoVariantIdent(p) => "failed to obtain variant ident from " + Render(p)
    case TraitNotRegistered(t) => t + " not annotated with #[enum_wrap_impl] or does not exist"
    case ArbitraryReceiverType => "receiver should not have an arbitrary type"
    case NoReceiver(t, m) => t + "::" + m + " does not have a receiver"
  }

  /** `Tag(Type)`: an enum variant named by the tag, wrapping the variant type. */
  datatype EnumArm = EnumArm(tag: PathSegment, ty: Path)

  /** `Enum::Tag(var) => var.method(args...)`: one arm of a dispatching method body. */
  datatype DispatchArm = DispatchArm(enumIdent: string, tag: PathSegment, methodIdent: string, args: seq<string>)

  /** A generated method: the trait's signature and a match with its arms. */
  datatype ImplFn = ImplFn(sig: Signature, arms: seq<DispatchArm>)

  /** The generated items. */
  datatype Item =
    | EnumItem(attrs: seq<Attribute>, vis: Visibility, ident: string, arms: seq<EnumArm>)
    | TraitImpl(generics: string, traitIdent: string, selfTy: string, fns: seq<ImplFn>)
    | IntoImpl(target: string, ty: Path, variant: PathSegment)

  // Variant tags

  predicate Named(v: VariantPath) {
    v.path.segments != []
  }

  /** A variant's tag: the last segment of its path. */
  function Tag(v: VariantPath): PathSegment
    requires Named(v)
  {
    v.path.segments[|v.path.segments| - 1]
  }

  /** The variant tags, in declaration order; aborts at the first path without segments. */
  function VariantTags(vs: seq<VariantPath>): (r: Result<seq<PathSegment>, GenError>)
    ensures r.Ok? <==> forall k :: 0 <= k < |vs| ==> Named(vs[k])
    ensures r.Ok? ==> |r.value| == |vs| && forall k :: 0 <= k < |vs| ==> r.value[k] == Tag(vs[k])
    ensures r.Err? ==> exists k :: (
      && 0 <= k < |vs| && !Named(vs[k])
      && (forall j :: 0 <= j < k ==> Named(vs[j]))
      && r.error == NoVariantIdent(vs[k].path))
  {
    if vs == [] then Ok([])
    else if !Named(vs[0]) then Err(NoVariantIdent(vs[0].path))
    else
      match VariantTags(vs[1..])
      case Err(e) => Err(e)
      case Ok(rest) => Ok([Tag(vs[0])] + rest)
  }

  /** The variant types, in declaration order. */
  function VariantTypes(vs: seq<VariantPath>): seq<Path> {
    seq(|vs|, k requires 0 <= k < |vs| => vs[k].path)
  }

  // Receivers and forwarded arguments

  /** The receiver check for one method of trait `traitIdent`. */
  function CheckReceiver(traitIdent: string, sig: Signature): Option<GenError> {
    if |sig.inputs| == 0 then Some(NoReceiver(traitIdent, sig.ident))
    else
      match sig.inputs[0]
      case Receiver(_, _, colonType) => if colonType then Some(ArbitraryReceiverType) else None
      case Typed(_, _) => Some(NoReceiver(traitIdent, sig.ident))
  }

  /** The patterns of the typed parameters, in order; receivers are dropped. */
  function TypedPats(args: seq<FnArg>): seq<string> {
    if args == [] then []
    else (if args[0].Typed? then [args[0].pat] else []) + TypedPats(args[1..])
  }

  /** The arguments a dispatching method forwards: all parameters after the first. */
  function ForwardedArgs(inputs: seq<FnArg>): seq<string> {
    if inputs == [] then [] else TypedPats(inputs[1..])
  }

  // Dispatching implementations

  /** The generated method for `sig`: one arm per tag, in order. */
  function DispatchFn(enumIdent: string, tags: seq<PathSegment>, sig: Signature): ImplFn {
    ImplFn(sig, seq(|tags|, j requires 0 <= j < |tags| =>
      DispatchArm(enumIdent, tags[j], sig.ident, ForwardedArgs(sig.inputs))))
  }

  /** The signatures of the methods among a trait's items, in order. */
  function FnSigs(items: seq<TraitItem>): seq<Signature> {
    if items == [] then []
    else (if items[0].Fn? then [items[0].sig] else []) + FnSigs(items[1..])
  }

  /** Every method of the trait has an acceptable receiver. */
  predicate ReceiversValid(def: ItemTrait) {
    forall k :: 0 <= k < |def.items| && def.items[k].Fn? ==> CheckReceiver(def.ident, def.items[k].sig).None?
  }

  /** The methods of one trait implementation; aborts at the first bad receiver. */
  function ImplFns(traitIdent: string, items: seq<TraitItem>, enumIdent: string, tags: seq<PathSegment>)
    : (r: Result<seq<ImplFn>, GenError>)
    ensures r.Ok? <==> forall k :: 0 <= k < |items| && items[k].Fn? ==> CheckReceiver(traitIdent, items[k].sig).None?
    ensures r.Ok? ==> (
      && |r.value| == |FnSigs(items)|
      && forall m :: 0 <= m < |r.value| ==> r.value[m] == DispatchFn(enumIdent, tags, FnSigs(items)[m]))
    ensures r.Err? ==> exists k :: (
      && 0 <= k < |items| && items[k].Fn?
      && (forall j :: 0 <= j < k && items[j].Fn? ==> CheckReceiver(traitIdent, items[j].sig).None?)
      && CheckReceiver(traitIdent, items[k].sig) == Some(r.error))
  {
    if items == [] then Ok([])
    else
      var rest := ImplFns(traitIdent, items[1..], enumIdent, tags);
      match items[0]
      case OtherItem(_) =>
        assert FnSigs(items) == FnSigs(items[1..]);
        rest
      case Fn(sig) =>
        match CheckReceiver(traitIdent, sig)
        case Some(e) => Err(e)
        case None =>
          match rest
          case Err(e) => Err(e)
          case Ok(fns) =>
            assert FnSigs(items) == [sig] + FnSigs(items[1..]);
            Ok([DispatchFn(enumIdent, tags, sig)] + fns)
  }

  /** The implementation of the trait requested by path `p` for the enum. */
  function TraitImplFor(p: Path, traits: map<string, ItemTrait>, enumIdent: string, tags: seq<PathSegment>)
    : Result<Item, GenError>
  {
    match Lookup(traits, p)
    case None => Err(TraitNotRegistered(Render(p)))
    case Some(def) =>
      match ImplFns(def.ident, def.items, enumIdent, tags)
      case Err(e) => Err(e)
      case Ok(fns) => Ok(TraitImpl(def.generics, def.ident, enumIdent, fns))
  }

  /** The requested trait is registered and all its methods have acceptable receivers. */
  predicate Implementable(p: Path, traits: map<string, ItemTrait>) {
    Lookup(traits, p).Some? && ReceiversValid(Lookup(traits, p).value)
  }

  /** The trait implementations, in request order; aborts at the first failing trait. */
  function TraitImpls(paths: seq<Path>, traits: map<string, ItemTrait>, enumIdent: string, tags: seq<PathSegment>)
    : (r: Result<seq<Item>, GenError>)
    ensures r.Ok? <==> forall k :: 0 <= k < |paths| ==> Implementable(paths[k], traits)
    ensures r.Ok? ==> (
      && |r.value| == |paths|
      && forall k :: 0 <= k < |paths| ==> TraitImplFor(paths[k], traits, enumIdent, tags) == Ok(r.value[k]))
    ensures r.Err? ==> exists k :: (
      && 0 <= k < |paths|
      && (forall j :: 0 <= j < k ==> Implementable(paths[j], traits))
      && TraitImplFor(paths[k], traits, enumIdent, tags) == Err(r.error))
  {
    if paths == [] then Ok([])
    else
      match TraitImplFor(paths[0], traits, enumIdent, tags)
      case Err(e) => Err(e)
      case Ok(item) =>
        match TraitImpls(paths[1..], traits, enumIdent, tags)
        case Err(e) => Err(e)
        case Ok(items) => Ok([item] + items)
  }

  // Emission

  function EnumArms(tags: seq<PathSegment>, types: seq<Path>): seq<EnumArm>
    requires |tags| == |types|
  {
    seq(|tags|, k requires 0 <= k < |tags| => EnumArm(tags[k], types[k]))
  }

  function IntoImpls(enumIdent: string, tags: seq<PathSegment>, types: seq<Path>): seq<Item>
    requires |tags| == |types|
  {
    seq(|tags|, k requires 0 <= k < |tags| => IntoImpl(enumIdent, types[k], tags[k]))
  }

  /** The output once the tags are known: the enum, the trait implementations, the conversions. */
  function Emit(input: TypeWrapInput, traits: map<string, ItemTrait>, tags: seq<PathSegment>, types: seq<Path>)
    : Result<seq<Item>, GenError>
    requires |tags| == |types|
  {
    match TraitImpls(input.autoImpls, traits, input.ident, tags)
    case Err(e) => Err(e)
    case Ok(impls) =>
      Ok([EnumItem(input.attrs, input.vis, input.ident, EnumArms(tags, types))]
         + impls + IntoImpls(input.ident, tags, types))
  }

  /** Generation as a function of the parsed declaration and the registry's contents. */
  function Generate(input: TypeWrapInput, traits: map<string, ItemTrait>): Result<seq<Item>, GenError> {
    match VariantTags(input.variants)
    case Err(e) => Err(e)
    case Ok(tags) => Emit(input, traits, tags, VariantTypes(input.variants))
  }

  /** `enum_wrap2`: collects the variant tags and types in one pass, as the macro's `map`
      with its side-effecting push does, then emits the items. */
  method EnumWrap(input: TypeWrapInput, registry: TraitRegistry) returns (r: Result<seq<Item>, GenError>)
    ensures r == Generate(input, registry.traits)
  {
    var variants: seq<PathSegment> := [];
    var variantsInner: seq<Path> := [];
    var i := 0;
    while i < |input.variants|
      invariant 0 <= i <= |input.variants|
      invariant |variants| == i && |variantsInner| == i
      invariant forall k :: 0 <= k < i ==> Named(input.variants[k])
      invariant forall k :: 0 <= k < i ==> variants[k] == Tag(input.variants[k])
      invariant forall k :: 0 <= k < i ==> variantsInner[k] == input.variants[k].path
    {
      var path := input.variants[i].path;
      if |path.segments| == 0 {
        return Err(NoVariantIdent(path));
      }
      variants := variants + [path.segments[|path.segments| - 1]];
      variantsInner := variantsInner + [path];
      i := i + 1;
    }
    assert variants == VariantTags(input.variants).value;
    assert variantsInner == VariantTypes(input.variants);
    r := Emit(input, registry.traits, variants, variantsInner);
  }

  // Receiver validation and argument forwarding

  /** The receiver check accepts exactly a first parameter that is a receiver without an
      explicit type; a missing first parameter or a typed one aborts naming `Trait::method`,
      an explicitly typed receiver aborts with the fixed receiver message. */
  lemma ReceiverVerdict(traitIdent: string, sig: Signature)
    ensures CheckReceiver(traitIdent, sig).None? <==>
      |sig.inputs| > 0 && sig.inputs[0].Receiver? && !sig.inputs[0].colonType
    ensures |sig.inputs| == 0 || sig.inputs[0].Typed? ==>
      && CheckReceiver(traitIdent, sig) == Some(NoReceiver(traitIdent, sig.ident))
      && traitIdent + "::" + sig.ident <= Message(NoReceiver(traitIdent, sig.ident))
    ensures |sig.inputs| > 0 && sig.inputs[0].Receiver? && sig.inputs[0].colonType ==>
      CheckReceiver(traitIdent, sig) == Some(ArbitraryReceiverType)
  {
    var m := Message(NoReceiver(traitIdent, sig.ident));
    assert m == (traitIdent + "::" + sig.ident) + " does not have a receiver";
  }

  lemma {:induction false} TypedPatsAppend(a: seq<FnArg>, b: seq<FnArg>)
    ensures TypedPats(a + b) == TypedPats(a) + TypedPats(b)
  {
    if a == [] {
      assert a + b == b;
    } else {
      assert (a + b)[0] == a[0];
      assert (a + b)[1..] == a[1..] + b;
      TypedPatsAppend(a[1..], b);
    }
  }

  lemma {:induction false} TypedPatsAllTyped(args: seq<FnArg>)
    requires forall k :: 0 <= k < |args| ==> args[k].Typed?
    ensures |TypedPats(args)| == |args|
    ensures forall k :: 0 <= k < |args| ==> TypedPats(args)[k] == args[k].pat
  {
    if args != [] {
      TypedPatsAllTyped(args[1..]);
    }
  }

  /** When every parameter after the receiver is typed, each one's pattern is forwarded, in
      declared order and in the same position. */
  lemma ForwardsEveryTypedParameter(inputs: seq<FnArg>)
    requires |inputs| > 0
    requires forall k :: 1 <= k < |inputs| ==> inputs[k].Typed?
    ensures |ForwardedArgs(inputs)| == |inputs| - 1
    ensures forall k :: 0 <= k < |inputs| - 1 ==> ForwardedArgs(inputs)[k] == inputs[k + 1].pat
  {
    TypedPatsAllTyped(inputs[1..]);
  }

  /** A parameter after the first that is not typed (a second receiver) is dropped without
      disturbing the others. */
  lemma UntypedParameterDropped(first: FnArg, a: seq<FnArg>, x: FnArg, b: seq<FnArg>)
    requires !x.Typed?
    ensures ForwardedArgs([first] + a + [x] + b) == ForwardedArgs([first] + a + b)
  {
    assert ([first] + a + [x] + b)[1..] == a + [x] + b;
    assert ([first] + a + b)[1..] == a + b;
    assert TypedPats([x]) == [] by {
      assert [x][1..] == [];
    }
    TypedPatsAppend(a, [x]);
    TypedPatsAppend(a + [x], b);
    TypedPatsAppend(a, b);
    calc {
      TypedPats(a + [x] + b);
      TypedPats(a + [x]) + TypedPats(b);
      TypedPats(a) + [] + TypedPats(b);
      TypedPats(a + b);
    }
  }

  // Outcome of generation

  /** An implementable trait yields its implementation. */
  lemma ImplementableImpl(p: Path, traits: map<string, ItemTrait>, enumIdent: string, tags: seq<PathSegment>)
    requires Implementable(p, traits)
    ensures TraitImplFor(p, traits, enumIdent, tags).Ok?
  {
    var def := Lookup(traits, p).value;
    assert ImplFns(def.ident, def.items, enumIdent, tags).Ok?;
  }

  /** Generation succeeds exactly when every variant path has a last segment and every
      requested trait is registered under the path's text with acceptable receivers. */
  lemma GenerateSucceedsIff(input: TypeWrapInput, traits: map<string, ItemTrait>)
    ensures Generate(input, traits).Ok? <==>
      && (forall k :: 0 <= k < |input.variants| ==> Named(input.variants[k]))
      && (forall k :: 0 <= k < |input.autoImpls| ==> Implementable(input.autoImpls[k], traits))
  {
  }

  /** A variant path without segments aborts generation before any trait is looked up. */
  lemma UnnamedVariantAborts(input: TypeWrapInput, traits: map<string, ItemTrait>, k: nat)
    requires k < |input.variants| && !Named(input.variants[k])
    requires forall j :: 0 <= j < k ==> Named(input.variants[j])
    ensures Generate(input, traits) == Err(NoVariantIdent(input.variants[k].path))
  {
    var t := VariantTags(input.variants);
    assert t.Err?;
    var k' :| 0 <= k' < |input.variants| && !Named(input.variants[k'])
      && (forall j :: 0 <= j < k' ==> Named(input.variants[j]))
      && t.error == NoVariantIdent(input.variants[k'].path);
    assert k' == k;
  }

  /** With every variant named and the earlier requests fine, a requested path whose text
      is not a registry key aborts generation with a message that starts with that text. */
  lemma MissingTraitAborts(input: TypeWrapInput, traits: map<string, ItemTrait>, k: nat)
    requires forall j :: 0 <= j < |input.variants| ==> Named(input.variants[j])
    requires k < |input.autoImpls|
    requires forall j :: 0 <= j < k ==> Implementable(input.autoImpls[j], traits)
    requires Lookup(traits, input.autoImpls[k]) == None
    ensures Generate(input, traits) == Err(TraitNotRegistered(Render(input.autoImpls[k])))
    ensures Render(input.autoImpls[k]) <= Message(TraitNotRegistered(Render(input.autoImpls[k])))
  {
    var tags := VariantTags(input.variants).value;
    var failing := TraitFailsAt(input.autoImpls, traits, input.ident, tags, k);
    var text := Render(input.autoImpls[k]);
    assert Message(TraitNotRegistered(text)) == text + " not annotated with #[enum_wrap_impl] or does not exist";
  }

  /** The trait implementations abort with the error of the first failing request k. */
  lemma TraitFailsAt(paths: seq<Path>, traits: map<string, ItemTrait>, enumIdent: string, tags: seq<PathSegment>, k: nat)
    returns (e: GenError)
    requires k < |paths| && !Implementable(paths[k], traits)
    requires forall j :: 0 <= j < k ==> Implementable(paths[j], traits)
    ensures TraitImplFor(paths[k], traits, enumIdent, tags) == Err(e)
    ensures TraitImpls(paths, traits, enumIdent, tags) == Err(e)
  {
    var r := TraitImpls(paths, traits, enumIdent, tags);
    assert r.Err?;
    var k' :| 0 <= k' < |paths|
      && (forall j :: 0 <= j < k' ==> Implementable(paths[j], traits))
      && TraitImplFor(paths[k'], traits, enumIdent, tags) == Err(r.error);
    if k' < k {
      ImplementableImpl(paths[k'], traits, enumIdent, tags);
    }
    assert k' == k;
    e := r.error;
  }

  /** With every variant named and the earlier requests fine, a method of a requested trait
      whose receiver check fails aborts generation with that check's error, whatever the
      variants are. */
  lemma BadReceiverAborts(input: TypeWrapInput, traits: map<string, ItemTrait>, k: nat, def: ItemTrait, m: nat)
    requires forall j :: 0 <= j < |input.variants| ==> Named(input.variants[j])
    requires k < |input.autoImpls|
    requires forall j :: 0 <= j < k ==> Implementable(input.autoImpls[j], traits)
    requires Lookup(traits, input.autoImpls[k]) == Some(def)
    requires m < |def.items| && def.items[m].Fn? && CheckReceiver(def.ident, def.items[m].sig).Some?
    requires forall j :: 0 <= j < m && def.items[j].Fn? ==> CheckReceiver(def.ident, def.items[j].sig).None?
    ensures Generate(input, traits) == Err(CheckReceiver(def.ident, def.items[m].sig).value)
  {
    var tags := VariantTags(input.variants).value;
    var e := TraitFailsAt(input.autoImpls, traits, input.ident, tags, k);
    var r := ImplFns(def.ident, def.items, input.ident, tags);
    assert r.Err?;
    var m' :| 0 <= m' < |def.items| && def.items[m'].Fn?
      && (forall j :: 0 <= j < m' && def.items[j].Fn? ==> CheckReceiver(def.ident, def.items[j].sig).None?)
      && CheckReceiver(def.ident, def.items[m'].sig) == Some(r.error);
    assert m' == m;
  }

  /** The output has one item for the enum, one per requested trait and one per variant;
      the enum comes first, carries the outer attributes and visibility, and has one arm per
      variant, in declaration order, named by its tag and wrapping the variant type (the
      variants' own attributes are not emitted). */
  lemma GenerateEmitsEnumFirst(input: TypeWrapInput, traits: map<string, ItemTrait>, out: seq<Item>)
    requires Generate(input, traits) == Ok(out)
    ensures |out| == 1 + |input.autoImpls| + |input.variants|
    ensures out[0].EnumItem? && out[0].attrs == input.attrs && out[0].vis == input.vis
    ensures out[0].ident == input.ident && |out[0].arms| == |input.variants|
    ensures forall k :: 0 <= k < |input.variants| ==>
      Named(input.variants[k]) && out[0].arms[k] == EnumArm(Tag(input.variants[k]), input.variants[k].path)
  {
  }

  /** After the enum come the trait implementations, in request order: the k-th implements
      the trait found under the k-th requested path, for the enum, with that trait's
      generics, and holds one method per method of the trait, in order, each with the
      trait's signature and one arm per variant, in variant order, calling the same-named
      method on the payload with the forwarded arguments. With the registry keyed by
      identifiers, the implemented trait is the one named by the requested path. */
  lemma GenerateEmitsImplsInRequestOrder(input: TypeWrapInput, traits: map<string, ItemTrait>, out: seq<Item>, k: nat)
    requires Generate(input, traits) == Ok(out)
    requires k < |input.autoImpls|
    ensures Lookup(traits, input.autoImpls[k]).Some? && 1 + k < |out|
    ensures var def := Lookup(traits, input.autoImpls[k]).value;
      && out[1 + k].TraitImpl?
      && out[1 + k].traitIdent == def.ident && out[1 + k].generics == def.generics
      && out[1 + k].selfTy == input.ident
      && |out[1 + k].fns| == |FnSigs(def.items)|
      && forall m :: 0 <= m < |out[1 + k].fns| ==>
        var sig := FnSigs(def.items)[m];
        && out[1 + k].fns[m].sig == sig
        && |out[1 + k].fns[m].arms| == |input.variants|
        && forall j :: 0 <= j < |input.variants| ==>
          Named(input.variants[j])
          && out[1 + k].fns[m].arms[j] == DispatchArm(input.ident, Tag(input.variants[j]), sig.ident, ForwardedArgs(sig.inputs))
    ensures KeyedByIdent(traits) ==> out[1 + k].traitIdent == Render(input.autoImpls[k])
  {
    var tags := VariantTags(input.variants).value;
    var impls := TraitImpls(input.autoImpls, traits, input.ident, tags).value;
    assert out == [out[0]] + impls + IntoImpls(input.ident, tags, VariantTypes(input.variants));
    assert out[1 + k] == impls[k];
    TraitImplShape(input.autoImpls[k], traits, input.ident, tags, impls[k]);
  }

  /** A successful implementation of a requested trait: the trait found under the path,
      for the enum, one generated method per method of the trait. */
  lemma TraitImplShape(p: Path, traits: map<string, ItemTrait>, enumIdent: string, tags: seq<PathSegment>, item: Item)
    requires TraitImplFor(p, traits, enumIdent, tags) == Ok(item)
    ensures Lookup(traits, p).Some?
    ensures var def := Lookup(traits, p).value;
      && item.TraitImpl?
      && item.traitIdent == def.ident && item.generics == def.generics && item.selfTy == enumIdent
      && |item.fns| == |FnSigs(def.items)|
      && forall m :: 0 <= m < |item.fns| ==> item.fns[m] == DispatchFn(enumIdent, tags, FnSigs(def.items)[m])
  {
  }

  /** Last come the conversions, one per variant in declaration order, each turning a value
      of the variant type into the enum under that variant's tag. */
  lemma GenerateEmitsIntoLast(input: TypeWrapInput, traits: map<string, ItemTrait>, out: seq<Item>, j: nat)
    requires Generate(input, traits) == Ok(out)
    requires j < |input.variants|
    ensures 1 + |input.autoImpls| + j < |out| && Named(input.variants[j])
    ensures out[1 + |input.autoImpls| + j] == IntoImpl(input.ident, input.variants[j].path, Tag(input.variants[j]))
  {
    var tags := VariantTags(input.variants).value;
    var impls := TraitImpls(input.autoImpls, traits, input.ident, tags).value;
    assert out == [out[0]] + impls + IntoImpls(input.ident, tags, VariantTypes(input.variants));
    assert out[1 + |input.autoImpls| + j] == IntoImpls(input.ident, tags, VariantTypes(input.variants))[j];
  }

  /** Reading the declaration and then generating: with at most one `auto_impl` attribute,
      the enum carries exactly the other outer attributes, in their order. (With two or
      more the stale removal of `Input.AsWrittenTwoAutoImpls` applies instead.) */
  lemma EnumCarriesOtherAttributes(
    outer: seq<Attribute>, vis: Visibility, ident: string, variants: seq<VariantPath>,
    traits: map<string, ItemTrait>, input: TypeWrapInput, out: seq<Item>)
    requires Assemble(ExtractAsWritten(outer), vis, ident, variants) == Ok(input)
    requires |AutoImplIndices(outer)| <= 1
    requires Generate(input, traits) == Ok(out)
    ensures out[0].EnumItem? && out[0].attrs == NonAutoImpl(outer)
  {
    GenerateEmitsEnumFirst(input, traits, out);
    var idxs := AutoImplIndices(outer);
    if idxs == [] {
      AsWrittenWithoutAutoImpl(outer);
    } else {
      assert idxs == [idxs[0]];
      AsWrittenSingleAutoImpl(outer, idxs[0]);
    }
  }

  /** A trait registered under its identifier and requested by that identifier is the one
      implemented, with one method per method it declares. */
  lemma RegisterThenImplement(input: TypeWrapInput, m: map<string, ItemTrait>, t: ItemTrait, out: seq<Item>, k: nat)
    requires Generate(input, Registered(m, t)) == Ok(out)
    requires k < |input.autoImpls| && GetIdent(input.autoImpls[k]) == Some(t.ident)
    ensures 1 + k < |out| && out[1 + k].TraitImpl?
    ensures out[1 + k].traitIdent == t.ident && |out[1 + k].fns| == |FnSigs(t.items)|
  {
    RegisterThenLookup(m, t, input.autoImpls[k]);
    GenerateEmitsImplsInRequestOrder(input, Registered(m, t), out, k);
  }

  /** The tags depend on the variant paths only. */
  lemma {:induction false} TagsIgnoreVariantAttrs(vs: seq<VariantPath>, ws: seq<VariantPath>)
    requires |vs| == |ws|
    requires forall k :: 0 <= k < |vs| ==> vs[k].path == ws[k].path
    ensures VariantTags(vs) == VariantTags(ws)
  {
    if vs != [] {
      TagsIgnoreVariantAttrs(vs[1..], ws[1..]);
    }
  }

  /** The variants' own attributes have no effect on the output. */
  lemma VariantAttrsNotEmitted(input: TypeWrapInput, traits: map<string, ItemTrait>, ws: seq<VariantPath>)
    requires |ws| == |input.variants|
    requires forall k :: 0 <= k < |ws| ==> ws[k].path == input.variants[k].path
    ensures Generate(input.(variants := ws), traits) == Generate(input, traits)
  {
    TagsIgnoreVariantAttrs(input.variants, ws);
    assert VariantTypes(ws) == VariantTypes(input.variants);
  }

  // Behaviour of the generated code

  /** The position of the first tag equal to `tag`: the arm a `match` on a value carrying
      that tag takes. */
  function FirstMatch(tags: seq<PathSegment>, tag: PathSegment): (r: Option<nat>)
    ensures r.None? <==> tag !in tags
    ensures r.Some? ==> r.value < |tags| && tags[r.value] == tag
    ensures r.Some? ==> forall j :: 0 <= j < r.value ==> tags[j] != tag
  {
    if tags == [] then None
    else if tags[0] == tag then Some(0)
    else
      match FirstMatch(tags[1..], tag)
      case None => None
      case Some(i) => Some(i + 1)
  }

  predicate Distinct(tags: seq<PathSegment>) {
    forall a, b :: 0 <= a < b < |tags| ==> tags[a] != tags[b]
  }

  function DispatchTags(arms: seq<DispatchArm>): seq<PathSegment> {
    seq(|arms|, k requires 0 <= k < |arms| => arms[k].tag)
  }

  function EnumTags(arms: seq<EnumArm>): seq<PathSegment> {
    seq(|arms|, k requires 0 <= k < |arms| => arms[k].tag)
  }

  /** The enum's arms carry the variant tags, in order. */
  lemma EnumArmTags(input: TypeWrapInput, traits: map<string, ItemTrait>, out: seq<Item>)
    requires Generate(input, traits) == Ok(out)
    ensures out[0].EnumItem? && EnumTags(out[0].arms) == VariantTags(input.variants).value
  {
    GenerateEmitsEnumFirst(input, traits, out);
    var tags := VariantTags(input.variants).value;
    forall i | 0 <= i < |tags| ensures EnumTags(out[0].arms)[i] == tags[i] {
      assert out[0].arms[i].tag == Tag(input.variants[i]);
    }
  }

  /** Every generated method's arms carry the variant tags, in order. */
  lemma DispatchArmTags(input: TypeWrapInput, traits: map<string, ItemTrait>, out: seq<Item>, k: nat, m: nat)
    requires Generate(input, traits) == Ok(out)
    requires k < |input.autoImpls| && 1 + k < |out| && out[1 + k].TraitImpl? && m < |out[1 + k].fns|
    ensures DispatchTags(out[1 + k].fns[m].arms) == VariantTags(input.variants).value
  {
    GenerateEmitsImplsInRequestOrder(input, traits, out, k);
    var tags := VariantTags(input.variants).value;
    var f := out[1 + k].fns[m];
    forall i | 0 <= i < |tags| ensures DispatchTags(f.arms)[i] == tags[i] {
      assert f.arms[i].tag == Tag(input.variants[i]);
    }
  }

  /** Round trip: a value converted from the j-th variant type carries the j-th tag and,
      matched against the enum, lands in the j-th arm, whose payload type is that variant
      type. Distinct tags are what the compiler demands of the enum's variants. */
  lemma ConvertThenMatch(input: TypeWrapInput, traits: map<string, ItemTrait>, out: seq<Item>, j: nat)
    requires Generate(input, traits) == Ok(out)
    requires Distinct(VariantTags(input.variants).value)
    requires j < |input.variants|
    ensures 1 + |input.autoImpls| + j < |out| && out[1 + |input.autoImpls| + j].IntoImpl?
    ensures out[0].EnumItem? && j < |out[0].arms|
    ensures var into := out[1 + |input.autoImpls| + j];
      && FirstMatch(EnumTags(out[0].arms), into.variant) == Some(j)
      && out[0].arms[j].ty == into.ty
  {
    GenerateEmitsEnumFirst(input, traits, out);
    GenerateEmitsIntoLast(input, traits, out, j);
    EnumArmTags(input, traits, out);
    DistinctFirstMatch(VariantTags(input.variants).value, j);
  }

  /** Dispatch: the same value, matched in any generated method, takes the j-th arm, which
      calls the same-named method on the payload with the forwarded arguments. */
  lemma ConvertThenDispatch(input: TypeWrapInput, traits: map<string, ItemTrait>, out: seq<Item>, j: nat, k: nat, m: nat)
    requires Generate(input, traits) == Ok(out)
    requires Distinct(VariantTags(input.variants).value)
    requires j < |input.variants|
    requires k < |input.autoImpls| && 1 + k < |out| && out[1 + k].TraitImpl? && m < |out[1 + k].fns|
    ensures 1 + |input.autoImpls| + j < |out| && out[1 + |input.autoImpls| + j].IntoImpl?
    ensures var into := out[1 + |input.autoImpls| + j];
      var f := out[1 + k].fns[m];
      && FirstMatch(DispatchTags(f.arms), into.variant) == Some(j)
      && f.arms[j].enumIdent == input.ident
      && f.arms[j].methodIdent == f.sig.ident
      && f.arms[j].args == ForwardedArgs(f.sig.inputs)
  {
    GenerateEmitsIntoLast(input, traits, out, j);
    GenerateEmitsImplsInRequestOrder(input, traits, out, k);
    DispatchArmTags(input, traits, out, k, m);
    DistinctFirstMatch(VariantTags(input.variants).value, j);
  }

  lemma DistinctFirstMatch(tags: seq<PathSegment>, j: nat)
    requires Distinct(tags) && j < |tags|
    ensures FirstMatch(tags, tags[j]) == Some(j)
  {
  }
}
