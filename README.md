# enum_wrap, modelled in Dafny

`enum_wrap` is a procedural macro that builds a Rust enum from a list of existing types and
writes, for each trait the caller asks for, an implementation that matches on the active
variant and forwards each method call to it. It has two parts. Registration (`enum_wrap_impl2`)
stores a trait definition in a process-wide map keyed by the trait's identifier. Generation
(`TypeWrapInput::parse` and `enum_wrap2`) reads the union declaration and emits:

- the enum;
- one dispatching `impl Trait for Enum` per requested trait;
- one `Into<Enum>` implementation per variant.

The model works on abstract syntax (paths, attributes, receivers, signatures) rather than
token streams. Its modules follow the macro's structure:

- `Syntax` (`syntax.dfy`): the syntax trees the macro inspects, and `Render`, the text of a
  path's token stream (`a :: b`, with `::` kept together and other tokens spaced).
- `Registry` (`registry.dfy`): the registry. `TraitRegistry` is a class whose `traits` map
  field `Register` updates in place. `Lookup` is the generator's lookup by the requested
  path's text.
- `Input` (`input.dfy`): `Parse`, the attribute split exactly as written (a loop over the
  original positions that removes from the live, shrinking list), and `ParseIntended`, the
  evidently intended split.
- `Generator` (`generator.dfy`): `Generate`, the whole output as a function of the parsed
  declaration and the registry contents. `EnumWrap` is the method that collects the variant
  tags in a loop, as the macro's side-effecting `map` does, and is proved equal to it. Lemmas
  cover the output layout, the failure conditions and the behaviour of the generated code.

Aborts (`panic!`, `unwrap_or_else(|| panic!(..))`, `Vec::remove` out of bounds,
`parse_quote!` failure) are modelled as `Err` results. The failure order follows the
evaluation order of the macro's iterators:

- variant tags first, because they are collected eagerly;
- then each requested trait in request order: its lookup, then the receiver of each of its
  methods in declaration order.

The generator looks a requested trait up by the whole path's text (src/proc.rs:129). The
registry key is the bare identifier (src/proc.rs:232), which the parser guarantees is
non-empty and free of spaces (the `Ident` type). So a qualified request such as
`auto_impl(m::Trait)` never resolves, even when `Trait` is registered
(`Registry.QualifiedPathNeverResolves`). The model keeps this behaviour.

## Model

| member | source | states |
|---|---|---|
| `Registry.TraitRegistry.constructor` | src/proc.rs:14-15 | the registry starts as an empty map |
| `Registry.TraitRegistry.Register` | src/proc.rs:224-235 | stores the trait under its identifier, overwriting any entry of that name and leaving the others unchanged; returns the input unchanged; keeps every entry under its own identifier |
| `Registry.Registered` | src/proc.rs:232 | after registration the key set gains the identifier, that key holds the new trait, and every other key keeps its entry |
| `Registry.RegisteredKeyedByIdent` | src/proc.rs:232 | registration preserves the invariant that each key is the identifier of the trait stored under it |
| `Registry.RegisterTwiceKeepsSecond` | src/proc.rs:232 | registering two traits of the same name leaves exactly the state of registering only the second |
| `Registry.RegisterThenLookup` | src/proc.rs:128-131 | a registered trait requested by its plain identifier path is found |
| `Registry.LookupResolvesOnlyIdentPaths` | src/proc.rs:129-131 | with identifier keys, a lookup succeeds only for a plain identifier path, and it finds the trait of that name |
| `Registry.KeysAreIdents` | src/proc.rs:232 | every key of a registry kept under trait identifiers is an identifier: non-empty, without spaces |
| `Registry.QualifiedPathNeverResolves` | src/proc.rs:129-131 | a path of two or more segments never matches an identifier key |
| `Syntax.RenderIdentPath` | src/proc.rs:129 | a plain identifier path renders as the identifier |
| `Syntax.SpaceFreeRenderIsIdentPath` | src/proc.rs:129 | any other path renders with a space in it |
| `Input.AutoImplMembers` | src/proc.rs:58-66 | a position is recorded iff it holds an `auto_impl` list attribute |
| `Input.AutoImplIncreasing` | src/proc.rs:58-61 | the recorded positions are strictly increasing, as `enumerate` yields them |
| `Input.Parse` | src/proc.rs:53-97 | the result equals the split that removes each recorded original position from the current list in turn and reads each `auto_impl` list right after its removal; visibility, name and variants are passed through |
| `Input.AsWrittenCollectsListedPaths` | src/proc.rs:58-80 | on success the requested paths are those of the `auto_impl` lists, in attribute order and then listed order, and every `auto_impl` list was readable |
| `Input.OtherAttributesContributeNothing` | src/proc.rs:62-77 | an attribute that is not an `auto_impl` list (path-only and name-value `auto_impl` included) contributes no path wherever it stands |
| `Input.AsWrittenWithoutAutoImpl` | src/proc.rs:55-80 | with no `auto_impl` attribute every attribute is kept and nothing is requested |
| `Input.AsWrittenSingleAutoImpl` | src/proc.rs:55-80 | with exactly one `auto_impl` attribute, just that attribute is removed, the others keep their order, its listed paths are requested, and an unreadable list aborts |
| `Input.AsWrittenTwoAutoImpls` | src/proc.rs:58-66 | with two `auto_impl` attributes the second removal uses a stale position: out of bounds if the second is last, otherwise the attribute after it is dropped and the second `auto_impl` is kept |
| `Input.TwoAutoImplAttributesAbort` | src/proc.rs:58-66 | two `auto_impl` attributes alone abort with removal index 1 on a list of length 1, where the intended split consumes both |
| `Input.IntendedKeepsExactlyTheOthers` | src/proc.rs:55-80 | the intended split keeps exactly the attributes that are not `auto_impl`, and as many as there are |
| `Input.ParseIntended` | src/proc.rs:55-80 | collecting forward and removing backward yields every non-`auto_impl` attribute in order and every listed path in order, or aborts at the first unreadable list |
| `Generator.VariantTags` | src/proc.rs:115-126 | succeeds iff every variant path has a segment; the tags are the last segments, one per variant in order; otherwise the error names the first path without segments |
| `Generator.EnumWrap` | src/proc.rs:102-222 | the loop that collects tags and types, followed by emission, equals `Generate` on the registry's contents |
| `Generator.ReceiverVerdict` | src/proc.rs:149-166 | a method passes iff its first parameter is a receiver without an explicit type (`self`, `&self`, `&mut self` all pass); a missing or typed first parameter aborts naming `Trait::method`; `self: T` aborts with the receiver message |
| `Generator.TypedPatsAppend` | src/proc.rs:168-179 | collecting typed patterns distributes over concatenation, so the order is the declared order |
| `Generator.ForwardsEveryTypedParameter` | src/proc.rs:168-179 | when all parameters after the first are typed, each one's pattern is forwarded in its position |
| `Generator.UntypedParameterDropped` | src/proc.rs:168-179 | a non-typed parameter after the first is dropped without disturbing the rest |
| `Generator.ImplFns` | src/proc.rs:144-192 | succeeds iff every method has an acceptable receiver; then one generated method per method item (other items skipped), in order, each with the trait's signature and one arm per tag |
| `Generator.TraitImpls` | src/proc.rs:128-200 | succeeds iff every requested trait is registered and valid; then one implementation per request in request order; otherwise the error of the first failing request |
| `Generator.GenerateSucceedsIff` | src/proc.rs:102-222 | generation succeeds exactly when every variant is named and every requested trait is registered with acceptable receivers |
| `Generator.UnnamedVariantAborts` | src/proc.rs:121-123 | the first variant path without segments aborts generation with that path |
| `Generator.MissingTraitAborts` | src/proc.rs:128-136 | a requested path whose text is not a key aborts; the message starts with that text |
| `Generator.TraitFailsAt` | src/proc.rs:128-200 | the first failing request determines the error of all the trait implementations |
| `Generator.BadReceiverAborts` | src/proc.rs:144-166 | the first method with a bad receiver in a requested trait aborts generation with that check's error, whatever the variants |
| `Generator.GenerateEmitsEnumFirst` | src/proc.rs:213-217 | the output has 1 + requests + variants items; the enum is first, with the attributes `Parse` left (`input.attrs`), visibility, name and one arm per variant in order, tag wrapping type; variant attributes are not emitted |
| `Generator.EnumCarriesOtherAttributes` | src/proc.rs:55-80 | reading then generating with at most one `auto_impl` attribute: the enum carries exactly the other outer attributes, in order |
| `Generator.GenerateEmitsImplsInRequestOrder` | src/proc.rs:181-199 | item 1+k implements the k-th requested trait for the enum with its generics; one method per trait method, in order, with the copied signature and one arm per variant, in order, calling the same-named method with the forwarded arguments |
| `Generator.TraitImplShape` | src/proc.rs:128-199 | a successful implementation is of the trait found under the requested path, for the enum, with one dispatching method per method of the trait, in order |
| `Generator.GenerateEmitsIntoLast` | src/proc.rs:202-220 | the last items are one `Into` conversion per variant, in order, from the variant type to the enum under its tag |
| `Generator.RegisterThenImplement` | src/proc.rs:128-199 | a trait registered under its identifier and requested by it is the trait implemented, with one method per declared method |
| `Generator.TagsIgnoreVariantAttrs` | src/proc.rs:115-126 | the tags depend only on the variant paths |
| `Generator.VariantAttrsNotEmitted` | src/proc.rs:120-124 | changing the variants' own attributes does not change the output |
| `Generator.FirstMatch` | src/proc.rs:183-186 | the arm a match takes: absent iff no tag matches, otherwise the first matching position |
| `Generator.ConvertThenMatch` | src/proc.rs:202-217 | a value converted from variant j lands in the enum's arm j, whose payload is that variant's type |
| `Generator.ConvertThenDispatch` | src/proc.rs:181-211 | a value converted from variant j takes arm j in every generated method, which calls the same-named method on the payload with the forwarded arguments |

## Left out

- Token-level parsing by the `syn` library is not modelled: outer attributes, visibility, identifier, the braced variant list, `VariantPath::parse`. `Parse` starts from those parts already read, and the library's syntax errors are not modelled. `VariantPath::parse` becomes the `VariantPath` constructor.
- The `auto_impl` list's tokens are modelled as already read as paths, or as unreadable. The text of the library's parse error is not modelled.
- The trait's text round trip is not modelled: the definition is stored as its text (src/proc.rs:232) and read back with `parse_str` (src/proc.rs:138). The registry stores the definition itself, so the "unable to parse trait definition" abort cannot occur in the model.
- The `LazyLock`/`Mutex` around the registry and its poison recovery are not modelled; the registry is one single-threaded object.
- `Render` stands in for the token stream's `to_string`; generic arguments are kept as opaque text. The `{:?}` formatting of a path in the variant-tag abort message is shown with `Render` too.
- What is rendered but not decided in this file: the generics in the impl header, `#[automatically_derived]`, and whether the emitted code compiles.
- `VariantPath::to_tokens` (src/proc.rs:31-41) is unused by generation and is not modelled.
- The value `_self_ref` (src/proc.rs:149-166) is computed and discarded; only its aborts are modelled.
- `Generator.ConvertThenMatch` and `Generator.ConvertThenDispatch` assume the variant tags are distinct. The compiler rejects an enum with two variants of the same name, so generated code that builds never breaks this.

## Findings

| source | as written | input that shows it | evidently intended | confidence | as-written member | corrected member |
|---|---|---|---|---|---|---|
| src/proc.rs:58-66 | positions taken from the original attribute list are removed from the live list that earlier removals have already shortened | `#[auto_impl(A)] #[auto_impl(B)]`: the second removal is at index 1 of a list of length 1 and aborts; `#[auto_impl(A)] #[auto_impl(B)] #[derive(Debug)]` drops `derive(Debug)` and passes `auto_impl(B)` through to the enum | every `auto_impl` attribute is removed and every other attribute is kept in order | not executed; high | `Input.TwoAutoImplAttributesAbort` | `Input.ParseIntended` |

`Input.Parse` is the model of the code as written and is what a caller of the macro gets.
`Input.AsWrittenSingleAutoImpl` and `Input.AsWrittenWithoutAutoImpl` show that the two agree
when there is at most one `auto_impl` attribute.
