/**
 * The process-wide trait registry: a map from a trait's bare identifier to the trait
 * definition captured when the trait was annotated for registration.
 */
module Registry {
  import opened Wrappers
  import opened Syntax

  /** Every entry is stored under the identifier of the trait it holds, so every key is an
      identifier. */
  ghost predicate KeyedByIdent(m: map<string, ItemTrait>) {
    forall k :: k in m ==> m[k].ident == k
  }

  /** The keys of a registry kept under identifiers are identifiers. */
  lemma KeysAreIdents(m: map<string, ItemTrait>)
    requires KeyedByIdent(m)
    ensures forall k :: k in m ==> IsIdent(k)
  {
    forall k | k in m ensures IsIdent(k) {
      assert k == m[k].ident;
    }
  }

  /** The registry after registering `t`: its identifier now maps to `t`, and to nothing else. */
  function Registered(m: map<string, ItemTrait>, t: ItemTrait): (m': map<string, ItemTrait>)
    ensures m'.Keys == m.Keys + {t.ident}
    ensures m'[t.ident] == t
    ensures forall k :: k in m && k != t.ident ==> m'[k] == m[k]
  {
    m[t.ident := t]
  }

  /** The entry the generator finds for a requested trait path: it looks the path's whole
      rendered text up as the key. */
  function Lookup(m: map<string, ItemTrait>, p: Path): Option<ItemTrait> {
    var key := Render(p);
    if key in m then Some(m[key]) else None
  }

  /** Registration keeps every entry under its own identifier. */
  lemma RegisteredKeyedByIdent(m: map<string, ItemTrait>, t: ItemTrait)
    requires KeyedByIdent(m)
    ensures KeyedByIdent(Registered(m, t))
  {
  }

  /** Registering a trait under a name already taken keeps only the later definition;
      the earlier one leaves no trace. */
  lemma RegisterTwiceKeepsSecond(m: map<string, ItemTrait>, t1: ItemTrait, t2: ItemTrait)
    requires t1.ident == t2.ident
    ensures Registered(Registered(m, t1), t2) == Registered(m, t2)
  {
  }

  /** A trait registered and then requested by its plain identifier path is found. */
  lemma RegisterThenLookup(m: map<string, ItemTrait>, t: ItemTrait, p: Path)
    requires GetIdent(p) == Some(t.ident)
    ensures Lookup(Registered(m, t), p) == Some(t)
  {
    RenderIdentPath(p);
  }

  /** Because the keys are bare identifiers and the lookup key is the path's whole text,
      only a plain identifier path can resolve, and it resolves to the trait of that name. */
  lemma LookupResolvesOnlyIdentPaths(m: map<string, ItemTrait>, p: Path)
    requires KeyedByIdent(m)
    requires p.segments != []
    ensures Lookup(m, p).Some? ==> GetIdent(p) == Some(Lookup(m, p).value.ident)
  {
    KeysAreIdents(m);
    SpaceFreeRenderIsIdentPath(p);
  }

  /** A qualified path such as `module::Trait` never resolves, even when `Trait` is registered. */
  lemma QualifiedPathNeverResolves(m: map<string, ItemTrait>, p: Path)
    requires KeyedByIdent(m)
    requires |p.segments| >= 2
    ensures Lookup(m, p) == None
  {
    KeysAreIdents(m);
    SpaceFreeRenderIsIdentPath(p);
  }

  /** The registry object; `traits` is the map behind the process-wide lock. */
  class TraitRegistry {
    var traits: map<string, ItemTrait>

    ghost predicate Valid()
      reads this
    {
      KeyedByIdent(traits)
    }

    /** The registry starts empty. */
    constructor ()
      ensures Valid()
      ensures traits == map[]
    {
      traits := map[];
    }

    /** Registration of a trait definition: stores it under its identifier, overwriting any
        entry of that name, and hands the definition back unchanged. */
    method Register(input: ItemTrait) returns (output: ItemTrait)
      requires Valid()
      modifies this
      ensures Valid()
      ensures traits == Registered(old(traits), input)
      ensures output == input
    {
      traits := traits[input.ident := input];
      output := input;
    }
  }
}
