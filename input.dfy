/**
 * Reading of the union declaration: the outer attributes are split into the `auto_impl(...)`
 * lists, which are consumed, and the other attributes, which are passed through; the
 * visibility, name and variant list follow.
 */
module Input {
  import opened Wrappers
  import opened Syntax

  const AutoImplIdent: string := "auto_impl"

  /** The parsed union declaration. */
  datatype TypeWrapInput = TypeWrapInput(
    attrs: seq<Attribute>,
    autoImpls: seq<Path>,
    vis: Visibility,
    ident: string,
    variants: seq<VariantPath>)

  /** The two ways the attribute split aborts: `Vec::remove` past the end of the list,
      and an `auto_impl` list whose tokens do not read as comma-separated paths. */
  datatype ParseError =
    | RemoveOutOfBounds(index: nat, len: nat)
    | AutoImplArgsInvalid(attr: Attribute)

  /** A list-form attribute whose path is exactly the identifier `auto_impl`. */
  predicate IsAutoImpl(a: Attribute) {
    a.meta.MetaList? && GetIdent(a.meta.path) == Some(AutoImplIdent)
  }

  /** The positions, from `from` on, of the `auto_impl` attributes, in increasing order. */
  function AutoImplIndicesFrom(attrs: seq<Attribute>, from: nat): (r: seq<nat>)
    requires from <= |attrs|
    ensures forall k :: 0 <= k < |r| ==> from <= r[k] < |attrs| && IsAutoImpl(attrs[r[k]])
    decreases |attrs| - from
  {
    if from == |attrs| then []
    else (if IsAutoImpl(attrs[from]) then [from] else []) + AutoImplIndicesFrom(attrs, from + 1)
  }

  /** The recorded positions are exactly those of the `auto_impl` attributes from `from` on. */
  lemma {:induction false} AutoImplMembers(attrs: seq<Attribute>, from: nat)
    requires from <= |attrs|
    ensures forall x :: x in AutoImplIndicesFrom(attrs, from) <==> from <= x < |attrs| && IsAutoImpl(attrs[x])
    decreases |attrs| - from
  {
    if from < |attrs| {
      AutoImplMembers(attrs, from + 1);
      var head: seq<nat> := if IsAutoImpl(attrs[from]) then [from] else [];
      var rest := AutoImplIndicesFrom(attrs, from + 1);
      assert AutoImplIndicesFrom(attrs, from) == head + rest;
      forall x ensures x in head + rest <==> from <= x < |attrs| && IsAutoImpl(attrs[x]) {
        assert x in head + rest <==> x in head || x in rest;
        assert x in rest <==> from + 1 <= x < |attrs| && IsAutoImpl(attrs[x]);
        if IsAutoImpl(attrs[from]) {
          assert x in head <==> x == from;
        } else {
          assert x !in head;
        }
      }
    }
  }

  /** Of two recorded positions, the earlier recorded is the smaller. */
  lemma {:induction false} AutoImplOrdered(attrs: seq<Attribute>, from: nat, a: nat, b: nat)
    requires from <= |attrs| && a < b < |AutoImplIndicesFrom(attrs, from)|
    ensures AutoImplIndicesFrom(attrs, from)[a] < AutoImplIndicesFrom(attrs, from)[b]
    decreases |attrs| - from
  {
    var rest := AutoImplIndicesFrom(attrs, from + 1);
    if IsAutoImpl(attrs[from]) {
      assert AutoImplIndicesFrom(attrs, from) == [from] + rest;
      if a == 0 {
        assert from + 1 <= rest[b - 1];
      } else {
        AutoImplOrdered(attrs, from + 1, a - 1, b - 1);
      }
    } else {
      assert AutoImplIndicesFrom(attrs, from) == rest;
      AutoImplOrdered(attrs, from + 1, a, b);
    }
  }

  /** The recorded positions are strictly increasing, so each is recorded once. */
  lemma AutoImplIncreasing(attrs: seq<Attribute>, from: nat)
    requires from <= |attrs|
    ensures forall a, b :: 0 <= a < b < |AutoImplIndicesFrom(attrs, from)| ==>
      AutoImplIndicesFrom(attrs, from)[a] < AutoImplIndicesFrom(attrs, from)[b]
  {
    forall a, b | 0 <= a < b < |AutoImplIndicesFrom(attrs, from)|
      ensures AutoImplIndicesFrom(attrs, from)[a] < AutoImplIndicesFrom(attrs, from)[b]
    {
      AutoImplOrdered(attrs, from, a, b);
    }
  }

  function AutoImplIndices(attrs: seq<Attribute>): (r: seq<nat>)
    ensures forall k :: 0 <= k < |r| ==> r[k] < |attrs| && IsAutoImpl(attrs[r[k]])
  {
    AutoImplIndicesFrom(attrs, 0)
  }

  function RemoveAt<T>(s: seq<T>, i: nat): seq<T>
    requires i < |s|
  {
    s[..i] + s[i + 1..]
  }

  /** The paths an attribute contributes: those listed in it if it is a readable `auto_impl`. */
  function ListedPaths(a: Attribute): seq<Path> {
    if IsAutoImpl(a) && a.meta.args.Some? then a.meta.args.value else []
  }

  /** All requested trait paths: attribute by attribute, each in its listed order. */
  function AutoImplPaths(attrs: seq<Attribute>): seq<Path> {
    if attrs == [] then [] else ListedPaths(attrs[0]) + AutoImplPaths(attrs[1..])
  }

  /** The attributes that are not `auto_impl`, in their original order. */
  function NonAutoImpl(attrs: seq<Attribute>): seq<Attribute> {
    if attrs == [] then []
    else (if IsAutoImpl(attrs[0]) then [] else [attrs[0]]) + NonAutoImpl(attrs[1..])
  }

  /** The first `auto_impl` attribute whose arguments do not read as paths. */
  function FirstInvalid(attrs: seq<Attribute>): Option<Attribute> {
    if attrs == [] then None
    else if IsAutoImpl(attrs[0]) && attrs[0].meta.args.None? then Some(attrs[0])
    else FirstInvalid(attrs[1..])
  }

  function Prepend(ps: seq<Path>, r: Result<(seq<Attribute>, seq<Path>), ParseError>)
    : Result<(seq<Attribute>, seq<Path>), ParseError>
  {
    match r
    case Ok((rest, paths)) => Ok((rest, ps + paths))
    case Err(e) => Err(e)
  }

  /** The attribute split as the macro performs it: each recorded ORIGINAL position is removed,
      in turn, from the CURRENT list, which has already shrunk by the earlier removals; the
      attribute's arguments are read right after its removal. */
  function RemoveEach(orig: seq<Attribute>, live: seq<Attribute>, idxs: seq<nat>)
    : Result<(seq<Attribute>, seq<Path>), ParseError>
    requires forall k :: 0 <= k < |idxs| ==> idxs[k] < |orig| && IsAutoImpl(orig[idxs[k]])
    decreases |idxs|
  {
    if idxs == [] then Ok((live, []))
    else
      var i := idxs[0];
      if i >= |live| then Err(RemoveOutOfBounds(i, |live|))
      else
        assert IsAutoImpl(orig[i]);
        match orig[i].meta.args
        case None => Err(AutoImplArgsInvalid(orig[i]))
        case Some(ps) => Prepend(ps, RemoveEach(orig, RemoveAt(live, i), idxs[1..]))
  }

  /** The outcome of the attribute split as written. */
  function ExtractAsWritten(attrs: seq<Attribute>): Result<(seq<Attribute>, seq<Path>), ParseError> {
    RemoveEach(attrs, attrs, AutoImplIndices(attrs))
  }

  /** The outcome the split is evidently meant to have: every `auto_impl` attribute removed,
      the rest kept in order, the listed paths collected in order. */
  function ExtractIntended(attrs: seq<Attribute>): Result<(seq<Attribute>, seq<Path>), ParseError> {
    match FirstInvalid(attrs)
    case Some(a) => Err(AutoImplArgsInvalid(a))
    case None => Ok((NonAutoImpl(attrs), AutoImplPaths(attrs)))
  }

  function Assemble(
    split: Result<(seq<Attribute>, seq<Path>), ParseError>,
    vis: Visibility, ident: string, variants: seq<VariantPath>)
    : Result<TypeWrapInput, ParseError>
  {
    match split
    case Ok((rest, paths)) => Ok(TypeWrapInput(rest, paths, vis, ident, variants))
    case Err(e) => Err(e)
  }

  lemma PrependTwice(a: seq<Path>, b: seq<Path>, r: Result<(seq<Attribute>, seq<Path>), ParseError>)
    ensures Prepend(a, Prepend(b, r)) == Prepend(a + b, r)
  {
    if r.Ok? {
      assert a + (b + r.value.1) == (a + b) + r.value.1;
    }
  }

  lemma PrependNothing(r: Result<(seq<Attribute>, seq<Path>), ParseError>)
    ensures Prepend([], r) == r
  {
    if r.Ok? {
      assert [] + r.value.1 == r.value.1;
    }
  }

  /** One step of the split at an `auto_impl` position. */
  lemma RemoveEachAt(orig: seq<Attribute>, live: seq<Attribute>, index: nat)
    requires index < |orig| && IsAutoImpl(orig[index])
    ensures RemoveEach(orig, live, AutoImplIndicesFrom(orig, index))
      == if index >= |live| then Err(RemoveOutOfBounds(index, |live|))
         else if orig[index].meta.args.None? then Err(AutoImplArgsInvalid(orig[index]))
         else Prepend(orig[index].meta.args.value,
                      RemoveEach(orig, RemoveAt(live, index), AutoImplIndicesFrom(orig, index + 1)))
  {
    var idxs := AutoImplIndicesFrom(orig, index);
    assert idxs == [index] + AutoImplIndicesFrom(orig, index + 1);
    assert idxs[0] == index && idxs[1..] == AutoImplIndicesFrom(orig, index + 1);
  }

  /** The state of the parsing loop before position `index`: what remains of the split as
      written, from the live list on, yields the whole split once the paths collected so
      far are put in front. */
  ghost predicate ParseState(outer: seq<Attribute>, attrs: seq<Attribute>, autoImpls: seq<Path>, index: nat) {
    index <= |outer| &&
    ExtractAsWritten(outer) == Prepend(autoImpls, RemoveEach(outer, attrs, AutoImplIndicesFrom(outer, index)))
  }

  lemma ParseStart(outer: seq<Attribute>)
    ensures ParseState(outer, outer, [], 0)
  {
    PrependNothing(ExtractAsWritten(outer));
  }

  /** A position that is not an `auto_impl` attribute leaves the split unchanged. */
  lemma ParseSkip(outer: seq<Attribute>, attrs: seq<Attribute>, autoImpls: seq<Path>, index: nat)
    requires index < |outer| && !IsAutoImpl(outer[index])
    requires ParseState(outer, attrs, autoImpls, index)
    ensures ParseState(outer, attrs, autoImpls, index + 1)
  {
    assert AutoImplIndicesFrom(outer, index) == AutoImplIndicesFrom(outer, index + 1);
  }

  /** A readable `auto_impl` attribute at a position still inside the live list is removed
      there and its paths are collected. */
  lemma ParseTake(outer: seq<Attribute>, attrs: seq<Attribute>, autoImpls: seq<Path>, index: nat)
    requires index < |outer| && IsAutoImpl(outer[index]) && outer[index].meta.args.Some?
    requires index < |attrs|
    requires ParseState(outer, attrs, autoImpls, index)
    ensures ParseState(outer, RemoveAt(attrs, index), autoImpls + outer[index].meta.args.value, index + 1)
  {
    RemoveEachAt(outer, attrs, index);
    PrependTwice(autoImpls, outer[index].meta.args.value,
                 RemoveEach(outer, RemoveAt(attrs, index), AutoImplIndicesFrom(outer, index + 1)));
  }

  /** An `auto_impl` attribute at a position past the live list, or one whose arguments do
      not read as paths, ends the split with that error. */
  lemma ParseAbort(outer: seq<Attribute>, attrs: seq<Attribute>, autoImpls: seq<Path>, index: nat)
    requires index < |outer| && IsAutoImpl(outer[index])
    requires ParseState(outer, attrs, autoImpls, index)
    ensures index >= |attrs| ==> ExtractAsWritten(outer) == Err(RemoveOutOfBounds(index, |attrs|))
    ensures index < |attrs| && outer[index].meta.args.None? ==>
      ExtractAsWritten(outer) == Err(AutoImplArgsInvalid(outer[index]))
  {
    RemoveEachAt(outer, attrs, index);
  }

  /** At the end of the list the split is what has been kept and collected. */
  lemma ParseDone(outer: seq<Attribute>, attrs: seq<Attribute>, autoImpls: seq<Path>)
    requires ParseState(outer, attrs, autoImpls, |outer|)
    ensures ExtractAsWritten(outer) == Ok((attrs, autoImpls))
  {
    assert AutoImplIndicesFrom(outer, |outer|) == [];
    assert autoImpls + [] == autoImpls;
  }

  /** Reading of the declaration (`TypeWrapInput::parse`), after the attributes, visibility,
      name and variants have been read by the parsing library. The loop walks the ORIGINAL
      attribute list by position and removes each `auto_impl` attribute at that position
      from the live list, exactly as the macro does. */
  method Parse(outer: seq<Attribute>, vis: Visibility, ident: string, variants: seq<VariantPath>)
    returns (r: Result<TypeWrapInput, ParseError>)
    ensures r == Assemble(ExtractAsWritten(outer), vis, ident, variants)
  {
    var attrs := outer;
    var autoImpls: seq<Path> := [];
    var index := 0;
    ParseStart(outer);
    while index < |outer|
      invariant ParseState(outer, attrs, autoImpls, index)
    {
      var attr := outer[index];
      if IsAutoImpl(attr) {
        ParseAbort(outer, attrs, autoImpls, index);
        if index >= |attrs| {
          return Err(RemoveOutOfBounds(index, |attrs|));
        }
        if attr.meta.args.None? {
          return Err(AutoImplArgsInvalid(attr));
        }
        ParseTake(outer, attrs, autoImpls, index);
        attrs := RemoveAt(attrs, index);
        autoImpls := autoImpls + attr.meta.args.value;
      } else {
        ParseSkip(outer, attrs, autoImpls, index);
      }
      index := index + 1;
    }
    ParseDone(outer, attrs, autoImpls);
    r := Ok(TypeWrapInput(attrs, autoImpls, vis, ident, variants));
  }

  // Properties of the split

  /** The three summaries of an attribute list distribute over concatenation. */
  lemma {:induction false} PathsAppend(a: seq<Attribute>, b: seq<Attribute>)
    ensures AutoImplPaths(a + b) == AutoImplPaths(a) + AutoImplPaths(b)
  {
    if a != [] {
      assert (a + b)[0] == a[0];
      assert (a + b)[1..] == a[1..] + b;
      PathsAppend(a[1..], b);
    } else {
      assert a + b == b;
    }
  }

  lemma {:induction false} OthersAppend(a: seq<Attribute>, b: seq<Attribute>)
    ensures NonAutoImpl(a + b) == NonAutoImpl(a) + NonAutoImpl(b)
  {
    if a != [] {
      assert (a + b)[0] == a[0];
      assert (a + b)[1..] == a[1..] + b;
      OthersAppend(a[1..], b);
    } else {
      assert a + b == b;
    }
  }

  lemma {:induction false} InvalidAppend(a: seq<Attribute>, b: seq<Attribute>)
    ensures FirstInvalid(a + b) == if FirstInvalid(a).Some? then FirstInvalid(a) else FirstInvalid(b)
  {
    if a != [] {
      assert (a + b)[0] == a[0];
      assert (a + b)[1..] == a[1..] + b;
      InvalidAppend(a[1..], b);
    } else {
      assert a + b == b;
    }
  }

  /** A list that requests nothing and is passed through whole. */
  ghost predicate Plain(t: seq<Attribute>) {
    AutoImplPaths(t) == [] && NonAutoImpl(t) == t && FirstInvalid(t) == None
  }

  /** A list without `auto_impl` attributes contributes no paths and is kept whole. */
  lemma {:induction false} WithoutAutoImpl(t: seq<Attribute>)
    requires forall j :: 0 <= j < |t| ==> !IsAutoImpl(t[j])
    ensures Plain(t)
  {
    if t != [] {
      WithoutAutoImpl(t[1..]);
    }
  }

  /** What the split does as written collects the listed paths in attribute order, then
      list order, and succeeds only if every `auto_impl` list reads as paths. */
  lemma {:induction false} RemoveEachCollects(orig: seq<Attribute>, live: seq<Attribute>, k: nat)
    requires k <= |orig|
    ensures var r := RemoveEach(orig, live, AutoImplIndicesFrom(orig, k));
      r.Ok? ==> r.value.1 == AutoImplPaths(orig[k..]) && FirstInvalid(orig[k..]) == None
    decreases |orig| - k
  {
    if k < |orig| {
      assert orig[k..][0] == orig[k];
      assert orig[k..][1..] == orig[k + 1..];
      if IsAutoImpl(orig[k]) {
        RemoveEachAt(orig, live, k);
        if k < |live| && orig[k].meta.args.Some? {
          RemoveEachCollects(orig, RemoveAt(live, k), k + 1);
        }
      } else {
        assert AutoImplIndicesFrom(orig, k) == AutoImplIndicesFrom(orig, k + 1);
        RemoveEachCollects(orig, live, k + 1);
      }
    }
  }

  lemma AsWrittenCollectsListedPaths(attrs: seq<Attribute>)
    ensures ExtractAsWritten(attrs).Ok? ==>
      ExtractAsWritten(attrs).value.1 == AutoImplPaths(attrs) && FirstInvalid(attrs) == None
  {
    RemoveEachCollects(attrs, attrs, 0);
    assert attrs[0..] == attrs;
  }

  /** Attributes other than `auto_impl` lists (path-only or name-value `auto_impl` included)
      contribute no trait paths, wherever they stand. */
  lemma OtherAttributesContributeNothing(a: seq<Attribute>, x: Attribute, b: seq<Attribute>)
    requires !IsAutoImpl(x)
    ensures AutoImplPaths(a + [x] + b) == AutoImplPaths(a + b)
  {
    SingletonSummaries(x);
    PathsAppend(a, [x]);
    PathsAppend(a + [x], b);
    PathsAppend(a, b);
    calc {
      AutoImplPaths(a + [x] + b);
      AutoImplPaths(a) + AutoImplPaths([x]) + AutoImplPaths(b);
      AutoImplPaths(a) + [] + AutoImplPaths(b);
      AutoImplPaths(a + b);
    }
  }

  /** The summaries of one attribute. */
  lemma SingletonSummaries(x: Attribute)
    ensures AutoImplPaths([x]) == ListedPaths(x)
    ensures NonAutoImpl([x]) == if IsAutoImpl(x) then [] else [x]
    ensures FirstInvalid([x]) == if IsAutoImpl(x) && x.meta.args.None? then Some(x) else None
  {
    assert [x][1..] == [];
    assert AutoImplPaths([x]) == ListedPaths(x) + [];
    assert NonAutoImpl([x]) == (if IsAutoImpl(x) then [] else [x]) + [];
  }

  /** Splitting a list around position i and joining the pieces gives it back. */
  lemma SplitAround<T>(s: seq<T>, i: nat)
    requires i < |s|
    ensures s == s[..i] + [s[i]] + s[i + 1..]
  {
  }

  /** The summaries of a list whose only `auto_impl` attribute x stands between two plain
      pieces. */
  lemma PathsAroundOne(before: seq<Attribute>, x: Attribute, after: seq<Attribute>)
    requires Plain(before) && Plain(after)
    ensures AutoImplPaths(before + [x] + after) == ListedPaths(x)
  {
    SingletonSummaries(x);
    PathsAppend(before, [x]);
    PathsAppend(before + [x], after);
    calc {
      AutoImplPaths(before + [x] + after);
      AutoImplPaths(before) + AutoImplPaths([x]) + AutoImplPaths(after);
      [] + ListedPaths(x) + [];
      ListedPaths(x);
    }
  }

  lemma OthersAroundOne(before: seq<Attribute>, x: Attribute, after: seq<Attribute>)
    requires IsAutoImpl(x)
    ensures NonAutoImpl(before + [x] + after) == NonAutoImpl(before) + NonAutoImpl(after)
  {
    SingletonSummaries(x);
    OthersAppend(before, [x]);
    OthersAppend(before + [x], after);
    assert NonAutoImpl(before) + NonAutoImpl([x]) == NonAutoImpl(before);
  }

  lemma InvalidAroundOne(before: seq<Attribute>, x: Attribute, after: seq<Attribute>)
    requires IsAutoImpl(x) && Plain(before) && Plain(after)
    ensures FirstInvalid(before + [x] + after) == if x.meta.args.None? then Some(x) else None
  {
    SingletonSummaries(x);
    InvalidAppend(before, [x]);
    InvalidAppend(before + [x], after);
  }

  /** Around the only `auto_impl` attribute, at position i, both sides are plain. */
  lemma PlainAroundOnly(attrs: seq<Attribute>, i: nat)
    requires AutoImplIndices(attrs) == [i]
    ensures i < |attrs| && IsAutoImpl(attrs[i])
    ensures Plain(attrs[..i]) && Plain(attrs[i + 1..])
  {
    var idxs := AutoImplIndices(attrs);
    AutoImplMembers(attrs, 0);
    assert idxs[0] == i;
    var before, after := attrs[..i], attrs[i + 1..];
    forall j | 0 <= j < |before| ensures !IsAutoImpl(before[j]) {
      assert before[j] == attrs[j] && j !in idxs;
    }
    forall j | 0 <= j < |after| ensures !IsAutoImpl(after[j]) {
      assert after[j] == attrs[i + 1 + j] && i + 1 + j !in idxs;
    }
    WithoutAutoImpl(before);
    WithoutAutoImpl(after);
  }

  /** The summaries of a list whose only `auto_impl` attribute stands at position i. */
  lemma SingleAutoImplSummaries(attrs: seq<Attribute>, i: nat)
    requires AutoImplIndices(attrs) == [i]
    ensures i < |attrs| && IsAutoImpl(attrs[i])
    ensures NonAutoImpl(attrs) == RemoveAt(attrs, i)
    ensures AutoImplPaths(attrs) == ListedPaths(attrs[i])
    ensures FirstInvalid(attrs) == if attrs[i].meta.args.None? then Some(attrs[i]) else None
  {
    PlainAroundOnly(attrs, i);
    var before, x, after := attrs[..i], attrs[i], attrs[i + 1..];
    PathsAroundOne(before, x, after);
    OthersAroundOne(before, x, after);
    InvalidAroundOne(before, x, after);
    SplitAround(attrs, i);
  }

  /** Without `auto_impl` attributes every attribute is kept and no trait is requested. */
  lemma AsWrittenWithoutAutoImpl(attrs: seq<Attribute>)
    requires AutoImplIndices(attrs) == []
    ensures ExtractAsWritten(attrs) == Ok((attrs, []))
    ensures ExtractIntended(attrs) == ExtractAsWritten(attrs)
  {
    AutoImplMembers(attrs, 0);
    forall j | 0 <= j < |attrs| ensures !IsAutoImpl(attrs[j]) {
      assert j !in AutoImplIndices(attrs);
    }
    WithoutAutoImpl(attrs);
  }

  /** With exactly one `auto_impl` attribute the split as written has the intended outcome:
      exactly that attribute is removed, the order of the rest is unchanged, and its listed
      paths are the requested traits. */
  lemma AsWrittenSingleAutoImpl(attrs: seq<Attribute>, i: nat)
    requires AutoImplIndices(attrs) == [i]
    ensures i < |attrs| && IsAutoImpl(attrs[i])
    ensures ExtractAsWritten(attrs) == ExtractIntended(attrs)
    ensures attrs[i].meta.args.Some? ==>
      ExtractAsWritten(attrs) == Ok((RemoveAt(attrs, i), attrs[i].meta.args.value))
  {
    SingleAutoImplSummaries(attrs, i);
    var idxs := AutoImplIndices(attrs);
    assert idxs[0] == i && idxs[1..] == [];
    if attrs[i].meta.args.Some? {
      var ps := attrs[i].meta.args.value;
      assert ExtractAsWritten(attrs) == Prepend(ps, RemoveEach(attrs, RemoveAt(attrs, i), []));
      assert ps + [] == ps;
    }
  }

  /** Removing the first of two recorded positions, as written. */
  lemma RemoveFirstOfTwo(orig: seq<Attribute>, live: seq<Attribute>, i: nat, j: nat)
    requires i < |orig| && IsAutoImpl(orig[i]) && orig[i].meta.args.Some?
    requires j < |orig| && IsAutoImpl(orig[j])
    requires i < |live|
    ensures RemoveEach(orig, live, [i, j])
      == Prepend(orig[i].meta.args.value, RemoveEach(orig, RemoveAt(live, i), [j]))
  {
    assert [i, j][0] == i && [i, j][1..] == [j];
  }

  /** Removing the last recorded position, as written. */
  lemma RemoveLast(orig: seq<Attribute>, live: seq<Attribute>, j: nat)
    requires j < |orig| && IsAutoImpl(orig[j]) && orig[j].meta.args.Some?
    ensures RemoveEach(orig, live, [j])
      == if j >= |live| then Err(RemoveOutOfBounds(j, |live|))
         else Ok((RemoveAt(live, j), orig[j].meta.args.value))
  {
    assert [j][0] == j && [j][1..] == [];
    if j < |live| {
      assert orig[j].meta.args.value + [] == orig[j].meta.args.value;
    }
  }

  /** Removing position i and then the stale position j > i drops the element after j. */
  lemma StaleRemoval<T>(s: seq<T>, i: nat, j: nat)
    requires i < j < |s| - 1
    ensures RemoveAt(RemoveAt(s, i), j) == s[..i] + s[i + 1..j + 1] + s[j + 2..]
    ensures RemoveAt(RemoveAt(s, i), j)[j - 1] == s[j]
  {
    var live := RemoveAt(s, i);
    assert live[..j] == s[..i] + s[i + 1..j + 1];
    assert live[j + 1..] == s[j + 2..];
  }

  /** As written, with two `auto_impl` attributes the second removal uses a stale position:
      if the second one is last the removal is out of bounds and parsing aborts; otherwise
      the attribute AFTER it is dropped and the second `auto_impl` attribute is passed
      through to the generated enum. */
  lemma AsWrittenTwoAutoImpls(attrs: seq<Attribute>, i: nat, j: nat)
    requires AutoImplIndices(attrs) == [i, j]
    requires i < j < |attrs| && IsAutoImpl(attrs[i]) && IsAutoImpl(attrs[j])
    requires attrs[i].meta.args.Some? && attrs[j].meta.args.Some?
    ensures j == |attrs| - 1 ==> ExtractAsWritten(attrs) == Err(RemoveOutOfBounds(j, |attrs| - 1))
    ensures j < |attrs| - 1 ==>
      && ExtractAsWritten(attrs).Ok?
      && ExtractAsWritten(attrs).value.0 == attrs[..i] + attrs[i + 1..j + 1] + attrs[j + 2..]
      && ExtractAsWritten(attrs).value.0[j - 1] == attrs[j]
      && IsAutoImpl(ExtractAsWritten(attrs).value.0[j - 1])
  {
    var idxs := AutoImplIndices(attrs);
    AutoImplIncreasing(attrs, 0);
    assert idxs[0] == i && idxs[1] == j;
    assert IsAutoImpl(attrs[i]) && IsAutoImpl(attrs[j]) && i < j;
    var live := RemoveAt(attrs, i);
    RemoveFirstOfTwo(attrs, attrs, i, j);
    RemoveLast(attrs, live, j);
    if j < |attrs| - 1 {
      StaleRemoval(attrs, i, j);
    }
  }

  /** Two readable `auto_impl` attributes and nothing else: the intended split consumes both. */
  lemma IntendedOfTwo(x: Attribute, y: Attribute)
    requires IsAutoImpl(x) && IsAutoImpl(y) && x.meta.args.Some? && y.meta.args.Some?
    ensures ExtractIntended([x, y]) == Ok(([], x.meta.args.value + y.meta.args.value))
  {
    SingletonSummaries(x);
    SingletonSummaries(y);
    assert [x, y] == [x] + [y];
    PathsAppend([x], [y]);
    OthersAppend([x], [y]);
    InvalidAppend([x], [y]);
  }

  /** The shortest input that shows the stale-position removal: two `auto_impl` attributes
      and nothing else abort parsing, where both should simply be consumed. */
  lemma TwoAutoImplAttributesAbort(a: Path, b: Path)
    ensures ExtractAsWritten([AutoImplAttr([a]), AutoImplAttr([b])]) == Err(RemoveOutOfBounds(1, 1))
    ensures ExtractIntended([AutoImplAttr([a]), AutoImplAttr([b])]) == Ok(([], [a, b]))
  {
    var x, y := AutoImplAttr([a]), AutoImplAttr([b]);
    var attrs := [x, y];
    assert IsAutoImpl(x) && IsAutoImpl(y);
    assert AutoImplIndices(attrs) == [0, 1] by {
      assert AutoImplIndicesFrom(attrs, 2) == [];
      assert AutoImplIndicesFrom(attrs, 1) == [1];
    }
    AsWrittenTwoAutoImpls(attrs, 0, 1);
    IntendedOfTwo(x, y);
    assert x.meta.args.value + y.meta.args.value == [a] + [b] == [a, b];
  }

  /** The attribute `#[auto_impl(paths)]`. */
  function AutoImplAttr(paths: seq<Path>): Attribute {
    Attribute(MetaList(Path(false, [PathSegment(AutoImplIdent, None)]), Some(paths)))
  }

  /** The intended split removes every `auto_impl` attribute and keeps every other one. */
  lemma {:induction false} IntendedKeepsExactlyTheOthers(attrs: seq<Attribute>)
    ensures forall a :: a in NonAutoImpl(attrs) <==> a in attrs && !IsAutoImpl(a)
    ensures |NonAutoImpl(attrs)| + |AutoImplIndices(attrs)| == |attrs|
  {
    if attrs != [] {
      IntendedKeepsExactlyTheOthers(attrs[1..]);
      IndicesCount(attrs, 0);
      IndicesCount(attrs[1..], 0);
    } else {
      IndicesCount(attrs, 0);
    }
  }

  /** Counting `auto_impl` positions from `from` on. */
  lemma {:induction false} IndicesCount(attrs: seq<Attribute>, from: nat)
    requires from <= |attrs|
    ensures |AutoImplIndicesFrom(attrs, from)| == |attrs[from..]| - |NonAutoImpl(attrs[from..])|
    decreases |attrs| - from
  {
    if from < |attrs| {
      assert attrs[from..][0] == attrs[from];
      assert attrs[from..][1..] == attrs[from + 1..];
      IndicesCount(attrs, from + 1);
    }
  }

  /** One forward step of the intended split: the summaries of a prefix with no invalid
      `auto_impl` attribute, grown by one. */
  lemma CollectStep(outer: seq<Attribute>, index: nat)
    requires index < |outer|
    requires FirstInvalid(outer[..index]) == None
    ensures AutoImplPaths(outer[..index + 1]) == AutoImplPaths(outer[..index]) + ListedPaths(outer[index])
    ensures FirstInvalid(outer[..index + 1])
      == if IsAutoImpl(outer[index]) && outer[index].meta.args.None? then Some(outer[index]) else None
  {
    var attr := outer[index];
    assert outer[..index + 1] == outer[..index] + [attr];
    SingletonSummaries(attr);
    PathsAppend(outer[..index], [attr]);
    InvalidAppend(outer[..index], [attr]);
  }

  /** The first invalid attribute of a prefix is the first invalid attribute of the whole. */
  lemma InvalidInPrefix(outer: seq<Attribute>, n: nat)
    requires n <= |outer|
    ensures FirstInvalid(outer[..n]).Some? ==> FirstInvalid(outer) == FirstInvalid(outer[..n])
  {
    assert outer == outer[..n] + outer[n..];
    InvalidAppend(outer[..n], outer[n..]);
  }

  /** Removing the element between two pieces leaves the two pieces. */
  lemma RemoveBetween<T>(p: seq<T>, x: T, t: seq<T>)
    ensures |p| < |p + [x] + t|
    ensures RemoveAt(p + [x] + t, |p|) == p + t
  {
    var s := p + [x] + t;
    assert s[..|p|] == p;
    assert s[|p| + 1..] == t;
  }

  /** One backward step of the intended split: removing position `index` if it holds an
      `auto_impl` attribute extends the filtered suffix by one. */
  lemma RemoveBackStep(outer: seq<Attribute>, index: nat, attrs: seq<Attribute>)
    requires index < |outer|
    requires attrs == outer[..index + 1] + NonAutoImpl(outer[index + 1..])
    ensures index < |attrs|
    ensures IsAutoImpl(outer[index]) ==> RemoveAt(attrs, index) == outer[..index] + NonAutoImpl(outer[index..])
    ensures !IsAutoImpl(outer[index]) ==> attrs == outer[..index] + NonAutoImpl(outer[index..])
  {
    var pre, x, post := outer[..index], outer[index], outer[index + 1..];
    var tail := NonAutoImpl(post);
    assert outer[index..] == [x] + post;
    assert outer[..index + 1] == pre + [x];
    OthersAppend([x], post);
    SingletonSummaries(x);
    RemoveBetween(pre, x, tail);
  }

  /** Reading of the declaration as evidently intended: collect the listed paths front to
      back, then remove the `auto_impl` attributes back to front, so that no removal shifts
      a position still to be used. */
  method ParseIntended(outer: seq<Attribute>, vis: Visibility, ident: string, variants: seq<VariantPath>)
    returns (r: Result<TypeWrapInput, ParseError>)
    ensures r == Assemble(ExtractIntended(outer), vis, ident, variants)
  {
    var autoImpls: seq<Path> := [];
    var index := 0;
    while index < |outer|
      invariant 0 <= index <= |outer|
      invariant FirstInvalid(outer[..index]) == None
      invariant autoImpls == AutoImplPaths(outer[..index])
    {
      var attr := outer[index];
      CollectStep(outer, index);
      if IsAutoImpl(attr) {
        if attr.meta.args.None? {
          InvalidInPrefix(outer, index + 1);
          return Err(AutoImplArgsInvalid(attr));
        }
        autoImpls := autoImpls + attr.meta.args.value;
      }
      index := index + 1;
    }
    assert outer[..index] == outer;
    assert autoImpls == AutoImplPaths(outer) && FirstInvalid(outer) == None;
    var attrs := outer;
    assert outer[|outer|..] == [];
    index := |outer|;
    while index > 0
      invariant 0 <= index <= |outer|
      invariant attrs == outer[..index] + NonAutoImpl(outer[index..])
    {
      index := index - 1;
      RemoveBackStep(outer, index, attrs);
      if IsAutoImpl(outer[index]) {
        attrs := RemoveAt(attrs, index);
      }
    }
    assert outer[0..] == outer;
    assert attrs == NonAutoImpl(outer);
    assert ExtractIntended(outer) == Ok((attrs, autoImpls));
    r := Ok(TypeWrapInput(attrs, autoImpls, vis, ident, variants));
  }
}
