/**
 * The syntax trees the macro reads and copies, reduced to what its logic inspects.
 * Token-level details that the macro only copies through are kept as rendered text.
 */
module Syntax {
  import opened Wrappers

  /** One path segment: its identifier and, when it has generic or parenthesised
      arguments, their rendered text (for example "< T >"). */
  datatype PathSegment = PathSegment(ident: string, arguments: Option<string>)

  /** A path such as `a::b::C`, with or without a leading `::`. */
  datatype Path = Path(leadingColon: bool, segments: seq<PathSegment>)

  /** The three forms of attribute content. For the list form, `args` is the attribute's
      token list read as comma-separated paths, or None when it does not read as such. */
  datatype Meta =
    | MetaPath(path: Path)
    | MetaList(path: Path, args: Option<seq<Path>>)
    | MetaNameValue(path: Path, value: string)

  /** An outer attribute `#[...]`. */
  datatype Attribute = Attribute(meta: Meta)

  datatype Visibility = Public | Restricted(path: Path) | Inherited

  /** One entry of the union's variant list: its own attributes and the variant type. */
  datatype VariantPath = VariantPath(attrs: seq<Attribute>, path: Path)

  /** A function parameter: a `self` receiver (with `&`, `mut`, and whether it is written
      with an explicit `: Type`) or a typed parameter `pat: ty`. */
  datatype FnArg =
    | Receiver(reference: bool, mutability: bool, colonType: bool)
    | Typed(pat: string, ty: string)

  /** A method signature; generics and return type are copied verbatim, so kept as text. */
  datatype Signature = Signature(ident: string, generics: string, inputs: seq<FnArg>, output: string)

  /** A trait item: a method, or any other item (constant, type, macro). */
  datatype TraitItem = Fn(sig: Signature) | OtherItem(text: string)

  /** A trait definition as registered; its name is an identifier, as the parser reads it. */
  datatype ItemTrait = ItemTrait(ident: Ident, generics: string, items: seq<TraitItem>)

  /** A Rust identifier is a non-empty word without spaces. */
  predicate IsIdent(s: string) {
    |s| > 0 && ' ' !in s
  }

  /** The text of an identifier. */
  type Ident = s: string | IsIdent(s) witness "T"

  /** The identifier a path consists of, if it is a single plain segment without a leading `::`. */
  function GetIdent(p: Path): Option<string> {
    if !p.leadingColon && |p.segments| == 1 && p.segments[0].arguments.None?
    then Some(p.segments[0].ident)
    else None
  }

  function RenderSegment(s: PathSegment): string {
    match s.arguments
    case None => s.ident
    case Some(a) => s.ident + " " + a
  }

  function JoinSegments(segs: seq<PathSegment>): string {
    if |segs| == 0 then ""
    else if |segs| == 1 then RenderSegment(segs[0])
    else RenderSegment(segs[0]) + " :: " + JoinSegments(segs[1..])
  }

  /** The text of a path's token stream: tokens separated by spaces, `::` kept together. */
  function Render(p: Path): string {
    (if p.leadingColon then ":: " else "") + JoinSegments(p.segments)
  }

  /** A plain identifier path renders as the identifier itself. */
  lemma RenderIdentPath(p: Path)
    requires GetIdent(p).Some?
    ensures Render(p) == GetIdent(p).value
  {
  }

  /** Every path other than a plain identifier path renders with a space in it. */
  lemma {:induction false} SpaceFreeRenderIsIdentPath(p: Path)
    requires p.segments != []
    ensures ' ' !in Render(p) ==> GetIdent(p) == Some(Render(p))
  {
    if p.leadingColon {
      assert Render(p)[2] == ' ';
    } else if |p.segments| > 1 {
      var first := RenderSegment(p.segments[0]);
      assert Render(p) == first + " :: " + JoinSegments(p.segments[1..]);
      assert Render(p)[|first|] == ' ';
    } else if p.segments[0].arguments.Some? {
      assert Render(p)[|p.segments[0].ident|] == ' ';
    } else {
      assert Render(p) == RenderSegment(p.segments[0]);
    }
  }
}
