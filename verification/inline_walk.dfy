/**
  The inline walk: the sequence of output pieces a run of inline nodes
  turns into, before any character property id is chosen. Each wrapping
  node hands its children a copy of the active format set with one flag
  added; a link brackets its text between a field begin and a field end and
  adds underline and blue colour; kinds the converter does not handle
  produce nothing.
 */
module InlineWalk {
  import opened Wrappers
  import opened DocTree

  datatype Piece =
    | TextPiece(text: string, formats: set<Format>)
    | BreakPiece(formats: set<Format>)
    | FieldBeginPiece(url: string)
    | FieldEndPiece
    | NotePiece(blocks: seq<Block>)
    | PicturePiece(url: string, formats: set<Format>)

  /** Pieces that are written with a character property derived from the active formats. */
  predicate Formatted(p: Piece)
  {
    p.TextPiece? || p.BreakPiece? || p.PicturePiece?
  }

  /** The flag a wrapping node adds, if it is one. */
  function WrapperFlag(x: Inline): set<Format>
  {
    match x
    case Strong(_) => {BOLD}
    case Emph(_) => {ITALIC}
    case Underline(_) => {UNDERLINE}
    case Superscript(_) => {SUPERSCRIPT}
    case Subscript(_) => {SUBSCRIPT}
    case Link(_, _) => {UNDERLINE, COLOR_BLUE}
    case _ => {}
  }

  function Pieces(xs: seq<Inline>, f: set<Format>): seq<Piece>
    decreases xs
  {
    if xs == [] then [] else PiecesOf(xs[0], f) + Pieces(xs[1..], f)
  }

  function PiecesOf(x: Inline, f: set<Format>): seq<Piece>
    decreases x
  {
    match x
    case Str(t) => [TextPiece(t, f)]
    case Space => [TextPiece(" ", f)]
    case Strong(c) => Pieces(c, f + {BOLD})
    case Emph(c) => Pieces(c, f + {ITALIC})
    case Underline(c) => Pieces(c, f + {UNDERLINE})
    case Superscript(c) => Pieces(c, f + {SUPERSCRIPT})
    case Subscript(c) => Pieces(c, f + {SUBSCRIPT})
    case Link(c, url) => [FieldBeginPiece(url)] + Pieces(c, f + {UNDERLINE, COLOR_BLUE}) + [FieldEndPiece]
    case Note(bs) => [NotePiece(bs)]
    case Code(t) => [TextPiece(t, f)]
    case Image(_, url) => [PicturePiece(url, f)]
    case SoftBreak => [TextPiece(" ", f)]
    case LineBreak => [BreakPiece(f)]
    case Strikeout(_) => []
    case SmallCaps(_) => []
    case Quoted(_) => []
    case OtherInline(_) => []
  }

  lemma {:induction false} PiecesAppend(xs: seq<Inline>, ys: seq<Inline>, f: set<Format>)
    ensures Pieces(xs + ys, f) == Pieces(xs, f) + Pieces(ys, f)
    decreases |xs|
  {
    if xs == [] {
      assert xs + ys == ys;
    } else {
      assert (xs + ys)[0] == xs[0];
      assert (xs + ys)[1..] == xs[1..] + ys;
      PiecesAppend(xs[1..], ys, f);
    }
  }

  // ---------------------------------------------------------------------
  // Format threading

  /** Every flag some wrapping node in `xs` adds, footnote bodies excluded. */
  function Flags(xs: seq<Inline>): set<Format>
    decreases xs
  {
    if xs == [] then {} else FlagsOf(xs[0]) + Flags(xs[1..])
  }

  function FlagsOf(x: Inline): set<Format>
    decreases x
  {
    match x
    case Strong(c) => {BOLD} + Flags(c)
    case Emph(c) => {ITALIC} + Flags(c)
    case Underline(c) => {UNDERLINE} + Flags(c)
    case Superscript(c) => {SUPERSCRIPT} + Flags(c)
    case Subscript(c) => {SUBSCRIPT} + Flags(c)
    case Link(c, _) => {UNDERLINE, COLOR_BLUE} + Flags(c)
    case _ => {}
  }

  /**
    A piece keeps every format active where its node sits, and gains only
    flags of wrapping nodes around it: formats never leak from one sibling
    to the next.
   */
  lemma {:induction false} FormatsBounded(xs: seq<Inline>, f: set<Format>)
    ensures forall p :: p in Pieces(xs, f) && Formatted(p) ==> f <= p.formats <= f + Flags(xs)
    decreases xs
  {
    if xs != [] {
      FormatsBoundedOf(xs[0], f);
      FormatsBounded(xs[1..], f);
    }
  }

  lemma {:induction false} FormatsBoundedOf(x: Inline, f: set<Format>)
    ensures forall p :: p in PiecesOf(x, f) && Formatted(p) ==> f <= p.formats <= f + FlagsOf(x)
    decreases x
  {
    match x
    case Strong(c) => FormatsBounded(c, f + {BOLD});
    case Emph(c) => FormatsBounded(c, f + {ITALIC});
    case Underline(c) => FormatsBounded(c, f + {UNDERLINE});
    case Superscript(c) => FormatsBounded(c, f + {SUPERSCRIPT});
    case Subscript(c) => FormatsBounded(c, f + {SUBSCRIPT});
    case Link(c, _) => FormatsBounded(c, f + {UNDERLINE, COLOR_BLUE});
    case _ =>
  }

  /** Everything written as link text is underlined and blue. */
  lemma LinkTextStyled(c: seq<Inline>, url: string, f: set<Format>)
    ensures forall p :: p in PiecesOf(Link(c, url), f) && Formatted(p) ==> UNDERLINE in p.formats && COLOR_BLUE in p.formats
  {
    FormatsBounded(c, f + {UNDERLINE, COLOR_BLUE});
  }

  // ---------------------------------------------------------------------
  // Hyperlink fields

  /**
    The open-field depth after reading the pieces from depth `open`, or
    None when a field end comes with no field open.
   */
  function FieldDepth(ps: seq<Piece>, open: nat): Option<nat>
    decreases |ps|
  {
    if ps == [] then Some(open)
    else match ps[0]
      case FieldBeginPiece(_) => FieldDepth(ps[1..], open + 1)
      case FieldEndPiece => if open == 0 then None else FieldDepth(ps[1..], open - 1)
      case _ => FieldDepth(ps[1..], open)
  }

  lemma {:induction false} FieldDepthAppend(a: seq<Piece>, b: seq<Piece>, open: nat)
    ensures FieldDepth(a + b, open) == match FieldDepth(a, open) { case None => None case Some(d) => FieldDepth(b, d) }
    decreases |a|
  {
    if a == [] {
      assert a + b == b;
    } else {
      assert (a + b)[0] == a[0];
      assert (a + b)[1..] == a[1..] + b;
      match a[0]
      case FieldBeginPiece(_) => FieldDepthAppend(a[1..], b, open + 1);
      case FieldEndPiece => if open > 0 { FieldDepthAppend(a[1..], b, open - 1); }
      case _ => FieldDepthAppend(a[1..], b, open);
    }
  }

  /** Field begins and ends are balanced and properly nested, whatever is open around them. */
  lemma {:induction false} FieldsBalanced(xs: seq<Inline>, f: set<Format>, open: nat)
    ensures FieldDepth(Pieces(xs, f), open) == Some(open)
    decreases xs
  {
    if xs != [] {
      FieldDepthAppend(PiecesOf(xs[0], f), Pieces(xs[1..], f), open);
      FieldsBalancedOf(xs[0], f, open);
      FieldsBalanced(xs[1..], f, open);
    }
  }

  lemma {:induction false} FieldsBalancedOf(x: Inline, f: set<Format>, open: nat)
    ensures FieldDepth(PiecesOf(x, f), open) == Some(open)
    decreases x
  {
    match x
    case Strong(c) => FieldsBalanced(c, f + {BOLD}, open);
    case Emph(c) => FieldsBalanced(c, f + {ITALIC}, open);
    case Underline(c) => FieldsBalanced(c, f + {UNDERLINE}, open);
    case Superscript(c) => FieldsBalanced(c, f + {SUPERSCRIPT}, open);
    case Subscript(c) => FieldsBalanced(c, f + {SUBSCRIPT}, open);
    case Link(c, url) =>
      var inner := Pieces(c, f + {UNDERLINE, COLOR_BLUE});
      FieldsBalanced(c, f + {UNDERLINE, COLOR_BLUE}, open + 1);
      FieldDepthAppend([FieldBeginPiece(url)] + inner, [FieldEndPiece], open);
      FieldDepthAppend([FieldBeginPiece(url)], inner, open);
    case _ =>
  }

  /** Link targets in document order, footnote bodies excluded. */
  function LinkTargets(xs: seq<Inline>): seq<string>
    decreases xs
  {
    if xs == [] then [] else LinkTargetsOf(xs[0]) + LinkTargets(xs[1..])
  }

  function LinkTargetsOf(x: Inline): seq<string>
    decreases x
  {
    match x
    case Strong(c) => LinkTargets(c)
    case Emph(c) => LinkTargets(c)
    case Underline(c) => LinkTargets(c)
    case Superscript(c) => LinkTargets(c)
    case Subscript(c) => LinkTargets(c)
    case Link(c, url) => [url] + LinkTargets(c)
    case _ => []
  }

  /** The targets of the field begins among the pieces, in order. */
  function FieldUrls(ps: seq<Piece>): seq<string>
    decreases |ps|
  {
    if ps == [] then [] else (if ps[0].FieldBeginPiece? then [ps[0].url] else []) + FieldUrls(ps[1..])
  }

  lemma {:induction false} FieldUrlsAppend(a: seq<Piece>, b: seq<Piece>)
    ensures FieldUrls(a + b) == FieldUrls(a) + FieldUrls(b)
    decreases |a|
  {
    if a == [] {
      assert a + b == b;
    } else {
      assert (a + b)[0] == a[0];
      assert (a + b)[1..] == a[1..] + b;
      FieldUrlsAppend(a[1..], b);
    }
  }

  /** One field is opened per link, in document order, with that link's target. */
  lemma {:induction false} OneFieldPerLink(xs: seq<Inline>, f: set<Format>)
    ensures FieldUrls(Pieces(xs, f)) == LinkTargets(xs)
    decreases xs
  {
    if xs != [] {
      FieldUrlsAppend(PiecesOf(xs[0], f), Pieces(xs[1..], f));
      OneFieldPerLinkOf(xs[0], f);
      OneFieldPerLink(xs[1..], f);
    }
  }

  lemma {:induction false} OneFieldPerLinkOf(x: Inline, f: set<Format>)
    ensures FieldUrls(PiecesOf(x, f)) == LinkTargetsOf(x)
    decreases x
  {
    match x
    case Strong(c) => OneFieldPerLink(c, f + {BOLD});
    case Emph(c) => OneFieldPerLink(c, f + {ITALIC});
    case Underline(c) => OneFieldPerLink(c, f + {UNDERLINE});
    case Superscript(c) => OneFieldPerLink(c, f + {SUPERSCRIPT});
    case Subscript(c) => OneFieldPerLink(c, f + {SUBSCRIPT});
    case Link(c, url) =>
      OneFieldPerLink(c, f + {UNDERLINE, COLOR_BLUE});
      FieldUrlsBracketed(url, Pieces(c, f + {UNDERLINE, COLOR_BLUE}));
    case _ =>
      FieldUrlsShort(PiecesOf(x, f));
  }

  lemma FieldUrlsShort(ps: seq<Piece>)
    ensures |ps| == 0 ==> FieldUrls(ps) == []
    ensures |ps| == 1 ==> FieldUrls(ps) == if ps[0].FieldBeginPiece? then [ps[0].url] else []
  {
    if |ps| == 1 {
      FieldUrlsOne(ps[0]);
      assert ps == [ps[0]];
    }
  }

  /** Bracketing pieces by a field begin and a field end adds the begin's target in front. */
  lemma FieldUrlsBracketed(url: string, inner: seq<Piece>)
    ensures FieldUrls([FieldBeginPiece(url)] + inner + [FieldEndPiece]) == [url] + FieldUrls(inner)
  {
    FieldUrlsAppend([FieldBeginPiece(url)] + inner, [FieldEndPiece]);
    FieldUrlsAppend([FieldBeginPiece(url)], inner);
    FieldUrlsOne(FieldBeginPiece(url));
    FieldUrlsOne(FieldEndPiece);
  }

  lemma FieldUrlsOne(p: Piece)
    ensures FieldUrls([p]) == if p.FieldBeginPiece? then [p.url] else []
  {
    assert [p][1..] == [];
  }

  // ---------------------------------------------------------------------
  // Written text against the plain-text reading

  /** The text the text pieces write, concatenated. */
  function PieceText(ps: seq<Piece>): string
    decreases |ps|
  {
    if ps == [] then "" else (if ps[0].TextPiece? then ps[0].text else "") + PieceText(ps[1..])
  }

  lemma {:induction false} PieceTextAppend(a: seq<Piece>, b: seq<Piece>)
    ensures PieceText(a + b) == PieceText(a) + PieceText(b)
    decreases |a|
  {
    if a == [] {
      assert a + b == b;
    } else {
      assert (a + b)[0] == a[0];
      assert (a + b)[1..] == a[1..] + b;
      PieceTextAppend(a[1..], b);
    }
  }

  /**
    Inlines on which the walk and the plain-text reading agree: no image,
    soft break, strikeout, small caps or quotation anywhere outside footnotes.
   */
  predicate Simple(xs: seq<Inline>)
    decreases xs
  {
    xs == [] || (SimpleOf(xs[0]) && Simple(xs[1..]))
  }

  predicate SimpleOf(x: Inline)
    decreases x
  {
    match x
    case Strong(c) => Simple(c)
    case Emph(c) => Simple(c)
    case Underline(c) => Simple(c)
    case Superscript(c) => Simple(c)
    case Subscript(c) => Simple(c)
    case Link(c, _) => Simple(c)
    case Image(_, _) => false
    case SoftBreak => false
    case Strikeout(_) => false
    case SmallCaps(_) => false
    case Quoted(_) => false
    case _ => true
  }

  /** On such inlines, the text written is exactly the plain text. */
  lemma {:induction false} WrittenTextIsPlainText(xs: seq<Inline>, f: set<Format>)
    requires Simple(xs)
    ensures PieceText(Pieces(xs, f)) == PlainText(xs)
    decreases xs
  {
    if xs != [] {
      PieceTextAppend(PiecesOf(xs[0], f), Pieces(xs[1..], f));
      WrittenTextIsPlainTextOf(xs[0], f);
      WrittenTextIsPlainText(xs[1..], f);
    }
  }

  lemma {:induction false} WrittenTextIsPlainTextOf(x: Inline, f: set<Format>)
    requires SimpleOf(x)
    ensures PieceText(PiecesOf(x, f)) == PlainTextOf(x)
    decreases x
  {
    match x
    case Strong(c) => WrittenTextIsPlainText(c, f + {BOLD});
    case Emph(c) => WrittenTextIsPlainText(c, f + {ITALIC});
    case Underline(c) => WrittenTextIsPlainText(c, f + {UNDERLINE});
    case Superscript(c) => WrittenTextIsPlainText(c, f + {SUPERSCRIPT});
    case Subscript(c) => WrittenTextIsPlainText(c, f + {SUBSCRIPT});
    case Link(c, url) =>
      var inner := Pieces(c, f + {UNDERLINE, COLOR_BLUE});
      WrittenTextIsPlainText(c, f + {UNDERLINE, COLOR_BLUE});
      PieceTextAppend([FieldBeginPiece(url)] + inner, [FieldEndPiece]);
      PieceTextAppend([FieldBeginPiece(url)], inner);
      assert PieceText([FieldBeginPiece(url)]) == "";
      assert PieceText([FieldEndPiece]) == "";
    case _ =>
  }
}
