/**
  The converter: the header records it extends while converting (character
  properties, paragraph properties, numberings, border fills), its running
  largest ids, the cache of derived character properties, the image
  registry, and the walk over the document tree that writes fragments.
 */
module Converter {
  import opened Wrappers
  import opened DocTree
  import opened TextHelpers
  import opened HeaderModel
  import opened StyleResolver
  import opened Placeholders
  import opened InlineWalk
  import opened TableLayout
  import opened ConversionSpec
  import opened ConversionFit

  /** Inlines written as a single run with the current character property. */
  predicate IsLeaf(x: Inline)
  {
    x.Str? || x.Space? || x.Code? || x.SoftBreak? || x.LineBreak? || x.Image?
  }

  /** The text of a leaf inline written as text: its own, or a space. */
  function LeafText(x: Inline): string
  {
    match x
    case Str(t) => t
    case Code(t) => t
    case _ => " "
  }

  /** A leaf inline is one piece of the inline walk: a picture, a break, or its text. */
  lemma LeafPiece(x: Inline, fmts: set<Format>)
    requires IsLeaf(x)
    ensures PiecesOf(x, fmts) ==
      if x.Image? then [PicturePiece(x.target, fmts)]
      else if x.LineBreak? then [BreakPiece(fmts)]
      else [TextPiece(LeafText(x), fmts)]
  {
  }

  /** Inlines whose content is written with one more format. */
  predicate IsEmphasis(x: Inline)
  {
    x.Strong? || x.Emph? || x.Underline? || x.Superscript? || x.Subscript?
  }

  /** The three ways an inline converts: through its children, through its footnote body, or always. */
  lemma InlineOkCases(tpl: Template, x: Inline)
    ensures InlineOk(tpl, x) == if x.Note? then BlocksOk(tpl, x.blocks)
                                else if IsEmphasis(x) || x.Link? then InlinesOk(tpl, x.content)
                                else true
  {
  }

  /** The item counts written back into the header containers; None where there is no such container. */
  datatype ItemCounts = ItemCounts(charPrs: Option<nat>, paraPrs: Option<nat>, numberings: Option<nat>, borderFills: Option<nat>)

  class Converter {
    const tpl: Template
    var charPrs: seq<CharPr>
    var paraPrs: seq<ParaPr>
    var numberings: seq<Numbering>
    var borderFills: seq<BorderFill>
    var maxCharPrId: nat
    var maxParaPrId: nat
    var charPrCache: map<CacheKey, nat>
    var images: seq<ImageEntry>

    /** The fields that change while converting, as one value. */
    function State(): ConverterState
      reads this
    {
      ConverterState(charPrs, paraPrs, numberings, borderFills, maxCharPrId, maxParaPrId, charPrCache, images)
    }

    ghost predicate Valid()
      reads this
    {
      Consistent(tpl, State())
    }

    twostate predicate Grew()
      reads this
    {
      Grows(tpl, old(State()), State())
    }

    constructor (tpl: Template, charPrs: seq<CharPr>, paraPrs: seq<ParaPr>, numberings: seq<Numbering>,
                 borderFills: seq<BorderFill>, maxParaPrId: nat)
      requires TemplateShape(tpl)
      requires charPrs == tpl.charPrs
      requires forall k :: 0 <= k < |charPrs| ==> charPrs[k].id <= tpl.maxCharPrId
      requires forall k :: 0 <= k < |paraPrs| ==> paraPrs[k].id <= maxParaPrId
      ensures Valid()
      ensures this.tpl == tpl && this.charPrs == charPrs && this.paraPrs == paraPrs
      ensures this.numberings == numberings && this.borderFills == borderFills
      ensures this.maxCharPrId == tpl.maxCharPrId && this.maxParaPrId == maxParaPrId
      ensures this.charPrCache == map[] && this.images == []
    {
      this.tpl := tpl;
      this.charPrs := charPrs;
      this.paraPrs := paraPrs;
      this.numberings := numberings;
      this.borderFills := borderFills;
      this.maxCharPrId := tpl.maxCharPrId;
      this.maxParaPrId := maxParaPrId;
      this.charPrCache := map[];
      this.images := [];
    }

    // -------------------------------------------------------------------
    // Character property variants

    /**
      The character property for text with base `base` under `fmts`. No
      formats: the base. A cached pair: its variant. Otherwise, with a
      header and a record to clone (the base, else record 0), a new variant
      with the next id, which exceeds every id so far; it is recorded when
      the container exists and is cached. Without either, the base, and
      nothing is cached.
     */
    method GetCharPrId(base: nat, fmts: set<Format>) returns (id: nat)
      requires Valid()
      modifies this`charPrs, this`maxCharPrId, this`charPrCache
      ensures Valid() && Grew()
      ensures IdFits(tpl, id, base, fmts, charPrCache)
      ensures fmts == {} ==> id == base && charPrCache == old(charPrCache) && charPrs == old(charPrs)
      ensures fmts != {} && (base, fmts) in old(charPrCache) ==>
        id == old(charPrCache)[(base, fmts)] && charPrCache == old(charPrCache) && charPrs == old(charPrs)
      ensures fmts != {} && (base, fmts) !in old(charPrCache) && (!tpl.hasHeader || CloneSource(old(charPrs), base).None?) ==>
        id == base && charPrCache == old(charPrCache) && charPrs == old(charPrs)
      ensures fmts != {} && (base, fmts) !in old(charPrCache) && tpl.hasHeader && CloneSource(old(charPrs), base).Some? ==>
        && id == old(maxCharPrId) + 1 && maxCharPrId == id
        && tpl.maxCharPrId < id && (forall k :: 0 <= k < |old(charPrs)| ==> old(charPrs)[k].id < id)
        && charPrCache == old(charPrCache)[(base, fmts) := id]
        && charPrs == old(charPrs) + if tpl.hasCharProperties then [ApplyFormats(CloneSource(old(charPrs), base).value, id, fmts)] else []
    {
      var key := (base, fmts);
      var src := CloneSource(charPrs, base);
      if fmts == {} {
        id := base;
      } else if key in charPrCache {
        id := charPrCache[key];
      } else if !tpl.hasHeader || src.None? {
        if tpl.hasHeader && CloneSource(tpl.charPrs, base).Some? {
          CloneSourceGrow(tpl.charPrs, charPrs, base);
        }
        id := base;
      } else {
        ghost var s0 := State();
        id := maxCharPrId + 1;
        var variant := ApplyFormats(src.value, id, fmts);
        AddVariantConsistent(tpl, s0, key, variant);
        if tpl.hasCharProperties {
          charPrs := charPrs + [variant];
        }
        maxCharPrId := id;
        charPrCache := charPrCache[key := id];
        assert State() == AddVariant(tpl, s0, key, variant);
      }
    }

    // -------------------------------------------------------------------
    // Numberings, list paragraph properties, images

    /** Adds a numbering definition whose id is one more than the largest numbering id so far. */
    method CreateNumbering(ordered: bool, start: int) returns (numId: nat)
      requires Valid() && tpl.hasHeader
      modifies this`numberings
      ensures Valid() && Grew()
      ensures numId >= 1 && IsMaxId(NumberingIds(old(numberings)), numId - 1)
      ensures numberings == old(numberings) + [NewNumbering(numId, ordered, start)]
    {
      var largest := ScanMaxId(NumberingIds(numberings));
      numId := largest + 1;
      numberings := numberings + [NewNumbering(numId, ordered, start)];
    }

    /**
      The paragraph property of a list paragraph: without the normal
      paragraph property, its id and nothing else; otherwise a list clone
      of it with the next id, recorded when the container exists.
     */
    method GetListParaPr(numId: nat, level: nat) returns (id: nat)
      requires Valid() && tpl.hasHeader
      modifies this`paraPrs, this`maxParaPrId
      ensures Valid() && Grew()
      ensures ListParaPrFits(tpl, id, numId, level, paraPrs)
      ensures FindParaPr(old(paraPrs), tpl.normalParaPrId).None? ==>
        id == tpl.normalParaPrId && paraPrs == old(paraPrs) && maxParaPrId == old(maxParaPrId)
      ensures FindParaPr(old(paraPrs), tpl.normalParaPrId).Some? ==>
        && id == old(maxParaPrId) + 1 && maxParaPrId == id
        && (forall k :: 0 <= k < |old(paraPrs)| ==> old(paraPrs)[k].id < id)
        && paraPrs == old(paraPrs) +
             if tpl.hasParaProperties then [ListParaPr(FindParaPr(old(paraPrs), tpl.normalParaPrId).value, id, numId, level)] else []
    {
      var base := FindParaPr(paraPrs, tpl.normalParaPrId);
      if base.None? {
        id := tpl.normalParaPrId;
      } else {
        ghost var s0 := State();
        id := maxParaPrId + 1;
        var p := ListParaPr(base.value, id, numId, level);
        AddListParaPrConsistent(tpl, s0, base.value, numId, level);
        if tpl.hasParaProperties {
          paraPrs := paraPrs + [p];
        }
        maxParaPrId := id;
        assert State() == AddParaPr(tpl, s0, p);
      }
    }

    /** Records an image with the extension chosen from its path; returns its index in the registry. */
    method RegisterImage(url: string) returns (index: nat)
      requires Valid()
      modifies this`images
      ensures Valid() && Grew()
      ensures images == old(images) + [ImageEntry(url, ImageExt(url))] && index == |old(images)|
    {
      index := |images|;
      images := images + [ImageEntry(url, ImageExt(url))];
    }

    // -------------------------------------------------------------------
    // Inline content

    /**
      The runs of `xs` under base `base` and active formats `fmts`: one run
      per piece of the inline walk, in order, each with the character
      property chosen for its formats, footnote bodies converted in place,
      and the images registered in walk order. Fails exactly when a
      footnote body fails.
     */
    method ProcessInlines(xs: seq<Inline>, base: nat, fmts: set<Format>) returns (r: Result<seq<Run>, ConvError>)
      requires Valid()
      modifies this
      decreases xs
      ensures Valid() && Grew()
      ensures r.Success? <==> InlinesOk(tpl, xs)
      ensures r.Success? ==> InlinesFit(tpl, r.value, xs, base, fmts, State())
      ensures r.Success? ==> RunsFit(tpl, r.value, Pieces(xs, fmts), base, charPrCache, images)
      ensures r.Success? ==> images == old(images) + InlinesImages(xs)
    {
      var runs: seq<Run> := [];
      for i := 0 to |xs|
        invariant Valid() && Grew()
        invariant InlinesOk(tpl, xs[..i])
        invariant InlinesFit(tpl, runs, xs[..i], base, fmts, State())
        invariant images == old(images) + InlinesImages(xs[..i])
      {
        ghost var s0 := State();
        var res := ProcessInline(xs[i], base, fmts);
        GrowsTrans(tpl, old(State()), s0, State());
        InlinesStep(tpl, xs, i, res.Success?);
        if res.Failure? {
          return Failure(res.error);
        }
        InlinesFitStep(tpl, runs, xs, i, res.value, base, fmts, s0, State());
        InlinesImagesStep(xs, i, old(images), s0.images, images);
        PrefixSnoc(xs, i);
        runs := runs + res.value;
      }
      assert xs[..|xs|] == xs;
      InlinesFitPieces(tpl, runs, xs, base, fmts, State());
      r := Success(runs);
    }

    /** The runs of one inline; see ProcessInlines. */
    method ProcessInline(x: Inline, base: nat, fmts: set<Format>) returns (r: Result<seq<Run>, ConvError>)
      requires Valid()
      modifies this
      decreases x
      ensures Valid() && Grew()
      ensures r.Success? <==> InlineOk(tpl, x)
      ensures r.Success? ==> InlineFit(tpl, r.value, x, base, fmts, State())
      ensures r.Success? ==> images == old(images) + InlineImages(x)
    {
      InlineOkCases(tpl, x);
      if IsLeaf(x) {
        var runs := LeafRuns(x, base, fmts);
        r := Success(runs);
      } else if IsEmphasis(x) {
        r := ProcessInlines(x.content, base, fmts + WrapperFlag(x));
      } else if x.Link? {
        var text := ProcessInlines(x.content, base, fmts + WrapperFlag(x));
        if text.Success? {
          var runs := [FieldBeginRun(x.target, LinkCommand(x.target))] + text.value + [FieldEndRun];
          assert runs[1..|runs| - 1] == text.value;
          r := Success(runs);
        } else {
          r := Failure(text.error);
        }
      } else if x.Note? {
        var body := ProcessBlocks(x.blocks);
        r := if body.Success? then Success([FootnoteRun(body.value)]) else Failure(body.error);
      } else {
        r := Success([]);
      }
    }

    /**
      The one run of a leaf inline under the current formats: text (a space
      for spaces and soft breaks), a line break, or a picture whose image is
      registered after its character property is chosen.
     */
    method LeafRuns(x: Inline, base: nat, fmts: set<Format>) returns (runs: seq<Run>)
      requires Valid() && IsLeaf(x)
      modifies this`charPrs, this`maxCharPrId, this`charPrCache, this`images
      ensures Valid() && Grew()
      ensures RunsFit(tpl, runs, PiecesOf(x, fmts), base, charPrCache, images)
      ensures images == old(images) + InlineImages(x)
    {
      var id := GetCharPrId(base, fmts);
      LeafPiece(x, fmts);
      var piece := PiecesOf(x, fmts)[0];
      if x.Image? {
        ghost var s0 := State();
        var index := RegisterImage(x.target);
        GrowsTrans(tpl, old(State()), s0, State());
        runs := [PictureRun(id, index)];
      } else if x.LineBreak? {
        runs := [LineBreakRun(id)];
      } else {
        runs := [TextRun(LeafText(x), id)];
      }
      assert RunFits(tpl, runs[0], piece, base, charPrCache, images);
      RunsFitOne(tpl, runs[0], piece, base, charPrCache, images);
    }

    // -------------------------------------------------------------------
    // Blocks

    /**
      One fragment per written block, in order, each fitting its block;
      blocks of other kinds are skipped. Fails exactly when some block fails.
     */
    method ProcessBlocks(bs: seq<Block>) returns (r: Result<seq<Fragment>, ConvError>)
      requires Valid()
      modifies this
      decreases bs
      ensures Valid() && Grew()
      ensures r.Success? <==> BlocksOk(tpl, bs)
      ensures r.Success? ==> BlocksFit(tpl, r.value, bs, State())
      ensures r.Success? ==> images == old(images) + BlocksImages(bs)
    {
      var frags: seq<Fragment> := [];
      for i := 0 to |bs|
        invariant Valid() && Grew()
        invariant BlocksOk(tpl, bs[..i])
        invariant BlocksFit(tpl, frags, bs[..i], State())
        invariant images == old(images) + BlocksImages(bs[..i])
      {
        ghost var s0 := State();
        var res := HandleBlock(bs[i]);
        GrowsTrans(tpl, old(State()), s0, State());
        BlocksStep(tpl, bs, i, res.Success?);
        if res.Failure? {
          return Failure(res.error);
        }
        BlocksFitStep(tpl, frags, bs, i, res.value, s0, State());
        BlocksImagesStep(bs, i, old(images), s0.images, images);
        PrefixSnoc(bs, i);
        frags := frags + if res.value.Some? then [res.value.value] else [];
      }
      assert bs[..|bs|] == bs;
      r := Success(frags);
    }

    /** The fragment for one block, or none for a kind that is not written. */
    method HandleBlock(b: Block) returns (r: Result<Option<Fragment>, ConvError>)
      requires Valid()
      modifies this
      decreases b, 4
      ensures Valid() && Grew()
      ensures r.Success? <==> BlockOk(tpl, b)
      ensures r.Success? ==> (r.value.Some? <==> Handles(b))
      ensures r.Success? && r.value.Some? ==> BlockFit(tpl, r.value.value, b, State())
      ensures r.Success? ==> images == old(images) + BlockImages(b)
    {
      if Handles(b) {
        var f: Result<Fragment, ConvError>;
        if b.Header? {
          f := HandleHeader(b);
        } else if b.Para? || b.Plain? {
          f := HandleBody(b);
        } else if b.BulletList? || b.OrderedList? {
          f := HandleList(b, 0, 0);
        } else if b.Table? {
          f := HandleTable(b);
        } else {
          f := Success(ParaFrag(tpl.normalStyleId, tpl.normalParaPrId, false, [TextRun(b.code, 0)]));
        }
        r := if f.Success? then Success(Some(f.value)) else Failure(f.error);
      } else {
        r := Success(None);
      }
    }

    /**
      A heading: a leading line break becomes a column break and is dropped;
      the rest is written with the style, paragraph property and base
      character property of the heading's target, which fails when the
      level is neither a placeholder nor in the outline map.
     */
    method HandleHeader(b: Block) returns (r: Result<Fragment, ConvError>)
      requires Valid() && b.Header?
      modifies this
      decreases b, 3
      ensures Valid() && Grew()
      ensures r.Success? <==> BlockOk(tpl, b)
      ensures HeaderTarget(tpl, b.level).Failure? ==> r == Failure(HeaderLevelMissing(b.level))
      ensures r.Success? ==>
        var t := HeaderTarget(tpl, b.level).value;
        var columnBreak := |b.inlines| > 0 && b.inlines[0].LineBreak?;
        && r.value.ParaFrag?
        && r.value.styleId == t.styleId && r.value.paraPrId == t.paraPrId && r.value.columnBreak == columnBreak
        && InlinesFit(tpl, r.value.runs, if columnBreak then b.inlines[1..] else b.inlines, t.charPrId, {}, State())
      ensures r.Success? ==> images == old(images) + BlockImages(b)
    {
      var xs := b.inlines;
      var columnBreak := false;
      if |xs| > 0 && xs[0].LineBreak? {
        columnBreak := true;
        xs := xs[1..];
        assert InlineOk(tpl, b.inlines[0]);
        assert forall i :: 0 <= i < |xs| ==> xs[i] == b.inlines[i + 1];
        assert InlinesOk(tpl, xs) <==> InlinesOk(tpl, b.inlines);
        assert InlinesImages(b.inlines) == InlinesImages(xs);
      }
      var target := HeaderTarget(tpl, b.level);
      if target.Failure? {
        r := Failure(target.error);
      } else {
        var runs := ProcessInlines(xs, target.value.charPrId, {});
        r := if runs.Success? then Success(ParaFrag(target.value.styleId, target.value.paraPrId, columnBreak, runs.value))
             else Failure(runs.error);
      }
    }

    /** A paragraph or plain block: written with the body target and no formats. */
    method HandleBody(b: Block) returns (r: Result<Fragment, ConvError>)
      requires Valid() && (b.Para? || b.Plain?)
      modifies this
      decreases b, 3
      ensures Valid() && Grew()
      ensures r.Success? <==> BlockOk(tpl, b)
      ensures r.Success? ==>
        var t := BodyTarget(tpl);
        && r.value.ParaFrag? && r.value == ParaFrag(t.styleId, t.paraPrId, false, r.value.runs)
        && InlinesFit(tpl, r.value.runs, b.inlines, t.charPrId, {}, State())
      ensures r.Success? ==> images == old(images) + BlockImages(b)
    {
      var t := BodyTarget(tpl);
      var runs := ProcessInlines(b.inlines, t.charPrId, {});
      r := if runs.Success? then Success(ParaFrag(t.styleId, t.paraPrId, false, runs.value)) else Failure(runs.error);
    }

    /**
      A bullet or ordered list at nesting `level`: a fresh numbering (bullet
      lists start at 1) whose id exceeds every numbering id so far, among
      them `above`, the enclosing list's; then every block of every item in
      order. Fails without a header template.
     */
    method HandleList(b: Block, level: nat, ghost above: nat) returns (r: Result<Fragment, ConvError>)
      requires Valid() && (b.BulletList? || b.OrderedList?)
      requires above == 0 || above in NumberingIds(numberings)
      modifies this
      decreases b, 3
      ensures Valid() && Grew()
      ensures r.Success? <==> BlockOk(tpl, b)
      ensures !tpl.hasHeader ==> r == Failure(HeaderTemplateMissing)
      ensures r.Success? ==>
        && |numberings| > |old(numberings)|
        && var n := numberings[|old(numberings)|];
        && n == NewNumbering(n.id, b.OrderedList?, ListStart(b))
        && n.id >= 1 && IsMaxId(NumberingIds(old(numberings)), n.id - 1) && above < n.id
        && r.value.GroupFrag?
        && ItemsFit(tpl, r.value.items, b.items, n.id, level, State())
      ensures r.Success? ==> ListFit(tpl, r.value, b, level, above, State())
      ensures r.Success? ==> images == old(images) + BlockImages(b)
    {
      if !tpl.hasHeader {
        r := Failure(HeaderTemplateMissing);
      } else {
        var numId := CreateNumbering(b.OrderedList?, ListStart(b));
        assert numberings[|numberings| - 1].id == numId;
        assert NumberingIds(numberings)[|numberings| - 1] == numId;
        ghost var s0 := State();
        var frags := ListItems(b.items, numId, level);
        GrowsTrans(tpl, old(State()), s0, State());
        assert numberings[|old(numberings)|] == s0.numberings[|old(numberings)|];
        if frags.Success? {
          r := Success(GroupFrag(frags.value));
          assert NewNumbering(numId, b.OrderedList?, ListStart(b)) in numberings;
        } else {
          r := Failure(frags.error);
        }
      }
    }

    /** The fragments of a list's items, item after item. */
    method ListItems(items: seq<ListItem>, numId: nat, level: nat) returns (r: Result<seq<Fragment>, ConvError>)
      requires Valid() && tpl.hasHeader && numId in NumberingIds(numberings)
      modifies this
      decreases items
      ensures Valid() && Grew()
      ensures r.Success? <==> ItemsOk(tpl, items)
      ensures r.Success? ==> ItemsFit(tpl, r.value, items, numId, level, State())
      ensures r.Success? ==> images == old(images) + ItemsImages(items)
    {
      var frags: seq<Fragment> := [];
      for i := 0 to |items|
        invariant Valid() && Grew()
        invariant numId in NumberingIds(numberings)
        invariant ItemsOk(tpl, items[..i])
        invariant ItemsFit(tpl, frags, items[..i], numId, level, State())
        invariant images == old(images) + ItemsImages(items[..i])
      {
        ItemsOkSnoc(tpl, items, i);
        ghost var s0 := State();
        var res := ListItemBlocks(items[i].blocks, numId, level);
        GrowsTrans(tpl, old(State()), s0, State());
        if res.Failure? {
          return Failure(res.error);
        }
        var more := res.value;
        NumberingIdKept(s0.numberings, numberings, numId);
        ItemsFitStep(tpl, frags, items, i, more, numId, level, s0, State());
        ItemsImagesStep(items, i, old(images), s0.images, images);
        PrefixSnoc(items, i);
        frags := frags + more;
      }
      assert items[..|items|] == items;
      r := Success(frags);
    }

    /** The fragments of the blocks of one list item, one per block. */
    method ListItemBlocks(bs: seq<Block>, numId: nat, level: nat) returns (r: Result<seq<Fragment>, ConvError>)
      requires Valid() && tpl.hasHeader && numId in NumberingIds(numberings)
      modifies this
      decreases bs
      ensures Valid() && Grew()
      ensures r.Success? <==> BlocksOk(tpl, bs)
      ensures r.Success? ==> ListFragsFit(tpl, r.value, bs, numId, level, State())
      ensures r.Success? ==> images == old(images) + BlocksImages(bs)
    {
      var frags: seq<Fragment> := [];
      for j := 0 to |bs|
        invariant Valid() && Grew()
        invariant numId in NumberingIds(numberings)
        invariant BlocksOk(tpl, bs[..j])
        invariant ListFragsFit(tpl, frags, bs[..j], numId, level, State())
        invariant images == old(images) + BlocksImages(bs[..j])
      {
        BlocksOkSnoc(tpl, bs, j);
        ghost var s0 := State();
        var res := ListBlock(bs[j], numId, level);
        GrowsTrans(tpl, old(State()), s0, State());
        if res.Failure? {
          return Failure(res.error);
        }
        var frag := res.value;
        NumberingIdKept(s0.numberings, numberings, numId);
        ListFragsFitStep(tpl, frags, bs, j, frag, numId, level, s0, State());
        BlocksImagesStep(bs, j, old(images), s0.images, images);
        PrefixSnoc(bs, j);
        frags := frags + [frag];
      }
      assert bs[..|bs|] == bs;
      r := Success(frags);
    }

    /**
      One block of a list item. A list paragraph property is allocated
      first, whatever the block; paragraphs and plain blocks use it with
      the normal style and character property 0, nested lists go one level
      deeper, and any other block is written as at top level.
     */
    method ListBlock(blk: Block, numId: nat, level: nat) returns (r: Result<Fragment, ConvError>)
      requires Valid() && tpl.hasHeader && numId in NumberingIds(numberings)
      modifies this
      decreases blk, 5
      ensures Valid() && Grew()
      ensures r.Success? <==> BlockOk(tpl, blk)
      ensures r.Success? ==> ListFragFit(tpl, r.value, blk, numId, level, State())
      ensures r.Success? ==> images == old(images) + BlockImages(blk)
    {
      var paraPrId := GetListParaPr(numId, level);
      ghost var s0 := State();
      if blk.Para? || blk.Plain? {
        var runs := ProcessInlines(blk.inlines, 0, {});
        ListParaPrStable(tpl, paraPrId, numId, level, s0.paraPrs, paraPrs);
        r := if runs.Success? then Success(ParaFrag(tpl.normalStyleId, paraPrId, false, runs.value)) else Failure(runs.error);
      } else if blk.BulletList? || blk.OrderedList? {
        r := HandleList(blk, level + 1, numId);
      } else {
        var f := HandleBlock(blk);
        r := if f.Success? then Success(GroupFrag(if f.value.Some? then [f.value.value] else [])) else Failure(f.error);
      }
      GrowsTrans(tpl, old(State()), s0, State());
    }

    // -------------------------------------------------------------------
    // Tables

    /**
      A table: its rows flattened (head, bodies, foot); none gives the empty
      text; otherwise a table in a paragraph of the normal style, with its
      cells laid out row by row and each cell holding its own blocks'
      fragments.
     */
    method HandleTable(b: Block) returns (r: Result<Fragment, ConvError>)
      requires Valid() && b.Table?
      modifies this
      decreases b, 3
      ensures Valid() && Grew()
      ensures r.Success? <==> BlockOk(tpl, b)
      ensures r.Success? && b.head + BodyRows(b.bodies) + b.foot == [] ==> r.value == EmptyFrag
      ensures r.Success? && b.head + BodyRows(b.bodies) + b.foot != [] ==>
        && r.value.TableFrag? && r.value == TableFrag(tpl.normalStyleId, tpl.normalParaPrId, r.value.table)
        && TableFits(tpl, r.value.table, b.head + BodyRows(b.bodies) + b.foot, b.colSpecs)
        && TableContentFits(tpl, r.value.table.rows, b, b.head + BodyRows(b.bodies) + b.foot, State())
      ensures r.Success? ==> images == old(images) + BlockImages(b)
    {
      var rows := FlattenRows(b.head, b.bodies, b.foot);
      TableOkFlat(tpl, b.colSpecs, b.head, b.bodies, b.foot);
      TableImagesFlat(b);
      if |rows| == 0 {
        r := Success(EmptyFrag);
      } else {
        var grid := LayoutGrid(rows);
        LayoutShape(rows, grid);
        forall i | 0 <= i < |rows|
          ensures InTable(rows[i], b.head, b.bodies, b.foot)
        {
          FlatRowOrigin(b.head, b.bodies, b.foot, i);
        }
        var colWidths := ColumnWidths(b.colSpecs);
        var out := TableRows(b, rows, grid, b.colSpecs, colWidths);
        if out.Success? {
          PlacesOfFits(tpl, out.value, rows, grid, b.colSpecs);
          var table := TableOut(|rows|, b.colSpecs, TOTAL_TABLE_WIDTH, |rows| * ROW_HEIGHT, TABLE_BORDER_FILL_REF, out.value);
          r := Success(TableFrag(tpl.normalStyleId, tpl.normalParaPrId, table));
        } else {
          r := Failure(out.error);
        }
      }
    }

    /** The cells of the flattened rows of table `b`, row by row. */
    method TableRows(ghost b: Block, rows: seq<Row>, grid: seq<seq<Placement>>, colCnt: nat, colWidths: seq<nat>)
      returns (r: Result<seq<seq<TableCell>>, ConvError>)
      requires Valid() && b.Table? && forall i :: 0 <= i < |rows| ==> InTable(rows[i], b.head, b.bodies, b.foot)
      requires |grid| == |rows|
      requires forall i :: 0 <= i < |rows| ==> |grid[i]| == |rows[i].cells|
      requires forall i, j :: 0 <= i < |rows| && 0 <= j < |rows[i].cells| ==> grid[i][j].colSpan == rows[i].cells[j].colSpan
      requires colWidths == ColumnWidths(colCnt)
      modifies this
      decreases b, 2
      ensures Valid() && Grew()
      ensures r.Success? <==> RowsOk(tpl, colCnt, rows)
      ensures r.Success? ==> |r.value| == |rows| && forall i :: 0 <= i < |rows| ==> RowFits(tpl, r.value[i], rows[i], grid[i], colCnt)
      ensures r.Success? ==> TableContentFits(tpl, r.value, b, rows, State())
      ensures r.Success? ==> images == old(images) + RowsImages(rows)
    {
      var out: seq<seq<TableCell>> := [];
      for i := 0 to |rows|
        invariant Valid() && Grew()
        invariant |out| == i
        invariant RowsOk(tpl, colCnt, rows[..i])
        invariant forall k :: 0 <= k < i ==> RowFits(tpl, out[k], rows[k], grid[k], colCnt)
        invariant TableContentFits(tpl, out, b, rows, State())
        invariant images == old(images) + RowsImages(rows[..i])
      {
        ghost var s0 := State();
        var res := TableRow(b, rows[i], grid[i], colCnt, colWidths);
        GrowsTrans(tpl, old(State()), s0, State());
        RowsStep(tpl, colCnt, rows, i, res.Success?);
        if res.Failure? {
          return Failure(res.error);
        }
        var cells := res.value;
        RowsFitSnoc(tpl, out, cells, rows, grid, colCnt);
        TableContentStep(tpl, out, cells, b, rows, s0, State());
        RowsImagesStep(rows, i, old(images), s0.images, images);
        PrefixSnoc(rows, i);
        out := out + [cells];
      }
      assert rows[..|rows|] == rows;
      r := Success(out);
    }

    /** The cells of one row of table `b`, in order. */
    method TableRow(ghost b: Block, row: Row, rowPs: seq<Placement>, colCnt: nat, colWidths: seq<nat>)
      returns (r: Result<seq<TableCell>, ConvError>)
      requires Valid() && b.Table? && InTable(row, b.head, b.bodies, b.foot)
      requires |rowPs| == |row.cells| && forall j :: 0 <= j < |row.cells| ==> rowPs[j].colSpan == row.cells[j].colSpan
      requires colWidths == ColumnWidths(colCnt)
      modifies this
      decreases b, 1
      ensures Valid() && Grew()
      ensures r.Success? <==> RowCellsOk(tpl, colCnt, row)
      ensures r.Success? ==> RowFits(tpl, r.value, row, rowPs, colCnt)
      ensures r.Success? ==> RowContentFits(tpl, r.value, b, row, State())
      ensures r.Success? ==> images == old(images) + CellsImages(row.cells)
    {
      var cells: seq<TableCell> := [];
      for j := 0 to |row.cells|
        invariant Valid() && Grew()
        invariant |cells| == j
        invariant RowCellsOk(tpl, colCnt, Row(row.cells[..j]))
        invariant RowFits(tpl, cells, Row(row.cells[..j]), rowPs[..j], colCnt)
        invariant RowContentFits(tpl, cells, b, row, State())
        invariant images == old(images) + CellsImages(row.cells[..j])
      {
        RowCellsOkSnoc(tpl, colCnt, row, j);
        ghost var s0 := State();
        var res := TableCellOut(b, row, row.cells[j], rowPs[j], colCnt, colWidths);
        GrowsTrans(tpl, old(State()), s0, State());
        if res.Failure? {
          return Failure(res.error);
        }
        var c := res.value;
        RowFitsSnoc(tpl, cells, c, row, rowPs, j, colCnt);
        RowContentStep(tpl, cells, c, b, row, s0, State());
        CellsImagesStep(row.cells, j, old(images), s0.images, images);
        PrefixSnoc(row.cells, j);
        cells := cells + [c];
      }
      assert Row(row.cells[..|row.cells|]) == row && rowPs[..|rowPs|] == rowPs;
      r := Success(cells);
    }

    /**
      One cell: its width (failing when it spans a column of a table
      without column specifications), then its border fill (failing
      without a header template), then the fragments of its blocks.
     */
    method TableCellOut(ghost b: Block, ghost row: Row, cell: Cell, p: Placement, colCnt: nat, colWidths: seq<nat>)
      returns (r: Result<TableCell, ConvError>)
      requires Valid() && b.Table? && InTable(row, b.head, b.bodies, b.foot) && cell in row.cells
      requires p.colSpan == cell.colSpan && colWidths == ColumnWidths(colCnt)
      modifies this
      decreases b, 0
      ensures Valid() && Grew()
      ensures r.Success? <==> CellOk(tpl, colCnt, cell)
      ensures r.Success? ==> CellFits(tpl, r.value, cell, p, colCnt)
      ensures r.Success? ==> CellContentFit(tpl, r.value.content, b, row, cell, State())
      ensures r.Success? ==> images == old(images) + BlocksImages(cell.blocks)
    {
      if row in b.head {
      } else if row in b.foot {
      } else {
        var k :| 0 <= k < |b.bodies| && (row in b.bodies[k].interHeaders || row in b.bodies[k].mainRows);
        if row in b.bodies[k].interHeaders {
          assert row in b.bodies[k].interHeaders;
        } else {
          assert row in b.bodies[k].mainRows;
        }
      }
      var w := CellWidth(colWidths, colCnt, p.colAddr, p.colSpan);
      if w.None? {
        r := Failure(ZeroColumns);
      } else if tpl.tableBorderFillId.None? {
        r := Failure(HeaderTemplateMissing);
      } else {
        var content := ProcessBlocks(cell.blocks);
        r := if content.Success? then Success(TableCell(p, w.value, tpl.tableBorderFillId.value, content.value))
             else Failure(content.error);
      }
    }

    // -------------------------------------------------------------------
    // The whole document

    /** The item counts of the header containers: one per record, for the containers that exist. */
    function Counts(): ItemCounts
      reads this
    {
      if !tpl.hasHeader then ItemCounts(None, None, None, None)
      else ItemCounts(
        if tpl.hasCharProperties then Some(|charPrs|) else None,
        if tpl.hasParaProperties then Some(|paraPrs|) else None,
        Some(|numberings|),
        Some(|borderFills|))
    }

    /**
      Converts the document's blocks and then counts the header's records:
      the fragments fit the written blocks one for one, images are
      registered in document order, and each container count is its number
      of records after conversion.
     */
    method Convert(blocks: seq<Block>) returns (r: Result<(seq<Fragment>, ItemCounts), ConvError>)
      requires Valid()
      modifies this
      ensures Valid() && Grew()
      ensures r.Success? <==> BlocksOk(tpl, blocks)
      ensures r.Success? ==> BlocksFit(tpl, r.value.0, blocks, State())
      ensures r.Success? ==> FragsMatch(r.value.0, Handled(blocks))
      ensures r.Success? ==> images == old(images) + BlocksImages(blocks)
      ensures r.Success? && tpl.hasHeader ==>
        r.value.1.numberings == Some(|numberings|) && r.value.1.borderFills == Some(|borderFills|)
        && (r.value.1.charPrs.Some? <==> tpl.hasCharProperties) && (tpl.hasCharProperties ==> r.value.1.charPrs == Some(|charPrs|))
        && (r.value.1.paraPrs.Some? <==> tpl.hasParaProperties) && (tpl.hasParaProperties ==> r.value.1.paraPrs == Some(|paraPrs|))
      ensures r.Success? && !tpl.hasHeader ==> r.value.1 == ItemCounts(None, None, None, None)
    {
      var body := ProcessBlocks(blocks);
      if body.Success? {
        BlocksFitKinds(tpl, body.value, blocks, State());
        r := Success((body.value, Counts()));
      } else {
        r := Failure(body.error);
      }
    }
  }

  // ---------------------------------------------------------------------
  // Start-up

  /**
    Sets up a converter from the header template (if any) and the parsed
    template section (if any): resolves and validates the styles, adds the
    table border fill, and collects the placeholders of the section when
    both are present. Without a header there are no records, no styles and
    the default normal ids.
   */
  method Open(header: Option<HeaderDoc>, section: Option<seq<SecPara>>) returns (r: Result<Converter, TemplateError>)
    ensures r.Success? ==> fresh(r.value) && r.value.Valid() && r.value.charPrCache == map[] && r.value.images == []
    ensures header.None? ==> r.Success?
    ensures header.None? && r.Success? ==>
      var c := r.value;
      && !c.tpl.hasHeader && c.tpl.placeholders == map[] && c.tpl.styles == []
      && c.tpl.normalStyleId == DEFAULT_NORMAL_STYLE_ID && c.tpl.normalParaPrId == DEFAULT_NORMAL_PARA_PR_ID
      && c.tpl.dynamicStyleMap == map[] && c.charPrs == [] && c.paraPrs == [] && c.numberings == [] && c.borderFills == []
    ensures header.Some? && r.Success? ==>
      var h, c := header.value, r.value;
      && c.tpl.hasHeader && c.tpl.styles == h.styles
      && c.tpl.hasCharProperties == h.hasCharProperties && c.tpl.hasParaProperties == h.hasParaProperties
      && ReadFrom(h, Resolved(c.tpl.maxCharPrId, c.maxParaPrId, c.tpl.tableBorderFillId.value, c.tpl.normalStyleId,
                              c.tpl.normalParaPrId, c.tpl.dynamicStyleMap, c.tpl.outlineStyleIds))
      && Contiguous(c.tpl.dynamicStyleMap.Keys)
      && c.charPrs == h.charPrs && c.paraPrs == h.paraPrs && c.numberings == h.numberings
      && c.borderFills == h.borderFills + [TableBorderFill(c.tpl.tableBorderFillId.value)]
      && c.tpl.placeholders == if section.Some? then Record(map[], Hits(section.value)) else map[]
    ensures header.Some? && r.Failure? && !r.error.DirtyNormal? ==>
      forall dyn :: IsOutlineMap(header.value, dyn) ==> OutlineErrorFits(dyn.Keys, r.error)
    ensures header.Some? && r.Failure? && r.error.DirtyNormal? ==>
      var c := FindCharPr(header.value.charPrs, NormalCharPrId(header.value.styles));
      && (forall dyn :: IsOutlineMap(header.value, dyn) ==> Contiguous(dyn.Keys))
      && c.Some? && r.error.tags == DirtyTags(c.value) && r.error.tags != []
  {
    if header.None? {
      var tpl := Template(false, false, false, [], DEFAULT_NORMAL_STYLE_ID, DEFAULT_NORMAL_PARA_PR_ID,
                          map[], map[], map[], None, 0, []);
      var c := new Converter(tpl, [], [], [], [], 0);
      return Success(c);
    }
    var h := header.value;
    var res :- ResolveStyles(h);
    var placeholders: map<string, PlaceholderStyle> := map[];
    if section.Some? {
      placeholders := FindPlaceholders(section.value);
    }
    var tpl := Template(true, h.hasCharProperties, h.hasParaProperties, h.styles, res.normalStyleId, res.normalParaPrId,
                        res.dynamicStyleMap, res.outlineStyleIds, placeholders, Some(res.tableBorderFillId), res.maxCharPrId, h.charPrs);
    assert forall k :: 0 <= k < |h.charPrs| ==> CharPrIds(h.charPrs)[k] == h.charPrs[k].id;
    assert forall k :: 0 <= k < |h.paraPrs| ==> ParaPrIds(h.paraPrs)[k] == h.paraPrs[k].id;
    var c := new Converter(tpl, h.charPrs, h.paraPrs, h.numberings, h.borderFills + [TableBorderFill(res.tableBorderFillId)], res.maxParaPrId);
    return Success(c);
  }
}
