/**
  Reading the header template once at start-up: the largest character and
  paragraph property ids, the id of the border fill added for tables, the
  normal style, the map from outline level to style, and the two template
  validations (contiguous outline levels from 0, and a normal character
  property without bold, italic, underline, superscript or subscript).
 */
module StyleResolver {
  import opened Wrappers
  import opened HeaderModel

  /** What a heading of a given outline level is written with. */
  datatype OutlineStyle = OutlineStyle(styleId: nat, paraPrId: nat, charPrId: nat)

  datatype Resolved = Resolved(
    maxCharPrId: nat,
    maxParaPrId: nat,
    tableBorderFillId: nat,
    normalStyleId: nat,
    normalParaPrId: nat,
    dynamicStyleMap: map<int, OutlineStyle>,
    outlineStyleIds: map<int, nat>)

  /** The template is rejected with one of these. */
  datatype TemplateError =
    | OutlineStartNotZero(found: int)
    | OutlineGap(expected: nat)
    | DirtyNormal(charPrId: nat, tags: seq<string>)

  const DEFAULT_NORMAL_STYLE_ID: nat := 0
  const DEFAULT_NORMAL_PARA_PR_ID: nat := 1

  // ---------------------------------------------------------------------
  // First record per key

  /**
    The map from each key that some record has to the first record with
    that key, built in one pass in which the first record for a key wins.
   */
  method FirstWins<K(==), T>(recs: seq<T>, key: T -> Option<K>) returns (m: map<K, T>)
    ensures forall k :: k in m <==> FirstKeyed(recs, key, k).Some?
    ensures forall k :: k in m ==> FirstKeyed(recs, key, k) == Some(m[k])
  {
    m := map[];
    for i := 0 to |recs|
      invariant forall k :: k in m <==> FirstKeyed(recs[..i], key, k).Some?
      invariant forall k :: k in m ==> FirstKeyed(recs[..i], key, k) == Some(m[k])
    {
      var r := recs[i];
      ghost var m0 := m;
      assert recs[..i + 1] == recs[..i] + [r];
      forall k
        ensures FirstKeyed(recs[..i + 1], key, k) ==
          if k in m0 then Some(m0[k]) else if key(r) == Some(k) then Some(r) else None
      {
        if k in m0 {
          FirstKeyedPrefix(recs[..i], [r], key, k);
        } else {
          FirstKeyedAppend(recs[..i], r, key, k);
        }
      }
      if key(r).Some? && key(r).value !in m {
        m := m[key(r).value := r];
      }
      forall k | k in m
        ensures FirstKeyed(recs[..i + 1], key, k) == Some(m[k])
      {
        if k in m0 {
          assert m[k] == m0[k];
          assert FirstKeyed(recs[..i + 1], key, k) == Some(m0[k]);
        } else {
          assert key(r).Some? && key(r).value == k;
          assert m[k] == r;
          assert FirstKeyed(recs[..i + 1], key, k) == Some(r);
        }
      }
    }
    assert recs[..|recs|] == recs;
  }

  // ---------------------------------------------------------------------
  // Specification of the outline map

  /** The first paragraph property declaring outline level `level`. */
  function OutlineParaPr(paraPrs: seq<ParaPr>, level: int): Option<ParaPr>
  {
    FirstKeyed(paraPrs, OutlineLevel, level)
  }

  function StyleParaPrKey(s: Style): Option<nat>
  {
    Some(s.paraPrRef)
  }

  /** The first style that refers to paragraph property `paraPrId`. */
  function StyleOf(styles: seq<Style>, paraPrId: nat): Option<Style>
  {
    FirstKeyed(styles, StyleParaPrKey, paraPrId)
  }

  /** Does outline level `l` get a heading style? */
  predicate HasOutlineStyle(h: HeaderDoc, l: int)
  {
    OutlineParaPr(h.paraPrs, l).Some? && StyleOf(h.styles, OutlineParaPr(h.paraPrs, l).value.id).Some?
  }

  /**
    The heading style of each outline level: the first style referring to
    the first paragraph property that declares the level; a level whose
    paragraph property no style refers to has none.
   */
  ghost predicate IsOutlineMap(h: HeaderDoc, dyn: map<int, OutlineStyle>)
  {
    && (forall l :: l in dyn <==> HasOutlineStyle(h, l))
    && (forall l :: l in dyn ==>
          var p := OutlineParaPr(h.paraPrs, l).value;
          var s := StyleOf(h.styles, p.id).value;
          dyn[l] == OutlineStyle(s.id, p.id, s.charPrRef))
  }

  /** The outline map is determined by the header. */
  lemma OutlineMapUnique(h: HeaderDoc, d1: map<int, OutlineStyle>, d2: map<int, OutlineStyle>)
    requires IsOutlineMap(h, d1) && IsOutlineMap(h, d2)
    ensures d1 == d2
  {
    forall l
      ensures l in d1.Keys <==> l in d2.Keys
    {
      assert l in d1 <==> HasOutlineStyle(h, l);
    }
    assert d1.Keys == d2.Keys;
    forall l | l in d1
      ensures d1[l] == d2[l]
    {
    }
  }

  /** Outline levels are contiguous from 0: every level lies below the number of levels. */
  predicate Contiguous(levels: set<int>)
  {
    forall l :: l in levels ==> 0 <= l < |levels|
  }

  /** The levels 0, 1, ..., n - 1. */
  function Range(n: nat): (r: set<int>)
    ensures |r| == n
    ensures forall i :: i in r <==> 0 <= i < n
  {
    if n == 0 then {} else Range(n - 1) + {n - 1}
  }

  /** Contiguity means the levels are exactly 0, 1, ..., n - 1. */
  lemma ContiguousIsRange(levels: set<int>)
    ensures Contiguous(levels) <==> levels == Range(|levels|)
  {
    if Contiguous(levels) {
      assert levels <= Range(|levels|);
      SubsetSameCard(levels, Range(|levels|));
    }
  }

  lemma SubsetSameCard(a: set<int>, b: set<int>)
    requires a <= b && |a| == |b|
    ensures a == b
  {
    assert b == a + (b - a);
    assert |b - a| == 0;
  }

  // ---------------------------------------------------------------------
  // Validation

  method MinLevel(listed: seq<int>) returns (m: int)
    requires |listed| > 0
    ensures m in listed && forall k :: 0 <= k < |listed| ==> m <= listed[k]
  {
    m := listed[0];
    for i := 1 to |listed|
      invariant m in listed[..i] && forall k :: 0 <= k < i ==> m <= listed[k]
    {
      if listed[i] < m {
        m := listed[i];
      }
    }
  }

  /**
    The outline validation: levels must start from 0 (the smallest level is
    reported otherwise) and have no gap (the first missing level is reported).
    `listed` enumerates the levels, possibly with repetitions.
   */
  method ValidateOutline(levels: set<int>, listed: seq<int>) returns (r: Option<TemplateError>)
    requires forall l :: l in levels <==> l in listed
    ensures r.None? <==> Contiguous(levels)
    ensures r.Some? ==> OutlineErrorFits(levels, r.value)
  {
    ContiguousIsRange(levels);
    if |listed| == 0 {
      return None;
    }
    var m := MinLevel(listed);
    if m != 0 {
      assert m in levels;
      assert m < 0 || 0 !in levels;
      return Some(OutlineStartNotZero(m));
    }
    var i := 0;
    while i < |levels| && i in levels
      invariant 0 <= i <= |levels|
      invariant forall k :: 0 <= k < i ==> k in levels
    {
      i := i + 1;
    }
    if i < |levels| {
      assert i in Range(|levels|);
      return Some(OutlineGap(i));
    }
    assert Range(|levels|) <= levels;
    SubsetSameCard(Range(|levels|), levels);
    assert Contiguous(levels);
    return None;
  }

  /**
    The error the outline validation reports for `levels`: the smallest
    level when it is not 0, otherwise the first level missing below the
    number of levels.
   */
  predicate OutlineErrorFits(levels: set<int>, e: TemplateError)
  {
    match e
    case OutlineStartNotZero(found) =>
      found in levels && found != 0 && forall l :: l in levels ==> found <= l
    case OutlineGap(expected) =>
      0 < expected < |levels| && expected !in levels
      && (forall l :: l in levels ==> 0 <= l)
      && forall k :: 0 <= k < expected ==> k in levels
    case _ => false
  }

  /** At most one error fits a set of levels, so the reported error is determined by the levels. */
  lemma OutlineErrorUnique(levels: set<int>, e1: TemplateError, e2: TemplateError)
    requires OutlineErrorFits(levels, e1) && OutlineErrorFits(levels, e2)
    ensures e1 == e2
  {
    if e1.OutlineGap? {
      assert 0 in levels;
    }
    if e2.OutlineGap? {
      assert 0 in levels;
    }
    if e1.OutlineGap? && e2.OutlineGap? {
      assert e1.expected !in levels && e2.expected !in levels;
    }
  }

  /** The levels of `dyn`, read off the paragraph properties in order. */
  function ListedLevels(paraPrs: seq<ParaPr>, dyn: map<int, OutlineStyle>): (r: seq<int>)
    ensures forall l :: l in r <==> OutlineParaPr(paraPrs, l).Some? && l in dyn
    decreases |paraPrs|
  {
    if paraPrs == [] then []
    else
      var rest := ListedLevels(paraPrs[1..], dyn);
      match OutlineLevel(paraPrs[0])
      case Some(l) => if l in dyn then [l] + rest else rest
      case None => rest
  }

  // ---------------------------------------------------------------------
  // The whole start-up pass

  /** The style treated as normal: the one with id 0, else the first style, else none. */
  function NormalStyle(styles: seq<Style>): Option<Style>
  {
    match FindStyle(styles, 0)
    case Some(s) => Some(s)
    case None => if styles == [] then None else Some(styles[0])
  }

  /** The ids of the normal style and of its paragraph property, with the defaults when there is no style. */
  function NormalIds(styles: seq<Style>): (nat, nat)
  {
    match NormalStyle(styles)
    case Some(s) => (s.id, s.paraPrRef)
    case None => (DEFAULT_NORMAL_STYLE_ID, DEFAULT_NORMAL_PARA_PR_ID)
  }

  /** The character property the normal style uses, 0 when there is no normal style. */
  function NormalCharPrId(styles: seq<Style>): nat
  {
    match NormalStyle(styles)
    case Some(s) => s.charPrRef
    case None => 0
  }

  /**
    What the start-up pass reads off the template: largest ids, the id
    after the largest border fill id, the normal style and the outline map.
   */
  ghost predicate ReadFrom(h: HeaderDoc, res: Resolved)
  {
    && IsMaxId(CharPrIds(h.charPrs), res.maxCharPrId)
    && IsMaxId(ParaPrIds(h.paraPrs), res.maxParaPrId)
    && res.tableBorderFillId >= 1 && IsMaxId(BorderFillIds(h.borderFills), res.tableBorderFillId - 1)
    && (res.normalStyleId, res.normalParaPrId) == NormalIds(h.styles)
    && IsOutlineMap(h, res.dynamicStyleMap)
    && res.outlineStyleIds.Keys == res.dynamicStyleMap.Keys
    && (forall l :: l in res.outlineStyleIds ==> res.outlineStyleIds[l] == res.dynamicStyleMap[l].styleId)
  }

  method ReadTemplate(h: HeaderDoc) returns (res: Resolved)
    ensures ReadFrom(h, res)
  {
    // largest ids
    var maxChar := ScanMaxId(CharPrIds(h.charPrs));
    var maxPara := ScanMaxId(ParaPrIds(h.paraPrs));
    // the border fill added for table cells
    var maxFill := ScanMaxId(BorderFillIds(h.borderFills));
    // normal style
    var (normalStyleId, normalParaPrId) := NormalIds(h.styles);
    // outline levels
    var dyn, outline := BuildOutlineMap(h);
    res := Resolved(maxChar, maxPara, maxFill + 1, normalStyleId, normalParaPrId, dyn, outline);
  }

  /**
    Reads the template (largest ids, table border fill id, normal style,
    outline map), then validates the outline levels and then the normal
    character property.
   */
  method ResolveStyles(h: HeaderDoc) returns (r: Result<Resolved, TemplateError>)
    ensures r.Success? ==> ReadFrom(h, r.value) && Contiguous(r.value.dynamicStyleMap.Keys)
    ensures r.Failure? && !r.error.DirtyNormal? ==> forall dyn :: IsOutlineMap(h, dyn) ==> OutlineErrorFits(dyn.Keys, r.error)
    ensures r.Success? ==>
      var c := FindCharPr(h.charPrs, NormalCharPrId(h.styles));
      c.None? || IsClean(c.value)
    ensures r.Failure? && r.error.DirtyNormal? ==>
      var c := FindCharPr(h.charPrs, NormalCharPrId(h.styles));
      && (forall dyn :: IsOutlineMap(h, dyn) ==> Contiguous(dyn.Keys))
      && r.error.charPrId == NormalCharPrId(h.styles) && c.Some? && r.error.tags == DirtyTags(c.value) && r.error.tags != []
  {
    var res := ReadTemplate(h);
    var invalid := ValidateOutline(res.dynamicStyleMap.Keys, ListedLevels(h.paraPrs, res.dynamicStyleMap));
    if invalid.Some? {
      forall d | IsOutlineMap(h, d)
        ensures OutlineErrorFits(d.Keys, invalid.value)
      {
        OutlineMapUnique(h, res.dynamicStyleMap, d);
      }
      return Failure(invalid.value);
    }
    forall d | IsOutlineMap(h, d)
      ensures Contiguous(d.Keys)
    {
      OutlineMapUnique(h, res.dynamicStyleMap, d);
    }
    var normalCharPrId := NormalCharPrId(h.styles);
    var normalCharPr := FindCharPr(h.charPrs, normalCharPrId);
    if normalCharPr.Some? && DirtyTags(normalCharPr.value) != [] {
      return Failure(DirtyNormal(normalCharPrId, DirtyTags(normalCharPr.value)));
    }
    return Success(res);
  }

  /** The outline map: first paragraph property per level, first style per paragraph property, combined. */
  method BuildOutlineMap(h: HeaderDoc) returns (dyn: map<int, OutlineStyle>, outline: map<int, nat>)
    ensures IsOutlineMap(h, dyn)
    ensures outline.Keys == dyn.Keys && forall l :: l in outline ==> outline[l] == dyn[l].styleId
  {
    var levelToParaPr := FirstWins(h.paraPrs, OutlineLevel);
    var paraPrToStyle := FirstWins(h.styles, StyleParaPrKey);
    dyn := CombineOutline(levelToParaPr, paraPrToStyle);
    CombineOutlineIsOutlineMap(h, levelToParaPr, paraPrToStyle);
    outline := map l | l in dyn :: dyn[l].styleId;
  }

  function CombineOutline(levelToParaPr: map<int, ParaPr>, paraPrToStyle: map<nat, Style>): map<int, OutlineStyle>
  {
    map l | l in levelToParaPr && levelToParaPr[l].id in paraPrToStyle ::
      OutlineStyle(paraPrToStyle[levelToParaPr[l].id].id, levelToParaPr[l].id, paraPrToStyle[levelToParaPr[l].id].charPrRef)
  }

  /** Combining the two first-match tables gives the outline map. */
  lemma CombineOutlineIsOutlineMap(h: HeaderDoc, levelToParaPr: map<int, ParaPr>, paraPrToStyle: map<nat, Style>)
    requires forall l :: l in levelToParaPr <==> OutlineParaPr(h.paraPrs, l).Some?
    requires forall l :: l in levelToParaPr ==> OutlineParaPr(h.paraPrs, l) == Some(levelToParaPr[l])
    requires forall id :: id in paraPrToStyle <==> StyleOf(h.styles, id).Some?
    requires forall id :: id in paraPrToStyle ==> StyleOf(h.styles, id) == Some(paraPrToStyle[id])
    ensures IsOutlineMap(h, CombineOutline(levelToParaPr, paraPrToStyle))
  {
    var dyn := CombineOutline(levelToParaPr, paraPrToStyle);
    forall l
      ensures l in dyn <==> HasOutlineStyle(h, l)
    {
      if l in levelToParaPr {
        var id := levelToParaPr[l].id;
        assert id in paraPrToStyle <==> StyleOf(h.styles, id).Some?;
      }
    }
    forall l | l in dyn
      ensures var p := OutlineParaPr(h.paraPrs, l).value;
        var s := StyleOf(h.styles, p.id).value;
        dyn[l] == OutlineStyle(s.id, p.id, s.charPrRef)
    {
      var p := levelToParaPr[l];
      assert StyleOf(h.styles, p.id) == Some(paraPrToStyle[p.id]);
    }
  }
}
