/**
  The header part of the document package as records: character properties,
  paragraph properties, styles, numberings and border fills, each carrying
  its numeric id, plus the property edits the converter makes when it
  derives a new record from a template record.
 */
module HeaderModel {
  import opened Wrappers
  import opened DocTree
  import opened TextHelpers

  const BLACK := "#000000"
  const BLUE := "#0000FF"

  /** The underline child of a character property: type, shape and colour. */
  datatype UnderlineSpec = UnderlineSpec(kind: string, shape: string, color: string)

  /** A character property: the formatting children the converter reads or edits; `others` stands for the rest. */
  datatype CharPr = CharPr(
    id: nat,
    bold: bool,
    italic: bool,
    underline: Option<UnderlineSpec>,
    textColor: Option<string>,
    supscript: bool,
    subscript: bool,
    others: seq<string>)

  /** A heading child of a paragraph property: type, referenced numbering id and level. */
  datatype Heading = Heading(kind: string, idRef: Option<nat>, level: Option<int>)

  /** A paragraph property: its headings, the values of its left margins and of its indents. */
  datatype ParaPr = ParaPr(id: nat, headings: seq<Heading>, lefts: seq<int>, intents: seq<int>, others: seq<string>)

  datatype Style = Style(id: nat, paraPrRef: nat, charPrRef: nat)

  datatype ParaHead = ParaHead(level: nat, numFormat: string, text: string)

  datatype Numbering = Numbering(id: nat, start: int, heads: seq<ParaHead>)

  /** A border fill: one from the template, or the solid one added for table cells. */
  datatype BorderFill = TemplateBorderFill(id: nat) | TableBorderFill(id: nat)

  /**
    The parsed header template. `hasCharProperties` and `hasParaProperties`
    record whether the containers new records are appended to exist.
   */
  datatype HeaderDoc = HeaderDoc(
    charPrs: seq<CharPr>,
    paraPrs: seq<ParaPr>,
    styles: seq<Style>,
    numberings: seq<Numbering>,
    borderFills: seq<BorderFill>,
    hasCharProperties: bool,
    hasParaProperties: bool)

  // ---------------------------------------------------------------------
  // Lookup by id: the first record in document order

  /** The first record whose key is `k`. */
  function FirstKeyed<K(==), T>(recs: seq<T>, key: T -> Option<K>, k: K): (r: Option<T>)
    ensures r.Some? ==> exists i :: IsFirstKeyed(recs, key, k, i) && recs[i] == r.value
    ensures r.None? <==> forall j :: 0 <= j < |recs| ==> key(recs[j]) != Some(k)
    decreases |recs|
  {
    if recs == [] then None
    else if key(recs[0]) == Some(k) then
      assert IsFirstKeyed(recs, key, k, 0);
      Some(recs[0])
    else
      var r := FirstKeyed(recs[1..], key, k);
      assert r.Some? ==> exists i :: IsFirstKeyed(recs, key, k, i) && recs[i] == r.value by {
        if r.Some? {
          var i :| IsFirstKeyed(recs[1..], key, k, i) && recs[1..][i] == r.value;
          assert IsFirstKeyed(recs, key, k, i + 1);
        }
      }
      assert forall j :: 1 <= j < |recs| ==> recs[j] == recs[1..][j - 1];
      r
  }

  /** Index `i` holds the first record whose key is `k`. */
  predicate IsFirstKeyed<K(==), T>(recs: seq<T>, key: T -> Option<K>, k: K, i: int)
  {
    0 <= i < |recs| && key(recs[i]) == Some(k)
    && forall j :: 0 <= j < i ==> key(recs[j]) != Some(k)
  }

  /** Appending records never changes what an existing key resolves to. */
  lemma {:induction false} FirstKeyedPrefix<K, T>(a: seq<T>, b: seq<T>, key: T -> Option<K>, k: K)
    requires FirstKeyed(a, key, k).Some?
    ensures FirstKeyed(a + b, key, k) == FirstKeyed(a, key, k)
    decreases |a|
  {
    assert (a + b)[0] == a[0];
    if key(a[0]) != Some(k) {
      assert (a + b)[1..] == a[1..] + b;
      FirstKeyedPrefix(a[1..], b, key, k);
    }
  }

  /** A key met for the first time resolves to the record that brings it. */
  lemma {:induction false} FirstKeyedAppend<K, T>(a: seq<T>, x: T, key: T -> Option<K>, k: K)
    requires FirstKeyed(a, key, k).None?
    ensures FirstKeyed(a + [x], key, k) == if key(x) == Some(k) then Some(x) else None
    decreases |a|
  {
    if a == [] {
      assert a + [x] == [x];
    } else {
      assert (a + [x])[0] == a[0];
      assert (a + [x])[1..] == a[1..] + [x];
      FirstKeyedAppend(a[1..], x, key, k);
    }
  }

  /** A key found in a prefix resolves the same way in every extension of it. */
  lemma FirstKeyedGrow<K, T>(a: seq<T>, b: seq<T>, key: T -> Option<K>, k: K)
    requires a <= b && FirstKeyed(a, key, k).Some?
    ensures FirstKeyed(b, key, k) == FirstKeyed(a, key, k)
  {
    assert b == a + b[|a|..];
    FirstKeyedPrefix(a, b[|a|..], key, k);
  }

  function CharPrKey(c: CharPr): Option<nat> { Some(c.id) }
  function ParaPrKey(p: ParaPr): Option<nat> { Some(p.id) }
  function StyleKey(s: Style): Option<nat> { Some(s.id) }

  function FindCharPr(recs: seq<CharPr>, id: nat): Option<CharPr>
  {
    FirstKeyed(recs, CharPrKey, id)
  }

  function FindParaPr(recs: seq<ParaPr>, id: nat): Option<ParaPr>
  {
    FirstKeyed(recs, ParaPrKey, id)
  }

  function FindStyle(recs: seq<Style>, id: nat): Option<Style>
  {
    FirstKeyed(recs, StyleKey, id)
  }

  // ---------------------------------------------------------------------
  // Largest id

  function CharPrIds(recs: seq<CharPr>): seq<nat>
  {
    seq(|recs|, k requires 0 <= k < |recs| => recs[k].id)
  }

  function ParaPrIds(recs: seq<ParaPr>): seq<nat>
  {
    seq(|recs|, k requires 0 <= k < |recs| => recs[k].id)
  }

  function NumberingIds(recs: seq<Numbering>): seq<nat>
  {
    seq(|recs|, k requires 0 <= k < |recs| => recs[k].id)
  }

  function BorderFillIds(recs: seq<BorderFill>): seq<nat>
  {
    seq(|recs|, k requires 0 <= k < |recs| => recs[k].id)
  }

  /** `m` is the largest of `ids`, or 0 when there is none. */
  predicate IsMaxId(ids: seq<nat>, m: nat)
  {
    (forall k :: 0 <= k < |ids| ==> ids[k] <= m) && (m == 0 || m in ids)
  }

  /** The scan for the largest id, starting from 0. */
  method ScanMaxId(ids: seq<nat>) returns (m: nat)
    ensures IsMaxId(ids, m)
  {
    m := 0;
    for i := 0 to |ids|
      invariant forall k :: 0 <= k < i ==> ids[k] <= m
      invariant m == 0 || m in ids[..i]
    {
      if ids[i] > m {
        m := ids[i];
      }
    }
  }

  // ---------------------------------------------------------------------
  // Deriving a character property

  /**
    A clone of `base` under id `newId` with the formats applied in the
    converter's order: bold, italic, underline (bottom, solid, black), blue
    text colour (which also recolours an underline), then superscript, or
    else subscript, each removing the other.
   */
  function ApplyFormats(base: CharPr, newId: nat, fmts: set<Format>): (r: CharPr)
    ensures r.id == newId && r.others == base.others
    ensures r.bold == (base.bold || BOLD in fmts)
    ensures r.italic == (base.italic || ITALIC in fmts)
    ensures r.textColor == if COLOR_BLUE in fmts then Some(BLUE) else base.textColor
    ensures UNDERLINE in fmts ==>
      r.underline == Some(UnderlineSpec("BOTTOM", "SOLID", if COLOR_BLUE in fmts then BLUE else BLACK))
    ensures UNDERLINE !in fmts && base.underline.None? ==> r.underline.None?
    ensures UNDERLINE !in fmts && base.underline.Some? ==>
      r.underline == Some(if COLOR_BLUE in fmts then base.underline.value.(color := BLUE) else base.underline.value)
    ensures SUPERSCRIPT in fmts ==> r.supscript && !r.subscript
    ensures SUPERSCRIPT !in fmts && SUBSCRIPT in fmts ==> r.subscript && !r.supscript
    ensures SUPERSCRIPT !in fmts && SUBSCRIPT !in fmts ==> r.supscript == base.supscript && r.subscript == base.subscript
    ensures ShowsFormats(r, fmts)
  {
    ScriptStep(ColorStep(UnderlineStep(base.(id := newId, bold := base.bold || BOLD in fmts, italic := base.italic || ITALIC in fmts), fmts), fmts), fmts)
  }

  /** Underlining sets a solid black bottom underline and touches nothing else. */
  function UnderlineStep(c: CharPr, fmts: set<Format>): (r: CharPr)
    ensures r.(underline := c.underline) == c
    ensures UNDERLINE in fmts ==> r.underline == Some(UnderlineSpec("BOTTOM", "SOLID", BLACK))
    ensures UNDERLINE !in fmts ==> r.underline == c.underline
  {
    if UNDERLINE in fmts then c.(underline := Some(UnderlineSpec("BOTTOM", "SOLID", BLACK))) else c
  }

  /**
    Colouring sets the text colour to blue and recolours an existing
    underline, keeping its type and shape; it never adds an underline.
   */
  function ColorStep(c: CharPr, fmts: set<Format>): (r: CharPr)
    ensures r.(textColor := c.textColor, underline := c.underline) == c
    ensures r.underline.Some? <==> c.underline.Some?
    ensures r.underline.Some? ==> r.underline.value.kind == c.underline.value.kind && r.underline.value.shape == c.underline.value.shape
    ensures COLOR_BLUE in fmts ==> r.textColor == Some(BLUE) && (r.underline.Some? ==> r.underline.value.color == BLUE)
    ensures COLOR_BLUE !in fmts ==> r == c
  {
    if COLOR_BLUE in fmts then
      c.(textColor := Some(BLUE),
         underline := if c.underline.Some? then Some(c.underline.value.(color := BLUE)) else None)
    else c
  }

  function ScriptStep(c: CharPr, fmts: set<Format>): (r: CharPr)
    ensures r.(supscript := c.supscript, subscript := c.subscript) == c
    ensures SUPERSCRIPT in fmts ==> r.supscript && !r.subscript
    ensures SUPERSCRIPT !in fmts && SUBSCRIPT in fmts ==> r.subscript && !r.supscript
    ensures SUPERSCRIPT !in fmts && SUBSCRIPT !in fmts ==> r == c
  {
    if SUPERSCRIPT in fmts then c.(subscript := false, supscript := true)
    else if SUBSCRIPT in fmts then c.(supscript := false, subscript := true)
    else c
  }

  /** Deriving again with the same formats changes nothing but the id. */
  lemma ApplyFormatsIdempotent(base: CharPr, n: nat, m: nat, fmts: set<Format>)
    ensures ApplyFormats(ApplyFormats(base, n, fmts), m, fmts) == ApplyFormats(base, m, fmts)
  {
  }

  /**
    The properties that make a normal character property dirty, in the order
    they are reported: bold, italic, an underline whose type is not NONE,
    superscript, subscript.
   */
  function DirtyTags(c: CharPr): (r: seq<string>)
    ensures r == [] <==> IsClean(c)
    ensures forall t :: t in r <==> t in DIRTY_ORDER && IsDirty(c, t)
    ensures forall i, j :: 0 <= i < j < |r| ==> TagRank(r[i]) < TagRank(r[j])
  {
    (if c.bold then ["bold"] else [])
    + (if c.italic then ["italic"] else [])
    + (if c.underline.Some? && c.underline.value.kind != "NONE" then ["underline"] else [])
    + (if c.supscript then ["supscript"] else [])
    + (if c.subscript then ["subscript"] else [])
  }

  /** The order in which dirty properties are reported. */
  const DIRTY_ORDER: seq<string> := ["bold", "italic", "underline", "supscript", "subscript"]

  function TagRank(t: string): nat
  {
    if t == "bold" then 0 else if t == "italic" then 1 else if t == "underline" then 2
    else if t == "supscript" then 3 else 4
  }

  /** Whether the property named `t` is set in `c`. */
  predicate IsDirty(c: CharPr, t: string)
  {
    if t == "bold" then c.bold
    else if t == "italic" then c.italic
    else if t == "underline" then c.underline.Some? && c.underline.value.kind != "NONE"
    else if t == "supscript" then c.supscript
    else t == "subscript" && c.subscript
  }

  predicate IsClean(c: CharPr)
  {
    !c.bold && !c.italic && (c.underline.None? || c.underline.value.kind == "NONE")
    && !c.supscript && !c.subscript
  }

  /**
    From a clean base, a derived character property shows exactly the
    requested formats: each flag is present if and only if it was asked for
    (superscript winning over subscript).
   */
  lemma CleanBaseShowsExactFormats(base: CharPr, n: nat, fmts: set<Format>)
    requires IsClean(base)
    ensures var r := ApplyFormats(base, n, fmts);
      && (r.bold <==> BOLD in fmts)
      && (r.italic <==> ITALIC in fmts)
      && ((r.underline.Some? && r.underline.value.kind != "NONE") <==> UNDERLINE in fmts)
      && (r.supscript <==> SUPERSCRIPT in fmts)
      && (r.subscript <==> SUBSCRIPT in fmts && SUPERSCRIPT !in fmts)
      && (r.textColor == Some(BLUE) <== COLOR_BLUE in fmts)
  {
  }

  /** The character property shows every requested format (superscript winning over subscript). */
  predicate ShowsFormats(c: CharPr, fmts: set<Format>)
  {
    && (BOLD in fmts ==> c.bold)
    && (ITALIC in fmts ==> c.italic)
    && (UNDERLINE in fmts ==> c.underline.Some? && c.underline.value.kind == "BOTTOM" && c.underline.value.shape == "SOLID")
    && (COLOR_BLUE in fmts ==> c.textColor == Some(BLUE) && (c.underline.Some? ==> c.underline.value.color == BLUE))
    && (SUPERSCRIPT in fmts ==> c.supscript && !c.subscript)
    && (SUPERSCRIPT !in fmts && SUBSCRIPT in fmts ==> c.subscript && !c.supscript)
  }

  // ---------------------------------------------------------------------
  // Deriving a list paragraph property

  const LIST_INDENT := 2000

  /**
    A clone of `base` under id `newId` for list level `level`: its first
    heading (created when there is none) becomes a NUMBER heading that
    references numbering `numId` at `level`; each left margin is first
    shifted by level times 2000, each indent set to -2000, and finally each
    left margin set to (level + 1) times 2000.
   */
  function ListParaPr(base: ParaPr, newId: nat, numId: nat, level: nat): (r: ParaPr)
    ensures r.id == newId && r.others == base.others
    ensures |r.headings| == if base.headings == [] then 1 else |base.headings|
    ensures r.headings[0] == Heading("NUMBER", Some(numId), Some(level))
    ensures r.headings[1..] == if base.headings == [] then [] else base.headings[1..]
    ensures |r.lefts| == |base.lefts| && forall k :: 0 <= k < |r.lefts| ==> r.lefts[k] == (level + 1) * LIST_INDENT
    ensures |r.intents| == |base.intents| && forall k :: 0 <= k < |r.intents| ==> r.intents[k] == -LIST_INDENT
  {
    var numbered := Heading("NUMBER", Some(numId), Some(level));
    var p0 := base.(id := newId);
    var p1 := if p0.headings == [] then p0.(headings := [numbered]) else p0.(headings := [numbered] + p0.headings[1..]);
    var p2 := p1.(lefts := seq(|p1.lefts|, k requires 0 <= k < |p1.lefts| => p1.lefts[k] + level * LIST_INDENT));
    var p3 := p2.(intents := seq(|p2.intents|, k requires 0 <= k < |p2.intents| => -LIST_INDENT));
    p3.(lefts := seq(|p3.lefts|, k requires 0 <= k < |p3.lefts| => (level + 1) * LIST_INDENT))
  }

  /** The template's own margins do not survive: two bases with as many margins give the same list margins. */
  lemma ListParaPrIgnoresTemplateMargins(b1: ParaPr, b2: ParaPr, n: nat, numId: nat, level: nat)
    requires |b1.lefts| == |b2.lefts| && |b1.intents| == |b2.intents|
    ensures ListParaPr(b1, n, numId, level).lefts == ListParaPr(b2, n, numId, level).lefts
    ensures ListParaPr(b1, n, numId, level).intents == ListParaPr(b2, n, numId, level).intents
  {
    var r1, r2 := ListParaPr(b1, n, numId, level), ListParaPr(b2, n, numId, level);
    assert forall k :: 0 <= k < |r1.lefts| ==> r1.lefts[k] == r2.lefts[k];
    assert forall k :: 0 <= k < |r1.intents| ==> r1.intents[k] == r2.intents[k];
  }

  /** The outline level a paragraph property declares: the first OUTLINE heading that has a level. */
  function OutlineLevel(p: ParaPr): (r: Option<int>)
    ensures r.None? <==> forall k :: 0 <= k < |p.headings| ==> !IsOutlineHeading(p.headings[k])
    ensures r.Some? ==> exists k :: IsFirstOutline(p.headings, k) && r == p.headings[k].level
  {
    FirstOutlineLevel(p.headings)
  }

  function FirstOutlineLevel(hs: seq<Heading>): (r: Option<int>)
    ensures r.None? <==> forall k :: 0 <= k < |hs| ==> !IsOutlineHeading(hs[k])
    ensures r.Some? ==> exists k :: IsFirstOutline(hs, k) && r == hs[k].level
    decreases |hs|
  {
    if hs == [] then None
    else if IsOutlineHeading(hs[0]) then
      assert IsFirstOutline(hs, 0);
      hs[0].level
    else
      var r := FirstOutlineLevel(hs[1..]);
      assert r.Some? ==> exists k :: IsFirstOutline(hs, k) && r == hs[k].level by {
        if r.Some? {
          var j :| IsFirstOutline(hs[1..], j) && r == hs[1..][j].level;
          assert IsFirstOutline(hs, j + 1);
        }
      }
      assert forall k :: 1 <= k < |hs| ==> hs[k] == hs[1..][k - 1];
      r
  }

  /** Heading `k` is the first OUTLINE heading that carries a level. */
  predicate IsFirstOutline(hs: seq<Heading>, k: int)
  {
    0 <= k < |hs| && IsOutlineHeading(hs[k]) && forall j :: 0 <= j < k ==> !IsOutlineHeading(hs[j])
  }

  predicate IsOutlineHeading(h: Heading)
  {
    h.kind == "OUTLINE" && h.level.Some?
  }

  /** A list paragraph property derived from a base with at most one heading declares no outline level. */
  lemma ListParaPrIsNotOutline(base: ParaPr, n: nat, numId: nat, level: nat)
    requires |base.headings| <= 1
    ensures OutlineLevel(ListParaPr(base, n, numId, level)).None?
  {
    var r := ListParaPr(base, n, numId, level);
    assert |r.headings| == 1;
  }

  // ---------------------------------------------------------------------
  // Numberings

  const ORDERED_HEADS: seq<ParaHead> := [
    ParaHead(1, "DIGIT", "^1."), ParaHead(2, "LATIN_CAPITAL", "^2."), ParaHead(3, "ROMAN_SMALL", "^3."),
    ParaHead(4, "DIGIT", "^4."), ParaHead(5, "LATIN_CAPITAL", "^5."), ParaHead(6, "ROMAN_SMALL", "^6."),
    ParaHead(7, "DIGIT", "^7.")]

  const BULLET_HEADS: seq<ParaHead> := [
    ParaHead(1, "DIGIT", ""), ParaHead(2, "DIGIT", "-"), ParaHead(3, "DIGIT", ""),
    ParaHead(4, "DIGIT", ""), ParaHead(5, "DIGIT", ""), ParaHead(6, "DIGIT", ""),
    ParaHead(7, "DIGIT", "")]

  /** A numbering definition with id `id` and start value `start`; ordered lists cycle digit, capital letter, small roman. */
  function NewNumbering(id: nat, ordered: bool, start: int): (r: Numbering)
    ensures r.id == id && r.start == start && |r.heads| == 7
    ensures forall k :: 0 <= k < 7 ==> r.heads[k].level == k + 1
    ensures ordered ==> forall k :: 0 <= k < 7 ==> r.heads[k].numFormat == ["DIGIT", "LATIN_CAPITAL", "ROMAN_SMALL"][k % 3]
    ensures ordered ==> forall k :: 0 <= k < 7 ==> r.heads[k].text == "^" + NatToDecimal(k + 1) + "."
    ensures !ordered ==> forall k :: 0 <= k < 7 ==> r.heads[k].numFormat == "DIGIT"
    ensures !ordered ==> forall k :: 0 <= k < 7 ==> r.heads[k].text == if k == 1 then "-" else ""
  {
    Numbering(id, start, if ordered then ORDERED_HEADS else BULLET_HEADS)
  }
}
