# md2hwpx conversion engine in Dafny

This project models the part of md2hwpx that turns a Pandoc document tree
into HWPX (Hancom word-processor) content: the class `MarkdownToHwpx` in
`md2hwpx/MarkdownToHwpx.py`. The model covers:

- reading the header template. This finds the largest charPr and paraPr
  ids, the Normal style, the outline-level → paraPr → style map (first match
  wins), outline-level validation, the Normal-style cleanliness check and
  the extra table border fill;
- collecting `{{NAME}}` placeholders from the template section;
- the character-property variant cache `_get_char_pr_id`;
- numbering and list paragraph-property allocation;
- the block and inline walkers, with the header, paragraph, code-block, list
  and table handlers;
- table layout on an occupancy set, with even column widths;
- the `itemCnt` recount and the page-setup injection of `convert`;
- the string helpers: attribute escaping, the hyperlink field command,
  the image extension and plain-text flattening.

The XML is abstracted into records. The header is a set of sequences
(charPr, paraPr, style, numbering and borderFill records, each with an
`id`). The converter keeps them as fields of the class
`Converter.Converter`, because the source appends to `header_root` in
place. Generated body XML is a list of `Fragment` records:

- a paragraph, with its style, paraPr, column-break flag and runs;
- a table;
- a group, for the `"\n"`-joined output of a list;
- the empty text of a row-less table.

A run is a text, line-break or picture record carrying its charPr id, a
field-begin or field-end record, or a footnote record holding the
fragments of its blocks. The last three carry no charPr id.

Each stateful operation is a method. Its contract ties the new state to the
old one and to specification functions:

- `ConversionSpec` says which charPr id a run must carry (`RunFits`,
  `IdFits`: with formats, exactly the variant cached for the base and
  formats whenever the header template holds the base or charPr 0 to
  derive it from), how a table's cells are laid out (`TableFits`) and when a
  conversion fails (`BlocksOk`);
- `ConversionFit` says what the output of each block is
  (`BlockFit`, `InlinesFit`, `ListFit`, `ItemsFit`, `CellContentFit`),
  recursively through nested lists, table cells and footnotes, and which
  images a block registers, in document order (`BlockImages`).

The class invariant `Valid` states that:

- every cache entry names a fresh charPr, above the template's largest id;
- each such charPr is recorded with exactly the cached formats applied;
- distinct keys have distinct ids;
- where charPr records are kept, those after the template's are exactly one
  per cache entry, each the variant of a cached key;
- the template's own charPr records stay at the front;
- all ids are bounded by the running maxima.

`Grew` states that records, cache entries and images are only ever added.
Every fit predicate is stable under `Grew`, so output written early keeps
fitting while later blocks extend the header.

Where the implementation and its description disagree, the model follows
the implementation. Differences that matter:

- the heading style quirk (lookup by `level`, not `level-1`) is modelled
  as written;
- the list paraPr's left margin ends at `(level+1)*2000` whatever the
  template had;
- tables are placed with no overlap check beyond the occupancy set, so two
  cells can claim the same grid position (`TableLayout.LayoutMayOverlap`).

## Model

| member | source | states |
|---|---|---|
| Converter.Converter.GetCharPrId | md2hwpx/MarkdownToHwpx.py:1499-1583 | No formats: the base id, nothing allocated. Cached key: the cached id, nothing changes. No header, or neither the base nor charPr 0 exists: the base id, nothing allocated or cached. Otherwise: id is the old maximum + 1, above every template and existing id; the clone with the formats applied is appended (when charProperties exists) and cached. |
| ConversionSpec.AddVariantConsistent | md2hwpx/MarkdownToHwpx.py:1524-1581 | Caching a new variant with the next id keeps the cache sound (fresh, injective, each id shows its key's formats), keeps the appended charPr records one per cache entry, and only adds to the state. |
| ConversionSpec.AddVariantShows | md2hwpx/MarkdownToHwpx.py:1576-1581 | After appending the variant, every cache entry, old or new, still finds a record showing exactly its formats. |
| ConversionSpec.AddVariantCacheBounds | md2hwpx/MarkdownToHwpx.py:1525-1526 | Every id in the extended cache lies above the template maximum and at most the new id, and the cache stays injective. |
| HeaderModel.ApplyFormats | md2hwpx/MarkdownToHwpx.py:1529-1573 | BOLD and ITALIC add their flag. UNDERLINE forces BOTTOM/SOLID/#000000. COLOR_BLUE sets #0000FF and recolours an existing underline. SUPERSCRIPT beats SUBSCRIPT and clears the opposite flag. Everything else is kept from the base. |
| HeaderModel.ApplyFormatsIdempotent | md2hwpx/MarkdownToHwpx.py:1529-1573 | Applying the same formats twice equals applying them once. |
| HeaderModel.CleanBaseShowsExactFormats | md2hwpx/MarkdownToHwpx.py:1529-1573 | On a clean base, the variant has bold, italic, underline, superscript and subscript exactly when the format set asks for them. |
| HeaderModel.UnderlineStep | md2hwpx/MarkdownToHwpx.py:1538-1544 | Only the underline changes. With UNDERLINE asked for it becomes BOTTOM/SOLID/#000000; otherwise it is kept. |
| HeaderModel.ColorStep | md2hwpx/MarkdownToHwpx.py:1546-1559 | Only the text colour and the underline colour change, and an underline exists afterwards iff it did before, with its type and shape kept. With COLOR_BLUE the text is #0000FF and so is an existing underline; otherwise nothing changes. |
| HeaderModel.ScriptStep | md2hwpx/MarkdownToHwpx.py:1561-1573 | The script edit alone changes only the two script flags, superscript winning. |
| HeaderModel.ScanMaxId | md2hwpx/MarkdownToHwpx.py:353-363 | The loop returns the largest id, or 0 for none. |
| HeaderModel.FirstKeyed | md2hwpx/MarkdownToHwpx.py:1518 | An `[@id=...]` lookup returns the first record with that key, and fails exactly when no record has it. |
| HeaderModel.FirstKeyedGrow | md2hwpx/MarkdownToHwpx.py:1576-1578 | Appending records never changes a lookup that already succeeds. |
| HeaderModel.DirtyTags | md2hwpx/MarkdownToHwpx.py:455-466 | The forbidden-tag list is empty exactly when the charPr is clean. A tag is listed iff its property is set (bold, italic, an underline of type other than NONE, supscript, subscript), and the tags come in that order. |
| HeaderModel.ListParaPr | md2hwpx/MarkdownToHwpx.py:1670-1696 | The clone has the new id and a NUMBER heading with the numbering id and level. Every intent is -2000 and every left is (level+1)*2000. Other content is unchanged. |
| HeaderModel.ListParaPrIgnoresTemplateMargins | md2hwpx/MarkdownToHwpx.py:1685-1696 | The final margins do not depend on the template's margin values: the second loop overwrites the additive one. |
| HeaderModel.ListParaPrIsNotOutline | md2hwpx/MarkdownToHwpx.py:1675-1680 | A list paraPr cloned from a base with at most one heading has no OUTLINE heading. |
| HeaderModel.FirstOutlineLevel | md2hwpx/MarkdownToHwpx.py:391-398 | No level exactly when no heading is an OUTLINE heading with a level; otherwise the level of the first such heading. |
| HeaderModel.NewNumbering | md2hwpx/MarkdownToHwpx.py:1588-1608 | Seven paragraph heads, levels 1..7. Ordered lists cycle DIGIT, LATIN_CAPITAL, ROMAN_SMALL, and head k has the text `^k.`. Bullets use DIGIT, with the text `-` at level 2 and the empty text at every other level. The start is the given one. |
| Converter.Converter.CreateNumbering | md2hwpx/MarkdownToHwpx.py:1624-1662 | Allocates the largest numbering id + 1 and appends the numbering built for the list kind and start. |
| Converter.Converter.GetListParaPr | md2hwpx/MarkdownToHwpx.py:1664-1702 | Without the Normal paraPr: its id, with no change. Otherwise: id = old maximum + 1, above every existing id, and the list clone is appended when paraProperties exists. In both cases the id satisfies `ListParaPrFits`. |
| ConversionSpec.AddListParaPrConsistent | md2hwpx/MarkdownToHwpx.py:1670-1702 | Appending the list paraPr keeps the state consistent, only adds to it, and makes the new id resolve to the list clone. |
| ConversionSpec.ListParaPrStable | md2hwpx/MarkdownToHwpx.py:1698-1700 | A list paraPr once recorded stays findable, unchanged, as paraPrs grow. |
| HeaderModel.FirstKeyedPrefix | md2hwpx/MarkdownToHwpx.py:1666 | A lookup that succeeds on a prefix gives the same record on any extension. |
| StyleResolver.ReadTemplate | md2hwpx/MarkdownToHwpx.py:346-433 | Reads the largest charPr and paraPr ids and the table border-fill id (largest + 1). It picks the Normal style (id 0, else the first) and builds the outline map. |
| StyleResolver.FirstWins | md2hwpx/MarkdownToHwpx.py:386-417 | The dictionary built by "insert if absent" holds a key exactly when some record has it, and then maps it to the first such record. |
| StyleResolver.BuildOutlineMap | md2hwpx/MarkdownToHwpx.py:386-431 | The combined map is the outline map: a level maps to the style of the first paraPr with that OUTLINE level, via the first style referring to it. The style-id map has the same keys. |
| StyleResolver.CombineOutlineIsOutlineMap | md2hwpx/MarkdownToHwpx.py:419-431 | Combining the two first-wins dictionaries yields exactly the outline map. |
| StyleResolver.OutlineMapUnique | md2hwpx/MarkdownToHwpx.py:386-431 | The outline map of a header is unique. |
| StyleResolver.ValidateOutline | md2hwpx/MarkdownToHwpx.py:434-445 | No error exactly when the levels are 0..n-1. A "start" error names the smallest level, which is non-zero; a "gap" error names the first missing index (`OutlineErrorFits`). |
| StyleResolver.OutlineErrorUnique | md2hwpx/MarkdownToHwpx.py:434-445 | At most one error fits a level set, so the error reported is determined by the levels. |
| StyleResolver.ContiguousIsRange | md2hwpx/MarkdownToHwpx.py:440-445 | The check accepts a level set iff it is {0, ..., n-1}. |
| StyleResolver.MinLevel | md2hwpx/MarkdownToHwpx.py:434-441 | The first sorted level is the minimum of the detected levels. |
| StyleResolver.ListedLevels | md2hwpx/MarkdownToHwpx.py:422-431 | The detected list holds exactly the levels with an outline paraPr and a style. |
| StyleResolver.ResolveStyles | md2hwpx/MarkdownToHwpx.py:346-470 | On success the template was read and its levels are contiguous. A level failure is the start or gap error of the outline map's levels. A dirty-Normal failure happens only when the levels are contiguous, since they are checked first; it names the Normal charPr and its non-empty list of forbidden tags. On success the Normal charPr is clean or absent. |
| Converter.Open | md2hwpx/MarkdownToHwpx.py:21-75 | With no header: defaults, no records, no placeholders. With a header: the resolved template, plus the records with one border fill appended. Placeholders are those of the section. Failures are as in ResolveStyles, including the outline check coming before the Normal charPr check. |
| Converter.Converter.constructor | md2hwpx/MarkdownToHwpx.py:43-62 | Starts with an empty cache and no images, with the maxima read from the template and exactly the template's charPr records. |
| Placeholders.FindPlaceholders | md2hwpx/MarkdownToHwpx.py:498-527 | The map equals recording every text child's first `{{NAME}}` hit, in document order, into an empty map. |
| Placeholders.ScanPara | md2hwpx/MarkdownToHwpx.py:509-526 | One paragraph's hits are recorded with that paragraph's paraPr id. |
| Placeholders.ScanRun | md2hwpx/MarkdownToHwpx.py:513-526 | One run's hits are recorded with its charPr id. Only a non-empty text with a marker contributes. |
| Placeholders.RecordLastWins | md2hwpx/MarkdownToHwpx.py:519-524 | A name is in the map iff some hit has it, and its entry is that of the last such hit. |
| Placeholders.MarkerAtSpec | md2hwpx/MarkdownToHwpx.py:506 | A name is read at a position exactly when `{{`, a maximal non-empty run of word characters and `}}` start there. |
| Placeholders.FindMarkerFromLeftmost | md2hwpx/MarkdownToHwpx.py:518 | The search returns the leftmost marker, and nothing only when no position holds one. |
| Placeholders.WordRunLen | md2hwpx/MarkdownToHwpx.py:506 | The greedy `\w+` run stops at the first non-word character. |
| Placeholders.MarkerNeedsFullRun | md2hwpx/MarkdownToHwpx.py:506 | With no `}}` right after the maximal word run, there is no marker at that position (no backtracking match exists). |
| Converter.Converter.ProcessBlocks | md2hwpx/MarkdownToHwpx.py:582-614 | Fails exactly when some block fails. Otherwise the fragments fit the blocks one for one (`BlocksFit`): each written block gives exactly its handler's output, through nested lists, table cells and footnotes; other kinds are skipped. The images registered are the blocks' images in document order. |
| Converter.Converter.HandleBlock | md2hwpx/MarkdownToHwpx.py:595-611 | A fragment exactly for the seven handled kinds, and it fits the block (`BlockFit`). A code block becomes a Normal paragraph with one run of its code at charPr 0. The images registered are the block's. |
| Converter.Converter.HandleHeader | md2hwpx/MarkdownToHwpx.py:686-734 | A leading LineBreak sets the column break and is dropped. The target is the `H{level}` placeholder, else the outline style. A missing `level-1` fails with that level. The runs fit the remaining inlines from the target's charPr with no formats, so a formatted run carries the variant cached for the target's charPr and its formats whenever the template can derive one. The images registered are the heading's. |
| ConversionSpec.HeaderStyleQuirk | md2hwpx/MarkdownToHwpx.py:709-720 | With contiguous levels 0..n-1 and no placeholder, heading level L converts iff 1 <= L <= n. Its style is `outline_style_ids[L]` for L < n, and the literal L for L = n: it is looked up by L, not L-1. |
| ConversionSpec.HeaderTarget | md2hwpx/MarkdownToHwpx.py:699-728 | A heading with an `H{level}` placeholder always succeeds, with the Normal style. A failure is `HeaderLevelMissing(level)`. |
| ConversionSpec.BodyTarget | md2hwpx/MarkdownToHwpx.py:736-756 | Paragraphs use the Normal style, and the Normal paraPr unless a BODY placeholder exists. |
| Converter.Converter.HandleBody | md2hwpx/MarkdownToHwpx.py:736-778 | A Para/Plain block gives a paragraph of the body target, without column break, whose runs fit the inlines from the target's charPr with no formats, formatted runs at their cached variant as for ProcessInlines. It fails only through a footnote. The images registered are the block's. |
| Converter.Converter.ProcessInlines | md2hwpx/MarkdownToHwpx.py:1070-1161 | Fails exactly when a footnote body fails. Otherwise the runs fit the inlines (`InlinesFit`): a run without formats carries the base id; a formatted run carries the variant cached for the base and its formats whenever the template holds the base or charPr 0, and otherwise the base id or that cached variant; a link is bracketed by field runs, and a footnote run holds the fragments fitting its blocks. Images are registered in walk order. |
| Converter.Converter.ProcessInline | md2hwpx/MarkdownToHwpx.py:1085-1161 | One inline: leaves give one run, wrappers recurse with their flag added, a link's text gets UNDERLINE and COLOR_BLUE between field begin and end (its runs at the cached variant of those formats, as for ProcessInlines), and a note is one footnote run whose fragments fit its blocks. Unknown kinds give nothing. |
| Converter.Converter.LeafRuns | md2hwpx/MarkdownToHwpx.py:1089-1161 | Str, Space/SoftBreak (as a blank), Code, LineBreak and Image each give one run whose id is chosen as in ProcessInlines: the base without formats, the cached variant for the base and formats when the template can derive one. Exactly an image registers one entry. |
| Converter.Converter.RegisterImage | md2hwpx/MarkdownToHwpx.py:1298-1313 | Appends one image entry with the URL and its extension, and returns its index. |
| InlineWalk.FormatsBounded | md2hwpx/MarkdownToHwpx.py:1097-1133 | Every formatted piece carries at least the caller's formats and at most those plus the wrapper flags above it. Siblings therefore keep the original set. |
| InlineWalk.LinkTextStyled | md2hwpx/MarkdownToHwpx.py:1130-1133 | Every formatted piece inside a link is underlined and blue. |
| InlineWalk.FieldsBalanced | md2hwpx/MarkdownToHwpx.py:1122-1136 | Field begin and end pieces are balanced and never close an unopened field. |
| InlineWalk.OneFieldPerLink | md2hwpx/MarkdownToHwpx.py:1122-1136 | The field-begin URLs are exactly the link targets, one per link, in order. |
| InlineWalk.WrittenTextIsPlainText | md2hwpx/MarkdownToHwpx.py:91-115 | On inlines without images, soft breaks, strikeout, small caps or quotes, the text written equals `_get_plain_text`. |
| DocTree.PlainTextAppend | md2hwpx/MarkdownToHwpx.py:91-115 | The plain text of a concatenation is the concatenation of the plain texts. |
| Converter.Converter.HandleList | md2hwpx/MarkdownToHwpx.py:1704-1769 | Without a header template it fails. Otherwise it allocates one numbering of the list's kind and start, with an id above every earlier one and so above the enclosing list's. The group's fragments fit the items at this level under that numbering (`ListFit`, `ItemsFit`). |
| Converter.Converter.ListItems | md2hwpx/MarkdownToHwpx.py:1717-1718 | The item blocks are walked item after item, each block fitting at the list's numbering and level (`ItemsFit`); the images are the items'. |
| Converter.Converter.ListItemBlocks | md2hwpx/MarkdownToHwpx.py:1718-1734 | One fragment per block of an item, in order, each fitting it (`ListFragFit`). Fails exactly when a block fails. |
| Converter.Converter.ListBlock | md2hwpx/MarkdownToHwpx.py:1718-1734 | A list paraPr is allocated first. A Para/Plain block becomes a Normal-style paragraph with the list paraPr of the numbering and level and base-0 runs fitting its inlines. A nested list fits one level deeper with a fresh numbering above this one. Anything else is the group of its top-level fragment, fitting the block. |
| Converter.Converter.HandleTable | md2hwpx/MarkdownToHwpx.py:788-965 | No rows gives the empty fragment. Otherwise a Normal table in which rowCnt is the row count, colCnt the spec count and height rowCnt*1000, with one cell record per cell as laid out, each holding the fragments fitting its own blocks. The images registered are those of the table's rows. |
| Converter.Converter.TableRows | md2hwpx/MarkdownToHwpx.py:886-956 | Each row's cells fit its row of the layout and hold their blocks' fragments. Fails exactly when a cell fails. |
| Converter.Converter.TableRow | md2hwpx/MarkdownToHwpx.py:891-954 | The cells of one row, in order, each at its placement with content fitting its blocks. |
| Converter.Converter.TableCellOut | md2hwpx/MarkdownToHwpx.py:898-951 | A cell has its address, spans, width colspan*int(45000/colCnt), the table border fill and content fitting its blocks (`CellContentFit`). It fails on the division by zero, when there is no border fill, or when its blocks fail. |
| ConversionSpec.PlacesOfFits | md2hwpx/MarkdownToHwpx.py:949-950 | The addresses and spans written are exactly the layout grid. |
| ConversionSpec.TableOkFlat | md2hwpx/MarkdownToHwpx.py:799-819 | A table converts iff all its flattened rows do. |
| TableLayout.FlattenRows | md2hwpx/MarkdownToHwpx.py:799-819 | Rows are the head, then each body's intermediate headers and main rows, then the foot. |
| TableLayout.FlatRowOrigin | md2hwpx/MarkdownToHwpx.py:799-819 | Every flattened row comes from the head, a body or the foot. |
| TableLayout.LayoutGrid | md2hwpx/MarkdownToHwpx.py:883-956 | Row r's cells are at row address r with their spans. Each anchor is the first column at or after the cursor not covered by an earlier span, the cursor being just past the previous cell. |
| TableLayout.LayoutMayOverlap | md2hwpx/MarkdownToHwpx.py:886-905 | A two-row table whose rowspan-2 cell and colspan-4 cell both cover row 1, column 2 is a valid layout: placement does not keep cells apart. |
| TableLayout.LayoutRow | md2hwpx/MarkdownToHwpx.py:890-954 | One row laid out; the occupancy set afterwards is exactly the cells covered so far. |
| TableLayout.PlaceCell | md2hwpx/MarkdownToHwpx.py:893-905 | The free-column search returns the first uncovered column at or after the cursor, then marks rowspan × colspan cells. |
| TableLayout.MarkOccupied | md2hwpx/MarkdownToHwpx.py:903-905 | Adds exactly the coordinates the cell covers. |
| TableLayout.LayoutShape | md2hwpx/MarkdownToHwpx.py:886-956 | A layout has one placement per cell, at row address r with the cell's spans. |
| TableLayout.UnitSpansGiveDenseGrid | md2hwpx/MarkdownToHwpx.py:886-956 | With all spans 1, cell j of row r sits at (r, j). |
| TableLayout.ColumnWidths | md2hwpx/MarkdownToHwpx.py:828-829 | One width per spec, each int(45000/colCnt). |
| TableLayout.CellWidth | md2hwpx/MarkdownToHwpx.py:907-912 | The summed width is colspan * int(45000/colCnt), including columns past the last spec. It fails (division by zero) exactly when there are no specs and the span is non-zero. |
| Converter.Converter.Convert | md2hwpx/MarkdownToHwpx.py:529-576 | The fragments fit the blocks (`BlocksFit`, with formatted runs at their cached variants) and so match the handled blocks one for one by kind; the images registered are the document's, in order. Each itemCnt is then the number of records, for the containers that exist; there are none without a header. |
| ConversionFit.BlockFitStable | md2hwpx/MarkdownToHwpx.py:582-614 | A fragment that fits its block keeps fitting when the header only grows, so later blocks never invalidate earlier output. |
| ConversionFit.ListFitStable | md2hwpx/MarkdownToHwpx.py:1704-1736 | A list's output keeps fitting as the header grows; its numbering stays in place. |
| ConversionFit.BoldRunShowsBold | md2hwpx/MarkdownToHwpx.py:1499-1531 | Bold text whose base (or charPr 0) is in the template is written as one text run whose charPr is recorded and shows bold. |
| ConversionFit.InlinesFitPieces | md2hwpx/MarkdownToHwpx.py:1070-1161 | Runs that fit the inlines fit the pieces of the inline walk: each run's charPr is the one `IdFits` requires for its piece's formats (the cached variant whenever the template can derive one) and each picture has the registry entry of its image. |
| ConversionFit.BlocksFitKinds | md2hwpx/MarkdownToHwpx.py:582-614 | Fitting fragments are one per handled block, each of the kind its block calls for. |
| ConversionFit.TableImagesFlat | md2hwpx/MarkdownToHwpx.py:799-819 | A table registers the images of its flattened rows, in order. |
| ConversionFit.LinkRunsFit | md2hwpx/MarkdownToHwpx.py:1122-1136 | A link's runs are the field begin with the escaped command, its text with UNDERLINE and COLOR_BLUE added, then the field end. |
| TextHelpers.InjectPageSetup | md2hwpx/MarkdownToHwpx.py:533-546 | No or empty setup, or no `<hp:run ...>` tag: the body is unchanged. Otherwise the setup is inserted right after the end of the first such tag. |
| TextHelpers.InjectPageSetupRemovable | md2hwpx/MarkdownToHwpx.py:541-543 | Removing the inserted text gives back the body; the text sits at the tag's end. |
| TextHelpers.RunTagEndIsLeftmost | md2hwpx/MarkdownToHwpx.py:538-539 | The match found is an `<hp:run ` tag closed by the first `>`, and no such tag starts earlier. |
| TextHelpers.IndexOf | md2hwpx/MarkdownToHwpx.py:538-539 | The leftmost occurrence at or after `from`, or none anywhere after it. |
| TextHelpers.EscapeChainIsCharwise | md2hwpx/MarkdownToHwpx.py:620-624 | The chained replacements (`&` first) escape every character independently, so no entity is escaped twice. |
| TextHelpers.EscapeAttrRoundTrip | md2hwpx/MarkdownToHwpx.py:620-624 | Decoding the five entities recovers the escaped value. |
| TextHelpers.EscapeAttrSafe | md2hwpx/MarkdownToHwpx.py:620-624 | The result contains no `<`, `>`, `"` or `'`; `None` gives the empty string. |
| TextHelpers.CommandEscapeIsCharwise | md2hwpx/MarkdownToHwpx.py:1407 | The two chained replacements escape `:` and `?` character by character. |
| TextHelpers.CommandUnescapeEscape | md2hwpx/MarkdownToHwpx.py:1407 | Unescaping the command text recovers the URL. |
| TextHelpers.LinkCommandRoundTrip | md2hwpx/MarkdownToHwpx.py:1407-1408 | The URL is parsed back from the full `...;1;5;-1;` command. |
| TextHelpers.LinkCommandInjective | md2hwpx/MarkdownToHwpx.py:1407-1408 | Different URLs give different commands. |
| TextHelpers.ImageExt | md2hwpx/MarkdownToHwpx.py:1298-1306 | The extension is one of jpg, gif, bmp, png, and it is png exactly when the path ends in none of `.jpg`, `.jpeg`, `.gif`, `.bmp` in any ASCII case. |
| TextHelpers.ImageExtBySuffix | md2hwpx/MarkdownToHwpx.py:1301-1306 | A `.jpg`/`.jpeg`, `.gif` or `.bmp` suffix, in any ASCII case, selects that extension. |
| TextHelpers.ImageExtCaseInsensitive | md2hwpx/MarkdownToHwpx.py:1300 | The choice ignores ASCII case. |
| TextHelpers.NatToDecimalValue | md2hwpx/MarkdownToHwpx.py:699 | The decimal text written for a number, as in `H{level}`, reads back as that number. |

## Left out

- Zip reading and writing, file-system and DOCX image lookup, section splicing and manifest patching (`convert_to_hwpx`, md2hwpx/MarkdownToHwpx.py:118-311). These are I/O and packaging.
- Image sizing (`_parse_dimension` and the sizing part of `_handle_image_elem`, md2hwpx/MarkdownToHwpx.py:1163-1260). This is floating-point unit conversion and image file reads. Only the extension choice and the registry append are modelled. In particular the model's images never fail, while `float()` on a `[0-9.]+` match such as `1.2.3` or `.` raises ValueError in the source.
- Time- and random-derived ids (table, sub-list, picture, instance, field and binary ids). They are dropped; an image is identified by its registry index.
- Byte-level XML: parsing, serialization and `saxutils` text escaping of element content. The XML is modelled as records. Debug and warning prints are left out.
- `_extract_metadata` (the document title). It does not influence the generated content.
- `_init_numbering_structure`. The numberings container is modelled as always present in a header.
- `_process_inlines` (the string version used inside lists). It behaves like `_process_inlines_to_elems`, so one method models both.
- The footnote element itself. A footnote is one run carrying its converted blocks.
- Ids are natural numbers. The source keeps many of them as decimal strings, and compares a cache key's `str(base_id)`; canonical decimals are assumed. `int(45000/n)` is modelled as floor division, which agrees for positive n.
- Without a header, `max_para_pr_id` is never set in the source. The model starts it at 0; it is never read on that path.
- `\w` and `.upper()`/`.lower()` are modelled on ASCII only. Unicode word characters and case mappings are not.
- The `[^>]*` of the page-setup search is modelled as "up to the first `>`", which is where the regular expression's match ends.
- Converter.Converter.ProcessInlines: when the template holds neither the base nor charPr 0 but the base is the id of a variant allocated earlier, a formatted run's id is stated only as the base or the cached variant. The source derives from that variant, but the walk's bases all come from the template, so this case needs a style that refers to a charPr id the template lacks.
- Converter.Converter.ProcessInlines: "fails exactly when a footnote body fails" holds for images whose width and height parse; a malformed dimension (`1.2.3`) raises ValueError in the source and is not modelled.
- Converter.Converter.HandleBody: "fails only through a footnote" holds for images whose width and height parse, as for ProcessInlines.
- TableLayout.LayoutGrid: does not promise that cells are disjoint or that every declared column is covered once. The source does not check this either; TableLayout.LayoutMayOverlap gives a layout where two cells cover the same position.
- Converter.Converter.HandleBlock: the error value of a failing block is not stated. HandleHeader and HandleList state theirs; failures raised inside footnotes or table cells are stated only as failures.
- Converter.Converter.Valid: the invariant does not state that the clone source of a cached variant stays the same record. Records are only appended, so it does.
