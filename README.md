# docx2python text-run formatting, in Dafny

This project models `docx2python/text_runs.py`. That file turns the formatting of a
DOCX run (`w:r`), paragraph (`w:p`) or table cell (`w:tc`) into HTML-like tags, in
three stages:

* **gather**: `gather_rPr`, `gather_pPr` and `gather_tcPr` read the element's
  properties child (`w:rPr`, `w:pPr` or `w:tcPr`). `gather_rPr` and `gather_tcPr`
  build a dict from every grandchild's local tag name to its `w:val` attribute (or
  `None`). `gather_pPr` keeps only the `spacing`, `jc` and `ind` children: it
  stores a sub-dict of six named attributes under `spacing`, a sub-dict of four
  under `ind`, and the `w:val` attribute (or `None`) under `jc`.
* **select**: `get_run_style`, `get_paragraph_style` and `get_table_cell_style`
  walk that dict in sorted order. An allow-list and fixed ordering rules turn it
  into a list of `(name, rendered)` style entries.
* **serialise**: `style_open` and `style_close` turn the list into open tags, and
  into close tags in reverse order.

How the model is built:

* An element is reduced to its properties child. `Element(None)` is an element
  without one, which is the source's `TypeError` path returning `{}`.
* Each grandchild is a `Child(tag, attrs)`: its local tag name and its
  attributes keyed by local name.
* A Python dict is an insertion-ordered association list (`Dicts.Dict`). Assigning
  to a key that is already present replaces its value in place; a new key is
  appended (`Dicts.Put`).
* `sorted` is a stable insertion sort (`Sorting.SortBy`) under Python's code-point
  order on strings (`Lex.Below`).
* A dict comprehension is `TextRuns.Comprehend`, so a repeated tag keeps the value
  of its last occurrence.
* The three select functions and `gather_pPr` contain loops. They are methods with
  those loops (`GetRunStyle`, `GetParagraphStyle`, `GetTableCellStyle`, `GatherPPr`),
  each proved equal to a function (`RunStyle`, `ParagraphStyle`, `CellStyle`,
  `ParagraphProperties`).
* `TextRunsProperties` proves what those functions promise.

The files:

* `wrappers.dfy`: `Option`.
* `lex.dfy`: string order.
* `sorting.dfy`: `sorted`.
* `dicts.dfy`: dicts and `sorted(d.items())`.
* `text_runs.dfy`: the three stages.
* `text_runs_properties.dfy`: the properties.

Four behaviours of the code worth knowing:

* A `w:u` child becomes a bare `("u", "")` flag; its `w:val` (e.g. `single`) is
  dropped.
* The spacing and indentation tokens are sorted as whole `key="value"` strings,
  not by sub-key. `TextRunsProperties.SpacingSorted` and `IndentationSorted` show
  the two orders agree: `after`, `afterAutospacing`, `before`,
  `beforeAutospacing`, `line`, `lineRule` and `firstLine`, `hanging`, `left`,
  `right`.
* The styles do not depend on the order of the properties children only when no
  tag occurs twice. Otherwise the last occurrence wins, so
  `StylesIgnoreChildOrder` requires distinct tags.
* The `gather_tcPr` docstring shows `{"gridSpan": "2"}` for its example, but the
  code keeps every child, so that example also yields `"tcW": None` (`tcW` has no
  `w:val`). `GatherTcPr` follows the code.

## Model

| member | source | states |
|---|---|---|
| TextRuns.LastTagged | docx2python/text_runs.py:83 | The value a comprehension keeps for a tag comes from the last child with that tag. The result is `None` exactly when no child has the tag. |
| TextRuns.Comprehend | docx2python/text_runs.py:277 | `{tag(x): val(x) for x in cs}` has unique keys. Every tag present maps to `val` of its last child, and no other key is present. |
| TextRuns.GatherTcPr | docx2python/text_runs.py:81-86 | `gather_tcPr` maps each `w:tcPr` child's tag to its `w:val` (`None` when absent). The last child wins. No `w:tcPr` gives `{}`. |
| TextRuns.GatherRPr | docx2python/text_runs.py:275-280 | `gather_rPr` maps each `w:rPr` child's tag to its `w:val` (`None` when absent). The last child wins. No `w:rPr` gives `{}`. |
| TextRuns.SpacingFields | docx2python/text_runs.py:166-171 | The `spacing` sub-dict has exactly the six keys `before`, `after`, `line`, `lineRule`, `beforeAutospacing` and `afterAutospacing`. Each maps to that attribute, or `None` when the attribute is absent. |
| TextRuns.IndFields | docx2python/text_runs.py:174-180 | The `ind` sub-dict has exactly the keys `left`, `right`, `hanging` and `firstLine`. Each maps to that attribute, or `None` when the attribute is absent. |
| TextRuns.ParagraphChildren | docx2python/text_runs.py:163-180 | Only `spacing`, `jc` and `ind` children reach the dict. For those tags the last child is the same as in the unfiltered children; every other tag is absent. |
| TextRuns.ParagraphProperties | docx2python/text_runs.py:160-184 | The `gather_pPr` dict has keys `spacing`, `jc` and `ind` only. Each is present exactly when such a child is, and its value comes from the last such child. No `w:pPr` gives a dict without keys. |
| TextRuns.GatherPPr | docx2python/text_runs.py:160-184 | The loop of `gather_pPr`, one dict assignment per kept child, builds exactly `ParagraphProperties`. |
| Dicts.Put | docx2python/text_runs.py:167 | `elements[tag] = v`: afterwards the key reads `v`, every other key reads as before, and keys stay unique. |
| Dicts.SortedItemsFacts | docx2python/text_runs.py:107 | `sorted(d.items())` has keys strictly ascending and unique, and has the same lookups as `d`. |
| Dicts.SortedItemsDeterministic | docx2python/text_runs.py:208 | Two dicts with the same lookups give the same `sorted(d.items())`, whatever their insertion order. |
| Sorting.SortBySorted | docx2python/text_runs.py:219 | The result of `sorted` is in ascending order. |
| Sorting.SortByPermutation | docx2python/text_runs.py:316 | `sorted` gives the same list for any arrangement of the same elements, whenever equal keys mean equal elements (always so for strings). |
| Sorting.SortedUnique | docx2python/text_runs.py:221 | Two ascending arrangements of the same elements are equal when the key determines the element. |
| TextRuns.GetRunStyle | docx2python/text_runs.py:302-317 | The loop of `get_run_style` computes exactly `RunStyle` of the gathered dict. |
| TextRuns.AppendFieldTokens | docx2python/text_runs.py:210-214 | The inner loop appends one `key="value"` token per sub-dict field, in the sub-dict's order. |
| TextRuns.GetParagraphStyle | docx2python/text_runs.py:204-223 | The loop of `get_paragraph_style` computes exactly `ParagraphStyle` of the gathered dict. |
| TextRuns.GetTableCellStyle | docx2python/text_runs.py:105-111 | The loop of `get_table_cell_style` computes exactly `CellStyle` of the gathered dict. |
| TextRuns.OpenTag | docx2python/text_runs.py:333-334 | An entry opens as `<name>` when its rendered part is empty, as `<rendered>` when its name is empty, and as `<name rendered>` otherwise. |
| TextRuns.Reversed | docx2python/text_runs.py:354 | `reversed(s)` has the same length, with element `i` equal to element `len - 1 - i`. |
| TextRunsProperties.StyleOpenConcat | docx2python/text_runs.py:333-334 | `style_open` concatenates: the open tags of `a + b` are those of `a` followed by those of `b`. |
| TextRuns.StyleOpen | docx2python/text_runs.py:333-334 | `style_open` gives no text exactly when the style is empty, and otherwise begins with the open tag of the first entry. `StyleOpenConcat` and `StylesNest` give the rest. |
| TextRuns.StyleClose | docx2python/text_runs.py:354 | `style_close` gives no text exactly when the style is empty, and otherwise begins with the close tag of the last entry. `StyleCloseConcat` and `StylesNest` give the rest. |
| TextRunsProperties.StyleCloseConcat | docx2python/text_runs.py:350-354 | The close tags of `a + b` are those of `b` followed by those of `a`. |
| TextRunsProperties.StyleCloseOne | docx2python/text_runs.py:354 | One entry closes with `</name>`. |
| TextRunsProperties.StylesNest | docx2python/text_runs.py:350-352 | Open tags, text and close tags nest: the first entry opens first and closes last, around the same construction on the remaining entries. |
| TextRunsProperties.StyleCloseIgnoresRendered | docx2python/text_runs.py:354 | Close tags depend on the entry names only, never on the rendered attributes. |
| TextRunsProperties.DocstringExample | docx2python/text_runs.py:324-348 | The docstring example: `<font color="red" size="32"><b><i><u>` and `</u></i></b></font>`. |
| TextRunsProperties.NoPropertiesNoStyle | docx2python/text_runs.py:278-280 | An element without a properties child has an empty run, paragraph and cell style, whose open and close tags are empty. |
| TextRunsProperties.CellStyleShape | docx2python/text_runs.py:105-111 | A cell style is the single entry `("gridSpan", 'val="…"')` when `gridSpan` is present, and empty otherwise. Every other tag is ignored. |
| TextRunsProperties.RunFlagsAreCanonical | docx2python/text_runs.py:306-309 | Every `b`, `i`, `s`, `strike` or `u` item gives one bare flag, in item order. The flag is named `b`, `i`, `s`, `s` or `u`. |
| TextRunsProperties.FlagTagsAscend | docx2python/text_runs.py:305-309 | The flag tags met while walking sorted items are exactly the flag tags in the dict, in strictly ascending order. |
| TextRunsProperties.FontTokensFound | docx2python/text_runs.py:310-313 | The font tokens are, as a multiset, exactly `color="…"` when `color` is present plus `size="…"` when `sz` is present. |
| TextRunsProperties.FontPart | docx2python/text_runs.py:315-316 | The font part is one `font` entry when `color` or `sz` is present, and empty otherwise. |
| TextRunsProperties.FontEntry | docx2python/text_runs.py:315-316 | The built font entry is `FontPart`: `color` before `size`, space-joined. |
| TextRunsProperties.RunStyleSplit | docx2python/text_runs.py:315-316 | A run style is the font part followed by the flags of the sorted items. Those flags name exactly the flag tags present, in ascending order. |
| TextRunsProperties.RunStyleShape | docx2python/text_runs.py:302-317 | A run style is the font part first. Then come the bare flags of the flag tags present, in ascending tag order. Nothing else appears. |
| TextRunsProperties.RunStyleNames | docx2python/text_runs.py:296-298 | `font` is first exactly when `color` or `sz` is set, and never appears later. Every other entry is a bare `b`, `i`, `s` or `u`. |
| TextRunsProperties.SpacingSorted | docx2python/text_runs.py:220-221 | The sorted spacing tokens are `after`, `afterAutospacing`, `before`, `beforeAutospacing`, `line`, `lineRule`, space-joined. |
| TextRunsProperties.IndentationSorted | docx2python/text_runs.py:218-219 | The sorted indentation tokens are `firstLine`, `hanging`, `left`, `right`, space-joined. |
| TextRunsProperties.SpacingEntry | docx2python/text_runs.py:209-211 | The `spacing` entry is present exactly when a `w:spacing` child is, and is rendered from the last one. |
| TextRunsProperties.IndentationEntry | docx2python/text_runs.py:212-214 | The `indentation` entry is present exactly when a `w:ind` child is, and is rendered from the last one. |
| TextRunsProperties.JustificationEntry | docx2python/text_runs.py:215-216 | The `justification` entry is `val="…"` of the last `w:jc` child, and is present exactly when such a child is. |
| TextRunsProperties.ParagraphStyleShape | docx2python/text_runs.py:204-223 | A paragraph style is `spacing`, then `indentation`, then `justification`. Each is present exactly when its child is and comes from the last such child. Every other tag is ignored. |
| TextRunsProperties.LastTaggedIgnoresOrder | docx2python/text_runs.py:277 | With no repeated tag, the child a tag resolves to does not depend on the children's order. |
| TextRunsProperties.StylesIgnoreChildOrder | docx2python/text_runs.py:302-305 | With no repeated tag, the run, paragraph and cell styles do not depend on the order of the properties children. |
| TextRunsProperties.RunStyleFromLastTagged | docx2python/text_runs.py:302-317 | Two runs whose last child per tag agree have the same style. |
| TextRunsProperties.ParagraphStyleFromLastTagged | docx2python/text_runs.py:204-223 | Two paragraphs whose last child per tag agree have the same style. |
| TextRunsProperties.CellStyleFromLastTagged | docx2python/text_runs.py:105-111 | Two cells whose last child per tag agree have the same style. |

## Left out

- XML parsing, `ElementTree.find`, `qn` and namespaces are not modelled. An element is given by its properties child, and a child by its local tag name and its attributes keyed by local attribute name.
- `_elem_tag_str` is not modelled, so its regex and its failure on a tag without a namespace are out of scope. A comment node, whose tag is not a string, would make the whole dict `{}` through the `TypeError` path; it is not modelled either.
- The `print(tag)` in `gather_pPr` is output only and is left out.
- The `TypeError` path is modelled only as "no properties child" (`Element(None)`).
- `gather_pPr` always stores a sub-dict under `spacing` and `ind`, and a string or `None` under `jc`, so `get_paragraph_style` never meets a value of another shape. For such a value the model contributes nothing. Python would do two different things. A non-dict under `spacing` or `ind` fails at `val.items()`. A sub-dict under `jc` is printed into `val="…"`.
- `sorted` is Timsort in Python and a stable insertion sort here; both are stable sorts, so they agree on every input.
- `sorted(d.items())` compares `(key, value)` tuples. Because dict keys are unique, only the keys are ever compared, which is what the model sorts by.
