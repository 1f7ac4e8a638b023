/**
 * The formatting of DOCX runs (`w:r`), paragraphs (`w:p`) and table cells
 * (`w:tc`), in three stages:
 *   gather    -- the properties child (`w:rPr`, `w:pPr`, `w:tcPr`) becomes a
 *                dict from each child's tag name to its value;
 *   select    -- an allow-list and fixed ordering rules turn that dict into
 *                a list of (name, rendered) style entries;
 *   serialise -- the list becomes HTML-like open tags and close tags.
 * XML parsing is not modelled: an element is given by its properties child,
 * and each child of that by its local tag name and its attributes, keyed by
 * local attribute name.
 */
module TextRuns {
  import opened Wrappers
  import opened Sorting
  import opened Dicts

  /** A child of a properties element, e.g. `<w:sz w:val="32"/>` is `Child("sz", map["val" := "32"])`. */
  datatype Child = Child(tag: string, attrs: map<string, string>)

  /** A run, paragraph or table cell, reduced to its properties child; `None` when it has none. */
  datatype Element = Element(props: Option<seq<Child>>)

  /** A style entry `(name, rendered)`: `rendered` is empty for a bare flag. */
  type StyleEntry = (string, string)

  /** A value of the paragraph dict: a `val` attribute, or a sub-dict of named attributes. */
  datatype PValue = Flat(val: Option<string>) | Sub(fields: Dict<Option<string>>)

  function Children(e: Element): seq<Child> {
    if e.props.Some? then e.props.value else []
  }

  /** `x.attrib.get(name, None)` */
  function Attr(x: Child, name: string): Option<string> {
    if name in x.attrs then Some(x.attrs[name]) else None
  }

  /** How an f-string or `str.format` shows a `str | None`. */
  function Show(v: Option<string>): string {
    if v.Some? then v.value else "None"
  }

  /** The token `key="value"`. */
  function Token(key: string, v: Option<string>): string {
    key + "=\"" + Show(v) + "\""
  }

  /** `" ".join(words)` */
  function JoinWords(words: seq<string>): string {
    if words == [] then ""
    else if |words| == 1 then words[0]
    else words[0] + " " + JoinWords(words[1..])
  }

  // ---------------------------------------------------------------- gather

  /** The last child whose tag is `k`. */
  function LastTagged(cs: seq<Child>, k: string): (r: Option<Child>)
    ensures r.None? <==> forall i :: 0 <= i < |cs| ==> cs[i].tag != k
    ensures r.Some? ==>
      exists i :: 0 <= i < |cs| && cs[i] == r.value && cs[i].tag == k &&
        forall j :: i < j < |cs| ==> cs[j].tag != k
  {
    if cs == [] then None
    else if cs[|cs| - 1].tag == k then Some(cs[|cs| - 1])
    else
      var r := LastTagged(cs[..|cs| - 1], k);
      assert r.Some? ==> r.value in cs[..|cs| - 1];
      r
  }

  /** `d` maps every tag of `cs` to `val` of the last child carrying it, and nothing else. */
  ghost predicate ReadsLast<V>(d: Dict<V>, cs: seq<Child>, val: Child -> V) {
    forall k :: Get(d, k) == if LastTagged(cs, k).Some? then Some(val(LastTagged(cs, k).value)) else None
  }

  /** `{tag(x): val(x) for x in cs}` */
  function Comprehend<V>(cs: seq<Child>, val: Child -> V): (d: Dict<V>)
    ensures UniqueKeys(d)
    ensures ReadsLast(d, cs, val)
  {
    if cs == [] then []
    else Put(Comprehend(cs[..|cs| - 1], val), cs[|cs| - 1].tag, val(cs[|cs| - 1]))
  }

  function ValAttr(x: Child): Option<string> {
    Attr(x, "val")
  }

  /** `gather_rPr`: each `w:rPr` child's tag mapped to its `w:val`; no `w:rPr` gives `{}`. */
  function GatherRPr(run: Element): (d: Dict<Option<string>>)
    ensures UniqueKeys(d)
    ensures ReadsLast(d, Children(run), ValAttr)
    ensures run.props.None? ==> d == []
  {
    match run.props
    case None => []
    case Some(rPr) => Comprehend(rPr, ValAttr)
  }

  /** `gather_tcPr`: each `w:tcPr` child's tag mapped to its `w:val`; no `w:tcPr` gives `{}`. */
  function GatherTcPr(cell: Element): (d: Dict<Option<string>>)
    ensures UniqueKeys(d)
    ensures ReadsLast(d, Children(cell), ValAttr)
    ensures cell.props.None? ==> d == []
  {
    match cell.props
    case None => []
    case Some(tcPr) => Comprehend(tcPr, ValAttr)
  }

  predicate IsParagraphTag(tag: string) {
    tag == "spacing" || tag == "jc" || tag == "ind"
  }

  /** The six attributes read off `w:spacing`, in the order they are stored, `None` when absent. */
  function SpacingFields(x: Child): (f: Dict<Option<string>>)
    ensures UniqueKeys(f)
    ensures forall key :: (Get(f, key) ==
      if key in {"before", "after", "line", "lineRule", "beforeAutospacing", "afterAutospacing"}
      then Some(Attr(x, key)) else None)
  {
    var f := [("before", Attr(x, "before")), ("after", Attr(x, "after")),
              ("line", Attr(x, "line")), ("lineRule", Attr(x, "lineRule")),
              ("beforeAutospacing", Attr(x, "beforeAutospacing")),
              ("afterAutospacing", Attr(x, "afterAutospacing"))];
    assert f[0].0 == "before" && f[1].0 == "after" && f[2].0 == "line" && f[3].0 == "lineRule" &&
      f[4].0 == "beforeAutospacing" && f[5].0 == "afterAutospacing";
    GetEvery(f);
    f
  }

  /** The four attributes read off `w:ind`, in the order they are stored, `None` when absent. */
  function IndFields(x: Child): (f: Dict<Option<string>>)
    ensures UniqueKeys(f)
    ensures forall key :: (Get(f, key) ==
      if key in {"left", "right", "hanging", "firstLine"} then Some(Attr(x, key)) else None)
  {
    var f := [("left", Attr(x, "left")), ("right", Attr(x, "right")),
              ("hanging", Attr(x, "hanging")), ("firstLine", Attr(x, "firstLine"))];
    assert f[0].0 == "left" && f[1].0 == "right" && f[2].0 == "hanging" && f[3].0 == "firstLine";
    GetEvery(f);
    f
  }

  /** What `gather_pPr` stores for a kept child. */
  function ParagraphValue(x: Child): PValue {
    if x.tag == "spacing" then Sub(SpacingFields(x))
    else if x.tag == "jc" then Flat(Attr(x, "val"))
    else Sub(IndFields(x))
  }

  /** The children of `w:pPr` that `gather_pPr` keeps, in order. */
  function ParagraphChildren(cs: seq<Child>): (r: seq<Child>)
    ensures forall k :: LastTagged(r, k) == if IsParagraphTag(k) then LastTagged(cs, k) else None
  {
    if cs == [] then []
    else if IsParagraphTag(cs[|cs| - 1].tag) then
      var r := ParagraphChildren(cs[..|cs| - 1]) + [cs[|cs| - 1]];
      assert r[..|r| - 1] == ParagraphChildren(cs[..|cs| - 1]);
      r
    else ParagraphChildren(cs[..|cs| - 1])
  }

  /**
   * The dict `gather_pPr` returns: `spacing`, `jc` and `ind` only, each from
   * the last child with that tag; no `w:pPr` gives `{}`.
   */
  function ParagraphProperties(p: Element): (d: Dict<PValue>)
    ensures UniqueKeys(d)
    ensures forall k :: (Get(d, k) ==
      if IsParagraphTag(k) && LastTagged(Children(p), k).Some?
      then Some(ParagraphValue(LastTagged(Children(p), k).value)) else None)
  {
    Comprehend(ParagraphChildren(Children(p)), ParagraphValue)
  }

  /** `gather_pPr`: fills the dict child by child. */
  method GatherPPr(p: Element) returns (elements: Dict<PValue>)
    ensures elements == ParagraphProperties(p)
  {
    elements := [];
    if p.props.None? {
      return;  // no `w:pPr`: the `TypeError` branch
    }
    var pPr := p.props.value;
    for n := 0 to |pPr|
      invariant elements == Comprehend(ParagraphChildren(pPr[..n]), ParagraphValue)
    {
      var x := pPr[n];
      var tag := x.tag;
      assert pPr[..n + 1][..n] == pPr[..n];
      if tag == "spacing" {
        elements := Put(elements, tag, Sub(SpacingFields(x)));
      } else if tag == "jc" {
        elements := Put(elements, tag, Flat(Attr(x, "val")));
      } else if tag == "ind" {
        elements := Put(elements, tag, Sub(IndFields(x)));
      }
      var kept := ParagraphChildren(pPr[..n + 1]);
      assert IsParagraphTag(tag) ==> kept[..|kept| - 1] == ParagraphChildren(pPr[..n]);
    }
    assert pPr[..|pPr|] == pPr;
  }

  // ---------------------------------------------------------------- select

  /** The flag one `w:rPr` item contributes to the run style. */
  function RunFlag(item: (string, Option<string>)): seq<StyleEntry> {
    if item.0 == "strike" || item.0 == "s" then [("s", "")]
    else if item.0 == "b" || item.0 == "i" || item.0 == "u" then [(item.0, "")]
    else []
  }

  /** The token one `w:rPr` item contributes to the pending font entry. */
  function FontToken(item: (string, Option<string>)): seq<string> {
    if item.0 == "sz" then [Token("size", item.1)]
    else if item.0 == "color" then [Token("color", item.1)]
    else []
  }

  /** What `get_run_style` returns for the dict `rPr`. */
  function RunStyle(rPr: Dict<Option<string>>): seq<StyleEntry> {
    var items := SortedItems(rPr);
    var fontStyles := Collect(items, FontToken);
    var style := Collect(items, RunFlag);
    if fontStyles != [] then [("font", JoinWords(SortBy(fontStyles, Id)))] + style else style
  }

  /** `get_run_style` */
  method GetRunStyle(run: Element) returns (style: seq<StyleEntry>)
    ensures style == RunStyle(GatherRPr(run))
  {
    var rPr2val := GatherRPr(run);
    var items := SortedItems(rPr2val);
    style := [];
    var fontStyles: seq<string> := [];
    for n := 0 to |items|
      invariant style == Collect(items[..n], RunFlag)
      invariant fontStyles == Collect(items[..n], FontToken)
    {
      CollectNext(items, n, RunFlag);
      CollectNext(items, n, FontToken);
      var tag, val := items[n].0, items[n].1;
      if tag == "strike" || tag == "s" {
        style := style + [("s", "")];
      } else if tag == "b" || tag == "i" || tag == "u" {
        style := style + [(tag, "")];
      } else if tag == "sz" {
        fontStyles := fontStyles + [Token("size", val)];
      } else if tag == "color" {
        fontStyles := fontStyles + [Token("color", val)];
      }
    }
    assert items[..|items|] == items;
    if fontStyles != [] {
      style := [("font", JoinWords(SortBy(fontStyles, Id)))] + style;
    }
  }

  /** `[f'{key}="{value}"' for key, value in fields.items()]` */
  function FieldTokens(fields: Dict<Option<string>>): (r: seq<string>)
    ensures |r| == |fields|
  {
    seq(|fields|, i requires 0 <= i < |fields| => Token(fields[i].0, fields[i].1))
  }

  function SpacingTokens(item: (string, PValue)): seq<string> {
    if item.0 == "spacing" && item.1.Sub? then FieldTokens(item.1.fields) else []
  }

  function IndentationTokens(item: (string, PValue)): seq<string> {
    if item.0 == "ind" && item.1.Sub? then FieldTokens(item.1.fields) else []
  }

  function Justification(item: (string, PValue)): seq<StyleEntry> {
    if item.0 == "jc" && item.1.Flat? then [("justification", Token("val", item.1.val))] else []
  }

  /** What `get_paragraph_style` returns for the dict `pPr`. */
  function ParagraphStyle(pPr: Dict<PValue>): seq<StyleEntry> {
    var items := SortedItems(pPr);
    var spacings := Collect(items, SpacingTokens);
    var indentations := Collect(items, IndentationTokens);
    var style := Collect(items, Justification);
    var style := if indentations != [] then [("indentation", JoinWords(SortBy(indentations, Id)))] + style else style;
    if spacings != [] then [("spacing", JoinWords(SortBy(spacings, Id)))] + style else style
  }

  /** Appends the `key="value"` token of every field, in the sub-dict's order. */
  method AppendFieldTokens(tokens: seq<string>, fields: Dict<Option<string>>) returns (r: seq<string>)
    ensures r == tokens + FieldTokens(fields)
  {
    r := tokens;
    for m := 0 to |fields|
      invariant r == tokens + FieldTokens(fields[..m])
    {
      r := r + [Token(fields[m].0, fields[m].1)];
      assert FieldTokens(fields[..m + 1]) == FieldTokens(fields[..m]) + [Token(fields[m].0, fields[m].1)];
    }
    assert fields[..|fields|] == fields;
  }

  /** `get_paragraph_style` */
  method GetParagraphStyle(p: Element) returns (style: seq<StyleEntry>)
    ensures style == ParagraphStyle(ParagraphProperties(p))
  {
    var pPr2val := GatherPPr(p);
    var items := SortedItems(pPr2val);
    style := [];
    var spacings: seq<string> := [];
    var indentations: seq<string> := [];
    for n := 0 to |items|
      invariant spacings == Collect(items[..n], SpacingTokens)
      invariant indentations == Collect(items[..n], IndentationTokens)
      invariant style == Collect(items[..n], Justification)
    {
      CollectNext(items, n, SpacingTokens);
      CollectNext(items, n, IndentationTokens);
      CollectNext(items, n, Justification);
      var tag, val := items[n].0, items[n].1;
      if tag == "spacing" {
        assert IndentationTokens(items[n]) == [] && Justification(items[n]) == [];
        if val.Sub? {
          spacings := AppendFieldTokens(spacings, val.fields);
        }
      } else if tag == "ind" {
        assert SpacingTokens(items[n]) == [] && Justification(items[n]) == [];
        if val.Sub? {
          indentations := AppendFieldTokens(indentations, val.fields);
        }
      } else if tag == "jc" {
        assert SpacingTokens(items[n]) == [] && IndentationTokens(items[n]) == [];
        if val.Flat? {
          style := style + [("justification", Token("val", val.val))];
        }
      }
    }
    assert items[..|items|] == items;
    if indentations != [] {
      style := [("indentation", JoinWords(SortBy(indentations, Id)))] + style;
    }
    if spacings != [] {
      style := [("spacing", JoinWords(SortBy(spacings, Id)))] + style;
    }
  }

  function GridSpan(item: (string, Option<string>)): seq<StyleEntry> {
    if item.0 == "gridSpan" then [(item.0, Token("val", item.1))] else []
  }

  /** What `get_table_cell_style` returns for the dict `tcPr`. */
  function CellStyle(tcPr: Dict<Option<string>>): seq<StyleEntry> {
    Collect(SortedItems(tcPr), GridSpan)
  }

  /** `get_table_cell_style` */
  method GetTableCellStyle(cell: Element) returns (style: seq<StyleEntry>)
    ensures style == CellStyle(GatherTcPr(cell))
  {
    var tcPr2val := GatherTcPr(cell);
    var items := SortedItems(tcPr2val);
    style := [];
    for n := 0 to |items|
      invariant style == Collect(items[..n], GridSpan)
    {
      CollectNext(items, n, GridSpan);
      var tag, val := items[n].0, items[n].1;
      if tag == "gridSpan" {
        style := style + [(tag, Token("val", val))];
      }
    }
    assert items[..|items|] == items;
  }

  // ------------------------------------------------------------- serialise

  /** The parts of an entry that are not empty: `x for x in entry if x`. */
  function Present(entry: StyleEntry): seq<string> {
    (if entry.0 != "" then [entry.0] else []) + (if entry.1 != "" then [entry.1] else [])
  }

  /** The open tag of one entry: the non-empty parts space-joined, in angle brackets. */
  function OpenTag(entry: StyleEntry): (r: string)
    ensures entry.1 == "" ==> r == "<" + entry.0 + ">"
    ensures entry.0 == "" ==> r == "<" + entry.1 + ">"
    ensures entry.0 != "" && entry.1 != "" ==> r == "<" + entry.0 + " " + entry.1 + ">"
  {
    assert entry.0 != "" && entry.1 != "" ==> JoinWords(Present(entry)) == entry.0 + " " + entry.1 by {
      if entry.0 != "" && entry.1 != "" {
        assert Present(entry) == [entry.0, entry.1] && [entry.0, entry.1][1..] == [entry.1];
      }
    }
    "<" + JoinWords(Present(entry)) + ">"
  }

  function CloseTag(name: string): string {
    "</" + name + ">"
  }

  /** `style_open`: the open tags in sequence order; the first entry is opened first. */
  function StyleOpen(style: seq<StyleEntry>): (r: string)
    ensures r == "" <==> style == []
    ensures style != [] ==> |OpenTag(style[0])| <= |r| && r[..|OpenTag(style[0])|] == OpenTag(style[0])
  {
    if style == [] then "" else OpenTag(style[0]) + StyleOpen(style[1..])
  }

  /** `reversed(s)` */
  function Reversed<T>(s: seq<T>): (r: seq<T>)
    ensures |r| == |s| && forall i :: 0 <= i < |s| ==> r[i] == s[|s| - 1 - i]
  {
    if s == [] then [] else Reversed(s[1..]) + [s[0]]
  }

  /** The close tags of the entries, in the order given. */
  function CloseAll(style: seq<StyleEntry>): (r: string)
    ensures r == "" <==> style == []
    ensures style != [] ==> |CloseTag(style[0].0)| <= |r| && r[..|CloseTag(style[0].0)|] == CloseTag(style[0].0)
  {
    if style == [] then "" else CloseTag(style[0].0) + CloseAll(style[1..])
  }

  /** `style_close`: the close tags of the reversed sequence; the last entry is closed first. */
  function StyleClose(style: seq<StyleEntry>): (r: string)
    ensures r == "" <==> style == []
    ensures style != [] ==> var last := CloseTag(style[|style| - 1].0);
      |last| <= |r| && r[..|last|] == last
  {
    CloseAll(Reversed(style))
  }
}
