/**
 * What the three stages of `TextRuns` promise: balanced, reversed close
 * tags; the run, paragraph and cell allow-lists with their fixed orders;
 * the empty cases; and independence from the order of the children.
 */
module TextRunsProperties {
  import opened Wrappers
  import opened Lex
  import opened Sorting
  import opened Dicts
  import opened TextRuns

  // ------------------------------------------------------------- serialise

  /** A proof step only: concatenation is associative (Dafny does not always find this unaided). */
  lemma ConcatAssoc<T>(a: seq<T>, b: seq<T>, c: seq<T>)
    ensures a + (b + c) == (a + b) + c
  {
  }

  lemma {:induction false} StyleOpenConcat(a: seq<StyleEntry>, b: seq<StyleEntry>)
    ensures StyleOpen(a + b) == StyleOpen(a) + StyleOpen(b)
    decreases |a|
  {
    if a != [] {
      assert (a + b)[0] == a[0] && (a + b)[1..] == a[1..] + b;
      StyleOpenConcat(a[1..], b);
      calc {
        StyleOpen(a + b);
        OpenTag(a[0]) + StyleOpen(a[1..] + b);
        OpenTag(a[0]) + (StyleOpen(a[1..]) + StyleOpen(b));
        { ConcatAssoc(OpenTag(a[0]), StyleOpen(a[1..]), StyleOpen(b)); }
        StyleOpen(a) + StyleOpen(b);
      }
    } else {
      assert a + b == b;
    }
  }

  lemma {:induction false} CloseAllConcat(a: seq<StyleEntry>, b: seq<StyleEntry>)
    ensures CloseAll(a + b) == CloseAll(a) + CloseAll(b)
    decreases |a|
  {
    if a != [] {
      assert (a + b)[0] == a[0] && (a + b)[1..] == a[1..] + b;
      CloseAllConcat(a[1..], b);
      calc {
        CloseAll(a + b);
        CloseTag(a[0].0) + CloseAll(a[1..] + b);
        CloseTag(a[0].0) + (CloseAll(a[1..]) + CloseAll(b));
        { ConcatAssoc(CloseTag(a[0].0), CloseAll(a[1..]), CloseAll(b)); }
        CloseAll(a) + CloseAll(b);
      }
    } else {
      assert a + b == b;
    }
  }

  /** `style_close` reverses: the close tags of `a + b` are those of `b` followed by those of `a`. */
  lemma StyleCloseConcat(a: seq<StyleEntry>, b: seq<StyleEntry>)
    ensures StyleClose(a + b) == StyleClose(b) + StyleClose(a)
  {
    assert Reversed(a + b) == Reversed(b) + Reversed(a);
    CloseAllConcat(Reversed(b), Reversed(a));
  }

  /** One entry closes with `</name>` alone. */
  lemma StyleCloseOne(entry: StyleEntry)
    ensures StyleClose([entry]) == "</" + entry.0 + ">"
  {
    assert Reversed([entry]) == [entry] && [entry][1..] == [];
    assert CloseAll([entry]) == CloseTag(entry.0) + "";
  }

  /**
   * Open tags, then any text, then close tags nest properly: the first entry
   * opens first and closes last, around the same construction on the rest.
   */
  lemma StylesNest(style: seq<StyleEntry>, text: string)
    requires style != []
    ensures StyleOpen(style) + text + StyleClose(style) ==
      OpenTag(style[0]) + (StyleOpen(style[1..]) + text + StyleClose(style[1..])) + CloseTag(style[0].0)
  {
    var head, rest := style[0], style[1..];
    var o, c := StyleOpen(rest), StyleClose(rest);
    assert style == [head] + rest;
    StyleCloseConcat([head], rest);
    StyleCloseOne(head);
    assert StyleOpen(style) == OpenTag(head) + o;
    assert StyleClose(style) == c + CloseTag(head.0);
    calc {
      StyleOpen(style) + text + StyleClose(style);
      (OpenTag(head) + o) + text + (c + CloseTag(head.0));
      { ConcatAssoc(OpenTag(head) + o, text, c + CloseTag(head.0));
        ConcatAssoc(OpenTag(head), o, text);
        ConcatAssoc(OpenTag(head), o + text, c + CloseTag(head.0));
        ConcatAssoc(o + text, c, CloseTag(head.0));
        ConcatAssoc(OpenTag(head), (o + text) + c, CloseTag(head.0)); }
      OpenTag(head) + ((o + text) + c) + CloseTag(head.0);
    }
  }

  /** Close tags carry names only: the rendered attributes never reach them. */
  lemma {:induction false} StyleCloseIgnoresRendered(s1: seq<StyleEntry>, s2: seq<StyleEntry>)
    requires |s1| == |s2| && forall i :: 0 <= i < |s1| ==> s1[i].0 == s2[i].0
    ensures StyleClose(s1) == StyleClose(s2)
    decreases |s1|
  {
    if s1 != [] {
      var n := |s1| - 1;
      StyleCloseIgnoresRendered(s1[..n], s2[..n]);
      assert s1 == s1[..n] + [s1[n]] && s2 == s2[..n] + [s2[n]];
      StyleCloseConcat(s1[..n], [s1[n]]);
      StyleCloseConcat(s2[..n], [s2[n]]);
      StyleCloseOne(s1[n]);
      StyleCloseOne(s2[n]);
    }
  }

  /** The example of the `style_open` and `style_close` docstrings. */
  lemma DocstringExample()
    ensures var style := [("font", "color=\"red\" size=\"32\""), ("b", ""), ("i", ""), ("u", "")];
      StyleOpen(style) == "<font color=\"red\" size=\"32\"><b><i><u>" &&
      StyleClose(style) == "</u></i></b></font>"
  {
    var font, b, i, u := ("font", "color=\"red\" size=\"32\""), ("b", ""), ("i", ""), ("u", "");
    DocstringOpen(font, b, i, u);
    DocstringClose(font, b, i, u);
  }

  lemma DocstringOpen(font: StyleEntry, b: StyleEntry, i: StyleEntry, u: StyleEntry)
    requires font == ("font", "color=\"red\" size=\"32\"") && b == ("b", "") && i == ("i", "") && u == ("u", "")
    ensures StyleOpen([font, b, i, u]) == "<font color=\"red\" size=\"32\"><b><i><u>"
  {
    StyleOpenFour(font, b, i, u);
    DocstringOpenTags(OpenTag(font), OpenTag(b), OpenTag(i), OpenTag(u));
  }

  /** A proof step only: the docstring's open tags, joined. */
  lemma DocstringOpenTags(t1: string, t2: string, t3: string, t4: string)
    requires t1 == "<" + "font" + " " + "color=\"red\" size=\"32\"" + ">"
    requires t2 == "<" + "b" + ">" && t3 == "<" + "i" + ">" && t4 == "<" + "u" + ">"
    ensures t1 + (t2 + (t3 + t4)) == "<font color=\"red\" size=\"32\"><b><i><u>"
  {
  }

  lemma StyleOpenFour(e1: StyleEntry, e2: StyleEntry, e3: StyleEntry, e4: StyleEntry)
    ensures StyleOpen([e1, e2, e3, e4]) == OpenTag(e1) + (OpenTag(e2) + (OpenTag(e3) + OpenTag(e4)))
  {
    assert [e4][1..] == [] && [e3, e4][1..] == [e4] && [e2, e3, e4][1..] == [e3, e4];
    assert [e1, e2, e3, e4][1..] == [e2, e3, e4];
    assert StyleOpen([e4]) == OpenTag(e4) + "" == OpenTag(e4);
    assert StyleOpen([e3, e4]) == OpenTag(e3) + StyleOpen([e4]);
    assert StyleOpen([e2, e3, e4]) == OpenTag(e2) + StyleOpen([e3, e4]);
  }

  lemma DocstringClose(font: StyleEntry, b: StyleEntry, i: StyleEntry, u: StyleEntry)
    requires font == ("font", "color=\"red\" size=\"32\"") && b == ("b", "") && i == ("i", "") && u == ("u", "")
    ensures StyleClose([font, b, i, u]) == "</u></i></b></font>"
  {
    assert Reversed([font, b, i, u]) == [u, i, b, font];
    CloseAllFour(u, i, b, font);
  }

  lemma CloseAllFour(e1: StyleEntry, e2: StyleEntry, e3: StyleEntry, e4: StyleEntry)
    ensures CloseAll([e1, e2, e3, e4]) == CloseTag(e1.0) + (CloseTag(e2.0) + (CloseTag(e3.0) + CloseTag(e4.0)))
  {
    assert [e4][1..] == [] && [e3, e4][1..] == [e4] && [e2, e3, e4][1..] == [e3, e4];
    assert [e1, e2, e3, e4][1..] == [e2, e3, e4];
    assert CloseAll([e4]) == CloseTag(e4.0) + "" == CloseTag(e4.0);
    assert CloseAll([e3, e4]) == CloseTag(e3.0) + CloseAll([e4]);
    assert CloseAll([e2, e3, e4]) == CloseTag(e2.0) + CloseAll([e3, e4]);
  }

  /** An element without a properties child has no style and no tags. */
  lemma NoPropertiesNoStyle(e: Element)
    requires e.props.None?
    ensures RunStyle(GatherRPr(e)) == [] && ParagraphStyle(ParagraphProperties(e)) == [] &&
      CellStyle(GatherTcPr(e)) == []
    ensures StyleOpen([]) == "" && StyleClose([]) == ""
  {
    assert ParagraphProperties(e) == [];
  }

  // --------------------------------------------------------------- cells

  /** A cell's style is the one `gridSpan` entry when `w:gridSpan` is there, and nothing else ever. */
  lemma CellStyleShape(tcPr: Dict<Option<string>>)
    requires UniqueKeys(tcPr)
    ensures CellStyle(tcPr) ==
      if Get(tcPr, "gridSpan").Some? then [("gridSpan", Token("val", Get(tcPr, "gridSpan").value))] else []
  {
    SortedItemsFacts(tcPr);
    CollectOneKey(SortedItems(tcPr), GridSpan, "gridSpan");
  }

  // ---------------------------------------------------------------- runs

  predicate IsFlagTag(tag: string) {
    tag == "b" || tag == "i" || tag == "s" || tag == "strike" || tag == "u"
  }

  /** The flag name a tag is emitted under: `strike` becomes `s`. */
  function Canon(tag: string): string {
    if tag == "strike" then "s" else tag
  }

  function FlagTag(item: (string, Option<string>)): seq<string> {
    if IsFlagTag(item.0) then [item.0] else []
  }

  /** `tags` are exactly the flag tags present in `rPr`, strictly ascending. */
  ghost predicate FlagTagsOf(rPr: Dict<Option<string>>, tags: seq<string>) {
    StrictlySorted(tags, Id) && forall k :: k in tags <==> IsFlagTag(k) && Get(rPr, k).Some?
  }

  /** `flags` are bare flags, one per tag, named by the tag's canonical name. */
  ghost predicate FlagEntries(flags: seq<StyleEntry>, tags: seq<string>) {
    |flags| == |tags| && forall i :: 0 <= i < |tags| ==> flags[i] == (Canon(tags[i]), "")
  }

  function ColorPart(v: Option<Option<string>>): seq<string> {
    if v.Some? then [Token("color", v.value)] else []
  }

  function SizePart(v: Option<Option<string>>): seq<string> {
    if v.Some? then [Token("size", v.value)] else []
  }

  /** The font entry: `color="…"` before `size="…"`, absent when both are. */
  function FontPart(color: Option<Option<string>>, size: Option<Option<string>>): (r: seq<StyleEntry>)
    ensures |r| == if color.Some? || size.Some? then 1 else 0
    ensures forall i :: 0 <= i < |r| ==> r[i].0 == "font"
  {
    match (color, size)
    case (None, None) => []
    case (Some(c), None) => [("font", Token("color", c))]
    case (None, Some(z)) => [("font", Token("size", z))]
    case (Some(c), Some(z)) => [("font", Token("color", c) + " " + Token("size", z))]
  }

  lemma {:induction false} RunFlagsAreCanonical(items: Dict<Option<string>>)
    ensures FlagEntries(Collect(items, RunFlag), Collect(items, FlagTag))
    decreases |items|
  {
    if items != [] {
      RunFlagsAreCanonical(items[..|items| - 1]);
    }
  }

  lemma {:induction false} FlagTagsAscend(items: Dict<Option<string>>)
    requires StrictlySorted(items, KeyOf)
    ensures FlagTagsOf(items, Collect(items, FlagTag))
    decreases |items|
  {
    if items != [] {
      var init, last := items[..|items| - 1], items[|items| - 1];
      assert StrictlySorted(init, KeyOf) by {
        forall i, j | 0 <= i < j < |init| ensures Below(KeyOf(init[i]), KeyOf(init[j])) {
          assert init[i] == items[i] && init[j] == items[j];
        }
      }
      FlagTagsAscend(init);
      var before := Collect(init, FlagTag);
      var tags := Collect(items, FlagTag);
      assert tags == before + FlagTag(last);
      forall t | t in before ensures Below(t, last.0) {
        var i :| 0 <= i < |init| && init[i].0 == t;
        assert KeyOf(items[i]) == t && KeyOf(items[|items| - 1]) == last.0;
      }
      forall i, j | 0 <= i < j < |tags| ensures Below(Id(tags[i]), Id(tags[j])) {
        if j == |before| {
          assert tags[i] in before;
        } else {
          assert tags[i] == before[i] && tags[j] == before[j];
        }
      }
    }
  }

  lemma {:induction false} FontTokensFound(items: Dict<Option<string>>)
    requires UniqueKeys(items)
    ensures multiset(Collect(items, FontToken)) ==
      multiset(ColorPart(Get(items, "color")) + SizePart(Get(items, "sz")))
    decreases |items|
  {
    if items != [] {
      var init, last := items[..|items| - 1], items[|items| - 1];
      assert UniqueKeys(init) by {
        forall i, j | 0 <= i < j < |init| ensures init[i].0 != init[j].0 {
          assert init[i] == items[i] && init[j] == items[j];
        }
      }
      FontTokensFound(init);
      assert forall i :: 0 <= i < |init| ==> init[i].0 != last.0 by {
        forall i | 0 <= i < |init| ensures init[i].0 != last.0 {
          assert init[i] == items[i];
        }
      }
      var before := Collect(init, FontToken);
      var color, size := Get(init, "color"), Get(init, "sz");
      assert Collect(items, FontToken) == before + FontToken(last);
      if last.0 == "color" {
        assert color == None && Get(items, "color") == Some(last.1) && Get(items, "sz") == size;
        assert multiset(before) == multiset(SizePart(size));
      } else if last.0 == "sz" {
        assert size == None && Get(items, "sz") == Some(last.1) && Get(items, "color") == color;
        assert multiset(before) == multiset(ColorPart(color));
      } else {
        assert Get(items, "color") == color && Get(items, "sz") == size && FontToken(last) == [];
      }
    }
  }

  /** The font entry `get_run_style` builds is `FontPart` of the `color` and `sz` values. */
  lemma FontEntry(items: Dict<Option<string>>)
    requires UniqueKeys(items)
    ensures var fontStyles := Collect(items, FontToken);
      (if fontStyles != [] then [("font", JoinWords(SortBy(fontStyles, Id)))] else []) ==
      FontPart(Get(items, "color"), Get(items, "sz"))
  {
    var fontStyles := Collect(items, FontToken);
    var expected := ColorPart(Get(items, "color")) + SizePart(Get(items, "sz"));
    FontTokensFound(items);
    assert |fontStyles| == |expected| by {
      assert |multiset(fontStyles)| == |multiset(expected)|;
    }
    if |expected| == 2 {
      var c, z := Get(items, "color").value, Get(items, "sz").value;
      assert expected == [Token("color", c), Token("size", z)];
      BelowAt(Token("color", c), Token("size", z), 0);
      ChainIsStrict(expected, Id);
      assert expected[1..] == [Token("size", z)];
    }
    if expected != [] {
      SortByIs(fontStyles, expected, Id);
    }
  }

  /**
   * `get_run_style`: at most one `font` entry, first, holding `color` before
   * `size`; then one bare flag per `b`, `i`, `s`, `strike`, `u` tag present,
   * named `b`, `i`, `s`, `s`, `u`, in ascending order of the tag.  Every
   * other tag is ignored.
   */
  lemma RunStyleShape(rPr: Dict<Option<string>>)
    requires UniqueKeys(rPr)
    ensures var s, font := RunStyle(rPr), FontPart(Get(rPr, "color"), Get(rPr, "sz"));
      |font| <= |s| && s[..|font|] == font &&
      exists tags :: FlagTagsOf(rPr, tags) && FlagEntries(s[|font|..], tags)
  {
    RunStyleSplit(rPr);
    var items := SortedItems(rPr);
    var s, font, flags := RunStyle(rPr), FontPart(Get(rPr, "color"), Get(rPr, "sz")), Collect(items, RunFlag);
    assert s[..|font|] == font && s[|font|..] == flags;
    var tags := Collect(items, FlagTag);
    assert FlagTagsOf(rPr, tags) && FlagEntries(s[|font|..], tags);
  }

  /** A run style is its font part followed by the flags of the sorted items, whose tags are the flag tags present. */
  lemma RunStyleSplit(rPr: Dict<Option<string>>)
    requires UniqueKeys(rPr)
    ensures RunStyle(rPr) == FontPart(Get(rPr, "color"), Get(rPr, "sz")) + Collect(SortedItems(rPr), RunFlag)
    ensures FlagTagsOf(rPr, Collect(SortedItems(rPr), FlagTag))
    ensures FlagEntries(Collect(SortedItems(rPr), RunFlag), Collect(SortedItems(rPr), FlagTag))
  {
    var items := SortedItems(rPr);
    SortedItemsFacts(rPr);
    FontEntry(items);
    RunFlagsAreCanonical(items);
    FlagTagsAscend(items);
  }

  /** The same facts as they bear on the names: `font` only first, and only when `color` or `sz` is set. */
  lemma RunStyleNames(rPr: Dict<Option<string>>)
    requires UniqueKeys(rPr)
    ensures var s := RunStyle(rPr);
      (|s| > 0 && s[0].0 == "font" <==> Get(rPr, "color").Some? || Get(rPr, "sz").Some?) &&
      (forall i :: 0 < i < |s| ==> s[i].0 != "font") &&
      (forall i :: 0 <= i < |s| && s[i].0 != "font" ==>
        s[i].1 == "" && (s[i].0 == "b" || s[i].0 == "i" || s[i].0 == "s" || s[i].0 == "u"))
  {
    RunStyleSplit(rPr);
    var items := SortedItems(rPr);
    var s, font, flags := RunStyle(rPr), FontPart(Get(rPr, "color"), Get(rPr, "sz")), Collect(items, RunFlag);
    var tags := Collect(items, FlagTag);
    assert s[..|font|] == font && s[|font|..] == flags;
    assert forall t :: t in tags ==> IsFlagTag(t);
    ShapeNames(s, font, tags);
  }

  /** A font part of at most one `font` entry followed by the flags of flag tags has those names. */
  lemma ShapeNames(s: seq<StyleEntry>, font: seq<StyleEntry>, tags: seq<string>)
    requires |font| <= 1 && |font| <= |s| && s[..|font|] == font && forall i :: 0 <= i < |font| ==> font[i].0 == "font"
    requires FlagEntries(s[|font|..], tags) && forall t :: t in tags ==> IsFlagTag(t)
    ensures |s| > 0 && s[0].0 == "font" <==> |font| == 1
    ensures forall i :: 0 < i < |s| ==> s[i].0 != "font"
    ensures forall i :: 0 <= i < |s| && s[i].0 != "font" ==>
      s[i].1 == "" && (s[i].0 == "b" || s[i].0 == "i" || s[i].0 == "s" || s[i].0 == "u")
  {
    forall i | |font| <= i < |s|
      ensures s[i].0 != "font" && s[i].1 == "" && (s[i].0 == "b" || s[i].0 == "i" || s[i].0 == "s" || s[i].0 == "u")
    {
      assert s[i] == s[|font|..][i - |font|];
      assert tags[i - |font|] in tags;
    }
    if |font| == 1 {
      assert s[0] == s[..|font|][0];
    }
  }

  // ----------------------------------------------------------- paragraphs

  /** The `spacing` value: its six tokens in ascending order of attribute name, space-joined. */
  function SpacingRendered(x: Child): string {
    JoinWords([Token("after", Attr(x, "after")), Token("afterAutospacing", Attr(x, "afterAutospacing")),
               Token("before", Attr(x, "before")), Token("beforeAutospacing", Attr(x, "beforeAutospacing")),
               Token("line", Attr(x, "line")), Token("lineRule", Attr(x, "lineRule"))])
  }

  /** The `indentation` value: its four tokens in ascending order of attribute name, space-joined. */
  function IndentationRendered(x: Child): string {
    JoinWords([Token("firstLine", Attr(x, "firstLine")), Token("hanging", Attr(x, "hanging")),
               Token("left", Attr(x, "left")), Token("right", Attr(x, "right"))])
  }

  function SpacingPart(x: Option<Child>): seq<StyleEntry> {
    if x.Some? then [("spacing", SpacingRendered(x.value))] else []
  }

  function IndentationPart(x: Option<Child>): seq<StyleEntry> {
    if x.Some? then [("indentation", IndentationRendered(x.value))] else []
  }

  function JustificationPart(x: Option<Child>): seq<StyleEntry> {
    if x.Some? then [("justification", Token("val", Attr(x.value, "val")))] else []
  }

  /** Tokens whose keys start with different letters compare as those letters do. */
  lemma TokenBelowFirst(k1: string, v1: Option<string>, k2: string, v2: Option<string>)
    requires |k1| > 0 && |k2| > 0 && k1[0] < k2[0]
    ensures Below(Token(k1, v1), Token(k2, v2))
  {
    var a, b := Token(k1, v1), Token(k2, v2);
    assert a[0] == k1[0] && b[0] == k2[0];
    BelowAt(a, b, 0);
  }

  /** A token comes before that of a longer key it is a prefix of, when what follows the prefix is above `=`. */
  lemma TokenBelowExtension(k1: string, v1: Option<string>, k2: string, v2: Option<string>)
    requires |k1| < |k2| && k2[..|k1|] == k1 && '=' < k2[|k1|]
    ensures Below(Token(k1, v1), Token(k2, v2))
  {
    var a, b := Token(k1, v1), Token(k2, v2);
    assert a == k1 + ("=\"" + Show(v1) + "\"");
    assert b == k2 + ("=\"" + Show(v2) + "\"");
    assert a[..|k1|] == k1 == b[..|k1|];
    assert a[|k1|] == '=' && b[|k1|] == k2[|k1|];
    BelowAt(a, b, |k1|);
  }

  /** The tokens of `w:spacing`, in the order the sub-dict stores them. */
  lemma SpacingFieldTokens(x: Child)
    ensures FieldTokens(SpacingFields(x)) ==
      [Token("before", Attr(x, "before")), Token("after", Attr(x, "after")),
       Token("line", Attr(x, "line")), Token("lineRule", Attr(x, "lineRule")),
       Token("beforeAutospacing", Attr(x, "beforeAutospacing")),
       Token("afterAutospacing", Attr(x, "afterAutospacing"))]
  {
  }

  lemma SpacingSorted(x: Child)
    ensures JoinWords(SortBy(FieldTokens(SpacingFields(x)), Id)) == SpacingRendered(x)
  {
    var af, aa := Token("after", Attr(x, "after")), Token("afterAutospacing", Attr(x, "afterAutospacing"));
    var bf, ba := Token("before", Attr(x, "before")), Token("beforeAutospacing", Attr(x, "beforeAutospacing"));
    var ln, lr := Token("line", Attr(x, "line")), Token("lineRule", Attr(x, "lineRule"));
    SpacingFieldTokens(x);
    SpacingKeysAscend(Attr(x, "after"), Attr(x, "afterAutospacing"), Attr(x, "before"),
      Attr(x, "beforeAutospacing"), Attr(x, "line"), Attr(x, "lineRule"));
    SpacingOrderSorts(af, aa, bf, ba, ln, lr);
  }

  /** The `w:spacing` tokens ascend in the order after, afterAutospacing, before, beforeAutospacing, line, lineRule. */
  lemma SpacingKeysAscend(af: Option<string>, aa: Option<string>, bf: Option<string>, ba: Option<string>,
                          ln: Option<string>, lr: Option<string>)
    ensures Below(Token("after", af), Token("afterAutospacing", aa))
    ensures Below(Token("afterAutospacing", aa), Token("before", bf))
    ensures Below(Token("before", bf), Token("beforeAutospacing", ba))
    ensures Below(Token("beforeAutospacing", ba), Token("line", ln))
    ensures Below(Token("line", ln), Token("lineRule", lr))
  {
    TokenBelowExtension("after", af, "afterAutospacing", aa);
    TokenBelowFirst("afterAutospacing", aa, "before", bf);
    TokenBelowExtension("before", bf, "beforeAutospacing", ba);
    TokenBelowFirst("beforeAutospacing", ba, "line", ln);
    TokenBelowExtension("line", ln, "lineRule", lr);
  }

  /** Sorting the six `w:spacing` tokens from their stored order, whatever they are, given how they compare. */
  lemma SpacingOrderSorts(af: string, aa: string, bf: string, ba: string, ln: string, lr: string)
    requires Below(af, aa) && Below(aa, bf) && Below(bf, ba) && Below(ba, ln) && Below(ln, lr)
    ensures SortBy([bf, af, ln, lr, ba, aa], Id) == [af, aa, bf, ba, ln, lr]
  {
    SpacingOrderPermutes(af, aa, bf, ba, ln, lr);
    SixAscend(af, aa, bf, ba, ln, lr);
    SortStringsIs([bf, af, ln, lr, ba, aa], [af, aa, bf, ba, ln, lr]);
  }

  lemma SixAscend(a: string, b: string, c: string, d: string, e: string, f: string)
    requires Below(a, b) && Below(b, c) && Below(c, d) && Below(d, e) && Below(e, f)
    ensures var t := [a, b, c, d, e, f]; forall i :: 0 <= i < |t| - 1 ==> Below(t[i], t[i + 1])
  {
  }

  lemma SpacingOrderPermutes(af: string, aa: string, bf: string, ba: string, ln: string, lr: string)
    ensures multiset([bf, af, ln, lr, ba, aa]) == multiset([af, aa, bf, ba, ln, lr])
  {
    SixSingletons(bf, af, ln, lr, ba, aa);
    SixSingletons(af, aa, bf, ba, ln, lr);
    SpacingRearranged([bf], [af], [ln], [lr], [ba], [aa]);
  }

  /** A proof step only: singletons concatenate to a display (keeps the permutation proof cheap). */
  lemma SixSingletons<T>(a: T, b: T, c: T, d: T, e: T, f: T)
    ensures [a] + [b] + [c] + [d] + [e] + [f] == [a, b, c, d, e, f]
  {
  }

  /** A proof step only: the same pieces in another order form the same multiset (stated over abstract pieces, which is far cheaper than over the displays). */
  lemma SpacingRearranged<T>(b: seq<T>, a: seq<T>, l: seq<T>, r: seq<T>, c: seq<T>, d: seq<T>)
    ensures multiset(b + a + l + r + c + d) == multiset(a + d + b + c + l + r)
  {
  }

  /** The tokens of `w:ind`, in the order the sub-dict stores them. */
  lemma IndFieldTokens(x: Child)
    ensures FieldTokens(IndFields(x)) ==
      [Token("left", Attr(x, "left")), Token("right", Attr(x, "right")),
       Token("hanging", Attr(x, "hanging")), Token("firstLine", Attr(x, "firstLine"))]
  {
  }

  lemma IndentationSorted(x: Child)
    ensures JoinWords(SortBy(FieldTokens(IndFields(x)), Id)) == IndentationRendered(x)
  {
    var fl, hg := Token("firstLine", Attr(x, "firstLine")), Token("hanging", Attr(x, "hanging"));
    var lf, rt := Token("left", Attr(x, "left")), Token("right", Attr(x, "right"));
    IndFieldTokens(x);
    IndentationKeysAscend(Attr(x, "firstLine"), Attr(x, "hanging"), Attr(x, "left"), Attr(x, "right"));
    IndentationOrderSorts(fl, hg, lf, rt);
  }

  /** The `w:ind` tokens ascend in the order firstLine, hanging, left, right. */
  lemma IndentationKeysAscend(fl: Option<string>, hg: Option<string>, lf: Option<string>, rt: Option<string>)
    ensures Below(Token("firstLine", fl), Token("hanging", hg))
    ensures Below(Token("hanging", hg), Token("left", lf))
    ensures Below(Token("left", lf), Token("right", rt))
  {
    TokenBelowFirst("firstLine", fl, "hanging", hg);
    TokenBelowFirst("hanging", hg, "left", lf);
    TokenBelowFirst("left", lf, "right", rt);
  }

  /** Sorting the four `w:ind` tokens from their stored order, whatever they are, given how they compare. */
  lemma IndentationOrderSorts(fl: string, hg: string, lf: string, rt: string)
    requires Below(fl, hg) && Below(hg, lf) && Below(lf, rt)
    ensures SortBy([lf, rt, hg, fl], Id) == [fl, hg, lf, rt]
  {
    IndentationOrderPermutes(fl, hg, lf, rt);
    FourAscend(fl, hg, lf, rt);
    SortStringsIs([lf, rt, hg, fl], [fl, hg, lf, rt]);
  }

  lemma FourAscend(a: string, b: string, c: string, d: string)
    requires Below(a, b) && Below(b, c) && Below(c, d)
    ensures var t := [a, b, c, d]; forall i :: 0 <= i < |t| - 1 ==> Below(t[i], t[i + 1])
  {
  }

  lemma IndentationOrderPermutes(fl: string, hg: string, lf: string, rt: string)
    ensures multiset([lf, rt, hg, fl]) == multiset([fl, hg, lf, rt])
  {
    FourSingletons(lf, rt, hg, fl);
    FourSingletons(fl, hg, lf, rt);
    IndentationRearranged([lf], [rt], [hg], [fl]);
  }

  /** A proof step only: singletons concatenate to a display (keeps the permutation proof cheap). */
  lemma FourSingletons<T>(a: T, b: T, c: T, d: T)
    ensures [a] + [b] + [c] + [d] == [a, b, c, d]
  {
  }

  /** A proof step only: the same pieces in another order form the same multiset (stated over abstract pieces, which is far cheaper than over the displays). */
  lemma IndentationRearranged<T>(l: seq<T>, r: seq<T>, h: seq<T>, f: seq<T>)
    ensures multiset(l + r + h + f) == multiset(f + h + l + r)
  {
  }

  /**
   * `get_paragraph_style` over `gather_pPr`: `spacing`, then `indentation`,
   * then `justification`, each present exactly when its child is, each
   * from the last such child, with the sub-attribute tokens sorted.
   */
  lemma ParagraphStyleShape(p: Element)
    ensures var cs := Children(p);
      ParagraphStyle(ParagraphProperties(p)) ==
        SpacingPart(LastTagged(cs, "spacing")) + IndentationPart(LastTagged(cs, "ind")) +
        JustificationPart(LastTagged(cs, "jc"))
  {
    var items := SortedItems(ParagraphProperties(p));
    var spacings, indentations := Collect(items, SpacingTokens), Collect(items, IndentationTokens);
    var justified := Collect(items, Justification);
    SpacingEntry(p);
    IndentationEntry(p);
    JustificationEntry(p);
    OptionalFront(indentations != [], ("indentation", JoinWords(SortBy(indentations, Id))), justified);
    var style := if indentations != [] then [("indentation", JoinWords(SortBy(indentations, Id)))] + justified else justified;
    OptionalFront(spacings != [], ("spacing", JoinWords(SortBy(spacings, Id))), style);
    var cs := Children(p);
    assert ParagraphStyle(ParagraphProperties(p)) ==
      SpacingPart(LastTagged(cs, "spacing")) + (IndentationPart(LastTagged(cs, "ind")) + JustificationPart(LastTagged(cs, "jc")));
    ConcatAssoc(SpacingPart(LastTagged(cs, "spacing")), IndentationPart(LastTagged(cs, "ind")), JustificationPart(LastTagged(cs, "jc")));
  }

  /** Putting `x` in front when `c` holds is concatenating `[x]` or nothing. */
  lemma OptionalFront<T>(c: bool, x: T, rest: seq<T>)
    ensures (if c then [x] + rest else rest) == (if c then [x] else []) + rest
  {
    if !c {
      assert [] + rest == rest;
    }
  }

  lemma SpacingEntry(p: Element)
    ensures var spacings := Collect(SortedItems(ParagraphProperties(p)), SpacingTokens);
      (if spacings != [] then [("spacing", JoinWords(SortBy(spacings, Id)))] else []) ==
      SpacingPart(LastTagged(Children(p), "spacing"))
  {
    var pPr := ParagraphProperties(p);
    var found := LastTagged(Children(p), "spacing");
    SortedItemsFacts(pPr);
    CollectOneKey(SortedItems(pPr), SpacingTokens, "spacing");
    if found.Some? {
      assert Get(pPr, "spacing") == Some(Sub(SpacingFields(found.value)));
      SpacingSorted(found.value);
    } else {
      assert Get(pPr, "spacing") == None;
    }
  }

  lemma IndentationEntry(p: Element)
    ensures var indentations := Collect(SortedItems(ParagraphProperties(p)), IndentationTokens);
      (if indentations != [] then [("indentation", JoinWords(SortBy(indentations, Id)))] else []) ==
      IndentationPart(LastTagged(Children(p), "ind"))
  {
    var pPr := ParagraphProperties(p);
    var found := LastTagged(Children(p), "ind");
    SortedItemsFacts(pPr);
    CollectOneKey(SortedItems(pPr), IndentationTokens, "ind");
    if found.Some? {
      assert Get(pPr, "ind") == Some(Sub(IndFields(found.value)));
      IndentationSorted(found.value);
    } else {
      assert Get(pPr, "ind") == None;
    }
  }

  lemma JustificationEntry(p: Element)
    ensures Collect(SortedItems(ParagraphProperties(p)), Justification) == JustificationPart(LastTagged(Children(p), "jc"))
  {
    var pPr := ParagraphProperties(p);
    var found := LastTagged(Children(p), "jc");
    SortedItemsFacts(pPr);
    CollectOneKey(SortedItems(pPr), Justification, "jc");
    if found.Some? {
      assert Get(pPr, "jc") == Some(Flat(Attr(found.value, "val")));
    } else {
      assert Get(pPr, "jc") == None;
    }
  }

  // ------------------------------------------------------ child order

  /** No two children share a tag. */
  ghost predicate DistinctTags(cs: seq<Child>) {
    forall i, j :: 0 <= i < j < |cs| ==> cs[i].tag != cs[j].tag
  }

  lemma LastTaggedIgnoresOrder(cs1: seq<Child>, cs2: seq<Child>, k: string)
    requires DistinctTags(cs1) && DistinctTags(cs2)
    requires forall x :: x in cs1 <==> x in cs2
    ensures LastTagged(cs1, k) == LastTagged(cs2, k)
  {
    TaggedInBoth(cs1, cs2, k);
    TaggedInBoth(cs2, cs1, k);
    if LastTagged(cs1, k).Some? {
      var x, y := LastTagged(cs1, k).value, LastTagged(cs2, k).value;
      var i1 :| 0 <= i1 < |cs1| && cs1[i1] == x && x.tag == k;
      assert x in cs1;
      var i :| 0 <= i < |cs2| && cs2[i] == x;
      var j :| 0 <= j < |cs2| && cs2[j] == y && y.tag == k;
      assert i == j;
    }
  }

  /** A tag one list of children carries, a list with the same members carries too. */
  lemma TaggedInBoth(cs1: seq<Child>, cs2: seq<Child>, k: string)
    requires forall x :: x in cs1 <==> x in cs2
    ensures LastTagged(cs1, k).Some? ==> LastTagged(cs2, k).Some?
  {
    if LastTagged(cs1, k).Some? {
      var x := LastTagged(cs1, k).value;
      var i1 :| 0 <= i1 < |cs1| && cs1[i1] == x && x.tag == k;
      assert x in cs1;
      var i :| 0 <= i < |cs2| && cs2[i] == x;
    }
  }

  /**
   * The styles do not depend on the order of the properties children, as
   * long as no tag occurs twice (otherwise the last one wins).
   */
  lemma StylesIgnoreChildOrder(e1: Element, e2: Element)
    requires DistinctTags(Children(e1)) && DistinctTags(Children(e2))
    requires forall x :: x in Children(e1) <==> x in Children(e2)
    ensures RunStyle(GatherRPr(e1)) == RunStyle(GatherRPr(e2))
    ensures ParagraphStyle(ParagraphProperties(e1)) == ParagraphStyle(ParagraphProperties(e2))
    ensures CellStyle(GatherTcPr(e1)) == CellStyle(GatherTcPr(e2))
  {
    forall k ensures LastTagged(Children(e1), k) == LastTagged(Children(e2), k) {
      LastTaggedIgnoresOrder(Children(e1), Children(e2), k);
    }
    RunStyleFromLastTagged(e1, e2);
    ParagraphStyleFromLastTagged(e1, e2);
    CellStyleFromLastTagged(e1, e2);
  }

  /** Two runs whose last child per tag agree have the same style. */
  lemma RunStyleFromLastTagged(e1: Element, e2: Element)
    requires forall k :: LastTagged(Children(e1), k) == LastTagged(Children(e2), k)
    ensures RunStyle(GatherRPr(e1)) == RunStyle(GatherRPr(e2))
  {
    SortedItemsDeterministic(GatherRPr(e1), GatherRPr(e2));
  }

  /** Two paragraphs whose last child per tag agree have the same style. */
  lemma ParagraphStyleFromLastTagged(e1: Element, e2: Element)
    requires forall k :: LastTagged(Children(e1), k) == LastTagged(Children(e2), k)
    ensures ParagraphStyle(ParagraphProperties(e1)) == ParagraphStyle(ParagraphProperties(e2))
  {
    var d1, d2 := ParagraphProperties(e1), ParagraphProperties(e2);
    forall k ensures Get(d1, k) == Get(d2, k) {
      assert LastTagged(Children(e1), k) == LastTagged(Children(e2), k);
    }
    SortedItemsDeterministic(d1, d2);
  }

  /** Two cells whose last child per tag agree have the same style. */
  lemma CellStyleFromLastTagged(e1: Element, e2: Element)
    requires forall k :: LastTagged(Children(e1), k) == LastTagged(Children(e2), k)
    ensures CellStyle(GatherTcPr(e1)) == CellStyle(GatherTcPr(e2))
  {
    SortedItemsDeterministic(GatherTcPr(e1), GatherTcPr(e2));
  }
}
