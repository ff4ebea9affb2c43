/**
 * What `ModulePackager.__parse_font_xml` builds, stated as functions on
 * element values: the fixed fallback family, the nine faces of the custom
 * font, the demotion of `sans-serif` families and the closed form of the
 * whole output. The method that builds it step by step is in ModulePackager.
 */
module FontConfig {
  import opened Wrappers
  import opened Xml
  import Decimal

  /** A `<font weight=.. style=..>file</font>` face. */
  function Face(weight: string, style: string, file: string): Element
  {
    Element("font", [Attr("weight", weight), Attr("style", style)], Some(file), [])
  }

  /** The hard-coded `sans-serif` family of twelve placeholder faces that opens every output:
      for each weight of the literal, a normal and an italic face, in the literal's order. */
  function FallbackFamily(): Element
  {
    Element("family", [Attr("name", "sans-serif")], None, FallbackFaces())
  }

  /** The literal's faces as (weight, normal-style file, italic-style file). */
  const FallbackPairs: seq<(string, string, string)> := [
    ("100", "EmptyFont-Thin.ttf", "EmptyFont-ThinItalic.ttf"),
    ("300", "EmptyFont-Light.ttf", "EmptyFont-LightItalic.ttf"),
    ("400", "EmptyFont-Regular.ttf", "EmptyFont-Italic.ttf"),
    ("500", "EmptyFont-Medium.ttf", "EmptyFont-MediumItalic.ttf"),
    ("900", "EmptyFont-Black.ttf", "EmptyFont-BlackItalic.ttf"),
    ("700", "EmptyFont-Bold.ttf", "EmptyFont-BoldItalic.ttf")
  ]

  /** Face 2i is the normal and face 2i+1 the italic face of pair i of the table. */
  function FallbackFaces(): seq<Element>
  {
    seq(12, n requires 0 <= n < 12 =>
      var p := FallbackPairs[n / 2];
      if n % 2 == 0 then Face(p.0, "normal", p.1)
      else Face(p.0, "italic", p.2))
  }

  /** A face answers `weight` and `style` with the values it was built with. */
  lemma {:induction false} FaceAttributes(w: string, s: string, file: string)
    ensures Get(Face(w, s, file).attrib, "weight") == Some(w)
    ensures Get(Face(w, s, file).attrib, "style") == Some(s)
  {
  }

  /** The fallback family is a `sans-serif` family (with no `lang`) of 12 fonts. */
  lemma {:induction false} FallbackFamilyShape()
    ensures FallbackFamily().tag == "family"
    ensures Get(FallbackFamily().attrib, "name") == Some("sans-serif")
    ensures !HasKey(FallbackFamily().attrib, "lang")
    ensures |FallbackFamily().children| == 12
  {
  }

  /** Pair i of the fallback family: a normal and an italic font of the same weight. */
  lemma {:induction false} FallbackPair(i: nat)
    requires i < 6
    ensures var fs := FallbackFamily().children; var w := FallbackPairs[i].0;
      |fs| == 12 &&
      fs[2 * i].tag == fs[2 * i + 1].tag == "font" &&
      fs[2 * i].children == fs[2 * i + 1].children == [] &&
      Get(fs[2 * i].attrib, "style") == Some("normal") &&
      Get(fs[2 * i + 1].attrib, "style") == Some("italic") &&
      Get(fs[2 * i].attrib, "weight") == Get(fs[2 * i + 1].attrib, "weight") == Some(w)
  {
    var p := FallbackPairs[i];
    assert (2 * i) / 2 == i && (2 * i) % 2 == 0 && (2 * i + 1) / 2 == i && (2 * i + 1) % 2 == 1;
    FaceAttributes(p.0, "normal", p.1);
    FaceAttributes(p.0, "italic", p.2);
  }

  /** The fallback fonts come in normal/italic pairs, one pair per weight of the table
      (100, 300, 400, 500, 900 and 700, in that order), so each weight has one face per style. */
  lemma {:induction false} FallbackFamilyFaces()
    ensures |FallbackFamily().children| == 12
    ensures forall i :: 0 <= i < 6 ==>
      var fs := FallbackFamily().children; var w := FallbackPairs[i].0;
      fs[2 * i].tag == fs[2 * i + 1].tag == "font" &&
      Get(fs[2 * i].attrib, "style") == Some("normal") &&
      Get(fs[2 * i + 1].attrib, "style") == Some("italic") &&
      Get(fs[2 * i].attrib, "weight") == Get(fs[2 * i + 1].attrib, "weight") == Some(w)
  {
    forall i | 0 <= i < 6 {
      FallbackPair(i);
    }
  }

  /** No two pairs of the fallback family share a weight. */
  lemma {:induction false} FallbackWeightsDistinct()
    ensures forall i, j :: 0 <= i < j < 6 ==>
      Get(FallbackFamily().children[2 * i].attrib, "weight") != Get(FallbackFamily().children[2 * j].attrib, "weight")
  {
    forall i, j | 0 <= i < j < 6
      ensures Get(FallbackFamily().children[2 * i].attrib, "weight") != Get(FallbackFamily().children[2 * j].attrib, "weight")
    {
      FallbackPair(i);
      FallbackPair(j);
      FallbackTableDistinct(i, j);
    }
  }

  lemma {:induction false} FallbackTableDistinct(i: nat, j: nat)
    requires i < j < 6
    ensures FallbackPairs[i].0 != FallbackPairs[j].0
  {
    assert FallbackPairs[i].0[0] != FallbackPairs[j].0[0];
  }

  /** `f"{100 * d}"` is the digit d followed by two zeros. */
  lemma {:induction false} HundredsWritten(d: nat)
    requires 1 <= d <= 9
    ensures Decimal.Format(100 * d) == [Decimal.DigitChar(d), '0', '0']
  {
    assert Decimal.Format(d) == [Decimal.DigitChar(d)];
    assert (10 * d) / 10 == d && (10 * d) % 10 == 0;
    assert Decimal.Format(10 * d) == Decimal.Format(d) + [Decimal.DigitChar(0)];
    assert (100 * d) / 10 == 10 * d && (100 * d) % 10 == 0;
  }

  /** A normal-style face of weight `w` naming `file`, as the two `for i in range(100, 1000, 100)` loops of package.py create. */
  function NormalFace(w: nat, file: string): Element
  {
    Face(Decimal.Format(w), "normal", file)
  }

  /** The nine faces of `range(100, 1000, 100)`, weights 100 to 900, shared by the custom and
      the `zh-Hans` family. */
  function CustomFaces(file: string): seq<Element>
  {
    seq(9, i requires 0 <= i < 9 => NormalFace(100 * (i + 1), file))
  }

  /** Face i of the custom family is a font of weight 100*(i+1), style normal, with the font
      file as its text. */
  lemma {:induction false} CustomFacesShape(file: string)
    ensures |CustomFaces(file)| == 9
    ensures forall i :: 0 <= i < 9 ==>
      var f := CustomFaces(file)[i];
      f.tag == "font" && f.text == Some(file) && f.children == [] &&
      Get(f.attrib, "weight") == Some(Decimal.Format(100 * (i + 1))) &&
      Get(f.attrib, "style") == Some("normal")
  {
    forall i | 0 <= i < 9
      ensures Get(CustomFaces(file)[i].attrib, "weight") == Some(Decimal.Format(100 * (i + 1)))
      ensures Get(CustomFaces(file)[i].attrib, "style") == Some("normal")
    {
      FaceAttributes(Decimal.Format(100 * (i + 1)), "normal", file);
    }
  }

  /** No two custom faces share a weight. */
  lemma {:induction false} CustomWeightsDistinct(file: string)
    ensures |CustomFaces(file)| == 9
    ensures forall i, j :: 0 <= i < j < 9 ==>
      Get(CustomFaces(file)[i].attrib, "weight") != Get(CustomFaces(file)[j].attrib, "weight")
  {
    forall i, j | 0 <= i < j < 9
      ensures Get(CustomFaces(file)[i].attrib, "weight") != Get(CustomFaces(file)[j].attrib, "weight")
    {
      FaceAttributes(Decimal.Format(100 * (i + 1)), "normal", file);
      FaceAttributes(Decimal.Format(100 * (j + 1)), "normal", file);
      Decimal.FormatInjective(100 * (i + 1), 100 * (j + 1));
    }
  }

  /** Every weight the fallback literal spells out ("100", "300", ...) is the weight, written the
      same way, of one of the custom family's nine faces. */
  lemma {:induction false} FallbackWeightIsCustomWeight(i: nat, file: string)
    requires i < 6
    ensures exists k :: 0 <= k < 9 && Get(CustomFaces(file)[k].attrib, "weight") == Some(FallbackPairs[i].0)
  {
    var d := [1, 3, 4, 5, 9, 7][i];
    HundredsWritten(d);
    assert FallbackPairs[i].0 == [Decimal.DigitChar(d), '0', '0'];
    FaceAttributes(Decimal.Format(100 * d), "normal", file);
    assert Get(CustomFaces(file)[d - 1].attrib, "weight") == Some(FallbackPairs[i].0);
  }

  /** The nameless family that makes the font the default one. */
  function CustomFamily(file: string): Element
  {
    Element("family", [], None, CustomFaces(file))
  }

  /** The family that makes the font preferred for Simplified Chinese. */
  function LangFamily(file: string): Element
  {
    Element("family", [Attr("lang", "zh-Hans")], None, CustomFaces(file))
  }

  predicate IsFamily(e: Element)
  {
    e.tag == "family"
  }

  /** `"name" in child.attrib and child.attrib["name"] == "sans-serif"` */
  predicate NamedSansSerif(e: Element)
  {
    Get(e.attrib, "name") == Some("sans-serif")
  }

  /** A `family` element carrying a `lang` attribute: the kind before which `zh-Hans` goes. */
  predicate IsLangFamily(e: Element)
  {
    IsFamily(e) && HasKey(e.attrib, "lang")
  }

  /** What the walk does to one original child: a `sans-serif` family loses its `name`. */
  function Demote(e: Element): Element
  {
    if IsFamily(e) && NamedSansSerif(e) then e.(attrib := Remove(e.attrib, "name")) else e
  }

  /** Demotion removes exactly the `name` of a `sans-serif` family and nothing else: tag, text,
      children and every other attribute stay; elements of another tag and other families are
      untouched; no `sans-serif` family is left; a second pass changes nothing. */
  lemma {:induction false} DemoteSpec(e: Element)
    ensures Demote(e).tag == e.tag && Demote(e).text == e.text && Demote(e).children == e.children
    ensures forall k :: k != "name" ==> Get(Demote(e).attrib, k) == Get(e.attrib, k)
    ensures Get(Demote(e).attrib, "name") ==
            if IsFamily(e) && NamedSansSerif(e) then None else Get(e.attrib, "name")
    ensures !(IsFamily(e) && NamedSansSerif(e)) <==> Demote(e) == e
    ensures !(IsFamily(Demote(e)) && NamedSansSerif(Demote(e)))
    ensures IsLangFamily(Demote(e)) == IsLangFamily(e)
    ensures Demote(Demote(e)) == Demote(e)
  {
    forall k | k != "name" ensures Get(Demote(e).attrib, k) == Get(e.attrib, k) {
      RemoveGet(e.attrib, "name", k);
    }
    RemoveGet(e.attrib, "name", "lang");
  }

  /** On a well-formed element (a dictionary of attributes) demotion drops one attribute at most. */
  lemma {:induction false} DemoteDropsOne(e: Element)
    requires UniqueKeys(e.attrib)
    ensures UniqueKeys(Demote(e).attrib)
    ensures |Demote(e).attrib| == if IsFamily(e) && NamedSansSerif(e) then |e.attrib| - 1 else |e.attrib|
  {
    RemoveOne(e.attrib, "name");
  }

  function DemoteAll(cs: seq<Element>): seq<Element>
  {
    seq(|cs|, i requires 0 <= i < |cs| => Demote(cs[i]))
  }

  /** The position of the first `family` child that carries a `lang` attribute, if any. */
  function FirstLangFamily(cs: seq<Element>): (k: Option<nat>)
    ensures k.Some? ==> k.value < |cs| && IsLangFamily(cs[k.value]) &&
                        forall j :: 0 <= j < k.value ==> !IsLangFamily(cs[j])
    ensures k.None? <==> forall j :: 0 <= j < |cs| ==> !IsLangFamily(cs[j])
  {
    if cs == [] then None
    else if IsLangFamily(cs[0]) then Some(0)
    else match FirstLangFamily(cs[1..])
      case None => None
      case Some(k) => Some(k + 1)
  }

  /** The original children in order, demoted, after `head`, with `inserted` placed just before
      the first `family` child that carries a `lang` attribute, if there is one. */
  function Splice(cs: seq<Element>, head: seq<Element>, inserted: Element): seq<Element>
  {
    match FirstLangFamily(cs)
    case None => head + DemoteAll(cs)
    case Some(k) => head + DemoteAll(cs[..k]) + [inserted] + DemoteAll(cs[k..])
  }

  /** The two families that open every output. */
  function Head(file: string): seq<Element>
  {
    [FallbackFamily(), CustomFamily(file)]
  }

  /** The output root: `familyset` with `version="23"` around the fallback family, the custom
      family and the spliced original children. */
  function Transform(root: Element, file: string): Element
  {
    Element("familyset", [Attr("version", "23")], None, Splice(root.children, Head(file), LangFamily(file)))
  }

  predicate HasLangFamily(cs: seq<Element>)
  {
    exists j :: 0 <= j < |cs| && IsLangFamily(cs[j])
  }

  /** How far original child i lands after the head: one place further once `inserted` is in. */
  function Offset(cs: seq<Element>, i: nat): nat
  {
    match FirstLangFamily(cs)
    case Some(k) => if k <= i then i + 1 else i
    case None => i
  }

  /** The splice keeps the head, adds one element exactly when some family carries `lang`. */
  lemma {:induction false} SpliceLength(cs: seq<Element>, head: seq<Element>, inserted: Element)
    ensures |Splice(cs, head, inserted)| == |head| + |cs| + (if HasLangFamily(cs) then 1 else 0)
    ensures Splice(cs, head, inserted)[..|head|] == head
  {
  }

  /** Every original child appears, demoted, after the head, in its original relative order. */
  lemma {:induction false} SpliceKeepsOrder(cs: seq<Element>, head: seq<Element>, inserted: Element)
    ensures forall i :: 0 <= i < |cs| ==>
      |head| + Offset(cs, i) < |Splice(cs, head, inserted)| &&
      Splice(cs, head, inserted)[|head| + Offset(cs, i)] == Demote(cs[i])
    ensures forall i, j :: 0 <= i < j < |cs| ==> Offset(cs, i) < Offset(cs, j)
  {
    forall i | 0 <= i < |cs|
      ensures |head| + Offset(cs, i) < |Splice(cs, head, inserted)|
      ensures Splice(cs, head, inserted)[|head| + Offset(cs, i)] == Demote(cs[i])
    {
      SpliceAt(cs, head, inserted, i);
    }
  }

  /** Where original child i lands. */
  lemma {:induction false} SpliceAt(cs: seq<Element>, head: seq<Element>, inserted: Element, i: nat)
    requires i < |cs|
    ensures |head| + Offset(cs, i) < |Splice(cs, head, inserted)|
    ensures Splice(cs, head, inserted)[|head| + Offset(cs, i)] == Demote(cs[i])
  {
    var h := |head|;
    match FirstLangFamily(cs)
    case None =>
      assert Splice(cs, head, inserted)[h + i] == DemoteAll(cs)[i];
    case Some(k) =>
      var out := head + DemoteAll(cs[..k]) + [inserted] + DemoteAll(cs[k..]);
      if i < k {
        assert out[h + i] == DemoteAll(cs[..k])[i];
      } else {
        assert out[h + i + 1] == DemoteAll(cs[k..])[i - k];
      }
  }

  /** `inserted` goes in right before the first `family` child carrying a `lang` attribute (which
      itself moves one place on); with no such child nothing is inserted. */
  lemma {:induction false} SpliceInsertion(cs: seq<Element>, head: seq<Element>, inserted: Element)
    ensures !HasLangFamily(cs) ==> Splice(cs, head, inserted) == head + DemoteAll(cs)
    ensures HasLangFamily(cs) ==>
      exists k :: (0 <= k < |cs| && IsLangFamily(cs[k]) &&
                   (forall j :: 0 <= j < k ==> !IsLangFamily(cs[j])) &&
                   Offset(cs, k) == k + 1 &&
                   Splice(cs, head, inserted)[|head| + k] == inserted)
  {
    match FirstLangFamily(cs)
    case None =>
    case Some(k) =>
      assert Splice(cs, head, inserted)[|head| + k] == inserted;
  }

  /** Which original child sits q places after the head (ignoring the inserted element). */
  function Origin(cs: seq<Element>, q: nat): nat
  {
    match FirstLangFamily(cs)
    case Some(k) => if k < q then q - 1 else q
    case None => q
  }

  /** Every place after the head holds an original child, except the one where `inserted` went:
      nothing else is added. */
  lemma {:induction false} SpliceCovers(cs: seq<Element>, head: seq<Element>, inserted: Element)
    ensures forall q :: 0 <= q < |Splice(cs, head, inserted)| - |head| ==>
      (FirstLangFamily(cs).Some? && q == FirstLangFamily(cs).value) ||
      (Origin(cs, q) < |cs| && Offset(cs, Origin(cs, q)) == q)
  {
    SpliceLength(cs, head, inserted);
  }

  /** Extending the children by one keeps an earlier first `lang` family, or finds the new one. */
  lemma {:induction false} FirstLangFamilySnoc(cs: seq<Element>, x: Element)
    ensures FirstLangFamily(cs + [x]) ==
      if FirstLangFamily(cs).Some? then FirstLangFamily(cs)
      else if IsLangFamily(x) then Some(|cs|) else None
  {
    if cs != [] {
      assert (cs + [x])[0] == cs[0];
      assert (cs + [x])[1..] == cs[1..] + [x];
      FirstLangFamilySnoc(cs[1..], x);
    }
  }

  /** Demotion works element by element. */
  lemma {:induction false} DemoteAllAppend(a: seq<Element>, b: seq<Element>)
    ensures DemoteAll(a + b) == DemoteAll(a) + DemoteAll(b)
  {
  }

  /** Walking one more child adds, at the end, the `zh-Hans` family if this is the first `family`
      child with `lang`, and then the child itself, demoted. */
  lemma {:induction false} SpliceSnoc(cs: seq<Element>, x: Element, head: seq<Element>, inserted: Element)
    ensures Splice(cs + [x], head, inserted) ==
      Splice(cs, head, inserted) +
      (if FirstLangFamily(cs).None? && IsLangFamily(x) then [inserted] else []) +
      [Demote(x)]
  {
    FirstLangFamilySnoc(cs, x);
    match FirstLangFamily(cs)
    case Some(k) => SpliceSnocAfter(cs, x, head, inserted, k);
    case None =>
      if IsLangFamily(x) {
        SpliceSnocFirst(cs, x, head, inserted);
      } else {
        SpliceSnocBefore(cs, x, head, inserted);
      }
  }

  lemma {:induction false} SpliceSnocAfter(cs: seq<Element>, x: Element, head: seq<Element>, inserted: Element, k: nat)
    requires FirstLangFamily(cs) == Some(k) && FirstLangFamily(cs + [x]) == Some(k)
    ensures Splice(cs + [x], head, inserted) == Splice(cs, head, inserted) + [Demote(x)]
  {
    var ys := cs + [x];
    assert ys[..k] == cs[..k];
    assert ys[k..] == cs[k..] + [x];
    DemoteAllAppend(cs[k..], [x]);
  }

  lemma {:induction false} SpliceSnocFirst(cs: seq<Element>, x: Element, head: seq<Element>, inserted: Element)
    requires FirstLangFamily(cs) == None && FirstLangFamily(cs + [x]) == Some(|cs|)
    ensures Splice(cs + [x], head, inserted) == Splice(cs, head, inserted) + [inserted, Demote(x)]
  {
    var ys := cs + [x];
    assert ys[..|cs|] == cs;
    assert ys[|cs|..] == [x];
    assert DemoteAll([x]) == [Demote(x)];
    calc {
      Splice(ys, head, inserted);
      head + DemoteAll(cs) + [inserted] + [Demote(x)];
      Splice(cs, head, inserted) + [inserted, Demote(x)];
    }
  }

  lemma {:induction false} SpliceSnocBefore(cs: seq<Element>, x: Element, head: seq<Element>, inserted: Element)
    requires FirstLangFamily(cs) == None && FirstLangFamily(cs + [x]) == None
    ensures Splice(cs + [x], head, inserted) == Splice(cs, head, inserted) + [Demote(x)]
  {
    DemoteAllAppend(cs, [x]);
  }

  /** One step of the walk: the output grows by the inserted family exactly when this is the first
      `family` child with `lang`, then by the demoted child; the flag records the insertion. */
  lemma {:induction false} WalkStep(cs: seq<Element>, x: Element, head: seq<Element>, inserted: Element,
                 before: seq<Element>, after: seq<Element>)
    requires before == Splice(cs, head, inserted)
    requires after == before + (if FirstLangFamily(cs).None? && IsLangFamily(x) then [inserted] else []) + [Demote(x)]
    ensures after == Splice(cs + [x], head, inserted)
    ensures FirstLangFamily(cs + [x]).Some? == (FirstLangFamily(cs).Some? || IsLangFamily(x))
  {
    SpliceSnoc(cs, x, head, inserted);
    FirstLangFamilySnoc(cs, x);
  }

  /** The root is `familyset` with exactly `version="23"`; its children are the fallback family,
      the custom family, then the 2 + N ... described by the splice lemmas. */
  lemma {:induction false} TransformShape(root: Element, file: string)
    ensures Transform(root, file).tag == "familyset"
    ensures Transform(root, file).attrib == [Attr("version", "23")]
    ensures |Transform(root, file).children| ==
            |root.children| + 2 + (if HasLangFamily(root.children) then 1 else 0)
    ensures Transform(root, file).children[0] == FallbackFamily()
    ensures Transform(root, file).children[1] == CustomFamily(file)
  {
    SpliceLength(root.children, Head(file), LangFamily(file));
    assert Transform(root, file).children[..2] == Head(file);
  }
}
