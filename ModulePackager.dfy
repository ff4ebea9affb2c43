/**
 * `ModulePackager` of package.py, reduced to the parts with logic of their own:
 * building the new font configuration from the parsed base document, and
 * writing `module.prop`. The constructor only stores its arguments; the one
 * it derives, the font's file name, is `OsPath.Basename(fontPath)` here.
 */
module ModulePackager {
  import opened Wrappers
  import opened Xml
  import Decimal
  import OsPath
  import opened FontConfig
  import ModuleProp

  /** The loop `for i in range(100, 1000, 100)` that fills a family with the font's nine faces. */
  method BuildFaces(fontFileName: string) returns (faces: seq<Element>)
    ensures faces == CustomFaces(fontFileName)
  {
    faces := [];
    var i := 100;
    while i < 1000
      invariant 100 <= i <= 1000 && i == 100 * (|faces| + 1)
      invariant forall j :: 0 <= j < |faces| ==> faces[j] == NormalFace(100 * (j + 1), fontFileName)
    {
      var font := Face(Decimal.Format(i), "normal", fontFileName);
      faces := faces + [font];
      i := i + 100;
    }
  }

  /** `__parse_font_xml` from the parsed root on: the output `familyset` opens with the fallback
      family and the custom family, then walks the original children in order, demoting every
      `sans-serif` family and inserting the `zh-Hans` family before the first `family` child that
      carries `lang`. */
  method ParseFontXml(root: Element, fontPath: string) returns (familyset: Element)
    ensures familyset == Transform(root, OsPath.Basename(fontPath))
    ensures familyset.tag == "familyset" && familyset.attrib == [Attr("version", "23")]
    ensures |familyset.children| == |root.children| + 2 + (if HasLangFamily(root.children) then 1 else 0)
  {
    var fontFileName := OsPath.Basename(fontPath);
    var children := [FallbackFamily()];

    var customFaces := BuildFaces(fontFileName);
    children := children + [Element("family", [], None, customFaces)];
    assert children == Splice([], Head(fontFileName), LangFamily(fontFileName));

    var familyWithLangInserted := false;
    var i := 0;
    while i < |root.children|
      invariant 0 <= i <= |root.children|
      invariant familyWithLangInserted == FirstLangFamily(root.children[..i]).Some?
      invariant children == Splice(root.children[..i], Head(fontFileName), LangFamily(fontFileName))
    {
      ghost var before := children;
      var appended;
      appended, familyWithLangInserted := WalkChild(root.children[i], familyWithLangInserted, fontFileName);
      children := children + appended;
      WalkStep(root.children[..i], root.children[i], Head(fontFileName), LangFamily(fontFileName), before, children);
      assert root.children[..i + 1] == root.children[..i] + [root.children[i]];
      i := i + 1;
    }
    assert root.children[..i] == root.children;
    familyset := Element("familyset", [Attr("version", "23")], None, children);
    TransformShape(root, fontFileName);
  }

  /** One turn of the `for child in root` loop: what it appends to `familyset` for `child`, and the
      new value of `family_with_lang_inserted`. */
  method WalkChild(child: Element, familyWithLangInserted: bool, fontFileName: string)
    returns (appended: seq<Element>, inserted: bool)
    ensures !familyWithLangInserted && IsLangFamily(child) ==> appended == [LangFamily(fontFileName), Demote(child)]
    ensures !(!familyWithLangInserted && IsLangFamily(child)) ==> appended == [Demote(child)]
    ensures inserted == (familyWithLangInserted || IsLangFamily(child))
  {
    var c := child;
    appended := [];
    inserted := familyWithLangInserted;
    if c.tag == "family" {
      if HasKey(c.attrib, "name") && Get(c.attrib, "name").value == "sans-serif" {
        c := c.(attrib := Remove(c.attrib, "name"));
        RemoveGet(child.attrib, "name", "lang");
      }
      assert c == Demote(child) && (HasKey(c.attrib, "lang") <==> IsLangFamily(child));
      if HasKey(c.attrib, "lang") && !inserted {
        var langFaces := BuildFaces(fontFileName);
        var familyWithLang := Element("family", [Attr("lang", "zh-Hans")], None, langFaces);
        assert familyWithLang == LangFamily(fontFileName);
        appended := appended + [familyWithLang];
        inserted := true;
      }
    } else {
      assert c == Demote(child) && !IsLangFamily(child);
    }
    appended := appended + [c];
  }

  /** The `module.prop` write: one `key=value` line per entry, appended in insertion order. */
  method WriteModuleProp(entries: seq<ModuleProp.Entry>) returns (content: string)
    ensures content == ModuleProp.PropText(entries)
    ensures ModuleProp.Readable(entries) ==> ModuleProp.ParseProps(content) == Some(entries)
  {
    content := "";
    var i := 0;
    while i < |entries|
      invariant 0 <= i <= |entries|
      invariant content == ModuleProp.PropText(entries[..i])
    {
      var (k, v) := entries[i];
      content := content + k + "=" + v + "\n";
      ModuleProp.PropTextSnoc(entries[..i], entries[i]);
      assert entries[..i + 1] == entries[..i] + [entries[i]];
      i := i + 1;
    }
    assert entries[..i] == entries;
    if ModuleProp.Readable(entries) {
      ModuleProp.ParsePropText(entries);
    }
  }
}
