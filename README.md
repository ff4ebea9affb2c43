# Font configuration splice of the font module packager

`package.py` packages a font as an Android module. Its core is
`ModulePackager.__parse_font_xml`. This method takes the device's parsed
`fonts.xml` and builds a new `familyset` root with `version="23"`. The root
holds, in order:

- a fixed fallback `sans-serif` family of twelve placeholder faces;
- a nameless family of nine faces, weights 100 to 900, all naming the font's
  file;
- every original top-level child, in order.

While it copies the original children it does two things:

- A `family` child named `sans-serif` loses its `name` attribute.
- The first `family` child that carries a `lang` attribute is preceded by a
  `zh-Hans` family made of the same nine faces.

Two smaller pieces sit beside it:

- the `module.prop` writer, which writes one `key=value` line per metadata
  entry;
- the default display name, which is the font file's basename without its
  extension.

The model is in these modules:

- **Xml:** a parsed element as a value. It has a tag, its attributes as an
  ordered list of (name, value) pairs, optional text and its children. It
  also defines the dictionary operations the walk uses: lookup and `del`.
- **FontConfig:** what the output is, as functions.
  - `Transform` is the closed form of the whole output.
  - `Splice` is the walk over the original children.
  - Lemmas state the properties: order kept, nothing dropped, the
    first-match insertion, demotion of `sans-serif` families, and counts.
- **ModulePackager:** the source's loops as methods.
  - `BuildFaces` is `for i in range(100, 1000, 100)`.
  - `ParseFontXml` is the `for child in root` walk, with its
    `family_with_lang_inserted` flag.
  - `WalkChild` is one turn of that walk.
  - `WriteModuleProp` is the `module.prop` loop.

  Each method is proved equal to its specification function.
- **Decimal:** `f"{i}"` for the weights, with a parse that reads it back.
- **OsPath:** `os.path.basename` and `os.path.splitext`, as the POSIX
  implementation behaves: both cut at the last separator, and a name made
  only of leading dots has no extension.
- **ModuleProp:** the text of `module.prop`, and a reader that recovers the
  entries from it.
- **FontName:** the `--font-name` fallback in `main`.

## Model

| member | source | states |
|---|---|---|
| Xml.Get | package.py:66-68 | `attrib.get(key)`: the value stored under a name; its meaning is stated by `Xml.GetSpec` |
| Xml.HasKey | package.py:66-68 | `key in attrib`; `Xml.GetSpec` states when it holds |
| Xml.GetSpec | package.py:66-68 | `key in attrib` fails exactly when no attribute has that name; a hit returns the value of an attribute with that name |
| Xml.Remove | package.py:67 | `del attrib[key]` keeps exactly the attributes with another name and never adds any |
| Xml.RemoveGet | package.py:67 | after `del attrib["name"]`, `name` is absent and every other attribute reads as before |
| Xml.RemoveOne | package.py:67 | on a dictionary, deleting a present key drops exactly one entry, deleting an absent one drops none, and the rest stays a dictionary |
| Xml.RemoveAbsent | package.py:66-67 | deleting a name that is not there changes nothing |
| Decimal.DigitChar | package.py:58 | a digit character stands for its value |
| Decimal.Format | package.py:58 | `f"{i}"` is non-empty, all digits, with no leading zero except for 0 itself |
| Decimal.ParseFormat | package.py:58 | reading the written weight back gives the number |
| Decimal.FormatInjective | package.py:58 | different weights are written differently |
| OsPath.Basename | package.py:21 | `os.path.basename`: the part after the last '/'; stated by `OsPath.BasenameSpec` and `OsPath.BasenameOfJoin` |
| OsPath.SplitExt | package.py:147 | `os.path.splitext`: root and extension; stated by `OsPath.SplitExtSpec`, `OsPath.SplitExtOfJoin` and `OsPath.SplitExtLeadingDots` |
| OsPath.RFind | package.py:21 | the last occurrence of a character, or -1 with none |
| OsPath.BasenameSpec | package.py:21 | the basename holds no '/', and the path is its directory part followed by it |
| OsPath.BasenameOfJoin | package.py:21 | a name without '/' under a directory ending in '/' is its own basename |
| OsPath.SplitExtSpec | package.py:147 | root + extension is the name; the extension is empty or a '.' with no further '.' and no '/' |
| OsPath.SplitExtOfJoin | package.py:147 | `name.ext` splits into `name` and `.ext` when `name` has a character other than '.' |
| OsPath.SplitExtLeadingDots | package.py:147 | a name whose only dots are leading ones (`.fonts`) has no extension |
| FontConfig.FallbackFamily | package.py:35-53 | the hard-coded `sans-serif` family; stated by `FontConfig.FallbackFamilyShape`, `FontConfig.FallbackFamilyFaces` and `FontConfig.FallbackWeightsDistinct` |
| FontConfig.FallbackFaces | package.py:37-50 | the twelve faces of the literal, in its order; stated by `FontConfig.FallbackPair` |
| FontConfig.CustomFaces | package.py:57-60 | the nine faces both `range(100, 1000, 100)` loops build; stated by `FontConfig.CustomFacesShape` and `FontConfig.CustomWeightsDistinct` |
| FontConfig.CustomFamily | package.py:55-61 | the nameless family holding the nine faces; its place is stated by `FontConfig.TransformShape` |
| FontConfig.LangFamily | package.py:69-73 | the `lang="zh-Hans"` family holding the same nine faces; its place is stated by `FontConfig.SpliceInsertion` |
| FontConfig.Demote | package.py:65-67 | what the walk does to one child; stated by `FontConfig.DemoteSpec` and `FontConfig.DemoteDropsOne` |
| FontConfig.Splice | package.py:63-76 | the walk over the original children in closed form; stated by `FontConfig.SpliceLength`, `FontConfig.SpliceKeepsOrder`, `FontConfig.SpliceInsertion` and `FontConfig.SpliceCovers` |
| FontConfig.Transform | package.py:30-76 | the whole output `familyset`; stated by `FontConfig.TransformShape` and the splice lemmas |
| FontConfig.FaceAttributes | package.py:58 | a face reports the weight and style it was built with |
| FontConfig.FallbackFamilyShape | package.py:35-53 | the fallback family is a `family` named `sans-serif`, without `lang`, of 12 faces |
| FontConfig.FallbackPair | package.py:37-50 | faces 2i and 2i+1 of the fallback family are `font` elements of one weight, normal then italic |
| FontConfig.FallbackFamilyFaces | package.py:37-50 | the twelve faces are normal/italic pairs of weights 100, 300, 400, 500, 900 and 700, in the literal's order |
| FontConfig.FallbackWeightsDistinct | package.py:37-50 | no two pairs of the fallback family share a weight |
| FontConfig.HundredsWritten | package.py:38-49 | `f"{100*d}"` is the digit d then "00", the notation the fallback literal uses |
| FontConfig.FallbackWeightIsCustomWeight | package.py:38-49 | every weight string of the fallback literal is the weight, written the same way by `f"{i}"`, of one of the nine custom faces |
| FontConfig.CustomFacesShape | package.py:55-61 | the custom family has 9 faces; face i is a `font` of weight 100·(i+1), style normal, text the font's file name |
| FontConfig.CustomWeightsDistinct | package.py:57-60 | the nine custom faces have nine different weights |
| FontConfig.DemoteSpec | package.py:65-67 | a `sans-serif` family loses exactly `name`; tag, text, children and other attributes stay; other elements are untouched; no `sans-serif` family remains; whether it carries `lang` is unchanged; a second pass changes nothing |
| FontConfig.DemoteDropsOne | package.py:67 | on a dictionary, demotion removes one attribute from a `sans-serif` family and none from anything else |
| FontConfig.FirstLangFamily | package.py:63-75 | the first `family` child with `lang`: that child carries `lang`, and none before it does; none at all exactly when no child carries it |
| FontConfig.SpliceLength | package.py:53-76 | the walk keeps the two opening families and adds one element per child, plus one when some `family` child carries `lang` |
| FontConfig.SpliceKeepsOrder | package.py:64-76 | every original child, whatever its tag, appears demoted in the output, in its original relative order |
| FontConfig.SpliceInsertion | package.py:68-75 | with no `lang` family nothing is inserted; otherwise the `zh-Hans` family sits immediately before the first `family` child carrying `lang` |
| FontConfig.SpliceCovers | package.py:64-76 | every output place after the opening families holds an original child, except the single insertion point |
| FontConfig.FirstLangFamilySnoc | package.py:68-75 | the flag only turns on, and does so at the first `family` child with `lang` |
| FontConfig.SpliceSnoc | package.py:64-76 | walking one more child appends the `zh-Hans` family if this is the first with `lang`, then the demoted child |
| FontConfig.WalkStep | package.py:63-76 | one turn of the walk keeps the output equal to the closed form and keeps the flag equal to "a `lang` family was seen" |
| FontConfig.TransformShape | package.py:30-76 | the root is `familyset` with exactly `version="23"`, its first child is the fallback family and its second the custom family, and it has N+2 or N+3 children |
| ModulePackager.BuildFaces | package.py:57-60 | the `range(100, 1000, 100)` loop builds exactly the nine custom faces |
| ModulePackager.WalkChild | package.py:64-76 | one child appends the demoted child, preceded by the `zh-Hans` family when it is the first `family` with `lang`; the flag becomes "seen a `lang` family" |
| ModulePackager.ParseFontXml | package.py:30-76 | the built `familyset` is exactly the closed form `Transform` for the font's basename, with tag, version and child count |
| ModulePackager.WriteModuleProp | package.py:89-91 | the file text is the `key=value` lines of the entries in order, and reads back as those entries when keys hold no '=' or newline and values no newline |
| ModuleProp.Line | package.py:91 | `f"{k}={v}\n"`, one line of the file; its reading back is stated by `ModuleProp.ParsePropText` |
| ModuleProp.PropText | package.py:89-91 | the whole file text, the lines in insertion order; stated by `ModuleProp.PropTextSnoc` and `ModuleProp.ParsePropText` |
| ModuleProp.PropTextSnoc | package.py:90-91 | writing one more entry appends its line |
| ModuleProp.ParsePropText | package.py:89-91 | the file text lists exactly the entries, in insertion order |
| FontName.DefaultFontName | package.py:146-147 | `os.path.splitext(os.path.basename(font))[0]`; stated by `FontName.DefaultFontNameSpec`, `FontName.DefaultFontNameOfJoin` and `FontName.DefaultFontNameWithoutDot` |
| FontName.ChosenFontName | package.py:144-147 | `--font-name` unless it is absent or empty; stated by `FontName.ChosenFontNameSpec` |
| FontName.DefaultFontNameSpec | package.py:144-147 | the default name holds no '/', and the basename is it followed by an empty or single-dot extension |
| FontName.DefaultFontNameOfJoin | package.py:144-147 | `dir/Name.ext` gets the name `Name` |
| FontName.DefaultFontNameWithoutDot | package.py:144-147 | a file name without '.' is the display name as a whole |
| FontName.ChosenFontNameSpec | package.py:144-147 | a non-empty `--font-name` is used as given; otherwise the name is the start of the font's basename and holds no '/' |

## Left out

- XML parsing and serialisation are left out: `ElementTree.parse`, `fromstring`, `tostring`, pretty-printing, blank-line removal and the `os.linesep` join (package.py:27-28, 77-81). The model starts from a parsed tree and ends at the output tree. An element has no `tail`, so tails are not modelled anywhere: neither the whitespace text and tails that `fromstring` keeps inside the fallback literal, nor the tails the original children carry into the output through `familyset.append(child)` (package.py:76). In a usual `fonts.xml` they are whitespace, which pretty-printing and the blank-line filter at package.py:79-80 normalise.
- Attributes are an ordered list of pairs, not a dictionary. Uniqueness of names is a separate predicate, assumed only where a lemma states it (`Xml.RemoveOne`, `FontConfig.DemoteDropsOne`).
- `del child.attrib["name"]` changes the parsed input tree in place. The model demotes a copy. The input tree is dropped once the output is built, so no later step can observe the difference.
- The filesystem and archive work in `package_module` is left out: the temporary directory, `copytree`, `copy`, file opening and `make_archive` (package.py:83-103). It has no logic of its own. `WriteModuleProp` returns the text the loop writes instead of writing a file. Text-mode newline translation is not modelled.
- The rest of `main` is left out: argparse, the `os.path.exists` checks, messages, `exit(-1)`, `os.getlogin()`, the contents of the `module_props` dictionary and the constructor call (package.py:106-143, 148-163). These are environment and command-line glue. Only the name derivation at 144-147 is modelled, in `FontName`.
- Parse errors and I/O errors are raised inside library code and are not modelled.
- `os.path.basename` and `os.path.splitext` are modelled for `/`-separated string paths only. Byte paths, `PathLike` objects and other separators are not modelled.
