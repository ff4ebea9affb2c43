/**
 * The display name `main` gives the module when `--font-name` is missing or
 * empty: the font file's basename without its final extension.
 */
module FontName {
  import opened Wrappers
  import OsPath

  /** `os.path.splitext(os.path.basename(font))[0]` */
  function DefaultFontName(fontPath: string): string
  {
    OsPath.SplitExt(OsPath.Basename(fontPath)).0
  }

  /** `config.font_name`, unless it is absent or empty (`not font_name`). */
  function ChosenFontName(fontNameArg: Option<string>, fontPath: string): string
  {
    if fontNameArg.Some? && fontNameArg.value != [] then fontNameArg.value
    else DefaultFontName(fontPath)
  }

  /** The default name holds no '/', and the basename is it followed by an extension that is
      empty or a '.' followed by neither '.' nor '/'. */
  lemma {:induction false} DefaultFontNameSpec(fontPath: string)
    ensures '/' !in DefaultFontName(fontPath)
    ensures var ext := OsPath.Basename(fontPath)[|DefaultFontName(fontPath)|..];
      OsPath.Basename(fontPath) == DefaultFontName(fontPath) + ext &&
      (ext == [] || (ext[0] == '.' && '.' !in ext[1..] && '/' !in ext))
  {
    var b := OsPath.Basename(fontPath);
    OsPath.BasenameSpec(fontPath);
    OsPath.SplitExtSpec(b);
    HeadOfSplit(b, OsPath.SplitExt(b).0, OsPath.SplitExt(b).1);
  }

  /** A '/'-free string cut in two: the first part holds no '/' and the rest follows it. */
  lemma {:induction false} HeadOfSplit(b: string, root: string, ext: string)
    requires b == root + ext && '/' !in b
    ensures '/' !in root && b[|root|..] == ext
  {
    forall j | 0 <= j < |root| ensures root[j] != '/' {
      assert root[j] == b[j];
    }
    assert b[|root|..] == ext;
  }

  /** `dir/Name.ext` gets the name `Name` when no `--font-name` is given. */
  lemma {:induction false} DefaultFontNameOfJoin(dir: string, name: string, ext: string)
    requires dir == [] || dir[|dir| - 1] == '/'
    requires '/' !in name && '/' !in ext && '.' !in ext
    requires exists j :: 0 <= j < |name| && name[j] != '.'
    ensures DefaultFontName(dir + (name + "." + ext)) == name
  {
    var file := name + "." + ext;
    assert '/' !in file by {
      forall j | 0 <= j < |file| ensures file[j] != '/' {
        if j < |name| { assert file[j] == name[j]; }
        else if j > |name| { assert file[j] == ext[j - |name| - 1]; }
      }
    }
    OsPath.BasenameOfJoin(dir, file);
    OsPath.SplitExtOfJoin(name, ext);
  }

  /** A file name with no '.' keeps its whole basename as its name. */
  lemma {:induction false} DefaultFontNameWithoutDot(dir: string, name: string)
    requires dir == [] || dir[|dir| - 1] == '/'
    requires '/' !in name && '.' !in name
    ensures DefaultFontName(dir + name) == name
  {
    OsPath.BasenameOfJoin(dir, name);
  }

  /** A non-empty `--font-name` wins; otherwise the name comes from the font path. */
  lemma {:induction false} ChosenFontNameSpec(fontNameArg: Option<string>, fontPath: string)
    ensures fontNameArg.Some? && fontNameArg.value != [] ==>
      ChosenFontName(fontNameArg, fontPath) == fontNameArg.value
    ensures fontNameArg.None? || fontNameArg.value == [] ==>
      '/' !in ChosenFontName(fontNameArg, fontPath) &&
      OsPath.Basename(fontPath)[..|ChosenFontName(fontNameArg, fontPath)|] == ChosenFontName(fontNameArg, fontPath)
  {
    if fontNameArg.None? || fontNameArg.value == [] {
      DefaultFontNameSpec(fontPath);
    }
  }
}
