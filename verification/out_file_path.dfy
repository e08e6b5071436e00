/**
 * `ploc.utils.getOutFilePath`: maps one input source path to the path of the
 * documentation file written for it, by substituting the input's folder and
 * file name (without extension) for the `{folder}` and `{file}` placeholders
 * of an output pattern such as `{folder}{file}.md` or `docs/{file}.md`.
 */
module OutFilePath {
  import opened Wrappers
  import opened JsString
  import opened PathRegex

  /** Reading `match[1]` of a null match throws a TypeError. */
  datatype Error = MatchIsNull

  const FolderPlaceholder: string := "{folder}"
  const FilePlaceholder: string := "{file}"

  /** The default of the `--out` option. */
  const DefaultOutPattern: string := "{folder}{file}.md"

  /**
   * The output path for `inFilePath`: the first `{folder}` of the pattern
   * becomes the folder, then the first `{file}` of that result becomes the
   * file name without extension. Fails exactly when the path has no dot.
   */
  function GetOutFilePath(inFilePath: string, outFilePattern: string): (r: Result<string, Error>)
    ensures r.Err? <==> '.' !in inFilePath
    ensures r.Ok? && !Occurs(outFilePattern, FolderPlaceholder) && !Occurs(outFilePattern, FilePlaceholder)
      ==> r.value == outFilePattern
  {
    match Match(inFilePath)
    case None => Err(MatchIsNull)
    case Some(g) =>
      var folder, file := FolderOf(g), g.name;
      Ok(Replace(Replace(outFilePattern, FolderPlaceholder, folder), FilePlaceholder, file))
  }

  /** Both placeholders start with the only `{` they contain. */
  lemma PlaceholdersOpenOnce()
    ensures forall k :: 0 < k < |FolderPlaceholder| ==> FolderPlaceholder[k] != FolderPlaceholder[0]
    ensures forall k :: 0 < k < |FilePlaceholder| ==> FilePlaceholder[k] != FilePlaceholder[0]
  {
  }

  /** Substituting into a `{placeholder}` that follows a text free of it. */
  lemma SubstituteAfter(a: string, placeholder: string, c: string, repl: string)
    requires placeholder == FolderPlaceholder || placeholder == FilePlaceholder
    requires '$' !in repl && !Occurs(a, placeholder)
    ensures Replace(a + placeholder + c, placeholder, repl) == a + repl + c
  {
    PlaceholdersOpenOnce();
    FirstOccurrenceAfter(a, placeholder, c);
    OnlyFirstOccurrenceReplaced(a + placeholder + c, placeholder, repl, |a|);
    assert (a + placeholder + c)[..|a|] == a;
    assert (a + placeholder + c)[|a| + |placeholder|..] == c;
  }

  /** The default pattern's first substitution puts the folder in front of `{file}.md`. */
  lemma DefaultPatternFolderStep(folder: string)
    requires '$' !in folder
    ensures Replace(DefaultOutPattern, FolderPlaceholder, folder) == folder + FilePlaceholder + ".md"
  {
    assert DefaultOutPattern == "" + FolderPlaceholder + (FilePlaceholder + ".md");
    assert !Occurs("", FolderPlaceholder);
    SubstituteAfter("", FolderPlaceholder, FilePlaceholder + ".md", folder);
  }

  /**
   * The default pattern's two substitutions when the folder holds neither
   * `$` nor `{file}`: the file name is expanded as a replacement text, with
   * the folder before it and `.md` after it.
   */
  lemma DefaultPatternSubstitution(folder: string, name: string)
    requires '$' !in folder && !Occurs(folder, FilePlaceholder)
    ensures Replace(Replace(DefaultOutPattern, FolderPlaceholder, folder), FilePlaceholder, name)
      == folder + Substitution(name, FilePlaceholder, folder, ".md") + ".md"
  {
    DefaultPatternFolderStep(folder);
    var step := folder + FilePlaceholder + ".md";
    PlaceholdersOpenOnce();
    FirstOccurrenceAfter(folder, FilePlaceholder, ".md");
    assert step[..|folder|] == folder;
    assert step[|folder| + |FilePlaceholder|..] == ".md";
  }

  /**
   * With the default pattern a one-line path `folder + name + "." + ext`
   * maps to `folder + name + ".md"` when neither text holds `$` and the
   * folder holds no `{file}`: the `$`-free case of
   * `DefaultPatternExpandsDollar`.
   */
  lemma DefaultPatternMapsNextToSource(s: string, folder: string, name: string)
    requires NoLineTerminators(s) && Splits(s, folder, name)
    requires '$' !in folder && '$' !in name && !Occurs(folder, FilePlaceholder)
    ensures GetOutFilePath(s, DefaultOutPattern) == Ok(folder + name + ".md")
  {
    DefaultPatternExpandsDollar(s, folder, name);
  }

  /**
   * A file name holding `$` is expanded as a JavaScript replacement text:
   * `$&` becomes `{file}`, `` $` `` the folder, `$'` the text `.md`.
   */
  lemma DefaultPatternExpandsDollar(s: string, folder: string, name: string)
    requires NoLineTerminators(s) && Splits(s, folder, name)
    requires '$' !in folder && !Occurs(folder, FilePlaceholder)
    ensures GetOutFilePath(s, DefaultOutPattern)
      == Ok(folder + Substitution(name, FilePlaceholder, folder, ".md") + ".md")
  {
    MatchOfSplit(s, folder, name);
    DefaultPatternSubstitution(folder, name);
  }

  /** The default pattern's first substitution, for any folder: the folder is expanded as a replacement text. */
  lemma DefaultPatternFolderExpansion(folder: string)
    ensures Replace(DefaultOutPattern, FolderPlaceholder, folder)
      == Substitution(folder, FolderPlaceholder, "", FilePlaceholder + ".md") + (FilePlaceholder + ".md")
  {
    var rest := FilePlaceholder + ".md";
    PlaceholdersOpenOnce();
    assert !Occurs("", FolderPlaceholder);
    FirstOccurrenceAfter("", FolderPlaceholder, rest);
    assert DefaultOutPattern == "" + FolderPlaceholder + rest;
    assert DefaultOutPattern[..0] == "";
    assert DefaultOutPattern[|FolderPlaceholder|..] == rest;
  }

  /**
   * A folder holding `$` is expanded as a JavaScript replacement text by the
   * first substitution (`$&` becomes `{folder}`, `` $` `` nothing, `$'` the
   * text `{file}.md`), and the file name then replaces the first `{file}` of
   * that result.
   */
  lemma DefaultPatternExpandsFolderDollar(s: string, folder: string, name: string)
    requires NoLineTerminators(s) && Splits(s, folder, name)
    ensures GetOutFilePath(s, DefaultOutPattern)
      == Ok(Replace(Substitution(folder, FolderPlaceholder, "", FilePlaceholder + ".md") + (FilePlaceholder + ".md"),
                    FilePlaceholder, name))
    ensures var expanded := Substitution(folder, FolderPlaceholder, "", FilePlaceholder + ".md");
      '$' !in name && !Occurs(expanded, FilePlaceholder) ==> GetOutFilePath(s, DefaultOutPattern) == Ok(expanded + name + ".md")
  {
    MatchOfSplit(s, folder, name);
    DefaultPatternFolderExpansion(folder);
    var expanded := Substitution(folder, FolderPlaceholder, "", FilePlaceholder + ".md");
    if '$' !in name && !Occurs(expanded, FilePlaceholder) {
      SubstituteAfter(expanded, FilePlaceholder, ".md", name);
      assert expanded + (FilePlaceholder + ".md") == expanded + FilePlaceholder + ".md";
    }
  }

  /** The default pattern's substitutions when the folder is `pre + "{file}" + post`. */
  lemma DefaultPatternFolderSubstitution(pre: string, post: string, name: string)
    requires !Occurs(pre, FilePlaceholder) && '$' !in pre + FilePlaceholder + post && '$' !in name
    ensures Replace(Replace(DefaultOutPattern, FolderPlaceholder, pre + FilePlaceholder + post), FilePlaceholder, name)
      == pre + name + post + FilePlaceholder + ".md"
  {
    var folder := pre + FilePlaceholder + post;
    DefaultPatternFolderStep(folder);
    var rest := post + FilePlaceholder + ".md";
    assert folder + FilePlaceholder + ".md" == pre + FilePlaceholder + rest by {
      assert folder + FilePlaceholder + ".md" == pre + FilePlaceholder + post + FilePlaceholder + ".md";
    }
    SubstituteAfter(pre, FilePlaceholder, rest, name);
    assert pre + name + rest == pre + name + post + FilePlaceholder + ".md" by {
      assert pre + name + (post + FilePlaceholder + ".md") == pre + name + post + FilePlaceholder + ".md";
    }
  }

  /**
   * `{folder}` is expanded before `{file}` is searched for, so when the
   * folder itself holds `{file}`, that occurrence receives the file name and
   * the pattern's own `{file}` stays in the output path.
   */
  lemma FolderExpandedBeforeFile(s: string, folder: string, name: string, pre: string, post: string)
    requires NoLineTerminators(s) && Splits(s, folder, name)
    requires folder == pre + FilePlaceholder + post && !Occurs(pre, FilePlaceholder)
    requires '$' !in folder && '$' !in name
    ensures GetOutFilePath(s, DefaultOutPattern) == Ok(pre + name + post + FilePlaceholder + ".md")
  {
    MatchOfSplit(s, folder, name);
    DefaultPatternFolderSubstitution(pre, post, name);
  }

  /** A path of several lines maps as the line holding its first dot would on its own. */
  lemma OutFilePathOfFirstDotLine(s: string, b: nat, e: nat, outFilePattern: string)
    requires b <= e <= |s|
    requires b == 0 || IsLineTerminator(s[b - 1])
    requires e == |s| || IsLineTerminator(s[e])
    requires NoLineTerminators(s[b..e]) && '.' in s[b..e] && '.' !in s[..b]
    ensures GetOutFilePath(s, outFilePattern) == GetOutFilePath(s[b..e], outFilePattern)
  {
    MatchOfFirstDotLine(s, b, e);
  }

  /**
   * A pattern without `{folder}` whose first `{file}` follows `pre` (as in
   * `docs/{file}.md`) maps a one-line path `folder + name + "." + ext` to
   * `pre + name + post`: the folder is dropped.
   */
  lemma FileOnlyPattern(s: string, folder: string, name: string, pre: string, post: string)
    requires NoLineTerminators(s) && Splits(s, folder, name)
    requires '$' !in name && !Occurs(pre, FilePlaceholder)
    requires !Occurs(pre + FilePlaceholder + post, FolderPlaceholder)
    ensures GetOutFilePath(s, pre + FilePlaceholder + post) == Ok(pre + name + post)
  {
    MatchOfSplit(s, folder, name);
    SubstituteAfter(pre, FilePlaceholder, post, name);
  }

  /**
   * Any pattern holding `{folder}`: when `{folder}` follows `a` and, once it
   * is replaced by the folder, the first `{file}` follows `c`, a one-line
   * path `folder + name + "." + ext` maps to `c + name + d`.
   */
  lemma AnyPatternSubstitution(s: string, folder: string, name: string, a: string, b: string, c: string, d: string)
    requires NoLineTerminators(s) && Splits(s, folder, name)
    requires '$' !in folder && '$' !in name
    requires !Occurs(a, FolderPlaceholder) && !Occurs(c, FilePlaceholder)
    requires a + folder + b == c + FilePlaceholder + d
    ensures GetOutFilePath(s, a + FolderPlaceholder + b) == Ok(c + name + d)
  {
    MatchOfSplit(s, folder, name);
    SubstituteAfter(a, FolderPlaceholder, b, folder);
    SubstituteAfter(c, FilePlaceholder, d, name);
  }

  /**
   * A pattern holding `{folder}` after a text free of it, with no `{file}`
   * left once the folder is in place (as in `{folder}index.md`): the output
   * is the pattern with the folder put in, and the file name is dropped.
   */
  lemma FolderOnlyPattern(s: string, folder: string, name: string, a: string, b: string)
    requires NoLineTerminators(s) && Splits(s, folder, name)
    requires '$' !in folder && !Occurs(a, FolderPlaceholder)
    requires !Occurs(a + folder + b, FilePlaceholder)
    ensures GetOutFilePath(s, a + FolderPlaceholder + b) == Ok(a + folder + b)
  {
    MatchOfSplit(s, folder, name);
    SubstituteAfter(a, FolderPlaceholder, b, folder);
  }

  /** `src/pkg.pks` maps to `src/pkg.md` under the default pattern. */
  lemma DefaultPatternExample()
    ensures GetOutFilePath("src/pkg.pks", DefaultOutPattern) == Ok("src/pkg.md")
  {
    assert "src/" + "pkg" + ".md" == "src/pkg.md";
    AbsentCharMeansNoOccurrence("src/", FilePlaceholder, 0);
    DefaultPatternMapsNextToSource("src/pkg.pks", "src/", "pkg");
  }

  /** `pkg.pks`, with no folder, maps to `pkg.md` under the default pattern. */
  lemma DefaultPatternNoFolderExample()
    ensures GetOutFilePath("pkg.pks", DefaultOutPattern) == Ok("pkg.md")
  {
    assert "" + "pkg" + ".md" == "pkg.md";
    assert !Occurs("", FilePlaceholder);
    DefaultPatternMapsNextToSource("pkg.pks", "", "pkg");
  }

  /** `docs/{file}.md` maps `src/pkg.pks` to `docs/pkg.md`. */
  lemma DocsPatternExample()
    ensures GetOutFilePath("src/pkg.pks", "docs/{file}.md") == Ok("docs/pkg.md")
  {
    assert "docs/" + "pkg" + ".md" == "docs/pkg.md";
    assert "docs/{file}.md" == "docs/" + FilePlaceholder + ".md";
    AbsentCharMeansNoOccurrence("docs/", FilePlaceholder, 0);
    AbsentCharMeansNoOccurrence("docs/{file}.md", FolderPlaceholder, 6);
    FileOnlyPattern("src/pkg.pks", "src/", "pkg", "docs/", ".md");
  }

  /** A path with no dot at all makes the regex fail, and reading its groups throws. */
  lemma NoDotExample()
    ensures GetOutFilePath("src/Makefile", DefaultOutPattern) == Err(MatchIsNull)
  {
    assert '.' !in "src/Makefile";
  }

  /** Only the first `{file}` is substituted; the second stays in the output path. */
  lemma SecondPlaceholderStaysExample()
    ensures GetOutFilePath("src/pkg.pks", "{file}/{file}.md") == Ok("pkg/{file}.md")
  {
    assert "" + "pkg" + "/{file}.md" == "pkg/{file}.md";
    assert "{file}/{file}.md" == "" + FilePlaceholder + "/{file}.md";
    assert !Occurs("", FilePlaceholder);
    AbsentCharMeansNoOccurrence("{file}/{file}.md", FolderPlaceholder, 2);
    FileOnlyPattern("src/pkg.pks", "src/", "pkg", "", "/{file}.md");
  }

  /** The directory `{file}/` takes the file name: `{file}/a.pks` maps to `a/{file}.md`. */
  lemma FolderExpandedBeforeFileExample()
    ensures GetOutFilePath("{file}/a.pks", DefaultOutPattern) == Ok("a/{file}.md")
  {
    assert "" + "a" + "/" + FilePlaceholder + ".md" == "a/{file}.md";
    assert "{file}/" == "" + FilePlaceholder + "/";
    assert !Occurs("", FilePlaceholder);
    FolderExpandedBeforeFile("{file}/a.pks", "{file}/", "a", "", "/");
  }

  /** A dot only in a directory name still splits there: the folder ends before that directory. */
  lemma DotInDirectoryExample()
    ensures GetOutFilePath("x/a.b/c", DefaultOutPattern) == Ok("x/a.md")
  {
    assert "x/" + "a" + ".md" == "x/a.md";
    AbsentCharMeansNoOccurrence("x/", FilePlaceholder, 0);
    DefaultPatternMapsNextToSource("x/a.b/c", "x/", "a");
  }

  /** `$&` in a file name inserts the matched placeholder, as JavaScript's `replace` does. */
  lemma DollarInFileNameExample()
    ensures GetOutFilePath("a$&.pks", DefaultOutPattern) == Ok("a{file}.md")
  {
    assert "" + "a{file}" + ".md" == "a{file}.md";
    assert Substitution("a$&", FilePlaceholder, "", ".md") == "a{file}";
    assert !Occurs("", FilePlaceholder);
    DefaultPatternExpandsDollar("a$&.pks", "", "a$&");
  }

  /** `docs/{folder}{file}.md` mirrors the source tree: `src/pkg.pks` maps to `docs/src/pkg.md`. */
  lemma FolderInPatternExample()
    ensures GetOutFilePath("src/pkg.pks", "docs/{folder}{file}.md") == Ok("docs/src/pkg.md")
  {
    assert "docs/src/" + "pkg" + ".md" == "docs/src/pkg.md";
    assert "docs/{folder}{file}.md" == "docs/" + FolderPlaceholder + "{file}.md";
    assert "docs/" + "src/" + "{file}.md" == "docs/src/" + FilePlaceholder + ".md";
    AbsentCharMeansNoOccurrence("docs/", FolderPlaceholder, 0);
    AbsentCharMeansNoOccurrence("docs/src/", FilePlaceholder, 0);
    AnyPatternSubstitution("src/pkg.pks", "src/", "pkg", "docs/", "{file}.md", "docs/src/", ".md");
  }

  /** `$$` in a directory name collapses to one `$`: `$$/b.pks` maps to `$/b.md`. */
  lemma DollarInFolderExample()
    ensures GetOutFilePath("$$/b.pks", DefaultOutPattern) == Ok("$/b.md")
  {
    assert "$/" + "b" + ".md" == "$/b.md";
    assert Substitution("$$/", FolderPlaceholder, "", FilePlaceholder + ".md") == "$/";
    AbsentCharMeansNoOccurrence("$/", FilePlaceholder, 0);
    DefaultPatternExpandsFolderDollar("$$/b.pks", "$$/", "b");
  }

  /** `{folder}index.md` keeps only the folder: `src/pkg.pks` maps to `src/index.md`. */
  lemma FolderOnlyPatternExample()
    ensures GetOutFilePath("src/pkg.pks", "{folder}index.md") == Ok("src/index.md")
  {
    assert "" + "src/" + "index.md" == "src/index.md";
    assert "{folder}index.md" == "" + FolderPlaceholder + "index.md";
    assert !Occurs("", FolderPlaceholder);
    AbsentCharMeansNoOccurrence("src/index.md", FilePlaceholder, 0);
    FolderOnlyPattern("src/pkg.pks", "src/", "pkg", "", "index.md");
  }
}
