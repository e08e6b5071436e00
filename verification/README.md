# ploc output-path mapper

ploc turns annotated PL/SQL package specifications into Markdown documents.
Its command-line front end writes one document per input file. It chooses
where each document goes with `ploc.utils.getOutFilePath(inFilePath,
outFilePattern)`. That function matches the input path against a regular
expression, reads two capture groups, and substitutes them into the output
pattern:

- `{folder}` is group 1, the input path up to and including a directory separator (`/` or `\`). It is `''` when that group did not take part in the match.
- `{file}` is group 3, the file name without its extension.

The substitution is `outFilePattern.replace('{folder}', folder).replace('{file}', file)`.

This project models that function in Dafny and proves what it does.

- `Wrappers` holds `Option` and `Result`.
- `JsString` models the two JavaScript built-ins the function relies on. `IndexOf` finds the leftmost occurrence of a search string. `Replace` is `String.prototype.replace` called with a string pattern. It replaces only the first occurrence. It also expands `$$`, `$&`, `` $` `` and `$'` in the replacement text. A string pattern has no capture groups, so every other `$` is copied literally.
- `PathRegex` models the regular expression `/(.*(?:\\|\/)+)?((.*)(\.([^?\s]*)))\??(.*)?/i`, reduced to groups 1 and 3. The model does not simulate backtracking. It states the result the backtracking search arrives at:
  - There is no match exactly when the path holds no `.`.
  - Otherwise the match starts at the beginning of the line that holds the first dot. The expression has no `s` flag, so `.` never crosses `\n`, `\r`, U+2028 or U+2029.
  - Within that line, group 3 ends at the line's last dot.
  - Group 1 ends at the last separator before that dot. It is absent when there is no such separator.

  The independent reference is the predicate `Splits(s, folder, name)`. It holds when `s` reads `folder + name + "." + ext`, with `folder` empty or ending in a separator, `name` free of separators and `ext` free of dots. On a one-line path, the regex result and `Splits` agree in both directions (`MatchIsTheSplit`), and a split is unique (`SplitsUnique`).
- `OutFilePath` holds `GetOutFilePath` and the properties of the mapping. It also holds worked examples taken from the default `--out` pattern and the usage text.

The help text (ploc-cli.js:35-36) describes `{folder}` as the input path with its trailing directory separator. The code does something different when only a directory name holds a dot. Group 1 then stops at the separator before that directory, so `x/a.b/c` maps to `x/a.md`. The model follows the code, and `DotInDirectoryExample` states this case.

## Model

| member | source | states |
|---|---|---|
| `JsString.IndexOf` | ploc-cli.js:81 | the index found is the leftmost occurrence of the search string; none is found exactly when the string does not occur |
| `JsString.Substitution` | ploc-cli.js:81 | a replacement text without `$` is inserted verbatim |
| `JsString.Replace` | ploc-cli.js:81 | without an occurrence the string is returned unchanged; otherwise the leftmost occurrence, and only it, is replaced by the expanded replacement text |
| `JsString.OnlyFirstOccurrenceReplaced` | ploc-cli.js:81 | text before the first occurrence is kept; text after it, later occurrences included, ends the result unchanged; a `$`-free replacement is inserted verbatim |
| `JsString.FirstOccurrenceAfter` | ploc-cli.js:81 | a placeholder-like pattern placed after a text free of it is found exactly there by the leftmost search |
| `PathRegex.LineStart` | ploc-cli.js:64 | the start of the line that holds an index, since `.` stops at line terminators |
| `PathRegex.LineEnd` | ploc-cli.js:64 | the end of the line that holds an index |
| `PathRegex.MatchLine` | ploc-cli.js:64 | groups 1 and 3 of a match at the start of a line split that line; a present group 1 is never empty |
| `PathRegex.FolderOf` | ploc-cli.js:77 | group 1 with `''` as its fallback: `''` exactly when group 1 is absent or empty, and group 1 itself otherwise |
| `PathRegex.Match` | ploc-cli.js:64-76 | `inFilePath.match(regexp)` is null exactly when the path holds no dot |
| `PathRegex.MatchSplits` | ploc-cli.js:64 | on a one-line path with a dot, folder + name is a prefix of the path, the next character is the last dot, the name has no separator, the folder is empty or ends in one |
| `PathRegex.SplitsUnique` | ploc-cli.js:64 | a path splits into folder and name in at most one way |
| `PathRegex.MatchOfSplit` | ploc-cli.js:64 | any split of a one-line path is what the regex yields |
| `PathRegex.MatchIsTheSplit` | ploc-cli.js:64 | on a one-line path the regex's groups are a split, and every split equals them |
| `PathRegex.FolderAndFileOfPath` | ploc-cli.js:64-78 | when the final segment holds a dot, folder is the path up to and including its last separator, empty exactly when there is none, and file is the final segment up to its last dot |
| `PathRegex.EmptyFolderMeansNoSeparator` | ploc-cli.js:77 | on a one-line path with a dot, `{folder}` is `''` exactly when group 1 is absent (a present group 1 is never empty), which is exactly when no separator precedes the dot that ends group 3 |
| `PathRegex.MatchOfFirstDotLine` | ploc-cli.js:64 | a path of several lines matches as the line holding its first dot alone would |
| `OutFilePath.GetOutFilePath` | ploc-cli.js:62-82 | fails (reading `match[1]` of null throws) exactly when the path has no dot; a pattern with neither placeholder is returned unchanged |
| `OutFilePath.SubstituteAfter` | ploc-cli.js:81 | a placeholder after a text free of it is replaced in place by a `$`-free text |
| `OutFilePath.DefaultPatternFolderStep` | ploc-cli.js:81 | for a `$`-free folder, the first replacement turns `{folder}{file}.md` into folder + `{file}.md` |
| `OutFilePath.DefaultPatternSubstitution` | ploc-cli.js:81 | for a folder holding neither `$` nor `{file}`, both replacements on the default pattern give folder + expanded name + `.md` |
| `OutFilePath.DefaultPatternMapsNextToSource` | ploc-cli.js:20 | with the default pattern, `folder + name + "." + ext` maps to `folder + name + ".md"` when folder and name are `$`-free and the folder holds no `{file}` |
| `OutFilePath.DefaultPatternExpandsDollar` | ploc-cli.js:81 | a file name holding `$` is expanded as a JavaScript replacement text in the default pattern |
| `OutFilePath.DefaultPatternFolderExpansion` | ploc-cli.js:81 | for any folder, the first replacement on the default pattern gives the folder expanded as a replacement text (`$&` = `{folder}`, `$'` = `{file}.md`) followed by `{file}.md` |
| `OutFilePath.DefaultPatternExpandsFolderDollar` | ploc-cli.js:76-81 | for any split path, a folder holding `$` is expanded first and the file name then replaces the first `{file}` of that result; when the expanded folder holds no `{file}` and the name holds no `$`, the output is expanded folder + name + `.md` |
| `OutFilePath.DefaultPatternFolderSubstitution` | ploc-cli.js:81 | for a `$`-free folder and name, when the folder holds `{file}`, the second replacement hits that occurrence and leaves the pattern's own `{file}` |
| `OutFilePath.FolderExpandedBeforeFile` | ploc-cli.js:81 | `{folder}` is substituted before `{file}` is searched for, so for a `$`-free folder and name, a `{file}` in the folder takes the file name |
| `OutFilePath.OutFilePathOfFirstDotLine` | ploc-cli.js:76-81 | a multi-line path maps as the line holding its first dot would |
| `OutFilePath.FileOnlyPattern` | ploc-cli.js:81 | for a `$`-free name, a pattern with `{file}` but no `{folder}` maps to pattern prefix + name + pattern suffix |
| `OutFilePath.FolderOnlyPattern` | ploc-cli.js:76-81 | a pattern holding `{folder}` after a text free of it, with no `{file}` left once the folder is in place, maps to the pattern with the `$`-free folder put in |
| `OutFilePath.AnyPatternSubstitution` | ploc-cli.js:76-81 | for a `$`-free folder and name and any pattern holding `{folder}` after a text free of it: once the folder is put in its place, the first `{file}` after a text free of it becomes the file name |
| `OutFilePath.DefaultPatternExample` | ploc-cli.js:20 | `src/pkg.pks` maps to `src/pkg.md` |
| `OutFilePath.DefaultPatternNoFolderExample` | ploc-cli.js:20 | `pkg.pks` maps to `pkg.md` |
| `OutFilePath.DocsPatternExample` | ploc-cli.js:54 | with `docs/{file}.md`, `src/pkg.pks` maps to `docs/pkg.md` |
| `OutFilePath.NoDotExample` | ploc-cli.js:76-77 | `src/Makefile` has no dot, so the call throws |
| `OutFilePath.SecondPlaceholderStaysExample` | ploc-cli.js:81 | with `{file}/{file}.md`, only the first `{file}` is replaced |
| `OutFilePath.FolderExpandedBeforeFileExample` | ploc-cli.js:81 | `{file}/a.pks` maps to `a/{file}.md` |
| `OutFilePath.DotInDirectoryExample` | ploc-cli.js:64 | `x/a.b/c` maps to `x/a.md` |
| `OutFilePath.DollarInFileNameExample` | ploc-cli.js:81 | `a$&.pks` maps to `a{file}.md` |
| `OutFilePath.FolderOnlyPatternExample` | ploc-cli.js:33-36 | with `{folder}index.md`, `src/pkg.pks` maps to `src/index.md` |
| `OutFilePath.FolderInPatternExample` | ploc-cli.js:33-36 | with `docs/{folder}{file}.md`, `src/pkg.pks` maps to `docs/src/pkg.md` |
| `OutFilePath.DollarInFolderExample` | ploc-cli.js:81 | `$$/b.pks` maps to `$/b.md`: the `$$` in the folder collapses to one `$` |

## Left out

- The documentation engine `ploc.getDoc` (ploc.js) is not part of this model. It is a call into a module whose code is not covered here.
- Argument parsing with `minimist`, the option table and the help text (ploc-cli.js:8-59, 105-122) are left out. They are a foreign library and console output.
- `files2docs` (ploc-cli.js:85-103) is left out. It does glob discovery, file reads, file writes and logging, which are all I/O. The two fixed header lines it writes are string constants around an I/O call.
- Capture groups 2, 4, 5 and 6 of the regular expression are not modelled, because `getOutFilePath` never reads them.
- Strings are sequences of Unicode scalar values, not UTF-16 code units. Every character the function searches for lies in the Basic Multilingual Plane, so the substrings agree. A path holding a lone surrogate cannot be represented.
- `PathRegex.MatchSplits`, `PathRegex.MatchIsTheSplit` and `PathRegex.FolderAndFileOfPath` require a path without line terminators. For other paths, `PathRegex.MatchOfFirstDotLine` reduces the path to the one line that matters.
- `OutFilePath.DefaultPatternMapsNextToSource` requires that the folder and name hold no `$` and that the folder holds no `{file}`. The other cases have their own lemmas. `OutFilePath.DefaultPatternExpandsDollar` covers a name holding `$`. `OutFilePath.DefaultPatternExpandsFolderDollar` covers a folder holding `$`. `OutFilePath.FolderExpandedBeforeFile` covers a folder holding `{file}`.
- `OutFilePath.AnyPatternSubstitution` requires that the folder and name hold no `$`. `OutFilePath.FolderOnlyPattern` requires only that the folder holds no `$`, because the name is dropped there. `OutFilePath.FileOnlyPattern` requires only that the name holds no `$`. For a pattern other than the default, `GetOutFilePath` expands a `$` in the folder or name as it does in the default-pattern lemmas, but no lemma states that result.
- `OutFilePath.DefaultPatternFolderStep` requires a `$`-free folder. `OutFilePath.DefaultPatternFolderSubstitution` and `OutFilePath.FolderExpandedBeforeFile` require a `$`-free folder and name. A `$'` in the folder inserts more text, so a `{file}` that it brings in can take the name first. `OutFilePath.DefaultPatternFolderExpansion` and `OutFilePath.DefaultPatternExpandsFolderDollar` state the general result.
