# ProcessLauncher: building the launch command

This project models `ProcessLauncher::createLaunchCommand` of the
Pegasus frontend in Dafny. The function builds the command line that
starts a game. It takes the platform's launch-command template (for
example `emulator "%ROM%" --fullscreen`) and the game's ROM path.

1. It puts two values in a map: the ROM path (`PATH`) and the path's
   complete base name (`BASENAME`). The complete base name is the file
   name without its last extension.
2. It prepares each value for QProcess's command-line splitting. Every
   `"` becomes `"""`. If the result contains whitespace, it is then
   wrapped in a pair of quotes.
3. It replaces the tokens in the template in two rounds. The first round
   replaces the quoted tokens `"%ROM%"`, `"%ROM_RAW%"` and `"%BASENAME%"`,
   quotes included. The second round replaces the bare tokens `%ROM%`,
   `%ROM_RAW%` and `%BASENAME%`. Both ROM tokens receive the prepared path.

The model has three modules:

- `QtString` holds the QString behaviour the function depends on. It
  calls `replace` (every occurrence, left to right, no rescanning of
  inserted text) and the search for the regular expression `\s`
  directly. `Contains` (the pattern search inside `replace`) and
  `LastIndexOf` on a character (used by `completeBaseName`) are not
  called by the function; they stand for the internals of `replace` and
  of QFileInfo.
- `QtFileInfo` holds `fileName` and `completeBaseName`, for paths
  separated by `/`.
- `ProcessLauncher` holds the preparation of one value (`Prepare`), the
  two substitution rounds (`QuotedRound`, `BareRound`), and their
  composition (`BuildCommand`). `CreateLaunchCommand` is an imperative
  method. It keeps the parameter map, prepares each entry in a loop as
  the source does, then runs the six replacements in source order. It is
  proved equal to `BuildCommand`.

Each replacement runs over the whole current string, including values
inserted by earlier replacements. So a ROM path that itself contains a
token is substituted again. The model keeps this behaviour
(`InsertedValueIsSubstitutedAgain`). The lemmas about a single token
therefore require a path without `%`.

Two points where the code differs from a plain reading of the
function's purpose. The model follows the code in both:

- A path without whitespace is never wrapped in quotes, even when it
  contains a `"`. For the template `"%ROM%" --flag` and the path
  `C:\g\a"b.rom`, the code produces `C:\g\a"""b.rom --flag`, not
  `"C:\g\a"""b.rom" --flag` (`ExampleQuotedTokenWithFlag`).
- The replacement rounds do re-substitute tokens that appear inside
  inserted values. For example, `%ROM%` with the path `%BASENAME%/c`
  gives `c/c` (`ExampleInsertedValueIsSubstitutedAgain`).

## Model

| member | source | states |
|---|---|---|
| QtString.ReplaceAll | src/backend/ProcessLauncher.cpp:54-62 | `QString::replace` with a non-empty pattern: a string that does not contain the pattern comes back unchanged, and a leading character different from the pattern's first character stays in front |
| QtString.ContainsIffOccurrence | src/backend/ProcessLauncher.cpp:54-62 | the pattern search that `replace` performs finds a pattern exactly when some index holds an occurrence of it |
| QtString.ReplaceAllWhole | src/backend/ProcessLauncher.cpp:55 | a string that is exactly the pattern becomes the replacement |
| QtString.ReplaceAllConcat | src/backend/ProcessLauncher.cpp:54-62 | when the second part starts with a character outside the pattern, no occurrence spans the join, so replacing in `a + b` is replacing in `a` and in `b` separately |
| QtString.ReplaceAllPlainPrefix | src/backend/ProcessLauncher.cpp:54-62 | a prefix holding no character that can start the pattern is copied through, and replacing continues in the rest |
| QtString.ReplaceAllChars | src/backend/ProcessLauncher.cpp:43 | replacing introduces no character that is in neither the input nor the replacement |
| QtString.LastIndexOf | src/backend/ProcessLauncher.cpp:36 | the index found by `lastIndexOf` is in range and holds the character, or is -1 |
| QtString.LastIndexOfIsLast | src/backend/ProcessLauncher.cpp:36 | no occurrence of the character follows the reported index |
| QtString.LastIndexOfIs | src/backend/ProcessLauncher.cpp:36 | conversely, an index that holds the character with no occurrence after it is the reported one |
| QtString.LastIndexOfAbsent | src/backend/ProcessLauncher.cpp:36 | -1 is reported exactly when the character does not occur |
| QtString.IsWhitespace | src/backend/ProcessLauncher.cpp:40 | the characters `\s` matches: space and the control characters tab through carriage return (code points 9 to 13); its properties are used through `ContainsWhitespaceIffAt` |
| QtString.ContainsWhitespace | src/backend/ProcessLauncher.cpp:45 | the search for `\s` in a value; `ContainsWhitespaceIffAt` and `ContainsWhitespaceConcat` state what it finds |
| QtString.ContainsWhitespaceIffAt | src/backend/ProcessLauncher.cpp:40-45 | `contains(QRegularExpression("\\s"))` holds exactly when some position holds a whitespace character |
| QtString.ContainsWhitespaceConcat | src/backend/ProcessLauncher.cpp:45 | a concatenation contains whitespace exactly when one of its parts does |
| QtFileInfo.FileName | src/backend/ProcessLauncher.cpp:36 | the file name holds no separator and is no longer than the path |
| QtFileInfo.FileNameIsLastSegment | src/backend/ProcessLauncher.cpp:36 | the file name is a suffix of the path, and a separator stands right before it unless it is the whole path |
| QtFileInfo.FileNameOf | src/backend/ProcessLauncher.cpp:36 | for `dir + name` with `dir` empty or ending in a separator and `name` without one, the file name is `name` |
| QtFileInfo.CompleteBaseName | src/backend/ProcessLauncher.cpp:36 | the complete base name holds no separator |
| QtFileInfo.CompleteBaseNameIsStem | src/backend/ProcessLauncher.cpp:36 | the complete base name is a prefix of the file name. If the file name has a '.', it stops right at the last one. Otherwise it is the whole file name |
| QtFileInfo.CompleteBaseNameOf | src/backend/ProcessLauncher.cpp:36 | for `dir + base + "." + ext` with `dir` empty or ending in '/', `base` free of '/', and `ext` free of '.' and '/', the complete base name is `base`: only the last extension is dropped |
| QtFileInfo.CompleteBaseNameWithoutExtension | src/backend/ProcessLauncher.cpp:36 | a file name without any '.' is its own complete base name |
| QtFileInfo.CompleteBaseNameChars | src/backend/ProcessLauncher.cpp:36 | every character of the complete base name comes from the path |
| QtFileInfo.ExampleManyDots | src/backend/ProcessLauncher.cpp:36 | `a.b.tar.gz` has the complete base name `a.b.tar` |
| QtFileInfo.ExampleNoExtension | src/backend/ProcessLauncher.cpp:36 | `noext` has the complete base name `noext` |
| ProcessLauncher.TripleQuotes | src/backend/ProcessLauncher.cpp:42-43 | the reference reading of the escape, each quote becoming three: the result is never shorter, and it equals the value exactly when the value holds no quote |
| ProcessLauncher.Escape | src/backend/ProcessLauncher.cpp:43 | `param.replace('"', "\"\"\"")` is the character-by-character tripling `TripleQuotes` |
| ProcessLauncher.Unescape | src/backend/ProcessLauncher.cpp:42 | QProcess's reading of `"""` as one quote; a string without quotes is read as it is, and `CollapseTripledQuotes` shows it undoes the escape |
| ProcessLauncher.EscapeTriplesQuotes | src/backend/ProcessLauncher.cpp:43 | replacing every '"' by `"""` agrees with the character-by-character reading in which each quote becomes three and every other character stays |
| ProcessLauncher.CollapseTripledQuotes | src/backend/ProcessLauncher.cpp:42-43 | collapsing each `"""` back into one '"' undoes the tripling |
| ProcessLauncher.TripleQuotesConcat | src/backend/ProcessLauncher.cpp:43 | the escape acts on each part of a concatenation separately |
| ProcessLauncher.EscapeRoundTrip | src/backend/ProcessLauncher.cpp:42-43 | QProcess's reading of `"""` as one literal quote recovers the original value from the escaped one |
| ProcessLauncher.TripleQuotesWhitespace | src/backend/ProcessLauncher.cpp:43-45 | the tripled value contains whitespace exactly when the value does |
| ProcessLauncher.EscapeKeepsWhitespace | src/backend/ProcessLauncher.cpp:43-45 | the escape neither adds nor removes whitespace, so the wrap decision is the same before and after it |
| ProcessLauncher.Prepare | src/backend/ProcessLauncher.cpp:41-49 | a prepared value is the escaped value in quotes exactly when the value contains whitespace, and the bare escaped value exactly when it does not |
| ProcessLauncher.Unprepare | src/backend/ProcessLauncher.cpp:42-46 | how QProcess reads a prepared value back, with its splitting simplified to the six ASCII characters `\s` matches; a value with neither quote nor whitespace is read as it is, and `PrepareRoundTrip` shows it undoes `Prepare` |
| ProcessLauncher.IsQProcessSpace | src/backend/ProcessLauncher.cpp:79 | the characters `QChar::isSpace` accepts, at which QProcess's `start` splits an unquoted command line; `QProcessSpacesIncludeWhitespace` states that they include every `\s` character and U+3000 besides |
| ProcessLauncher.QProcessSpacesIncludeWhitespace | src/backend/ProcessLauncher.cpp:40-46 | every character the `\s` of line 40 matches is one QProcess splits at, but U+3000 IDEOGRAPHIC SPACE is a QProcess space that `\s` does not match |
| ProcessLauncher.IdeographicSpaceNotWrapped | src/backend/ProcessLauncher.cpp:40-46 | a value whose only space is U+3000 (and without quotes) is prepared unchanged, without wrapping quotes, although QProcess splits at that character |
| ProcessLauncher.PrepareRoundTrip | src/backend/ProcessLauncher.cpp:41-49 | dropping the wrapping quotes of a value with whitespace, then collapsing its `"""`, gives the original value back |
| ProcessLauncher.PreparePlainValue | src/backend/ProcessLauncher.cpp:41-49 | a value with neither a quote nor whitespace is passed on unchanged |
| ProcessLauncher.QuotedRound | src/backend/ProcessLauncher.cpp:54-57 | the three quoted tokens replaced in source order; `QuotedRoundSeparated`, `PlainPrefix` and the token lemmas state what it does |
| ProcessLauncher.BareRound | src/backend/ProcessLauncher.cpp:59-62 | the three bare tokens replaced in source order; `BareRoundSeparated`, `PlainPrefix` and the token lemmas state what it does |
| ProcessLauncher.BuildCommand | src/backend/ProcessLauncher.cpp:34-64 | the launch command as a function of the template and the ROM path; `CreateLaunchCommand` is proved equal to it, and the lemmas below state its properties |
| ProcessLauncher.CreateLaunchCommand | src/backend/ProcessLauncher.cpp:27-65 | the map's values are prepared in key order by the loop, and the six replacements then give the command described by `BuildCommand`: the quoted round, then the bare round, over the prepared path and the prepared complete base name |
| ProcessLauncher.QuotedTokensWrapBareOnes | src/backend/ProcessLauncher.cpp:54-62 | each quoted token is its bare token between two quotes |
| ProcessLauncher.RomNotInRomRaw | src/backend/ProcessLauncher.cpp:60-61 | `%ROM%` does not occur in `%ROM_RAW%`, so replacing `%ROM%` first leaves `%ROM_RAW%` intact |
| ProcessLauncher.QuotedRomNotInQuotedRomRaw | src/backend/ProcessLauncher.cpp:55-56 | `"%ROM%"` does not occur in `"%ROM_RAW%"`, so the quoted round's order is harmless |
| ProcessLauncher.QuotedTokensNotInBareOnes | src/backend/ProcessLauncher.cpp:54-62 | no quoted token occurs inside a bare token |
| ProcessLauncher.RomTokensNotInBaseNameOnes | src/backend/ProcessLauncher.cpp:54-62 | no ROM token, bare or quoted, occurs inside the matching base-name token |
| ProcessLauncher.NoPercentNoToken | src/backend/ProcessLauncher.cpp:54-62 | a string without '%' contains none of the six tokens |
| ProcessLauncher.PrepareNoPercent | src/backend/ProcessLauncher.cpp:41-49 | preparation adds no '%' |
| ProcessLauncher.PreparedValuesTokenFree | src/backend/ProcessLauncher.cpp:34-49 | for a ROM path without '%', neither prepared value holds a '%' |
| ProcessLauncher.UnknownTokensPassThrough | src/backend/ProcessLauncher.cpp:52-64 | a template containing none of the three bare tokens comes back unchanged, whatever other `%...%` words it holds |
| ProcessLauncher.RomTokenAlone | src/backend/ProcessLauncher.cpp:55-60 | `%ROM%` and `"%ROM%"` both become exactly the prepared path: the quoted token is replaced together with its quotes |
| ProcessLauncher.RomRawTokenAlone | src/backend/ProcessLauncher.cpp:56-61 | `%ROM_RAW%` and `"%ROM_RAW%"` become the same prepared path as `%ROM%` |
| ProcessLauncher.BaseNameTokenAlone | src/backend/ProcessLauncher.cpp:62 | `%BASENAME%` becomes exactly the prepared complete base name of the path |
| ProcessLauncher.QuotedBaseNameTokenAlone | src/backend/ProcessLauncher.cpp:57 | `"%BASENAME%"` becomes exactly the prepared complete base name, its quotes consumed |
| ProcessLauncher.BareRoundAloneKeepsQuotes | src/backend/ProcessLauncher.cpp:53-62 | without the quoted round, `"%ROM%"` would keep its quotes around the inserted path. This is why the quoted forms are replaced first |
| ProcessLauncher.BareRomInsideQuotes | src/backend/ProcessLauncher.cpp:60 | replacing `%ROM%` inside `"%ROM%"` leaves the surrounding quotes in place |
| ProcessLauncher.QuotedRoundSeparated | src/backend/ProcessLauncher.cpp:54-57 | the quoted round acts separately on whitespace-separated parts of the template |
| ProcessLauncher.BareRoundSeparated | src/backend/ProcessLauncher.cpp:59-62 | the bare round acts separately on whitespace-separated parts of the template |
| ProcessLauncher.SeparatedArguments | src/backend/ProcessLauncher.cpp:52-64 | the command for a template is the concatenation of the commands for its whitespace-separated parts |
| ProcessLauncher.PlainPrefix | src/backend/ProcessLauncher.cpp:52-64 | template text before the tokens that holds neither '%' nor a quote, such as the program name, is copied unchanged, and the rest is substituted as on its own |
| ProcessLauncher.QuotedRomThenFlags | src/backend/ProcessLauncher.cpp:55-60 | for a '%'-free path, `"%ROM%"` followed by flags that hold no '%' and start with whitespace becomes the prepared path followed by the same flags |
| ProcessLauncher.QuotedRomArgument | src/backend/ProcessLauncher.cpp:52-64 | for a '%'-free path, a template `w "%ROM%" flags`, with `w` free of '%' and quotes and flags that hold no '%' and start with whitespace, becomes `w`, the prepared path, then the flags |
| ProcessLauncher.SpacedPathWrapped | src/backend/ProcessLauncher.cpp:45-60 | a path with whitespace but no quote or '%' is inserted for `%ROM%` wrapped in one pair of quotes |
| ProcessLauncher.PlainPathEscaped | src/backend/ProcessLauncher.cpp:43-55 | a path without whitespace and without '%' is inserted for `"%ROM%"` with its quotes tripled and no wrapping quotes |
| ProcessLauncher.TripleQuotesAround | src/backend/ProcessLauncher.cpp:43 | a quote between two quote-free parts is tripled in place |
| ProcessLauncher.PrepareQuoteInside | src/backend/ProcessLauncher.cpp:41-49 | a whitespace-free value holding one quote is prepared by tripling that quote only |
| ProcessLauncher.QuotedFileStem | src/backend/ProcessLauncher.cpp:36 | for `dir + x + '"' + y + "." + ext` with `dir` empty or ending in '/', none of `dir`, `x`, `y`, `ext` holding '%', none of `x`, `y`, `ext` holding '/', and `ext` free of '.', the complete base name is `x + '"' + y` and the path holds no '%' |
| ProcessLauncher.BaseNameOfQuotedFile | src/backend/ProcessLauncher.cpp:36-62 | the base name is taken from the raw path and prepared on its own: whitespace in the directory does not make `%BASENAME%` quoted, and a quote in the file name is tripled |
| ProcessLauncher.ExampleSpacedPath | src/backend/ProcessLauncher.cpp:45-60 | `%ROM%` with `/games/my game.rom` gives the path in quotes |
| ProcessLauncher.ExampleEmulatorTemplate | src/backend/ProcessLauncher.cpp:41-64 | `emulator "%ROM%" --fullscreen` with `/games/my game.rom` gives `emulator "/games/my game.rom" --fullscreen` |
| ProcessLauncher.ExampleQuotedTokenWithFlag | src/backend/ProcessLauncher.cpp:43-55 | `"%ROM%" --flag` with `C:\g\a"b.rom` gives `C:\g\a"""b.rom --flag`, with no wrapping quotes |
| ProcessLauncher.ExampleBaseNamePreparedOnItsOwn | src/backend/ProcessLauncher.cpp:36-62 | `%BASENAME%` with `/my games/a"b.rom` gives `a"""b`, unwrapped |
| ProcessLauncher.ReplaceLeadingBaseNameToken | src/backend/ProcessLauncher.cpp:62 | `%BASENAME%` at the head of a string is replaced, and a rest that starts with '/' and holds no '%' is kept unchanged after it |
| ProcessLauncher.TokenPathPrepared | src/backend/ProcessLauncher.cpp:34-49 | for a plain `name` (no '.', '%', quote, whitespace or '/'), the path `%BASENAME%/name` and its complete base name `name` are both unchanged by preparation |
| ProcessLauncher.RomRawNotInTokenPath | src/backend/ProcessLauncher.cpp:61 | replacing `%ROM_RAW%` leaves a path `%BASENAME%` + a '%'-free rest starting with a separator unchanged |
| ProcessLauncher.InsertedValueIsSubstitutedAgain | src/backend/ProcessLauncher.cpp:59-62 | the replacement of `%BASENAME%` runs over the path inserted for `%ROM%`, so for a plain `name` (no '.', '%', quote, whitespace or '/'), `%ROM%` with the path `%BASENAME%/name` gives `name/name` |
| ProcessLauncher.ExampleInsertedValueIsSubstitutedAgain | src/backend/ProcessLauncher.cpp:59-62 | `%ROM%` with the path `%BASENAME%/c` gives `c/c` |

## Left out

- `launchGame`, `runProcess` and the QProcess wiring (src/backend/ProcessLauncher.cpp:13-25, 67-85): these start an operating-system process and emit Qt signals. The model has no processes.
- The process-event handlers (src/backend/ProcessLauncher.cpp:87-139): they only log and emit signals, including the `CrashExit` case that falls through to `Q_UNREACHABLE`.
- `qDebug`/`qInfo` logging and `tr` translation: output only, with no effect on the command.
- `Model::Platform` and `Model::Game` are not part of this model. The two fields read from them (the launch-command template and the ROM path) are the method's parameters.
- QFileInfo is not part of this model. `fileName` and `completeBaseName` follow Qt's documented behaviour for `/`-separated paths. Windows separators, drive letters and the file-system lookups of QFileInfo are not modelled.
- The `\s` of line 40 is compiled without Unicode properties, so it matches exactly the six ASCII whitespace characters (space, tab, line feed, vertical tab, form feed, carriage return); `IsWhitespace` has exactly these.
- ProcessLauncher.Unprepare: reads a prepared value back as if QProcess split only at the six ASCII characters. QProcess splits unquoted text at every `QChar::isSpace` character (`IsQProcessSpace`), including U+00A0 and U+3000. A path whose only space is such a character is not wrapped by lines 45-46 (`IdeographicSpaceNotWrapped`), and QProcess would split it. So `PrepareRoundTrip` describes QProcess only for values without those Unicode spaces.
- QtString.ReplaceAll: requires a non-empty pattern. Every call in the source passes a non-empty constant, so Qt's behaviour for an empty pattern is not modelled.
- ProcessLauncher.RomTokenAlone: requires a path without '%'. The code re-substitutes tokens inside inserted values, and `InsertedValueIsSubstitutedAgain` covers that case instead.
- ProcessLauncher.RomRawTokenAlone: requires a path without '%'. The code re-substitutes tokens inside inserted values, and `InsertedValueIsSubstitutedAgain` covers that case instead.
- ProcessLauncher.BaseNameTokenAlone: requires a path without '%'. The code re-substitutes tokens inside inserted values, and `InsertedValueIsSubstitutedAgain` covers that case instead.
- ProcessLauncher.QuotedBaseNameTokenAlone: requires a path without '%'. The code re-substitutes tokens inside inserted values, and `InsertedValueIsSubstitutedAgain` covers that case instead.
- ProcessLauncher.PlainPathEscaped: requires a path without '%'. The code re-substitutes tokens inside inserted values, and `InsertedValueIsSubstitutedAgain` covers that case instead.
- ProcessLauncher.SpacedPathWrapped: requires a path without '%'. The code re-substitutes tokens inside inserted values, and `InsertedValueIsSubstitutedAgain` covers that case instead.
- ProcessLauncher.QuotedRomThenFlags: requires a path without '%'. The code re-substitutes tokens inside inserted values, and `InsertedValueIsSubstitutedAgain` covers that case instead.
- ProcessLauncher.QuotedRomArgument: requires a path without '%'. The code re-substitutes tokens inside inserted values, and `InsertedValueIsSubstitutedAgain` covers that case instead.
