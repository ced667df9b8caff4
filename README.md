# PDFGenerator in Dafny

A model of `PDFGenerator`, the PHP class that drives the wkhtmltopdf binary.
The class keeps an insertion-ordered option table, an output mode, an input
and an output file name and a registry of temp files. `buildCommandlineArguments`
turns that state into the argument string for the binary, and
`generate`/`streamToClient` run the binary and clean up.

The project has four modules:

- `ShellQuoting` (`shell_quoting.dfy`): `escapeshellarg` as PHP implements it on POSIX
  systems. Its partner is a word lexer for the part of the POSIX Shell Command Language
  that reads such a string back: blanks, single quotes and backslashes (sections 2.2.1,
  2.2.2 and 2.3). The lexer gets stuck on anything outside that subset.
- `OptionArray` (`option_array.dfy`): the option table as a PHP array with string keys.
  Assigning to an existing key replaces its value in place. Assigning to a new key appends
  the entry.
- `CommandLine` (`command_line.dfy`): the argument string the loop of
  `buildCommandlineArguments` builds. Its partner is a reference argument vector, and the
  model proves that the shell splits the string into exactly that vector.
- `PdfGenerator` (`pdf_generator.dfy`): the class itself, with its fields and methods.
  The module `PdfGeneratorUsage` in the same file replays the example from the class's doc
  comment.

The environment is abstracted:

- `tempnam('/tmp', 'pdf')` is an injective oracle `nat -> string`, fixed at construction.
  A counter field records how many names have been taken.
- `file_put_contents`, the download headers, `passthru` and `unlink` are appended to an
  `effects` log, so their order can be stated.
- The binary's exit code is a method parameter.

Three quirks of the code are modelled as written:

- `generate` assigns download mode where it meant to compare (`PDFGenerator.php:56`).
  Line 56 is only reached after `outputFilename()` has returned `-`, which happens only in
  download mode (see the next item). By then the mode is already download, so the
  assignment changes nothing, and the test is true. The `exec` branch is dead, and the
  headers and `passthru` follow whenever line 56 is reached. Outside download mode
  `generate` fails at line 52, before line 56: no headers, no binary, no cleanup, and the
  mode is left as it was.
- `outputFilename()` in any mode other than download reaches the undeclared
  `self::$FILE` (`PDFGenerator.php:142`). Building the arguments then fails with a PHP
  `Error`, here `Failure(UndeclaredStaticProperty)`.
- The `.pdf` name that `setOutputMode('temp_file')` takes from tempnam is never
  registered for cleanup (`PDFGenerator.php:82`).

Four more behaviours of the code, modelled as written:

- The temp-file output is not registered, so it is not deleted.
- Every `setInputHTML` call registers its file, so a second call does not leak the first
  file: both are deleted.
- `cleanupTempFiles` unlinks the files but keeps the registry. A second `generate`
  unlinks the same paths again.
- When the binary runs, it runs through `passthru`, so `stdout` is never set. The failure
  exception carries a fixed message either way (`PDFGenerator.php:69`).

## Model

| member | source | states |
|---|---|---|
| ShellQuoting.QuoteBody | PDFGenerator.php:166 | The quoted body is never shorter than the value and equals it when the value holds no single quote |
| ShellQuoting.EscapeShellArg | PDFGenerator.php:166 | `escapeshellarg` wraps the value in single quotes: the result is at least two longer, starts and ends with `'`, and is exactly `'value'` when the value holds no quote |
| ShellQuoting.RunQuoteChar | PDFGenerator.php:166 | Inside single quotes, one quoted character, a `'` written as `'\''` included, adds exactly that character and stays inside the quotes |
| ShellQuoting.RunQuoteBody | PDFGenerator.php:166 | Inside single quotes, the shell reads the quoted body as exactly the original value, including each `'\''` |
| ShellQuoting.RunEscaped | PDFGenerator.php:166 | Outside quotes, an escaped value continues the current shell word with exactly the original value |
| ShellQuoting.EscapeRoundTrip | PDFGenerator.php:147-150 | Shell-unquoting `escapeshellarg(s)` gives one word, namely `s`, for every string |
| ShellQuoting.EscapeInjective | PDFGenerator.php:170-171 | Distinct values escape to distinct arguments |
| OptionArray.Get | PDFGenerator.php:101 | A lookup is absent exactly when no entry has the key; otherwise it is the value stored under the key |
| OptionArray.Put | PDFGenerator.php:100-102 | An assignment keeps keys distinct. A new key is appended at the end. An existing key's entry changes value in place, with length and every other entry unchanged. Afterwards the key maps to the value and every other key maps to what it did |
| OptionArray.PutAt | PDFGenerator.php:101 | Assigning to the key at position `i` gives the entries before `i`, the new pair, then the entries after `i` |
| OptionArray.PutKeepsKeys | PDFGenerator.php:101 | An assignment adds at most one entry, and every existing entry keeps its key and its position |
| OptionArray.PutUpdate | PDFGenerator.php:101 | Assigning to the key at position `i` is the sequence update at `i`, with every other position untouched |
| OptionArray.PutOverwrite | PDFGenerator.php:100-102 | Of two assignments to one key, the later wins and the entry's position is that of the first |
| OptionArray.PutPresentCommute | PDFGenerator.php:109-121 | Assignments to two distinct keys already present commute, so re-setting page dimensions never reorders the table |
| CommandLine.RenderEntry | PDFGenerator.php:155-167 | An entry adds nothing to the argument string exactly when its value is strictly `null` or `false`; `0` and `""` are emitted |
| CommandLine.Dash | PDFGenerator.php:159 | The prefix is a single dash exactly when the option name is one character long, and two dashes otherwise |
| CommandLine.RenderEntryBlank | PDFGenerator.php:163-166 | A rendered entry starts with a blank |
| CommandLine.RenderOptionsBlank | PDFGenerator.php:153-168 | The options part is empty exactly when every value is strictly `null` or `false`. Otherwise it starts with a blank |
| CommandLine.RenderOptionsAppend | PDFGenerator.php:155-168 | The loop's output for two consecutive stretches of the table is the concatenation of their outputs, so entries appear in table order |
| CommandLine.RenderPut | PDFGenerator.php:100-102 | After `setOption`, a new key's entry is rendered last, and an existing key's entry is rendered where the key stood, with the text before and after it unchanged |
| CommandLine.SilencedKeyOmitted | PDFGenerator.php:156-157 | Setting a key to `null` or `false` renders the table as if that entry were removed; a new such key adds nothing |
| CommandLine.RunFlag | PDFGenerator.php:159-163 | A bare flag ` -k ` or ` --key ` is read by the shell as the one word `-k` or `--key` |
| CommandLine.RunValueFlag | PDFGenerator.php:164-166 | A flag followed by an escaped value is read as the flag, then the value exactly as given |
| CommandLine.RunEntry | PDFGenerator.php:155-167 | The shell reads one rendered entry as its reference arguments: none for null or false, the dashed key for `true`, otherwise the dashed key and the value. One dash is used for one-character keys and two otherwise |
| CommandLine.RunOptions | PDFGenerator.php:155-168 | The shell reads the whole options part as the reference arguments of the entries, in table order |
| CommandLine.ArgumentStringShape | PDFGenerator.php:170-172 | The argument string always starts with a blank, whatever the options. It ends with the closing quote of the escaped output name, and it is at least six characters longer than the options part |
| CommandLine.ArgumentWords | PDFGenerator.php:147-173 | The argument string "can be sent directly to the binary": the shell splits it into the emitted options in table order, then the input path, then the output path, each exactly as given |
| CommandLine.CommandStringShape | PDFGenerator.php:54 | The command starts with the binary path, unescaped, followed by two blanks (the separator and the argument string's leading one), and it ends with a quote |
| CommandLine.CommandWords | PDFGenerator.php:54 | With the binary path in front, the command's first word is the binary and the rest are the arguments above |
| PdfGenerator.Unlinks | PDFGenerator.php:199-202 | One unlink per registered path, in registry order |
| PdfGenerator.HtmlTempNameParts | PDFGenerator.php:194 | A temp input name is the tempnam result followed by `.html` |
| PdfGenerator.HtmlTempNameInjective | PDFGenerator.php:193-194 | Distinct tempnam results give distinct `.html` names |
| PdfGenerator.MarginsSet | PDFGenerator.php:132-135 | The four margin assignments keep keys distinct and move no existing key. They add at most the four margin entries |
| PdfGenerator.MarginsSetGets | PDFGenerator.php:132-135 | After the four margin assignments, each margin key holds its value and every other key is unchanged |
| PdfGenerator.PDFGenerator.TempFilesDistinct | PDFGenerator.php:37 | No temp file is registered twice |
| PdfGenerator.PDFGenerator.constructor | PDFGenerator.php:22-37 | A new generator has option table exactly `[q => true]`, download mode, the default binary, no file names and an empty registry |
| PdfGenerator.PDFGenerator.OutputFilename | PDFGenerator.php:138-145 | The output name is `-` exactly in download mode; every other mode fails on the undeclared `self::$FILE` |
| PdfGenerator.PDFGenerator.InputPath | PDFGenerator.php:170 | The input path is the registered input name when there is one. With no input set, PHP passes `null` to `escapeshellarg`, and the escaped argument is the empty word `''` |
| PdfGenerator.PDFGenerator.SetOption | PDFGenerator.php:100-102 | The table becomes the PHP assignment of the key: an existing key keeps its position and changes only its value, a new key is appended, and every other entry is unchanged |
| PdfGenerator.PDFGenerator.SetPageSize | PDFGenerator.php:109-112 | Only page-width and page-height change, to the given values |
| PdfGenerator.PDFGenerator.SetPageSizeByName | PDFGenerator.php:117-121 | page-width and page-height become null where they stand, page-size becomes the name, and nothing else changes |
| PdfGenerator.PDFGenerator.SetMargins | PDFGenerator.php:128-136 | With `r` null, all four margins take `t`. Otherwise they take `t, r, b, l`, so an omitted `b` or `l` is null and left out. Nothing else changes |
| PdfGenerator.PDFGenerator.SetOutputMode | PDFGenerator.php:78-85 | The mode is set. Only `temp_file` takes a fresh tempnam name as output name, and the registry never changes |
| PdfGenerator.PDFGenerator.GetTempFilename | PDFGenerator.php:193-197 | A fresh `.html` name is returned, not yet registered, and appended to the registry |
| PdfGenerator.PDFGenerator.SetInputHTML | PDFGenerator.php:90-93 | Exactly one fresh path is appended to the registry and becomes the input, and the HTML is written to it |
| PdfGenerator.PDFGenerator.BuildCommandlineArguments | PDFGenerator.php:152-173 | In download mode the result is the rendered options, then the escaped input path (`''` for none), then `'-'`; in any other mode it is the undeclared-property error |
| PdfGenerator.PDFGenerator.CleanupTempFiles | PDFGenerator.php:199-202 | Every registered path is unlinked once, in order, and the registry is kept |
| PdfGenerator.PDFGenerator.Generate | PDFGenerator.php:51-73 | Outside download mode the arguments fail to build: nothing happens, the mode is unchanged and the error propagates. In download mode the mode stays download, and the headers, `passthru` of the binary and unlink of every registered file happen in that order. The result is `true` exactly when the exit code is 0, otherwise an error, and never `false` |
| PdfGenerator.PDFGenerator.StreamToClient | PDFGenerator.php:43-46 | Download mode is set first, so the binary always runs with output `-`, followed by cleanup. The result follows the exit code |
| PdfGeneratorUsage.DefaultBinaryIsPlain | PDFGenerator.php:22 | The default binary path needs no quoting |
| PdfGeneratorUsage.ExampleKeys | PDFGenerator.php:8-13 | The example's table has distinct keys that need no quoting |
| PdfGeneratorUsage.PageSizeChain | PDFGenerator.php:11 | `setPageSize` on the default table appends page-width then page-height |
| PdfGeneratorUsage.MarginsChain | PDFGenerator.php:12 | `setMargins(0)` appends the four margins, each with the same value |
| PdfGeneratorUsage.ExampleBuildChain | PDFGenerator.php:9-12 | The example's calls on the default table produce any table that holds the example's seven entries in order |
| PdfGeneratorUsage.ExampleOptionsBuilt | PDFGenerator.php:9-12 | The example's calls build the table `q, page-width, page-height, margin-top, margin-right, margin-bottom, margin-left` |
| PdfGeneratorUsage.QuietArgv | PDFGenerator.php:26 | The default quiet entry gives the argument `-q` |
| PdfGeneratorUsage.ExampleArgvChain | PDFGenerator.php:8-13 | Any table holding the example's seven entries gives `-q`, both page dimensions and all four margins with their values, in table order |
| PdfGeneratorUsage.ExampleOptionsArgv | PDFGenerator.php:8-13 | The example's table gives `-q`, both page dimensions and all four margins, values included, in that order |
| PdfGeneratorUsage.ExampleCommandWords | PDFGenerator.php:8-13 | The example's command splits into the binary, those arguments, the input path and `-` |
| PdfGeneratorUsage.ConfigureExample | PDFGenerator.php:10-12 | The configuration calls call `tempnam` exactly once, register one HTML file, make it the input, write the HTML to it and build the example table. Only those fields change, so the output mode and file name stay as they were |
| PdfGeneratorUsage.ClassCommentExample | PDFGenerator.php:8-13 | The doc example's whole effect log is exactly four steps, in order: write the HTML to the one temporary `.html` file, send the download headers, run the binary once, delete that file. The shell splits the command into the binary and every margin set to the given value (so `setMargins(0)` does emit `0`), then the HTML file and `-`. The result follows the exit code |

## Left out

- `passthru` and `exec` (`PDFGenerator.php:58-61`): the binary is not run. Only its exit
  code is modelled, as a parameter. The `exec` branch and the captured `stdout` are
  unreachable, because line 56 is only reached in download mode, so that branch is not
  modelled.
- `outputPDFDownloadHeaders` (`PDFGenerator.php:175-191`): the `header()` calls and the
  `gmdate` clock are a single `SendHeaders` effect.
- `tempnam`, `file_put_contents` and `unlink` are filesystem I/O and appear as the oracle
  and effect log entries. The base file each `tempnam` call leaves behind (the name
  without `.html`/`.pdf`) is not modelled.
- `DebugException` is not part of this model. Its failure is the opaque
  `GenerationFailed` error.
- Whether an option name or value is valid for wkhtmltopdf is not modelled: the binary
  decides that, and the class does no validation.
- PHP values are modelled as null, false, true, or a value by its string form; arrays and
  objects as option values are not modelled. Integer-like keys that PHP stores as integers
  behave the same, since `strlen` of the integer is the length of its decimal form.
- Strings are sequences of characters, not bytes: `strlen` of a multi-byte key and
  `escapeshellarg`'s handling of NUL bytes and invalid multi-byte sequences are not modelled.
- The `switch` statements compare with PHP's loose `==`. The model compares modes as
  strings, and non-string modes are not modelled.
- `$DOWNLOAD` and `$TEMP_FILE` are public static and could be reassigned from outside.
  The model treats them as constants. `pathToBinary` is never changed by the class and is
  a constant here too.
- The `tempnam` oracle never fails and never repeats a name. PHP's `tempnam` returns
  `false` on failure, which would make the name just `.html` (or `.pdf`), and two such
  names would collide. `PDFGenerator.TempFilesDistinct` rests on the oracle being injective.
- `getTempFilename`'s `$ext` parameter is fixed to `html`, the only value the class uses.
- The shell lexer covers blanks, single quotes, backslashes and a conservative set of
  literal characters. Any other unquoted character makes it stuck.
- CommandLine.ArgumentWords: requires every emitted option name to be a plain word. The
  class does not escape option names, so a name with blanks or shell metacharacters would
  split into several words or be interpreted by the shell.
- CommandLine.CommandWords: also requires the binary path to be a plain word, since it is
  not escaped either.
