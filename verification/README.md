# Slurpy in Dafny

Slurpy is a PHP wrapper around pdftk. It builds the pdftk command line from typed pieces, runs it and reports whether it failed. This project models the parts that decide what that command line is, as pure functions over immutable datatypes:

- **The command assembler** (`Slurpy`). It keeps a registry of the eleven global options pdftk accepts, the input files, the output path and one operation. It checks option names, merges per-call overrides, and serialises the lot as `binary HANDLE=path… [input_pw HANDLE=pw…] [name 'arg'…] output path [option ['value'…]]…`. When the operation has a standard input, the command is prefixed with `echo '<stdin>' | `. It also classifies the exit status and stderr of a run.
- **The operations** (`Operations`). `cat`, `shuffle`, `background`/`multibackground`, `stamp`/`multistamp`, `fill_form`, `generate_fdf`, `burst`, the four `dump_data` variants, `unpack_files`, `update_info`(`_utf8`), `attach_files`, and the operation with no name. They form one closed datatype with a name, an argument list and an optional standard input.
- **Page ranges** (`PageRanges`). This is pdftk's `HANDLE[start[-end]][qualifier][rotation]` syntax. Each setter validates its part, and serialisation depends on which parts are set. `PageRangeSyntax` is an independent reader of that syntax. It proves serialisation can be read back.
- **Form data** (`Forms`, `Markup`). An insertion-ordered field map with add-only and set-only updates. It renders as an XFDF document, and a reader for that document proves the rendering shows every field.
- **Input files** (`InputFiles`). A path, a handle and an optional password.
- **The factory** (`Factory`). It builds a ready wrapper for each operation from loosely described inputs. It gives the k-th input the two-letter handle of k in base 26.
- **Shell reading** (`Shell`, `CommandWords`). Most of the command goes into a shell string unquoted, and only arguments and option values go through `escapeshellarg`. `Shell` models POSIX single-quote escaping together with a reader for the words a shell would split the line into. `CommandWords` proves that, for paths, handles and passwords made of shell-safe characters, pdftk receives exactly the intended argument vector.

Supporting modules:
- `Results`: error, result and batch outcome types.
- `Text`: character classes, joining, decimal numerals.
- `OrderedMaps`: PHP's ordered string-keyed arrays.
- `Host`: the clock and the MD5 digest, passed in as parameters.

`CommandExamples` restates the command-building test vectors.

## Model

| member | source | states |
|---|---|---|
| Slurpy.AddOption | src/Shuble/Slurpy/Slurpy.php:432-441 | registering an option fails with a duplicate error iff the name is already registered; otherwise the name is appended at the end with its default, and every other option and the rest of the wrapper are unchanged |
| Slurpy.AddOptionsFresh | src/Shuble/Slurpy/Slurpy.php:413-420 | registering distinct new names in turn never fails, appends exactly those names in order and gives each its own default, leaving the rest of the wrapper as it was |
| Slurpy.OthersKept | src/Shuble/Slurpy/Slurpy.php:413-420 | registering a batch leaves every name outside the batch with the value it had |
| Slurpy.RegisteredDefaults | src/Shuble/Slurpy/Slurpy.php:413-420 | registering distinct names on an empty wrapper yields exactly those names in that order, without duplicates, all unset |
| Slurpy.Configured | src/Shuble/Slurpy/Slurpy.php:314-329 | a configured wrapper registers exactly the eleven pdftk options in their fixed order, each once and all unset, with no inputs, output or operation |
| Slurpy.OptionNamesDistinct | src/Shuble/Slurpy/Slurpy.php:316-328 | the eleven registered names are pairwise distinct, so registration never fails |
| Slurpy.SetOption | src/Shuble/Slurpy/Slurpy.php:173-182 | setting an option fails with an unknown-option error iff the name is not registered; otherwise only that option's value changes, and the names and their order are kept |
| Slurpy.Assign | src/Shuble/Slurpy/Slurpy.php:455-460 | one override on an option map: it fails iff the key is unknown; otherwise the keys are kept, only that key's value changes, and keys stay unique |
| Slurpy.SameKeys | src/Shuble/Slurpy/Slurpy.php:456-460 | an accepted override leaves the set of registered names unchanged |
| Slurpy.AssignAllFails | src/Shuble/Slurpy/Slurpy.php:455-461 | a batch of overrides goes through iff every name is registered; when it stops, it stops at the first unknown name, with every earlier name registered |
| Slurpy.AssignAllOverrides | src/Shuble/Slurpy/Slurpy.php:453-463 | when every name is registered, the result keeps the key order and holds, for each key, the last override given for it, or else its stored value |
| Slurpy.AssignAllStops | src/Shuble/Slurpy/Slurpy.php:455-461 | a batch of overrides that stops leaves the map as the batch cut just before the unknown name would, applied in full |
| Slurpy.SetOptions | src/Shuble/Slurpy/Slurpy.php:154-161 | setting several options changes only the option map and keeps its names; it goes through iff every name is registered, otherwise it stops at the first unknown name; each option then holds the last value given for it among the names before the stop, or else its old value |
| Slurpy.MergeOptions | src/Shuble/Slurpy/Slurpy.php:451-464 | merging succeeds iff every override names a registered option; the merged map keeps the stored key order and takes the last override per key, the wrapper itself is untouched, and a failure names the first unknown key |
| Slurpy.New | src/Shuble/Slurpy/Slurpy.php:66-76 | construction succeeds iff every given option is one of the eleven, and otherwise fails naming the first given option that is not; the options are then the eleven in order with the given values over unset defaults, and binary, inputs, output and operation are as given |
| Slurpy.SetBinary | src/Shuble/Slurpy/Slurpy.php:85-90 | the binary is replaced and nothing else changes |
| Slurpy.AddInput | src/Shuble/Slurpy/Slurpy.php:111-116 | the input is appended after the existing ones and nothing else changes |
| Slurpy.SetInputs | src/Shuble/Slurpy/Slurpy.php:102-109 | the inputs are appended in order after the existing ones and nothing else changes |
| Slurpy.SetOperation | src/Shuble/Slurpy/Slurpy.php:123-126 | the operation is replaced and nothing else changes |
| Slurpy.SetOutput | src/Shuble/Slurpy/Slurpy.php:133-138 | the output is replaced and nothing else changes |
| Slurpy.PasswordsIffSome | src/Shuble/Slurpy/Slurpy.php:347-358 | the ` input_pw` clause is present iff at least one input has a password |
| Slurpy.GetCommand | src/Shuble/Slurpy/Slurpy.php:206-211 | the command is produced iff the overrides merge, and a merge failure is passed on unchanged |
| Slurpy.Generate | src/Shuble/Slurpy/Slurpy.php:213-225 | generation fails first for missing inputs, then for a missing output; with both set, it is the command of the merged options, or the error naming the first unregistered option |
| Slurpy.CheckProcessStatus | src/Shuble/Slurpy/Slurpy.php:241-252 | a run fails iff its exit status is non-zero and stderr is non-empty, and the error carries status, stdout, stderr and command |
| Slurpy.Run | src/Shuble/Slurpy/Slurpy.php:213-229 | a precondition failure is reported before anything runs; otherwise the generated command is executed and the run fails iff the executor reports a non-zero status with non-empty stderr |
| Slurpy.NoopIsNoOperation | src/Shuble/Slurpy/Slurpy.php:361-376 | the operation without a name builds the same command as no operation at all, so it never adds arguments or an `echo` pipe |
| Slurpy.StatusExamples | tests/Shuble/Slurpy/Tests/SlurpyTest.php:319-355 | status 0 passes, status 1 with empty stderr passes, status 1 with stderr fails |
| CommandWords.BuildCommandWords | src/Shuble/Slurpy/Slurpy.php:342-402 | for shell-safe paths, handles, passwords and option names, the command is an optional `echo` of the operation's standard input piped into a line. The shell splits that line into exactly the binary, `HANDLE=path` per input in order, `input_pw` and the `HANDLE=password` pairs when any input has a password, the operation's name and arguments when it has a name, `output` and the path, then for each option in map order nothing when unset or false, its name when true, and its name followed by its value or values otherwise |
| CommandWords.GeneratedWords | src/Shuble/Slurpy/Slurpy.php:206-229 | what a successful generation runs is that command over the merged options, with the same argument vector |
| CommandWords.ConfiguredKeysPlain | src/Shuble/Slurpy/Slurpy.php:314-329 | every registered option name can go into the command unquoted |
| CommandWords.UnquotedPathSplits | src/Shuble/Slurpy/Slurpy.php:348-349 | because an input path goes into the command unquoted, a path containing a blank reaches pdftk as two words |
| CommandWords.AssembleNamed | src/Shuble/Slurpy/Slurpy.php:361-379 | with a named operation, the command is the pipe prefix, then the inputs and passwords, then the operation clause, then the output and the options |
| CommandWords.AssembleUnnamed | src/Shuble/Slurpy/Slurpy.php:361-379 | with no operation, or one without a name, the command is the inputs and passwords followed directly by the output and the options |
| CommandExamples.PlainCommandExample | tests/Shuble/Slurpy/Tests/SlurpyTest.php:259-266 | with no operation, password or option, the command is `thebinary HANDLE=/path output /the/output/path` |
| CommandExamples.PasswordCommandExample | tests/Shuble/Slurpy/Tests/SlurpyTest.php:267-274 | a password adds ` input_pw HANDLE=pa$$w0rd` after the inputs |
| CommandExamples.FlagCommandExample | tests/Shuble/Slurpy/Tests/SlurpyTest.php:276-282 | a flag that is on adds its bare name at the end |
| CommandExamples.PipedQuietExamples | tests/Shuble/Slurpy/Tests/SlurpyTest.php:284-298 | an operation with standard input is preceded by `echo 'foobar' \| `, and unset or false options add nothing |
| CommandExamples.PipedValueExample | tests/Shuble/Slurpy/Tests/SlurpyTest.php:300-306 | a single option value is quoted after the option name |
| CommandExamples.PipedCommandExample | tests/Shuble/Slurpy/Tests/SlurpyTest.php:308-314 | operation arguments and list option values are each quoted and joined by blanks |
| Shell.Escape | src/Shuble/Slurpy/Slurpy.php:366 | an escaped argument is always wrapped in single quotes |
| Shell.EscapeIsOneWord | src/Shuble/Slurpy/Slurpy.php:366 | the shell reads an escaped text back as exactly that text, as a single word, whatever quotes and blanks it contains |
| Shell.ReadEscaped | src/Shuble/Slurpy/Slurpy.php:394-395 | an escaped text followed by a blank or the end of the line is read back as that text, and reading resumes right after it |
| Shell.EscapePlain | src/Shuble/Slurpy/Slurpy.php:366 | text without quotes is escaped by wrapping it in quotes and nothing else |
| Shell.WordsOfLine | src/Shuble/Slurpy/Slurpy.php:366 | a line of blank-prefixed pieces, quoted or safe, reads back as the pieces' texts in order |
| Shell.WordsOfLineThen | src/Shuble/Slurpy/Slurpy.php:344-398 | the words of pieces followed by the rest of a command are the pieces' texts followed by that rest's words |
| Shell.JoinEscapedIsLine | src/Shuble/Slurpy/Slurpy.php:366-367 | blank-joining escaped arguments forms a line of quoted pieces, one per argument |
| Shell.JoinPlainIsLine | src/Shuble/Slurpy/Slurpy.php:357 | blank-joining the password pairs forms a line of unquoted pieces, one per pair |
| Shell.LineAppend | src/Shuble/Slurpy/Slurpy.php:344-398 | the line of two piece lists is the concatenation of their lines |
| Operations.NamesArePlainWords | src/Shuble/Slurpy/Operation/OperationNoop.php:11-14 | only the no-name operation lacks a name, and every name is a word the shell passes unchanged |
| Operations.NameDeterminesKind | src/Shuble/Slurpy/Operation/DumpDataOperation.php:37-50 | two operations have the same name iff they are the same operation with the same multi, fields and utf8 flags |
| Operations.DumpDataName | src/Shuble/Slurpy/Operation/DumpDataOperation.php:37-50 | the dump-data name is `dump_data`, then `_fields` if set, then `_utf8` if set, whichever setter ran first |
| Operations.Defaults | src/Shuble/Slurpy/Operation/BaseOperation.php:13-25 | before their setters run, the operations carry their plain names, no ranges or files, a single empty file argument where they take a file, and no standard input |
| Operations.RangeArguments | src/Shuble/Slurpy/Operation/CatOperation.php:90-93 | the arguments of `cat` and `shuffle` are their ranges' serialisations, one per range in order, and each range that is well formed with strict page tokens reads back as the parts it shows |
| Operations.AttachArguments | src/Shuble/Slurpy/Operation/AttachFilesOperation.php:127-137 | the attached files come first, as given; `to_page` and the page number follow iff a page is set, and the number reads back as the page, a negative one after a leading minus sign |
| Operations.StdinShowsForm | src/Shuble/Slurpy/Operation/FillFormOperation.php:74-80 | only a form fill with form fields has a standard input, which, with a digest printed as 32 lower-case hex digits, is an XFDF document showing the fields, the digest of `bla`, the current time and `bla` |
| Operations.AddPageRange | src/Shuble/Slurpy/Operation/CatOperation.php:70-75 | adding a range keeps the name and appends its serialisation to the arguments |
| Operations.SetPageRanges | src/Shuble/Slurpy/Operation/ShuffleOperation.php:44-49 | setting ranges keeps the name and makes the arguments exactly the serialisations of the new ranges |
| Operations.SetMulti | src/Shuble/Slurpy/Operation/BackgroundOperation.php:73-78 | the arguments are kept, and the name starts with `multi` iff the flag is set |
| Operations.SetFile | src/Shuble/Slurpy/Operation/StampOperation.php:85-90 | setting the background or stamp file keeps the name, and the arguments become exactly that file |
| Operations.SetFormData | src/Shuble/Slurpy/Operation/FillFormOperation.php:32-37 | with a data file, the argument is that path and there is no standard input; with form fields, the argument is `-` and there is a standard input |
| Operations.SetInfoFile | src/Shuble/Slurpy/Operation/UpdateInfoOperation.php:68-73 | the update-info name is kept, and the arguments become exactly the data file |
| Operations.SetDumpFields | src/Shuble/Slurpy/Operation/DumpDataOperation.php:59-64 | dump-data has no arguments, and its kind changes iff the fields flag changes |
| Operations.SetUtf8 | src/Shuble/Slurpy/Operation/UpdateInfoOperation.php:92-97 | the arguments are kept, and the name ends in `_utf8` iff the flag is set |
| Operations.SetFiles | src/Shuble/Slurpy/Operation/AttachFilesOperation.php:55-60 | the arguments become the new files followed by the page clause |
| Operations.AddFile | src/Shuble/Slurpy/Operation/AttachFilesOperation.php:69-74 | the file is attached after the others and before `to_page`, adding one argument |
| Operations.SetToPage | src/Shuble/Slurpy/Operation/AttachFilesOperation.php:94-102 | the files stay first, and the arguments are the files alone iff no page is set |
| PageRanges.New | src/Shuble/Slurpy/Operation/OperationArgument/PageRange.php:93-106 | construction succeeds iff the handle is one or more upper-case letters; start, end, qualifier and rotation are stored unchecked |
| PageRanges.SetFileHandle | src/Shuble/Slurpy/Operation/OperationArgument/PageRange.php:117-129 | a handle is accepted iff it is one or more upper-case letters; on acceptance only the handle changes |
| PageRanges.SetStartPage | src/Shuble/Slurpy/Operation/OperationArgument/PageRange.php:150-162 | a start page is accepted iff it is null or an optional `r` followed by `end` or a decimal without a leading zero, allowing one trailing newline; only the start page changes |
| PageRanges.SetEndPage | src/Shuble/Slurpy/Operation/OperationArgument/PageRange.php:183-195 | the same rule for the end page |
| PageRanges.SetQualifier | src/Shuble/Slurpy/Operation/OperationArgument/PageRange.php:216-229 | a qualifier is accepted iff it is null, `even` or `odd` |
| PageRanges.SetRotation | src/Shuble/Slurpy/Operation/OperationArgument/PageRange.php:252-265 | a rotation is accepted iff it is null or one of the seven directions |
| PageRanges.SetterExamples | test/Shuble/Slurpy/Operation/PageRangeTest.php:62-73 | ranges built through the constructor and setters print as `Ar1` and `Ar3-r1` |
| PageRanges.ToStringExamples | test/Shuble/Slurpy/Operation/PageRangeTest.php:75-101 | a start and end page with a rotation print as `A1-2north` and `Ar3-endnorth`, and a qualifier without an end page is dropped |
| PageRangeSyntax.ParseToString | src/Shuble/Slurpy/Operation/OperationArgument/PageRange.php:278-299 | reading the serialisation of a well-formed range, whose parts pass their setters with page tokens that do not end in a newline, gives back the handle, the start page, the end page only if a start page is set, the qualifier only if an end page is set, and the rotation |
| PageRangeSyntax.ToStringInjective | src/Shuble/Slurpy/Operation/OperationArgument/PageRange.php:278-299 | two well-formed ranges serialise alike iff they show the same parts |
| PageRangeSyntax.NewlineTokenUnread | src/Shuble/Slurpy/Operation/OperationArgument/PageRange.php:150-158 | the start-page setter accepts `1` followed by a newline, and the serialisation `A1` plus that newline does not read back |
| PageRangeSyntax.ToStringShape | src/Shuble/Slurpy/Operation/OperationArgument/PageRange.php:280-296 | the serialisation is the handle, then the start page and `-end` as set, then the qualifier when an end page is set, then the rotation |
| PageRangeSyntax.ParseTokenText | src/Shuble/Slurpy/Operation/OperationArgument/PageRange.php:152 | every accepted page token, without the trailing newline, is the text of exactly one page number, read back unchanged |
| PageRangeSyntax.TokenTextAccepted | src/Shuble/Slurpy/Operation/OperationArgument/PageRange.php:152 | every page number, forward or reverse, or `end`, prints as a token the setters accept |
| PageRangeSyntax.PageTokenExamples | test/Shuble/Slurpy/Operation/PageRangeTest.php:28-57 | `1`, `end`, `rend` and `r1` are accepted; `01`, `r01` and `start` are refused; `1` followed by a newline passes the pattern |
| Text.DecimalRoundTrip | src/Shuble/Slurpy/Operation/AttachFilesOperation.php:127-137 | a number printed in decimal reads back as the same number |
| Text.DecimalCanonical | src/Shuble/Slurpy/Operation/OperationArgument/PageRange.php:152 | a digit string without a leading zero is the printing of its own value |
| InputFiles.SetHandle | src/Shuble/Slurpy/InputFile.php:92-104 | a handle is accepted iff it is one or more upper-case letters; the path and password are kept, and a refusal leaves the file unchanged |
| InputFiles.SetFilePath | src/Shuble/Slurpy/InputFile.php:66-71 | the path is replaced and the handle and password are kept |
| InputFiles.SetPassword | src/Shuble/Slurpy/InputFile.php:123-131 | the password, or its absence, is stored as given, and the rest is kept |
| InputFiles.SettersExample | tests/Shuble/Slurpy/Tests/InputFileTest.php:12-43 | each getter returns what its setter stored, and the handle `foo` is refused |
| Forms.AddField | src/Shuble/Slurpy/Operation/OperationArgument/FormData.php:99-108 | adding fails with a duplicate error iff the field is set; otherwise the field gets the value, at the end when it was not there at all, and every other field is kept |
| Forms.SetField | src/Shuble/Slurpy/Operation/OperationArgument/FormData.php:120-129 | setting fails with an unknown-field error iff the field is not set; otherwise only its value changes, and the names and their order are kept |
| Forms.GetField | src/Shuble/Slurpy/Operation/OperationArgument/FormData.php:140-147 | reading fails iff the field is not set, and otherwise returns its stored value |
| Forms.FieldLifecycle | tests/Shuble/Slurpy/Tests/Operation/OperationArgument/FormDataTest.php:21-56 | an absent field can be neither read nor set; it can be added, then read back, and after a set it reads the new value while adding it again fails |
| Forms.NullFieldIsUnset | src/Shuble/Slurpy/Operation/OperationArgument/FormData.php:84-87 | a field added with a null value counts as absent: it cannot be read or set, and adding it again succeeds and replaces the value in place, keeping the names |
| Forms.AddFieldsStops | src/Shuble/Slurpy/Operation/OperationArgument/FormData.php:44-51 | when adding several fields stops at update k, the result is that of the first k updates alone, and field k was already set |
| Forms.SetFieldsStops | src/Shuble/Slurpy/Operation/OperationArgument/FormData.php:60-67 | when setting several fields stops at update k, the result is that of the first k updates alone, and field k was not set |
| Forms.AddFieldsFresh | src/Shuble/Slurpy/Operation/OperationArgument/FormData.php:44-51 | adding distinct absent fields never fails, appends their names in order, gives each its value and keeps every other field |
| Forms.SetFieldsPresent | src/Shuble/Slurpy/Operation/OperationArgument/FormData.php:60-67 | setting distinct present fields never fails, keeps the names and their order, gives each its value and keeps every other field |
| Forms.New | src/Shuble/Slurpy/Operation/OperationArgument/FormData.php:32-35 | a form built from distinct fields holds exactly those names in order, each once, with their values |
| Forms.Pairs | src/Shuble/Slurpy/Operation/OperationArgument/FormData.php:159-165 | each field is written under its own name and in its order, a null value as empty text |
| Forms.XfdfShowsForm | src/Shuble/Slurpy/Operation/OperationArgument/FormData.php:157-184 | with a digest printed as 32 lower-case hex digits, reading the XFDF document back gives the encoding, every field's name and value in order, the digest of the file, the given time or else the current time, and the file name |
| Forms.XfdfTextRead | src/Shuble/Slurpy/Operation/OperationArgument/FormData.php:167-181 | the document template can be read back into its encoding, fields, digest, time and file name |
| Markup.XmlEscape | src/Shuble/Slurpy/Operation/OperationArgument/FormData.php:160-164 | escaped text contains no `<`, `>` or `"` |
| Markup.XmlRoundTrip | src/Shuble/Slurpy/Operation/OperationArgument/FormData.php:160-164 | unescaping escaped text gives back the text |
| Markup.FieldsRoundTrip | src/Shuble/Slurpy/Operation/OperationArgument/FormData.php:159-166 | the concatenated field elements read back as the same fields in the same order, and reading stops where they end |
| Markup.ReadField | src/Shuble/Slurpy/Operation/OperationArgument/FormData.php:160-164 | one field element reads back as its name and value |
| Factory.GenerateFileHandle | src/Shuble/Slurpy/Factory.php:368-371 | a generated handle is always two upper-case letters, so it always passes the handle check |
| Factory.HandleRoundTrip | src/Shuble/Slurpy/Factory.php:368-371 | a handle's base-26 value is its index modulo 676 |
| Factory.HandleFromIndex | src/Shuble/Slurpy/Factory.php:368-371 | every two-letter handle is generated by some index |
| Factory.HandlesDistinct | src/Shuble/Slurpy/Factory.php:362-371 | two indices get the same handle iff they agree modulo 676, so handles are unique only below 676 |
| Factory.HandleExamples | src/Shuble/Slurpy/Factory.php:368-371 | 0 gives `AA`, 1 `AB`, 26 `BA`, 675 `ZZ`, and 676 wraps to `AA` |
| Factory.IfGiven | src/Shuble/Slurpy/Factory.php:353-356 | an optional entry is taken iff it is present and not empty in PHP's sense, neither `""` nor `"0"` |
| Factory.GetSlurpy | src/Shuble/Slurpy/Factory.php:323-330 | a fresh wrapper has the eleven options unset, the binary and output given, and no inputs or operation |
| Factory.GetInputFile | src/Shuble/Slurpy/Factory.php:332-349 | the file gets the index's handle; a bare path has no password; a description gives its path, and its password iff that is non-empty |
| Factory.GetPageRange | src/Shuble/Slurpy/Factory.php:351-359 | a range is built iff the handle is valid; a bare path gives the handle alone, and a description takes each part only when non-empty, unvalidated |
| Factory.AddOperandsFails | src/Shuble/Slurpy/Factory.php:84-94 | adding inputs succeeds iff none lacks a path, and otherwise fails with the missing-path error |
| Factory.AddOperandsAppends | src/Shuble/Slurpy/Factory.php:84-94 | the k-th input and the k-th page range are appended in the same order under the same handle, and nothing else changes |
| Factory.Cat | src/Shuble/Slurpy/Factory.php:77-97 | `cat` succeeds iff no input lacks a path; it then collects the inputs under handles AA, AB, … and one range per input under the same handle, with the given binary and output |
| Factory.Shuffle | src/Shuble/Slurpy/Factory.php:99-119 | the same for `shuffle` |
| Factory.Single | src/Shuble/Slurpy/Factory.php:147-161 | a single-input builder succeeds iff the input has a path, and then holds that one input under `AA` with the given operation, binary and output |
| Factory.Background | src/Shuble/Slurpy/Factory.php:121-140 | the operation is a background with the given file and multi flag |
| Factory.MultiBackground | src/Shuble/Slurpy/Factory.php:142-145 | the operation is a background with the multi flag set, named `multibackground` |
| Factory.Burst | src/Shuble/Slurpy/Factory.php:147-161 | the operation is `burst` |
| Factory.GenerateFdf | src/Shuble/Slurpy/Factory.php:163-177 | the operation is `generate_fdf` |
| Factory.FillForm | src/Shuble/Slurpy/Factory.php:179-201 | it fails iff the input has no path; otherwise the wrapper has that one input and an operation filling the form from the data file, the fields given or the form already built, the `flatten` option is the given flag, and every other option stays unset |
| Factory.Source | src/Shuble/Slurpy/Factory.php:189-195 | a path stays a data file, an array of fields becomes a form holding exactly those fields in order, and a form already built is passed on as it is |
| Factory.FlattenRegistered | src/Shuble/Slurpy/Factory.php:198 | `flatten` is a registered option, so the fill-form builder can always set it |
| Factory.Stamp | src/Shuble/Slurpy/Factory.php:203-222 | the operation is a stamp with the given file and multi flag |
| Factory.Multistamp | src/Shuble/Slurpy/Factory.php:224-227 | the operation is a stamp with the multi flag set, named `multistamp` |
| Factory.DumpData | src/Shuble/Slurpy/Factory.php:229-248 | the operation is dump-data with the given fields and utf8 flags |
| Factory.DumpDataFields | src/Shuble/Slurpy/Factory.php:250-253 | the operation is named `dump_data_fields` |
| Factory.DumpDataUtf8 | src/Shuble/Slurpy/Factory.php:255-258 | the operation is named `dump_data_utf8` |
| Factory.DumpDataFieldsUtf8 | src/Shuble/Slurpy/Factory.php:260-263 | the operation is named `dump_data_fields_utf8` |
| Factory.UnpackFiles | src/Shuble/Slurpy/Factory.php:265-279 | the operation is `unpack_files` |
| Factory.UpdateInfo | src/Shuble/Slurpy/Factory.php:281-300 | the operation is update-info with the given data file and utf8 flag |
| Factory.AttachFiles | src/Shuble/Slurpy/Factory.php:302-321 | the operation attaches the given files at the given page |
| Factory.CatExample | tests/Shuble/Slurpy/Tests/FactoryTest.php:32-57 | the two test files are added in order under `AA` and `AB`, with the password only on the second |
| Factory.CatMissingPath | tests/Shuble/Slurpy/Tests/FactoryTest.php:20-30 | an input description without a path makes `cat` fail |
| OrderedMaps.Put | src/Shuble/Slurpy/Slurpy.php:438 | writing a key gives it the value, keeps its position when present and appends it otherwise, and leaves every other key as it was |
| OrderedMaps.Get | src/Shuble/Slurpy/Slurpy.php:434 | a lookup finds a value iff the key is present, and then the value stored under it |

## Left out

- Running the command: `executeCommand` starts a process, and `prepareOutput` and the file-system wrappers touch the disk (src/Shuble/Slurpy/Slurpy.php:262-310, 467-550). The process runner is a parameter of `Slurpy.Run`. The output preparation has no counterpart, so the `overwrite` flag of `generate` is not modelled.
- The clock and MD5: `time()` and `md5()` in the XFDF document are fields of `Host.Env`. The digest is an uninterpreted function; `Host.HexDigests` states that it prints 32 lower-case hex digits, as PHP's `md5()` does, and the time is a natural number printed in decimal.
- Getters: each is a field read of the datatype.
- src/Shuble/Slurpy/PdfToolkit.php is not part of this model. It is an older copy of the wrapper that the rest of the code no longer uses.
- The burst and generate-FDF operation classes are not part of this model. Their variants carry the names `burst` and `generate_fdf` and the default empty arguments and standard input.
- PHP's loose typing:
  - option values are unset, a flag, one text or a list of texts;
  - `to_page` is an integer, printed in decimal;
  - flags are booleans;
  - a null file argument is the empty text, which `escapeshellarg` quotes as `''` in both cases;
  - the factory's input index is the position in the list, not an arbitrary array key;
  - the factory's emptiness test is the explicit `Factory.NonEmpty`, which, like PHP, treats the text `0` as empty.
- Operations.Noop: OperationNoop.php declares no `getStdin`, which OperationInterface.php:26 requires, so PHP refuses to load the class. The model gives it the evidently intended behaviour: no name, no arguments and no standard input.
- PageRangeSyntax.ParseToString: holds for strict page tokens only. Without the `D` modifier, PCRE's `$` lets the setters take a token followed by one newline (PageRange.php:152, 185), and such a text does not read back, as `PageRangeSyntax.NewlineTokenUnread` shows.
- PageRangeSyntax.ToStringInjective: holds for strict page tokens only, for the same reason.
- Operations.RangeArguments: states the read-back only for well-formed ranges with strict page tokens, for the same reason.
- The `echo` pipe: pdftk's standard input is what `echo` prints, which is the text plus a newline. Under a shell whose `echo` expands backslash escapes, such as dash, a backslash in a field value also changes it. The model states the text handed to `echo`, `Operations.Stdin`.
- Factory.FillForm: requires the form fields to have distinct names. A PHP array key cannot repeat, so the source never receives duplicates.
- Character sets: `htmlspecialchars` and `escapeshellarg` work on characters here, with no encoding or locale. Single quotes are left as they are, following the default flags of PHP before version 8.1.
- Shell.Words: reads only what the command uses, namely blanks, single-quoted text and unquoted safe characters. It does not read the `|` or `echo` of the pipe prefix, so `CommandWords.BuildCommandWords` reads the part after it.
- CommandWords.BuildCommandWords: states the argument vector only when paths, handles, passwords and the binary hold only shell-safe characters, and the binary is neither a word holding `=`, which the shell reads as a `NAME=value` variable assignment, nor a reserved word such as `if` or `time`, which it reads as syntax. Aliases and functions of the same name as the binary are not modelled. `CommandWords.UnquotedPathSplits` shows what a blank does otherwise.
- CommandExamples: the test vectors are stated as concatenations of their segments, each segment pinned by its own lemma, rather than as one literal string.
- OperationInterface.php has no behaviour of its own. It is the shape of `Operations.Invocation`.
