# ExecJS runtime layer in Dafny

This project models the embedded ExecJS port in `babeljs/execjs`. That layer
runs JavaScript either through an external engine process or in process through
PyV8, and hands the result back to Python. The model covers two parts of it.

- **The runtime layer** (`babeljs/execjs/runtime.py`):
  - `encode_unicode_codepoints`, which escapes non-ASCII characters as `\uXXXX`.
  - The single-pass placeholder substitution of `Context._compile`.
  - The JavaScript text that `Context.eval` and `Context.call` build.
  - The preamble join, newline normalisation and line selection of `Context.exec_`.
  - `_extract_result`, which turns the result line into a value, `RuntimeError` or `ProgramError`.
  - The exit-status check of `_execfile`.
  - The `_binary` memo of a `Runtime` and the availability guards on its methods.
  - The PyV8 context: its script text, the compile/run error split and the recursive `convert`.
- **The runtime registry** (`babeljs/execjs/__init__.py`):
  - An insertion-ordered table from names to runtime descriptions.
  - `register`, `get`, `runtimes`, `available_runtimes`, `_auto_detect` and `get_from_environment`.
  - The startup population: the Node candidate loop, the shared SpiderMonkey entry and the PhantomJS/SlimerJS loop.

Modules, one per file:

| module | file | contents |
|---|---|---|
| `Wrappers` | `wrappers.dfy` | `Option` |
| `Sequences` | `sequences.dfy` | small sequence identities used by the proofs |
| `PyValues` | `values.dfy` | Python values (`None`, bool, int, str, list, insertion-ordered dict with string keys) and dict assignment |
| `Errors` | `errors.dfy` | the ExecJS exceptions, the Python exceptions the code lets escape, and `Result` |
| `Numerals` | `numerals.dfy` | `'{0:04x}'` hexadecimal and decimal numerals |
| `Codepoints` | `codepoints.dfy` | `encode_unicode_codepoints` |
| `JsonText` | `jsontext.dfy` | string literals as `json.dumps` writes them, and the `json.loads` string parser |
| `JsonValues` | `jsontext.dfy` | `json.dumps` and `json.loads` of values, and their round trip |
| `Templates` | `templates.dfy` | `Context._compile` |
| `ResultProtocol` | `protocol.dfy` | the output half of `Context.exec_`, `_extract_result` and the exit-status check of `_execfile` |
| `Scripts` | `scripts.dfy` | the code text of `Context.eval` and `Context.call`, and the preamble join |
| `Utf8` | `utf8.dfy` | strict UTF-8, as `bytes.decode('utf8')` applies it |
| `Runtimes` | `runtime.dfy` | the `Runtime` and `Context` classes |
| `PyV8` | `pyv8.dfy` | `PyV8Runtime.Context` and `convert` |
| `Registry` | `registry.dfy` | the registry as the class `RuntimeTable`, plus the startup population |

Parameters stand in for the parts of the system outside this layer:

- `Which` is the PATH search `which`.
- `Process` runs an engine on a script and returns its exit status and output.
- `loads` is whatever decoder reads the result line. `JsonValues.Loads` is one such decoder, proved to invert `JsonValues.Dumps`.
- `polyfill` is the `json2_source` text.
- `engine` is the PyV8 engine, seen through its outcome.
- `Availability` is each registry entry's `is_available()`.
- The environment variable `EXECJS_RUNTIME` is an `Option<string>`.

The model follows Python 3.7 or later:
- dicts keep insertion order;
- `str.strip` uses Python 3's white-space set;
- `bytes` and `str` are distinct types, so `convert` decodes only byte strings.

## Model

| member | source | states |
|---|---|---|
| `Codepoints.EscapeCodepoint` | babeljs/execjs/runtime.py:47-50 | A character below 0x80 is kept. Any other becomes `\u` plus lowercase hex digits whose value is the code point. There are at least four digits, exactly six characters below U+10000, and no leading zero beyond four digits. The result is ASCII. |
| `Codepoints.EncodeUnicodeCodepoints` | babeljs/execjs/runtime.py:37-52 | The result is ASCII and never shorter than the input. |
| `Codepoints.AsciiUnchanged` | babeljs/execjs/runtime.py:39-43 | ASCII input is returned unchanged. |
| `Codepoints.UnchangedIffAscii` | babeljs/execjs/runtime.py:37-52 | The input is returned unchanged exactly when it is all ASCII. |
| `Codepoints.Idempotent` | babeljs/execjs/runtime.py:37-52 | Escaping escaped text changes nothing. |
| `Codepoints.EncodeAppend` | babeljs/execjs/runtime.py:52 | The substitution works character by character: it distributes over concatenation, so order is kept. |
| `Codepoints.EncodeCons` | babeljs/execjs/runtime.py:52 | The output is the escape of the first character followed by the escape of the rest. |
| `Codepoints.EscapeAt` | babeljs/execjs/runtime.py:52 | The output is the escape of the prefix, then the escape of character k, then the escape of the suffix. |
| `Codepoints.EncodePair` | babeljs/execjs/runtime.py:52 | A two-character input escapes to its two escapes, in order. |
| `Codepoints.Escape4e16` | babeljs/execjs/runtime.py:44-45 | U+4E16 escapes to `\u4e16`. |
| `Codepoints.Escape754c` | babeljs/execjs/runtime.py:44-45 | U+754C escapes to `\u754c`. |
| `Codepoints.DoctestWorld` | babeljs/execjs/runtime.py:44-45 | The docstring example: U+4E16 U+754C becomes `\u4e16\u754c`. |
| `Numerals.HexDigit` | babeljs/execjs/runtime.py:47 | A digit below 16 becomes a lowercase hex character whose value is that digit. |
| `Numerals.ToHex` | babeljs/execjs/runtime.py:47 | The hex rendering is non-empty and all lowercase hex digits. |
| `Numerals.HexValueOfToHex` | babeljs/execjs/runtime.py:47 | The hex rendering of n reads back as n. |
| `Numerals.HexValueLeadingZeros` | babeljs/execjs/runtime.py:47 | Zero padding does not change the value. |
| `Numerals.ToHexLength` | babeljs/execjs/runtime.py:47 | The rendering has at most k digits exactly when n < 16^k. |
| `Numerals.Hex04Value` | babeljs/execjs/runtime.py:47 | `'{0:04x}'` reads back as n. It has at least four digits, and exactly four iff n < 0x10000. |
| `Numerals.DecimalValueOfDigits` | babeljs/execjs/runtime.py:152 | The decimal rendering of a natural number that `json.dumps` writes reads back as that number. |
| `JsonText.Quote` | babeljs/execjs/runtime.py:127 | `json.dumps` of a string with `ensure_ascii` is printable ASCII inside double quotes. |
| `JsonText.ParseString` | babeljs/execjs/runtime.py:180 | The string parser of `json.loads` consumes at least one character. |
| `JsonText.QuoteParses` | babeljs/execjs/runtime.py:127 | The literal `json.dumps` writes for s parses back to exactly s, and leaves whatever follows untouched. |
| `JsonText.UnicodeEscapeParses` | babeljs/execjs/runtime.py:127 | A `\uXXXX` escape parses back to its code unit. |
| `JsonText.AstralParses` | babeljs/execjs/runtime.py:127 | A character past U+FFFF, written as a surrogate pair of escapes, parses back to that character. |
| `JsonText.QuoteBodyParses` | babeljs/execjs/runtime.py:127 | The escaped body of a literal parses back to the original characters up to the closing quote. |
| `JsonValues.Dumps` | babeljs/execjs/runtime.py:152 | `json.dumps` of a value is non-empty printable ASCII. |
| `JsonValues.ParseInt` | babeljs/execjs/runtime.py:180 | An integer token of `json.loads` consumes at least one character. |
| `JsonValues.IntParses` | babeljs/execjs/runtime.py:180 | The decimal text of any integer, with a following delimiter, parses back to that integer. |
| `JsonValues.ListParses` | babeljs/execjs/runtime.py:180 | The items `json.dumps` writes for a list, then `]`, parse back to the list and leave what follows. |
| `JsonValues.DictParses` | babeljs/execjs/runtime.py:180 | The entries `json.dumps` writes for a dict with distinct keys, then `}`, parse back to the dict in order and leave what follows. |
| `JsonValues.DumpsParses` | babeljs/execjs/runtime.py:180 | The text of any well-formed value parses back to it and leaves the rest of the input untouched. |
| `JsonValues.LoadsDumps` | babeljs/execjs/runtime.py:152-153 | `json.loads(json.dumps(v)) == v` for every value whose dict keys are distinct, which is how `call` ships its arguments. |
| `JsonValues.Loads` | babeljs/execjs/runtime.py:180 | Definition of a decoder for the JSON that `json.dumps` writes: one value, white space around it allowed. `JsonValues.LoadsDumps` proves it inverts `Dumps`. |
| `JsonValues.ParseValue` | babeljs/execjs/runtime.py:180 | A parsed value consumes input. Its round trip with `Dumps` is `JsonValues.DumpsParses`. |
| `Templates.Tag` | babeljs/execjs/runtime.py:159-166 | Each placeholder starts with `#{` and has no other `#`. |
| `Templates.Replacement` | babeljs/execjs/runtime.py:159-167 | Definition of the replacement table: the source verbatim, the `#{encoded_source}` literal, and the polyfill. Its placeholder-by-placeholder use is fixed by `Templates.CompileFill`. |
| `Templates.MatchAt` | babeljs/execjs/runtime.py:169-171 | The pattern matches a placeholder at the start of the text only when the text starts with that placeholder, and reports none only when it starts with none. |
| `Templates.Compile` | babeljs/execjs/runtime.py:155-173 | Definition of `_compile`: `re.sub` over the alternation of the three placeholders, left to right, without rescanning. Characterised by `Templates.CompilePlaceholder`, `Templates.CompileText`, `Templates.CompileIdentity` and `Templates.CompileAnyTemplate`. |
| `Templates.EncodedSource` | babeljs/execjs/runtime.py:161-165 | `#{encoded_source}` is printable ASCII. It is a JSON literal that reads back as `(function(){ ` + the escaped source + ` })()`. |
| `Templates.CompilePlaceholder` | babeljs/execjs/runtime.py:169-171 | A placeholder at the front becomes its replacement, and substitution goes on after it. |
| `Templates.CompileText` | babeljs/execjs/runtime.py:171 | Text with no placeholder is copied unchanged up to the next `#`. |
| `Templates.CompileIdentity` | babeljs/execjs/runtime.py:171 | A template with no placeholder is returned as is. |
| `Templates.SourceNotRescanned` | babeljs/execjs/runtime.py:160-171 | A source that is itself `#{source}` survives literally: the inserted text is not rescanned. |
| `Templates.CompileFill` | babeljs/execjs/runtime.py:155-173 | A template made of text and placeholders compiles to the text with each placeholder replaced. `#{source}` becomes the source, `#{encoded_source}` its JSON literal, and `#{json2_source}` the polyfill. |
| `Templates.Decompose` | babeljs/execjs/runtime.py:169-171 | Every template is a sequence of literal text and placeholders in which no text piece contains a placeholder. |
| `Templates.CompileAnyTemplate` | babeljs/execjs/runtime.py:155-173 | For every template, `_compile` gives its decomposition with the text kept and each placeholder replaced. |
| `Scripts.EvalArgument` | babeljs/execjs/runtime.py:124-127 | The argument of `eval` is printable ASCII. |
| `Scripts.IsBlank` | babeljs/execjs/runtime.py:124 | Definition of `not source.strip()`: every character is Python white space. |
| `Scripts.EvalCode` | babeljs/execjs/runtime.py:129 | The code `Context.eval` builds is printable ASCII. |
| `Scripts.EvalRoundTrip` | babeljs/execjs/runtime.py:123-130 | `eval` receives the empty string for blank source, and `(` + source + `)` otherwise, exactly. |
| `Scripts.CallArguments` | babeljs/execjs/runtime.py:151-153 | The call code is the identifier, then `.apply(this, `, then a JSON array that reads back as the arguments, then `)`. |
| `Scripts.CallEvaluated` | babeljs/execjs/runtime.py:151-153 | The call code is never blank, so `eval` receives it in parentheses. |
| `Scripts.CallCode` | babeljs/execjs/runtime.py:151-153 | Definition of the call text. `Scripts.CallArguments` states that its arguments read back. |
| `Scripts.JoinPreamble` | babeljs/execjs/runtime.py:133-134 | Definition of the preamble join: a non-empty preamble and a newline go first, an empty one adds nothing. |
| `ResultProtocol.ReplaceCR` | babeljs/execjs/runtime.py:146 | Every `\r` becomes `\n`, and every other character and the length are kept. |
| `ResultProtocol.ReplaceCRLF` | babeljs/execjs/runtime.py:146 | `replace("\r\n", "\n")` never lengthens the text. Together with `ResultProtocol.ReplaceCR` it is shown equal to one universal-newline pass by `ResultProtocol.NormalizeOnePass`. |
| `ResultProtocol.Normalize` | babeljs/execjs/runtime.py:146 | No `\r` remains. |
| `ResultProtocol.NormalizeOnePass` | babeljs/execjs/runtime.py:146 | The two replacements equal one left-to-right pass that turns `\r\n`, and a lone `\r`, into `\n`. |
| `ResultProtocol.NormalizeIdentity` | babeljs/execjs/runtime.py:146 | Output without `\r` is unchanged. |
| `ResultProtocol.UniversalAppend` | babeljs/execjs/runtime.py:146 | Normalisation distributes over concatenation unless the cut separates a `\r\n`. |
| `ResultProtocol.SplitLines` | babeljs/execjs/runtime.py:147 | `split("\n")` gives at least one element. |
| `ResultProtocol.JoinSplit` | babeljs/execjs/runtime.py:147 | Joining the split pieces with `\n` rebuilds the text, and no piece contains `\n`. |
| `ResultProtocol.SplitJoin` | babeljs/execjs/runtime.py:147 | Splitting a join of break-free pieces gives the pieces back. |
| `ResultProtocol.Penultimate` | babeljs/execjs/runtime.py:147 | `[-2]` is the second-to-last element when there are two or more, and raises IndexError otherwise. |
| `ResultProtocol.Unpack` | babeljs/execjs/runtime.py:180-183 | `status, value = ret` after the padding, for every shape `json.loads` can give. It succeeds exactly for a list or string of one or two elements and for a dict of two keys. A pair unpacks to its two elements, and a one-element list or string is padded with None. A string unpacks into its characters, a two-key dict into its keys. A one-key dict raises KeyError at `ret[0]`, a scalar raises TypeError at `len`, and every other failure is a Python error. |
| `ResultProtocol.Classify` | babeljs/execjs/runtime.py:185-190 | Definition of the final branch of `_extract_result`. The three `Classify*` lemmas state each of its outcomes as an if-and-only-if. |
| `ResultProtocol.ExtractResult` | babeljs/execjs/runtime.py:175-190 | Definition of `_extract_result`: an empty line gives status and value None; otherwise the `json.loads` result is padded, unpacked and classified. `ResultProtocol.ExtractOk` and `ResultProtocol.ExtractEmpty` state its cases. |
| `ResultProtocol.ReadOutput` | babeljs/execjs/runtime.py:145-147 | Definition of the end of `exec_`: normalise, split on `\n`, take element -2 and extract the result. `ResultProtocol.FramedLine` and `ResultProtocol.NoLineBreakIndexError` state what it selects. |
| `ResultProtocol.ExecOutput` | babeljs/execjs/runtime.py:113-147 | Definition of the exit check followed by the reading of the output. `ResultProtocol.ExecOutcome` states its result for each runner outcome. |
| `ResultProtocol.RunResult` | babeljs/execjs/runtime.py:113-116 | Exit status 0 gives the output. Any other status raises RuntimeError carrying the output. |
| `ResultProtocol.ClassifyOk` | babeljs/execjs/runtime.py:185-186 | The result is a value exactly when the status is `"ok"`, and then it is the value. |
| `ResultProtocol.ClassifyRuntimeError` | babeljs/execjs/runtime.py:187-188 | RuntimeError is raised exactly when the status is not `"ok"` and the value is a non-empty string starting with `SyntaxError:`. It carries that string. |
| `ResultProtocol.ClassifyProgramError` | babeljs/execjs/runtime.py:189-190 | With a status other than `"ok"`, ProgramError with the value is raised exactly when the value is false, or is a string not starting with `SyntaxError:`. A true value that is not a string raises AttributeError at `startswith` instead. |
| `ResultProtocol.ClassifyAttributeError` | babeljs/execjs/runtime.py:186-187 | With a status other than `"ok"`, AttributeError is raised exactly when the value is true and not a string, since only a string has `startswith`. |
| `ResultProtocol.ExtractOk` | babeljs/execjs/runtime.py:177-186 | `["ok", v]` returns v, and `["ok"]` returns None. |
| `ResultProtocol.ExtractEmpty` | babeljs/execjs/runtime.py:177-190 | An empty line and `["err"]` both raise ProgramError(None). |
| `ResultProtocol.NoLineBreakIndexError` | babeljs/execjs/runtime.py:145-147 | Output without a line break raises IndexError. |
| `ResultProtocol.FramedLine` | babeljs/execjs/runtime.py:146-147 | Whatever the program printed first, whatever line break the engine writes, the line selected is the result line. This holds when the process printed a blank line and then the result line, each newline-terminated. |
| `ResultProtocol.BareLine` | babeljs/execjs/runtime.py:146-147 | When only the result line was printed, it is still the line selected. |
| `ResultProtocol.ExecOutcome` | babeljs/execjs/__init__.py:162-177 | When a successful process frames the line the runner prints for a returned value, a missing value, an unserialisable value or a thrown error, exec_ produces the value, None, ProgramError(None) or the classified error. |
| `ResultProtocol.ExecBareLine` | babeljs/execjs/__init__.py:175-176 | The same when the program threw before the blank line, so only the error line was printed. |
| `ResultProtocol.ExecOutcomeDumps` | babeljs/execjs/__init__.py:164-176 | With the runner's line written by `Dumps` and read by `Loads`, exec_ yields exactly the program's outcome. |
| `Runtimes.ExecFileSpec` | babeljs/execjs/runtime.py:101-116 | Without a binary, `None + [filename]` raises TypeError. Otherwise the exit-status check applies to what the process returned. |
| `Runtimes.CommandLine` | babeljs/execjs/runtime.py:58-59 | Definition of the command wrap: a string becomes a one-element list, a list is kept. |
| `Runtimes.ExecSpec` | babeljs/execjs/runtime.py:132-149 | Definition of `Context.exec_` as one function: preamble join, template, process, reading. `Runtimes.Context.Exec` is proved equal to it, and `Runtimes.ExecSpecOutcome` and `Runtimes.ExecSpecFailure` state its results. |
| `Runtimes.ExecSpecOutcome` | babeljs/execjs/runtime.py:132-149 | A full exec_ over a process that exits 0 with the runner's framing yields the program's outcome. |
| `Runtimes.ExecSpecFailure` | babeljs/execjs/runtime.py:113-116 | A full exec_ over a failing process raises RuntimeError with its output. |
| `Runtimes.Runtime.constructor` | babeljs/execjs/runtime.py:56-62 | A string command is wrapped into a one-element list, and no binary lookup has happened yet. |
| `Runtimes.Runtime.Binary` | babeljs/execjs/runtime.py:95-99 | The first call consults `which` and caches the answer. Later calls return the cached answer and never consult `which` again. |
| `Runtimes.Runtime.IsAvailable` | babeljs/execjs/runtime.py:89-90 | The runtime is available exactly when the cached binary is not None. |
| `Runtimes.Runtime.ExecFile` | babeljs/execjs/runtime.py:101-116 | The result is `ExecFileSpec` of the cached binary. |
| `Runtimes.Runtime.Exec` | babeljs/execjs/runtime.py:74-77 | RuntimeUnavailable is raised when there is no binary. Otherwise the result is a full exec_ without preamble. |
| `Runtimes.Runtime.Eval` | babeljs/execjs/runtime.py:79-82 | RuntimeUnavailable is raised when there is no binary. Otherwise the result is a full exec_ of the `eval` code. |
| `Runtimes.Runtime.Compile` | babeljs/execjs/runtime.py:84-87 | RuntimeUnavailable is raised when there is no binary. Otherwise the result is a fresh Context on this runtime keeping the source as its preamble. |
| `Runtimes.Context.constructor` | babeljs/execjs/runtime.py:119-121 | The context keeps its runtime and its preamble. |
| `Runtimes.Context.Exec` | babeljs/execjs/runtime.py:132-149 | The result is the preamble join, the template, the process and the reading of the output, in that order. The binary cache changes only on first use. |
| `Runtimes.Context.Eval` | babeljs/execjs/runtime.py:123-130 | exec_ of the `eval` code. |
| `Runtimes.Context.Call` | babeljs/execjs/runtime.py:151-153 | eval of the call code. |
| `Utf8.DecodeChar` | babeljs/execjs/runtime.py:259 | A decoded sequence takes one to four bytes of the input. |
| `Utf8.Decode` | babeljs/execjs/runtime.py:259 | Definition of strict `decode('utf8')`, character by character. `Utf8.DecodeEncode` and `Utf8.EncodeDecode` make it the exact inverse of the encoding. |
| `Utf8.DecodeEncode` | babeljs/execjs/runtime.py:258-259 | The UTF-8 encoding of any string decodes back to it. |
| `Utf8.EncodeDecode` | babeljs/execjs/runtime.py:258-259 | Bytes that decode are the encoding of what they decode to, so only shortest forms are accepted. |
| `PyValues.KeyIndex` | babeljs/execjs/runtime.py:269 | Finds the first entry with the key, or reports that there is none. |
| `PyValues.DictPut` | babeljs/execjs/runtime.py:269 | `ret[k] = v` replaces the value of an existing key in place, appends a new key at the end, and keeps keys distinct. |
| `PyV8.DecodeBytes` | babeljs/execjs/runtime.py:258-259 | Byte strings decode as UTF-8 exactly when they are well formed. Otherwise UnicodeDecodeError is raised. |
| `PyV8.Convert` | babeljs/execjs/runtime.py:255-272 | Definition of `convert`. Its properties are stated by `PyV8.ConvertItemsPointwise`, `PyV8.ConvertObjectNoNone`, `PyV8.ConvertEmbed`, the `Function*` lemmas and `PyV8.ConvertErrorKind`. |
| `PyV8.ConvertKey` | babeljs/execjs/runtime.py:269 | Definition of the key conversion: byte keys are decoded, text keys kept. |
| `PyV8.ConvertItems` | babeljs/execjs/runtime.py:260-261 | Definition of the list comprehension, left to right. `PyV8.ConvertItemsPointwise` states it is element-wise. |
| `PyV8.ConvertProps` | babeljs/execjs/runtime.py:264-270 | Definition of the loop over `obj.keys()`: value first, None skipped, key converted, `ret[k] = v`. `PyV8.ConvertObject` is the loop itself, proved equal to it. |
| `PyV8.ConvertObject` | babeljs/execjs/runtime.py:264-270 | The loop that fills `ret` computes the object case of `convert`. |
| `PyV8.ConvertItemsPointwise` | babeljs/execjs/runtime.py:260-261 | An array converts exactly when every element does. The result keeps the length and order and is the element-wise conversion. |
| `PyV8.ConvertObjectNoNone` | babeljs/execjs/runtime.py:264-270 | A converted object has distinct keys and no None value. |
| `PyV8.SkippedKeyNotDecoded` | babeljs/execjs/runtime.py:266-269 | The key of an entry whose value converts to None is never decoded, so its bad bytes raise nothing. A kept entry with bad key bytes raises UnicodeDecodeError. |
| `PyV8.ConvertEmbed` | babeljs/execjs/runtime.py:255-272 | Every Python value without None inside dicts, placed into the engine's value tree, converts back to itself. |
| `PyV8.FunctionInArrayKept` | babeljs/execjs/runtime.py:260-263 | A function inside an array becomes None and keeps its place, and the array keeps its length. |
| `PyV8.FunctionPropertyDropped` | babeljs/execjs/runtime.py:266-269 | A function-valued property, wherever it sits, is skipped by the object loop: the result is that of the properties without it. |
| `PyV8.FunctionPropertyIgnored` | babeljs/execjs/runtime.py:264-270 | `convert` of an object equals `convert` of the object without its function-valued property. |
| `PyV8.ConvertErrorKind` | babeljs/execjs/runtime.py:255-272 | `convert` raises nothing but UnicodeDecodeError. |
| `PyV8.ScriptText` | babeljs/execjs/runtime.py:222-231 | The script handed to the engine is ASCII. |
| `PyV8.PyV8Errors` | babeljs/execjs/runtime.py:236-246 | With PyV8 installed, RuntimeError is raised exactly when compilation fails, and ProgramError exactly when the run fails. |
| `PyV8.PyV8Exec` | babeljs/execjs/runtime.py:222-246 | Definition of `exec_`: an ImportError without PyV8, RuntimeError on a compile failure, ProgramError on a run failure, otherwise the converted value. `PyV8.PyV8Errors` states the split as an if-and-only-if. |
| `PyV8.PyV8Eval` | babeljs/execjs/runtime.py:248-249 | Definition of `eval`: `exec_` of `return` plus the escaped source. `PyV8.PyV8EvalScript` shows the double escaping is harmless. |
| `PyV8.PyV8Call` | babeljs/execjs/runtime.py:251-253 | Definition of `call`: `eval` of the same call text as the external runtimes, whose arguments read back by `Scripts.CallArguments`. |
| `PyV8.PyV8EvalScript` | babeljs/execjs/runtime.py:248-249 | eval escapes the source before exec_ escapes it again. The second pass changes nothing. |
| `Registry.LookupCases` | babeljs/execjs/__init__.py:87-95 | An unregistered name raises "… runtime is not defined". A registered, unavailable one raises "… runtime is not available on this system" with the runtime's display name. Otherwise the lookup returns exactly the registered runtime. |
| `Registry.NotDefinedDiffers` | babeljs/execjs/__init__.py:90-94 | The two RuntimeUnavailable messages never coincide. |
| `Registry.NotDefined` | babeljs/execjs/__init__.py:90 | Definition of the "not defined" message. |
| `Registry.NotAvailable` | babeljs/execjs/__init__.py:93-94 | Definition of the "not available" message, built from the runtime's display name. |
| `Registry.LookupIn` | babeljs/execjs/__init__.py:87-95 | Definition of `get(name)` for a given name. `Registry.LookupCases` states its three cases. |
| `Registry.FromEnvironment` | babeljs/execjs/__init__.py:120-133 | Definition of `get_from_environment`: None for an unset or empty variable, otherwise the lookup with its errors. Stated by `Registry.AutoDetectCases`. |
| `Registry.FirstAvailable` | babeljs/execjs/__init__.py:113-117 | Definition of the scan in insertion order. `Registry.FirstAvailableIsFirst` states that it finds the first available runtime. |
| `Registry.AutoDetectSpec` | babeljs/execjs/__init__.py:108-117 | Definition of `_auto_detect`. `Registry.AutoDetectCases` states its cases and `Registry.RuntimeTable.AutoDetect` is the loop, proved equal to it. |
| `Registry.RegisterLookup` | babeljs/execjs/__init__.py:74-95 | After `register(name, r)`, `get(name)` sees r. Every other name resolves as before. |
| `Registry.RegisterOrder` | babeljs/execjs/__init__.py:74-76 | Registering keeps the existing key order and keeps an overwritten key at its position. A new key goes at the end. |
| `Registry.FirstAvailableIsFirst` | babeljs/execjs/__init__.py:113-115 | The scan finds a runtime exactly when some key's runtime is available. What it finds is the runtime of the first such key. |
| `Registry.AutoDetectCases` | babeljs/execjs/__init__.py:108-133 | With `EXECJS_RUNTIME` unset or empty, the first available runtime is used, or "Could not find a JavaScript runtime." is raised. Otherwise the result is exactly the lookup of that name, errors included. |
| `Registry.NodeIsFirstAvailable` | babeljs/execjs/__init__.py:151-181 | The Node entry is available exactly when a candidate command is. It is then the runtime of the first available candidate among `nodejs` and `node`, and otherwise the `node` one. |
| `Registry.NodeChoice` | babeljs/execjs/__init__.py:151-181 | Definition of what `Node` is bound to after the loop. `Registry.NodeIsFirstAvailable` states it is the first available candidate, or the last. |
| `Registry.StartupTable` | babeljs/execjs/__init__.py:148-303 | Definition of the bindings after startup. `Registry.RuntimeTable.Populate` produces it. |
| `Registry.StartupAutoDetect` | babeljs/execjs/__init__.py:108-117 | On the startup table without `EXECJS_RUNTIME`, PyV8 is chosen when it is available. Otherwise an available Node is chosen, and otherwise the rest of the table is scanned in order. |
| `Registry.Pairs` | babeljs/execjs/__init__.py:98-100 | The pairs of the table, one per key, in key order. |
| `Registry.SnapshotMembers` | babeljs/execjs/__init__.py:98-100 | The snapshot holds exactly the registered bindings. |
| `Registry.FilterAvailable` | babeljs/execjs/__init__.py:105 | The filter keeps exactly the pairs whose runtime is available. |
| `Registry.RuntimeTable.constructor` | babeljs/execjs/__init__.py:148 | The table starts empty. |
| `Registry.RuntimeTable.Register` | babeljs/execjs/__init__.py:74-76 | The binding of the name is replaced and nothing else in the map changes. The key order is unchanged for an existing name, and the name is appended for a new one. |
| `Registry.RuntimeTable.Snapshot` | babeljs/execjs/__init__.py:98-100 | `runtimes()` is a separate value holding every binding in insertion order, as `dict` keeps it from Python 3.7. Being a value, changing it cannot change the table. |
| `Registry.RuntimeTable.Available` | babeljs/execjs/__init__.py:103-105 | A binding is in `available_runtimes()` exactly when it is registered and available. |
| `Registry.RuntimeTable.Get` | babeljs/execjs/__init__.py:79-95 | `get(None)` is auto-detection, and `get(name)` is the lookup with its two RuntimeUnavailable causes. |
| `Registry.RuntimeTable.AutoDetect` | babeljs/execjs/__init__.py:108-117 | The loop with early return computes the environment override first, then the first available runtime in insertion order, then the error. |
| `Registry.RuntimeTable.RegisterNode` | babeljs/execjs/__init__.py:151-181 | After the candidate loop, `Node` occupies one slot, right after `PyV8`, and is bound to the Node choice. |
| `Registry.RuntimeTable.RegisterJscAndSpiderMonkey` | babeljs/execjs/__init__.py:184-234 | JavaScriptCore follows. Then `SpiderMonkey` and `Spidermonkey` are bound to the same runtime, in that order. |
| `Registry.RuntimeTable.RegisterPhantoms` | babeljs/execjs/__init__.py:271-303 | PhantomJS and SlimerJS are appended, in that order. |
| `Registry.RuntimeTable.Populate` | babeljs/execjs/__init__.py:148-303 | The startup table has the keys PyV8, Node, JavaScriptCore, SpiderMonkey, Spidermonkey, JScript, PhantomJS and SlimerJS in that order, each bound to its runtime. |

## Left out

- Processes, files and PATH lookup are parameters, along with the engine itself:
  - Launching and capturing the engine process (`Popen`, `communicate`, `wait`) is a `Process` parameter. Its output stands for stdout with stderr folded in.
  - The temporary file of `Context.exec_` (runtime.py:136-143) is reduced to the script text it would hold. Its removal in a `finally` is not modelled.
  - `which` and `json2_source` come from `babeljs/execjs/utils.py`, which is not part of this model. They are a `Which` oracle and a `polyfill` string.
  - The PyV8 engine (`JSContext`, `JSEngine`, `compile`, `run`, `contextlib.nested`) is an `engine` parameter from script text to an outcome. `str(source)` is the identity.
  - The exception object that PyV8 raises is represented by its message string.
- Encodings are not applied:
  - Writing the script and decoding the output with the runtime's encoding (runtime.py:139, 145) is the identity on strings.
  - So are the `ascii` encoding failure of the JScript runtime and its own escaping inside `print`.
  - The encoding names are kept as data.
- The runner templates are JavaScript run by external engines, so their text is opaque:
  - The model states what they print as `ResultProtocol.Outcome`: a blank line, then one JSON line, with the thrown case that prints only the error line.
  - The `.code` access (`result = program().code`) is part of that JavaScript and is not modelled.
  - So is the message that the Node runner prints for an unserialisable result before `["err"]`: it is any text in front of the frame.
- JSON is limited to what the code reads:
  - The JSON text that JavaScript's `JSON.stringify` writes is not modelled. `loads` is a parameter, and `JsonValues.Loads` is a decoder proved to read back what `JsonValues.Dumps` writes.
  - Floats and number exponents are not modelled in `PyValues.Value`. Dict keys are strings only.
  - The JSON decoder accepts the values `Dumps` writes, plus surrounding white space. It does not model `json.loads`'s `NaN`/`Infinity` extensions or its other error messages.
- The module-level `eval`, `exec_` and `compile` of `__init__.py` (lines 136-145) are `get()` followed by the runtime method. They are covered by `Registry.RuntimeTable.Get` and the `Runtimes` methods, but not composed into one member.
- A `Runtime`'s `__str__`, `name` property and `runner_source()` accessor are plain field reads, and the fields are `const`s of the class.
- `contextlib.nested` (runtime.py:236) exists only in Python 2, while the rest of the model follows Python 3.7 or later. The PyV8 path is modelled through the engine outcome, so that call is not modelled.
- Strings are sequences of Unicode scalar values, because a Dafny `char` cannot be a lone surrogate:
  - A Python string can hold a lone surrogate, which `encode_unicode_codepoints` would escape as, for example, `\ud800`. The model has no such strings.
  - The decoder `JsonText.ParseUnicodeEscape` rejects a lone-surrogate escape, which `json.loads` accepts.
- Registry entries are `Registry.Descriptor` values, so two entries bound to the same Python object are modelled as equal values. Object identity is not modelled.
- `PyV8Runtime.is_available` and each external runtime's `is_available()` are the `Availability` oracle in the registry. The `_binary` memo behind an external runtime's answer is proved in `Runtimes.Runtime`.
- The code and its documentation differ in five places. The model follows the code:
  - An empty result line raises ProgramError(None). It is not a successful None.
  - Output without a line break raises IndexError.
  - `get_from_environment` raises for an unknown or unavailable name. Its doc-comment says it returns None.
  - Only characters at or above 0x80 are escaped, not every character outside printable ASCII.
  - The auto-detection failure message is "Could not find a JavaScript runtime.".
