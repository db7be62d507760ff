# Parser abstraction of eslint-plugin-import-x, in Dafny

This project models `parse` from `src/utils/parse.ts` of eslint-plugin-import-x, together with its private helpers. Given a file path, the source text and the lint context, `parse` does five things in order:

- It picks a parser. The `import-x/parsers` setting maps parser identifiers to lists of file extensions, and the first entry in table order that lists the file's extension wins. Otherwise it uses the legacy `parserPath`, and after that a parser object in `languageOptions.parser`.
- It builds a fresh options bag. The five capture flags are forced on, `filePath` is set, and the four whole-project options are deleted.
- It loads the parser module.
- It strips a leading byte-order mark and turns a `#!` line into a `//` comment.
- It calls the parser's `parseForESLint`. If that throws, it prints warnings and falls back to `parse`. It returns `{ ast, visitorKeys }`.

Layout, one module per file:

- `wrappers.dfy` `Wrappers`: `Option` and `Result`.
- `values.dfy` `JsValues`: JavaScript values in an options bag, truthiness, property read and object spread.
- `text.dfy` `Text`: `stripUnicodeBOM`, `transformHashbang` (modelled as the regular-expression replacement it is), and the espree name test.
- `extname.dfy` `ExtName`: Node's POSIX `path.extname`.
- `parsers.dfy` `Parsers`: parser modules, the context, errors, warnings and the record of one run.
- `resolve.dfy` `Resolve`: `getParserPath` and `getParser`.
- `options.dfy` `Options`: choosing and sanitising the parser options.
- `parse.dfy` `ParseCore`: `keysFromParser`, `makeParseReturn`, module loading and the two-convention dispatch inside `parse`.
- `parse_props.dfy` `ParseProperties`: properties of the composed `parse`.

Modelling choices:

- A parser's behaviour on this file is a value, not a call. `parseForESLint` either throws a (line, column, message) triple or returns an `ast` with optional `visitorKeys`. `parse` either throws or returns an `ast`.
- Trees and visitor-key tables are opaque.
- A `Run` records the result or the thrown `Failure`, the warnings printed, and every invocation of parser code with the exact text and options it received. That is how the properties about parser inputs are stated.
- `moduleRequire` is a `Loader` parameter: an identifier maps to a parser or to a failure, and the failure propagates. The module-require file is not part of this model.
- A missing context is `None`.

Behaviour of the code worth knowing:

- Text normalisation is idempotent except on text that starts with two byte-order marks, because each pass removes only one. `Text.NormalizeIdempotentIff` states the exact condition.
- When `parseForESLint` throws, three warnings are printed: the file, the error position, and the "is invalid and will just be ignored" warning. The third one always appears because `ast` is still undefined at line 129. The early return on line 135 is reachable only if a property getter throws after line 117. `ParseCore.AfterCaught` models lines 129-136 for any captured value, and `parse` always passes `undefined` to it.
- Line 159 tests `typeof parse`, the module's own exported function, instead of the parser's `parse`. So any `parse` property makes a `languageOptions.parser` object acceptable (`Resolve.Recognised`). If that property is not a function, the later call throws a TypeError (`NotAFunction`).

## Model

| member | source | states |
|---|---|---|
| Text.StripBom | src/utils/parse.ts:43-45 | a leading U+FEFF is removed and the result with that one mark put back is the input; text not starting with U+FEFF is returned unchanged |
| Text.StripBomUndoesPrepend | src/utils/parse.ts:43-45 | stripping after prepending one mark returns the original text, so exactly one mark is removed per call |
| Text.RunFrom | src/utils/parse.ts:48 | the greedy `[^\r\n]+` run stops exactly at the first CR or LF or at the end of the text, and holds only non-CR/LF characters |
| Text.TransformHashbang | src/utils/parse.ts:47-49 | the regular-expression replacement preserves length and every character from index 2 on; with `#!` plus a non-CR/LF character the first two characters become `//`; otherwise the text is unchanged |
| Text.TransformHashbangIdempotent | src/utils/parse.ts:47-49 | rewriting twice equals rewriting once |
| Text.BareHashbangUnchanged | src/utils/parse.ts:47-49 | `#!` alone, and `#!` followed directly by LF or CR, are left unchanged |
| Text.NormalizeIdempotentIff | src/utils/parse.ts:108 | BOM stripping followed by the shebang rewrite is idempotent exactly when the text does not start with two byte-order marks |
| Text.NormalizeNotIdempotent | src/utils/parse.ts:108 | the text of two marks is a concrete input on which normalisation is not idempotent |
| Text.ContainsIff | src/utils/parse.ts:26 | the scanning substring test agrees with "some index holds an occurrence", which is what the unanchored espree pattern accepts |
| ExtName.Extension | src/utils/parse.ts:172 | the extension is empty or a `.` followed by characters that are neither dots nor slashes; it is a suffix of the path without its trailing slashes; a non-empty extension is a proper suffix of the last segment, so a dotfile such as `.bashrc` and the segment `..` have none |
| ExtName.ExtensionExample | src/utils/parse.ts:172 | the file `x.foo` has the extension `.foo` |
| ExtName.ExtensionOfFileName | src/utils/parse.ts:172 | `dir/name.ext` and `name.ext` have the extension `.ext` for a non-empty name that is not `..` and an `ext` with no dot or slash |
| ExtName.ExtensionIgnoresTrailingSlash | src/utils/parse.ts:172 | a trailing `/` does not change the extension |
| Resolve.FirstMatch | src/utils/parse.ts:173-179 | the scan returns the first index whose extension list holds the extension, or reports that no entry holds it |
| Resolve.GetParserPath | src/utils/parse.ts:169-183 | with a table, the first entry in table order listing the file's extension gives the key; with no table or no matching entry, the context's `parserPath` is returned |
| Resolve.GetParser | src/utils/parse.ts:147-167 | a truthy path from `getParserPath` wins; otherwise the result is present exactly when `languageOptions.parser` is an object with a `parse` property or a function `parseForESLint`, and then it is that object |
| Resolve.GetParserYieldsUsable | src/utils/parse.ts:147-167 | a resolved identifier is never empty, and a resolved object always exposes a recognised entry point |
| Resolve.FirstEntryWins | src/utils/parse.ts:173-178 | when two entries list the extension, the earlier one wins and a later entry with a different key is not returned: first match, not best match |
| Resolve.TableOverridesDefault | src/utils/parse.ts:169-178 | the table `{ "my-parser": [".foo"] }` routes the file `x.foo` to "my-parser", whatever the default parser is |
| Resolve.NoTableUsesDefault | src/utils/parse.ts:169-182 | without a table, every path resolves to the non-empty default `parserPath` |
| Resolve.NamedLanguageParserIgnored | src/utils/parse.ts:154-166 | a string in `languageOptions.parser` is never used by itself |
| Options.SelectOptions | src/utils/parse.ts:61-63 | flat-config `languageOptions.parserOptions` is used when truthy; otherwise the legacy `parserOptions` is used |
| Options.Sanitize | src/utils/parse.ts:72-98 | the five capture flags are `true`, `filePath` is the path, the four project keys are absent, `ecmaFeatures` is a copy of the input's, every other input key keeps its value, and no other key appears |
| Options.SanitizeIdempotent | src/utils/parse.ts:72-98 | sanitising an already sanitised bag changes nothing |
| Options.SanitizeIgnoresManagedInput | src/utils/parse.ts:76-98 | the input value of a forced flag, `filePath` or a project key makes no difference: `comment: false` still comes out `true`, and a truthy `project` is still deleted |
| Options.EcmaFeaturesKept | src/utils/parse.ts:73 | an object-valued `ecmaFeatures` reaches the parser with the same contents |
| Options.SanitizeDependsOnPathOnlyThroughFilePath | src/utils/parse.ts:86 | two paths give bags that differ only in `filePath` |
| ParseCore.KeysFromParser | src/utils/parse.ts:17-31 | the priority order: the result's own visitor keys, then the module's exported `VisitorKeys` for an identifier containing "espree", then null |
| ParseCore.Load | src/utils/parse.ts:101-104 | an object is used as it is; an identifier is loaded, and a load failure propagates with its identifier and reason |
| ParseCore.FallBackToParse | src/utils/parse.ts:139-144 | `parse` is invoked exactly when it is a function; a returned tree is the result with the fallback keys; its exception is the failure; a missing `parse` gives the "must expose" error; a non-function `parse` gives a TypeError; earlier warnings are kept |
| ParseCore.AfterCaught | src/utils/parse.ts:129-136 | a captured object tree is returned with fallback keys; anything else adds the "invalid" warning naming the parser and continues with `parse` |
| ParseCore.Invoke | src/utils/parse.ts:110-144 | every invocation gets the given text and options; `parseForESLint` goes first exactly when it is a function, and at most one `parse` call follows; a returned rich result is passed on as it is with no warning; a throw prints the file, the error position and the "invalid" warning; whenever `parseForESLint` did not return, the result is what `parse` gives: its tree, its exception, the "must expose" error or a TypeError |
| ParseCore.Parse | src/utils/parse.ts:51-108 | a null context throws "need context to parse properly" and an unresolved parser throws "parserPath or languageOptions.parser is required!", both before any parser call; every parser call receives the normalised text and the sanitised options |
| ParseProperties.ParseInvokes | src/utils/parse.ts:65-110 | once a parser is resolved and loaded, `parse` dispatches on the normalised text and the sanitised options |
| ParseProperties.LoadFailurePropagates | src/utils/parse.ts:101-104 | a failed module load is the run's failure, with no warning and no parser call |
| ParseProperties.ParserSeesSanitizedOptions | src/utils/parse.ts:72-98 | every options bag a parser receives has the capture flags true, `filePath` equal to the path, and no project keys |
| ParseProperties.RichSuccessReturnedAsIs | src/utils/parse.ts:114-121 | a returned `parseForESLint` result is passed on unchecked, even an `ast` that is not an object, with one call and no warning |
| ParseProperties.RichThrowFallsBack | src/utils/parse.ts:122-142 | after a `parseForESLint` throw, the warnings are the file, then line/column/message, then "invalid"; the outcome is then decided by `parse`: its returned tree with the fallback keys, its own exception propagated, the "must expose" error when missing, or a TypeError when not a function |
| ParseProperties.SimpleThrowPropagates | src/utils/parse.ts:139-141 | with only `parse`, its exception is the run's failure, with no warning |
| ParseProperties.SimpleSuccessReturned | src/utils/parse.ts:139-141 | with only `parse`, its returned tree is the result with the fallback keys, after one call and no warning |
| ParseProperties.NeitherMethodFails | src/utils/parse.ts:139-144 | a parser with neither entry point gives the "must expose" error without being invoked |
| ParseProperties.VisitorKeysSource | src/utils/parse.ts:17-31 | a successful run's keys come from the rich result's own table if it returned one, else from an espree module's export, else they are null |
| ParseProperties.ObjectParserKeys | src/utils/parse.ts:26-30 | a parser object never receives espree's exported table; its keys come only from its own rich result |

## Left out

- Debug logging (line 176) is a side-effect sink. The text of `console.warn` is not modelled either; warnings are data values.
- Module loading (`moduleRequire`, line 103) is the `Loader` parameter. How identifiers resolve to modules, and the loader's error messages, are outside this model.
- Real parsing is left out. A parser's behaviour is a fixed outcome for this one file and options. Trees and visitor-key tables are opaque values.
- `path.extname` follows Node's POSIX rules. Windows separators are not modelled.
- `String(content)` coercion: the content is already a string here.
- A truthy non-string primitive in `languageOptions.parser`, such as `true` or `1`, is not modelled. With one, the `in` test on line 159 would throw a TypeError.
- A non-empty string given as the options bag is treated like other non-objects: spreading it yields no keys. In JavaScript, spreading a string yields one key per index.
- The ordering rule of `for...in` is simplified. JavaScript visits integer-like keys first, in ascending order; the table here is taken in insertion order, which matches for module identifiers.
- A table value that is a string rather than an array is not modelled. There, `.includes` would do a substring test.
- Throwing property getters are not modelled. This is why the early return on line 135 is never reached from `parse`.
- NaN and fractional numbers are not modelled; numbers are integers.
- The same options object is passed to `parseForESLint` (line 116), read for the first warning (line 124), and passed again to `parse` (line 140). A parser that changes that object would change what the fallback sees. The model's options are immutable values, so the second call receives the sanitised options by construction.
- A `parseForESLint` that returns `null` or `undefined` is not modelled. There, reading `.ast` on line 117 throws a TypeError, which is caught; the warnings then report an undefined line and column, and `parse` is tried. The model's rich outcome either throws a (line, column, message) triple or returns an object.
- Mutation of the caller's options object is not expressed as a contract. The model works on immutable values, so the caller's bag cannot change.
- A missing `context.settings` (which would throw a TypeError in JavaScript) is not modelled; the setting is either a table or null.
- test/utils.ts is test scaffolding (version gates, fixture paths, a RuleTester subclass) with no product logic.
