# vite-plugin-dts core, modelled in Dafny

`vite-plugin-dts` is a Vite plugin that emits TypeScript declaration files
during a library build. As modules pass through the bundler, its `transform`
hook registers them with a ts-morph compiler project. A Vue single-file-component
script block is registered by its content under a synthesized `.ts`/`.js` path.
A `.ts`/`.tsx` module is registered by its path on disk. At the end of the build,
`generateBundle` writes every emitted declaration file under the output
directory. Optionally, `cleanVueFileName` rewrites `X.vue.d.ts` paths to
`X.d.ts` and strips `.vue` from quoted import specifiers.

The model covers `src/index.ts`:

- `text.dfy` (`Text`): the JavaScript string operations the plugin relies on. These are the leftmost
  substring search, `String.prototype.replace` with a string pattern (first occurrence only), and
  `split('?')[0]`.
- `id_patterns.dfy` (`IdPatterns`): the three regular-expression tests on module ids, with
  JavaScript semantics. Patterns are unanchored unless they say `$`, and `.` never matches a line terminator.
- `vue_clean.dfy` (`VueClean`): an exact model of the global, leftmost-then-greedy replacement
  `/['"](.+)\.vue['"]/g → "$1"`, and of the `.vue.d.ts` path rewrite, with what they mean for texts.
- `host.dfy` (`Host`): Node's `path.resolve`/`relative`/`dirname` and Vite's `normalizePath`.
  Each is an opaque function supplied by the caller.
- `admission.dfy` (`Admission`): what one `transform` call registers (`Admit`), and the
  registry left by a sequence of calls (`Registry`).
- `emission.dfy` (`Emission`): the declaration-directory choice, the remapping of one emitted
  file to a write, and the specification `Bundle` of everything `generateBundle` writes.
- `plugin.dfy` (`Plugin`): the plugin object as a class. `Transform` appends to
  `sourceFiles` in place. `GenerateBundle` walks `sourceFiles` and the compiler outputs in
  nested loops and is proved equal to `Bundle`.

The compiler session after `emitToMemory` is a parameter
`emitted: Registration -> seq<EmittedFile>` that gives the output files of each source file.
The `filter` built by `createFilter` is an opaque predicate on ids. Writes are
returned as a sequence of `Write(target, content)` records, in the order they
are issued.

## Model

| member | source | states |
|---|---|---|
| `Text.IndexOf` | src/index.ts:107 | the result is the leftmost occurrence of the pattern at or after the start index, or there is none |
| `Text.ReplaceFirst` | src/index.ts:107 | `replace` with a string pattern changes only the leftmost occurrence; with no occurrence the string is unchanged |
| `Text.BeforeFirst` | src/index.ts:77 | `split('?')[0]` is the prefix of the id up to, not including, its first `?` (the whole id if it has none) |
| `VueClean.CleanVueImports` | src/index.ts:113 | `content.replace(/['"](.+)\.vue['"]/g, '"$1"')` as a leftmost-first search with `GreedyMatch` at each start, resuming after each match. It is characterised by `CleanIdentityIff`, `CleanShortens`, `CleanWithoutVueQuote`, `CleanLineByLine`, `CleanSingleSpecifier` and `CleanIsGreedyWithinLine` |
| `VueClean.CleanVuePath` | src/index.ts:107 | `filePath.replace('.vue.d.ts', '.d.ts')`, the leftmost occurrence only. It is characterised by `Text.ReplaceFirst` and `CleanVuePathFirstOnly` |
| `VueClean.GreedyMatchIsLongest` | src/index.ts:113 | at a start position the regex matches iff some match exists, and it takes the longest group (greedy `.+`) |
| `VueClean.CleanIdentityIff` | src/index.ts:113 | with cleaning on, a text is written unchanged exactly when `['"](.+)\.vue['"]` matches nowhere in it |
| `VueClean.CleanShortens` | src/index.ts:113 | cleaning never lengthens a text, and it shortens every text in which the regex matches |
| `VueClean.CleanWithoutVueQuote` | src/index.ts:113 | a text in which `.vue` is never directly followed by a quote is left unchanged |
| `VueClean.CleanLineByLine` | src/index.ts:113 | no match crosses a line terminator: cleaning `a + newline + b` is cleaning `a` and `b` separately |
| `VueClean.CleanSingleSpecifier` | src/index.ts:113 | a line with one quoted `name.vue` specifier and no other quote becomes `"name"`, with either quote style normalised to `"` |
| `VueClean.CleanIsGreedyWithinLine` | src/index.ts:113 | two quoted `.vue` specifiers on one line are not cleaned separately: only the last `.vue` is removed |
| `VueClean.CleanVuePathFirstOnly` | src/index.ts:107 | the leftmost `.vue.d.ts` of an output path becomes `.d.ts` and any later one is kept |
| `IdPatterns.IsScriptBlockId` | src/index.ts:76 | `/\.vue(\?.*type=script.*)$/.test(id)`: `.vue?`, later `type=script`, and no line terminator from the `?` to the end of the id. It is characterised by `Admission.ScriptBlockIdShape` |
| `IdPatterns.IsLangTs` | src/index.ts:80 | `/lang.ts/.test(id)`: `lang`, one non-line-terminator UTF-16 code unit, `ts`, anywhere in the id. It is characterised by `Admission.LangTsAnywhere` and `Admission.LangTsNotAcrossAstral` |
| `IdPatterns.IsTsFileId` | src/index.ts:82 | `/\.tsx?$/.test(id)` on the raw id: it ends in `.ts` or `.tsx`. It is used in the contract of `Admission.Admit` and in `Admission.ScriptBlockWinsOverTsExtension` |
| `Admission.Admit` | src/index.ts:73-87 | registers nothing for empty code, a filtered-out id or an irrelevant id. A script-block id is registered by content under its pre-`?` path resolved against root, plus `.ts`/`.js`. Any other `.ts`/`.tsx` id is registered by resolved path, and its code is dropped |
| `Admission.BeforeQuery` | src/index.ts:77 | for `<file>?<query>` with no `?` in `file`, the query-stripped path is `file` |
| `Admission.ScriptBlockIdShape` | src/index.ts:76 | `<file>.vue?<query>` is a script-block id whenever the query contains `type=script` and no line terminator |
| `Admission.LangTsAnywhere` | src/index.ts:80 | `/lang.ts/` holds for any id containing `lang`, one non-line-terminator character held in a single UTF-16 code unit, then `ts`, anywhere in the id |
| `Admission.LangTsNotAcrossAstral` | src/index.ts:80 | a character outside the Basic Multilingual Plane between `lang` and `ts` is two code units, so `/lang.ts/` does not match `lang`, that character, `ts` |
| `Admission.ScriptBlockWinsOverTsExtension` | src/index.ts:76-85 | an id like `App.vue?vue&type=script&lang.ts` ends in `.ts`, yet it is registered by content under `App.vue` plus `.ts` |
| `Admission.Registry` | src/index.ts:79-85 | `sourceFiles` after a sequence of `transform` calls: each call pushes its admission, if any, in call order. It is characterised by `RegistryAppend`, `RegistryFromCalls` and `RepeatedCallRegistersTwice`, and tied to the class by `Plugin.DtsPlugin.Valid` |
| `Admission.RegistryAppend` | src/index.ts:79-85 | transform calls only append: the registry of `c1 + c2` is that of `c1` followed by that of `c2` |
| `Admission.RegistryFromCalls` | src/index.ts:74-86 | each call contributes at most one entry, and every entry is the admission of some call |
| `Admission.RepeatedCallRegistersTwice` | src/index.ts:79-85 | the `push` into `sourceFiles` never checks for an existing entry: the same admitted module transformed twice is pushed twice |
| `Emission.DeclarationDir` | src/index.ts:90-92 | `outputOptions.file ? dirname(outputOptions.file) : outputOptions.dir`, with an empty `file` counted as unset. It is characterised by `BundleWritesEachOutput` and `BundleWithoutDirectory` |
| `Emission.AllOutputs` | src/index.ts:99-102 | the output files the nested loops visit: each source file's `getOutputFiles()` in registry order. It is characterised by `AllOutputsAppend`, `AllOutputsCount` and `OutputsInRegistryOrder` |
| `Emission.Bundle` | src/index.ts:89-118 | everything `generateBundle` writes, one `Remap` per output in loop order, or the failure of `resolve(undefined, …)` at the first output when there is no directory. It is characterised by `BundleWritesEachOutput`, `BundleWriteCount` and `BundleWithoutDirectory`, and `Plugin.DtsPlugin.GenerateBundle` is proved equal to it |
| `Emission.Remap` | src/index.ts:103-113 | with cleaning off, the target is `resolve(declDir, relative(root, path))` and the text is unchanged. With cleaning on, the text changes iff the regex `['"](.+)\.vue['"]` matches somewhere in it, and a path without `.vue.d.ts` is remapped as with cleaning off |
| `Emission.RemapDropsVueInfix` | src/index.ts:105-108 | with cleaning on, the output `stem.vue.d.ts` of a script block is written at `stem.d.ts` relative to the root |
| `Emission.AllOutputsAppend` | src/index.ts:99-102 | the outputs of two registry segments are the outputs of the first followed by those of the second |
| `Emission.AllOutputsCount` | src/index.ts:99-102 | the outputs the loops visit number the sum, over the registry, of each file's output count |
| `Emission.BundleWriteCount` | src/index.ts:99-116 | exactly one write per emitted file: a successful run writes as many files as the compiler emitted for the registry |
| `Emission.OutputsInRegistryOrder` | src/index.ts:99-104 | the outputs of registration `i` are contiguous, follow those of every earlier registration, and keep the compiler's order |
| `Emission.BundleWritesEachOutput` | src/index.ts:89-116 | output `j` of registration `i` is written at its place in registry order, under `dirname(file)` when `file` is set and `dir` otherwise. The run fails iff neither is set |
| `Emission.BundleWithoutDirectory` | src/index.ts:90-105 | with neither `file` nor `dir` set, nothing is written. The build fails as soon as any output file exists |
| `Plugin.DtsPlugin.constructor` | src/index.ts:22-33 | a new plugin holds its options with the defaults applied, `root` being the working directory and `cleanVueFileName` false when absent, and an empty `sourceFiles` |
| `Plugin.DtsPlugin.Transform` | src/index.ts:73-87 | `sourceFiles` becomes its old value plus the admission of this call, if any. The registry invariant with the call history is kept |
| `Plugin.DtsPlugin.GenerateBundle` | src/index.ts:89-118 | the nested loops over `sourceFiles` and each file's outputs return exactly `Bundle`: every write in order, or the undefined-directory failure |

## Left out

- The ts-morph `Project`: construction, pre-emit diagnostics and their printing, and
  `emitToMemory` (src/index.ts:38-51, 93-97). The compiler is the opaque `emitted` parameter.
- `mergeObjects` from `./utils` (src/index.ts:39) is not part of this model. So nothing is
  claimed about which compiler options survive user overrides.
- `Plugin.DtsPlugin.Transform`: `project.createSourceFile` and `project.addSourceFileAtPath` (src/index.ts:80, :85) are assumed to
  succeed. ts-morph throws when a created path is already in the project or on disk, and when an added file
  does not exist. `transform` then fails before its `push`. The model (and `Admission.Admit`) does not capture
  that error path. A repeated script-block id, for instance, fails there instead of being pushed twice.
- `createFilter` glob and regex matching (src/index.ts:31): `filter` is an opaque predicate, and the
  default include and exclude patterns are not modelled.
- `path.resolve`, `path.relative`, `path.dirname` and `normalizePath` are opaque functions. POSIX path
  normalisation is not modelled.
- `fs.mkdir` and `fs.writeFile` (src/index.ts:110-115): writes are records. Directory creation and
  filesystem errors are not modelled, and the awaited calls are taken to run one after another.
- The plugin metadata `name`, `apply` and `enforce`, and the commented-out `configResolved`
  (src/index.ts:54-71).
- `Plugin.DtsPlugin.Transform`: does not model the hook's return value (`null` or `undefined`). Both
  mean "code unchanged" to Vite.
- Regular expressions run on UTF-16 code units in JavaScript, while Dafny characters are Unicode scalar
  values. The patterns name only ASCII characters. A character outside the Basic Multilingual Plane is
  two code units, and `.*` or `.+` take both of them, so those matches are the same. The one place
  where the encoding matters is the single `.` of `/lang.ts/`. `IdPatterns.IsLangTs` states it
  explicitly by requiring one code unit there.
