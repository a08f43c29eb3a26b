/**
 * Emission remapping (src/index.ts:89-118): after the build, every registered
 * source file's emitted outputs are written under the declaration directory,
 * at their root-relative paths, optionally with `.vue` cleaned from paths and
 * import specifiers.
 */
module Emission {
  import opened Wrappers
  import opened Text
  import opened Host
  import opened Admission
  import opened VueClean

  /** The two fields of Rollup's output options the plugin reads. */
  datatype OutputOptions = OutputOptions(file: Option<string>, dir: Option<string>)

  /** One file the compiler emitted for a source file: its path and its text. */
  datatype EmittedFile = EmittedFile(path: string, text: string)

  /** One `fs.writeFile(target, content)`. */
  datatype Write = Write(target: string, content: string)

  /**
   * With neither `file` nor `dir` set the declaration directory is undefined,
   * and `path.resolve` throws on it at the first output file.
   */
  datatype BundleError = DeclarationDirUndefined

  /** What the remapping of one output file depends on. */
  datatype RemapContext = RemapContext(paths: PathOps, root: string, declarationDir: string, cleanVueFileName: bool)

  /** `outputOptions.file ? dirname(outputOptions.file) : outputOptions.dir`. */
  function DeclarationDir(paths: PathOps, output: OutputOptions): Option<string>
  {
    if output.file.Some? && output.file.value != "" then Some(paths.dirname(output.file.value))
    else output.dir
  }

  /** The write issued for one emitted file. */
  function Remap(ctx: RemapContext, f: EmittedFile): (w: Write)
    // cleaning off: the root-relative path under the declaration directory, text as emitted
    ensures !ctx.cleanVueFileName ==>
      w == Write(ctx.paths.resolve(ctx.declarationDir, ctx.paths.relative(ctx.root, f.path)), f.text)
    // cleaning on: the text changes exactly when the regex `['"](.+)\.vue['"]` matches somewhere in it
    ensures ctx.cleanVueFileName ==> (w.content == f.text <==> !VueRegexMatchesSomewhere(f.text))
    // cleaning on: a path without `.vue.d.ts` is remapped as with cleaning off
    ensures ctx.cleanVueFileName && !Occurs(f.path, ".vue.d.ts") ==>
      w.target == ctx.paths.resolve(ctx.declarationDir, ctx.paths.relative(ctx.root, f.path))
  {
    CleanIdentityIff(f.text);
    var path := if ctx.cleanVueFileName then CleanVuePath(f.path) else f.path;
    var text := if ctx.cleanVueFileName then CleanVueImports(f.text) else f.text;
    Write(ctx.paths.resolve(ctx.declarationDir, ctx.paths.relative(ctx.root, path)), text)
  }

  /**
   * With cleaning on, the declaration emitted for a script block registered as
   * `…/X.vue.ts` (or `.js`), that is `…/X.vue.d.ts`, is written as `X.d.ts`.
   */
  lemma RemapDropsVueInfix(ctx: RemapContext, stem: string, text: string)
    requires ctx.cleanVueFileName && !Occurs(stem, ".vue.d.ts")
    ensures Remap(ctx, EmittedFile(stem + ".vue.d.ts", text)).target
         == ctx.paths.resolve(ctx.declarationDir, ctx.paths.relative(ctx.root, stem + ".d.ts"))
  {
    CleanVuePathFirstOnly(stem, []);
    assert stem + ".vue.d.ts" + [] == stem + ".vue.d.ts";
    assert stem + ".d.ts" + [] == stem + ".d.ts";
  }

  /**
   * The emitted files of `regs`, registration by registration and, within one,
   * in the compiler's order. `emitted` stands for the compiler session after
   * `emitToMemory`: the outputs of each source file.
   */
  function AllOutputs(regs: seq<Registration>, emitted: Registration -> seq<EmittedFile>): seq<EmittedFile>
  {
    if regs == [] then []
    else AllOutputs(regs[..|regs| - 1], emitted) + emitted(regs[|regs| - 1])
  }

  /** The number of files the compiler emits for `regs`, counted front to back. */
  function OutputCount(regs: seq<Registration>, emitted: Registration -> seq<EmittedFile>): nat
  {
    if regs == [] then 0 else |emitted(regs[0])| + OutputCount(regs[1..], emitted)
  }

  /** The writes for a sequence of emitted files, one each, in order. */
  function RemapAll(ctx: RemapContext, files: seq<EmittedFile>): seq<Write>
  {
    seq(|files|, k requires 0 <= k < |files| => Remap(ctx, files[k]))
  }

  /** Everything `generateBundle` writes, or the error it stops with. */
  function Bundle(paths: PathOps, root: string, cleanVueFileName: bool, output: OutputOptions,
                  registry: seq<Registration>, emitted: Registration -> seq<EmittedFile>): Result<seq<Write>, BundleError>
  {
    var files := AllOutputs(registry, emitted);
    match DeclarationDir(paths, output)
    case None => if files == [] then Success([]) else Failure(DeclarationDirUndefined)
    case Some(dir) => Success(RemapAll(RemapContext(paths, root, dir, cleanVueFileName), files))
  }

  lemma {:induction false} AllOutputsAppend(a: seq<Registration>, b: seq<Registration>, emitted: Registration -> seq<EmittedFile>)
    ensures AllOutputs(a + b, emitted) == AllOutputs(a, emitted) + AllOutputs(b, emitted)
    decreases |b|
  {
    if b == [] {
      assert a + b == a;
    } else {
      var init := b[..|b| - 1];
      assert (a + b)[..|a + b| - 1] == a + init;
      assert (a + b)[|a + b| - 1] == b[|b| - 1];
      AllOutputsAppend(a, init, emitted);
    }
  }

  /** One more registration adds its outputs after those of the ones before it. */
  lemma AllOutputsStep(regs: seq<Registration>, emitted: Registration -> seq<EmittedFile>, i: nat)
    requires i < |regs|
    ensures AllOutputs(regs[..i + 1], emitted) == AllOutputs(regs[..i], emitted) + emitted(regs[i])
  {
    assert regs[..i + 1][..i] == regs[..i];
  }

  /** The outputs of a prefix of the registry are a prefix of all outputs. */
  lemma AllOutputsPrefix(regs: seq<Registration>, emitted: Registration -> seq<EmittedFile>, i: nat)
    requires i <= |regs|
    ensures AllOutputs(regs[..i], emitted) <= AllOutputs(regs, emitted)
  {
    assert regs == regs[..i] + regs[i..];
    AllOutputsAppend(regs[..i], regs[i..], emitted);
  }

  /** One more emitted file adds one write, at the end. */
  lemma RemapAllStep(ctx: RemapContext, files: seq<EmittedFile>, f: EmittedFile)
    ensures RemapAll(ctx, files + [f]) == RemapAll(ctx, files) + [Remap(ctx, f)]
  {
  }

  /** Exactly one write per emitted file: as many outputs as the files emit. */
  lemma {:induction false} AllOutputsCount(regs: seq<Registration>, emitted: Registration -> seq<EmittedFile>)
    ensures |AllOutputs(regs, emitted)| == OutputCount(regs, emitted)
    decreases |regs|
  {
    if regs != [] {
      AllOutputsCount(regs[1..], emitted);
      AllOutputsAppend([regs[0]], regs[1..], emitted);
      assert [regs[0]] + regs[1..] == regs;
      assert AllOutputs([regs[0]], emitted) == emitted(regs[0]) by {
        assert [regs[0]][..0] == [];
      }
    }
  }

  /**
   * Order: the outputs of registration `i` sit together, right after those of
   * the registrations before it, in the order the compiler gave them.
   */
  lemma OutputsInRegistryOrder(regs: seq<Registration>, emitted: Registration -> seq<EmittedFile>, i: nat, j: nat)
    requires i < |regs| && j < |emitted(regs[i])|
    ensures var offset := |AllOutputs(regs[..i], emitted)|;
      offset + |emitted(regs[i])| == |AllOutputs(regs[..i + 1], emitted)| &&
      offset + j < |AllOutputs(regs, emitted)| &&
      AllOutputs(regs, emitted)[offset + j] == emitted(regs[i])[j]
  {
    assert regs[..i + 1][..i] == regs[..i];
    assert regs[..i + 1][i] == regs[i];
    assert regs == regs[..i + 1] + regs[i + 1..];
    AllOutputsAppend(regs[..i + 1], regs[i + 1..], emitted);
  }

  /**
   * Output file `j` of registration `i` becomes the write at its place in
   * registry order, under `dirname(file)` when `file` is set and under `dir`
   * otherwise.
   */
  lemma BundleWritesEachOutput(paths: PathOps, root: string, cleanVueFileName: bool, output: OutputOptions,
                               registry: seq<Registration>, emitted: Registration -> seq<EmittedFile>, i: nat, j: nat)
    requires i < |registry| && j < |emitted(registry[i])|
    ensures var r := Bundle(paths, root, cleanVueFileName, output, registry, emitted);
      var fileSet := output.file.Some? && output.file.value != "";
      var k := |AllOutputs(registry[..i], emitted)| + j;
      (r.Failure? <==> !fileSet && output.dir.None?) &&
      (r.Success? ==>
        k < |r.value| &&
        r.value[k] == Remap(RemapContext(paths, root, if fileSet then paths.dirname(output.file.value) else output.dir.value,
                                         cleanVueFileName),
                            emitted(registry[i])[j]))
  {
    OutputsInRegistryOrder(registry, emitted, i, j);
  }

  /** Exactly one write per emitted file: a successful run writes as many files as the compiler emitted. */
  lemma BundleWriteCount(paths: PathOps, root: string, cleanVueFileName: bool, output: OutputOptions,
                         registry: seq<Registration>, emitted: Registration -> seq<EmittedFile>)
    ensures var r := Bundle(paths, root, cleanVueFileName, output, registry, emitted);
      r.Success? ==> |r.value| == OutputCount(registry, emitted)
  {
    AllOutputsCount(registry, emitted);
  }

  /**
   * Without a declaration directory nothing is written: the build fails as
   * soon as there is an output file, and succeeds with no writes otherwise.
   */
  lemma BundleWithoutDirectory(paths: PathOps, root: string, cleanVueFileName: bool, output: OutputOptions,
                               registry: seq<Registration>, emitted: Registration -> seq<EmittedFile>)
    requires output.file.None? || output.file.value == ""
    requires output.dir.None?
    ensures Bundle(paths, root, cleanVueFileName, output, registry, emitted)
         == if OutputCount(registry, emitted) == 0 then Success([]) else Failure(DeclarationDirUndefined)
  {
    AllOutputsCount(registry, emitted);
  }
}
