/**
 * The plugin object (src/index.ts:22-119): the options it closes over, the
 * `sourceFiles` list that `transform` appends to, and `generateBundle`, which
 * walks that list and the compiler's outputs to produce the writes.
 */
module Plugin {
  import opened Wrappers
  import opened Text
  import opened Host
  import opened IdPatterns
  import opened Admission
  import opened Emission

  class DtsPlugin {
    const root: string
    const filter: string -> bool
    const paths: PathOps
    const cleanVueFileName: bool

    /** The registrations made so far, in call order. */
    var sourceFiles: seq<Registration>
    /** Every `transform` call made so far. */
    ghost var calls: seq<Call>

    ghost predicate Valid()
      reads this
    {
      sourceFiles == Registry(paths, root, filter, calls)
    }

    /**
     * The plugin factory with its options: an absent `root` defaults to the
     * working directory `cwd` (`process.cwd()`), an absent `cleanVueFileName`
     * to `false`. `filter` is the predicate `createFilter` builds from
     * `include` and `exclude`.
     */
    constructor (root: Option<string>, cwd: string, filter: string -> bool, paths: PathOps,
                 cleanVueFileName: Option<bool>)
      ensures Valid()
      ensures root.Some? ==> this.root == root.value
      ensures root.None? ==> this.root == cwd
      ensures this.cleanVueFileName <==> cleanVueFileName == Some(true)
      ensures this.filter == filter && this.paths == paths
      ensures sourceFiles == [] && calls == []
    {
      this.root := match root case Some(r) => r case None => cwd;
      this.filter := filter;
      this.paths := paths;
      this.cleanVueFileName := match cleanVueFileName case Some(b) => b case None => false;
      sourceFiles := [];
      calls := [];
    }

    /**
     * `transform(code, id)`: registers a Vue script block by its content or a
     * `.ts`/`.tsx` module by its path, appending at most one entry; the code
     * passed through is never changed.
     */
    method Transform(code: string, id: string)
      requires Valid()
      modifies this
      ensures Valid()
      ensures calls == old(calls) + [Call(code, id)]
      ensures sourceFiles == old(sourceFiles) + AsSeq(Admit(paths, root, filter, code, id))
    {
      calls := calls + [Call(code, id)];
      assert calls[..|calls| - 1] == old(calls);
      if code == "" || !filter(id) {
        return;
      }
      if IsScriptBlockId(id) {
        var filePath := paths.resolve(root, paths.normalizePath(BeforeFirst(id, '?')));
        sourceFiles := sourceFiles + [ByContent(filePath + (if IsLangTs(id) then ".ts" else ".js"), code)];
      } else if IsTsFileId(id) {
        var filePath := paths.resolve(root, paths.normalizePath(id));
        sourceFiles := sourceFiles + [ByPath(filePath)];
      }
    }

    /**
     * `generateBundle(outputOptions)`: for each registered source file in
     * order, and each file the compiler emitted for it in order, one write.
     * `emitted` stands for the compiler session after `emitToMemory`.
     */
    method GenerateBundle(output: OutputOptions, emitted: Registration -> seq<EmittedFile>)
      returns (r: Result<seq<Write>, BundleError>)
      ensures r == Bundle(paths, root, cleanVueFileName, output, sourceFiles, emitted)
    {
      var declarationDir := DeclarationDir(paths, output);
      // the context every write uses; only consulted once the directory is known
      var ctx := RemapContext(paths, root, if declarationDir.Some? then declarationDir.value else "", cleanVueFileName);
      var writes: seq<Write> := [];
      var i := 0;
      while i < |sourceFiles|
        invariant 0 <= i <= |sourceFiles|
        invariant declarationDir.None? ==> writes == [] && AllOutputs(sourceFiles[..i], emitted) == []
        invariant declarationDir.Some? ==> writes == RemapAll(ctx, AllOutputs(sourceFiles[..i], emitted))
      {
        var outputs := emitted(sourceFiles[i]);
        ghost var before := AllOutputs(sourceFiles[..i], emitted);
        AllOutputsStep(sourceFiles, emitted, i);
        var j := 0;
        while j < |outputs|
          invariant 0 <= j <= |outputs|
          invariant declarationDir.None? ==> writes == [] && j == 0
          invariant declarationDir.Some? ==> writes == RemapAll(ctx, before + outputs[..j])
        {
          if declarationDir.None? {
            // `resolve(undefined, …)` throws before anything is written
            AllOutputsPrefix(sourceFiles, emitted, i + 1);
            return Failure(DeclarationDirUndefined);
          }
          RemapAllStep(ctx, before + outputs[..j], outputs[j]);
          assert before + outputs[..j + 1] == (before + outputs[..j]) + [outputs[j]];
          writes := writes + [Remap(ctx, outputs[j])];
          j := j + 1;
        }
        assert outputs[..j] == outputs;
        i := i + 1;
      }
      assert sourceFiles[..i] == sourceFiles;
      r := Success(writes);
    }
  }
}
