/**
 * Module admission: what one `transform(code, id)` call registers with the
 * compiler session (src/index.ts:73-87), and what a whole build's sequence of
 * calls leaves in the plugin-wide `sourceFiles` list.
 */
module Admission {
  import opened Wrappers
  import opened Text
  import opened Host
  import opened IdPatterns

  /**
   * One entry of `sourceFiles`: a script block registered by its content under
   * a synthesized path (`project.createSourceFile`), or a TypeScript file
   * registered by its path on disk (`project.addSourceFileAtPath`). Both
   * calls are taken to succeed.
   */
  datatype Registration = ByContent(path: string, code: string) | ByPath(path: string)

  /** The arguments of one `transform` call. */
  datatype Call = Call(code: string, id: string)

  /**
   * The path a script block is registered under: the id up to its first `?`,
   * normalized and resolved against `root`, plus `.ts` when the id matches
   * `/lang.ts/` and `.js` otherwise.
   */
  function ScriptBlockPath(paths: PathOps, root: string, id: string): string
  {
    paths.resolve(root, paths.normalizePath(BeforeFirst(id, '?'))) + (if IsLangTs(id) then ".ts" else ".js")
  }

  /**
   * The registration one `transform(code, id)` call makes, if any. The filter
   * is the opaque predicate built from the include and exclude patterns.
   */
  function Admit(paths: PathOps, root: string, filter: string -> bool, code: string, id: string): (r: Option<Registration>)
    // the gate: empty code or a filtered-out id registers nothing
    ensures r.Some? <==> code != "" && filter(id) && (IsScriptBlockId(id) || IsTsFileId(id))
    // a script block is registered by its content, under the id's path before
    // `?`, with `.ts` or `.js` appended; this wins over the `.ts` test
    ensures r.Some? && IsScriptBlockId(id) ==>
      r.value.ByContent? && r.value.code == code &&
      EndsWith(r.value.path, if IsLangTs(id) then ".ts" else ".js") &&
      r.value.path[..|r.value.path| - 3] == paths.resolve(root, paths.normalizePath(BeforeFirst(id, '?')))
    // any other admitted id is a `.ts`/`.tsx` file registered by its resolved path;
    // the code the bundler passed is not kept
    ensures r.Some? && !IsScriptBlockId(id) ==>
      IsTsFileId(id) && r.value == ByPath(paths.resolve(root, paths.normalizePath(id)))
  {
    if code == "" || !filter(id) then None
    else if IsScriptBlockId(id) then Some(ByContent(ScriptBlockPath(paths, root, id), code))
    else if IsTsFileId(id) then Some(ByPath(paths.resolve(root, paths.normalizePath(id))))
    else None
  }

  /** `sourceFiles` after the given `transform` calls, in call order. */
  function Registry(paths: PathOps, root: string, filter: string -> bool, calls: seq<Call>): seq<Registration>
  {
    if calls == [] then []
    else
      var last := calls[|calls| - 1];
      Registry(paths, root, filter, calls[..|calls| - 1]) + AsSeq(Admit(paths, root, filter, last.code, last.id))
  }

  /**
   * Later calls only append: the registry of a longer history starts with the
   * registry of any prefix of it, unchanged.
   */
  lemma {:induction false} RegistryAppend(paths: PathOps, root: string, filter: string -> bool, c1: seq<Call>, c2: seq<Call>)
    ensures Registry(paths, root, filter, c1 + c2) == Registry(paths, root, filter, c1) + Registry(paths, root, filter, c2)
    decreases |c2|
  {
    if c2 == [] {
      assert c1 + c2 == c1;
    } else {
      var init := c2[..|c2| - 1];
      var last := c2[|c2| - 1];
      assert (c1 + c2)[..|c1 + c2| - 1] == c1 + init;
      assert (c1 + c2)[|c1 + c2| - 1] == last;
      RegistryAppend(paths, root, filter, c1, init);
    }
  }

  /**
   * Every call registers at most one entry, and every entry comes from a call
   * whose admission produced exactly it.
   */
  lemma {:induction false} RegistryFromCalls(paths: PathOps, root: string, filter: string -> bool, calls: seq<Call>)
    ensures |Registry(paths, root, filter, calls)| <= |calls|
    ensures forall r :: r in Registry(paths, root, filter, calls) ==>
      exists i :: 0 <= i < |calls| && Admit(paths, root, filter, calls[i].code, calls[i].id) == Some(r)
    decreases |calls|
  {
    if calls != [] {
      var init := calls[..|calls| - 1];
      var last := calls[|calls| - 1];
      RegistryFromCalls(paths, root, filter, init);
      forall r | r in Registry(paths, root, filter, calls)
        ensures exists i :: 0 <= i < |calls| && Admit(paths, root, filter, calls[i].code, calls[i].id) == Some(r)
      {
        if r in Registry(paths, root, filter, init) {
          var i :| 0 <= i < |init| && Admit(paths, root, filter, init[i].code, init[i].id) == Some(r);
          assert calls[i] == init[i];
        } else {
          assert Admit(paths, root, filter, last.code, last.id) == Some(r);
        }
      }
    }
  }

  /**
   * No deduplication: the `push` into `sourceFiles` does not look for an
   * existing entry, so the same admitted module transformed twice is pushed
   * twice. Both registration calls are taken to succeed.
   */
  lemma RepeatedCallRegistersTwice(paths: PathOps, root: string, filter: string -> bool, calls: seq<Call>, c: Call)
    requires Admit(paths, root, filter, c.code, c.id).Some?
    ensures var r := Admit(paths, root, filter, c.code, c.id).value;
      Registry(paths, root, filter, calls + [c, c]) == Registry(paths, root, filter, calls) + [r, r]
  {
    var r := Admit(paths, root, filter, c.code, c.id).value;
    RegistryAppend(paths, root, filter, calls, [c, c]);
    assert [c, c][..1] == [c];
    assert [c][..0] == [];
    assert Registry(paths, root, filter, [c]) == [r];
    assert Registry(paths, root, filter, [c, c]) == [r, r];
  }

  /** `id.split('?')[0]` of a component path followed by a query. */
  lemma BeforeQuery(file: string, query: string)
    requires '?' !in file
    ensures BeforeFirst(file + "?" + query, '?') == file
  {
    var s := file + "?" + query;
    var r := BeforeFirst(s, '?');
    assert s[|file|] == '?';
    forall m | 0 <= m < |r| ensures r[m] == s[m] && r[m] != '?' {
    }
    forall m | 0 <= m < |file| ensures s[m] != '?' {
      assert s[m] == file[m];
    }
    assert r == s[..|r|] && s[..|file|] == file;
  }

  /** An id `<file>.vue?<query>` is a script block when its query names `type=script`. */
  lemma ScriptBlockIdShape(file: string, query: string, j: nat)
    requires OccursAt(query, "type=script", j) && NoLineTerminator(query)
    ensures IsScriptBlockId(file + ".vue?" + query)
  {
    var id := file + ".vue?" + query;
    var i := |file|;
    assert id[i..i + 5] == ".vue?";
    assert id[i + 5 + j..i + 5 + j + 11] == query[j..j + 11];
    assert id[i + 5..] == query;
    assert OccursAt(id, ".vue?", i) && OccursAt(id, "type=script", i + 5 + j);
  }

  /**
   * `/lang.ts/` matches wherever `lang`, one character held in a single UTF-16
   * code unit, and `ts` follow each other.
   */
  lemma LangTsAnywhere(pre: string, c: char, post: string)
    requires !IsLineTerminator(c) && (c as int) < 0x1_0000
    ensures IsLangTs(pre + "lang" + [c] + "ts" + post)
  {
    var id := pre + "lang" + [c] + "ts" + post;
    var i := |pre|;
    assert id[i..i + 4] == "lang";
    assert id[i + 4] == c;
    assert id[i + 5..i + 7] == "ts";
    assert OccursAt(id, "lang", i) && OccursAt(id, "ts", i + 5);
  }

  /** A character outside the Basic Multilingual Plane is two code units, so `/lang.ts/` does not match across it. */
  lemma LangTsNotAcrossAstral(c: char)
    requires (c as int) >= 0x1_0000
    ensures !IsLangTs("lang" + [c] + "ts")
  {
  }

  /** An id whose query ends in `lang.ts` passes both `/lang.ts/` and `/\.tsx?$/`. */
  lemma QueryEndingLangTs(file: string, query: string)
    requires EndsWith(query, "lang.ts")
    ensures IsLangTs(file + ".vue?" + query) && IsTsFileId(file + ".vue?" + query)
  {
    var id := file + ".vue?" + query;
    var n := |query|;
    assert query == query[..n - 7] + "lang" + ['.'] + "ts" + [] by {
      assert query[n - 7..] == "lang.ts";
    }
    assert id == (file + ".vue?" + query[..n - 7]) + "lang" + ['.'] + "ts" + [];
    LangTsAnywhere(file + ".vue?" + query[..n - 7], '.', []);
    assert id[|id| - 3..] == query[n - 3..] == ".ts";
  }

  /**
   * A script-block id such as `App.vue?vue&type=script&lang.ts` also ends in
   * `.ts`, yet it is registered by its content, under `App.vue` resolved
   * against the root, plus `.ts`.
   */
  lemma ScriptBlockWinsOverTsExtension(paths: PathOps, root: string, filter: string -> bool,
                                       code: string, file: string, query: string, j: nat)
    requires code != "" && filter(file + ".vue?" + query)
    requires '?' !in file
    requires OccursAt(query, "type=script", j) && NoLineTerminator(query)
    requires EndsWith(query, "lang.ts")
    ensures var id := file + ".vue?" + query;
      IsTsFileId(id) &&
      Admit(paths, root, filter, code, id)
        == Some(ByContent(paths.resolve(root, paths.normalizePath(file + ".vue")) + ".ts", code))
  {
    var id := file + ".vue?" + query;
    ScriptBlockIdShape(file, query, j);
    QueryEndingLangTs(file, query);
    assert id == (file + ".vue") + "?" + query;
    BeforeQuery(file + ".vue", query);
    assert BeforeFirst(id, '?') == file + ".vue";
  }
}
