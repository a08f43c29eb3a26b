/**
 * The three regular-expression tests `transform` applies to a module id, written
 * out with JavaScript's semantics: a pattern is unanchored unless it says `$`,
 * and `.` matches any character except a line terminator.
 */
module IdPatterns {
  import opened Text

  predicate NoLineTerminator(s: string)
  {
    forall k | 0 <= k < |s| :: !IsLineTerminator(s[k])
  }

  /**
   * `/\.vue(\?.*type=script.*)$/`: a Vue single-file-component script block, such
   * as `/src/App.vue?vue&type=script&lang.ts`. After `.vue?` comes `type=script`
   * somewhere, and nothing from the `?` to the end of the id is a line terminator.
   */
  predicate IsScriptBlockId(id: string)
  {
    exists i, j | 0 <= i < |id| && i + 5 <= j < |id| ::
      OccursAt(id, ".vue?", i) && OccursAt(id, "type=script", j) && NoLineTerminator(id[i + 5..])
  }

  /**
   * `/lang.ts/`: `lang`, one UTF-16 code unit other than a line terminator,
   * then `ts`. Without the `u` flag `.` matches a single code unit, so a
   * character outside the Basic Multilingual Plane (two code units) there
   * does not match.
   */
  predicate IsLangTs(id: string)
  {
    exists i | 0 <= i < |id| ::
      OccursAt(id, "lang", i) && i + 7 <= |id| &&
      !IsLineTerminator(id[i + 4]) && (id[i + 4] as int) < 0x1_0000 && OccursAt(id, "ts", i + 5)
  }

  /** `/\.tsx?$/`: the id ends in `.ts` or `.tsx`. */
  predicate IsTsFileId(id: string)
  {
    EndsWith(id, ".ts") || EndsWith(id, ".tsx")
  }
}
