/**
 * The two rewrites `generateBundle` applies when `cleanVueFileName` is on
 * (src/index.ts:107 and :113).
 *
 * The path rewrite is `filePath.replace('.vue.d.ts', '.d.ts')`: a string
 * pattern, so only the leftmost `.vue.d.ts` changes.
 *
 * The content rewrite is `content.replace(/['"](.+)\.vue['"]/g, '"$1"')`. The
 * regular expression is searched for leftmost first; at a start position the
 * greedy `(.+)` takes the longest run that still lets `.vue` and a closing quote
 * follow, and `.` stops at a line terminator. After a match the search resumes
 * at its end. This module models exactly that, and proves what it means for
 * texts.
 */
module VueClean {
  import opened Wrappers
  import opened Text

  /** `.vue` followed by a quote starts at index `k` of `s`. */
  predicate VueQuoteAt(s: string, k: int)
  {
    0 <= k && k + 5 <= |s| && s[k] == '.' && s[k + 1] == 'v' && s[k + 2] == 'u' && s[k + 3] == 'e' && IsQuote(s[k + 4])
  }

  /**
   * The regular expression matches `s` from index 0 with its group `(.+)`
   * being `s[1..k]`: an opening quote, a non-empty group without line
   * terminators, `.vue`, a closing quote.
   */
  ghost predicate MatchEndsAt(s: string, k: int)
  {
    2 <= k && VueQuoteAt(s, k) && IsQuote(s[0]) &&
    forall m :: 1 <= m < k ==> !IsLineTerminator(s[m])
  }

  /** The regular expression matches somewhere in `s`. */
  ghost predicate VueRegexMatchesSomewhere(s: string)
  {
    exists p, k :: 0 <= p <= |s| && MatchEndsAt(s[p..], k)
  }

  /** The first line terminator in `s` at or after `from`, or `|s|`. */
  function LineEnd(s: string, from: nat): (e: nat)
    requires from <= |s|
    ensures from <= e <= |s|
    ensures e < |s| ==> IsLineTerminator(s[e])
    decreases |s| - from
  {
    if from == |s| || IsLineTerminator(s[from]) then from else LineEnd(s, from + 1)
  }

  /** No line terminator lies between `from` and LineEnd. */
  lemma {:induction false} LineEndIsFirst(s: string, from: nat)
    requires from <= |s|
    ensures forall m :: from <= m < LineEnd(s, from) ==> !IsLineTerminator(s[m])
    decreases |s| - from
  {
    if from < |s| && !IsLineTerminator(s[from]) {
      LineEndIsFirst(s, from + 1);
    }
  }

  /** The largest `m` in `[2, k]` at which `.vue` and a quote start. */
  function LastVueQuote(s: string, k: int): (r: Option<nat>)
    requires k + 5 <= |s|
    ensures r.Some? ==> 2 <= r.value <= k && VueQuoteAt(s, r.value)
    decreases k
  {
    if k < 2 then None
    else if VueQuoteAt(s, k) then Some(k)
    else LastVueQuote(s, k - 1)
  }

  /** LastVueQuote finds every candidate up to `k`. */
  lemma {:induction false} LastVueQuoteIsLargest(s: string, k: int)
    requires k + 5 <= |s|
    ensures forall m :: 2 <= m <= k && VueQuoteAt(s, m) ==> LastVueQuote(s, k).Some? && m <= LastVueQuote(s, k).value
    decreases k
  {
    if k >= 2 && !VueQuoteAt(s, k) {
      LastVueQuoteIsLargest(s, k - 1);
    }
  }

  /** A match never reaches a line terminator. */
  lemma MatchWithinLine(s: string, k: int)
    requires MatchEndsAt(s, k)
    ensures forall m :: 1 <= m < k + 5 ==> !IsLineTerminator(s[m])
  {
    forall m | k <= m < k + 4 ensures !IsLineTerminator(s[m]) {
      assert s[m] == s[k..k + 4][m - k];
    }
  }

  /**
   * The match of the regular expression at index 0 of `s`, given by where its
   * `.vue` starts; GreedyMatchIsLongest says which one it is.
   */
  function GreedyMatch(s: string): (r: Option<nat>)
    ensures r.Some? ==> 2 <= r.value && r.value + 5 <= |s|
  {
    if |s| == 0 || !IsQuote(s[0]) then None
    else
      var e := LineEnd(s, 1);
      if e < 5 then None else LastVueQuote(s, e - 5)
  }

  /**
   * GreedyMatch finds the match the regular expression engine takes at index
   * 0: there is one exactly when some match exists, and it is the longest.
   */
  lemma GreedyMatchIsLongest(s: string)
    ensures GreedyMatch(s).Some? ==> MatchEndsAt(s, GreedyMatch(s).value)
    ensures forall k :: MatchEndsAt(s, k) ==> GreedyMatch(s).Some? && k <= GreedyMatch(s).value
  {
    if |s| > 0 && IsQuote(s[0]) {
      var e := LineEnd(s, 1);
      LineEndIsFirst(s, 1);
      if e >= 5 { LastVueQuoteIsLargest(s, e - 5); }
      forall k | MatchEndsAt(s, k) ensures k + 5 <= e {
        MatchWithinLine(s, k);
      }
    }
  }

  /** `content.replace(/['"](.+)\.vue['"]/g, '"$1"')`. */
  function CleanVueImports(s: string): string
    decreases |s|
  {
    if s == [] then []
    else match GreedyMatch(s)
      case Some(k) => "\"" + s[1..k] + "\"" + CleanVueImports(s[k + 5..])
      case None => [s[0]] + CleanVueImports(s[1..])
  }

  /** `filePath.replace('.vue.d.ts', '.d.ts')`. */
  function CleanVuePath(p: string): string
  {
    ReplaceFirst(p, ".vue.d.ts", ".d.ts")
  }

  // ---------------------------------------------------------------- content

  /** One step of the global replacement, as the two equations it stands for. */
  lemma CleanStep(s: string)
    requires s != []
    ensures GreedyMatch(s).Some? ==>
      CleanVueImports(s) == "\"" + s[1..GreedyMatch(s).value] + "\"" + CleanVueImports(s[GreedyMatch(s).value + 5..])
    ensures GreedyMatch(s).None? ==> CleanVueImports(s) == [s[0]] + CleanVueImports(s[1..])
  {
  }

  /** A match somewhere in `s` is a match at its start or one further on. */
  lemma SpecifierShift(s: string)
    requires s != []
    ensures VueRegexMatchesSomewhere(s) <==> (exists k :: MatchEndsAt(s, k)) || VueRegexMatchesSomewhere(s[1..])
  {
    assert s[0..] == s;
    if VueRegexMatchesSomewhere(s) {
      var p, k :| 0 <= p <= |s| && MatchEndsAt(s[p..], k);
      if p > 0 {
        assert s[1..][p - 1..] == s[p..];
      }
    }
    if VueRegexMatchesSomewhere(s[1..]) {
      var p, k :| 0 <= p <= |s[1..]| && MatchEndsAt(s[1..][p..], k);
      assert s[1..][p..] == s[p + 1..];
    }
  }

  lemma {:induction false} CleanWithoutSpecifier(s: string)
    requires !VueRegexMatchesSomewhere(s)
    ensures CleanVueImports(s) == s
    decreases |s|
  {
    if s != [] {
      SpecifierShift(s);
      GreedyMatchIsLongest(s);
      assert GreedyMatch(s) == None;
      CleanWithoutSpecifier(s[1..]);
    }
  }

  lemma {:induction false} CleanShortens(s: string)
    ensures |CleanVueImports(s)| <= |s|
    ensures VueRegexMatchesSomewhere(s) ==> |CleanVueImports(s)| < |s|
    decreases |s|
  {
    if s != [] {
      CleanStep(s);
      match GreedyMatch(s)
      case Some(k) =>
        CleanShortens(s[k + 5..]);
      case None =>
        CleanShortens(s[1..]);
        if VueRegexMatchesSomewhere(s) {
          // no match starts at index 0, so one starts further on
          SpecifierShift(s);
          GreedyMatchIsLongest(s);
        }
    }
  }

  /**
   * With cleaning on, a text is written unchanged exactly when the regular
   * expression matches nowhere in it; otherwise it gets shorter.
   */
  lemma CleanIdentityIff(s: string)
    ensures CleanVueImports(s) == s <==> !VueRegexMatchesSomewhere(s)
  {
    CleanShortens(s);
    if !VueRegexMatchesSomewhere(s) { CleanWithoutSpecifier(s); }
  }

  /** A text in which `.vue` is never directly followed by a quote is unchanged. */
  lemma CleanWithoutVueQuote(s: string)
    requires forall k :: !VueQuoteAt(s, k)
    ensures CleanVueImports(s) == s
  {
    forall p, k | 0 <= p <= |s| ensures !MatchEndsAt(s[p..], k) {
      if 0 <= k && k + 5 <= |s[p..]| {
        assert s[p..][k..k + 4] == s[p + k..p + k + 4];
        assert s[p..][k + 4] == s[p + k + 4];
        assert !VueQuoteAt(s, p + k);
      }
    }
    CleanWithoutSpecifier(s);
  }

  lemma MatchIgnoresLaterLines(x: string, lt: char, y: string, k: int)
    requires IsLineTerminator(lt)
    ensures MatchEndsAt(x + [lt] + y, k) <==> MatchEndsAt(x, k)
  {
    var s := x + [lt] + y;
    assert s[|x|] == lt;
    if 0 <= k && k + 5 <= |x| {
      assert s[k..k + 4] == x[k..k + 4];
      assert s[0] == x[0] && s[k + 4] == x[k + 4];
      assert forall m :: 1 <= m < k ==> s[m] == x[m];
    } else if 2 <= k <= |x| && k + 5 <= |s| {
      var d := |x| - k;
      if d < 4 {
        assert s[k..k + 4][d] == lt;
      } else {
        assert s[k + 4] == lt;
      }
    } else if 1 <= |x| < k && k + 5 <= |s| {
      assert IsLineTerminator(s[|x|]);
    }
  }

  lemma GreedyMatchIgnoresLaterLines(x: string, lt: char, y: string)
    requires IsLineTerminator(lt)
    ensures GreedyMatch(x + [lt] + y) == GreedyMatch(x)
  {
    var s := x + [lt] + y;
    forall k ensures MatchEndsAt(s, k) <==> MatchEndsAt(x, k) {
      MatchIgnoresLaterLines(x, lt, y, k);
    }
    var r1, r2 := GreedyMatch(s), GreedyMatch(x);
    GreedyMatchIsLongest(s);
    GreedyMatchIsLongest(x);
    if r1.Some? {
      assert MatchEndsAt(x, r1.value);
    }
    if r2.Some? {
      assert MatchEndsAt(s, r2.value);
    }
  }

  /**
   * Cleaning works line by line: no match spans a line terminator, so a text
   * is cleaned as its lines are, one after another.
   */
  lemma {:induction false} CleanLineByLine(a: string, lt: char, b: string)
    requires IsLineTerminator(lt)
    ensures CleanVueImports(a + [lt] + b) == CleanVueImports(a) + [lt] + CleanVueImports(b)
    decreases |a|
  {
    if a == [] {
      CleanLineStart(lt, b);
    } else {
      match GreedyMatch(a)
      case Some(k) =>
        CleanLineByLine(a[k + 5..], lt, b);
        CleanShiftMatch(a, lt, b, k);
      case None =>
        CleanLineByLine(a[1..], lt, b);
        CleanShiftNoMatch(a, lt, b);
    }
  }

  lemma CleanLineStart(lt: char, b: string)
    requires IsLineTerminator(lt)
    ensures CleanVueImports([] + [lt] + b) == CleanVueImports([]) + [lt] + CleanVueImports(b)
  {
    var s := [lt] + b;
    assert [] + [lt] + b == s;
    CleanStep(s);
    assert s[0] == lt && s[1..] == b;
    assert GreedyMatch(s) == None;
  }

  /** The first step of cleaning `a + [lt] + b` when a match starts `a`. */
  lemma CleanShiftMatch(a: string, lt: char, b: string, k: nat)
    requires IsLineTerminator(lt) && GreedyMatch(a) == Some(k)
    ensures CleanVueImports(a + [lt] + b) == "\"" + a[1..k] + "\"" + CleanVueImports(a[k + 5..] + [lt] + b)
    ensures CleanVueImports(a) == "\"" + a[1..k] + "\"" + CleanVueImports(a[k + 5..])
  {
    GreedyMatchIgnoresLaterLines(a, lt, b);
    CleanStepMatch(a + [lt] + b, k);
    SlicesAroundMatch(a, lt, b, k);
    CleanStepMatch(a, k);
  }

  /** One step of the global replacement when the match at index 0 ends at `k`. */
  lemma CleanStepMatch(s: string, k: nat)
    requires GreedyMatch(s) == Some(k)
    ensures CleanVueImports(s) == "\"" + s[1..k] + "\"" + CleanVueImports(s[k + 5..])
  {
  }

  lemma SlicesAroundMatch(a: string, lt: char, b: string, k: nat)
    requires 1 <= k && k + 5 <= |a|
    ensures (a + [lt] + b)[1..k] == a[1..k]
    ensures (a + [lt] + b)[k + 5..] == a[k + 5..] + [lt] + b
  {
  }

  /** The first step of cleaning `a + [lt] + b` when no match starts `a`. */
  lemma CleanShiftNoMatch(a: string, lt: char, b: string)
    requires IsLineTerminator(lt) && a != [] && GreedyMatch(a) == None
    ensures CleanVueImports(a + [lt] + b) == [a[0]] + CleanVueImports(a[1..] + [lt] + b)
    ensures CleanVueImports(a) == [a[0]] + CleanVueImports(a[1..])
  {
    var s := a + [lt] + b;
    GreedyMatchIgnoresLaterLines(a, lt, b);
    CleanStep(s);
    CleanStep(a);
    assert s[0] == a[0];
    assert s[1..] == a[1..] + [lt] + b;
  }

  lemma {:induction false} CleanAfterQuoteFreePrefix(pre: string, rest: string)
    requires forall c :: c in pre ==> !IsQuote(c)
    ensures CleanVueImports(pre + rest) == pre + CleanVueImports(rest)
    decreases |pre|
  {
    if pre != [] {
      var s := pre + rest;
      CleanStep(s);
      assert s[0] == pre[0] && !IsQuote(s[0]);
      assert GreedyMatch(s) == None;
      assert CleanVueImports(s) == [pre[0]] + CleanVueImports(s[1..]);
      assert s[1..] == pre[1..] + rest;
      CleanAfterQuoteFreePrefix(pre[1..], rest);
      assert CleanVueImports(s) == [pre[0]] + (pre[1..] + CleanVueImports(rest));
      assert [pre[0]] + pre[1..] == pre;
    } else {
      assert pre + rest == rest;
    }
  }

  /** The greedy match of a quoted specifier followed by quote-free text. */
  lemma GreedyMatchSingle(open: char, name: string, close: char, post: string)
    requires forall c :: c in post ==> !IsQuote(c)
    requires IsQuote(open) && IsQuote(close)
    requires name != [] && forall c :: c in name ==> !IsLineTerminator(c)
    ensures GreedyMatch([open] + name + ".vue" + [close] + post) == Some(|name| + 1)
  {
    var rest := [open] + name + ".vue" + [close] + post;
    var k := |name| + 1;
    assert rest[k..k + 4] == ".vue";
    assert rest[k + 4] == close;
    forall m | 1 <= m < k ensures !IsLineTerminator(rest[m]) {
      assert rest[m] == name[m - 1];
    }
    assert MatchEndsAt(rest, k);
    forall j | k + 5 <= j < |rest| ensures !IsQuote(rest[j]) {
      assert rest[j] == post[j - (k + 5)];
    }
    GreedyMatchIsLongest(rest);
  }

  /** A text without quotes is left as it is. */
  lemma CleanQuoteFree(s: string)
    requires forall c :: c in s ==> !IsQuote(c)
    ensures CleanVueImports(s) == s
  {
    forall m ensures !VueQuoteAt(s, m) {
      if 0 <= m && m + 5 <= |s| { assert s[m + 4] in s; }
    }
    CleanWithoutVueQuote(s);
  }

  lemma CleanSpecifierThenQuoteFree(open: char, name: string, close: char, post: string)
    requires forall c :: c in post ==> !IsQuote(c)
    requires IsQuote(open) && IsQuote(close)
    requires name != [] && forall c :: c in name ==> !IsLineTerminator(c)
    ensures CleanVueImports([open] + name + ".vue" + [close] + post) == "\"" + name + "\"" + post
  {
    var rest := [open] + name + ".vue" + [close] + post;
    var k := |name| + 1;
    GreedyMatchSingle(open, name, close, post);
    CleanStep(rest);
    assert rest[1..k] == name;
    assert rest[k + 5..] == post;
    CleanQuoteFree(post);
  }

  /**
   * A line holding one quoted specifier ending in `.vue`, with no other quote
   * before or after it, loses the `.vue`; both of its quotes become `"`.
   */
  lemma CleanSingleSpecifier(pre: string, open: char, name: string, close: char, post: string)
    requires forall c :: c in pre ==> !IsQuote(c)
    requires forall c :: c in post ==> !IsQuote(c)
    requires IsQuote(open) && IsQuote(close)
    requires name != [] && forall c :: c in name ==> !IsLineTerminator(c)
    ensures CleanVueImports(pre + [open] + name + ".vue" + [close] + post)
         == pre + "\"" + name + "\"" + post
  {
    var rest := [open] + name + ".vue" + [close] + post;
    SpecifierLine(pre, open, name, close, post);
    CleanSpecifierThenQuoteFree(open, name, close, post);
    CleanAfterQuoteFreePrefix(pre, rest);
  }

  lemma SpecifierLine(pre: string, open: char, name: string, close: char, post: string)
    ensures pre + [open] + name + ".vue" + [close] + post
         == pre + ([open] + name + ".vue" + [close] + post)
  {
  }

  /**
   * Two specifiers on one line are NOT cleaned separately: the greedy group
   * runs from the first quote to the last `.vue` and quote, so only the last
   * `.vue` is removed.
   */
  lemma CleanIsGreedyWithinLine(pre: string, a: string, mid: string, b: string, post: string)
    requires forall c :: c in pre ==> !IsQuote(c)
    requires forall c :: c in post ==> !IsQuote(c)
    requires a != []
    requires forall c :: c in a + mid + b ==> !IsLineTerminator(c)
    ensures CleanVueImports(pre + "\"" + a + ".vue\"" + mid + "\"" + b + ".vue\"" + post)
         == pre + "\"" + a + ".vue\"" + mid + "\"" + b + "\"" + post
  {
    var name := a + ".vue\"" + mid + "\"" + b;
    forall c | c in name ensures !IsLineTerminator(c) {
      if c in a { assert c in a + mid + b; }
      else if c in mid { assert c in a + mid + b; }
      else if c in b { assert c in a + mid + b; }
    }
    CleanSingleSpecifier(pre, '"', name, '"', post);
    TwoSpecifiersAsOne(pre, a, mid, b, post);
  }

  /** The two specifiers of a line, read as one whose name holds the first. */
  lemma TwoSpecifiersAsOne(pre: string, a: string, mid: string, b: string, post: string)
    ensures var name := a + ".vue\"" + mid + "\"" + b;
      pre + "\"" + a + ".vue\"" + mid + "\"" + b + ".vue\"" + post == pre + ['"'] + name + ".vue" + ['"'] + post &&
      pre + "\"" + name + "\"" + post == pre + "\"" + a + ".vue\"" + mid + "\"" + b + "\"" + post
  {
  }

  // ------------------------------------------------------------------- path

  /** `.vue.d.ts` cannot start inside `stem` and end inside the `.vue.d.ts` after it. */
  lemma NoOverlapWithVueSuffix(stem: string, rest: string)
    requires !Occurs(stem, ".vue.d.ts")
    ensures forall m :: 0 <= m < |stem| ==> !OccursAt(stem + ".vue.d.ts" + rest, ".vue.d.ts", m)
  {
    var pat := ".vue.d.ts";
    var s := stem + pat + rest;
    forall m | 0 <= m < |stem| ensures !OccursAt(s, pat, m) {
      if m + 9 <= |stem| {
        assert s[m..m + 9] == stem[m..m + 9];
        assert !OccursAt(stem, pat, m);
      } else {
        var d := |stem| - m;
        assert s[m..m + 9][d] == s[|stem|] == '.';
        if d < 8 {
          assert s[m..m + 9][d + 1] == s[|stem| + 1] == 'v';
          assert pat[d] != '.' || pat[d + 1] != 'v';
        } else {
          assert pat[8] == 's';
        }
      }
    }
  }

  /**
   * With cleaning on, the leftmost `.vue.d.ts` of an output path becomes
   * `.d.ts` and everything after it, later `.vue.d.ts` included, is kept.
   */
  lemma CleanVuePathFirstOnly(stem: string, rest: string)
    requires !Occurs(stem, ".vue.d.ts")
    ensures CleanVuePath(stem + ".vue.d.ts" + rest) == stem + ".d.ts" + rest
  {
    var s := stem + ".vue.d.ts" + rest;
    NoOverlapWithVueSuffix(stem, rest);
    assert s[|stem|..|stem| + 9] == ".vue.d.ts";
    assert FirstOccurrence(s, ".vue.d.ts", |stem|);
    assert s[..|stem|] == stem;
    assert s[|stem| + 9..] == rest;
  }
}
