/** The JavaScript string primitives the wizard relies on: `trim`, the
    regular-expression class `\s`, `toLowerCase` as far as file names are
    compared with it, `indexOf`/`includes`, and `replace` with a string
    pattern (including the `$` patterns of its replacement string). */
module JsText {
  import opened Wrappers

  /** ECMAScript WhiteSpace and LineTerminator code points: tab, line feed,
      vertical tab, form feed, carriage return and space among ASCII; no-break
      space, ogham space mark, the spaces U+2000 to U+200A, line and paragraph
      separator, narrow no-break space, medium mathematical space, ideographic
      space and the byte order mark beyond.  `String.prototype.trim` strips
      exactly these, and the regular-expression class `\s` matches exactly these. */
  predicate IsWhitespace(c: char) {
    if c < '\U{0080}' then
      '\t' <= c <= '\r' || c == ' '
    else
      (c == '\U{00A0}' || c == '\U{1680}' || '\U{2000}' <= c <= '\U{200A}' ||
       c == '\U{2028}' || c == '\U{2029}' || c == '\U{202F}' || c == '\U{205F}' ||
       c == '\U{3000}' || c == '\U{FEFF}')
  }

  predicate AllWhitespace(s: string) {
    forall i :: 0 <= i < |s| ==> IsWhitespace(s[i])
  }

  predicate NoWhitespace(s: string) {
    forall i :: 0 <= i < |s| ==> !IsWhitespace(s[i])
  }

  /** The first position at or after `i` that does not hold whitespace, or `|s|`. */
  function SkipForward(s: string, i: nat): (k: nat)
    requires i <= |s|
    ensures i <= k <= |s|
    ensures forall j :: i <= j < k ==> IsWhitespace(s[j])
    ensures k < |s| ==> !IsWhitespace(s[k])
    decreases |s| - i
  {
    if i < |s| && IsWhitespace(s[i]) then SkipForward(s, i + 1) else i
  }

  /** The position just after the last character before `j` that is not
      whitespace, looking no further back than `lo`. */
  function SkipBackward(s: string, lo: nat, j: nat): (k: nat)
    requires lo <= j <= |s|
    ensures lo <= k <= j
    ensures forall m :: k <= m < j ==> IsWhitespace(s[m])
    ensures k > lo ==> !IsWhitespace(s[k - 1])
    decreases j
  {
    if j > lo && IsWhitespace(s[j - 1]) then SkipBackward(s, lo, j - 1) else j
  }

  /** `String.prototype.trim`: the block of `s` between its leading and its
      trailing whitespace.  It is empty exactly when `s` is all whitespace;
      otherwise it starts and ends with a non-whitespace character. */
  function Trim(s: string): (r: string)
    ensures |r| == 0 <==> AllWhitespace(s)
    ensures |r| > 0 ==> !IsWhitespace(r[0]) && !IsWhitespace(r[|r| - 1])
    ensures |r| <= |s|
  {
    var a := SkipForward(s, 0);
    var b := SkipBackward(s, a, |s|);
    s[a..b]
  }

  /** What `trim` removes is whitespace on both sides of what it keeps. */
  lemma TrimIsBlock(s: string)
    ensures exists a, b :: 0 <= a <= b <= |s| && Trim(s) == s[a..b] && AllWhitespace(s[..a]) && AllWhitespace(s[b..])
  {
    var a := SkipForward(s, 0);
    var b := SkipBackward(s, a, |s|);
    assert AllWhitespace(s[..a]) by {
      forall i | 0 <= i < a ensures IsWhitespace(s[..a][i]) { assert s[..a][i] == s[i]; }
    }
    assert AllWhitespace(s[b..]) by {
      forall i | 0 <= i < |s| - b ensures IsWhitespace(s[b..][i]) { assert s[b..][i] == s[b + i]; }
    }
  }

  lemma NoWhitespaceAppend(a: string, b: string)
    requires NoWhitespace(a) && NoWhitespace(b)
    ensures NoWhitespace(a + b)
  {
    assert forall i :: 0 <= i < |a + b| ==> (a + b)[i] == if i < |a| then a[i] else b[i - |a|];
  }

  /** `String.prototype.toLowerCase` on the ASCII letters; every other
      character is kept.  No character outside ASCII has a full lower-case
      mapping made only of the characters of `index.html`, so comparing with
      that name is decided the same way. */
  function LowerChar(c: char): (r: char)
    ensures 'A' <= c <= 'Z' ==> r as int == c as int + 32
    ensures !('A' <= c <= 'Z') ==> r == c
  {
    if 'A' <= c <= 'Z' then (c as int + 32) as char else c
  }

  function ToLower(s: string): (r: string)
    ensures |r| == |s|
    ensures forall i :: 0 <= i < |s| ==> r[i] == LowerChar(s[i])
  {
    if |s| == 0 then [] else [LowerChar(s[0])] + ToLower(s[1..])
  }

  /** `p` occurs in `s` at position `i`. */
  predicate OccursAt(s: string, p: string, i: int) {
    0 <= i && i + |p| <= |s| && s[i..i + |p|] == p
  }

  /** The first occurrence of `p` in `s` at or after `from`. */
  function IndexOfFrom(s: string, p: string, from: nat): (r: Option<nat>)
    requires from <= |s|
    ensures r.Some? ==> from <= r.value && OccursAt(s, p, r.value)
    ensures r.Some? ==> forall j :: from <= j < r.value ==> !OccursAt(s, p, j)
    ensures r.None? ==> forall j :: from <= j ==> !OccursAt(s, p, j)
    decreases |s| - from
  {
    if OccursAt(s, p, from) then Some(from)
    else if from == |s| then None
    else IndexOfFrom(s, p, from + 1)
  }

  /** `s.indexOf(p)`, with `None` for JavaScript's `-1`. */
  function IndexOf(s: string, p: string): (r: Option<nat>)
    ensures r.Some? ==> OccursAt(s, p, r.value)
    ensures r.Some? ==> forall j :: 0 <= j < r.value ==> !OccursAt(s, p, j)
    ensures r.None? ==> forall j :: !OccursAt(s, p, j)
  {
    IndexOfFrom(s, p, 0)
  }

  /** `s.includes(p)`. */
  predicate Includes(s: string, p: string) {
    IndexOf(s, p).Some?
  }

  lemma IncludesIff(s: string, p: string)
    ensures Includes(s, p) <==> exists i :: OccursAt(s, p, i)
  {
    if Includes(s, p) {
      assert OccursAt(s, p, IndexOf(s, p).value);
    }
  }

  /** An occurrence of `y` as the middle part of `x + y + z`. */
  lemma IncludesMiddle(x: string, y: string, z: string)
    ensures Includes(x + y + z, y)
  {
    OccursInMiddle(x, y, z);
    IncludesIff(x + y + z, y);
  }

  /** `y` occurs in `x + y + z` right after `x`. */
  lemma OccursInMiddle(x: string, y: string, z: string)
    ensures OccursAt(x + y + z, y, |x|)
  {
    assert (x + y + z)[|x|..|x| + |y|] == y;
  }

  /** An occurrence in `b` is there in `a + b`, shifted by `|a|`. */
  lemma OccursAtExtendLeft(a: string, b: string, p: string, i: int)
    requires OccursAt(b, p, i)
    ensures OccursAt(a + b, p, |a| + i)
  {
    assert (a + b)[|a| + i..|a| + i + |p|] == b[i..i + |p|];
  }

  /** The first occurrence is the one `indexOf` reports. */
  lemma IndexOfIsFirst(s: string, p: string, i: nat)
    requires OccursAt(s, p, i)
    requires forall j :: 0 <= j < i ==> !OccursAt(s, p, j)
    ensures IndexOf(s, p) == Some(i)
  {
  }

  /** GetSubstitution of ECMAScript for a match without capture groups:
      in `template`, `$$` stands for `$`, `$&` for the matched text, `` $` `` for
      the text before the match and `$'` for the text after it; any other `$`
      is kept as it is. */
  function Substitute(template: string, matched: string, before: string, after: string): string
    decreases |template|
  {
    if |template| == 0 then []
    else if template[0] == '$' && |template| >= 2 && template[1] in "$&`'" then
      var piece := match template[1]
        case '$' => "$"
        case '&' => matched
        case '`' => before
        case _ => after;
      piece + Substitute(template[2..], matched, before, after)
    else [template[0]] + Substitute(template[1..], matched, before, after)
  }

  /** A template without `$` is inserted as it is. */
  lemma {:induction false} SubstituteLiteral(template: string, matched: string, before: string, after: string)
    requires '$' !in template
    ensures Substitute(template, matched, before, after) == template
  {
    if |template| > 0 {
      assert template[0] != '$';
      assert '$' !in template[1..];
      SubstituteLiteral(template[1..], matched, before, after);
    }
  }

  /** A `$`-free prefix of a template is copied as it is. */
  lemma {:induction false} SubstituteLiteralPrefix(x: string, rest: string, matched: string, before: string, after: string)
    requires '$' !in x
    ensures Substitute(x + rest, matched, before, after) == x + Substitute(rest, matched, before, after)
  {
    if |x| > 0 {
      assert (x + rest)[0] == x[0] && (x + rest)[1..] == x[1..] + rest;
      assert '$' !in x[1..];
      SubstituteLiteralPrefix(x[1..], rest, matched, before, after);
      assert x == [x[0]] + x[1..];
    } else {
      assert x + rest == rest;
    }
  }

  /** `$$` stands for one `$`. */
  lemma SubstituteDoubleDollar(rest: string, matched: string, before: string, after: string)
    ensures Substitute("$$" + rest, matched, before, after) == "$" + Substitute(rest, matched, before, after)
  {
    var t := "$$" + rest;
    assert t[0] == '$' && t[1] == '$' && t[2..] == rest;
  }

  /** `s.replace(pattern, template)` with a string pattern: only the first
      occurrence is replaced, by the expansion of the template. */
  function ReplaceFirst(s: string, pattern: string, template: string): string {
    match IndexOf(s, pattern)
    case None => s
    case Some(i) =>
      s[..i] + Substitute(template, pattern, s[..i], s[i + |pattern|..]) + s[i + |pattern|..]
  }

  /** Replacing at a known first occurrence. */
  lemma ReplaceFirstAt(s: string, pattern: string, template: string, i: nat)
    requires OccursAt(s, pattern, i)
    requires forall j :: 0 <= j < i ==> !OccursAt(s, pattern, j)
    ensures ReplaceFirst(s, pattern, template)
         == s[..i] + Substitute(template, pattern, s[..i], s[i + |pattern|..]) + s[i + |pattern|..]
  {
    IndexOfIsFirst(s, pattern, i);
  }

  /** Without an occurrence, `replace` returns the text unchanged. */
  lemma ReplaceFirstAbsent(s: string, pattern: string, template: string)
    requires forall j :: !OccursAt(s, pattern, j)
    ensures ReplaceFirst(s, pattern, template) == s
  {
  }

  /** `s.replace(/\s+/g, "-")`: every maximal run of whitespace becomes one `-`,
      the rest is copied.  The scan remembers whether it is inside a run. */
  function CollapseWhitespace(s: string): (r: string)
    ensures NoWhitespace(r)
    ensures |r| <= |s|
    ensures |r| == 0 <==> |s| == 0
  {
    CollapseRunsNoWhitespace(s, false);
    CollapseRuns(s, false)
  }

  /** The scan behind `CollapseWhitespace`; `inRun` says that the character
      before `s` was whitespace, so a run that opens `s` has already been
      written as its `-`. */
  function CollapseRuns(s: string, inRun: bool): (r: string)
    ensures |r| <= |s|
    ensures !inRun && |s| > 0 ==> |r| > 0
  {
    if |s| == 0 then [] else Emit(s[0], inRun) + CollapseRuns(s[1..], IsWhitespace(s[0]))
  }

  /** What the scan writes for one character: the character itself, the `-`
      that opens a run, or nothing inside a run. */
  function Emit(c: char, inRun: bool): (r: string)
    ensures |r| <= 1 && NoWhitespace(r)
    ensures !inRun ==> |r| == 1
  {
    if !IsWhitespace(c) then [c] else if inRun then [] else "-"
  }

  /** The scan writes no whitespace. */
  lemma {:induction false} CollapseRunsNoWhitespace(s: string, inRun: bool)
    ensures NoWhitespace(CollapseRuns(s, inRun))
  {
    if |s| > 0 {
      var out := Emit(s[0], inRun);
      var rest := CollapseRuns(s[1..], IsWhitespace(s[0]));
      CollapseRunsNoWhitespace(s[1..], IsWhitespace(s[0]));
      assert forall i :: 0 <= i < |out| + |rest| ==> (out + rest)[i] == if i < |out| then out[i] else rest[i - |out|];
    }
  }

  /** Whether the scan is inside a run after reading `s` from state `inRun`. */
  function EndsInRun(s: string, inRun: bool): bool {
    if |s| == 0 then inRun else IsWhitespace(s[|s| - 1])
  }

  /** The scan of `a + b` is the scan of `a` followed by the scan of `b`
      from the state `a` left it in. */
  lemma {:induction false} CollapseRunsAppend(a: string, b: string, inRun: bool)
    ensures CollapseRuns(a + b, inRun) == CollapseRuns(a, inRun) + CollapseRuns(b, EndsInRun(a, inRun))
  {
    if |a| == 0 {
      assert a + b == b;
    } else {
      var next := IsWhitespace(a[0]);
      var out := Emit(a[0], inRun);
      var rest := CollapseRuns(a[1..], next);
      var tail := CollapseRuns(b, EndsInRun(a, inRun));
      AppendHead(a, b);
      EndsInRunTail(a, inRun);
      calc {
        CollapseRuns(a + b, inRun);
        out + CollapseRuns(a[1..] + b, next);
      == { CollapseRunsAppend(a[1..], b, next); }
        out + (rest + tail);
        (out + rest) + tail;
      }
    }
  }

  lemma AppendHead(a: string, b: string)
    requires |a| > 0
    ensures (a + b)[0] == a[0] && (a + b)[1..] == a[1..] + b
  {
  }

  lemma EndsInRunTail(a: string, inRun: bool)
    requires |a| > 0
    ensures EndsInRun(a[1..], IsWhitespace(a[0])) == EndsInRun(a, inRun)
  {
    if |a| > 1 { assert a[1..][|a| - 2] == a[|a| - 1]; }
  }

  /** A run of whitespace already announced produces nothing more. */
  lemma {:induction false} CollapseRunsInRun(s: string)
    requires AllWhitespace(s)
    ensures CollapseRuns(s, true) == []
  {
    if |s| > 0 {
      assert AllWhitespace(s[1..]) by {
        forall i | 0 <= i < |s| - 1 ensures IsWhitespace(s[1..][i]) {
          assert s[1..][i] == s[i + 1];
        }
      }
      CollapseRunsInRun(s[1..]);
    }
  }

  /** A name without whitespace is left as it is. */
  lemma {:induction false} CollapseNoWhitespace(s: string)
    requires NoWhitespace(s)
    ensures CollapseWhitespace(s) == s
  {
    if |s| > 0 {
      assert NoWhitespace(s[1..]) by {
        forall i | 0 <= i < |s| - 1 ensures !IsWhitespace(s[1..][i]) {
          assert s[1..][i] == s[i + 1];
        }
      }
      CollapseNoWhitespace(s[1..]);
    }
  }

  /** A non-empty run of whitespace becomes a single `-`. */
  lemma CollapseRun(s: string)
    requires |s| > 0 && AllWhitespace(s)
    ensures CollapseWhitespace(s) == "-"
  {
    assert AllWhitespace(s[1..]) by {
      forall i | 0 <= i < |s| - 1 ensures IsWhitespace(s[1..][i]) {
        assert s[1..][i] == s[i + 1];
      }
    }
    CollapseRunsInRun(s[1..]);
  }

  /** Collapsing is done piece by piece: two pieces that do not meet inside a
      run of whitespace are collapsed separately. */
  lemma CollapseAppend(a: string, b: string)
    requires |a| == 0 || |b| == 0 || !IsWhitespace(a[|a| - 1]) || !IsWhitespace(b[0])
    ensures CollapseWhitespace(a + b) == CollapseWhitespace(a) + CollapseWhitespace(b)
  {
    CollapseRunsAppend(a, b, false);
    if |b| > 0 && !IsWhitespace(b[0]) {
      assert CollapseRuns(b, true) == CollapseRuns(b, false);
    }
  }

  /** A word, one space, then text starting with a non-whitespace character:
      the space becomes `-` and the word is kept. */
  lemma CollapseWordSpace(a: string, b: string)
    requires |a| > 0 && NoWhitespace(a)
    requires |b| > 0 && !IsWhitespace(b[0])
    ensures CollapseWhitespace(a + " " + b) == a + "-" + CollapseWhitespace(b)
  {
    assert a + " " + b == a + (" " + b);
    CollapseAppend(a, " " + b);
    CollapseAppend(" ", b);
    CollapseRun(" ");
    CollapseNoWhitespace(a);
  }
}
