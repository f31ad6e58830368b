/**
 * `cleanText`: the sanitiser applied to every loaded file's text. It
 *   1. replaces each run of whitespace (`/\s+/g`) by one space,
 *   2. removes every character outside `[\w\s.,!?;:()'-]`,
 *   3. trims whitespace from both ends, and
 *   4. keeps the first 1500 characters.
 */
module Sanitizer {
  import JsText

  /** Longest text a session is given. */
  const MaxLength := 1500

  /** The punctuation the second step keeps. */
  const Punctuation: string := ".,!?;:()'-"

  /**
   * JavaScript's `\s` (and what `trim` strips): the ECMAScript WhiteSpace
   * and LineTerminator characters.
   */
  predicate IsSpace(c: char) {
    c == ' ' || c == '\t' || c == '\n' || c == '\U{000B}' || c == '\U{000C}' || c == '\r'
    || c == '\U{00A0}' || c == '\U{1680}' || ('\U{2000}' <= c <= '\U{200A}')
    || c == '\U{2028}' || c == '\U{2029}' || c == '\U{202F}' || c == '\U{205F}'
    || c == '\U{3000}' || c == '\U{FEFF}'
  }

  /** JavaScript's `\w`. */
  predicate IsWordChar(c: char) {
    ('A' <= c <= 'Z') || ('a' <= c <= 'z') || ('0' <= c <= '9') || c == '_'
  }

  /** The characters the second step keeps. */
  predicate IsKept(c: char) {
    IsWordChar(c) || IsSpace(c) || c in Punctuation
  }

  /** The characters a cleaned text is made of: space is the only whitespace. */
  predicate IsOutputChar(c: char) {
    IsWordChar(c) || c == ' ' || c in Punctuation
  }

  /** No two whitespace characters side by side. */
  predicate NoAdjacentSpaces(s: string) {
    forall i :: 0 <= i < |s| - 1 ==> !(IsSpace(s[i]) && IsSpace(s[i + 1]))
  }

  /** Every whitespace character in `s` is a plain space. */
  predicate OnlyPlainSpaces(s: string) {
    forall i :: 0 <= i < |s| ==> IsSpace(s[i]) ==> s[i] == ' '
  }

  /** The characters of `s` that are not whitespace, in order. */
  function NonSpace(s: string): string {
    if s == [] then [] else (if IsSpace(s[0]) then [] else [s[0]]) + NonSpace(s[1..])
  }

  /** `s` without its leading whitespace: the start half of `trim`. */
  function TrimStart(s: string): (r: string)
    ensures |r| <= |s| && r == s[|s| - |r|..]
    ensures forall i :: 0 <= i < |s| - |r| ==> IsSpace(s[i])
    ensures r == [] || !IsSpace(r[0])
    decreases |s|
  {
    if s != [] && IsSpace(s[0]) then TrimStart(s[1..]) else s
  }

  /** `s` without its trailing whitespace: the end half of `trim`. */
  function TrimEnd(s: string): (r: string)
    ensures |r| <= |s| && r == s[..|r|]
    ensures forall i :: |r| <= i < |s| ==> IsSpace(s[i])
    ensures r == [] || !IsSpace(r[|r| - 1])
    decreases |s|
  {
    if s != [] && IsSpace(s[|s| - 1]) then TrimEnd(s[..|s| - 1]) else s
  }

  /** `s.trim()`: the piece of `s` between its leading and trailing whitespace. */
  function Trim(s: string): (r: string)
    ensures r == [] || (!IsSpace(r[0]) && !IsSpace(r[|r| - 1]))
    ensures |s| - |TrimStart(s)| + |r| <= |s|
    ensures forall i :: 0 <= i < |s| - |TrimStart(s)| ==> IsSpace(s[i])
    ensures forall i :: |s| - |TrimStart(s)| + |r| <= i < |s| ==> IsSpace(s[i])
    ensures forall i :: 0 <= i < |r| ==> r[i] == s[|s| - |TrimStart(s)| + i]
  {
    TrimEnd(TrimStart(s))
  }

  /** `s.replace(/\s+/g, ' ')`: each maximal run of whitespace becomes one space. */
  function CollapseWhitespace(s: string): (r: string)
    ensures |r| <= |s|
    ensures r == [] <==> s == []
    ensures r != [] ==> r[0] == (if IsSpace(s[0]) then ' ' else s[0])
    decreases |s|
  {
    if s == [] then []
    else if IsSpace(s[0]) then [' '] + CollapseWhitespace(TrimStart(s[1..]))
    else [s[0]] + CollapseWhitespace(s[1..])
  }

  /** After the first step every whitespace character is a single plain space. */
  lemma CollapseShape(s: string)
    ensures OnlyPlainSpaces(CollapseWhitespace(s))
    ensures NoAdjacentSpaces(CollapseWhitespace(s))
  {
    CollapsePlainSpaces(s);
    CollapseNoAdjacentSpaces(s);
  }

  lemma {:induction false} CollapsePlainSpaces(s: string)
    ensures OnlyPlainSpaces(CollapseWhitespace(s))
    decreases |s|
  {
    if s != [] {
      if IsSpace(s[0]) {
        var rest := TrimStart(s[1..]);
        CollapsePlainSpaces(rest);
        PlainSpacesCons(' ', CollapseWhitespace(rest));
      } else {
        CollapsePlainSpaces(s[1..]);
        PlainSpacesCons(s[0], CollapseWhitespace(s[1..]));
      }
    }
  }

  lemma {:induction false} CollapseNoAdjacentSpaces(s: string)
    ensures NoAdjacentSpaces(CollapseWhitespace(s))
    decreases |s|
  {
    if s != [] {
      if IsSpace(s[0]) {
        var rest := TrimStart(s[1..]);
        CollapseNoAdjacentSpaces(rest);
        NoAdjacentSpacesCons(' ', CollapseWhitespace(rest));
      } else {
        CollapseNoAdjacentSpaces(s[1..]);
        NoAdjacentSpacesCons(s[0], CollapseWhitespace(s[1..]));
      }
    }
  }

  lemma PlainSpacesCons(c: char, t: string)
    requires OnlyPlainSpaces(t) && (IsSpace(c) ==> c == ' ')
    ensures OnlyPlainSpaces([c] + t)
  {
    assert forall i :: 1 <= i < |t| + 1 ==> ([c] + t)[i] == t[i - 1];
  }

  lemma NoAdjacentSpacesCons(c: char, t: string)
    requires NoAdjacentSpaces(t) && (t == [] || !IsSpace(c) || !IsSpace(t[0]))
    ensures NoAdjacentSpaces([c] + t)
  {
    assert forall i :: 1 <= i < |t| + 1 ==> ([c] + t)[i] == t[i - 1];
  }

  /** `s.replace(/[^\w\s.,!?;:()'-]/g, '')`: drop every character not kept. */
  function RemoveDisallowed(s: string): (r: string)
    ensures |r| <= |s|
    ensures forall i :: 0 <= i < |r| ==> IsKept(r[i])
  {
    if s == [] then []
    else (if IsKept(s[0]) then [s[0]] else []) + RemoveDisallowed(s[1..])
  }

  /** The second step only deletes, so it adds no whitespace other than the plain space. */
  lemma {:induction false} RemoveKeepsPlainSpaces(s: string)
    requires OnlyPlainSpaces(s)
    ensures OnlyPlainSpaces(RemoveDisallowed(s))
    decreases |s|
  {
    if s != [] {
      assert OnlyPlainSpaces(s[1..]) by {
        assert forall i :: 0 <= i < |s| - 1 ==> s[1..][i] == s[i + 1];
      }
      RemoveKeepsPlainSpaces(s[1..]);
      var head := if IsKept(s[0]) then [s[0]] else [];
      var r := RemoveDisallowed(s);
      assert r == head + RemoveDisallowed(s[1..]);
      assert forall i :: |head| <= i < |r| ==> r[i] == RemoveDisallowed(s[1..])[i - |head|];
    }
  }

  /** The filter keeps a kept character and drops any other. */
  lemma RemoveOne(c: char)
    ensures RemoveDisallowed([c]) == (if IsKept(c) then [c] else [])
  {
    assert [c][1..] == [];
  }

  /** The filter works character by character: it distributes over concatenation. */
  lemma {:induction false} RemoveAppend(a: string, b: string)
    ensures RemoveDisallowed(a + b) == RemoveDisallowed(a) + RemoveDisallowed(b)
    decreases |a|
  {
    if a == [] {
      assert a + b == b;
    } else {
      assert (a + b)[0] == a[0];
      assert (a + b)[1..] == a[1..] + b;
      RemoveAppend(a[1..], b);
    }
  }

  /** Leading whitespace before a non-whitespace character is all `TrimStart` drops. */
  lemma {:induction false} TrimStartAppend(a: string, b: string)
    requires exists i :: 0 <= i < |a| && !IsSpace(a[i])
    ensures TrimStart(a + b) == TrimStart(a) + b
    decreases |a|
  {
    assert (a + b)[0] == a[0];
    if IsSpace(a[0]) {
      var i :| 0 <= i < |a| && !IsSpace(a[i]);
      assert a[1..][i - 1] == a[i];
      assert (a + b)[1..] == a[1..] + b;
      TrimStartAppend(a[1..], b);
    }
  }

  /** A run of whitespace followed by text that does not start with whitespace trims away. */
  lemma {:induction false} TrimStartSpaceRun(w: string, b: string)
    requires forall i :: 0 <= i < |w| ==> IsSpace(w[i])
    requires b == [] || !IsSpace(b[0])
    ensures TrimStart(w + b) == b
    decreases |w|
  {
    if w == [] {
      assert w + b == b;
    } else {
      assert (w + b)[0] == w[0];
      assert (w + b)[1..] == w[1..] + b;
      TrimStartSpaceRun(w[1..], b);
    }
  }

  /**
   * Collapsing distributes over a cut after a non-whitespace character: no
   * whitespace run straddles the cut.
   */
  lemma {:induction false} CollapseAppend(a: string, b: string)
    requires a == [] || !IsSpace(a[|a| - 1])
    ensures CollapseWhitespace(a + b) == CollapseWhitespace(a) + CollapseWhitespace(b)
    decreases |a|, 1
  {
    if a == [] {
      assert a + b == b;
    } else if IsSpace(a[0]) {
      CollapseAppendSpace(a, b);
    } else {
      CollapseAppendWord(a, b);
    }
  }

  lemma {:induction false} CollapseAppendSpace(a: string, b: string)
    requires a != [] && IsSpace(a[0]) && !IsSpace(a[|a| - 1])
    ensures CollapseWhitespace(a + b) == CollapseWhitespace(a) + CollapseWhitespace(b)
    decreases |a|, 0
  {
    var t := TrimStart(a[1..]);
    var ct, cb := CollapseWhitespace(t), CollapseWhitespace(b);
    calc {
      CollapseWhitespace(a + b);
    == { CollapseSpaceHeadAppend(a, b); }
      [' '] + CollapseWhitespace(t + b);
    == { TrimTailEndsInWord(a); CollapseAppend(t, b); }
      [' '] + (ct + cb);
    == { SeqAssoc([' '], ct, cb); }
      ([' '] + ct) + cb;
    == { CollapseSpaceHead(a); }
      CollapseWhitespace(a) + cb;
    }
  }

  lemma TrimTailEndsInWord(a: string)
    requires a != [] && !IsSpace(a[|a| - 1])
    ensures var t := TrimStart(a[1..]); |t| < |a| && (t == [] || !IsSpace(t[|t| - 1]))
  {
    var tail := a[1..];
    assert tail == [] || tail[|tail| - 1] == a[|a| - 1];
  }

  lemma CollapseSpaceHead(a: string)
    requires a != [] && IsSpace(a[0])
    ensures CollapseWhitespace(a) == [' '] + CollapseWhitespace(TrimStart(a[1..]))
  {
  }

  lemma CollapseSpaceHeadAppend(a: string, b: string)
    requires a != [] && IsSpace(a[0]) && !IsSpace(a[|a| - 1])
    ensures CollapseWhitespace(a + b) == [' '] + CollapseWhitespace(TrimStart(a[1..]) + b)
  {
    var tail := a[1..];
    assert a + b == [a[0]] + (tail + b);
    CollapseSpaceStep(a[0], tail + b);
    assert tail[|tail| - 1] == a[|a| - 1];
    TrimStartAppend(tail, b);
  }

  lemma {:induction false} CollapseAppendWord(a: string, b: string)
    requires a != [] && !IsSpace(a[0]) && !IsSpace(a[|a| - 1])
    ensures CollapseWhitespace(a + b) == CollapseWhitespace(a) + CollapseWhitespace(b)
    decreases |a|, 0
  {
    var tail := a[1..];
    var ct, cb := CollapseWhitespace(tail), CollapseWhitespace(b);
    calc {
      CollapseWhitespace(a + b);
    == { CollapseWordHeadAppend(a, b); }
      [a[0]] + CollapseWhitespace(tail + b);
    == { TailEndsInWord(a); CollapseAppend(tail, b); }
      [a[0]] + (ct + cb);
    == { SeqAssoc([a[0]], ct, cb); }
      ([a[0]] + ct) + cb;
    == { CollapseWordHead(a); }
      CollapseWhitespace(a) + cb;
    }
  }

  lemma TailEndsInWord(a: string)
    requires a != [] && !IsSpace(a[|a| - 1])
    ensures var tail := a[1..]; tail == [] || !IsSpace(tail[|tail| - 1])
  {
    var tail := a[1..];
    assert tail == [] || tail[|tail| - 1] == a[|a| - 1];
  }

  lemma CollapseWordHead(a: string)
    requires a != [] && !IsSpace(a[0])
    ensures CollapseWhitespace(a) == [a[0]] + CollapseWhitespace(a[1..])
  {
  }

  lemma CollapseWordHeadAppend(a: string, b: string)
    requires a != [] && !IsSpace(a[0])
    ensures CollapseWhitespace(a + b) == [a[0]] + CollapseWhitespace(a[1..] + b)
  {
    assert a + b == [a[0]] + (a[1..] + b);
    CollapseWordStep(a[0], a[1..] + b);
  }

  lemma SeqAssoc(x: string, y: string, z: string)
    ensures x + (y + z) == (x + y) + z
  {
  }

  /** A non-empty run of whitespace before a non-whitespace character becomes one space. */
  lemma CollapseSpaceRun(w: string, b: string)
    requires |w| > 0 && forall i :: 0 <= i < |w| ==> IsSpace(w[i])
    requires b == [] || !IsSpace(b[0])
    ensures CollapseWhitespace(w + b) == [' '] + CollapseWhitespace(b)
  {
    assert (w + b)[0] == w[0];
    assert (w + b)[1..] == w[1..] + b;
    TrimStartSpaceRun(w[1..], b);
  }

  /**
   * Between two pieces of text, a whitespace run survives as exactly one space,
   * and the text on either side is collapsed on its own.
   */
  lemma CollapseBetween(a: string, w: string, b: string)
    requires a == [] || !IsSpace(a[|a| - 1])
    requires |w| > 0 && forall i :: 0 <= i < |w| ==> IsSpace(w[i])
    requires b == [] || !IsSpace(b[0])
    ensures CollapseWhitespace(a + (w + b)) == CollapseWhitespace(a) + ([' '] + CollapseWhitespace(b))
  {
    CollapseAppend(a, w + b);
    CollapseSpaceRun(w, b);
  }

  /**
   * `cleanText(text)`. The result is at most 1500 characters long, holds only
   * word characters, the listed punctuation and plain spaces, and never
   * starts with a space.
   */
  function CleanText(text: string): (r: string)
    ensures |r| <= MaxLength
    ensures forall i :: 0 <= i < |r| ==> IsOutputChar(r[i])
    ensures r == [] || r[0] != ' '
    ensures var t := Trim(RemoveDisallowed(CollapseWhitespace(text)));
      |t| <= MaxLength ==> r == t
    ensures var t := Trim(RemoveDisallowed(CollapseWhitespace(text)));
      MaxLength < |t| ==> r == t[..MaxLength]
  {
    var trimmed := Trim(RemoveDisallowed(CollapseWhitespace(text)));
    CleanedChars(text);
    JsText.Substring(trimmed, 0, MaxLength)
  }

  /** After the first three steps only output characters remain. */
  lemma CleanedChars(text: string)
    ensures forall i :: 0 <= i < |Trim(RemoveDisallowed(CollapseWhitespace(text)))| ==>
      IsOutputChar(Trim(RemoveDisallowed(CollapseWhitespace(text)))[i])
  {
    var filtered := RemoveDisallowed(CollapseWhitespace(text));
    CollapseShape(text);
    RemoveKeepsPlainSpaces(CollapseWhitespace(text));
    assert forall i :: 0 <= i < |filtered| ==> IsKept(filtered[i]) && (IsSpace(filtered[i]) ==> filtered[i] == ' ');
  }

  /** Collapsing whitespace loses no other character and keeps their order. */
  lemma {:induction false} CollapseKeepsNonSpace(s: string)
    ensures NonSpace(CollapseWhitespace(s)) == NonSpace(s)
    decreases |s|
  {
    if s != [] {
      if IsSpace(s[0]) {
        var t := TrimStart(s[1..]);
        CollapseKeepsNonSpace(t);
        TrimStartKeepsNonSpace(s[1..]);
        assert CollapseWhitespace(s) == [' '] + CollapseWhitespace(t);
        NonSpaceAppend([' '], CollapseWhitespace(t));
      } else {
        CollapseKeepsNonSpace(s[1..]);
        assert CollapseWhitespace(s) == [s[0]] + CollapseWhitespace(s[1..]);
        NonSpaceAppend([s[0]], CollapseWhitespace(s[1..]));
      }
    }
  }

  lemma {:induction false} TrimStartKeepsNonSpace(s: string)
    ensures NonSpace(TrimStart(s)) == NonSpace(s)
    decreases |s|
  {
    if s != [] && IsSpace(s[0]) {
      TrimStartKeepsNonSpace(s[1..]);
    }
  }

  lemma {:induction false} NonSpaceAppend(a: string, b: string)
    ensures NonSpace(a + b) == NonSpace(a) + NonSpace(b)
    decreases |a|
  {
    if a == [] {
      assert a + b == b;
    } else {
      assert (a + b)[1..] == a[1..] + b;
      NonSpaceAppend(a[1..], b);
    }
  }

  /** Text that already has single plain spaces is left alone by the first step. */
  lemma {:induction false} CollapseFixpoint(s: string)
    requires OnlyPlainSpaces(s) && NoAdjacentSpaces(s)
    ensures CollapseWhitespace(s) == s
    decreases |s|
  {
    if s != [] {
      assert OnlyPlainSpaces(s[1..]) && NoAdjacentSpaces(s[1..]) by {
        assert forall i :: 0 <= i < |s| - 1 ==> s[1..][i] == s[i + 1];
      }
      if IsSpace(s[0]) {
        assert TrimStart(s[1..]) == s[1..];
      }
      CollapseFixpoint(s[1..]);
    }
  }

  /** Text made only of kept characters is left alone by the second step. */
  lemma {:induction false} RemoveFixpoint(s: string)
    requires forall i :: 0 <= i < |s| ==> IsKept(s[i])
    ensures RemoveDisallowed(s) == s
    decreases |s|
  {
    if s != [] {
      RemoveFixpoint(s[1..]);
    }
  }

  /** The texts `cleanText` leaves unchanged. */
  predicate IsClean(s: string) {
    |s| <= MaxLength
    && (forall i :: 0 <= i < |s| ==> IsOutputChar(s[i]))
    && NoAdjacentSpaces(s)
    && (s == [] || (s[0] != ' ' && s[|s| - 1] != ' '))
  }

  /** Cleaning a text that is already clean returns it unchanged. */
  lemma CleanTextFixpoint(s: string)
    requires IsClean(s)
    ensures CleanText(s) == s
  {
    CollapseFixpoint(s);
    RemoveFixpoint(s);
    TrimFixpoint(s);
  }

  lemma TrimFixpoint(s: string)
    requires s == [] || (!IsSpace(s[0]) && !IsSpace(s[|s| - 1]))
    ensures Trim(s) == s
  {
    assert TrimStart(s) == s;
    assert TrimEnd(s) == s;
  }

  /**
   * A removed character between two spaces leaves two spaces side by side:
   * a cleaned text can hold a double space, and cleaning it once more
   * changes it, so `cleanText` is not idempotent.
   */
  lemma CleanTextMayKeepDoubleSpace(a: char, x: char, b: char)
    requires IsWordChar(a) && IsWordChar(b) && !IsKept(x)
    ensures CleanText([a, ' ', x, ' ', b]) == [a, ' ', ' ', b]
    ensures CleanText([a, ' ', ' ', b]) == [a, ' ', b]
  {
    CleanTextAroundRemoved(a, x, b);
    CleanTextDoubleSpace(a, b);
  }

  lemma CleanTextAroundRemoved(a: char, x: char, b: char)
    requires IsWordChar(a) && IsWordChar(b) && !IsKept(x)
    ensures CleanText([a, ' ', x, ' ', b]) == [a, ' ', ' ', b]
  {
    var s, t := [a, ' ', x, ' ', b], [a, ' ', ' ', b];
    CollapseSingleSpaces(a, x, b);
    RemoveBetweenSpaces(a, x, b);
    TrimBetweenWords(a, b);
    assert Trim(RemoveDisallowed(CollapseWhitespace(s))) == t;
    TruncateShort(t);
  }

  /** The last step keeps a text of at most 1500 characters whole. */
  lemma TruncateShort(t: string)
    requires |t| <= MaxLength
    ensures JsText.Substring(t, 0, MaxLength) == t
  {
  }

  lemma TrimBetweenWords(a: char, b: char)
    requires IsWordChar(a) && IsWordChar(b)
    ensures Trim([a, ' ', ' ', b]) == [a, ' ', ' ', b]
  {
    assert !IsSpace(a) && !IsSpace(b);
    TrimKeepsWordEnds([a, ' ', ' ', b]);
  }

  lemma CleanTextDoubleSpace(a: char, b: char)
    requires IsWordChar(a) && IsWordChar(b)
    ensures CleanText([a, ' ', ' ', b]) == [a, ' ', b]
  {
    CollapseDoubleSpace(a, b);
    RemoveWordSpaceWord(a, b);
    TrimWordSpaceWord(a, b);
    TruncateShort([a, ' ', b]);
  }

  lemma RemoveWordSpaceWord(a: char, b: char)
    requires IsWordChar(a) && IsWordChar(b)
    ensures RemoveDisallowed([a, ' ', b]) == [a, ' ', b]
  {
    assert IsKept(a) && IsKept(' ') && IsKept(b);
    RemoveFixpoint([a, ' ', b]);
  }

  lemma TrimWordSpaceWord(a: char, b: char)
    requires IsWordChar(a) && IsWordChar(b)
    ensures Trim([a, ' ', b]) == [a, ' ', b]
  {
    assert !IsSpace(a) && !IsSpace(b);
    TrimKeepsWordEnds([a, ' ', b]);
  }

  lemma CollapseSingleSpaces(a: char, x: char, b: char)
    requires IsWordChar(a) && IsWordChar(b) && !IsKept(x)
    ensures CollapseWhitespace([a, ' ', x, ' ', b]) == [a, ' ', x, ' ', b]
  {
    assert !IsSpace(a) && !IsSpace(b) && !IsSpace(x);
    CollapseFixpoint([a, ' ', x, ' ', b]);
  }

  lemma TrimKeepsWordEnds(s: string)
    requires s != [] && !IsSpace(s[0]) && !IsSpace(s[|s| - 1])
    ensures Trim(s) == s
  {
    assert TrimStart(s) == s;
  }

  lemma RemoveBetweenSpaces(a: char, x: char, b: char)
    requires IsWordChar(a) && IsWordChar(b) && !IsKept(x)
    ensures RemoveDisallowed([a, ' ', x, ' ', b]) == [a, ' ', ' ', b]
  {
    var s := [a, ' ', x, ' ', b];
    assert s[1..] == [' ', x, ' ', b] && s[1..][1..] == [x, ' ', b];
    assert s[3..] == [' ', b] && s[4..] == [b] && s[4..][1..] == [];
    assert s[2..][1..] == s[3..];
    assert s[3..][1..] == s[4..];
    assert RemoveDisallowed(s[4..]) == [b];
    assert RemoveDisallowed(s[3..]) == [' ', b];
    assert RemoveDisallowed(s[2..]) == [' ', b];
    assert RemoveDisallowed(s[1..]) == [' ', ' ', b];
  }

  lemma CollapseDoubleSpace(a: char, b: char)
    requires IsWordChar(a) && IsWordChar(b)
    ensures CollapseWhitespace([a, ' ', ' ', b]) == [a, ' ', b]
  {
    CollapseDoubleSpaceTail(b);
    WordCharIsNotSpace(a);
    CollapseWordStep(a, [' ', ' ', b]);
    assert [a, ' ', ' ', b] == [a] + [' ', ' ', b];
  }

  lemma CollapseDoubleSpaceTail(b: char)
    requires IsWordChar(b)
    ensures CollapseWhitespace([' ', ' ', b]) == [' ', b]
  {
    TrimStartBeforeWord(b);
    CollapseSingleWord(b);
    CollapseSpaceStep(' ', [' ', b]);
    assert [' ', ' ', b] == [' '] + [' ', b];
  }

  lemma TrimStartBeforeWord(b: char)
    requires IsWordChar(b)
    ensures TrimStart([' ', b]) == [b]
  {
    assert [' ', b][1..] == [b];
    assert !IsSpace(b);
  }

  lemma CollapseSingleWord(b: char)
    requires IsWordChar(b)
    ensures CollapseWhitespace([b]) == [b]
  {
    assert !IsSpace(b);
    CollapseFixpoint([b]);
  }

  lemma WordCharIsNotSpace(c: char)
    requires IsWordChar(c)
    ensures !IsSpace(c)
  {
  }

  lemma CollapseSpaceStep(c: char, t: string)
    requires IsSpace(c)
    ensures CollapseWhitespace([c] + t) == [' '] + CollapseWhitespace(TrimStart(t))
  {
    assert ([c] + t)[1..] == t;
  }

  lemma CollapseWordStep(c: char, t: string)
    requires !IsSpace(c)
    ensures CollapseWhitespace([c] + t) == [c] + CollapseWhitespace(t)
  {
    assert ([c] + t)[1..] == t;
  }
}
