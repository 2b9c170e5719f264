/**
 * The two pieces of string handling the harvester relies on: Python's
 * `str.strip()` (used on every line of the query list) and the escaping of
 * line breaks in comment text, written as the two `str.replace` calls the
 * collector makes.
 */
module Text {

  /** The characters Python's `str.isspace()` accepts, which `str.strip()` removes. */
  predicate IsSpace(c: char) {
    c == ' ' || ('\t' <= c <= '\r') || ('\U{1c}' <= c <= '\U{1f}') ||
    c == '\U{85}' || c == '\U{a0}' || c == '\U{1680}' ||
    ('\U{2000}' <= c <= '\U{200a}') || c == '\U{2028}' || c == '\U{2029}' ||
    c == '\U{202f}' || c == '\U{205f}' || c == '\U{3000}'
  }

  /** Python's `s.strip()`: `s` without its leading and trailing whitespace, so never longer than `s`. */
  function Strip(s: string): (r: string)
    ensures |r| <= |s|
    decreases |s|
  {
    if |s| == 0 then s
    else if IsSpace(s[0]) then Strip(s[1..])
    else if IsSpace(s[|s| - 1]) then Strip(s[..|s| - 1])
    else s
  }

  /** A stripped string is empty or starts and ends with a non-space character. */
  lemma {:induction false} StripEnds(s: string)
    ensures var r := Strip(s); |r| == 0 || (!IsSpace(r[0]) && !IsSpace(r[|r| - 1]))
    decreases |s|
  {
    if |s| > 0 && IsSpace(s[0]) {
      StripEnds(s[1..]);
    } else if |s| > 0 && IsSpace(s[|s| - 1]) {
      StripEnds(s[..|s| - 1]);
    }
  }

  /** Stripping twice is stripping once. */
  lemma StripIdempotent(s: string)
    ensures Strip(Strip(s)) == Strip(s)
  {
    StripEnds(s);
  }

  /** All characters of `s[i..j]` are whitespace. */
  predicate AllSpace(s: string, i: nat, j: nat)
    requires i <= j <= |s|
  {
    forall k :: i <= k < j ==> IsSpace(s[k])
  }

  /** A slice of `s[1..]` with only whitespace around it is a slice of `s` with only whitespace around it, when `s` starts with whitespace. */
  lemma SpacesAfterLeading(s: string, i: nat, j: nat)
    requires |s| > 0 && IsSpace(s[0]) && i <= j <= |s| - 1
    requires AllSpace(s[1..], 0, i) && AllSpace(s[1..], j, |s| - 1)
    ensures s[1..][i..j] == s[i + 1..j + 1] && AllSpace(s, 0, i + 1) && AllSpace(s, j + 1, |s|)
  {
    var t := s[1..];
    forall k | 0 < k < i + 1 ensures IsSpace(s[k]) {
      assert s[k] == t[k - 1];
    }
    forall k | j + 1 <= k < |s| ensures IsSpace(s[k]) {
      assert s[k] == t[k - 1];
    }
  }

  /** A slice of `s[..|s| - 1]` with only whitespace around it is a slice of `s` with only whitespace around it, when `s` ends with whitespace. */
  lemma SpacesBeforeTrailing(s: string, i: nat, j: nat)
    requires |s| > 0 && IsSpace(s[|s| - 1]) && i <= j <= |s| - 1
    requires AllSpace(s[..|s| - 1], 0, i) && AllSpace(s[..|s| - 1], j, |s| - 1)
    ensures s[..|s| - 1][i..j] == s[i..j] && AllSpace(s, 0, i) && AllSpace(s, j, |s|)
  {
    var t := s[..|s| - 1];
    forall k | 0 <= k < i ensures IsSpace(s[k]) {
      assert s[k] == t[k];
    }
    forall k | j <= k < |s| - 1 ensures IsSpace(s[k]) {
      assert s[k] == t[k];
    }
  }

  /**
   * Strip removes whitespace only, and only at the two ends: its result is a
   * slice `s[i..j]` with nothing but whitespace before `i` and after `j`.
   */
  lemma {:induction false} StripDropsOnlySpaces(s: string)
    ensures exists i: nat, j: nat :: i <= j <= |s| && Strip(s) == s[i..j] && AllSpace(s, 0, i) && AllSpace(s, j, |s|)
    decreases |s|
  {
    if |s| == 0 {
      assert Strip(s) == s[0..0] && AllSpace(s, 0, 0) && AllSpace(s, 0, |s|);
    } else if IsSpace(s[0]) {
      var t := s[1..];
      StripDropsOnlySpaces(t);
      var i: nat, j: nat :| i <= j <= |t| && Strip(t) == t[i..j] && AllSpace(t, 0, i) && AllSpace(t, j, |t|);
      SpacesAfterLeading(s, i, j);
      assert Strip(s) == s[i + 1..j + 1];
    } else if IsSpace(s[|s| - 1]) {
      var t := s[..|s| - 1];
      StripDropsOnlySpaces(t);
      var i: nat, j: nat :| i <= j <= |t| && Strip(t) == t[i..j] && AllSpace(t, 0, i) && AllSpace(t, j, |t|);
      SpacesBeforeTrailing(s, i, j);
      assert Strip(s) == s[i..j];
    } else {
      assert Strip(s) == s[0..|s|] && AllSpace(s, 0, 0) && AllSpace(s, |s|, |s|);
    }
  }

  /** What one character becomes when every `c` is replaced by `repl`. */
  function ReplaceOne(d: char, c: char, repl: string): string {
    if d == c then repl else [d]
  }

  /** Python's `s.replace(c, repl)` for a one-character pattern `c`. */
  function ReplaceChar(s: string, c: char, repl: string): string {
    if |s| == 0 then []
    else ReplaceChar(s[..|s| - 1], c, repl) + ReplaceOne(s[|s| - 1], c, repl)
  }

  /** Every character of the result is a character of `s` other than `c`, or one of `repl`. */
  lemma {:induction false} ReplaceCharChars(s: string, c: char, repl: string)
    ensures forall d :: d in ReplaceChar(s, c, repl) ==> (d in s && d != c) || d in repl
  {
    if |s| > 0 {
      ReplaceCharChars(s[..|s| - 1], c, repl);
      assert s == s[..|s| - 1] + [s[|s| - 1]];
    }
  }

  /** ReplaceChar works character by character, so it distributes over concatenation. */
  lemma {:induction false} ReplaceCharConcat(a: string, b: string, c: char, repl: string)
    ensures ReplaceChar(a + b, c, repl) == ReplaceChar(a, c, repl) + ReplaceChar(b, c, repl)
    decreases |b|
  {
    if |b| == 0 {
      assert a + b == a;
    } else {
      assert (a + b)[..|a + b| - 1] == a + b[..|b| - 1];
      ReplaceCharConcat(a, b[..|b| - 1], c, repl);
    }
  }

  /** Replacing in one character yields what ReplaceOne says. */
  lemma ReplaceCharSingle(d: char, c: char, repl: string)
    ensures ReplaceChar([d], c, repl) == ReplaceOne(d, c, repl)
  {
    assert [d][..0] == [];
  }

  /**
   * The text stored for a comment: every line feed becomes the two characters
   * backslash and `n`, then every carriage return becomes backslash and `r`,
   * so that one comment stays on one row of the output. An escaped text
   * holds no line feed and no carriage return.
   */
  function Escape(text: string): (r: string)
    ensures '\n' !in r && '\r' !in r
  {
    var once := ReplaceChar(text, '\n', "\\n");
    ReplaceCharChars(text, '\n', "\\n");
    ReplaceCharChars(once, '\r', "\\r");
    ReplaceChar(once, '\r', "\\r")
  }

  /** The escape of a single character. */
  function EscapeChar(c: char): string {
    if c == '\n' then "\\n" else if c == '\r' then "\\r" else [c]
  }

  /** A one-pass escape, character by character: the reference for the two-pass Escape. */
  function EscapeEach(s: string): string {
    if |s| == 0 then [] else EscapeChar(s[0]) + EscapeEach(s[1..])
  }

  /** Escaping works piece by piece. */
  lemma EscapeConcat(a: string, b: string)
    ensures Escape(a + b) == Escape(a) + Escape(b)
  {
    ReplaceCharConcat(a, b, '\n', "\\n");
    ReplaceCharConcat(ReplaceChar(a, '\n', "\\n"), ReplaceChar(b, '\n', "\\n"), '\r', "\\r");
  }

  /** A single character is escaped as EscapeChar says: the second replacement leaves the `\\n` of the first alone. */
  lemma EscapeOfChar(d: char)
    ensures Escape([d]) == EscapeChar(d)
  {
    ReplaceCharSingle(d, '\n', "\\n");
    if d == '\n' {
      assert "\\n" == ['\\'] + ['n'];
      ReplaceCharConcat(['\\'], ['n'], '\r', "\\r");
      ReplaceCharSingle('\\', '\r', "\\r");
      ReplaceCharSingle('n', '\r', "\\r");
    } else {
      ReplaceCharSingle(d, '\r', "\\r");
    }
  }

  /** The two replacements in sequence escape each character on its own: other characters keep their order. */
  lemma {:induction false} EscapeIsPerCharacter(s: string)
    ensures Escape(s) == EscapeEach(s)
  {
    if |s| > 0 {
      assert s == [s[0]] + s[1..];
      EscapeConcat([s[0]], s[1..]);
      EscapeOfChar(s[0]);
      EscapeIsPerCharacter(s[1..]);
    }
  }

  /** Reads the two-character escapes back as line breaks. */
  function Unescape(s: string): string {
    if |s| >= 2 && s[0] == '\\' && s[1] == 'n' then "\n" + Unescape(s[2..])
    else if |s| >= 2 && s[0] == '\\' && s[1] == 'r' then "\r" + Unescape(s[2..])
    else if |s| == 0 then []
    else [s[0]] + Unescape(s[1..])
  }

  /** Unescape undoes the one-pass escape of a text without backslashes. */
  lemma {:induction false} UnescapeEscapeEach(s: string)
    requires '\\' !in s
    ensures Unescape(EscapeEach(s)) == s
  {
    if s != [] {
      var rest := EscapeEach(s[1..]);
      assert EscapeEach(s) == EscapeChar(s[0]) + rest;
      var e := EscapeChar(s[0]) + rest;
      if |EscapeChar(s[0])| == 2 {
        assert e[2..] == rest;
      } else {
        assert e[0] == s[0] && e[1..] == rest;
      }
      assert s == [s[0]] + s[1..];
      UnescapeEscapeEach(s[1..]);
    }
  }

  /** Text without backslashes survives escaping: the stored text determines the original one. */
  lemma UnescapeEscape(s: string)
    requires '\\' !in s
    ensures Unescape(Escape(s)) == s
  {
    EscapeIsPerCharacter(s);
    UnescapeEscapeEach(s);
  }

  /** Text with no line breaks is stored as it is. */
  lemma {:induction false} EscapeKeepsPlainText(s: string)
    requires '\n' !in s && '\r' !in s
    ensures Escape(s) == s
  {
    EscapeIsPerCharacter(s);
    EscapeEachKeepsPlainText(s);
  }

  /** The one-pass escape leaves text with no line breaks as it is. */
  lemma {:induction false} EscapeEachKeepsPlainText(s: string)
    requires '\n' !in s && '\r' !in s
    ensures EscapeEach(s) == s
  {
    if s != [] {
      assert s[0] in s;
      assert forall d :: d in s[1..] ==> d in s;
      EscapeEachKeepsPlainText(s[1..]);
      assert s == [s[0]] + s[1..];
    }
  }
}
