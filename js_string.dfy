/**
 * The few ECMAScript string operations the core relies on: the white-space class
 * shared by `String.prototype.trim` and the regular-expression escape `\s`,
 * `trim`, `split('\n')`, the leading-white-space count `line.search(/\S|$/)` and
 * `substring`. A Dafny `char` stands for one UTF-16 code unit.
 */
module JsString {

  /** ECMAScript WhiteSpace or LineTerminator: the code units `trim` removes and `\s` matches. */
  predicate IsWhite(c: char) {
    || c == '\t' || c == '\n' || c == '\U{000B}' || c == '\U{000C}' || c == '\r' || c == ' '
    || c == '\U{00A0}' || c == '\U{1680}' || ('\U{2000}' <= c <= '\U{200A}')
    || c == '\U{2028}' || c == '\U{2029}' || c == '\U{202F}' || c == '\U{205F}'
    || c == '\U{3000}' || c == '\U{FEFF}'
  }

  predicate AllWhite(s: string) {
    forall k :: 0 <= k < |s| ==> IsWhite(s[k])
  }

  /** `s.search(/\S|$/)`: the index of the first non-white code unit, or `|s|` if there is none. */
  function LeadingWhite(s: string): (n: nat)
    ensures n <= |s|
    ensures AllWhite(s[..n])
    ensures n < |s| ==> !IsWhite(s[n])
  {
    if s == [] || !IsWhite(s[0]) then 0
    else
      var n := 1 + LeadingWhite(s[1..]);
      assert s[..n] == [s[0]] + s[1..][..n - 1];
      n
  }

  /** The number of white code units at the end of `s`. */
  function TrailingWhite(s: string): (n: nat)
    ensures n <= |s|
    ensures AllWhite(s[|s| - n..])
    ensures n < |s| ==> !IsWhite(s[|s| - n - 1])
  {
    if s == [] || !IsWhite(s[|s| - 1]) then 0
    else
      var s' := s[..|s| - 1];
      var n := 1 + TrailingWhite(s');
      assert s[|s| - n..] == s'[|s'| - (n - 1)..] + [s[|s| - 1]];
      n
  }

  /** `LeadingWhite` is determined by its contract. */
  lemma {:induction false} LeadingWhiteIs(s: string, n: nat)
    requires n <= |s| && AllWhite(s[..n]) && (n < |s| ==> !IsWhite(s[n]))
    ensures LeadingWhite(s) == n
  {
    if n > 0 {
      assert s[..n][0] == s[0];
      assert s[1..][..n - 1] == s[..n][1..];
      LeadingWhiteIs(s[1..], n - 1);
    }
  }

  /** `TrailingWhite` is determined by its contract. */
  lemma {:induction false} TrailingWhiteIs(s: string, n: nat)
    requires n <= |s| && AllWhite(s[|s| - n..]) && (n < |s| ==> !IsWhite(s[|s| - n - 1]))
    ensures TrailingWhite(s) == n
  {
    if n > 0 {
      var s' := s[..|s| - 1];
      assert s[|s| - n..][n - 1] == s[|s| - 1];
      assert s'[|s'| - (n - 1)..] == s[|s| - n..][..n - 1];
      TrailingWhiteIs(s', n - 1);
    }
  }

  function TrimStart(s: string): string {
    s[LeadingWhite(s)..]
  }

  /** Removing leading white space leaves exactly the part after a white prefix. */
  lemma TrimStartOfPadded(pre: string, rest: string)
    requires AllWhite(pre)
    requires rest == [] || !IsWhite(rest[0])
    ensures TrimStart(pre + rest) == rest
  {
    var s := pre + rest;
    assert s[..|pre|] == pre;
    assert rest != [] ==> s[|pre|] == rest[0];
    LeadingWhiteIs(s, |pre|);
    assert s[|pre|..] == rest;
  }

  /**
   * `String.prototype.trim`: the infix of `s` after its leading white space; it
   * is empty or starts and ends with a non-white code unit.
   */
  function Trim(s: string): (r: string)
    ensures LeadingWhite(s) + |r| <= |s|
    ensures r == s[LeadingWhite(s)..LeadingWhite(s) + |r|]
    ensures r == [] || (!IsWhite(r[0]) && !IsWhite(r[|r| - 1]))
  {
    var a := LeadingWhite(s);
    var t := s[a..];
    var m := TrailingWhite(t);
    var r := t[..|t| - m];
    assert r == s[a..a + |r|];
    assert r != [] ==> r[0] == s[a] && r[|r| - 1] == t[|t| - m - 1];
    r
  }

  /** Only white space is removed on either side of the trimmed infix. */
  lemma {:induction false} TrimRemovesWhite(s: string)
    ensures AllWhite(s[..LeadingWhite(s)])
    ensures AllWhite(s[LeadingWhite(s) + |Trim(s)|..])
  {
    var a := LeadingWhite(s);
    var t := s[a..];
    var m := TrailingWhite(t);
    assert Trim(s) == t[..|t| - m];
    assert s[a + |Trim(s)|..] == t[|t| - m..];
  }

  /**
   * Trimming is determined by the result alone: a core with non-white ends,
   * surrounded by white space, trims to itself.
   */
  lemma TrimOfPadded(pre: string, core: string, post: string)
    requires AllWhite(pre) && AllWhite(post)
    requires core == [] || (!IsWhite(core[0]) && !IsWhite(core[|core| - 1]))
    ensures Trim(pre + core + post) == core
  {
    var s := pre + core + post;
    if core == [] {
      assert s == pre + post;
      assert AllWhite(s) by {
        forall k | 0 <= k < |s| ensures IsWhite(s[k]) {
          if k < |pre| { assert s[k] == pre[k]; } else { assert s[k] == post[k - |pre|]; }
        }
      }
      assert s[..|s|] == s;
      LeadingWhiteIs(s, |s|);
    } else {
      assert s[..|pre|] == pre;
      assert s[|pre|] == core[0];
      LeadingWhiteIs(s, |pre|);
      var t := s[|pre|..];
      assert t == core + post;
      assert t[|t| - |post|..] == post;
      assert t[|t| - |post| - 1] == core[|core| - 1];
      TrailingWhiteIs(t, |post|);
      assert t[..|t| - |post|] == core;
    }
  }

  /** The index of the first line feed in `s`, or `|s|`. */
  function IndexOfNewline(s: string): (i: nat)
    ensures i <= |s|
    ensures '\n' !in s[..i]
    ensures i < |s| ==> s[i] == '\n'
  {
    if s == [] || s[0] == '\n' then 0
    else
      var i := 1 + IndexOfNewline(s[1..]);
      assert s[..i] == [s[0]] + s[1..][..i - 1];
      i
  }

  /** `IndexOfNewline` is determined by its contract. */
  lemma {:induction false} IndexOfNewlineIs(s: string, i: nat)
    requires i <= |s| && '\n' !in s[..i] && (i < |s| ==> s[i] == '\n')
    ensures IndexOfNewline(s) == i
  {
    if i > 0 {
      assert s[..i][0] == s[0];
      assert s[1..][..i - 1] == s[..i][1..];
      IndexOfNewlineIs(s[1..], i - 1);
    }
  }

  /** The inverse of `split('\n')`: the pieces glued back with line feeds. */
  function JoinLines(lines: seq<string>): string
    requires |lines| >= 1
  {
    if |lines| == 1 then lines[0] else lines[0] + "\n" + JoinLines(lines[1..])
  }

  /**
   * `s.split('\n')`: at least one piece, none containing a line feed, and
   * gluing the pieces back gives `s`.
   */
  function SplitLines(s: string): (lines: seq<string>)
    ensures |lines| >= 1
    ensures forall k :: 0 <= k < |lines| ==> '\n' !in lines[k]
    ensures JoinLines(lines) == s
    decreases |s|
  {
    var i := IndexOfNewline(s);
    if i == |s| then
      assert s[..i] == s;
      [s]
    else
      var rest := SplitLines(s[i + 1..]);
      var lines := [s[..i]] + rest;
      assert lines[1..] == rest;
      assert s == s[..i] + "\n" + s[i + 1..];
      lines
  }

  /** The empty string splits into one empty line. */
  lemma SplitEmpty()
    ensures SplitLines("") == [""]
  {
    assert IndexOfNewline("") == 0;
  }

  /** Splitting undoes joining, so `SplitLines` and `JoinLines` are inverse bijections. */
  lemma {:induction false} SplitJoin(lines: seq<string>)
    requires |lines| >= 1
    requires forall k :: 0 <= k < |lines| ==> '\n' !in lines[k]
    ensures SplitLines(JoinLines(lines)) == lines
    decreases |lines|
  {
    var s := JoinLines(lines);
    if |lines| == 1 {
      assert s[..|s|] == s;
      IndexOfNewlineIs(s, |s|);
    } else {
      var tail := JoinLines(lines[1..]);
      assert s == lines[0] + "\n" + tail;
      assert s[..|lines[0]|] == lines[0];
      IndexOfNewlineIs(s, |lines[0]|);
      assert s[|lines[0]| + 1..] == tail;
      SplitJoin(lines[1..]);
    }
  }

  /** Clamp a position into `[0, len]`, as `substring` does with its arguments. */
  function ClampIndex(i: int, len: nat): (r: nat)
    ensures r <= len
  {
    if i < 0 then 0 else if i > len then len else i
  }

  /**
   * `s.substring(start, end)`: both positions are clamped into `[0, |s|]` and
   * swapped when the first is the larger.
   */
  function Substring(s: string, start: int, end: int): (r: string)
    ensures 0 <= start <= end <= |s| ==> r == s[start..end]
    ensures |r| <= |s|
  {
    var a := ClampIndex(start, |s|);
    var b := ClampIndex(end, |s|);
    if a <= b then s[a..b] else s[b..a]
  }
}
