/**
 * The outline parser `parseTaskInput` (src/utils/taskParser.ts).
 *
 * A pure pre-pass cleans every line (markers stripped, indentation measured)
 * and drops the empty ones; then a loop walks the lines with a stack of parent
 * references. The stack only ever receives the current root (or JavaScript's
 * `undefined` when it is read while empty), so every attached indented line
 * becomes a direct child of the latest root: the parser never builds
 * grandchildren, and an indented line finding no parent is dropped.
 */
module TaskParser {
  import opened Types
  import opened JsString
  import opened Forest

  // ---------------------------------------------------------------------------
  // Line cleaning: the `map`/`filter` pre-pass
  // ---------------------------------------------------------------------------

  predicate IsBullet(c: char) {
    c == '-' || c == '*' || c == '+'
  }

  /** The checkbox tokens of the first expression: `[ ]`, `[x]`, `[X]`. */
  predicate IsCheckbox(s: string) {
    |s| == 3 && StartsWithCheckbox(s)
  }

  /** The first three code units are `[`, one of space, `x`, `X`, and `]`. */
  predicate StartsWithCheckbox(s: string) {
    |s| >= 3 && s[0] == '[' && (s[1] == ' ' || s[1] == 'x' || s[1] == 'X') && s[2] == ']'
  }

  /**
   * `.replace(/^[-*+]\s*(\[ \]|\[x\]|\[X\])?\s*\/, '')`: a leading bullet, the
   * white space after it, an optional checkbox and the white space after that.
   * The result is a suffix of `s`; it is `s` itself exactly when `s` does not
   * start with a bullet, and otherwise it does not start with white space.
   */
  function StripTaskMarker(s: string): (r: string)
    ensures |r| <= |s| && r == s[|s| - |r|..]
    ensures (s == [] || !IsBullet(s[0])) <==> r == s
    ensures r != s ==> r == [] || !IsWhite(r[0])
  {
    var n := MarkerEnd(s);
    assert n > 0 && n < |s| ==> !IsWhite(s[n]) by {
      if n > 0 && n < |s| {
        var i := 1 + LeadingWhite(s[1..]);
        var t := s[i..];
        var j := if StartsWithCheckbox(t) then 3 else 0;
        assert s[n] == t[j..][LeadingWhite(t[j..])];
      }
    }
    s[n..]
  }

  /** Where the marker ends: after the bullet, its white space, and what `BoxEnd` consumes. */
  function MarkerEnd(s: string): (n: nat)
    ensures n <= |s|
    ensures (s != [] && IsBullet(s[0])) <==> n > 0
  {
    if s != [] && IsBullet(s[0]) then
      var i := 1 + LeadingWhite(s[1..]);
      i + BoxEnd(s[i..])
    else 0
  }

  /** How much of `t` the optional checkbox group and the white space after it take up. */
  function BoxEnd(t: string): (j: nat)
    ensures j <= |t|
  {
    var j := if StartsWithCheckbox(t) then 3 else 0;
    j + LeadingWhite(t[j..])
  }

  /**
   * The first expression removes exactly one marker: for any bullet, white
   * space, optional checkbox and white space in front of a rest that neither
   * starts with white space nor, when no checkbox was written, with a checkbox,
   * only the rest remains.
   */
  lemma StripTaskMarkerOf(bullet: char, w1: string, box: string, w2: string, rest: string)
    requires IsBullet(bullet) && AllWhite(w1) && AllWhite(w2)
    requires box == [] || IsCheckbox(box)
    requires rest == [] || !IsWhite(rest[0])
    requires box == [] ==> !StartsWithCheckbox(rest)
    ensures StripTaskMarker([bullet] + w1 + box + w2 + rest) == rest
  {
    var s := [bullet] + w1 + box + w2 + rest;
    if box == [] {
      var w := w1 + w2;
      assert AllWhite(w) by {
        forall k | 0 <= k < |w| ensures IsWhite(w[k]) {
          if k < |w1| { assert w[k] == w1[k]; } else { assert w[k] == w2[k - |w1|]; }
        }
      }
      assert s == [bullet] + w + rest;
      StripNoBox(bullet, w, rest);
    } else {
      assert s == [bullet] + w1 + (box + w2 + rest);
      StripBox(bullet, w1, box, w2, rest);
    }
  }

  /** After a bullet, the white space that follows it goes. */
  lemma StripBullet(bullet: char, w: string, t: string)
    requires IsBullet(bullet) && AllWhite(w)
    requires t == [] || !IsWhite(t[0])
    ensures StripTaskMarker([bullet] + w + t) == t[BoxEnd(t)..]
  {
    var s := [bullet] + w + t;
    assert s[1..] == w + t;
    assert (w + t)[..|w|] == w;
    assert t != [] ==> (w + t)[|w|] == t[0];
    LeadingWhiteIs(w + t, |w|);
    assert s[1 + |w|..] == t;
  }

  lemma StripNoBox(bullet: char, w: string, rest: string)
    requires IsBullet(bullet) && AllWhite(w)
    requires rest == [] || !IsWhite(rest[0])
    requires !StartsWithCheckbox(rest)
    ensures StripTaskMarker([bullet] + w + rest) == rest
  {
    StripBullet(bullet, w, rest);
    assert rest[0..] == rest;
  }

  lemma StripBox(bullet: char, w1: string, box: string, w2: string, rest: string)
    requires IsBullet(bullet) && AllWhite(w1) && AllWhite(w2) && IsCheckbox(box)
    requires rest == [] || !IsWhite(rest[0])
    ensures StripTaskMarker([bullet] + w1 + (box + w2 + rest)) == rest
  {
    var t := box + w2 + rest;
    assert t[0] == box[0];
    StripBullet(bullet, w1, t);
    BoxEndOfBox(box, w2, rest);
  }

  /** A written checkbox and the white space after it are skipped together. */
  lemma BoxEndOfBox(box: string, w: string, rest: string)
    requires AllWhite(w) && IsCheckbox(box)
    requires rest == [] || !IsWhite(rest[0])
    ensures BoxEnd(box + w + rest) == 3 + |w|
    ensures (box + w + rest)[3 + |w|..] == rest
  {
    var t := box + w + rest;
    assert t[0] == box[0] && t[1] == box[1] && t[2] == box[2];
    assert t[3..] == w + rest;
    assert (w + rest)[..|w|] == w;
    assert rest != [] ==> (w + rest)[|w|] == rest[0];
    LeadingWhiteIs(w + rest, |w|);
  }

  /**
   * `.replace(/^[-*+]\s+/, '')`: a bullet followed by at least one white code
   * unit is removed together with all the white space after it.
   */
  function StripListMarker(s: string): (r: string)
    ensures |r| <= |s| && r == s[|s| - |r|..]
    ensures !(|s| >= 2 && IsBullet(s[0]) && IsWhite(s[1])) <==> r == s
    ensures r != s ==> r == [] || !IsWhite(r[0])
  {
    if |s| >= 2 && IsBullet(s[0]) && IsWhite(s[1]) then
      var r := TrimStart(s[1..]);
      assert r != [] ==> r[0] == s[1..][LeadingWhite(s[1..])];
      r
    else s
  }

  lemma StripListMarkerOf(bullet: char, w: string, rest: string)
    requires IsBullet(bullet) && w != [] && AllWhite(w)
    requires rest == [] || !IsWhite(rest[0])
    ensures StripListMarker([bullet] + w + rest) == rest
  {
    var s := [bullet] + w + rest;
    assert s[1] == w[0];
    assert s[1..] == w + rest;
    TrimStartOfPadded(w, rest);
  }

  /** A line's content: trimmed, then both marker expressions applied in turn. */
  function CleanLine(line: string): string {
    StripListMarker(StripTaskMarker(Trim(line)))
  }

  /** A line with no marker keeps its trimmed text. */
  lemma CleanPlainLine(w0: string, text: string, w1: string)
    requires AllWhite(w0) && AllWhite(w1)
    requires text != [] && !IsWhite(text[0]) && !IsWhite(text[|text| - 1]) && !IsBullet(text[0])
    ensures CleanLine(w0 + text + w1) == text
  {
    TrimOfPadded(w0, text, w1);
  }

  /** Trimming a marked line and removing its marker leaves the text after the marker. */
  lemma TaskMarkerOfLine(w0: string, bullet: char, w1: string, box: string, w2: string, rest: string, w3: string)
    requires AllWhite(w0) && IsBullet(bullet) && AllWhite(w1) && AllWhite(w2) && AllWhite(w3)
    requires box == [] || IsCheckbox(box)
    requires rest != [] && !IsWhite(rest[0]) && !IsWhite(rest[|rest| - 1])
    requires box == [] ==> !StartsWithCheckbox(rest)
    ensures StripTaskMarker(Trim(w0 + [bullet] + w1 + box + w2 + rest + w3)) == rest
  {
    var core := [bullet] + w1 + box + w2 + rest;
    assert w0 + [bullet] + w1 + box + w2 + rest + w3 == w0 + core + w3;
    assert core[|core| - 1] == rest[|rest| - 1];
    TrimOfPadded(w0, core, w3);
    StripTaskMarkerOf(bullet, w1, box, w2, rest);
  }

  /**
   * A marked line keeps the text after its indentation, bullet, optional
   * checkbox and the white space around them, when that text has no marker of its own.
   */
  lemma CleanMarkedLine(w0: string, bullet: char, w1: string, box: string, w2: string, text: string, w3: string)
    requires AllWhite(w0) && IsBullet(bullet) && AllWhite(w1) && AllWhite(w2) && AllWhite(w3)
    requires box == [] || IsCheckbox(box)
    requires text != [] && !IsWhite(text[0]) && !IsWhite(text[|text| - 1])
    requires box == [] ==> !StartsWithCheckbox(text)
    requires !(|text| >= 2 && IsBullet(text[0]) && IsWhite(text[1]))
    ensures CleanLine(w0 + [bullet] + w1 + box + w2 + text + w3) == text
  {
    TaskMarkerOfLine(w0, bullet, w1, box, w2, text, w3);
  }

  /** A second bullet followed by white space after the first marker is removed as well. */
  lemma CleanDoublyMarkedLine(w0: string, bullet: char, w1: string, box: string, w2: string,
                              bullet2: char, w4: string, text: string, w3: string)
    requires AllWhite(w0) && IsBullet(bullet) && AllWhite(w1) && AllWhite(w2) && AllWhite(w3)
    requires box == [] || IsCheckbox(box)
    requires IsBullet(bullet2) && w4 != [] && AllWhite(w4)
    requires text != [] && !IsWhite(text[0]) && !IsWhite(text[|text| - 1])
    ensures CleanLine(w0 + [bullet] + w1 + box + w2 + ([bullet2] + w4 + text) + w3) == text
  {
    var rest := [bullet2] + w4 + text;
    assert rest[0] == bullet2 && rest[|rest| - 1] == text[|text| - 1];
    assert !StartsWithCheckbox(rest) by {
      if |rest| >= 3 { assert rest[..3][0] == bullet2; }
    }
    TaskMarkerOfLine(w0, bullet, w1, box, w2, rest, w3);
    StripListMarkerOf(bullet2, w4, text);
  }

  /** A line holding only a marker cleans to nothing, so the parser skips it. */
  lemma CleanMarkerOnlyLine(w0: string, bullet: char, w1: string, box: string, w3: string)
    requires AllWhite(w0) && IsBullet(bullet) && AllWhite(w1) && AllWhite(w3)
    requires box == [] || IsCheckbox(box)
    ensures CleanLine(w0 + [bullet] + w1 + box + w3) == []
  {
    if box == [] {
      var post := w1 + w3;
      assert AllWhite(post) by {
        forall k | 0 <= k < |post| ensures IsWhite(post[k]) {
          if k < |w1| { assert post[k] == w1[k]; } else { assert post[k] == w3[k - |w1|]; }
        }
      }
      assert w0 + [bullet] + w1 + box + w3 == w0 + [bullet] + post;
      TrimOfPadded(w0, [bullet], post);
      assert [bullet][1..] == [];
      TrimStartOfPadded([], []);
    } else {
      var core := [bullet] + w1 + box;
      assert w0 + [bullet] + w1 + box + w3 == w0 + core + w3;
      assert core[|core| - 1] == ']';
      TrimOfPadded(w0, core, w3);
      assert core == [bullet] + w1 + box + [] + [];
      StripTaskMarkerOf(bullet, w1, box, [], []);
    }
  }

  lemma CleanLineExampleCheckbox()
    ensures CleanLine("- [ ] Buy milk") == "Buy milk"
  {
    assert "- [ ] Buy milk" == "" + ['-'] + " " + "[ ]" + " " + "Buy milk" + "";
    CleanMarkedLine("", '-', " ", "[ ]", " ", "Buy milk", "");
  }

  lemma CleanLineExampleIndented()
    ensures CleanLine("  * Task two ") == "Task two"
  {
    assert "  * Task two " == "  " + ['*'] + " " + "" + "" + "Task two" + " ";
    CleanMarkedLine("  ", '*', " ", "", "", "Task two", " ");
  }

  lemma CleanLineExampleDouble()
    ensures CleanLine("- - nested") == "nested"
  {
    assert "- - nested" == "" + ['-'] + " " + "" + "" + (['-'] + " " + "nested") + "";
    CleanDoublyMarkedLine("", '-', " ", "", "", '-', " ", "nested", "");
  }

  lemma CleanLineExampleMarkerOnly()
    ensures CleanLine("  - [X]  ") == []
  {
    assert "  - [X]  " == "  " + ['-'] + " " + "[X]" + "  ";
    CleanMarkerOnlyLine("  ", '-', " ", "[X]", "  ");
  }

  /** The source's `ParsedLine`: cleaned content and raw leading-white-space count. */
  datatype ParsedLine = ParsedLine(content: string, indentation: nat)

  function ParseLine(line: string): ParsedLine {
    ParsedLine(CleanLine(line), LeadingWhite(line))
  }

  /** The `map` step: every raw line cleaned and measured. */
  function ParseAll(raw: seq<string>): (ps: seq<ParsedLine>)
    ensures |ps| == |raw| && forall k :: 0 <= k < |raw| ==> ps[k] == ParseLine(raw[k])
  {
    seq(|raw|, k requires 0 <= k < |raw| => ParseLine(raw[k]))
  }

  /** The `filter` step: the lines in order, those whose content is empty left out. */
  function NonEmpty(ps: seq<ParsedLine>): (lines: seq<ParsedLine>)
    ensures |lines| <= |ps|
    ensures forall k :: 0 <= k < |lines| ==> lines[k].content != []
  {
    if ps == [] then []
    else (if ps[0].content != [] then [ps[0]] else []) + NonEmpty(ps[1..])
  }

  /** A line survives the filter exactly when its content is not empty. */
  lemma {:induction false} NonEmptyKeeps(ps: seq<ParsedLine>, p: ParsedLine)
    ensures p in NonEmpty(ps) <==> p in ps && p.content != []
  {
    if ps != [] {
      NonEmptyKeeps(ps[1..], p);
      assert ps == [ps[0]] + ps[1..];
    }
  }

  /** Nothing survives exactly when every content is empty. */
  lemma {:induction false} NonEmptyIsEmpty(ps: seq<ParsedLine>)
    ensures NonEmpty(ps) == [] <==> forall k :: 0 <= k < |ps| ==> ps[k].content == []
  {
    if ps != [] {
      NonEmptyIsEmpty(ps[1..]);
      assert forall k :: 1 <= k < |ps| ==> ps[k] == ps[1..][k - 1];
    }
  }

  function ParsedLines(input: string): seq<ParsedLine> {
    NonEmpty(ParseAll(SplitLines(input)))
  }

  /** A line that cleans to nothing: empty, white space only, or a marker only. */
  predicate Blank(line: string) {
    CleanLine(line) == []
  }

  /** Input whose every line is blank parses to no task. */
  lemma BlankInputParsesToNothing(input: string, firstId: Id)
    requires forall k :: 0 <= k < |SplitLines(input)| ==> Blank(SplitLines(input)[k])
    ensures ParsedLines(input) == []
    ensures ParseForest(input, firstId) == []
  {
    var ps := ParseAll(SplitLines(input));
    NonEmptyIsEmpty(ps);
  }

  lemma EmptyLineIsBlank()
    ensures Blank("")
  {
    assert StripTaskMarker(Trim("")) == [];
  }

  lemma EmptyInputParsesToNothing(firstId: Id)
    ensures ParseForest("", firstId) == []
  {
    SplitEmpty();
    EmptyLineIsBlank();
    BlankInputParsesToNothing("", firstId);
  }

  /**
   * `Math.min` over the positive indentations. `None` stands for the `Infinity`
   * that `Math.min()` returns on no arguments: it is truthy, so the `|| 4`
   * default is never taken, and then every indentation is 0.
   */
  function MinPositiveIndentation(lines: seq<ParsedLine>): (r: Option<nat>)
    ensures r.None? <==> forall k :: 0 <= k < |lines| ==> lines[k].indentation == 0
    ensures r.Some? ==> r.value > 0
    ensures r.Some? ==> exists k :: 0 <= k < |lines| && lines[k].indentation == r.value
    ensures r.Some? ==> forall k :: 0 <= k < |lines| && lines[k].indentation > 0 ==> r.value <= lines[k].indentation
  {
    if lines == [] then None
    else
      var rest := MinPositiveIndentation(lines[1..]);
      assert forall k :: 1 <= k < |lines| ==> lines[k] == lines[1..][k - 1];
      var d := lines[0].indentation;
      if d == 0 then rest
      else if rest.None? || d < rest.value then Some(d)
      else rest
  }

  /** `Math.floor(indentation / baseIndentation)`; with an `Infinity` base every level is 0. */
  function Level(indentation: nat, base: Option<nat>): nat
    requires base.Some? ==> base.value > 0
  {
    match base
    case None => 0
    case Some(b) => indentation / b
  }

  /** Quantising by the smallest positive indentation sends exactly the unindented lines to level 0. */
  lemma {:induction false} LevelZeroIff(lines: seq<ParsedLine>, k: nat)
    requires k < |lines|
    ensures Level(lines[k].indentation, MinPositiveIndentation(lines)) == 0 <==> lines[k].indentation == 0
  {
    var base := MinPositiveIndentation(lines);
    if base.Some? {
      var d, b := lines[k].indentation, base.value;
      if d > 0 {
        assert b <= d;
        QuotientPositive(d, b);
      }
    }
  }

  lemma QuotientPositive(d: nat, b: nat)
    requires 0 < b <= d
    ensures d / b > 0
  {
  }

  // ---------------------------------------------------------------------------
  // The walk, as a left fold over the lines with an abstract parent stack
  // ---------------------------------------------------------------------------

  /** The node created for every line, root or child. */
  function NewNode(id: Id, content: string): Task {
    Task(id, content, Todo, Some(UNCATEGORIZED), [], false, Some(Low), None, None)
  }

  /**
   * The walk's state after some lines: the roots built so far, the height of
   * `parentStack`, whether its entries are the latest root (otherwise they are
   * all `undefined`), and `previousIndentLevel`.
   */
  datatype ParseState = ParseState(tasks: seq<Task>, height: nat, holdsRoot: bool, previous: nat)

  predicate Coherent(st: ParseState) {
    st.holdsRoot ==> st.tasks != []
  }

  const Start := ParseState([], 0, false, 0)

  /** `height - count`, floored at 0: popping an empty array changes nothing. */
  function Popped(height: nat, count: nat): nat {
    if height >= count then height - count else 0
  }

  /** The stack height after a non-root line at `level`. */
  function HeightAfter(st: ParseState, level: nat): nat {
    if level > st.previous then st.height + 1
    else if level < st.previous then Popped(st.height, st.previous - level + 1)
    else st.height
  }

  /**
   * Whether a non-root line at `level` finds a parent: the top of the stack when
   * going deeper (pushed again), the top after popping `previous - level + 1`
   * entries when going back up, and the entry second from the top at the same
   * level. Any of them is the latest root, or `undefined`.
   */
  predicate ParentAvailable(st: ParseState, level: nat) {
    st.holdsRoot &&
    if level > st.previous then st.height > 0
    else if level < st.previous then HeightAfter(st, level) > 0
    else st.height >= 2
  }

  /** `currentParent.subtasks.push(node)` where the parent is the latest root. */
  function AttachToLast(tasks: seq<Task>, node: Task): (r: seq<Task>)
    requires tasks != []
    ensures |r| == |tasks| && r[..|r| - 1] == tasks[..|tasks| - 1]
  {
    var last := tasks[|tasks| - 1];
    tasks[|tasks| - 1 := last.(subtasks := last.subtasks + [node])]
  }

  function Step(st: ParseState, level: nat, node: Task): (r: ParseState)
    requires Coherent(st)
    ensures Coherent(r)
  {
    if level == 0 then ParseState(st.tasks + [node], 1, true, 0)
    else
      ParseState(
        if ParentAvailable(st, level) then AttachToLast(st.tasks, node) else st.tasks,
        HeightAfter(st, level),
        st.holdsRoot && (level > st.previous ==> st.height > 0),
        level)
  }

  /** The state after the given lines, the `k`-th of which gets id `firstId + k`. */
  function Run(lines: seq<ParsedLine>, base: Option<nat>, firstId: Id): (st: ParseState)
    requires base.Some? ==> base.value > 0
    ensures Coherent(st)
    decreases |lines|
  {
    if lines == [] then Start
    else
      var n := |lines| - 1;
      Step(Run(lines[..n], base, firstId), Level(lines[n].indentation, base), NewNode(firstId + n, lines[n].content))
  }

  function ParseLinesForest(lines: seq<ParsedLine>, firstId: Id): seq<Task> {
    Run(lines, MinPositiveIndentation(lines), firstId).tasks
  }

  /** What `parseTaskInput(input)` returns when the id supply starts at `firstId`. */
  function ParseForest(input: string, firstId: Id): seq<Task> {
    ParseLinesForest(ParsedLines(input), firstId)
  }

  // ---------------------------------------------------------------------------
  // The walk as the source performs it
  // ---------------------------------------------------------------------------

  /** `parentStack[parentStack.length - 1]`; reading an empty array gives `undefined`. */
  function Top(stack: seq<Option<nat>>): Option<nat> {
    if stack == [] then None else stack[|stack| - 1]
  }

  /** The entry the abstract state says every stack slot holds: the latest root's index, or `undefined`. */
  function StackEntry(st: ParseState): Option<nat>
    requires Coherent(st)
  {
    if st.holdsRoot then Some(|st.tasks| - 1) else None
  }

  /** The concrete variables of the walk hold what the abstract state says. */
  predicate Mirrors(st: ParseState, tasks: seq<Task>, parentStack: seq<Option<nat>>, previous: nat) {
    Coherent(st) && st.tasks == tasks && st.height == |parentStack| && st.previous == previous
    && forall k :: 0 <= k < |parentStack| ==> parentStack[k] == StackEntry(st)
  }

  /** The fold over one more line is one more step. */
  lemma {:induction false} RunSnoc(lines: seq<ParsedLine>, i: nat, base: Option<nat>, firstId: Id)
    requires i < |lines| && (base.Some? ==> base.value > 0)
    ensures Run(lines[..i + 1], base, firstId)
         == Step(Run(lines[..i], base, firstId), Level(lines[i].indentation, base), NewNode(firstId + i, lines[i].content))
  {
    assert lines[..i + 1][..i] == lines[..i];
    assert lines[..i + 1][i] == lines[i];
  }

  /** A level-0 line: the node becomes a root and the stack is reset to it. */
  lemma {:induction false} MirrorsRoot(st: ParseState, tasks: seq<Task>, stack: seq<Option<nat>>, previous: nat, node: Task)
    requires Mirrors(st, tasks, stack, previous)
    ensures Mirrors(Step(st, 0, node), tasks + [node], [Some(|tasks|)], 0)
  {
  }

  /** The parent a non-root line finds, and what attaching to it does. */
  predicate Attached(st: ParseState, tasks: seq<Task>, parent: Option<nat>, level: nat, node: Task, tasks': seq<Task>)
    requires Coherent(st) && st.tasks == tasks
  {
    (parent.Some? <==> ParentAvailable(st, level))
    && (parent.Some? ==> parent.value == |tasks| - 1
                         && tasks' == tasks[parent.value := tasks[parent.value].(subtasks := tasks[parent.value].subtasks + [node])])
  }

  /** A deeper line: the top of the stack is its parent and is pushed again. */
  lemma {:induction false} MirrorsDeeper(st: ParseState, tasks: seq<Task>, stack: seq<Option<nat>>, previous: nat, level: nat, node: Task)
    requires Mirrors(st, tasks, stack, previous) && 0 < level && previous < level
    ensures Attached(st, tasks, Top(stack), level, node, Step(st, level, node).tasks)
    ensures Mirrors(Step(st, level, node), Step(st, level, node).tasks, stack + [Top(stack)], level)
  {
    var r := Step(st, level, node);
    assert |r.tasks| == |tasks|;
    var stack' := stack + [Top(stack)];
    forall k | 0 <= k < |stack'| ensures stack'[k] == StackEntry(r) {
      if k < |stack| { assert stack'[k] == stack[k]; }
    }
  }

  /** A shallower line: `previous - level + 1` entries popped, then the top is its parent. */
  lemma {:induction false} MirrorsUp(st: ParseState, tasks: seq<Task>, stack: seq<Option<nat>>, previous: nat,
                                   level: nat, node: Task, popped: seq<Option<nat>>)
    requires Mirrors(st, tasks, stack, previous) && 0 < level < previous
    requires |popped| == Popped(st.height, previous - level + 1)
    requires forall k :: 0 <= k < |popped| ==> popped[k] == StackEntry(st)
    ensures Attached(st, tasks, Top(popped), level, node, Step(st, level, node).tasks)
    ensures Mirrors(Step(st, level, node), Step(st, level, node).tasks, popped, level)
  {
    var r := Step(st, level, node);
    assert |r.tasks| == |tasks|;
  }

  /** A line at the same level: the entry second from the top is its parent; the stack is kept. */
  lemma {:induction false} MirrorsSame(st: ParseState, tasks: seq<Task>, stack: seq<Option<nat>>, previous: nat, node: Task)
    requires Mirrors(st, tasks, stack, previous) && 0 < previous
    ensures Attached(st, tasks, if |stack| >= 2 then stack[|stack| - 2] else None, previous, node, Step(st, previous, node).tasks)
    ensures Mirrors(Step(st, previous, node), Step(st, previous, node).tasks, stack, previous)
  {
    var r := Step(st, previous, node);
    assert |r.tasks| == |tasks|;
  }

  /**
   * `parseTaskInput`: the cleaning pre-pass, then the walk over the kept lines.
   * The result is the fold `ParseForest`; the roots are the unindented lines,
   * the forest is at most two levels deep and its ids are fresh and distinct.
   */
  method ParseTaskInput(input: string, firstId: Id) returns (tasks: seq<Task>, nextId: Id)
    ensures tasks == ParseForest(input, firstId)
    ensures nextId == firstId + |ParsedLines(input)|
    ensures Contents(tasks) == UnindentedContents(ParsedLines(input))
    ensures TwoLevels(tasks)
    ensures Distinct(tasks) && IdsBetween(tasks, firstId, nextId)
  {
    var lines := ParsedLines(input);
    tasks, nextId := BuildForest(lines, firstId);
    ParseFacts(lines, firstId);
  }

  /**
   * The walk of `parseTaskInput` (src/utils/taskParser.ts:19-82). References to
   * task objects are indices into `tasks` (`None` is `undefined`); the stack is
   * an array of such references. The loop keeps the invariant that every stack
   * entry is the latest root, or that all of them are `undefined`.
   */
  method BuildForest(lines: seq<ParsedLine>, firstId: Id) returns (tasks: seq<Task>, nextId: Id)
    ensures tasks == ParseLinesForest(lines, firstId)
    ensures nextId == firstId + |lines|
  {
    if |lines| == 0 {
      return [], firstId;
    }
    var baseIndentation := MinPositiveIndentation(lines);
    tasks := [];
    var currentTask: Option<nat> := None;
    var currentParent: Option<nat> := None;
    var parentStack: seq<Option<nat>> := [];
    var previousIndentLevel: nat := 0;
    nextId := firstId;
    for i := 0 to |lines|
      invariant nextId == firstId + i
      invariant Mirrors(Run(lines[..i], baseIndentation, firstId), tasks, parentStack, previousIndentLevel)
    {
      ghost var st := Run(lines[..i], baseIndentation, firstId);
      ghost var old_stack := parentStack;
      var line := lines[i];
      var indentLevel := Level(line.indentation, baseIndentation);
      var newTask := NewNode(nextId, line.content);
      nextId := nextId + 1;
      ghost var next := Step(st, indentLevel, newTask);
      RunSnoc(lines, i, baseIndentation, firstId);
      assert Run(lines[..i + 1], baseIndentation, firstId) == next;
      if indentLevel == 0 {
        MirrorsRoot(st, tasks, parentStack, previousIndentLevel, newTask);
        tasks := tasks + [newTask];
        currentTask := Some(|tasks| - 1);
        parentStack := [currentTask];
        currentParent := None;
      } else {
        ghost var tasks' := next.tasks;
        if indentLevel > previousIndentLevel {
          MirrorsDeeper(st, tasks, parentStack, previousIndentLevel, indentLevel, newTask);
          currentParent := Top(parentStack);
          parentStack := parentStack + [currentParent];
        } else if indentLevel < previousIndentLevel {
          var levelsToGoUp := previousIndentLevel - indentLevel;
          for k := 0 to levelsToGoUp + 1
            invariant |parentStack| == Popped(st.height, k)
            invariant forall j :: 0 <= j < |parentStack| ==> parentStack[j] == StackEntry(st)
          {
            if parentStack != [] {
              parentStack := parentStack[..|parentStack| - 1];
            }
          }
          MirrorsUp(st, tasks, old_stack, previousIndentLevel, indentLevel, newTask, parentStack);
          currentParent := Top(parentStack);
        } else {
          MirrorsSame(st, tasks, parentStack, previousIndentLevel, newTask);
          currentParent := if |parentStack| >= 2 then parentStack[|parentStack| - 2] else None;
        }
        if currentParent.Some? {
          var j := currentParent.value;
          tasks := tasks[j := tasks[j].(subtasks := tasks[j].subtasks + [newTask])];
        }
        assert tasks == tasks';
      }
      previousIndentLevel := indentLevel;
      assert Mirrors(next, tasks, parentStack, previousIndentLevel);
    }
    assert lines[..|lines|] == lines;
  }

  // ---------------------------------------------------------------------------
  // What the parser builds
  // ---------------------------------------------------------------------------

  function Contents(tasks: seq<Task>): (r: seq<string>)
    ensures |r| == |tasks| && forall i :: 0 <= i < |tasks| ==> r[i] == tasks[i].content
  {
    seq(|tasks|, i requires 0 <= i < |tasks| => tasks[i].content)
  }

  /** The contents of the lines with no leading white space, in input order. */
  function UnindentedContents(lines: seq<ParsedLine>): seq<string>
    decreases |lines|
  {
    if lines == [] then []
    else
      var n := |lines| - 1;
      UnindentedContents(lines[..n]) + (if lines[n].indentation == 0 then [lines[n].content] else [])
  }

  /** The default fields every parsed node carries (src/utils/taskParser.ts:38-47). */
  predicate IsParsedNode(t: Task) {
    t.status == Todo && t.project == Some(UNCATEGORIZED) && !t.isExpanded
    && t.priority == Some(Low) && t.description.None? && t.actionItems.None?
  }

  /** Roots and their direct children are parsed nodes, and no child has children. */
  predicate TwoLevels(tasks: seq<Task>) {
    forall i :: 0 <= i < |tasks| ==>
      IsParsedNode(tasks[i]) &&
      forall j :: 0 <= j < |tasks[i].subtasks| ==>
        IsParsedNode(tasks[i].subtasks[j]) && tasks[i].subtasks[j].subtasks == []
  }

  predicate IdsBetween(tasks: seq<Task>, lo: Id, hi: Id) {
    forall x | x in IdBag(tasks) :: lo <= x < hi
  }

  lemma {:induction false} AttachToLastFacts(tasks: seq<Task>, node: Task)
    requires tasks != [] && node.subtasks == []
    ensures IdBag(AttachToLast(tasks, node)) == IdBag(tasks) + multiset{node.id}
    ensures Outline(AttachToLast(tasks, node), 0) == Outline(tasks, 0) + [Entry(1, node)]
    ensures Contents(AttachToLast(tasks, node)) == Contents(tasks)
  {
    var n := |tasks| - 1;
    var front, last := tasks[..n], tasks[n];
    var last' := last.(subtasks := last.subtasks + [node]);
    assert tasks == front + [last];
    assert AttachToLast(tasks, node) == front + [last'];
    AttachIds(front, last, node);
    AttachOutline(front, last, node);
  }

  lemma {:induction false} AttachIds(front: seq<Task>, last: Task, node: Task)
    requires node.subtasks == []
    ensures IdBag(front + [last.(subtasks := last.subtasks + [node])]) == IdBag(front + [last]) + multiset{node.id}
  {
    var last' := last.(subtasks := last.subtasks + [node]);
    IdBagAppend(front, [last]);
    IdBagAppend(front, [last']);
    IdBagSingle(last);
    IdBagSingle(last');
    IdBagAppend(last.subtasks, [node]);
    IdBagSingle(node);
  }

  lemma {:induction false} AttachOutline(front: seq<Task>, last: Task, node: Task)
    requires node.subtasks == []
    ensures Outline(front + [last.(subtasks := last.subtasks + [node])], 0) == Outline(front + [last], 0) + [Entry(1, node)]
  {
    var last' := last.(subtasks := last.subtasks + [node]);
    OutlineAppend(front, [last], 0);
    OutlineAppend(front, [last'], 0);
    OutlineAddChild(last, node, 0);
  }

  /** Appending a childless root adds exactly its id. */
  lemma AppendRootIds(tasks: seq<Task>, node: Task)
    requires node.subtasks == []
    ensures IdBag(tasks + [node]) == IdBag(tasks) + multiset{node.id}
  {
    IdBagAppend(tasks, [node]);
    IdBagSingle(node);
  }

  /** Appending a childless root appends its entry at depth 0. */
  lemma AppendRootOutline(tasks: seq<Task>, node: Task)
    requires node.subtasks == []
    ensures Outline(tasks + [node], 0) == Outline(tasks, 0) + [Entry(0, node)]
  {
    OutlineAppend(tasks, [node], 0);
    OutlineSingle(node, 0);
    assert Data(node) == node;
  }

  /** One step adds a root exactly for a level-0 line. */
  lemma StepContents(st: ParseState, level: nat, node: Task)
    requires Coherent(st) && node.subtasks == []
    ensures Contents(Step(st, level, node).tasks) == Contents(st.tasks) + (if level == 0 then [node.content] else [])
  {
    var r := Step(st, level, node);
    if level == 0 {
      assert r.tasks == st.tasks + [node];
    } else if ParentAvailable(st, level) {
      AttachToLastFacts(st.tasks, node);
    }
  }

  /** One step keeps the forest two levels deep. */
  lemma StepTwoLevels(st: ParseState, level: nat, node: Task)
    requires Coherent(st) && TwoLevels(st.tasks)
    requires IsParsedNode(node) && node.subtasks == []
    ensures TwoLevels(Step(st, level, node).tasks)
  {
    var r := Step(st, level, node);
    if level == 0 {
      assert r.tasks == st.tasks + [node];
    } else if ParentAvailable(st, level) {
      var m := |st.tasks| - 1;
      assert forall i :: 0 <= i < m ==> r.tasks[i] == st.tasks[i];
      assert r.tasks[m].subtasks == st.tasks[m].subtasks + [node];
    }
  }

  /** The roots of the forest the fold builds are the unindented lines, in input order. */
  lemma {:induction false} RunContents(lines: seq<ParsedLine>, base: Option<nat>, firstId: Id)
    requires base.Some? ==> base.value > 0
    requires forall k :: 0 <= k < |lines| ==> (Level(lines[k].indentation, base) == 0 <==> lines[k].indentation == 0)
    ensures Contents(Run(lines, base, firstId).tasks) == UnindentedContents(lines)
    decreases |lines|
  {
    if lines != [] {
      var n := |lines| - 1;
      var prefix := lines[..n];
      assert forall k :: 0 <= k < n ==> prefix[k] == lines[k];
      RunContents(prefix, base, firstId);
      StepContents(Run(prefix, base, firstId), Level(lines[n].indentation, base), NewNode(firstId + n, lines[n].content));
    }
  }

  /** The fold builds parsed nodes only, roots with childless children. */
  lemma {:induction false} RunTwoLevels(lines: seq<ParsedLine>, base: Option<nat>, firstId: Id)
    requires base.Some? ==> base.value > 0
    ensures TwoLevels(Run(lines, base, firstId).tasks)
    decreases |lines|
  {
    if lines != [] {
      var n := |lines| - 1;
      RunTwoLevels(lines[..n], base, firstId);
      StepTwoLevels(Run(lines[..n], base, firstId), Level(lines[n].indentation, base), NewNode(firstId + n, lines[n].content));
    }
  }

  /** One step adds the node's id exactly when it keeps the node. */
  lemma StepIds(st: ParseState, level: nat, node: Task)
    requires Coherent(st) && node.subtasks == []
    ensures IdBag(Step(st, level, node).tasks)
         == IdBag(st.tasks) + (if level == 0 || ParentAvailable(st, level) then multiset{node.id} else multiset{})
  {
    if level == 0 {
      AppendRootIds(st.tasks, node);
    } else if ParentAvailable(st, level) {
      AttachToLastFacts(st.tasks, node);
    }
  }

  /** A step whose node carries the next id keeps every id below the supply. */
  lemma StepIdRange(st: ParseState, level: nat, node: Task, lo: Id, hi: Id)
    requires Coherent(st) && node.subtasks == []
    requires IdsBetween(st.tasks, lo, hi) && lo <= node.id == hi
    ensures IdsBetween(Step(st, level, node).tasks, lo, hi + 1)
  {
    StepIds(st, level, node);
  }

  /** Every id the fold draws lies in `[firstId, firstId + |lines|)`. */
  lemma {:induction false} RunIdRange(lines: seq<ParsedLine>, base: Option<nat>, firstId: Id)
    requires base.Some? ==> base.value > 0
    ensures IdsBetween(Run(lines, base, firstId).tasks, firstId, firstId + |lines|)
    decreases |lines|
  {
    if lines != [] {
      var n := |lines| - 1;
      RunIdRange(lines[..n], base, firstId);
      var st := Run(lines[..n], base, firstId);
      var level := Level(lines[n].indentation, base);
      var node := NewNode(firstId + n, lines[n].content);
      assert Run(lines, base, firstId) == Step(st, level, node);
      StepIdRange(st, level, node, firstId, firstId + n);
    }
  }

  /** The fold draws one fresh id per line and never repeats one. */
  lemma {:induction false} RunIds(lines: seq<ParsedLine>, base: Option<nat>, firstId: Id)
    requires base.Some? ==> base.value > 0
    ensures Distinct(Run(lines, base, firstId).tasks)
    decreases |lines|
  {
    if lines != [] {
      var n := |lines| - 1;
      var prefix := lines[..n];
      RunIds(prefix, base, firstId);
      RunIdRange(prefix, base, firstId);
      var st := Run(prefix, base, firstId);
      var level := Level(lines[n].indentation, base);
      var node := NewNode(firstId + n, lines[n].content);
      var r := Step(st, level, node);
      assert Run(lines, base, firstId) == r;
      StepIds(st, level, node);
      if level == 0 || ParentAvailable(st, level) {
        assert node.id !in IdBag(st.tasks);
        DistinctAddFresh(st.tasks, r.tasks, node.id);
      }
    }
  }

  lemma {:induction false} ParseFacts(lines: seq<ParsedLine>, firstId: Id)
    ensures Contents(ParseLinesForest(lines, firstId)) == UnindentedContents(lines)
    ensures TwoLevels(ParseLinesForest(lines, firstId))
    ensures Distinct(ParseLinesForest(lines, firstId))
    ensures IdsBetween(ParseLinesForest(lines, firstId), firstId, firstId + |lines|)
  {
    forall k | 0 <= k < |lines|
      ensures Level(lines[k].indentation, MinPositiveIndentation(lines)) == 0 <==> lines[k].indentation == 0
    {
      LevelZeroIff(lines, k);
    }
    RunContents(lines, MinPositiveIndentation(lines), firstId);
    RunTwoLevels(lines, MinPositiveIndentation(lines), firstId);
    RunIds(lines, MinPositiveIndentation(lines), firstId);
    RunIdRange(lines, MinPositiveIndentation(lines), firstId);
  }

  // ---------------------------------------------------------------------------
  // Which lines are kept, and where they go
  // ---------------------------------------------------------------------------

  /** The outline entry line `k` contributes: a root at depth 0, a child at depth 1. */
  function LineEntry(lines: seq<ParsedLine>, base: Option<nat>, firstId: Id, k: nat): Entry
    requires k < |lines| && (base.Some? ==> base.value > 0)
  {
    Entry(if Level(lines[k].indentation, base) == 0 then 0 else 1, NewNode(firstId + k, lines[k].content))
  }

  /** Line `k` is kept when it is a root or when the walk finds a parent for it. */
  predicate Kept(lines: seq<ParsedLine>, base: Option<nat>, firstId: Id, k: nat)
    requires k < |lines| && (base.Some? ==> base.value > 0)
  {
    var level := Level(lines[k].indentation, base);
    level == 0 || ParentAvailable(Run(lines[..k], base, firstId), level)
  }

  /** The entries of the kept lines, in input order. */
  function KeptOutline(lines: seq<ParsedLine>, base: Option<nat>, firstId: Id): seq<Entry>
    requires base.Some? ==> base.value > 0
    decreases |lines|
  {
    if lines == [] then []
    else
      var n := |lines| - 1;
      KeptOutline(lines[..n], base, firstId) + (if Kept(lines, base, firstId, n) then [LineEntry(lines, base, firstId, n)] else [])
  }

  /**
   * The preorder outline of the parsed forest is the kept lines in input order,
   * roots at depth 0 and every other kept line at depth 1: each attached line is
   * a direct child of the latest root before it, after that root's earlier children.
   */
  lemma {:induction false} RunOutline(lines: seq<ParsedLine>, base: Option<nat>, firstId: Id)
    requires base.Some? ==> base.value > 0
    ensures Outline(Run(lines, base, firstId).tasks, 0) == KeptOutline(lines, base, firstId)
    decreases |lines|
  {
    if lines != [] {
      var n := |lines| - 1;
      var prefix := lines[..n];
      RunOutline(prefix, base, firstId);
      var st := Run(prefix, base, firstId);
      var level := Level(lines[n].indentation, base);
      var node := NewNode(firstId + n, lines[n].content);
      assert prefix == lines[..n];
      if level == 0 {
        AppendRootOutline(st.tasks, node);
      } else if ParentAvailable(st, level) {
        AttachToLastFacts(st.tasks, node);
      }
    }
  }

  /** Whether a line is kept, and its entry, depend only on the lines up to it. */
  lemma {:induction false} KeptPrefix(lines: seq<ParsedLine>, m: nat, base: Option<nat>, firstId: Id, k: nat)
    requires k < m <= |lines| && (base.Some? ==> base.value > 0)
    ensures Kept(lines[..m], base, firstId, k) == Kept(lines, base, firstId, k)
    ensures LineEntry(lines[..m], base, firstId, k) == LineEntry(lines, base, firstId, k)
  {
    assert lines[..m][..k] == lines[..k];
  }

  /** No usable parent: the stack is empty, or it holds only `undefined`. */
  predicate Orphaned(st: ParseState) {
    st.height == 0 || !st.holdsRoot
  }

  /** An indented line finds no parent in an orphaned state, and the state stays orphaned. */
  lemma OrphanStep(st: ParseState, level: nat, node: Task)
    requires Coherent(st) && Orphaned(st) && level > 0
    ensures !ParentAvailable(st, level)
    ensures Orphaned(Step(st, level, node)) && Step(st, level, node).tasks == st.tasks
  {
  }

  lemma {:induction false} OrphansStay(lines: seq<ParsedLine>, i: nat, base: Option<nat>, firstId: Id)
    requires i <= |lines| && (base.Some? ==> base.value > 0)
    requires Orphaned(Run(lines[..i], base, firstId))
    requires forall k :: i <= k < |lines| ==> Level(lines[k].indentation, base) > 0
    ensures Orphaned(Run(lines, base, firstId))
    ensures Run(lines, base, firstId).tasks == Run(lines[..i], base, firstId).tasks
    decreases |lines|
  {
    if |lines| == i {
      assert lines[..i] == lines;
    } else {
      var n := |lines| - 1;
      var prefix := lines[..n];
      assert prefix[..i] == lines[..i];
      assert forall k :: i <= k < n ==> prefix[k] == lines[k];
      OrphansStay(prefix, i, base, firstId);
      OrphanStep(Run(prefix, base, firstId), Level(lines[n].indentation, base), NewNode(firstId + n, lines[n].content));
    }
  }

  lemma OrphanDroppedAt(lines: seq<ParsedLine>, i: nat, base: Option<nat>, firstId: Id, k: nat)
    requires i <= k < |lines| && (base.Some? ==> base.value > 0)
    requires Orphaned(Run(lines[..i], base, firstId))
    requires forall k :: i <= k < |lines| ==> Level(lines[k].indentation, base) > 0
    ensures !Kept(lines, base, firstId, k)
  {
    var prefix := lines[..k];
    assert prefix[..i] == lines[..i];
    assert forall j :: i <= j < k ==> prefix[j] == lines[j];
    OrphansStay(prefix, i, base, firstId);
    OrphanStep(Run(prefix, base, firstId), Level(lines[k].indentation, base), NewNode(firstId + k, lines[k].content));
  }

  /**
   * Once the stack is empty or holds only `undefined` (as at the start, or after
   * a decrease pops it empty), every indented line is dropped until the next
   * unindented line, and the forest does not change.
   */
  lemma OrphansDropped(lines: seq<ParsedLine>, i: nat, base: Option<nat>, firstId: Id)
    requires i <= |lines| && (base.Some? ==> base.value > 0)
    requires Orphaned(Run(lines[..i], base, firstId))
    requires forall k :: i <= k < |lines| ==> Level(lines[k].indentation, base) > 0
    ensures Orphaned(Run(lines, base, firstId))
    ensures Run(lines, base, firstId).tasks == Run(lines[..i], base, firstId).tasks
    ensures forall k :: i <= k < |lines| ==> !Kept(lines, base, firstId, k)
  {
    OrphansStay(lines, i, base, firstId);
    forall k | i <= k < |lines| ensures !Kept(lines, base, firstId, k) {
      OrphanDroppedAt(lines, i, base, firstId, k);
    }
  }

  /** Before the first unindented line, every line is dropped. */
  lemma OrphansBeforeFirstRoot(lines: seq<ParsedLine>, base: Option<nat>, firstId: Id)
    requires base.Some? ==> base.value > 0
    requires forall k :: 0 <= k < |lines| ==> Level(lines[k].indentation, base) > 0
    ensures Run(lines, base, firstId).tasks == []
    ensures KeptOutline(lines, base, firstId) == []
  {
    assert lines[..0] == [];
    OrphansDropped(lines, 0, base, firstId);
    RunOutline(lines, base, firstId);
  }

  /**
   * While every line is a root or one level below, the walk sits on the latest
   * root: the stack holds it once at level 0 and twice at level 1.
   */
  predicate OnLatestRoot(st: ParseState) {
    st.holdsRoot && st.previous <= 1 && st.height == 1 + st.previous
  }

  /** On the latest root, a line at level 0 or 1 is kept and the walk stays there. */
  lemma TwoLevelStep(st: ParseState, level: nat, node: Task)
    requires Coherent(st) && OnLatestRoot(st) && level <= 1
    ensures level == 0 || ParentAvailable(st, level)
    ensures OnLatestRoot(Step(st, level, node))
  {
  }

  lemma {:induction false} TwoLevelState(lines: seq<ParsedLine>, base: Option<nat>, firstId: Id)
    requires base.Some? ==> base.value > 0
    requires lines != [] ==> Level(lines[0].indentation, base) == 0
    requires forall k :: 0 <= k < |lines| ==> Level(lines[k].indentation, base) <= 1
    ensures lines != [] ==> OnLatestRoot(Run(lines, base, firstId))
    decreases |lines|
  {
    if lines != [] {
      var n := |lines| - 1;
      var prefix := lines[..n];
      var level := Level(lines[n].indentation, base);
      var node := NewNode(firstId + n, lines[n].content);
      assert Run(lines, base, firstId) == Step(Run(prefix, base, firstId), level, node);
      if n > 0 {
        assert forall k :: 0 <= k < n ==> prefix[k] == lines[k];
        TwoLevelState(prefix, base, firstId);
        TwoLevelStep(Run(prefix, base, firstId), level, node);
      }
    }
  }

  /** In such an outline line `k` is kept. */
  lemma TwoLevelKeptAt(lines: seq<ParsedLine>, base: Option<nat>, firstId: Id, k: nat)
    requires base.Some? ==> base.value > 0
    requires lines != [] ==> Level(lines[0].indentation, base) == 0
    requires forall k :: 0 <= k < |lines| ==> Level(lines[k].indentation, base) <= 1
    requires k < |lines|
    ensures Kept(lines, base, firstId, k)
  {
    if k > 0 {
      var prefix := lines[..k];
      assert forall j :: 0 <= j < k ==> prefix[j] == lines[j];
      TwoLevelState(prefix, base, firstId);
      TwoLevelStep(Run(prefix, base, firstId), Level(lines[k].indentation, base), NewNode(firstId + k, lines[k].content));
    }
  }

  /**
   * An outline of roots and lines one level below them, starting with a root,
   * loses no line: every line is kept, the indented ones under the latest root.
   */
  lemma TwoLevelOutlineKept(lines: seq<ParsedLine>, base: Option<nat>, firstId: Id)
    requires base.Some? ==> base.value > 0
    requires lines != [] ==> Level(lines[0].indentation, base) == 0
    requires forall k :: 0 <= k < |lines| ==> Level(lines[k].indentation, base) <= 1
    ensures forall k :: 0 <= k < |lines| ==> Kept(lines, base, firstId, k)
  {
    forall k | 0 <= k < |lines| ensures Kept(lines, base, firstId, k) {
      TwoLevelKeptAt(lines, base, firstId, k);
    }
  }

  /** The fold over one more line, from a known state to a known state. */
  lemma RunStep(lines: seq<ParsedLine>, i: nat, base: Option<nat>, firstId: Id, st: ParseState, st': ParseState)
    requires i < |lines| && (base.Some? ==> base.value > 0)
    requires Run(lines[..i], base, firstId) == st
    requires Coherent(st) && Step(st, Level(lines[i].indentation, base), NewNode(firstId + i, lines[i].content)) == st'
    ensures Run(lines[..i + 1], base, firstId) == st'
  {
    RunSnoc(lines, i, base, firstId);
  }

  /** Five lines indented 0, 4, 8, 4 and 4 code units: levels 0, 1, 2, 1, 1 with a four-unit base. */
  predicate DeepShape(lines: seq<ParsedLine>) {
    && |lines| == 5
    && lines[0].indentation == 0 && lines[1].indentation == 4 && lines[2].indentation == 8
    && lines[3].indentation == 4 && lines[4].indentation == 4
  }

  lemma DeepBase(lines: seq<ParsedLine>)
    requires DeepShape(lines)
    ensures MinPositiveIndentation(lines) == Some(4)
  {
    assert MinPositiveIndentation(lines[4..]) == Some(4);
    assert MinPositiveIndentation(lines[3..]) == Some(4);
    assert MinPositiveIndentation(lines[2..]) == Some(4);
    assert MinPositiveIndentation(lines[1..]) == Some(4);
  }

  /** The root after the first `n` lines, `n` from 1 to 4: the first line holding the next `n - 1`. */
  function DeepRoot(lines: seq<ParsedLine>, n: nat): Task
    requires DeepShape(lines) && 1 <= n <= 4
  {
    NewNode(0, lines[0].content).(subtasks :=
      [NewNode(1, lines[1].content), NewNode(2, lines[2].content), NewNode(3, lines[3].content)][..n - 1])
  }

  /** The walk's state after each prefix of the lines. */
  function DeepState(lines: seq<ParsedLine>, n: nat): ParseState
    requires DeepShape(lines) && n <= 5
  {
    match n
    case 0 => Start
    case 1 => ParseState([DeepRoot(lines, 1)], 1, true, 0)
    case 2 => ParseState([DeepRoot(lines, 2)], 2, true, 1)
    case 3 => ParseState([DeepRoot(lines, 3)], 3, true, 2)
    case _ => ParseState([DeepRoot(lines, 4)], 1, true, 1)
  }

  lemma DeepStep(lines: seq<ParsedLine>, k: nat)
    requires DeepShape(lines) && k < 5
    ensures Coherent(DeepState(lines, k))
    ensures Step(DeepState(lines, k), Level(lines[k].indentation, Some(4)), NewNode(k, lines[k].content))
         == DeepState(lines, k + 1)
  {
    var b, c, d := NewNode(1, lines[1].content), NewNode(2, lines[2].content), NewNode(3, lines[3].content);
    assert [b, c, d][..0] == [];
    assert [b, c, d][..1] == [b];
    assert [b, c, d][..2] == [b, c];
    assert [b, c, d][..3] == [b, c, d];
    assert [b] == [] + [b] && [b, c] == [b] + [c] && [b, c, d] == [b, c] + [d];
  }

  /** The walk over the first `n` lines. */
  lemma {:induction false} DeepRun(lines: seq<ParsedLine>, n: nat)
    requires DeepShape(lines) && n <= 5
    ensures Run(lines[..n], Some(4), 0) == DeepState(lines, n)
  {
    if n == 0 {
      assert lines[..0] == [];
    } else {
      DeepRun(lines, n - 1);
      DeepRunStep(lines, n - 1);
    }
  }

  lemma DeepRunStep(lines: seq<ParsedLine>, k: nat)
    requires DeepShape(lines) && k < 5
    requires Run(lines[..k], Some(4), 0) == DeepState(lines, k)
    ensures Run(lines[..k + 1], Some(4), 0) == DeepState(lines, k + 1)
  {
    DeepStep(lines, k);
    RunStep(lines, k, Some(4), 0, DeepState(lines, k), DeepState(lines, k + 1));
  }

  /**
   * Levels 0, 1, 2, 1, 1: the walk attaches the second, third and fourth lines
   * to the root, the third as a sibling of the second rather than its child,
   * and drops the last one, because the same-level line finds a stack of
   * height 1 after the pop.
   */
  lemma DeepOutlineExample(lines: seq<ParsedLine>)
    requires DeepShape(lines)
    ensures ParseLinesForest(lines, 0)
         == [NewNode(0, lines[0].content).(subtasks :=
              [NewNode(1, lines[1].content), NewNode(2, lines[2].content), NewNode(3, lines[3].content)])]
  {
    DeepBase(lines);
    DeepRun(lines, 5);
    assert lines[..5] == lines;
    var b, c, d := NewNode(1, lines[1].content), NewNode(2, lines[2].content), NewNode(3, lines[3].content);
    assert [b, c, d][..3] == [b, c, d];
  }

  /** With no indented line the base is `Infinity`, and every line becomes a root, in order. */
  lemma {:induction false} FlatInputAllRoots(lines: seq<ParsedLine>, firstId: Id)
    requires forall k :: 0 <= k < |lines| ==> lines[k].indentation == 0
    ensures MinPositiveIndentation(lines).None?
    ensures ParseLinesForest(lines, firstId) == seq(|lines|, k requires 0 <= k < |lines| => NewNode(firstId + k, lines[k].content))
  {
    FlatRun(lines, firstId);
  }

  lemma {:induction false} FlatRun(lines: seq<ParsedLine>, firstId: Id)
    ensures Run(lines, None, firstId).tasks == seq(|lines|, k requires 0 <= k < |lines| => NewNode(firstId + k, lines[k].content))
    decreases |lines|
  {
    if lines != [] {
      var n := |lines| - 1;
      FlatRun(lines[..n], firstId);
    }
  }
}
