/**
 * The project colour dot of src/components/ProjectColumn.tsx. Eight named
 * projects and `Uncategorized` have fixed colours; any other project draws a
 * colour from the eight-colour palette that no earlier call took, chosen by a
 * hash of its name, and the module-wide set of used colours is emptied when
 * the palette runs out.
 */
module ProjectColumn {
  import opened Types

  /** The colours of `projectColors`, in declaration order. */
  datatype Color = Gray | Sky | Violet | Emerald | Amber | Indigo | Rose | Teal | Lime

  /** The CSS class each colour stands for. */
  function ClassName(c: Color): string {
    match c
    case Gray => "bg-gray-400"
    case Sky => "bg-sky-500"
    case Violet => "bg-violet-500"
    case Emerald => "bg-emerald-500"
    case Amber => "bg-amber-500"
    case Indigo => "bg-indigo-500"
    case Rose => "bg-rose-500"
    case Teal => "bg-teal-500"
    case Lime => "bg-lime-500"
  }

  /** `projectColors`. */
  const ProjectColors: map<string, Color> := map[
    UNCATEGORIZED := Gray, "Personal" := Sky, "Work" := Violet, "Health" := Emerald,
    "Shopping" := Amber, "Learning" := Indigo, "Travel" := Rose, "Home" := Teal,
    "Finance" := Lime]

  /** `Object.values(projectColors).slice(1)`: every colour but the grey of `Uncategorized`. */
  const Palette: seq<Color> := [Sky, Violet, Emerald, Amber, Indigo, Rose, Teal, Lime]

  predicate InPalette(used: set<Color>) {
    forall c :: c in used ==> c in Palette
  }

  /** The palette colours not in `used`, in palette order. */
  function Unused(colors: seq<Color>, used: set<Color>): (r: seq<Color>)
    ensures |r| <= |colors|
  {
    if colors == [] then []
    else if colors[0] !in used then [colors[0]] + Unused(colors[1..], used)
    else Unused(colors[1..], used)
  }

  /** `availableColors`. */
  function Available(used: set<Color>): seq<Color> {
    Unused(Palette, used)
  }

  /** `project.split('').reduce((acc, char) => char.charCodeAt(0) + acc, 0)`. */
  function CharCodeSum(s: string): nat {
    if s == [] then 0 else CharCodeSum(s[..|s| - 1]) + s[|s| - 1] as nat
  }

  /**
   * One call of `getProjectColor(project)` with `used` as the set of used
   * colours: the colour returned and the set afterwards. A retry after the
   * set is emptied finds the whole palette available, so it is the choice
   * from the empty set.
   */
  function Choose(used: set<Color>, project: string): (Color, set<Color>) {
    if project == "" || project == UNCATEGORIZED then (Gray, used)
    else if project in ProjectColors then (ProjectColors[project], used)
    else Pick(used, CharCodeSum(project))
  }

  /** The choice for a project without a fixed colour, from its hash. */
  function Pick(used: set<Color>, hash: nat): (Color, set<Color>) {
    var start := if Available(used) == [] then {} else used;
    var avail := Available(start);
    if avail == [] then (Gray, start)
    else
      var c := avail[hash % |avail|];
      (c, start + {c})
  }

  /**
   * `handleDrop` of a project column: the dragged id, absent when the drag
   * carried none (the empty string of `getData`), is moved to the column's
   * project, whatever the view.
   */
  function HandleDrop(taskId: Option<Id>, project: string): (r: Option<(Id, string)>)
    ensures r.Some? <==> taskId.Some?
    ensures r.Some? ==> r.value.0 == taskId.value && r.value.1 == project
  {
    if taskId.Some? then Some((taskId.value, project)) else None
  }

  /** The module-level `usedColors` set and the function that reads and writes it. */
  class ColorAllocator {
    var usedColors: set<Color>

    predicate Valid()
      reads this
    {
      InPalette(usedColors)
    }

    /** The set is created empty when the module loads. */
    constructor ()
      ensures Valid() && usedColors == {}
    {
      usedColors := {};
    }

    /** `getProjectColor(project)`. */
    method GetProjectColor(project: string) returns (color: Color)
      requires Valid()
      modifies this
      ensures Valid()
      ensures (color, usedColors) == Choose(old(usedColors), project)
      decreases if Available(usedColors) == [] then 1 else 0
    {
      if project == "" || project == UNCATEGORIZED {
        return Gray;
      }
      if project in ProjectColors {
        return ProjectColors[project];
      }
      var available := Available(usedColors);
      if |available| == 0 {
        usedColors := {};
        AllAvailable();
        color := GetProjectColor(project);
        return;
      }
      var hash := CharCodeSum(project);
      color := available[hash % |available|];
      usedColors := usedColors + {color};
      UnusedMembers(Palette, old(usedColors), color);
    }
  }

  // ---------------------------------------------------------------------------
  // Lemmas
  // ---------------------------------------------------------------------------

  lemma {:induction false} UnusedMembers(colors: seq<Color>, used: set<Color>, c: Color)
    ensures c in Unused(colors, used) <==> c in colors && c !in used
  {
    if colors != [] {
      UnusedMembers(colors[1..], used, c);
      assert colors == [colors[0]] + colors[1..];
    }
  }

  lemma {:induction false} UnusedNone(colors: seq<Color>)
    ensures Unused(colors, {}) == colors
  {
    if colors != [] {
      UnusedNone(colors[1..]);
    }
  }

  /** Nothing is used in the empty set, so the whole palette is available. */
  lemma AllAvailable()
    ensures Available({}) == Palette
  {
    UnusedNone(Palette);
  }

  /** The palette runs out exactly when every one of its colours is used. */
  lemma AvailableEmpty(used: set<Color>)
    ensures Available(used) == [] <==> forall c :: c in Palette ==> c in used
  {
    var avail := Available(used);
    forall c ensures c in avail <==> c in Palette && c !in used {
      UnusedMembers(Palette, used, c);
    }
    if avail != [] {
      assert avail[0] in avail;
    }
  }

  lemma {:induction false} CharCodeSumAppend(a: string, b: string)
    ensures CharCodeSum(a + b) == CharCodeSum(a) + CharCodeSum(b)
    decreases |b|
  {
    if b == [] {
      assert a + b == a;
    } else {
      var n := |b| - 1;
      assert (a + b)[..|a + b| - 1] == a + b[..n];
      CharCodeSumAppend(a, b[..n]);
    }
  }

  /**
   * Blank names and `Uncategorized` are grey, the other named projects get
   * their fixed colour, and neither case touches the used set.
   */
  lemma ChooseFixed(used: set<Color>, project: string)
    requires project == "" || project in ProjectColors
    ensures Choose(used, project).1 == used
    ensures Choose(used, project).0 == (if project == "" then Gray else ProjectColors[project])
  {
  }

  /** Grey is the colour of blank names and `Uncategorized` only. */
  lemma GrayOnlyUncategorized(used: set<Color>, project: string)
    requires InPalette(used)
    ensures Choose(used, project).0 == Gray <==> project == "" || project == UNCATEGORIZED
  {
    if project != "" && project != UNCATEGORIZED && project !in ProjectColors {
      ChooseNew(used, project);
    }
  }

  /**
   * A new project receives a palette colour that was not used, which is then
   * marked used; when all eight were used the set restarts with it alone. The
   * colour is the available one at the name's hash modulo the number available.
   */
  lemma ChooseNew(used: set<Color>, project: string)
    requires InPalette(used)
    requires project != "" && project !in ProjectColors
    ensures var (c, after) := Choose(used, project);
      var start := if Available(used) == [] then {} else used;
      && c in Palette && c !in start
      && after == start + {c}
      && c == Available(start)[CharCodeSum(project) % |Available(start)|]
      && InPalette(after)
  {
    assert Choose(used, project) == Pick(used, CharCodeSum(project));
    PickNew(used, CharCodeSum(project));
  }

  lemma PickNew(used: set<Color>, hash: nat)
    requires InPalette(used)
    ensures var (c, after) := Pick(used, hash);
      var start := if Available(used) == [] then {} else used;
      && c in Palette && c !in start
      && after == start + {c}
      && c == Available(start)[hash % |Available(start)|]
      && InPalette(after)
  {
    var start := if Available(used) == [] then {} else used;
    AllAvailable();
    var avail := Available(start);
    assert avail != [];
    var c := avail[hash % |avail|];
    UnusedMembers(Palette, start, c);
  }

  lemma {:induction false} SetWithin(used: set<Color>, colors: seq<Color>)
    requires forall c :: c in used ==> c in colors
    ensures |used| <= |colors|
  {
    if colors != [] {
      var rest := used - {colors[0]};
      assert forall c :: c in rest ==> c in colors[1..] by {
        forall c | c in rest ensures c in colors[1..] {
          assert colors == [colors[0]] + colors[1..];
        }
      }
      SetWithin(rest, colors[1..]);
    }
  }

  /** The used set never holds more than the eight palette colours. */
  lemma UsedBounded(used: set<Color>)
    requires InPalette(used)
    ensures |used| <= 8
  {
    SetWithin(used, Palette);
  }

  // ---------------------------------------------------------------------------
  // The colour of a project is not kept between calls
  // ---------------------------------------------------------------------------

  /**
   * `getProjectColor` runs on every render of a column. For the project "A"
   * (hash 65) the first render takes `Violet`, index 65 mod 8 of the full
   * palette, and marks it used; the next render sees seven colours and takes
   * `Amber`, index 65 mod 7, so the dot changes colour between renders.
   */
  lemma ColorDrift()
    ensures Choose({}, "A").0 == Violet
    ensures Choose(Choose({}, "A").1, "A").0 == Amber
  {
    assert CharCodeSum("A") == 65 by {
      assert "A"[..0] == "";
    }
    NewName();
    assert Choose({}, "A") == Pick({}, 65);
    PickDrift();
  }

  lemma NewName()
    ensures "A" != "" && "A" != UNCATEGORIZED && "A" !in ProjectColors
  {
    assert |UNCATEGORIZED| == 13;
    assert forall k | k in ProjectColors :: |k| >= 4;
  }

  lemma PickDrift()
    ensures Pick({}, 65) == (Violet, {Violet})
    ensures Pick({Violet}, 65).0 == Amber
  {
    AllAvailable();
    assert Palette[65 % 8] == Violet;
    assert {} + {Violet} == {Violet};
    DriftPalette();
  }

  /** The palette without `Violet`. */
  lemma DriftPalette()
    ensures Available({Violet}) == [Sky, Emerald, Amber, Indigo, Rose, Teal, Lime]
  {
    var u := {Violet};
    var p := Palette;
    assert p[1..][1..] == p[2..];
    assert Unused(p, u) == [Sky] + Unused(p[1..], u);
    assert Unused(p[1..], u) == Unused(p[2..], u);
    UnusedNone(p[2..]);
    UnusedDisjoint(p[2..], u);
  }

  lemma {:induction false} UnusedDisjoint(colors: seq<Color>, used: set<Color>)
    requires forall i :: 0 <= i < |colors| ==> colors[i] !in used
    ensures Unused(colors, used) == colors
  {
    if colors != [] {
      assert forall i :: 0 <= i < |colors| - 1 ==> colors[1..][i] == colors[i + 1];
      UnusedDisjoint(colors[1..], used);
    }
  }

  /**
   * The evidently intended behaviour: a project keeps the colour of its first
   * call. `remembered` holds the colour given to each new project.
   */
  function ChooseRemembered(remembered: map<string, Color>, used: set<Color>, project: string)
    : (r: (Color, map<string, Color>, set<Color>))
    ensures project in remembered ==> r == (remembered[project], remembered, used)
    ensures project !in remembered ==> (r.0, r.2) == Choose(used, project) && r.1 == remembered[project := r.0]
  {
    if project in remembered then (remembered[project], remembered, used)
    else
      var (c, after) := Choose(used, project);
      (c, remembered[project := c], after)
  }

  /** With the colour remembered, every later call for the same project returns the same colour and changes nothing. */
  lemma RememberedStable(remembered: map<string, Color>, used: set<Color>, project: string)
    ensures var (c, a1, u1) := ChooseRemembered(remembered, used, project);
      ChooseRemembered(a1, u1, project) == (c, a1, u1)
  {
  }
}
