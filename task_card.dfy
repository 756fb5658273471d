/**
 * The card of one task, src/components/TaskCard.tsx: the checkbox and priority
 * badge that report edits to the application, the inline content editor and
 * the action-item checkboxes that write into the task object directly, and
 * the project style of the card.
 */
module TaskCard {
  import opened Types
  import opened JsString
  import PrioritySort
  import App

  // ---------------------------------------------------------------------------
  // Checkbox and priority badge
  // ---------------------------------------------------------------------------

  /** `handleCheckboxClick`: the status reported for the task. */
  function CheckboxStatus(s: Status): (r: Status)
    ensures r == Done <==> s != Done
    ensures r != InProgress
  {
    if s == Done then Todo else Done
  }

  /** A second click undoes the first, except that an in-progress task comes back as to-do. */
  lemma CheckboxTwice(s: Status)
    ensures CheckboxStatus(CheckboxStatus(s)) == (if s == InProgress then Todo else s)
  {
  }

  /** The order of the `priorities` array of `handlePriorityClick`. */
  const PriorityCycle: seq<Priority> := [Low, Medium, High]

  /** `Array.prototype.indexOf`: the first position of `p`, or -1. */
  function IndexOf(s: seq<Priority>, p: Priority): (i: int)
    ensures -1 <= i < |s|
    ensures i >= 0 ==> s[i] == p && p !in s[..i]
    ensures i == -1 <==> p !in s
  {
    if s == [] then -1
    else if s[0] == p then 0
    else
      var j := IndexOf(s[1..], p);
      if j == -1 then -1
      else
        assert s[..j + 1] == [s[0]] + s[1..][..j];
        j + 1
  }

  /** The priority after a click on the badge showing `p`. */
  function NextPriority(p: Priority): Priority {
    PriorityCycle[(IndexOf(PriorityCycle, p) + 1) % |PriorityCycle|]
  }

  /** Clicking cycles Low, Medium, High and back to Low. */
  lemma PriorityCycles()
    ensures NextPriority(Low) == Medium && NextPriority(Medium) == High && NextPriority(High) == Low
  {
    assert IndexOf(PriorityCycle, Low) == 0;
    assert IndexOf(PriorityCycle, Medium) == 1;
    assert IndexOf(PriorityCycle, High) == 2;
  }

  /** Every click changes the priority, and three clicks bring it back. */
  lemma ThreeClicks(p: Priority)
    ensures NextPriority(p) != p
    ensures NextPriority(NextPriority(NextPriority(p))) == p
  {
    PriorityCycles();
  }

  /** `handlePriorityClick`: the id and the priority reported, a missing priority counting as `Low`. */
  function PriorityClick(t: Task): (r: (Id, Priority))
    ensures r.0 == t.id
    ensures t.priority.None? ==> r.1 == Medium
  {
    PriorityCycles();
    (t.id, NextPriority(PrioritySort.EffectivePriority(t)))
  }

  /** `handleCheckboxClick`: the id and the status reported. */
  function CheckboxClick(t: Task): (r: (Id, Status))
    ensures r.0 == t.id && r.1 == CheckboxStatus(t.status)
  {
    (t.id, CheckboxStatus(t.status))
  }

  /** A click on a root's badge, applied by `handlePriorityChange`, moves that root one step along the cycle. */
  lemma PriorityClickOnRoot(tasks: seq<Task>, k: nat)
    requires k < |tasks|
    ensures var (id, p) := PriorityClick(tasks[k]);
      App.UpdatePriority(tasks, id, p)[k].priority == Some(NextPriority(PrioritySort.EffectivePriority(tasks[k])))
  {
    App.RebuildRoot(tasks, tasks[k].id, App.SetPriority(NextPriority(PrioritySort.EffectivePriority(tasks[k]))), k);
  }

  // ---------------------------------------------------------------------------
  // Action items
  // ---------------------------------------------------------------------------

  /** The `map` of `toggleActionItem(actionItemId)`. */
  function ToggleItems(items: seq<ActionItem>, id: Id): seq<ActionItem> {
    seq(|items|, i requires 0 <= i < |items| =>
      if items[i].id == id then items[i].(isCompleted := !items[i].isCompleted) else items[i])
  }

  /**
   * Toggling keeps the length, the order, every id and every content, and
   * flips the completion of exactly the items with that id.
   */
  lemma ToggleItemsFacts(items: seq<ActionItem>, id: Id)
    ensures |ToggleItems(items, id)| == |items|
    ensures forall i :: 0 <= i < |items| ==>
      var r := ToggleItems(items, id)[i];
      && r.id == items[i].id && r.content == items[i].content
      && (r.isCompleted != items[i].isCompleted <==> items[i].id == id)
  {
  }

  /** Toggling the same id twice restores the items. */
  lemma ToggleItemsTwice(items: seq<ActionItem>, id: Id)
    ensures ToggleItems(ToggleItems(items, id), id) == items
  {
    var once := ToggleItems(items, id);
    var twice := ToggleItems(once, id);
    assert forall i :: 0 <= i < |items| ==> twice[i] == items[i];
  }

  /** An id no item carries changes nothing. */
  lemma ToggleItemsAbsent(items: seq<ActionItem>, id: Id)
    requires forall i :: 0 <= i < |items| ==> items[i].id != id
    ensures ToggleItems(items, id) == items
  {
    assert forall i :: 0 <= i < |items| ==> ToggleItems(items, id)[i] == items[i];
  }

  /** `toggleActionItem` on a task: no action items means no change. */
  function ToggleActionItem(t: Task, id: Id): (r: Task)
    ensures r == t.(actionItems := r.actionItems)
    ensures t.actionItems.None? ==> r == t
    ensures t.actionItems.Some? ==> r.actionItems.Some? && ToggleItems(r.actionItems.value, id) == t.actionItems.value
  {
    if t.actionItems.Some? then
      ToggleItemsTwice(t.actionItems.value, id);
      t.(actionItems := Some(ToggleItems(t.actionItems.value, id)))
    else t
  }

  // ---------------------------------------------------------------------------
  // Project style
  // ---------------------------------------------------------------------------

  /** The four class strings of a `projectColors` entry. */
  datatype Style = Style(border: string, background: string, shadow: string, hover: string)

  /** `projectColors` of the card. */
  const ProjectStyles: map<string, Style> := map[
    UNCATEGORIZED := Style("border-gray-200", "bg-white", "shadow-sm", "hover:shadow-md hover:border-gray-300"),
    "Personal" := Style("border-sky-100", "bg-sky-50/30", "shadow-sky-100/50", "hover:shadow-sky-100/50 hover:border-sky-200"),
    "Work" := Style("border-violet-100", "bg-violet-50/30", "shadow-violet-100/50", "hover:shadow-violet-100/50 hover:border-violet-200"),
    "Health" := Style("border-emerald-100", "bg-emerald-50/30", "shadow-emerald-100/50", "hover:shadow-emerald-100/50 hover:border-emerald-200"),
    "Shopping" := Style("border-amber-100", "bg-amber-50/30", "shadow-amber-100/50", "hover:shadow-amber-100/50 hover:border-amber-200"),
    "Learning" := Style("border-indigo-100", "bg-indigo-50/30", "shadow-indigo-100/50", "hover:shadow-indigo-100/50 hover:border-indigo-200"),
    "Travel" := Style("border-rose-100", "bg-rose-50/30", "shadow-rose-100/50", "hover:shadow-rose-100/50 hover:border-rose-200"),
    "Home" := Style("border-teal-100", "bg-teal-50/30", "shadow-teal-100/50", "hover:shadow-teal-100/50 hover:border-teal-200"),
    "Finance" := Style("border-lime-100", "bg-lime-50/30", "shadow-lime-100/50", "hover:shadow-lime-100/50 hover:border-lime-200")]

  /** A string is falsy exactly when it is missing or empty. */
  predicate Truthy(s: Option<string>) {
    s.Some? && s.value != ""
  }

  /** `parentProject || task.project || 'Uncategorized'`. */
  function StyleKey(parentProject: Option<string>, project: Option<string>): (k: string)
    ensures k != ""
    ensures Truthy(parentProject) ==> k == parentProject.value
    ensures !Truthy(parentProject) && Truthy(project) ==> k == project.value
    ensures !Truthy(parentProject) && !Truthy(project) ==> k == UNCATEGORIZED
  {
    if Truthy(parentProject) then parentProject.value
    else if Truthy(project) then project.value
    else UNCATEGORIZED
  }

  /** `getProjectStyle`: unknown names fall back to the `Uncategorized` style. */
  function ProjectStyle(name: string): Style {
    if name in ProjectStyles then ProjectStyles[name] else ProjectStyles[UNCATEGORIZED]
  }

  /** Every card is drawn with one of the nine table styles, an unknown name with that of `Uncategorized`. */
  lemma StyleFromTable(name: string)
    ensures ProjectStyle(name) in ProjectStyles.Values
    ensures name !in ProjectStyles ==> ProjectStyle(name) == ProjectStyle(UNCATEGORIZED)
  {
    assert UNCATEGORIZED in ProjectStyles;
  }

  /** A card with neither a parent project nor a project of its own, empty strings counting as none, has the `Uncategorized` style. */
  lemma UnsetProjectStyle(parentProject: Option<string>, t: Task)
    requires parentProject.None? || parentProject == Some("")
    requires t.project.None? || t.project == Some("")
    ensures CardStyle(parentProject, t) == ProjectStyle(UNCATEGORIZED)
  {
  }

  /** The style of a card with the given parent project. */
  function CardStyle(parentProject: Option<string>, t: Task): Style {
    ProjectStyle(StyleKey(parentProject, t.project))
  }

  /**
   * A subtask card is passed its parent's project, so a child of a root drawn
   * with a non-empty project takes the root's style whatever its own project.
   */
  lemma ChildTakesParentStyle(root: Task, i: nat)
    requires i < |root.subtasks| && Truthy(root.project)
    ensures CardStyle(root.project, root.subtasks[i]) == ProjectStyle(root.project.value)
  {
  }

  // ---------------------------------------------------------------------------
  // The card's own state
  // ---------------------------------------------------------------------------

  /**
   * One mounted card: the task object it was given, which it edits in place,
   * and its `isEditing` and `editedContent` state.
   */
  class Card {
    var task: Task
    var isEditing: bool
    var editedContent: string

    /** `useState(false)` and `useState(task.content)`. */
    constructor (t: Task)
      ensures task == t && !isEditing && editedContent == t.content
    {
      task := t;
      isEditing := false;
      editedContent := t.content;
    }

    /** `handleDoubleClick`. */
    method HandleDoubleClick()
      modifies this
      ensures isEditing && task == old(task) && editedContent == old(editedContent)
    {
      isEditing := true;
    }

    /** The input's `onChange`. */
    method Type(text: string)
      modifies this
      ensures editedContent == text && task == old(task) && isEditing == old(isEditing)
    {
      editedContent := text;
    }

    /**
     * `handleBlur`: editing ends and the content becomes the trimmed edited
     * text, the empty string included; it is written only when it differs,
     * which leaves the same task either way.
     */
    method HandleBlur()
      modifies this
      ensures !isEditing && editedContent == old(editedContent)
      ensures task == old(task).(content := Trim(old(editedContent)))
    {
      isEditing := false;
      var trimmed := Trim(editedContent);
      if trimmed != task.content {
        task := task.(content := trimmed);
      }
    }

    /** `handleKeyDown`: Enter commits like a blur, Escape discards the edit, other keys do nothing. */
    method HandleKeyDown(key: string)
      modifies this
      ensures !(key == "Enter" || key == "Escape") ==> task == old(task) && isEditing == old(isEditing) && editedContent == old(editedContent)
      ensures key == "Enter" ==> !isEditing && task == old(task).(content := Trim(old(editedContent))) && editedContent == old(editedContent)
      ensures key == "Escape" ==> !isEditing && task == old(task) && editedContent == task.content
    {
      if key == "Enter" {
        HandleBlur();
      }
      if key == "Escape" {
        isEditing := false;
        editedContent := task.content;
      }
    }

    /** `toggleActionItem(actionItemId)`, written into the task object. */
    method ToggleItem(actionItemId: Id)
      modifies this
      ensures task == ToggleActionItem(old(task), actionItemId)
      ensures isEditing == old(isEditing) && editedContent == old(editedContent)
    {
      if task.actionItems.Some? {
        task := task.(actionItems := Some(ToggleItems(task.actionItems.value, actionItemId)));
      }
    }
  }

  /** Committing an edit leaves content with no white space at either end, so a second commit of it changes nothing. */
  lemma CommitIdempotent(s: string)
    ensures Trim(Trim(s)) == Trim(s)
  {
    var r := Trim(s);
    TrimOfPadded("", r, "");
    assert "" + r + "" == r;
  }
}
