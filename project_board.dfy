/**
 * The project view of src/components/ProjectBoard.tsx: one column per listed
 * project, in the order of the project list, each holding the roots that
 * belong to it sorted by priority. The `Uncategorized` column also collects
 * the roots without a project and those whose project is the empty string
 * (`!task.project` is true for both).
 */
module ProjectBoard {
  import opened Types
  import opened Forest
  import opened PrioritySort
  import App
  import ProjectColumn

  /** The filter of `getProjectTasks(project)`. */
  predicate InColumn(project: string, t: Task) {
    if project == UNCATEGORIZED then
      t.project == None || t.project == Some(UNCATEGORIZED) || t.project == Some("")
    else
      t.project == Some(project)
  }

  /** The roots that the column of `project` shows, in input order. */
  function InProject(tasks: seq<Task>, project: string): (r: seq<Task>)
    ensures |r| <= |tasks|
  {
    if tasks == [] then []
    else if InColumn(project, tasks[0]) then [tasks[0]] + InProject(tasks[1..], project)
    else InProject(tasks[1..], project)
  }

  /** `getProjectTasks(project)`. */
  function ProjectTasks(tasks: seq<Task>, project: string): seq<Task> {
    SortByPriority(InProject(tasks, project))
  }

  datatype ProjectColumnView = ProjectColumnView(project: string, tasks: seq<Task>)

  /** `projects.map(project => <ProjectColumn project tasks={getProjectTasks(project)} />)`. */
  function Board(tasks: seq<Task>, projects: seq<string>): seq<ProjectColumnView> {
    seq(|projects|, i requires 0 <= i < |projects| => ProjectColumnView(projects[i], ProjectTasks(tasks, projects[i])))
  }

  lemma {:induction false} InProjectMembers(tasks: seq<Task>, project: string, t: Task)
    ensures t in InProject(tasks, project) <==> t in tasks && InColumn(project, t)
  {
    if tasks != [] {
      InProjectMembers(tasks[1..], project, t);
      assert tasks == [tasks[0]] + tasks[1..];
    }
  }

  /**
   * A project column holds exactly the roots of that project, each as often as
   * it occurs among the roots, High first, then Medium, then Low, ties in
   * input order.
   */
  lemma ProjectColumnContents(tasks: seq<Task>, project: string)
    ensures forall t :: t in ProjectTasks(tasks, project) <==> t in tasks && InColumn(project, t)
    ensures multiset(ProjectTasks(tasks, project)) == multiset(InProject(tasks, project))
    ensures SortedByPriority(ProjectTasks(tasks, project))
    ensures ProjectTasks(tasks, project)
         == Bucket(InProject(tasks, project), 0) + Bucket(InProject(tasks, project), 1) + Bucket(InProject(tasks, project), 2)
  {
    var f := InProject(tasks, project);
    SortPermutation(f);
    SortSorted(f);
    SortIsBuckets(f);
    forall t ensures t in ProjectTasks(tasks, project) <==> t in tasks && InColumn(project, t) {
      InProjectMembers(tasks, project, t);
      assert t in ProjectTasks(tasks, project) <==> t in multiset(ProjectTasks(tasks, project));
    }
  }

  /** The board has one column per listed project, in list order, each showing that project's roots. */
  lemma BoardColumns(tasks: seq<Task>, projects: seq<string>, i: nat)
    requires i < |projects|
    ensures |Board(tasks, projects)| == |projects|
    ensures Board(tasks, projects)[i].project == projects[i]
    ensures forall t :: t in Board(tasks, projects)[i].tasks <==> t in tasks && InColumn(projects[i], t)
  {
    ProjectColumnContents(tasks, projects[i]);
  }

  /**
   * Two different columns share a root only when they are the `Uncategorized`
   * column and a column named by the empty string.
   */
  lemma ColumnsOverlap(p: string, q: string, t: Task)
    requires p != q && InColumn(p, t) && InColumn(q, t)
    ensures (p == UNCATEGORIZED && q == "") || (p == "" && q == UNCATEGORIZED)
  {
    assert |UNCATEGORIZED| == 13;
  }

  /** With no project named by the empty string, each root is in at most one column of a list without repeats. */
  lemma AtMostOneColumn(projects: seq<string>, t: Task, i: nat, j: nat)
    requires App.NoDuplicates(projects) && "" !in projects
    requires i < j < |projects|
    ensures !(InColumn(projects[i], t) && InColumn(projects[j], t))
  {
    if InColumn(projects[i], t) && InColumn(projects[j], t) {
      ColumnsOverlap(projects[i], projects[j], t);
    }
  }

  /**
   * With `Uncategorized` listed, a root is shown in some column exactly when it
   * has no project, its project is the empty string, or its project is listed:
   * a root whose project is not listed is shown nowhere.
   */
  lemma ShownSomewhere(projects: seq<string>, t: Task)
    requires UNCATEGORIZED in projects
    ensures (exists i :: 0 <= i < |projects| && InColumn(projects[i], t))
        <==> t.project == None || t.project == Some("") || t.project.value in projects
  {
    var u :| 0 <= u < |projects| && projects[u] == UNCATEGORIZED;
    if t.project == None || t.project == Some("") {
      assert InColumn(projects[u], t);
    } else if t.project.value in projects {
      var i :| 0 <= i < |projects| && projects[i] == t.project.value;
      assert InColumn(projects[i], t);
    }
  }

  /**
   * Dropping a root on a project's column requests a change to that project,
   * and `handleProjectChange` then moves the root into that column.
   */
  lemma ProjectChangeMovesRoot(tasks: seq<Task>, k: nat, project: string)
    requires k < |tasks|
    ensures ProjectColumn.HandleDrop(Some(tasks[k].id), project) == Some((tasks[k].id, project))
    ensures var moved := App.UpdateProject(tasks, tasks[k].id, project);
      moved[k] == tasks[k].(project := Some(project)) && moved[k] in ProjectTasks(moved, project)
  {
    var moved := App.UpdateProject(tasks, tasks[k].id, project);
    App.RebuildRoot(tasks, tasks[k].id, App.SetProject(project), k);
    ProjectColumnContents(moved, project);
  }
}
