/** The application shell: the list of projects, the active project, the open scan and the open
    DKP comparison, and which screen those choices put on view. The store's answers are inputs of
    the methods. */
module Navigation {
  import opened Base
  import opened Database
  import opened DashboardView

  /** What the main area shows. */
  datatype Screen =
    | DatasetScreen(dataset: Dataset)
    | DkpScreen(pair: DkpPair)
    | DashboardScreen(project: Project)
    | Placeholder(loading: bool)

  /** The screen for a state: an open scan wins over an open comparison, which wins over the
      active project's dashboard; with none of them a placeholder that says whether projects are
      still loading. */
  function ScreenOf(activeProject: Option<Project>, activeDataset: Option<Dataset>,
                    dkpData: Option<DkpPair>, isLoading: bool): (r: Screen)
    ensures r.DatasetScreen? <==> activeDataset.Some?
    ensures r.DatasetScreen? ==> r.dataset == activeDataset.value
    ensures r.DkpScreen? <==> activeDataset.None? && dkpData.Some?
    ensures r.DkpScreen? ==> r.pair == dkpData.value
    ensures r.DashboardScreen? <==> activeDataset.None? && dkpData.None? && activeProject.Some?
    ensures r.DashboardScreen? ==> r.project == activeProject.value
    ensures r.Placeholder? ==> r.loading == isLoading
  {
    if activeDataset.Some? then DatasetScreen(activeDataset.value)
    else if dkpData.Some? then DkpScreen(dkpData.value)
    else if activeProject.Some? then DashboardScreen(activeProject.value)
    else Placeholder(isLoading)
  }

  /** The loading flag only matters on the placeholder: with anything open, the screen does not
      depend on it. */
  lemma ScreenIgnoresLoading(activeProject: Option<Project>, activeDataset: Option<Dataset>,
                             dkpData: Option<DkpPair>)
    requires activeProject.Some? || activeDataset.Some? || dkpData.Some?
    ensures ScreenOf(activeProject, activeDataset, dkpData, true) == ScreenOf(activeProject, activeDataset, dkpData, false)
  {
  }

  /** `prev.filter(p => p.id !== id)`. */
  function WithoutProject(ps: seq<Project>, id: string): (r: seq<Project>)
    ensures forall p :: p in r <==> p in ps && p.id != id
    ensures forall p :: multiset(r)[p] == if p.id == id then 0 else multiset(ps)[p]
  {
    var r := Filter(ps, (p: Project) => p.id != id);
    forall p
      ensures multiset(r)[p] == if p.id == id then 0 else multiset(ps)[p]
    {
      FilterCount(ps, (p: Project) => p.id != id, p);
    }
    r
  }

  /** Deleting keeps the other projects in their order. */
  lemma WithoutProjectAppend(a: seq<Project>, b: seq<Project>, id: string)
    ensures WithoutProject(a + b, id) == WithoutProject(a, id) + WithoutProject(b, id)
  {
    FilterAppend(a, b, (p: Project) => p.id != id);
  }

  /** The application's state. */
  class App {
    var activeProject: Option<Project>
    var activeDataset: Option<Dataset>
    var dkpData: Option<DkpPair>
    var projects: seq<Project>
    var isLoading: bool

    /** A scan is only ever open inside a project. */
    ghost predicate Valid()
      reads this
    {
      activeDataset.Some? ==> activeProject.Some?
    }

    /** The screen on view. */
    function CurrentScreen(): Screen
      reads this
    {
      ScreenOf(activeProject, activeDataset, dkpData, isLoading)
    }

    /** The initial state: nothing chosen, no projects, loading. */
    constructor()
      ensures Valid()
      ensures activeProject == None && activeDataset == None && dkpData == None
      ensures projects == [] && isLoading
    {
      activeProject := None;
      activeDataset := None;
      dkpData := None;
      projects := [];
      isLoading := true;
    }

    /** The end of `fetchProjects`: an answer with data replaces the list and, when nothing is
        active yet and the list is not empty, activates its first project; loading is over
        whatever the outcome. */
    method FinishFetchProjects(response: Response<seq<Project>>)
      requires Valid()
      modifies this
      ensures Valid()
      ensures !isLoading
      ensures response.Answered? && response.data.Some? ==> projects == response.data.value
      ensures !(response.Answered? && response.data.Some?) ==> projects == old(projects)
      ensures activeProject == if response.Answered? && response.data.Some? && |response.data.value| > 0 && old(activeProject).None?
        then Some(response.data.value[0]) else old(activeProject)
      ensures activeDataset == old(activeDataset) && dkpData == old(dkpData)
    {
      if response.Answered? && response.data.Some? {
        var data := response.data.value;
        projects := data;
        if |data| > 0 && activeProject.None? {
          activeProject := Some(data[0]);
        }
      }
      isLoading := false;
    }

    /** The sidebar's choice of a project: it becomes active and the open scan and comparison
        close. */
    method SelectProject(p: Project)
      modifies this
      ensures Valid()
      ensures activeProject == Some(p) && activeDataset == None && dkpData == None
      ensures projects == old(projects) && isLoading == old(isLoading)
      ensures CurrentScreen() == DashboardScreen(p)
    {
      activeProject := Some(p);
      activeDataset := None;
      dkpData := None;
    }

    /** `handleCreateProject`: a project the store returns is appended and made active with the
        plain setter, so an open scan or comparison stays open. */
    method CreateProject(response: Response<Project>)
      requires Valid()
      modifies this
      ensures Valid()
      ensures response.Answered? && response.data.Some? ==>
        (projects == old(projects) + [response.data.value] && activeProject == response.data)
      ensures !(response.Answered? && response.data.Some?) ==>
        (projects == old(projects) && activeProject == old(activeProject))
      ensures activeDataset == old(activeDataset) && dkpData == old(dkpData)
      ensures isLoading == old(isLoading)
    {
      if response.Answered? && response.data.Some? {
        projects := projects + [response.data.value];
        activeProject := response.data;
      }
    }

    /** `handleDeleteProject`: a confirmed delete drops every project with that id and, only when
        the deleted project was the active one, clears the active project and the open scan; the
        open comparison is left as it is. */
    method DeleteProject(id: string, response: Response<()>)
      requires Valid()
      modifies this
      ensures Valid()
      ensures response.Answered? ==> projects == WithoutProject(old(projects), id)
      ensures response.Failed? ==> projects == old(projects)
      ensures response.Answered? && old(activeProject).Some? && old(activeProject).value.id == id ==>
        (activeProject == None && activeDataset == None)
      ensures !(response.Answered? && old(activeProject).Some? && old(activeProject).value.id == id) ==>
        (activeProject == old(activeProject) && activeDataset == old(activeDataset))
      ensures dkpData == old(dkpData) && isLoading == old(isLoading)
    {
      if response.Answered? {
        projects := WithoutProject(projects, id);
        if activeProject.Some? && activeProject.value.id == id {
          activeProject := None;
          activeDataset := None;
        }
      }
    }

    /** The dashboard's `onSelectDataset`; the dashboard, and so the callback, is only on view on
        the dashboard screen. */
    method SelectDataset(d: Dataset)
      requires Valid() && CurrentScreen().DashboardScreen?
      modifies this
      ensures Valid()
      ensures activeDataset == Some(d)
      ensures activeProject == old(activeProject) && dkpData == old(dkpData)
      ensures projects == old(projects) && isLoading == old(isLoading)
      ensures CurrentScreen() == DatasetScreen(d)
    {
      activeDataset := Some(d);
    }

    /** The dashboard's `onLaunchDKP`, on the dashboard screen only. */
    method LaunchDkp(pair: DkpPair)
      requires Valid() && CurrentScreen().DashboardScreen?
      modifies this
      ensures Valid()
      ensures dkpData == Some(pair)
      ensures activeProject == old(activeProject) && activeDataset == old(activeDataset)
      ensures projects == old(projects) && isLoading == old(isLoading)
      ensures CurrentScreen() == DkpScreen(pair)
    {
      dkpData := Some(pair);
    }

    /** "Back" from a scan closes only the scan. */
    method BackFromDataset()
      requires Valid()
      modifies this
      ensures Valid()
      ensures activeDataset == None
      ensures activeProject == old(activeProject) && dkpData == old(dkpData)
      ensures projects == old(projects) && isLoading == old(isLoading)
    {
      activeDataset := None;
    }

    /** "Back" from the comparison closes only the comparison. */
    method BackFromDkp()
      requires Valid()
      modifies this
      ensures Valid()
      ensures dkpData == None
      ensures activeProject == old(activeProject) && activeDataset == old(activeDataset)
      ensures projects == old(projects) && isLoading == old(isLoading)
    {
      dkpData := None;
    }
  }

  /** Going into a scan and back returns to the dashboard it was opened from. */
  method DatasetRoundTrip(app: App, d: Dataset)
    requires app.Valid() && app.CurrentScreen().DashboardScreen?
    modifies app
    ensures app.CurrentScreen() == old(app.CurrentScreen())
  {
    app.SelectDataset(d);
    app.BackFromDataset();
  }

  /** Launching the comparison and going back returns to the dashboard it was launched from. */
  method DkpRoundTrip(app: App, pair: DkpPair)
    requires app.Valid() && app.CurrentScreen().DashboardScreen?
    modifies app
    ensures app.CurrentScreen() == old(app.CurrentScreen())
  {
    app.LaunchDkp(pair);
    app.BackFromDkp();
  }

  /** Deleting the active project from the sidebar while its comparison is open leaves the
      comparison on view with no active project behind it. */
  method ComparisonOutlivesDeletedProject(app: App, pair: DkpPair)
    requires app.Valid() && app.CurrentScreen().DashboardScreen?
    modifies app
    ensures app.activeProject == None
    ensures app.CurrentScreen() == DkpScreen(pair)
  {
    var id := app.activeProject.value.id;
    app.LaunchDkp(pair);
    app.DeleteProject(id, Answered(Some(())));
  }
}
