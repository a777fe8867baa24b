/** A project's dashboard: the list of its scans, newest first, the loading flag, the upload
    dialog's visibility, deleting a scan, and the pair of scans the DKP tracker is launched with.
    The store's answers are inputs of the methods. */
module DashboardView {
  import opened Base
  import opened JsStrings
  import opened Database

  /** The scans the DKP tracker compares: the initial one and the latest one. */
  datatype DkpPair = DkpPair(init: Dataset, latest: Dataset)

  /** `created_at` of `a` is not before that of `b`. */
  predicate NotOlder(a: Dataset, b: Dataset) {
    !StrLess(a.createdAt, b.createdAt)
  }

  /** The order the store returns scans in: no scan was created after one before it (`created_at`
      as an ISO timestamp, compared as text). */
  ghost predicate NewestFirst(ds: seq<Dataset>) {
    Chained(ds, NotOlder)
  }

  /** The tracker card is shown only with at least two scans; it launches with the last scan of
      the list as the initial one and the first as the latest. */
  function LaunchPair(ds: seq<Dataset>): (r: Option<DkpPair>)
    ensures r.Some? <==> |ds| >= 2
    ensures r.Some? ==> r.value.latest == ds[0] && r.value.init == ds[|ds| - 1]
  {
    if |ds| >= 2 then Some(DkpPair(ds[|ds| - 1], ds[0])) else None
  }

  /** On the store's order the pair spans the whole history: the latest scan was created no earlier
      than any other, the initial scan no later, and the two are different entries of the list. */
  lemma LaunchPairSpansHistory(ds: seq<Dataset>)
    requires NewestFirst(ds) && |ds| >= 2
    ensures forall k :: 0 <= k < |ds| ==> !StrLess(LaunchPair(ds).value.latest.createdAt, ds[k].createdAt)
    ensures forall k :: 0 <= k < |ds| ==> !StrLess(ds[k].createdAt, LaunchPair(ds).value.init.createdAt)
  {
    StrLessIrreflexive(ds[0].createdAt);
    StrLessIrreflexive(ds[|ds| - 1].createdAt);
  }

  /** `prev.filter(d => d.id !== id)`. */
  function WithoutId(ds: seq<Dataset>, id: string): (r: seq<Dataset>)
    ensures forall d :: d in r <==> d in ds && d.id != id
    ensures forall d :: multiset(r)[d] == if d.id == id then 0 else multiset(ds)[d]
  {
    var r := Filter(ds, (d: Dataset) => d.id != id);
    forall d
      ensures multiset(r)[d] == if d.id == id then 0 else multiset(ds)[d]
    {
      FilterCount(ds, (d: Dataset) => d.id != id, d);
    }
    r
  }

  /** Deleting keeps the other scans in their order: deleting from a list made of two parts is
      deleting from each part. */
  lemma WithoutIdAppend(a: seq<Dataset>, b: seq<Dataset>, id: string)
    ensures WithoutId(a + b, id) == WithoutId(a, id) + WithoutId(b, id)
  {
    FilterAppend(a, b, (d: Dataset) => d.id != id);
  }

  /** Deleting keeps a list ordered newest first. */
  lemma WithoutIdNewestFirst(ds: seq<Dataset>, id: string)
    requires NewestFirst(ds)
    ensures NewestFirst(WithoutId(ds, id))
  {
    FilterKeepsOrder(ds, (d: Dataset) => d.id != id, NotOlder);
  }

  /** The dashboard's state. */
  class Dashboard {
    var datasets: seq<Dataset>
    var isLoading: bool
    var uploadOpen: bool

    /** The initial state: no scans, loading, the dialog closed. */
    constructor()
      ensures datasets == [] && isLoading && !uploadOpen
    {
      datasets := [];
      isLoading := true;
      uploadOpen := false;
    }

    /** The start of `fetchDatasets`. */
    method StartFetch()
      modifies this
      ensures isLoading
      ensures datasets == old(datasets) && uploadOpen == old(uploadOpen)
    {
      isLoading := true;
    }

    /** The end of `fetchDatasets`: an error keeps the list, an answer replaces it (a `null`
        answer by the empty list); loading is over either way. */
    method FinishFetch(response: Response<seq<Dataset>>)
      modifies this
      ensures !isLoading
      ensures response.Failed? ==> datasets == old(datasets)
      ensures response.Answered? && response.data.Some? ==> datasets == response.data.value
      ensures response.Answered? && response.data.None? ==> datasets == []
      ensures uploadOpen == old(uploadOpen)
    {
      if response.Answered? {
        datasets := match response.data
          case Some(ds) => ds
          case None => [];
      }
      isLoading := false;
    }

    /** `deleteDataset`: a confirmed delete drops every scan with that id; a failed delete leaves
        the list alone. */
    method DeleteDataset(id: string, response: Response<()>)
      modifies this
      ensures response.Answered? ==> datasets == WithoutId(old(datasets), id)
      ensures response.Failed? ==> datasets == old(datasets)
      ensures isLoading == old(isLoading) && uploadOpen == old(uploadOpen)
    {
      if response.Answered? {
        datasets := WithoutId(datasets, id);
      }
    }

    /** The "New Scan" card, shown only once loading has finished, opens the dialog. */
    method OpenUpload()
      requires !isLoading
      modifies this
      ensures uploadOpen
      ensures datasets == old(datasets) && isLoading == old(isLoading)
    {
      uploadOpen := true;
    }

    /** Closing the dialog hides it and fetches the list again. */
    method CloseUpload()
      modifies this
      ensures !uploadOpen && isLoading
      ensures datasets == old(datasets)
    {
      uploadOpen := false;
      StartFetch();
    }
  }
}
