/**
 * The action client's own logic: the action-run filter on record names, paging that
 * stops after the first page shorter than the page size, and the resolution of an
 * action id or name (a name as it is; a UUID by a project-scoped lookup first and an
 * organization-level one second). Remote calls and the action-name parser are oracles.
 */
module ActionApi {
  import opened Wrappers
  import opened Strings
  import opened ResourceNames
  import RecordApi

  type ListRequest = RecordApi.ListRequest

  // ---------------------------------------------------------------------------
  // filterRun

  function Quote(s: string): (q: string)
    ensures |q| == |s| + 2 && q[0] == '"' && q[|q| - 1] == '"' && q[1..|q| - 1] == s
  {
    "\"" + s + "\""
  }

  /** The record names, each quoted, in order. */
  function QuotedNames(records: seq<Record>): (r: seq<string>)
    ensures |r| == |records| && forall i :: 0 <= i < |records| ==> r[i] == Quote(RecordString(records[i]))
  {
    if records == [] then [] else [Quote(RecordString(records[0]))] + QuotedNames(records[1..])
  }

  /** filterRun; `None` stands for a nil RecordNames slice. */
  function FilterRun(recordNames: Option<seq<Record>>): (f: string)
    ensures recordNames.None? ==> f == ""
    ensures recordNames.Some? ==> f == "match.records==[" + Join(QuotedNames(recordNames.value), ",") + "]"
  {
    var filters := if recordNames.Some? then ["match.records==[" + Join(QuotedNames(recordNames.value), ",") + "]"] else [];
    Join(filters, " && ")
  }

  /** A non-nil but empty list still filters, on the empty list. */
  lemma FilterRunEmptyList()
    ensures FilterRun(Some([])) == "match.records==[]"
  {
    assert Join(QuotedNames([]), ",") == "";
  }

  /** One record gives its quoted name between the brackets. */
  lemma FilterRunOneRecord(r: Record)
    ensures FilterRun(Some([r])) == "match.records==[" + Quote(RecordString(r)) + "]"
  {
    assert QuotedNames([r]) == [Quote(RecordString(r))];
    assert Join([Quote(RecordString(r))], ",") == Quote(RecordString(r));
  }

  // ---------------------------------------------------------------------------
  // Paging until a short page

  const PageSize: nat := RecordApi.PageSize

  /** Does the k-th page end the listing (an error or fewer items than the page size)? */
  predicate ShortStops<T>(list: ListRequest -> Result<seq<T>, string>, parent: string, filter: string, k: nat) {
    var p := list(RecordApi.RequestAt(parent, filter, k));
    p.Err? || |p.value| < PageSize
  }

  function FirstShort<T>(list: ListRequest -> Result<seq<T>, string>, parent: string, filter: string, k: nat, last: nat): (n: nat)
    requires k <= last && ShortStops(list, parent, filter, last)
    ensures k <= n <= last && ShortStops(list, parent, filter, n)
    ensures forall j :: k <= j < n ==> !ShortStops(list, parent, filter, j)
    decreases last - k
  {
    if ShortStops(list, parent, filter, k) then k else FirstShort(list, parent, filter, k + 1, last)
  }

  /** The items of pages k .. n-1, which are all full. */
  function FullPages<T>(list: ListRequest -> Result<seq<T>, string>, parent: string, filter: string, k: nat, n: nat): (r: seq<T>)
    requires k <= n && forall j :: k <= j < n ==> !ShortStops(list, parent, filter, j)
    ensures |r| >= (n - k) * PageSize
    decreases n - k
  {
    if k == n then []
    else
      assert !ShortStops(list, parent, filter, k);
      list(RecordApi.RequestAt(parent, filter, k)).value + FullPages(list, parent, filter, k + 1, n)
  }

  lemma {:induction false} FullPagesSnoc<T>(list: ListRequest -> Result<seq<T>, string>, parent: string, filter: string, k: nat, n: nat)
    requires k <= n && forall j :: k <= j <= n ==> !ShortStops(list, parent, filter, j)
    ensures !ShortStops(list, parent, filter, n)
    ensures FullPages(list, parent, filter, k, n + 1) == FullPages(list, parent, filter, k, n) + list(RecordApi.RequestAt(parent, filter, n)).value
    decreases n - k
  {
    assert !ShortStops(list, parent, filter, n);
    if k < n {
      FullPagesSnoc(list, parent, filter, k + 1, n);
    }
  }

  datatype ActionListError = ListActionsFailed(cause: string)

  /** The full pages followed by the short one that ended the listing, or the failure. */
  function ShortPagedResult<T>(list: ListRequest -> Result<seq<T>, string>, parent: string, filter: string, n: nat): Result<seq<T>, ActionListError>
    requires ShortStops(list, parent, filter, n) && forall j :: 0 <= j < n ==> !ShortStops(list, parent, filter, j)
  {
    var p := list(RecordApi.RequestAt(parent, filter, n));
    if p.Err? then Err(ListActionsFailed(p.error)) else Ok(FullPages(list, parent, filter, 0, n) + p.value)
  }

  /**
   * The loop of ListAllActions and ListAllActionRuns: each page is appended, and the
   * listing ends after the first page with fewer than 100 items.
   */
  method ListUntilShort<T>(list: ListRequest -> Result<seq<T>, string>, parent: string, filter: string, ghost last: nat)
      returns (r: Result<seq<T>, ActionListError>, sent: seq<ListRequest>)
    requires ShortStops(list, parent, filter, last)
    ensures var n := FirstShort(list, parent, filter, 0, last);
      r == ShortPagedResult(list, parent, filter, n) &&
      |sent| == n + 1 && forall j :: 0 <= j <= n ==> sent[j] == RecordApi.RequestAt(parent, filter, j)
  {
    ghost var n := FirstShort(list, parent, filter, 0, last);
    var items: seq<T> := [];
    var skip := 0;
    ghost var k := 0;
    sent := [];
    while true
      invariant k <= n && skip == k * PageSize
      invariant items == FullPages(list, parent, filter, 0, k)
      invariant |sent| == k && forall j :: 0 <= j < k ==> sent[j] == RecordApi.RequestAt(parent, filter, j)
      decreases n - k
    {
      var req := RecordApi.ListRequest(parent, filter, skip, PageSize);
      var page := list(req);
      sent := sent + [req];
      if ShortStops(list, parent, filter, k) {
        assert k == n;
      }
      if page.Err? {
        return Err(ListActionsFailed(page.error)), sent;
      }
      if |page.value| < PageSize {
        items := items + page.value;
        break;
      }
      FullPagesSnoc(list, parent, filter, 0, k);
      items := items + page.value;
      skip := skip + PageSize;
      k := k + 1;
    }
    r := Ok(items);
  }

  /** ListAllActions: the action filter is always empty. */
  method ListAllActions<T>(parent: string, list: ListRequest -> Result<seq<T>, string>, ghost last: nat)
      returns (r: Result<seq<T>, ActionListError>, sent: seq<ListRequest>)
    requires ShortStops(list, parent, "", last)
    ensures var n := FirstShort(list, parent, "", 0, last);
      r == ShortPagedResult(list, parent, "", n) && |sent| == n + 1
  {
    r, sent := ListUntilShort(list, parent, "", last);
  }

  /** ListAllActionRuns: filtered on the record names. */
  method ListAllActionRuns<T>(parent: string, recordNames: Option<seq<Record>>, list: ListRequest -> Result<seq<T>, string>, ghost last: nat)
      returns (r: Result<seq<T>, ActionListError>, sent: seq<ListRequest>)
    requires ShortStops(list, parent, FilterRun(recordNames), last)
    ensures var n := FirstShort(list, parent, FilterRun(recordNames), 0, last);
      r == ShortPagedResult(list, parent, FilterRun(recordNames), n) && |sent| == n + 1 &&
      forall j :: 0 <= j < |sent| ==> sent[j].filter == FilterRun(recordNames)
  {
    r, sent := ListUntilShort(list, parent, FilterRun(recordNames), last);
  }

  lemma {:induction false} FullPagesOfSlices<T>(list: ListRequest -> Result<seq<T>, string>, all: seq<T>, parent: string, filter: string, k: nat, n: nat)
    requires forall q :: list(q) == RecordApi.Slice(all, q)
    requires k <= n && n * PageSize <= |all|
    requires forall j :: k <= j < n ==> !ShortStops(list, parent, filter, j)
    ensures FullPages(list, parent, filter, k, n) == all[k * PageSize..n * PageSize]
    decreases n - k
  {
    if k < n {
      FullPagesOfSlices(list, all, parent, filter, k + 1, n);
      assert all[k * PageSize..n * PageSize] == all[k * PageSize..(k + 1) * PageSize] + all[(k + 1) * PageSize..n * PageSize];
    }
  }

  /** Against a fixed collection, the short-page loop returns it whole after |all| / 100 + 1 requests. */
  lemma ListOfFixedCollection<T>(list: ListRequest -> Result<seq<T>, string>, all: seq<T>, parent: string, filter: string)
    requires forall q :: list(q) == RecordApi.Slice(all, q)
    ensures ShortStops(list, parent, filter, |all| / PageSize)
    ensures var n := FirstShort(list, parent, filter, 0, |all| / PageSize);
      n == |all| / PageSize && ShortPagedResult(list, parent, filter, n) == Ok(all)
  {
    var m := |all| / PageSize;
    assert m * PageSize <= |all| < m * PageSize + PageSize;
    var q := RecordApi.RequestAt(parent, filter, m);
    assert q.skip == m * PageSize && q.skip + PageSize > |all|;
    assert RecordApi.Slice(all, q) == Ok(all[m * PageSize..|all|]);
    forall j | 0 <= j < m
      ensures !ShortStops(list, parent, filter, j)
    {
      assert (j + 1) * PageSize <= |all|;
      assert list(RecordApi.RequestAt(parent, filter, j)) == Ok(all[j * PageSize..(j + 1) * PageSize]);
    }
    var n := FirstShort(list, parent, filter, 0, m);
    assert n == m;
    FullPagesOfSlices(list, all, parent, filter, 0, n);
    assert FullPages(list, parent, filter, 0, n) == all[0..n * PageSize];
    assert list(q) == Ok(all[n * PageSize..|all|]);
    assert ShortPagedResult(list, parent, filter, n) == Ok(all[0..n * PageSize] + all[n * PageSize..|all|]);
    assert all[0..n * PageSize] + all[n * PageSize..|all|] == all;
  }

  // ---------------------------------------------------------------------------
  // ActionId2Name

  /** An action's name: project-scoped when projectId is not empty, organization-level otherwise. */
  datatype ActionName = ActionName(projectId: string, id: string)

  /**
   * ActionId2Name. `parse` is name.NewAction, `isUuid` is name.IsUUID and `get` is GetByName,
   * which returns the fetched action's name. Returns the result and the lookups made, in order.
   */
  function ActionId2Name(idOrName: string, projectId: string, parse: string -> Option<ActionName>,
                         isUuid: string -> bool, get: ActionName -> Result<string, string>): (r: (Result<ActionName, string>, seq<ActionName>))
    ensures parse(idOrName).Some? ==> r == (Ok(parse(idOrName).value), [])
    ensures parse(idOrName).None? && !isUuid(idOrName) ==> r.0.Err? && r.1 == []
    ensures parse(idOrName).None? && isUuid(idOrName) ==>
      1 <= |r.1| <= 2 && r.1[0] == ActionName(projectId, idOrName) &&
      (|r.1| == 2 <==> get(ActionName(projectId, idOrName)).Err?) &&
      (|r.1| == 2 ==> r.1[1] == ActionName("", idOrName))
    ensures r.0.Ok? && parse(idOrName).None? ==>
      exists i :: 0 <= i < |r.1| && get(r.1[i]).Ok? && parse(get(r.1[i]).value) == Some(r.0.value)
  {
    var parsed := parse(idOrName);
    if parsed.Some? then (Ok(parsed.value), [])
    else if !isUuid(idOrName) then (Err("invalid action id or name: " + idOrName), [])
    else
      var inProject := ActionName(projectId, idOrName);
      var inOrg := ActionName("", idOrName);
      match get(inProject)
      case Ok(n) => (if parse(n).Some? then Ok(parse(n).value) else Err("parse action name"), [inProject])
      case Err(_) =>
        match get(inOrg)
        case Ok(n) => (if parse(n).Some? then Ok(parse(n).value) else Err("parse action name"), [inProject, inOrg])
        case Err(_) => (Err("failed to convert action id to name: " + idOrName), [inProject, inOrg])
  }
}
