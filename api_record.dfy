/**
 * The record client's own logic: the list filter built from the options, paging through
 * a listing 100 items at a time until the server returns an empty page, dropping the
 * directory entries of a file listing, building copy pairs, checking the answer to a
 * copy, and resolving a record id or name. Every remote call is an oracle parameter.
 */
module RecordApi {
  import opened Wrappers
  import opened Strings
  import opened ResourceNames

  /** constants.MaxPageSize */
  const PageSize: nat := 100

  /** One list call as sent: the parent resource, the filter and the offset. */
  datatype ListRequest = ListRequest(parent: string, filter: string, skip: nat, pageSize: nat)

  datatype ListError =
    | InvalidProject(projectId: string)
    | ListFailed(skip: nat, cause: string)

  // ---------------------------------------------------------------------------
  // Paging until the first empty page

  function RequestAt(parent: string, filter: string, k: nat): (q: ListRequest)
    ensures q.skip == k * PageSize && q.pageSize == PageSize
  {
    ListRequest(parent, filter, k * PageSize, PageSize)
  }

  /** Does the k-th page end the listing (an error or an empty page)? */
  predicate Stops<T>(list: ListRequest -> Result<seq<T>, string>, parent: string, filter: string, k: nat) {
    var p := list(RequestAt(parent, filter, k));
    p.Err? || p.value == []
  }

  /** The first page from `k` on that ends the listing; `last` is one that is known to. */
  function FirstStop<T>(list: ListRequest -> Result<seq<T>, string>, parent: string, filter: string, k: nat, last: nat): (n: nat)
    requires k <= last && Stops(list, parent, filter, last)
    ensures k <= n <= last && Stops(list, parent, filter, n)
    ensures forall j :: k <= j < n ==> !Stops(list, parent, filter, j)
    decreases last - k
  {
    if Stops(list, parent, filter, k) then k else FirstStop(list, parent, filter, k + 1, last)
  }

  /** The items of pages k .. n-1, in order. */
  function Concat<T>(list: ListRequest -> Result<seq<T>, string>, parent: string, filter: string, k: nat, n: nat): seq<T>
    requires k <= n && forall j :: k <= j < n ==> !Stops(list, parent, filter, j)
    decreases n - k
  {
    if k == n then []
    else
      assert !Stops(list, parent, filter, k);
      list(RequestAt(parent, filter, k)).value + Concat(list, parent, filter, k + 1, n)
  }

  lemma {:induction false} ConcatSnoc<T>(list: ListRequest -> Result<seq<T>, string>, parent: string, filter: string, k: nat, n: nat)
    requires k <= n && forall j :: k <= j <= n ==> !Stops(list, parent, filter, j)
    ensures !Stops(list, parent, filter, n)
    ensures Concat(list, parent, filter, k, n + 1) == Concat(list, parent, filter, k, n) + list(RequestAt(parent, filter, n)).value
    decreases n - k
  {
    assert !Stops(list, parent, filter, n);
    if k < n {
      ConcatSnoc(list, parent, filter, k + 1, n);
    }
  }

  /** What a paged listing returns once the first stopping page is known. */
  function PagedResult<T>(list: ListRequest -> Result<seq<T>, string>, parent: string, filter: string, n: nat): Result<seq<T>, ListError>
    requires Stops(list, parent, filter, n) && forall j :: 0 <= j < n ==> !Stops(list, parent, filter, j)
  {
    var p := list(RequestAt(parent, filter, n));
    if p.Err? then Err(ListFailed(n * PageSize, p.error)) else Ok(Concat(list, parent, filter, 0, n))
  }

  /**
   * The loop shared by ListAll, ListAllEvents and ListAllFiles: pages are requested at
   * skip 0, 100, 200, ... up to the first empty one, and their items are concatenated;
   * the first failing request ends the listing with its offset in the error.
   */
  method ListPaged<T>(list: ListRequest -> Result<seq<T>, string>, parent: string, filter: string, ghost last: nat)
      returns (r: Result<seq<T>, ListError>, sent: seq<ListRequest>)
    requires Stops(list, parent, filter, last)
    ensures var n := FirstStop(list, parent, filter, 0, last);
      r == PagedResult(list, parent, filter, n) &&
      |sent| == n + 1 && forall j :: 0 <= j <= n ==> sent[j] == RequestAt(parent, filter, j)
  {
    ghost var n := FirstStop(list, parent, filter, 0, last);
    var items: seq<T> := [];
    var skip := 0;
    ghost var k := 0;
    sent := [];
    while true
      invariant k <= n && skip == k * PageSize
      invariant items == Concat(list, parent, filter, 0, k)
      invariant |sent| == k && forall j :: 0 <= j < k ==> sent[j] == RequestAt(parent, filter, j)
      decreases n - k
    {
      var req := ListRequest(parent, filter, skip, PageSize);
      var page := list(req);
      sent := sent + [req];
      if Stops(list, parent, filter, k) {
        assert k == n;
      }
      if page.Err? {
        return Err(ListFailed(skip, page.error)), sent;
      }
      if page.value == [] {
        break;
      }
      ConcatSnoc(list, parent, filter, 0, k);
      items := items + page.value;
      skip := skip + PageSize;
      k := k + 1;
    }
    r := Ok(items);
  }

  /** Every item of a successful listing is an item of one of the pages that were requested. */
  lemma {:induction false} ListedItemsComeFromPages<T>(list: ListRequest -> Result<seq<T>, string>, parent: string, filter: string, k: nat, n: nat, x: T)
    requires k <= n && forall j :: k <= j < n ==> !Stops(list, parent, filter, j)
    requires x in Concat(list, parent, filter, k, n)
    ensures exists j :: k <= j < n && !Stops(list, parent, filter, j) && x in list(RequestAt(parent, filter, j)).value
    decreases n - k
  {
    assert !Stops(list, parent, filter, k);
    if x !in list(RequestAt(parent, filter, k)).value {
      ListedItemsComeFromPages(list, parent, filter, k + 1, n, x);
    }
  }

  /** A server that serves a fixed collection 100 at a time. */
  function Slice<T>(all: seq<T>, q: ListRequest): (r: Result<seq<T>, string>) {
    Ok(all[Min(q.skip, |all|)..Min(q.skip + PageSize, |all|)])
  }

  lemma {:induction false} ConcatOfSlices<T>(list: ListRequest -> Result<seq<T>, string>, all: seq<T>, parent: string, filter: string, k: nat, n: nat)
    requires forall q :: list(q) == Slice(all, q)
    requires k <= n && (n - 1) * PageSize < |all| && forall j :: k <= j < n ==> !Stops(list, parent, filter, j)
    ensures Concat(list, parent, filter, k, n) == all[Min(k * PageSize, |all|)..Min(n * PageSize, |all|)]
    decreases n - k
  {
    if k < n {
      ConcatOfSlices(list, all, parent, filter, k + 1, n);
      var q := RequestAt(parent, filter, k);
      assert list(q) == Ok(all[k * PageSize..Min((k + 1) * PageSize, |all|)]);
      assert all[k * PageSize..Min(n * PageSize, |all|)] ==
        all[k * PageSize..Min((k + 1) * PageSize, |all|)] + all[Min((k + 1) * PageSize, |all|)..Min(n * PageSize, |all|)];
    }
  }

  /** Against a fixed collection, paging to the first empty page returns it whole, after ceil(|all| / 100) + 1 requests. */
  lemma ListOfFixedCollection<T>(list: ListRequest -> Result<seq<T>, string>, all: seq<T>, parent: string, filter: string)
    requires forall q :: list(q) == Slice(all, q)
    ensures Stops(list, parent, filter, (|all| + PageSize - 1) / PageSize)
    ensures var n := FirstStop(list, parent, filter, 0, (|all| + PageSize - 1) / PageSize);
      n == (|all| + PageSize - 1) / PageSize && PagedResult(list, parent, filter, n) == Ok(all)
  {
    var m := (|all| + PageSize - 1) / PageSize;
    assert (m - 1) * PageSize < |all| <= m * PageSize;
    var q := RequestAt(parent, filter, m);
    assert q.skip == m * PageSize >= |all|;
    assert Min(q.skip, |all|) == |all| == Min(q.skip + PageSize, |all|);
    assert all[|all|..|all|] == [];
    assert Slice(all, q) == Ok([]);
    forall j | 0 <= j < m
      ensures !Stops(list, parent, filter, j)
    {
      assert j * PageSize < |all|;
      assert |Slice(all, RequestAt(parent, filter, j)).value| > 0;
    }
    var n := FirstStop(list, parent, filter, 0, m);
    assert n == m;
    ConcatOfSlices(list, all, parent, filter, 0, n);
    assert Min(0, |all|) == 0 && Min(n * PageSize, |all|) == |all|;
    assert all[0..|all|] == all;
  }

  // ---------------------------------------------------------------------------
  // ListAll: the record filter

  datatype ListRecordsOptions = ListRecordsOptions(projectId: string, titles: seq<string>, includeArchive: bool)

  const ArchivedClause: string := "is_archived=false"

  function TitleTerm(title: string): (t: string)
    ensures t == "title:\"" + title + "\""
  {
    "title:\"" + title + "\""
  }

  /** The terms of the title clause, one per title, in order. */
  function TitleTerms(titles: seq<string>): (r: seq<string>)
    ensures |r| == |titles| && forall i :: 0 <= i < |titles| ==> r[i] == TitleTerm(titles[i])
  {
    if titles == [] then [] else [TitleTerm(titles[0])] + TitleTerms(titles[1..])
  }

  /** recordClient.filter */
  function RecordFilter(opts: ListRecordsOptions): (f: string) {
    var clauses := (if !opts.includeArchive then [ArchivedClause] else [])
      + (if |opts.titles| > 0 then ["(" + Join(TitleTerms(opts.titles), " OR ") + ")"] else []);
    Join(clauses, " AND ")
  }

  /** No clauses give the empty filter, and only then. */
  lemma RecordFilterEmptyIff(opts: ListRecordsOptions)
    ensures RecordFilter(opts) == "" <==> opts.includeArchive && opts.titles == []
  {
    if opts.titles != [] {
      RecordFilterTitles(opts);
    }
  }

  /** The filter begins with the archive clause exactly when archived records are excluded. */
  lemma RecordFilterArchivedIff(opts: ListRecordsOptions)
    ensures StartsWith(RecordFilter(opts), ArchivedClause) <==> !opts.includeArchive
  {
    var f := RecordFilter(opts);
    if opts.titles != [] {
      RecordFilterTitles(opts);
      if !opts.includeArchive {
        assert f[..|ArchivedClause|] == ArchivedClause;
      } else {
        assert f[0] == '(' != ArchivedClause[0];
      }
    }
  }

  /** With titles, the filter ends with one parenthesised clause holding each title verbatim, joined by " OR ". */
  lemma RecordFilterTitles(opts: ListRecordsOptions)
    requires opts.titles != []
    ensures var clause := "(" + Join(TitleTerms(opts.titles), " OR ") + ")";
      RecordFilter(opts) == (if opts.includeArchive then clause else ArchivedClause + " AND " + clause)
  {
    var clause := "(" + Join(TitleTerms(opts.titles), " OR ") + ")";
    if opts.includeArchive {
      assert [] + [clause] == [clause];
    } else {
      var clauses := [ArchivedClause] + [clause];
      assert clauses[1..] == [clause];
      assert Join(clauses, " AND ") == ArchivedClause + " AND " + Join([clause], " AND ");
    }
  }

  /** A single title is inserted without escaping: its quotes end up in the filter as they are. */
  lemma SingleTitleVerbatim(title: string, includeArchive: bool)
    ensures RecordFilter(ListRecordsOptions("", [title], includeArchive)) ==
      (if includeArchive then "" else ArchivedClause + " AND ") + "(title:\"" + title + "\")"
  {
    var opts := ListRecordsOptions("", [title], includeArchive);
    assert TitleTerms([title]) == [TitleTerm(title)];
    assert Join(TitleTerms([title]), " OR ") == TitleTerm(title);
    RecordFilterTitles(opts);
  }

  /** ListAll: an empty project id is rejected before any request; otherwise the filtered listing. */
  method ListAll<T>(opts: ListRecordsOptions, parent: string, list: ListRequest -> Result<seq<T>, string>, ghost last: nat)
      returns (r: Result<seq<T>, ListError>, sent: seq<ListRequest>)
    requires opts.projectId != "" ==> Stops(list, parent, RecordFilter(opts), last)
    ensures opts.projectId == "" ==> r == Err(InvalidProject(opts.projectId)) && sent == []
    ensures opts.projectId != "" ==>
      var n := FirstStop(list, parent, RecordFilter(opts), 0, last);
      r == PagedResult(list, parent, RecordFilter(opts), n) && |sent| == n + 1 &&
      forall j :: 0 <= j <= n ==> sent[j] == RequestAt(parent, RecordFilter(opts), j)
  {
    if opts.projectId == "" {
      return Err(InvalidProject(opts.projectId)), [];
    }
    r, sent := ListPaged(list, parent, RecordFilter(opts), last);
  }

  // ---------------------------------------------------------------------------
  // ListAllFiles and CopyFiles

  /** A file resource: its full name and its path inside the record. */
  datatype FileResource = FileResource(name: string, filename: string)

  const RecursiveFilter: string := "recursive=\"true\""

  predicate IsDirectory(f: FileResource) {
    EndsWith(f.filename, "/")
  }

  /** lo.Filter dropping directory entries: the files that are not directories, in order. */
  function DropDirectories(fs: seq<FileResource>): (r: seq<FileResource>)
    ensures |r| <= |fs|
    ensures forall f :: f in r <==> f in fs && !IsDirectory(f)
  {
    if fs == [] then []
    else if IsDirectory(fs[0]) then DropDirectories(fs[1..])
    else [fs[0]] + DropDirectories(fs[1..])
  }

  /** Each file that is not a directory is kept as often as the listing holds it; directories never. */
  lemma {:induction false} DropDirectoriesCounts(fs: seq<FileResource>, f: FileResource)
    ensures multiset(DropDirectories(fs))[f] == if IsDirectory(f) then 0 else multiset(fs)[f]
  {
    if fs != [] {
      var rest := DropDirectories(fs[1..]);
      DropDirectoriesCounts(fs[1..], f);
      assert fs == [fs[0]] + fs[1..];
      assert multiset(fs) == multiset{fs[0]} + multiset(fs[1..]);
      if !IsDirectory(fs[0]) {
        assert multiset([fs[0]] + rest) == multiset{fs[0]} + multiset(rest);
      }
    }
  }

  /**
   * The filter keeps the listing's order: filtering two consecutive stretches of the listing
   * gives the two filtered stretches one after the other, and a single file survives exactly
   * when it is not a directory.
   */
  lemma {:induction false} DropDirectoriesKeepsOrder(a: seq<FileResource>, b: seq<FileResource>)
    ensures DropDirectories(a + b) == DropDirectories(a) + DropDirectories(b)
    ensures |a| == 1 ==> DropDirectories(a) == (if IsDirectory(a[0]) then [] else a)
  {
    if a != [] {
      assert (a + b)[1..] == a[1..] + b;
      DropDirectoriesKeepsOrder(a[1..], b);
    } else {
      assert a + b == b;
    }
  }

  /** ListAllFiles: the recursive listing of the record, without directories. */
  method ListAllFiles(record: Record, list: ListRequest -> Result<seq<FileResource>, string>, ghost last: nat)
      returns (r: Result<seq<FileResource>, ListError>, sent: seq<ListRequest>)
    requires Stops(list, RecordString(record), RecursiveFilter, last)
    ensures var n := FirstStop(list, RecordString(record), RecursiveFilter, 0, last);
      var all := PagedResult(list, RecordString(record), RecursiveFilter, n);
      (all.Err? ==> r == all) &&
      (all.Ok? ==> r == Ok(DropDirectories(all.value))) &&
      |sent| == n + 1
    ensures r.Ok? ==> forall f :: f in r.value ==> !IsDirectory(f)
  {
    var all;
    all, sent := ListPaged(list, RecordString(record), RecursiveFilter, last);
    if all.Err? {
      return all, sent;
    }
    r := Ok(DropDirectories(all.value));
  }

  /** ListAllEvents: the unfiltered listing of the record's events. */
  method ListAllEvents<T>(record: Record, list: ListRequest -> Result<seq<T>, string>, ghost last: nat)
      returns (r: Result<seq<T>, ListError>, sent: seq<ListRequest>)
    requires Stops(list, RecordString(record), "", last)
    ensures var n := FirstStop(list, RecordString(record), "", 0, last);
      r == PagedResult(list, RecordString(record), "", n) && |sent| == n + 1
  {
    r, sent := ListPaged(list, RecordString(record), "", last);
  }

  datatype CopyPair = CopyPair(srcFile: string, dstFile: string)

  /**
   * CopyFiles' pairs: each file's own path as both source and destination, in order. A
   * file whose name does not parse dereferences a nil name: None stands for that panic.
   */
  function CopyPairs(files: seq<FileResource>): (r: Option<seq<CopyPair>>)
    ensures r.None? <==> exists i :: 0 <= i < |files| && NewFile(files[i].name).None?
    ensures r.Some? ==>
      |r.value| == |files| &&
      forall i :: 0 <= i < |files| ==>
        r.value[i] == CopyPair(NewFile(files[i].name).value.filename, NewFile(files[i].name).value.filename)
  {
    if files == [] then Some([])
    else
      var head := NewFile(files[0].name);
      var rest := CopyPairs(files[1..]);
      if head.None? then None
      else if rest.None? then
        assert exists i :: 1 <= i < |files| && NewFile(files[i].name).None? by {
          var i :| 0 <= i < |files[1..]| && NewFile(files[1..][i].name).None?;
          assert files[i + 1] == files[1..][i];
        }
        None
      else
        Some([CopyPair(head.value.filename, head.value.filename)] + rest.value)
  }

  datatype CopyError =
    | CopyCallFailed(cause: string)
    | UnexpectedRecordCount(count: nat)

  /** Copy's check of the answer: exactly one copied record, or an error naming the count. */
  function CopyResult<R>(answer: Result<seq<R>, string>): (r: Result<R, CopyError>)
    ensures r.Ok? <==> answer.Ok? && |answer.value| == 1
    ensures r.Ok? ==> r.value == answer.value[0]
    ensures answer.Ok? && |answer.value| != 1 ==> r == Err(UnexpectedRecordCount(|answer.value|))
  {
    match answer
    case Err(e) => Err(CopyCallFailed(e))
    case Ok(records) =>
      if |records| != 1 then Err(UnexpectedRecordCount(|records|)) else Ok(records[0])
  }

  // ---------------------------------------------------------------------------
  // RecordId2Name

  /**
   * A record name is used as it is, with no remote call; anything else is taken as a
   * record id in the given project and accepted only if the record can be fetched
   * (`get` returns the failure's text, or None on success). Returns the records fetched.
   */
  function RecordId2Name(idOrName: string, projectId: string, get: Record -> Option<string>): (r: (Result<Record, string>, seq<Record>))
    ensures NewRecord(idOrName).Some? ==> r == (Ok(NewRecord(idOrName).value), [])
    ensures NewRecord(idOrName).None? ==> r.1 == [Record(projectId, idOrName)]
    ensures r.0.Ok? && NewRecord(idOrName).None? <==>
      NewRecord(idOrName).None? && get(Record(projectId, idOrName)).None?
    ensures r.0.Ok? && NewRecord(idOrName).None? ==> r.0.value == Record(projectId, idOrName)
  {
    var parsed := NewRecord(idOrName);
    if parsed.Some? then (Ok(parsed.value), [])
    else
      var candidate := Record(projectId, idOrName);
      match get(candidate)
      case Some(e) => (Err("unable to get record: " + RecordString(candidate) + ": " + e), [candidate])
      case None => (Ok(candidate), [candidate])
  }
}
