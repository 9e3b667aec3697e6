/** `GetProjectsForUser`: the paged listing of projects. */
module ProjectLister {
  import opened Common

  /** The page size requested from the listing (`per_page`). */
  const PerPage: nat := 100

  /** The server's answer to the request for one page: the decoded projects of
      that page, or a non-success status. */
  datatype PageResponse = Page(projects: seq<Project>) | PageFailed

  /** A response after which no further page is requested. */
  predicate EndsListing(p: PageResponse)
  {
    p.PageFailed? || |p.projects| < PerPage
  }

  /** The server's answers in page order: `server[n - 1]` answers page `n`.
      It eventually answers with a short page or a failure. */
  predicate EventuallyEnds(server: seq<PageResponse>)
  {
    exists k :: 0 <= k < |server| && EndsListing(server[k])
  }

  /** The index of the first answer at or after `i` that ends the listing,
      or `|server|` when there is none. */
  function FirstEndFrom(server: seq<PageResponse>, i: nat): (k: nat)
    requires i <= |server|
    ensures i <= k <= |server|
    ensures k < |server| ==> EndsListing(server[k])
    ensures forall j :: i <= j < k ==> !EndsListing(server[j])
    decreases |server| - i
  {
    if i == |server| || EndsListing(server[i]) then i else FirstEndFrom(server, i + 1)
  }

  /** The index of the last page requested: the first answer that ends the listing. */
  function LastPage(server: seq<PageResponse>): (k: nat)
    requires EventuallyEnds(server)
    ensures k < |server| && EndsListing(server[k])
    ensures forall j :: 0 <= j < k ==> server[j].Page? && |server[j].projects| >= PerPage
  {
    FirstEndFrom(server, 0)
  }

  /** The projects of a run of answers, in order; a failed answer has none. */
  function Concat(pages: seq<PageResponse>): seq<Project>
  {
    if pages == [] then []
    else Concat(pages[..|pages| - 1]) + (if pages[|pages| - 1].Page? then pages[|pages| - 1].projects else [])
  }

  lemma {:induction false} ConcatAppend(a: seq<PageResponse>, b: seq<PageResponse>)
    ensures Concat(a + b) == Concat(a) + Concat(b)
    decreases |b|
  {
    if b != [] {
      var b' := b[..|b| - 1];
      assert (a + b)[..|a + b| - 1] == a + b';
      assert (a + b)[|a + b| - 1] == b[|b| - 1];
      ConcatAppend(a, b');
    } else {
      assert a + b == a;
    }
  }

  lemma ConcatSingle(p: PageResponse)
    ensures Concat([p]) == if p.Page? then p.projects else []
  {
    assert [p][..0] == [];
  }

  lemma ConcatCons(p: PageResponse, rest: seq<PageResponse>)
    ensures Concat([p] + rest) == (if p.Page? then p.projects else []) + Concat(rest)
  {
    ConcatAppend([p], rest);
    ConcatSingle(p);
  }

  /** The listing read as the source's loop does, from the page at index `i`:
      a failure aborts, a short page is the last one, a full page is followed by
      the listing from the next page. */
  function ListFrom(server: seq<PageResponse>, i: nat): Result<seq<Project>>
    requires i <= |server| && FirstEndFrom(server, i) < |server|
    decreases |server| - i
  {
    match server[i]
    case PageFailed => Err(ProjectsPageFailed(i + 1))
    case Page(ps) =>
      if |ps| < PerPage then Ok(ps)
      else match ListFrom(server, i + 1)
        case Ok(rest) => Ok(ps + rest)
        case Err(e) => Err(e)
  }

  /** The result of listing all projects. */
  function ListProjects(server: seq<PageResponse>): Result<seq<Project>>
    requires EventuallyEnds(server)
  {
    ListFrom(server, 0)
  }

  /** The listing from a page fails exactly when the first page that ends it
      failed, and then with that page's number. */
  lemma {:induction false} ListFromFailure(server: seq<PageResponse>, i: nat)
    requires i <= |server| && FirstEndFrom(server, i) < |server|
    ensures ListFrom(server, i).Err? <==> server[FirstEndFrom(server, i)].PageFailed?
    ensures ListFrom(server, i).Err? ==> ListFrom(server, i).failure == ProjectsPageFailed(FirstEndFrom(server, i) + 1)
    decreases |server| - i
  {
    if !EndsListing(server[i]) {
      ListFromFailure(server, i + 1);
    }
  }

  /** A page that ends the listing: it is the last one, and the listing from it
      is its failure or its projects. */
  lemma ListFromLastPage(server: seq<PageResponse>, i: nat)
    requires i < |server| && EndsListing(server[i])
    ensures FirstEndFrom(server, i) == i
    ensures server[i].PageFailed? ==> ListFrom(server, i) == Err(ProjectsPageFailed(i + 1))
    ensures server[i].Page? ==> ListFrom(server, i) == Ok(server[i].projects)
  {
  }

  /** A full page: the listing from it is that page followed by the listing from the next. */
  lemma ListFromFullPage(server: seq<PageResponse>, i: nat)
    requires i < |server| && FirstEndFrom(server, i) < |server|
    requires server[i].Page? && |server[i].projects| >= PerPage
    ensures FirstEndFrom(server, i + 1) == FirstEndFrom(server, i)
    ensures ListFrom(server, i + 1).Ok? ==> ListFrom(server, i) == Ok(server[i].projects + ListFrom(server, i + 1).value)
    ensures ListFrom(server, i + 1).Err? ==> ListFrom(server, i) == ListFrom(server, i + 1)
  {
  }

  /** `GetProjectsForUser`: requests pages 1, 2, ... and collects them until a
      short page; any failed request aborts the call. `requested` is the
      sequence of page numbers it asked for. */
  method GetProjectsForUser(server: seq<PageResponse>) returns (r: Result<seq<Project>>, requested: seq<nat>)
    requires EventuallyEnds(server)
    ensures r == ListProjects(server)
    ensures |requested| == LastPage(server) + 1
    ensures forall j :: 0 <= j < |requested| ==> requested[j] == j + 1
  {
    ghost var last := LastPage(server);
    var page := 1;
    var projects: seq<Project> := [];
    requested := [];
    assert ListFrom(server, 0).Ok? ==> [] + ListFrom(server, 0).value == ListFrom(server, 0).value;
    while true
      invariant 1 <= page <= last + 1
      invariant FirstEndFrom(server, page - 1) == last
      invariant |requested| == page - 1
      invariant forall j :: 0 <= j < |requested| ==> requested[j] == j + 1
      invariant ListFrom(server, page - 1).Err? ==> ListProjects(server) == ListFrom(server, page - 1)
      invariant ListFrom(server, page - 1).Ok? ==>
        ListProjects(server) == Ok(projects + ListFrom(server, page - 1).value)
      decreases last + 1 - page
    {
      requested := requested + [page];
      var response := server[page - 1];
      if response.PageFailed? {
        ListFromLastPage(server, page - 1);
        r := Err(ProjectsPageFailed(page));
        return;
      }
      var pageProjects := response.projects;
      ghost var before := projects;
      projects := projects + pageProjects;
      if |pageProjects| < PerPage {
        ListFromLastPage(server, page - 1);
        break;
      }
      ListFromFullPage(server, page - 1);
      assert ListFrom(server, page).Ok? ==>
        before + (pageProjects + ListFrom(server, page).value) == projects + ListFrom(server, page).value;
      page := page + 1;
    }
    r := Ok(projects);
  }


  /** The listing from index `i` in closed form: the answers from `i` to the
      first one that ends it, concatenated, or the failure of that one. */
  function ClosedFrom(server: seq<PageResponse>, i: nat): Result<seq<Project>>
    requires i <= |server| && FirstEndFrom(server, i) < |server|
  {
    var k := FirstEndFrom(server, i);
    if server[k].PageFailed? then Err(ProjectsPageFailed(k + 1)) else Ok(Concat(server[i..k + 1]))
  }

  lemma {:induction false} ListFromClosedForm(server: seq<PageResponse>, i: nat)
    requires i <= |server| && FirstEndFrom(server, i) < |server|
    ensures ListFrom(server, i) == ClosedFrom(server, i)
    decreases |server| - i
  {
    var k := FirstEndFrom(server, i);
    if EndsListing(server[i]) {
      assert k == i;
      assert server[i..k + 1] == [server[i]];
      ConcatSingle(server[i]);
    } else {
      ListFromClosedForm(server, i + 1);
      var rest := server[i + 1..k + 1];
      assert server[i..k + 1] == [server[i]] + rest;
      ConcatCons(server[i], rest);
    }
  }

  /** Every page before the last requested one is full, and the listing is the
      in-order concatenation of pages 1 to the last one; a failure there aborts
      with no partial list. */
  lemma ListProjectsClosedForm(server: seq<PageResponse>)
    requires EventuallyEnds(server)
    ensures var k := LastPage(server);
      && (forall j :: 0 <= j < k ==> server[j].Page? && |server[j].projects| >= PerPage)
      && (ListProjects(server).Err? <==> server[k].PageFailed?)
      && (ListProjects(server).Err? ==> ListProjects(server).failure == ProjectsPageFailed(k + 1))
      && (ListProjects(server).Ok? ==> ListProjects(server).value == Concat(server[..k + 1]))
  {
    ListFromClosedForm(server, 0);
    assert server[0..LastPage(server) + 1] == server[..LastPage(server) + 1];
  }

  /** A page of exactly `PerPage` projects is never taken as the last one:
      the next page is requested too. */
  lemma FullPageRequestsNext(server: seq<PageResponse>, j: nat)
    requires EventuallyEnds(server)
    requires j < |server| && server[j].Page? && |server[j].projects| == PerPage
    requires forall i :: 0 <= i < j ==> server[i].Page? && |server[i].projects| >= PerPage
    ensures LastPage(server) > j
  {
  }

  /** The number of projects of answers that are all pages. */
  lemma {:induction false} ConcatLength(pages: seq<PageResponse>, full: nat)
    requires forall j :: 0 <= j < |pages| ==> pages[j].Page?
    requires forall j :: 0 <= j < |pages| - 1 ==> |pages[j].projects| == full
    requires pages != []
    ensures |Concat(pages)| == full * (|pages| - 1) + |pages[|pages| - 1].projects|
  {
    var n := |pages|;
    if n > 1 {
      var front := pages[..n - 1];
      ConcatLength(front, full);
      assert |Concat(front)| == full * (n - 2) + full;
    } else {
      assert pages[..0] == [];
    }
  }

  /** When every page before the last one holds exactly `PerPage` projects,
      the listing holds `PerPage` per full page plus the last page's projects
      (pages of 100, 100 and 37 give 237). */
  lemma ListingLength(server: seq<PageResponse>)
    requires EventuallyEnds(server)
    requires forall j :: 0 <= j < LastPage(server) ==> |server[j].projects| == PerPage
    requires server[LastPage(server)].Page?
    ensures ListProjects(server).Ok?
    ensures |ListProjects(server).value| == PerPage * LastPage(server) + |server[LastPage(server)].projects|
  {
    var k := LastPage(server);
    ListProjectsClosedForm(server);
    ConcatLength(server[..k + 1], PerPage);
  }
}
