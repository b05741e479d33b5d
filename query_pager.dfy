/**
 * The two paging loops of host.go: HostSearch, which asks for page 1, 2, ...
 * of a query and filters the rows as it reads them, and DumpSearch, which
 * follows the server's `next` cursor and hands each batch to a consumer.
 * The server is a sequence of responses; whether the caller's context was
 * cancelled is an oracle asked before every request.
 */
module QueryPager {
  import opened Wrappers
  import opened FieldPlanner
  import opened PostProcessor
  import opened RowProcessor
  import opened ResultReducer

  // The deduct modes of the client (the hint says "set mode to 1(DeductModeFCoin)").
  const DeductModeFree := 0
  const DeductModeFCoin := 1

  const InsufficientPrivileges := "insufficient privileges"
  const NeedFCoinMode := "insufficient privileges, try to set mode to 1(DeductModeFCoin)"
  /** The text of Go's context.Canceled. */
  const Canceled := "context canceled"
  /** What a request beyond the given responses yields. */
  const NoResponse := "no response"
  const BadBatchSize := "batchSize must between 1 and 100000"
  const MaxPerPage := 1000
  const MaxBatchSize := 100000

  /** The `results` member of a response: an array, or anything else. */
  datatype Results = Items(items: seq<Item>) | NotArray

  /** One answer of the server: the decoded body, or the error of the request itself. */
  datatype Response =
    | Response(errmsg: string, results: Results, size: int, next: string)
    | FetchFailed(msg: string)

  /** Every array element of every response has the width the request asked for. */
  predicate ServerFits(server: seq<Response>, width: nat)
  {
    forall k, item :: 0 <= k < |server| && server[k].Response? && server[k].results.Items? && item in server[k].results.items
      ==> ItemFits(item, width)
  }

  // ---------------------------------------------------------------------
  // Quota gate and page size
  // ---------------------------------------------------------------------

  /**
   * The check of the account level before HostSearch fetches anything: a
   * caller without free quota needs F coins and the FCoin deduct mode; an
   * unknown level (-1) is not checked; under the Free mode a size above the
   * free quota is lowered to it (a non-positive quota keeps the larger of
   * the two, which is the size).
   */
  function QuotaGate(freeSize: int, fcoin: int, mode: int, size: int): (r: Result<int, string>)
    ensures r.Err? <==> freeSize == 0 && (fcoin < 1 || mode != DeductModeFCoin)
    ensures freeSize == 0 && fcoin < 1 ==> r == Err(InsufficientPrivileges)
    ensures freeSize == 0 && fcoin >= 1 && mode != DeductModeFCoin ==> r == Err(NeedFCoinMode)
    ensures freeSize == -1 ==> r == Ok(size)
    ensures (r.Ok? && r.value != size) <==> (mode == DeductModeFree && 0 < freeSize < size)
    ensures r.Ok? ==> r.value <= size && (r.value == size || r.value == freeSize)
  {
    if freeSize == 0 then
      if fcoin < 1 then Err(InsufficientPrivileges)
      else if mode != DeductModeFCoin then Err(NeedFCoinMode)
      else Ok(size)
    else if freeSize == -1 then Ok(size)
    else if size > freeSize then
      if mode == DeductModeFree then
        if freeSize <= 0 then Ok(if freeSize > size then freeSize else size)
        else Ok(freeSize)
      else Ok(size)
    else Ok(size)
  }

  /** The page size of HostSearch: at most 1000, and 1000 when all rows are wanted (-1). */
  function PerPage(size: int): (n: int)
    ensures size == -1 ==> n == MaxPerPage
    ensures size != -1 ==> n <= MaxPerPage && n <= size && (n == size || n == MaxPerPage)
  {
    if size == -1 then MaxPerPage
    else if size < MaxPerPage then size else MaxPerPage
  }

  /** The variables of the filter expression; none when there is no filter. */
  function FilterVars(o: SearchOptions, variables: Result<seq<string>, string>): seq<string>
  {
    if |o.filter| > 0 && variables.Ok? then variables.value else []
  }

  /** What one HostSearch call works with once its arguments were checked. */
  datatype Session = Session(config: Config, size: int, perPage: int)

  /**
   * Everything HostSearch does before its first request, in the order it
   * does it: the quota gate, the page size, fixUrlCheck and the other
   * columns, and the variables of the filter expression (given here as
   * the result of their extraction).
   */
  function Prepare(size: int, fields: seq<string>, o: SearchOptions, variables: Result<seq<string>, string>,
                   eval: map<string, string> -> Result<bool, string>, probe: (string, int) -> Probe,
                   freeSize: int, fcoin: int, mode: int): (r: Result<Session, string>)
    ensures QuotaGate(freeSize, fcoin, mode, size).Err? ==> r == Err(QuotaGate(freeSize, fcoin, mode, size).error)
    ensures QuotaGate(freeSize, fcoin, mode, size).Ok? && FixUrlCheck(fields, o.fixUrl).Err? ==>
              r == Err(NoHostWithFixUrl)
    ensures (QuotaGate(freeSize, fcoin, mode, size).Ok? && FixUrlCheck(fields, o.fixUrl).Ok? && |o.filter| > 0
              && variables.Err?) ==> r == Err(variables.error)
    ensures (QuotaGate(freeSize, fcoin, mode, size).Ok? && FixUrlCheck(fields, o.fixUrl).Ok?
             && (|o.filter| == 0 || variables.Ok?)) ==>
      var n := QuotaGate(freeSize, fcoin, mode, size).value;
      var vars := FilterVars(o, variables);
      r == Ok(Session(Config(FieldPlan(fields, o, vars).value, o, vars, eval, probe), n, PerPage(n)))
    ensures r.Ok? ==>
      && QuotaGate(freeSize, fcoin, mode, size) == Ok(r.value.size)
      && r.value.perPage == PerPage(r.value.size)
      && r.value.config.opts == o
      && ValidConfig(r.value.config)
      && r.value.config.plan.rawFieldSize == FixUrlCheck(fields, o.fixUrl).value.rawFieldSize
  {
    match QuotaGate(freeSize, fcoin, mode, size)
    case Err(e) => Err(e)
    case Ok(n) =>
      match FixUrlCheck(fields, o.fixUrl)
      case Err(e) => Err(e)
      case Ok(_) =>
        if |o.filter| > 0 && variables.Err? then Err(variables.error)
        else
          var vars := FilterVars(o, variables);
          var plan := FieldPlan(fields, o, vars).value;
          Ok(Session(Config(plan, o, vars, eval, probe), n, PerPage(n)))
  }

  // ---------------------------------------------------------------------
  // HostSearch: offset paging
  // ---------------------------------------------------------------------

  /** Why the page loop ended. */
  datatype Stop =
    | Cancelled               // the context was done before a request
    | FetchError(msg: string) // the request itself failed
    | ServerError(msg: string)// the response carried an errmsg
    | NoData                  // an empty results array
    | Unrecognised            // results was not an array
    | Filled                  // the rows reached the size asked for
    | ShortPage               // fewer elements than a full page
    | FilterError(msg: string)// the filter expression failed

  /** The state after the page loop, the number of the last page it asked for, and why it ended. */
  datatype Outcome = Outcome(st: Ingest, page: nat, stop: Stop)

  /** The page loop from page `page` on, with the state `st` of the pages before it. */
  function Pages(c: Config, size: int, perPage: int, server: seq<Response>, cancelled: nat -> bool,
                 page: nat, st: Ingest): (o: Outcome)
    requires page >= 1
    ensures page <= o.page
    ensures o.page <= |server| || o.stop == Cancelled || o.stop == FetchError(NoResponse)
    decreases |server| + 1 - page
  {
    if cancelled(page) then Outcome(st, page, Cancelled)
    else if page > |server| then Outcome(st, page, FetchError(NoResponse))
    else match server[page - 1]
      case FetchFailed(m) => Outcome(st, page, FetchError(m))
      case Response(errmsg, results, _, _) =>
        if |errmsg| > 0 then Outcome(st, page, ServerError(errmsg))
        else match results
          case NotArray => Outcome(st, page, Unrecognised)
          case Items(items) =>
            if |items| == 0 then Outcome(st, page, NoData)
            else match IngestAll(c, st, items)
              case Err(e) => Outcome(st, page, FilterError(e))
              case Ok(next) =>
                if size != -1 && size <= |next.rows| then Outcome(next, page, Filled)
                else if |items| < perPage then Outcome(next, page, ShortPage)
                else Pages(c, size, perPage, server, cancelled, page + 1, next)
  }

  /** A response that makes the loop go on to the next page: no error and a full array. */
  predicate FullPage(r: Response, perPage: int)
  {
    r.Response? && |r.errmsg| == 0 && r.results.Items? && |r.results.items| > 0 && |r.results.items| >= perPage
  }

  /** The state the loop carries to the next page, when page `page` sends it on. */
  function NextPage(c: Config, size: int, perPage: int, server: seq<Response>, cancelled: nat -> bool,
                    page: nat, st: Ingest): (n: Option<Ingest>)
    requires page >= 1
    ensures n.Some? ==> page <= |server| && FullPage(server[page - 1], perPage) && (size == -1 || |n.value.rows| < size)
  {
    if !cancelled(page) && page <= |server| && FullPage(server[page - 1], perPage) then
      match IngestAll(c, st, server[page - 1].results.items)
      case Ok(next) => if size != -1 && size <= |next.rows| then None else Some(next)
      case Err(_) => None
    else None
  }

  /** One unfolding of the page loop: it goes on with NextPage, or stops at this page with this page's state. */
  lemma PagesStep(c: Config, size: int, perPage: int, server: seq<Response>, cancelled: nat -> bool,
                  page: nat, st: Ingest)
    requires page >= 1
    ensures var n := NextPage(c, size, perPage, server, cancelled, page, st);
      && (n.Some? ==>
            && !cancelled(page) && page <= |server| && FullPage(server[page - 1], perPage)
            && IngestAll(c, st, server[page - 1].results.items) == Ok(n.value)
            && Pages(c, size, perPage, server, cancelled, page, st) == Pages(c, size, perPage, server, cancelled, page + 1, n.value))
      && (n.None? ==>
            var o := Pages(c, size, perPage, server, cancelled, page, st);
            && o.page == page
            && (o.st == st
                || (page <= |server| && server[page - 1].Response? && server[page - 1].results.Items?
                    && IngestAll(c, st, server[page - 1].results.items) == Ok(o.st))))
  {
  }

  /**
   * The loop asks for consecutive pages: every page before the last one was
   * asked for without cancellation and came back full.
   */
  lemma {:induction false} PagesAreConsecutive(c: Config, size: int, perPage: int, server: seq<Response>,
                                               cancelled: nat -> bool, page: nat, st: Ingest)
    requires 1 <= page <= |server| + 1
    ensures var o := Pages(c, size, perPage, server, cancelled, page, st);
      && page <= o.page <= |server| + 1
      && (forall p :: page <= p < o.page ==> !cancelled(p) && FullPage(server[p - 1], perPage))
    decreases |server| + 1 - page
  {
    PagesStep(c, size, perPage, server, cancelled, page, st);
    var n := NextPage(c, size, perPage, server, cancelled, page, st);
    if n.Some? {
      PagesAreConsecutive(c, size, perPage, server, cancelled, page + 1, n.value);
    }
  }

  /**
   * The reason an outcome gives is what happened at its last page:
   * cancellation exactly when the oracle said so there, a failed or missing
   * response, the response's errmsg, a results member that is not an array,
   * an empty array, an error of the filter on that page's rows, the size
   * reached, or a short page that left fewer rows than the size.
   */
  predicate ReasonHolds(c: Config, size: int, perPage: int, server: seq<Response>, cancelled: nat -> bool,
                        o: Outcome)
  {
    && o.page >= 1
    && (o.stop == Cancelled <==> cancelled(o.page))
    && (o.stop.FetchError? ==>
          || (o.page > |server| && o.stop.msg == NoResponse)
          || (o.page <= |server| && server[o.page - 1] == FetchFailed(o.stop.msg)))
    && (o.stop.ServerError? ==>
          o.page <= |server| && server[o.page - 1].Response? && server[o.page - 1].errmsg == o.stop.msg
          && |o.stop.msg| > 0)
    && (o.stop == Unrecognised ==>
          o.page <= |server| && server[o.page - 1].Response? && server[o.page - 1].errmsg == ""
          && server[o.page - 1].results == NotArray)
    && (o.stop == NoData ==>
          o.page <= |server| && server[o.page - 1].Response? && server[o.page - 1].errmsg == ""
          && server[o.page - 1].results == Items([]))
    && (o.stop.FilterError? ==>
          o.page <= |server| && server[o.page - 1].Response? && server[o.page - 1].errmsg == ""
          && server[o.page - 1].results.Items?
          && IngestAll(c, o.st, server[o.page - 1].results.items) == Err(o.stop.msg))
    && (o.stop == Filled ==> size != -1 && size <= |o.st.rows|)
    && (o.stop == ShortPage ==>
          o.page <= |server| && server[o.page - 1].Response? && server[o.page - 1].results.Items?
          && |server[o.page - 1].results.items| < perPage
          && (size == -1 || |o.st.rows| < size))
  }

  /** The page at which NextPage does not go on is the last one, and the reason is its own. */
  lemma StopsHere(c: Config, size: int, perPage: int, server: seq<Response>, cancelled: nat -> bool,
                  page: nat, st: Ingest)
    requires page >= 1 && NextPage(c, size, perPage, server, cancelled, page, st).None?
    ensures var o := Pages(c, size, perPage, server, cancelled, page, st);
      o.page == page && ReasonHolds(c, size, perPage, server, cancelled, o)
  {
  }

  /** The loop ends for the reason its last page gives. */
  lemma {:induction false} PagesStopReason(c: Config, size: int, perPage: int, server: seq<Response>,
                                           cancelled: nat -> bool, page: nat, st: Ingest)
    requires page >= 1
    ensures ReasonHolds(c, size, perPage, server, cancelled, Pages(c, size, perPage, server, cancelled, page, st))
    decreases |server| + 1 - page
  {
    PagesStep(c, size, perPage, server, cancelled, page, st);
    var n := NextPage(c, size, perPage, server, cancelled, page, st);
    if n.Some? {
      PagesStopReason(c, size, perPage, server, cancelled, page + 1, n.value);
    } else {
      StopsHere(c, size, perPage, server, cancelled, page, st);
    }
  }

  /**
   * The size stop: starting below the size, the loop ends with Filled
   * exactly when the gathered rows reached the size, so it never goes on
   * to another page once they have.
   */
  lemma {:induction false} PagesFilled(c: Config, size: int, perPage: int, server: seq<Response>,
                                       cancelled: nat -> bool, page: nat, st: Ingest)
    requires page >= 1
    ensures var o := Pages(c, size, perPage, server, cancelled, page, st);
      (size == -1 || |st.rows| < size) ==> (o.stop == Filled <==> size != -1 && size <= |o.st.rows|)
    decreases |server| + 1 - page
  {
    PagesStep(c, size, perPage, server, cancelled, page, st);
    var n := NextPage(c, size, perPage, server, cancelled, page, st);
    if n.Some? {
      PagesFilled(c, size, perPage, server, cancelled, page + 1, n.value);
    } else {
      StopsHere(c, size, perPage, server, cancelled, page, st);
    }
  }

  /**
   * Once the rows already reach the size (as with a size of 0 from the start),
   * the loop asks for no further page, and a page it reads without error ends
   * it with the size stop.
   */
  lemma PagesAlreadyFilled(c: Config, size: int, perPage: int, server: seq<Response>,
                           cancelled: nat -> bool, page: nat, st: Ingest)
    requires page >= 1 && size != -1 && size <= |st.rows|
    ensures var o := Pages(c, size, perPage, server, cancelled, page, st);
      && o.page == page && o.stop != ShortPage
      && ((&& !cancelled(page) && page <= |server| && server[page - 1].Response? && |server[page - 1].errmsg| == 0
           && server[page - 1].results.Items? && server[page - 1].results.items != []
           && IngestAll(c, st, server[page - 1].results.items).Ok?)
          ==> o.stop == Filled)
  {
    if page <= |server| && server[page - 1].Response? && server[page - 1].results.Items?
       && IngestAll(c, st, server[page - 1].results.items).Ok? {
      IngestAllGrows(c, st, server[page - 1].results.items);
    }
  }

  /** Rows gathered by earlier pages are never lost or changed by later ones. */
  lemma {:induction false} PagesGrow(c: Config, size: int, perPage: int, server: seq<Response>,
                                     cancelled: nat -> bool, page: nat, st: Ingest)
    requires page >= 1
    ensures st.rows <= Pages(c, size, perPage, server, cancelled, page, st).st.rows
    decreases |server| + 1 - page
  {
    PagesStep(c, size, perPage, server, cancelled, page, st);
    var n := NextPage(c, size, perPage, server, cancelled, page, st);
    if n.Some? {
      IngestAllGrows(c, st, server[page - 1].results.items);
      PagesGrow(c, size, perPage, server, cancelled, page + 1, n.value);
    } else if page <= |server| && server[page - 1].Response? && server[page - 1].results.Items?
              && IngestAll(c, st, server[page - 1].results.items).Ok? {
      IngestAllGrows(c, st, server[page - 1].results.items);
    }
  }

  /** The ingestion invariant (distinct ips, the wildcard cap, widths, one flag per row) holds at the end. */
  lemma {:induction false} PagesKeepInv(c: Config, size: int, perPage: int, server: seq<Response>,
                                        cancelled: nat -> bool, page: nat, st: Ingest)
    requires page >= 1 && ValidConfig(c) && ServerFits(server, |c.plan.fields|) && Inv(c, st)
    ensures Inv(c, Pages(c, size, perPage, server, cancelled, page, st).st)
    decreases |server| + 1 - page
  {
    PagesStep(c, size, perPage, server, cancelled, page, st);
    var n := NextPage(c, size, perPage, server, cancelled, page, st);
    if n.Some? {
      PageKeepsInv(c, server, page, st);
      PagesKeepInv(c, size, perPage, server, cancelled, page + 1, n.value);
    } else if Pages(c, size, perPage, server, cancelled, page, st).st != st {
      PageKeepsInv(c, server, page, st);
    }
  }

  /** One page read without error keeps the ingestion invariant. */
  lemma PageKeepsInv(c: Config, server: seq<Response>, page: nat, st: Ingest)
    requires ValidConfig(c) && ServerFits(server, |c.plan.fields|) && Inv(c, st)
    requires 1 <= page <= |server| && server[page - 1].Response? && server[page - 1].results.Items?
    requires IngestAll(c, st, server[page - 1].results.items).Ok?
    ensures Inv(c, IngestAll(c, st, server[page - 1].results.items).value)
  {
    ServerItemsFit(server, |c.plan.fields|, page - 1);
    IngestAllKeepsInv(c, st, server[page - 1].results.items);
  }

  /** The elements of one response fit when the server fits. */
  lemma ServerItemsFit(server: seq<Response>, width: nat, k: int)
    requires ServerFits(server, width) && 0 <= k < |server| && server[k].Response? && server[k].results.Items?
    ensures forall item :: item in server[k].results.items ==> ItemFits(item, width)
  {
  }

  /**
   * The rows HostSearch gathered, however its loop ended: each has one cell
   * per effective field; with UniqByIP no two share an ip; with DeWildcard
   * at most four share an ip:port:domain:title:fid key; with IsActive there
   * is one flag per row.
   */
  lemma GatheredRows(c: Config, size: int, perPage: int, server: seq<Response>, cancelled: nat -> bool)
    requires ValidConfig(c) && ServerFits(server, |c.plan.fields|)
    ensures var st := Pages(c, size, perPage, server, cancelled, 1, Start).st;
      && (forall row :: row in st.rows ==> |row| == |c.plan.fields|)
      && (c.opts.uniqByIP ==>
            forall k, l :: 0 <= k < l < |st.rows| ==> Cell(st.rows[k], c.plan.ipIndex) != Cell(st.rows[l], c.plan.ipIndex))
      && (c.opts.deWildcard > 0 ==> forall key :: KeyCount(c.plan, st.rows, key) <= 4)
      && (c.opts.isActive > 0 ==>
            |st.active| == |st.rows| && forall i :: 0 <= i < |st.rows| ==> Probed(c, st.rows[i], st.active[i]))
  {
    PagesKeepInv(c, size, perPage, server, cancelled, 1, Start);
  }

  /** The page loop of HostSearch, from page 1 with empty state. */
  method Collect(c: Config, size: int, perPage: int, server: seq<Response>, cancelled: nat -> bool)
    returns (o: Outcome)
    requires ValidConfig(c) && ServerFits(server, |c.plan.fields|)
    ensures o == Pages(c, size, perPage, server, cancelled, 1, Start)
  {
    var page := 1;
    var st := Start;
    while true
      invariant 1 <= page <= |server| + 1
      invariant Pages(c, size, perPage, server, cancelled, 1, Start) == Pages(c, size, perPage, server, cancelled, page, st)
      decreases |server| + 1 - page
    {
      if cancelled(page) {
        return Outcome(st, page, Cancelled);
      }
      if page > |server| {
        return Outcome(st, page, FetchError(NoResponse));
      }
      var hr := server[page - 1];
      if hr.FetchFailed? {
        return Outcome(st, page, FetchError(hr.msg));
      }
      if |hr.errmsg| > 0 {
        return Outcome(st, page, ServerError(hr.errmsg));
      }
      if hr.results.NotArray? {
        return Outcome(st, page, Unrecognised);
      }
      var items := hr.results.items;
      if |items| == 0 {
        return Outcome(st, page, NoData);
      }
      assert forall item :: item in items ==> ItemFits(item, |c.plan.fields|);
      var r := IngestPage(c, st, items);
      if r.Err? {
        return Outcome(st, page, FilterError(r.error));
      }
      st := r.value;
      if size != -1 && size <= |st.rows| {
        return Outcome(st, page, Filled);
      }
      if |items| < perPage {
        return Outcome(st, page, ShortPage);
      }
      page := page + 1;
    }
  }

  /** A row of the answer: post-processed, then given its active flag when IsActive is set. */
  function Emitted(c: Config, row: Row, active: seq<string>, i: nat): Row
    requires ValidConfig(c) && |row| == |c.plan.fields|
    requires c.opts.isActive > 0 ==> i < |active|
  {
    var p := ProcessedRow(row, |c.plan.fields|, c.plan.hostIndex, c.plan.protocolIndex, c.plan.rawFieldSize,
                          c.opts.fixUrl, c.opts.urlPrefix);
    if c.opts.isActive > 0 then p + [active[i]] else p
  }

  /**
   * An answered row has exactly the caller's columns, plus the active flag
   * when IsActive is set; every caller's cell except the host column under
   * FixUrl is the cell the server sent (the status code cell aside, which
   * is never one of the caller's columns unless asked for).
   */
  lemma EmittedShape(c: Config, row: Row, active: seq<string>, i: nat)
    requires ValidConfig(c) && |row| == |c.plan.fields|
    requires c.opts.isActive > 0 ==> i < |active|
    ensures var e := Emitted(c, row, active, i);
      && |e| == c.plan.rawFieldSize + (if c.opts.isActive > 0 then 1 else 0)
      && (forall j :: 0 <= j < c.plan.rawFieldSize && (j != c.plan.hostIndex || !c.opts.fixUrl) ==> e[j] == row[j])
      && (c.opts.isActive > 0 ==> e[c.plan.rawFieldSize] == active[i])
  {
    ProcessedRowWidth(row, |c.plan.fields|, c.plan.hostIndex, c.plan.protocolIndex, c.plan.rawFieldSize,
                      c.opts.fixUrl, c.opts.urlPrefix);
  }

  /**
   * The processing of the gathered rows: DedupHost when it is set (its
   * output `deduped`), then postProcess, then the active flags.
   */
  ghost predicate Processed(c: Config, st: Ingest, res: seq<Row>, deduped: seq<Row>)
    requires ValidConfig(c) && Inv(c, st)
  {
    && (c.opts.dedupHost ==>
          && DedupOutput(Reduce(st.rows, c.plan.linkIndex, c.plan.typeIndex), deduped, c.plan.linkIndex)
          && |deduped| <= |st.rows|
          && forall row :: row in deduped ==> row in st.rows)
    && var kept := if c.opts.dedupHost then deduped else st.rows;
       && |res| == |kept|
       && forall i :: 0 <= i < |res| ==> res[i] == Emitted(c, kept[i], st.active, i)
  }

  /**
   * What HostSearch answers after its page loop: on cancellation or a failed
   * request the rows gathered so far as they are; on a filter error no rows;
   * otherwise (a server errmsg included, which is also returned) the
   * processed rows.
   */
  ghost predicate Finished(c: Config, out: Outcome, res: seq<Row>, err: Option<string>, deduped: seq<Row>)
    requires ValidConfig(c) && Inv(c, out.st)
  {
    match out.stop
    case Cancelled => res == out.st.rows && err == Some(Canceled)
    case FetchError(m) => res == out.st.rows && err == Some(m)
    case FilterError(m) => res == [] && err == Some(m)
    case ServerError(m) => err == Some(m) && Processed(c, out.st, res, deduped)
    case _ => err == None && Processed(c, out.st, res, deduped)
  }

  /** The processed rows all have the caller's width, plus one with IsActive. */
  lemma ProcessedWidth(c: Config, st: Ingest, res: seq<Row>, deduped: seq<Row>)
    requires ValidConfig(c) && Inv(c, st) && Processed(c, st, res, deduped)
    ensures forall row :: row in res ==> |row| == c.plan.rawFieldSize + (if c.opts.isActive > 0 then 1 else 0)
  {
    var kept := if c.opts.dedupHost then deduped else st.rows;
    forall row | row in res
      ensures |row| == c.plan.rawFieldSize + (if c.opts.isActive > 0 then 1 else 0)
    {
      var i :| 0 <= i < |res| && res[i] == row;
      assert kept[i] in kept;
      EmittedShape(c, kept[i], st.active, i);
    }
  }

  /**
   * IsActive without DedupHost: the flag of answered row i is the probe's
   * answer for the link of gathered row i, and a status_code column the
   * caller asked for holds the probe's status code.
   */
  lemma FlagsAreProbes(c: Config, st: Ingest, res: seq<Row>, deduped: seq<Row>)
    requires ValidConfig(c) && Inv(c, st) && Processed(c, st, res, deduped)
    requires c.opts.isActive > 0 && !c.opts.dedupHost
    ensures forall i :: 0 <= i < |res| ==>
      var resp := c.probe(Cell(st.rows[i], c.plan.linkIndex), c.opts.isActive);
      && |res[i]| == c.plan.rawFieldSize + 1
      && res[i][c.plan.rawFieldSize] == BoolText(resp.isActive)
      && (0 <= c.plan.codeIndex < c.plan.rawFieldSize ==> res[i][c.plan.codeIndex] == resp.statusCode)
  {
    forall i | 0 <= i < |res|
      ensures var resp := c.probe(Cell(st.rows[i], c.plan.linkIndex), c.opts.isActive);
        && |res[i]| == c.plan.rawFieldSize + 1
        && res[i][c.plan.rawFieldSize] == BoolText(resp.isActive)
        && (0 <= c.plan.codeIndex < c.plan.rawFieldSize ==> res[i][c.plan.codeIndex] == resp.statusCode)
    {
      assert st.rows[i] in st.rows;
      EmittedShape(c, st.rows[i], st.active, i);
      assert Probed(c, st.rows[i], st.active[i]);
    }
  }

  /** Post-processed rows, flagged when IsActive is set, are the emitted rows. */
  lemma EmittedRows(c: Config, kept: seq<Row>, active: seq<string>, post: seq<Row>, res: seq<Row>)
    requires ValidConfig(c) && forall row :: row in kept ==> |row| == |c.plan.fields|
    requires c.opts.isActive > 0 ==> |kept| <= |active|
    requires |post| == |kept| && |res| == |kept|
    requires forall i :: 0 <= i < |kept| ==>
      post[i] == ProcessedRow(kept[i], |c.plan.fields|, c.plan.hostIndex, c.plan.protocolIndex, c.plan.rawFieldSize,
                              c.opts.fixUrl, c.opts.urlPrefix)
    requires c.opts.isActive > 0 ==> forall i :: 0 <= i < |kept| ==> res[i] == post[i] + [active[i]]
    requires c.opts.isActive <= 0 ==> res == post
    ensures forall i :: 0 <= i < |res| ==> res[i] == Emitted(c, kept[i], active, i)
  {
    forall i | 0 <= i < |res| ensures res[i] == Emitted(c, kept[i], active, i) {
      assert kept[i] in kept;
    }
  }

  /** DedupHost, postProcess and the active flags, after the page loop. */
  method Process(c: Config, st: Ingest) returns (res: seq<Row>, ghost deduped: seq<Row>)
    requires ValidConfig(c) && Inv(c, st)
    ensures Processed(c, st, res, deduped)
  {
    deduped := [];
    var kept := st.rows;
    if c.opts.dedupHost {
      kept := DedupHost(st.rows, c.plan.linkIndex, c.plan.typeIndex);
      DedupRowsFromInput(st.rows, c.plan.linkIndex, c.plan.typeIndex, kept);
      deduped := kept;
    }
    assert forall row :: row in kept ==> |row| == |c.plan.fields|;
    var post := PostProcess(kept, c.plan.fields, c.plan.hostIndex, c.plan.protocolIndex, c.plan.rawFieldSize,
                            c.opts.fixUrl, c.opts.urlPrefix);
    res := post;
    if c.opts.isActive > 0 {
      res := AppendFlags(post, st.active);
    }
    EmittedRows(c, kept, st.active, post, res);
  }

  /** The loop that appends the i-th active flag to the i-th row. */
  method AppendFlags(rows: seq<Row>, active: seq<string>) returns (res: seq<Row>)
    requires |rows| <= |active|
    ensures |res| == |rows|
    ensures forall i :: 0 <= i < |rows| ==> res[i] == rows[i] + [active[i]]
  {
    res := rows;
    var index := 0;
    while index < |res|
      invariant 0 <= index <= |res| == |rows|
      invariant forall i :: 0 <= i < index ==> res[i] == rows[i] + [active[i]]
      invariant forall i :: index <= i < |res| ==> res[i] == rows[i]
    {
      res := res[index := res[index] + [active[index]]];
      index := index + 1;
    }
  }

  /** The part of HostSearch after its page loop, by the reason the loop ended. */
  method Finish(c: Config, out: Outcome) returns (res: seq<Row>, err: Option<string>, ghost deduped: seq<Row>)
    requires ValidConfig(c) && Inv(c, out.st)
    ensures Finished(c, out, res, err, deduped)
  {
    match out.stop {
      case Cancelled => return out.st.rows, Some(Canceled), [];
      case FetchError(m) => return out.st.rows, Some(m), [];
      case FilterError(m) => return [], Some(m), [];
      case ServerError(m) =>
        res, deduped := Process(c, out.st);
        err := Some(m);
      case _ =>
        res, deduped := Process(c, out.st);
        err := None;
    }
  }

  /**
   * HostSearch: the checks before the first request, the page loop, then
   * the processing of the gathered rows. `deduped` is the output of
   * DedupHost, whose order comes from a map and is not fixed.
   */
  method HostSearch(size: int, fields: seq<string>, o: SearchOptions, variables: Result<seq<string>, string>,
                    eval: map<string, string> -> Result<bool, string>, probe: (string, int) -> Probe,
                    freeSize: int, fcoin: int, mode: int, server: seq<Response>, cancelled: nat -> bool)
    returns (res: seq<Row>, err: Option<string>, ghost deduped: seq<Row>)
    requires var s := Prepare(size, fields, o, variables, eval, probe, freeSize, fcoin, mode);
      s.Ok? ==> ServerFits(server, |s.value.config.plan.fields|)
    ensures var s := Prepare(size, fields, o, variables, eval, probe, freeSize, fcoin, mode);
      s.Err? ==> res == [] && err == Some(s.error)
    ensures var s := Prepare(size, fields, o, variables, eval, probe, freeSize, fcoin, mode);
      s.Ok? ==>
        var out := Pages(s.value.config, s.value.size, s.value.perPage, server, cancelled, 1, Start);
        Inv(s.value.config, out.st) && Finished(s.value.config, out, res, err, deduped)
  {
    var s := Prepare(size, fields, o, variables, eval, probe, freeSize, fcoin, mode);
    if s.Err? {
      return [], Some(s.error), [];
    }
    var c := s.value.config;
    var out := Collect(c, s.value.size, s.value.perPage, server, cancelled);
    PagesKeepInv(c, s.value.size, s.value.perPage, server, cancelled, 1, Start);
    res, err, deduped := Finish(c, out);
  }

  // ---------------------------------------------------------------------
  // DumpSearch: cursor paging
  // ---------------------------------------------------------------------

  /** The rows of a results array: arrays as they are, a bare string as a row of one cell, the rest skipped. */
  function RowsOf(items: seq<Item>): (rows: seq<Row>)
    ensures |rows| <= |items|
  {
    if items == [] then []
    else
      var init := RowsOf(items[..|items| - 1]);
      match items[|items| - 1]
      case Cells(cells) => init + [cells]
      case Bare(v) => init + [[v]]
      case Other => init
  }

  /** Elements of a given width give rows of that width. */
  lemma {:induction false} RowsOfWidth(items: seq<Item>, width: nat)
    requires forall item :: item in items ==> ItemFits(item, width)
    ensures forall row :: row in RowsOf(items) ==> |row| == width
  {
    if items != [] {
      var init := items[..|items| - 1];
      assert forall item :: item in init ==> item in items;
      assert items[|items| - 1] in items;
      RowsOfWidth(init, width);
    }
  }

  /** The loop of DumpSearch over one results array. */
  method ReadBatch(items: seq<Item>) returns (results: seq<Row>)
    ensures results == RowsOf(items)
  {
    results := [];
    var n := 0;
    while n < |items|
      invariant 0 <= n <= |items|
      invariant results == RowsOf(items[..n])
    {
      assert items[..n + 1][..n] == items[..n];
      match items[n] {
        case Cells(cells) => results := results + [cells];
        case Bare(v) => results := results + [[v]];
        case Other =>
      }
      n := n + 1;
    }
    assert items[..n] == items;
  }

  /** postProcess over a batch, as a function of the rows (the fixUrlCheck result `u` names the columns). */
  function ProcessedBatch(rows: seq<Row>, u: UrlCheck, o: SearchOptions): (r: seq<Row>)
    requires GoodUrlCheck(u, o.fixUrl) && forall row :: row in rows ==> |row| == |u.fields|
    ensures |r| == |rows|
  {
    seq(|rows|, i requires 0 <= i < |rows| =>
      assert rows[i] in rows;
      ProcessedRow(rows[i], |u.fields|, u.hostIndex, u.protocolIndex, u.rawFieldSize, o.fixUrl, o.urlPrefix))
  }

  /** The processed batch of the `k`-th response, which holds a results array. */
  function BatchAt(u: UrlCheck, o: SearchOptions, server: seq<Response>, k: nat): (batch: seq<Row>)
    requires GoodUrlCheck(u, o.fixUrl) && ServerFits(server, |u.fields|)
    requires k < |server| && server[k].Response? && server[k].results.Items?
    ensures |batch| == |RowsOf(server[k].results.items)|
  {
    ServerItemsFit(server, |u.fields|, k);
    RowsOfWidth(server[k].results.items, |u.fields|);
    ProcessedBatch(RowsOf(server[k].results.items), u, o)
  }

  /** What DumpSearch did: its error, the cursor it sent with each request, and the batches it handed on. */
  datatype Dump = Dump(err: Option<string>, sent: seq<string>, delivered: seq<seq<Row>>)

  /** One round of the cursor loop: the call ends with `run`, or it goes on with the next token. */
  datatype Round =
    | Ends(run: Dump)
    | GoesOn(batch: seq<Row>, token: string, fetched: int)

  /**
   * The `k`-th request of the cursor loop, which carries the token `next`,
   * with `fetched` rows handed on before it. The consumer gets the
   * processed batch and the server's total; its error ends the call. The
   * loop goes on only after a full batch with a non-empty `next`, while
   * fewer than allSize rows (when it is positive) were handed on.
   */
  function DumpRound(u: UrlCheck, o: SearchOptions, allSize: int, perPage: int, server: seq<Response>,
                     consume: (seq<Row>, int) -> Option<string>, cancelled: nat -> bool,
                     k: nat, next: string, fetched: int): (r: Round)
    requires GoodUrlCheck(u, o.fixUrl) && ServerFits(server, |u.fields|)
    ensures r.Ends? ==> |r.run.sent| <= 1 && |r.run.delivered| <= |r.run.sent| && (r.run.sent != [] ==> r.run.sent[0] == next)
    ensures r.GoesOn? ==>
      && k < |server| && server[k].Response? && server[k].next == r.token && r.token != ""
      && |r.batch| >= perPage && r.fetched == fetched + |r.batch|
      && (allSize <= 0 || r.fetched < allSize)
    // the error each early end carries, before any batch is handed on
    ensures cancelled(k) ==> r == Ends(Dump(Some(Canceled), [], []))
    ensures !cancelled(k) && k >= |server| ==> r == Ends(Dump(Some(NoResponse), [next], []))
    ensures !cancelled(k) && k < |server| && server[k].FetchFailed? ==> r == Ends(Dump(Some(server[k].msg), [next], []))
    ensures !cancelled(k) && k < |server| && server[k].Response? && |server[k].errmsg| > 0 ==>
              r == Ends(Dump(Some(server[k].errmsg), [next], []))
    ensures !cancelled(k) && k < |server| && server[k].Response? && |server[k].errmsg| == 0
            && (server[k].results == NotArray || server[k].results == Items([])) ==>
              r == Ends(Dump(None, [next], []))
    // a batch was read: the consumer's error ends the call, else it goes on unless a stop test holds
    ensures !cancelled(k) && k < |server| && server[k].Response? && |server[k].errmsg| == 0
            && server[k].results.Items? && server[k].results.items != [] ==>
      var batch := BatchAt(u, o, server, k);
      var e := consume(batch, server[k].size);
      var stop := (allSize > 0 && allSize <= fetched + |batch|) || |batch| < perPage || server[k].next == "";
      && (e.Some? ==> r == Ends(Dump(e, [next], [batch])))
      && (e.None? && stop ==> r == Ends(Dump(None, [next], [batch])))
      && (e.None? && !stop ==> r == GoesOn(batch, server[k].next, fetched + |batch|))
  {
    if cancelled(k) then Ends(Dump(Some(Canceled), [], []))
    else if k >= |server| then Ends(Dump(Some(NoResponse), [next], []))
    else match server[k]
      case FetchFailed(m) => Ends(Dump(Some(m), [next], []))
      case Response(errmsg, results, total, token) =>
        if |errmsg| > 0 then Ends(Dump(Some(errmsg), [next], []))
        else match results
          case NotArray => Ends(Dump(None, [next], []))
          case Items(items) =>
            if |items| == 0 then Ends(Dump(None, [next], []))
            else
              var batch := BatchAt(u, o, server, k);
              match consume(batch, total)
              case Some(e) => Ends(Dump(Some(e), [next], [batch]))
              case None =>
                var f := fetched + |batch|;
                if (allSize > 0 && allSize <= f) || |batch| < perPage || token == "" then Ends(Dump(None, [next], [batch]))
                else GoesOn(batch, token, f)
  }

  /** The cursor loop from the `k`-th request on. */
  function DumpFrom(u: UrlCheck, o: SearchOptions, allSize: int, perPage: int, server: seq<Response>,
                    consume: (seq<Row>, int) -> Option<string>, cancelled: nat -> bool,
                    k: nat, next: string, fetched: int): (d: Dump)
    requires GoodUrlCheck(u, o.fixUrl) && ServerFits(server, |u.fields|)
    ensures |d.delivered| <= |d.sent|
    ensures d.sent != [] ==> d.sent[0] == next
    decreases |server| - k
  {
    match DumpRound(u, o, allSize, perPage, server, consume, cancelled, k, next, fetched)
    case Ends(run) => run
    case GoesOn(batch, token, f) =>
      var rest := DumpFrom(u, o, allSize, perPage, server, consume, cancelled, k + 1, token, f);
      Dump(rest.err, [next] + rest.sent, [batch] + rest.delivered)
  }

  /** One unfolding of the cursor loop: it ends with this round's run, or this round's batch heads the rest. */
  lemma DumpFromStep(u: UrlCheck, o: SearchOptions, allSize: int, perPage: int, server: seq<Response>,
                     consume: (seq<Row>, int) -> Option<string>, cancelled: nat -> bool,
                     k: nat, next: string, fetched: int, sent: seq<string>, delivered: seq<seq<Row>>)
    requires GoodUrlCheck(u, o.fixUrl) && ServerFits(server, |u.fields|)
    ensures var r := DumpRound(u, o, allSize, perPage, server, consume, cancelled, k, next, fetched);
      var d := DumpFrom(u, o, allSize, perPage, server, consume, cancelled, k, next, fetched);
      && (r.Ends? ==> d == r.run)
      && (r.GoesOn? ==>
            var rest := DumpFrom(u, o, allSize, perPage, server, consume, cancelled, k + 1, r.token, r.fetched);
            Dump(d.err, sent + d.sent, delivered + d.delivered)
            == Dump(rest.err, (sent + [next]) + rest.sent, (delivered + [r.batch]) + rest.delivered))
  {
    var r := DumpRound(u, o, allSize, perPage, server, consume, cancelled, k, next, fetched);
    if r.GoesOn? {
      var rest := DumpFrom(u, o, allSize, perPage, server, consume, cancelled, k + 1, r.token, r.fetched);
      assert sent + ([next] + rest.sent) == (sent + [next]) + rest.sent;
      assert delivered + ([r.batch] + rest.delivered) == (delivered + [r.batch]) + rest.delivered;
    }
  }

  /** The number of rows in a list of batches. */
  function Total(batches: seq<seq<Row>>): nat
  {
    if batches == [] then 0 else |batches[0]| + Total(batches[1..])
  }

  /**
   * The cursor is followed by a run `d` that started with the `k`-th
   * request, carrying `next`, after `fetched` rows: the first request
   * carries the given token, and every later one the `next` of the response
   * before it, which was not empty. A request that follows another came
   * after a full batch, and only while fewer than allSize rows (when it is
   * positive) were handed on.
   */
  predicate FollowsCursor(d: Dump, server: seq<Response>, k: nat, next: string, fetched: int, perPage: int,
                          allSize: int)
  {
    && |d.sent| - 1 <= |d.delivered| <= |d.sent|
    && (d.sent != [] ==> d.sent[0] == next)
    && forall j :: 0 <= j < |d.sent| - 1 ==> FollowedAt(d, server, k, fetched, perPage, allSize, j)
  }

  /** The `j`-th request of the run `d` was followed by another one, with the token of its response. */
  predicate FollowedAt(d: Dump, server: seq<Response>, k: nat, fetched: int, perPage: int, allSize: int, j: nat)
    requires j < |d.sent| - 1 && j < |d.delivered|
  {
    && k + j < |server| && server[k + j].Response? && server[k + j].next != ""
    && d.sent[j + 1] == server[k + j].next
    && |d.delivered[j]| >= perPage
    && (allSize <= 0 || fetched + Total(d.delivered[..j + 1]) < allSize)
  }

  lemma {:induction false} DumpFollowsCursor(u: UrlCheck, o: SearchOptions, allSize: int, perPage: int,
                                             server: seq<Response>, consume: (seq<Row>, int) -> Option<string>,
                                             cancelled: nat -> bool, k: nat, next: string, fetched: int)
    requires GoodUrlCheck(u, o.fixUrl) && ServerFits(server, |u.fields|)
    ensures FollowsCursor(DumpFrom(u, o, allSize, perPage, server, consume, cancelled, k, next, fetched),
                          server, k, next, fetched, perPage, allSize)
    decreases |server| - k
  {
    var d := DumpFrom(u, o, allSize, perPage, server, consume, cancelled, k, next, fetched);
    var r := DumpRound(u, o, allSize, perPage, server, consume, cancelled, k, next, fetched);
    if r.GoesOn? {
      var batch := r.batch;
      DumpFollowsCursor(u, o, allSize, perPage, server, consume, cancelled, k + 1, r.token, r.fetched);
      var rest := DumpFrom(u, o, allSize, perPage, server, consume, cancelled, k + 1, r.token, r.fetched);
      assert FollowsCursor(rest, server, k + 1, r.token, r.fetched, perPage, allSize);
      assert d == Dump(rest.err, [next] + rest.sent, [batch] + rest.delivered);
      assert |d.sent| == 1 + |rest.sent| && |d.delivered| == 1 + |rest.delivered|;
      forall j | 0 <= j < |d.sent| - 1
        ensures FollowedAt(d, server, k, fetched, perPage, allSize, j)
      {
        if j == 0 {
          assert d.delivered[..1] == [batch];
          assert Total([batch]) == |batch| + Total([]);
        } else {
          var i := j - 1;
          assert FollowedAt(rest, server, k + 1, r.fetched, perPage, allSize, i);
          assert k + 1 + i == k + j && d.sent[j + 1] == rest.sent[i + 1] && d.delivered[j] == rest.delivered[i];
          assert d.delivered[..j + 1] == [batch] + rest.delivered[..i + 1];
          assert ([batch] + rest.delivered[..i + 1])[1..] == rest.delivered[..i + 1];
        }
      }
      assert FollowsCursor(d, server, k, next, fetched, perPage, allSize);
    }
  }

  /** One request of DumpSearch: the fetch, the batch, the consumer and the three stop tests. */
  method DumpRequest(u: UrlCheck, o: SearchOptions, allSize: int, batchSize: int, server: seq<Response>,
                     consume: (seq<Row>, int) -> Option<string>, cancelled: nat -> bool,
                     k: nat, next: string, fetchedSize: int) returns (r: Round)
    requires GoodUrlCheck(u, o.fixUrl) && ServerFits(server, |u.fields|)
    ensures r == DumpRound(u, o, allSize, batchSize, server, consume, cancelled, k, next, fetchedSize)
  {
    if cancelled(k) {
      return Ends(Dump(Some(Canceled), [], []));
    }
    if k >= |server| {
      return Ends(Dump(Some(NoResponse), [next], []));
    }
    var hr := server[k];
    if hr.FetchFailed? {
      return Ends(Dump(Some(hr.msg), [next], []));
    }
    if |hr.errmsg| > 0 {
      return Ends(Dump(Some(hr.errmsg), [next], []));
    }
    if hr.results.NotArray? || |hr.results.items| == 0 {
      return Ends(Dump(None, [next], []));
    }
    var items := hr.results.items;
    var results := ReadBatch(items);
    assert forall item :: item in items ==> ItemFits(item, |u.fields|);
    RowsOfWidth(items, |u.fields|);
    results := PostProcess(results, u.fields, u.hostIndex, u.protocolIndex, u.rawFieldSize, o.fixUrl, o.urlPrefix);
    assert results == BatchAt(u, o, server, k);
    var e := consume(results, hr.size);
    if e.Some? {
      return Ends(Dump(e, [next], [results]));
    }
    var fetched := fetchedSize + |results|;
    if allSize > 0 && allSize <= fetched {
      return Ends(Dump(None, [next], [results]));
    }
    if |results| < batchSize {
      return Ends(Dump(None, [next], [results]));
    }
    if hr.next == "" {
      return Ends(Dump(None, [next], [results]));
    }
    return GoesOn(results, hr.next, fetched);
  }

  /**
   * DumpSearch: the batch size and the columns are checked before any
   * request; then the cursor loop runs from an empty token.
   */
  method DumpSearch(allSize: int, batchSize: int, fields: seq<string>, o: SearchOptions, server: seq<Response>,
                    consume: (seq<Row>, int) -> Option<string>, cancelled: nat -> bool)
    returns (err: Option<string>, sent: seq<string>, delivered: seq<seq<Row>>)
    requires FixUrlCheck(fields, o.fixUrl).Ok? ==> ServerFits(server, |FixUrlCheck(fields, o.fixUrl).value.fields|)
    ensures !(1 <= batchSize <= MaxBatchSize) ==> err == Some(BadBatchSize) && sent == [] && delivered == []
    ensures 1 <= batchSize <= MaxBatchSize && FixUrlCheck(fields, o.fixUrl).Err? ==>
              err == Some(NoHostWithFixUrl) && sent == [] && delivered == []
    ensures 1 <= batchSize <= MaxBatchSize && FixUrlCheck(fields, o.fixUrl).Ok? ==>
              Dump(err, sent, delivered) ==
              DumpFrom(FixUrlCheck(fields, o.fixUrl).value, o, allSize, batchSize, server, consume, cancelled, 0, "", 0)
  {
    if batchSize < 1 || batchSize > MaxBatchSize {
      return Some(BadBatchSize), [], [];
    }
    var check := FixUrlCheck(fields, o.fixUrl);
    if check.Err? {
      return Some(check.error), [], [];
    }
    var u := check.value;
    ghost var whole := DumpFrom(u, o, allSize, batchSize, server, consume, cancelled, 0, "", 0);
    var next := "";
    var fetchedSize := 0;
    var k := 0;
    sent, delivered := [], [];
    while true
      invariant 0 <= k <= |server|
      invariant var d := DumpFrom(u, o, allSize, batchSize, server, consume, cancelled, k, next, fetchedSize);
        whole == Dump(d.err, sent + d.sent, delivered + d.delivered)
      decreases |server| - k
    {
      var r := DumpRequest(u, o, allSize, batchSize, server, consume, cancelled, k, next, fetchedSize);
      DumpFromStep(u, o, allSize, batchSize, server, consume, cancelled, k, next, fetchedSize, sent, delivered);
      if r.Ends? {
        return r.run.err, sent + r.run.sent, delivered + r.run.delivered;
      }
      sent, delivered := sent + [next], delivered + [r.batch];
      next, fetchedSize, k := r.token, r.fetched, k + 1;
    }
  }
}
