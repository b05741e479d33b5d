/**
 * The per-row filters that HostSearch applies while it reads each page
 * (host.go): IP dedup, the wildcard cap, the filter expression and the
 * reachability probe.
 */
module RowProcessor {
  import opened Wrappers
  import opened FieldPlanner
  import opened PostProcessor

  /** One element of the `results` array of a response. */
  datatype Item =
    | Cells(cells: seq<string>)  // an array of strings: a row of the requested fields
    | Bare(value: string)        // a bare string: a row of one field
    | Other                      // anything else, which the loop skips

  /** The answer of the reachability probe (DoHttpCheck). */
  datatype Probe = Probe(isActive: bool, statusCode: string)

  /**
   * What one HostSearch call reads its rows with: the plan, the options, the
   * variables of the filter expression, the expression itself (compiled and
   * run on an environment of the bound cells) and the probe.
   */
  datatype Config = Config(
    plan: Plan,
    opts: SearchOptions,
    vars: seq<string>,
    eval: map<string, string> -> Result<bool, string>,
    probe: (string, int) -> Probe)

  predicate ValidConfig(c: Config)
  {
    ValidPlan(c.plan, c.opts, c.vars)
  }

  /** The server answers with rows of the requested width; bare strings only for one field. */
  predicate ItemFits(item: Item, width: nat)
  {
    match item
    case Cells(cells) => |cells| == width
    case Bare(_) => width == 1
    case Other => true
  }

  /** The state HostSearch keeps across all pages of one call. */
  datatype Ingest = Ingest(
    seenIPs: set<string>,          // uniqIPMap
    wildcard: map<string, int>,    // dedupCnameMap
    rows: seq<Row>,                // res
    active: seq<string>)           // activeSlice

  const Start := Ingest({}, map[], [], [])

  /** Cell `i` of `row`, or "" when there is none. */
  function Cell(row: Row, i: int): string
  {
    if 0 <= i < |row| then row[i] else ""
  }

  /** The counter of a key, 0 before its first occurrence. */
  function Seen(m: map<string, int>, key: string): int
  {
    if key in m then m[key] else 0
  }

  /** The wildcard key ip:port:domain:title:fid of a row. */
  function WildcardKey(p: Plan, row: Row): string
  {
    Cell(row, p.ipIndex) + ":" + Cell(row, p.portIndex) + ":" + Cell(row, p.domainIndex) + ":"
      + Cell(row, p.titleIndex) + ":" + Cell(row, p.fidIndex)
  }

  /** The environment of the filter expression: each variable bound to its cell. */
  function FilterEnv(p: Plan, row: Row): map<string, string>
  {
    map v | v in p.filterIndex :: Cell(row, p.filterIndex[v])
  }

  /** fmt's %t */
  function BoolText(b: bool): string
  {
    if b then "true" else "false"
  }

  /** The ip set once a row's ip is recorded (UniqByIP). */
  function SeenAfter(c: Config, st: Ingest, row: Row): set<string>
  {
    if c.opts.uniqByIP then st.seenIPs + {Cell(row, c.plan.ipIndex)} else st.seenIPs
  }

  /** The wildcard counters once a row's key is counted (DeWildcard). */
  function CountedAfter(c: Config, st: Ingest, row: Row): map<string, int>
  {
    if c.opts.deWildcard > 0 then
      var key := WildcardKey(c.plan, row);
      st.wildcard[key := Seen(st.wildcard, key) + 1]
    else st.wildcard
  }

  /** A row that passed every filter: probed when IsActive is set, then appended. */
  function Accept(c: Config, st: Ingest, seen: set<string>, wildcard: map<string, int>, row: Row): (r: Ingest)
    ensures r.seenIPs == seen && r.wildcard == wildcard
    ensures |r.rows| == |st.rows| + 1 && st.rows <= r.rows
  {
    if c.opts.isActive > 0 then
      var resp := c.probe(Cell(row, c.plan.linkIndex), c.opts.isActive);
      var probed := if 0 <= c.plan.codeIndex < |row| then row[c.plan.codeIndex := resp.statusCode] else row;
      Ingest(seen, wildcard, st.rows + [probed], st.active + [BoolText(resp.isActive)])
    else Ingest(seen, wildcard, st.rows + [row], st.active)
  }

  /** A row gets past the ip check and the wildcard cap. */
  predicate NotCapped(c: Config, st: Ingest, row: Row)
  {
    && !(c.opts.uniqByIP && Cell(row, c.plan.ipIndex) in st.seenIPs)
    && !(c.opts.deWildcard > 0 && Seen(st.wildcard, WildcardKey(c.plan, row)) > 3)
  }

  /**
   * The body of the loop over one page's results, for one element: a row is
   * dropped when its ip was seen (UniqByIP), when its wildcard key was already
   * counted more than 3 times (DeWildcard; the count is raised before the
   * filter runs), or when the filter expression yields false; an error of the
   * expression aborts the call.
   */
  function Step(c: Config, st: Ingest, item: Item): (r: Result<Ingest, string>)
    ensures r.Ok? ==> |st.rows| <= |r.value.rows| <= |st.rows| + 1 && r.value.rows[..|st.rows|] == st.rows
    ensures item.Other? ==> r == Ok(st)
    ensures item.Cells? && c.opts.uniqByIP && Cell(item.cells, c.plan.ipIndex) in st.seenIPs ==> r == Ok(st)
    ensures item.Cells? && !(c.opts.uniqByIP && Cell(item.cells, c.plan.ipIndex) in st.seenIPs)
            && c.opts.deWildcard > 0 && Seen(st.wildcard, WildcardKey(c.plan, item.cells)) > 3 ==>
              r == Ok(st.(seenIPs := SeenAfter(c, st, item.cells)))
    ensures item.Cells? && NotCapped(c, st, item.cells) && |c.opts.filter| > 0
            && c.eval(FilterEnv(c.plan, item.cells)) == Ok(false) ==>
              r == Ok(Ingest(SeenAfter(c, st, item.cells), CountedAfter(c, st, item.cells), st.rows, st.active))
    ensures item.Cells? && NotCapped(c, st, item.cells)
            && (|c.opts.filter| == 0 || c.eval(FilterEnv(c.plan, item.cells)) == Ok(true)) ==>
              r == Ok(Accept(c, st, SeenAfter(c, st, item.cells), CountedAfter(c, st, item.cells), item.cells))
    ensures item.Bare? && !(c.opts.uniqByIP && c.plan.ipIndex == 0 && item.value in st.seenIPs) ==>
              r.Ok? && r.value.rows == st.rows + [[item.value]]
    ensures r.Err? <==> item.Cells? && NotCapped(c, st, item.cells) && |c.opts.filter| > 0
                        && c.eval(FilterEnv(c.plan, item.cells)).Err?
    ensures r.Err? ==> r.error == c.eval(FilterEnv(c.plan, item.cells)).error
  {
    match item
    case Other => Ok(st)
    case Bare(v) =>
      var checkIP := c.opts.uniqByIP && c.plan.ipIndex == 0;
      if checkIP && v in st.seenIPs then Ok(st)
      else
        var seen := if checkIP then st.seenIPs + {v} else st.seenIPs;
        var active := if c.opts.isActive > 0 && c.plan.linkIndex == 0
                      then st.active + [BoolText(c.probe(v, c.opts.isActive).isActive)] else st.active;
        Ok(Ingest(seen, st.wildcard, st.rows + [[v]], active))
    case Cells(row) =>
      if c.opts.uniqByIP && Cell(row, c.plan.ipIndex) in st.seenIPs then Ok(st)
      else if c.opts.deWildcard > 0 && Seen(st.wildcard, WildcardKey(c.plan, row)) > 3 then
        Ok(st.(seenIPs := SeenAfter(c, st, row)))
      else
        var seen, wildcard := SeenAfter(c, st, row), CountedAfter(c, st, row);
        if |c.opts.filter| > 0 then
          match c.eval(FilterEnv(c.plan, row))
          case Err(e) => Err(e)
          case Ok(matched) =>
            if matched then Ok(Accept(c, st, seen, wildcard, row))
            else Ok(Ingest(seen, wildcard, st.rows, st.active))
        else Ok(Accept(c, st, seen, wildcard, row))
  }

  /** The state after reading `items` in order, or the first error of the filter expression. */
  function IngestAll(c: Config, st: Ingest, items: seq<Item>): (r: Result<Ingest, string>)
    ensures r.Err? ==> |c.opts.filter| > 0
    ensures r.Err? ==> exists i :: 0 <= i < |items| && items[i].Cells? && c.eval(FilterEnv(c.plan, items[i].cells)) == Err(r.error)
  {
    if items == [] then Ok(st)
    else
      match IngestAll(c, st, items[..|items| - 1])
      case Err(e) => Err(e)
      case Ok(s) => Step(c, s, items[|items| - 1])
  }

  /** How many rows carry a wildcard key. */
  function KeyCount(p: Plan, rows: seq<Row>, key: string): nat
  {
    if rows == [] then 0
    else KeyCount(p, rows[..|rows| - 1], key) + (if WildcardKey(p, rows[|rows| - 1]) == key then 1 else 0)
  }

  /** Every row has one cell per effective field. */
  ghost predicate WidthInv(c: Config, rows: seq<Row>)
  {
    forall r :: r in rows ==> |r| == |c.plan.fields|
  }

  /** UniqByIP: every kept ip was recorded, and no two kept rows share one. */
  ghost predicate UniqInv(rows: seq<Row>, seen: set<string>, i: int)
  {
    && (forall k :: 0 <= k < |rows| ==> Cell(rows[k], i) in seen)
    && (forall k, l :: 0 <= k < l < |rows| ==> Cell(rows[k], i) != Cell(rows[l], i))
  }

  /** DeWildcard: no more rows per key than its counter, and no counter above 4. */
  ghost predicate WildInv(p: Plan, rows: seq<Row>, wildcard: map<string, int>)
  {
    forall key :: KeyCount(p, rows, key) <= Seen(wildcard, key) <= 4
  }

  /** The invariant of the ingestion state. */
  ghost predicate Inv(c: Config, st: Ingest)
  {
    && WidthInv(c, st.rows)
    && (c.opts.uniqByIP ==> UniqInv(st.rows, st.seenIPs, c.plan.ipIndex))
    && (c.opts.deWildcard > 0 ==> WildInv(c.plan, st.rows, st.wildcard))
    && (c.opts.isActive > 0 ==> ProbeInv(c, st.rows, st.active))
  }

  /** `flag` and the status code cell of `row` are the probe's answer for the row's link. */
  predicate Probed(c: Config, row: Row, flag: string)
  {
    var resp := c.probe(Cell(row, c.plan.linkIndex), c.opts.isActive);
    flag == BoolText(resp.isActive) && Cell(row, c.plan.codeIndex) == resp.statusCode
  }

  /** IsActive: one flag per row, flag i and the code cell of row i from the probe of row i. */
  ghost predicate ProbeInv(c: Config, rows: seq<Row>, active: seq<string>)
  {
    |active| == |rows| && forall i :: 0 <= i < |rows| ==> Probed(c, rows[i], active[i])
  }

  /** A row the probe rewrote keeps every cell but the status code. */
  lemma ProbedKeeps(c: Config, st: Ingest, seen: set<string>, wildcard: map<string, int>, row: Row)
    requires ValidConfig(c) && |row| == |c.plan.fields|
    ensures var a := Accept(c, st, seen, wildcard, row);
      && a.seenIPs == seen && a.wildcard == wildcard
      && |a.rows| == |st.rows| + 1 && a.rows[..|st.rows|] == st.rows
      && |a.rows[|st.rows|]| == |row|
      && (c.opts.uniqByIP || c.opts.deWildcard > 0 ==> Cell(a.rows[|st.rows|], c.plan.ipIndex) == Cell(row, c.plan.ipIndex))
      && (c.opts.deWildcard > 0 ==> WildcardKey(c.plan, a.rows[|st.rows|]) == WildcardKey(c.plan, row))
      && (c.opts.isActive > 0 ==>
            var resp := c.probe(Cell(row, c.plan.linkIndex), c.opts.isActive);
            && a.active == st.active + [BoolText(resp.isActive)]
            && Cell(a.rows[|st.rows|], c.plan.codeIndex) == resp.statusCode
            && Cell(a.rows[|st.rows|], c.plan.linkIndex) == Cell(row, c.plan.linkIndex)
            && (forall j :: 0 <= j < |row| && j != c.plan.codeIndex ==> a.rows[|st.rows|][j] == row[j])
            && Probed(c, a.rows[|st.rows|], a.active[|st.active|]))
      && (c.opts.isActive <= 0 ==> a.active == st.active && a.rows[|st.rows|] == row)
  {
  }

  lemma KeyCountSnoc(p: Plan, rows: seq<Row>, row: Row, key: string)
    ensures KeyCount(p, rows + [row], key) == KeyCount(p, rows, key) + (if WildcardKey(p, row) == key then 1 else 0)
  {
    assert (rows + [row])[..|rows|] == rows;
  }

  /** Bare strings only come with a single field, so no option that needs two columns is set. */
  lemma BareMeansOneField(c: Config)
    requires ValidConfig(c) && |c.plan.fields| == 1
    ensures c.opts.deWildcard <= 0 && c.opts.isActive <= 0
    ensures c.opts.uniqByIP ==> c.plan.ipIndex == 0
  {
  }

  /** Appending a row whose ip was not seen keeps the ips pairwise distinct. */
  lemma UniqSnoc(rows: seq<Row>, seen: set<string>, i: int, row: Row)
    requires UniqInv(rows, seen, i) && Cell(row, i) !in seen
    ensures UniqInv(rows + [row], seen + {Cell(row, i)}, i)
  {
  }

  /** Counting a kept row against a counter that was just raised keeps the wildcard bound. */
  lemma WildSnoc(p: Plan, rows: seq<Row>, wildcard: map<string, int>, row: Row)
    requires WildInv(p, rows, wildcard) && Seen(wildcard, WildcardKey(p, row)) <= 3
    ensures WildInv(p, rows + [row], wildcard[WildcardKey(p, row) := Seen(wildcard, WildcardKey(p, row)) + 1])
  {
    var w := wildcard[WildcardKey(p, row) := Seen(wildcard, WildcardKey(p, row)) + 1];
    forall k ensures KeyCount(p, rows + [row], k) <= Seen(w, k) <= 4 {
      KeyCountSnoc(p, rows, row, k);
    }
  }

  /** Raising a counter without keeping the row keeps the wildcard bound. */
  lemma WildBump(p: Plan, rows: seq<Row>, wildcard: map<string, int>, key: string)
    requires WildInv(p, rows, wildcard) && Seen(wildcard, key) <= 3
    ensures WildInv(p, rows, wildcard[key := Seen(wildcard, key) + 1])
  {
    var w := wildcard[key := Seen(wildcard, key) + 1];
    forall k ensures KeyCount(p, rows, k) <= Seen(w, k) <= 4 {
    }
  }

  lemma BareKeepsInv(c: Config, st: Ingest, v: string)
    requires ValidConfig(c) && |c.plan.fields| == 1 && Inv(c, st)
    ensures Inv(c, Step(c, st, Bare(v)).value)
  {
    BareMeansOneField(c);
    var s := Step(c, st, Bare(v)).value;
    if s != st && c.opts.uniqByIP {
      UniqSnoc(st.rows, st.seenIPs, c.plan.ipIndex, [v]);
    }
  }

  /** Recording a new ip and counting a key below the cap keep the invariant, with or without the row. */
  lemma CountKeepsInv(c: Config, st: Ingest, row: Row)
    requires ValidConfig(c) && Inv(c, st)
    requires !(c.opts.uniqByIP && Cell(row, c.plan.ipIndex) in st.seenIPs)
    requires !(c.opts.deWildcard > 0 && Seen(st.wildcard, WildcardKey(c.plan, row)) > 3)
    ensures Inv(c, Ingest(SeenAfter(c, st, row), CountedAfter(c, st, row), st.rows, st.active))
  {
    if c.opts.deWildcard > 0 {
      WildBump(c.plan, st.rows, st.wildcard, WildcardKey(c.plan, row));
    }
  }

  lemma AcceptKeepsInv(c: Config, st: Ingest, row: Row)
    requires ValidConfig(c) && |row| == |c.plan.fields| && Inv(c, st)
    requires !(c.opts.uniqByIP && Cell(row, c.plan.ipIndex) in st.seenIPs)
    requires !(c.opts.deWildcard > 0 && Seen(st.wildcard, WildcardKey(c.plan, row)) > 3)
    ensures Inv(c, Accept(c, st, SeenAfter(c, st, row), CountedAfter(c, st, row), row))
  {
    var seen, wildcard := SeenAfter(c, st, row), CountedAfter(c, st, row);
    ProbedKeeps(c, st, seen, wildcard, row);
    var a := Accept(c, st, seen, wildcard, row);
    var newRow := a.rows[|st.rows|];
    var flag := if c.opts.isActive > 0 then a.active[|st.active|] else "";
    assert a.rows == st.rows + [newRow];
    assert c.opts.isActive > 0 ==> a.active == st.active + [flag];
    SnocKeepsInv(c, st, seen, wildcard, newRow, flag, a.active);
  }

  /** Appending a counted, probed row of the planned width keeps the invariant. */
  lemma SnocKeepsInv(c: Config, st: Ingest, seen: set<string>, wildcard: map<string, int>, row: Row,
                     flag: string, active: seq<string>)
    requires ValidConfig(c) && Inv(c, st) && |row| == |c.plan.fields|
    requires c.opts.uniqByIP ==>
      Cell(row, c.plan.ipIndex) !in st.seenIPs && seen == st.seenIPs + {Cell(row, c.plan.ipIndex)}
    requires c.opts.deWildcard > 0 ==>
      var key := WildcardKey(c.plan, row);
      Seen(st.wildcard, key) <= 3 && wildcard == st.wildcard[key := Seen(st.wildcard, key) + 1]
    requires c.opts.isActive > 0 ==> active == st.active + [flag] && Probed(c, row, flag)
    ensures Inv(c, Ingest(seen, wildcard, st.rows + [row], active))
  {
    assert WidthInv(c, st.rows + [row]) by {
      forall r | r in st.rows + [row] ensures |r| == |c.plan.fields| {
        if r !in st.rows { assert r == row; }
      }
    }
    if c.opts.uniqByIP {
      UniqSnoc(st.rows, st.seenIPs, c.plan.ipIndex, row);
    }
    if c.opts.deWildcard > 0 {
      WildSnoc(c.plan, st.rows, st.wildcard, row);
    }
    if c.opts.isActive > 0 {
      ProbeSnoc(c, st.rows, st.active, row, flag);
    }
  }

  lemma ProbeSnoc(c: Config, rows: seq<Row>, active: seq<string>, row: Row, flag: string)
    requires ProbeInv(c, rows, active) && Probed(c, row, flag)
    ensures ProbeInv(c, rows + [row], active + [flag])
  {
  }

  /** One step keeps the invariant. */
  lemma StepKeepsInv(c: Config, st: Ingest, item: Item)
    requires ValidConfig(c) && ItemFits(item, |c.plan.fields|) && Inv(c, st)
    requires Step(c, st, item).Ok?
    ensures Inv(c, Step(c, st, item).value)
  {
    match item
    case Other =>
    case Bare(v) => BareKeepsInv(c, st, v);
    case Cells(row) =>
      if c.opts.uniqByIP && Cell(row, c.plan.ipIndex) in st.seenIPs {
      } else if c.opts.deWildcard > 0 && Seen(st.wildcard, WildcardKey(c.plan, row)) > 3 {
        assert Step(c, st, item).value == st.(seenIPs := SeenAfter(c, st, row));
      } else {
        CountKeepsInv(c, st, row);
        AcceptKeepsInv(c, st, row);
        var seen, wildcard := SeenAfter(c, st, row), CountedAfter(c, st, row);
        assert Step(c, st, item) == Ok(Accept(c, st, seen, wildcard, row))
            || Step(c, st, item) == Ok(Ingest(seen, wildcard, st.rows, st.active));
      }
  }

  /** Reading any sequence of fitting elements keeps the invariant. */
  lemma {:induction false} IngestAllKeepsInv(c: Config, st: Ingest, items: seq<Item>)
    requires ValidConfig(c) && Inv(c, st)
    requires forall item :: item in items ==> ItemFits(item, |c.plan.fields|)
    requires IngestAll(c, st, items).Ok?
    ensures Inv(c, IngestAll(c, st, items).value)
  {
    if items != [] {
      var init := items[..|items| - 1];
      assert forall item :: item in init ==> item in items;
      IngestAllKeepsInv(c, st, init);
      StepKeepsInv(c, IngestAll(c, st, init).value, items[|items| - 1]);
    }
  }

  /**
   * The wildcard cap on its own: of `n` copies of one row, the first four
   * are kept and every later one is dropped, and the key's counter stops at 4.
   */
  lemma {:induction false} WildcardKeepsFour(c: Config, row: Row, n: nat)
    requires c.opts.deWildcard > 0 && !c.opts.uniqByIP && |c.opts.filter| == 0 && c.opts.isActive <= 0
    ensures var r := IngestAll(c, Start, seq(n, _ => Cells(row)));
      var kept := if n < 4 then n else 4;
      r.Ok? && r.value.rows == seq(kept, _ => row) && Seen(r.value.wildcard, WildcardKey(c.plan, row)) == kept
  {
    if n > 0 {
      var items := seq(n, _ => Cells(row));
      assert items[..n - 1] == seq(n - 1, _ => Cells(row));
      WildcardKeepsFour(c, row, n - 1);
      var before := IngestAll(c, Start, items[..n - 1]).value;
      var k := if n - 1 < 4 then n - 1 else 4;
      assert items[n - 1] == Cells(row);
      if k <= 3 {
        assert Step(c, before, Cells(row)) == Ok(Accept(c, before, before.seenIPs, CountedAfter(c, before, row), row));
        assert seq(k, _ => row) + [row] == seq(k + 1, _ => row);
      }
    }
  }

  /** Reading a page only appends rows: the rows of earlier pages stay as they were. */
  lemma {:induction false} IngestAllGrows(c: Config, st: Ingest, items: seq<Item>)
    requires IngestAll(c, st, items).Ok?
    ensures st.rows <= IngestAll(c, st, items).value.rows
    ensures |IngestAll(c, st, items).value.rows| <= |st.rows| + |items|
  {
    if items != [] {
      var init := items[..|items| - 1];
      IngestAllGrows(c, st, init);
      var mid := IngestAll(c, st, init).value;
      var r := Step(c, mid, items[|items| - 1]).value;
      assert mid.rows <= r.rows;
    }
  }

  /** Once the filter expression failed, reading more elements keeps that error. */
  lemma {:induction false} ErrorSticks(c: Config, st: Ingest, items: seq<Item>, n: nat)
    requires n <= |items| && IngestAll(c, st, items[..n]).Err?
    ensures IngestAll(c, st, items) == IngestAll(c, st, items[..n])
    decreases |items| - n
  {
    if n < |items| {
      assert items[..n + 1][..n] == items[..n];
      ErrorSticks(c, st, items, n + 1);
    } else {
      assert items[..n] == items;
    }
  }

  /**
   * The loop over the results array of one page, updating the ip set, the
   * wildcard counters, the rows and the active flags; an error of the filter
   * expression ends it.
   */
  method IngestPage(c: Config, st: Ingest, items: seq<Item>) returns (r: Result<Ingest, string>)
    requires ValidConfig(c)
    requires forall item :: item in items ==> ItemFits(item, |c.plan.fields|)
    ensures r == IngestAll(c, st, items)
  {
    var cur := st;
    var n := 0;
    while n < |items|
      invariant 0 <= n <= |items|
      invariant IngestAll(c, st, items[..n]) == Ok(cur)
    {
      assert items[..n + 1][..n] == items[..n];
      assert items[n] in items;
      var next := IngestItem(c, cur, items[n]);
      n := n + 1;
      if next.Err? {
        ErrorSticks(c, st, items, n);
        return next;
      }
      cur := next.value;
    }
    assert items[..n] == items;
    r := Ok(cur);
  }

  /** The body of that loop for one element, in the order of the source's checks. */
  method IngestItem(c: Config, st: Ingest, item: Item) returns (r: Result<Ingest, string>)
    requires ValidConfig(c) && ItemFits(item, |c.plan.fields|)
    ensures r == Step(c, st, item)
  {
    var uniqIPMap, dedupCnameMap, res, activeSlice := st.seenIPs, st.wildcard, st.rows, st.active;
    match item {
      case Other =>
      case Cells(newSlice) =>
        if c.opts.uniqByIP {
          if newSlice[c.plan.ipIndex] in uniqIPMap {
            return Ok(st);
          }
          uniqIPMap := uniqIPMap + {newSlice[c.plan.ipIndex]};
        }
        if c.opts.deWildcard > 0 {
          var key := newSlice[c.plan.ipIndex] + ":" + newSlice[c.plan.portIndex] + ":" + newSlice[c.plan.domainIndex]
                     + ":" + newSlice[c.plan.titleIndex] + ":" + newSlice[c.plan.fidIndex];
          assert key == WildcardKey(c.plan, newSlice);
          if key in dedupCnameMap && dedupCnameMap[key] > 3 {
            return Ok(st.(seenIPs := uniqIPMap));
          }
          dedupCnameMap := dedupCnameMap[key := Seen(dedupCnameMap, key) + 1];
        }
        if |c.opts.filter| > 0 {
          var env := map v | v in c.plan.filterIndex :: newSlice[c.plan.filterIndex[v]];
          assert env == FilterEnv(c.plan, newSlice);
          var matched := c.eval(env);
          if matched.Err? {
            return Err(matched.error);
          }
          if !matched.value {
            return Ok(Ingest(uniqIPMap, dedupCnameMap, res, activeSlice));
          }
        }
        var row := newSlice;
        if c.opts.isActive > 0 {
          var resp := c.probe(newSlice[c.plan.linkIndex], c.opts.isActive);
          activeSlice := activeSlice + [BoolText(resp.isActive)];
          row := row[c.plan.codeIndex := resp.statusCode];
        }
        res := res + [row];
      case Bare(vStr) =>
        if c.opts.uniqByIP && c.plan.ipIndex == 0 {
          if vStr in uniqIPMap {
            return Ok(st);
          }
          uniqIPMap := uniqIPMap + {vStr};
        }
        if c.opts.isActive > 0 && c.plan.linkIndex == 0 {
          var resp := c.probe(vStr, c.opts.isActive);
          activeSlice := activeSlice + [BoolText(resp.isActive)];
        }
        res := res + [[vStr]];
    }
    r := Ok(Ingest(uniqIPMap, dedupCnameMap, res, activeSlice));
  }
}
