# gofofa search core, modelled in Dafny

This project models the core of gofofa, the Go client of the FOFA search
engine. It covers four pieces:

- **Host search and dump of `host.go`.** The column planning that gets a
  query's fields ready (`getParamIndexThenAdd`, `fixUrlCheck` and the extra
  columns each option needs). The membership quota gate. The offset-paged
  loop of `HostSearch`, with its ingestion filters:
  - unique ip;
  - the wildcard cap;
  - the expression filter;
  - the liveness probe.

  The `DedupHost` reduction. The post-processing that turns hosts into URLs
  and trims the helper columns. The cursor-paged loop of `DumpSearch`.
- **The task ledger of the workflow runner, `pkg/piperunner/runner.go`.**
  `PipeTask`, `New`, `addPipe`, `Close`, the task reset of `Run`, and
  `RegisterWorkflow` with the wrapper it stores, which records one task per
  call.
- **`mapToSliceOne` of the browser command, `cmd/fofa/cmd/browser.go`.**

Modules, one per file:

- `Wrappers` (`wrappers.dfy`): `Option` and `Result`.
- `FieldPlanner` (`field_planner.dfy`): column lookup and planning.
- `PostProcessor` (`post_processor.dfy`): `fixHostToUrl` and `postProcess`.
- `RowProcessor` (`row_processor.dfy`): the per-row filters of one results page.
- `ResultReducer` (`result_reducer.dfy`): `DedupHost`.
- `QueryPager` (`query_pager.dfy`): the quota gate and `HostSearch` / `DumpSearch`.
- `Piperunner` (`pipe_runner.dfy`): the runner and the registry.
- `Browser` (`browser.dfy`): `mapToSliceOne`.

How the Go code is rendered:

- **Loops.** The loops that update the search state, the rows or the runner
  are `method`s with `while` loops. They cover the page and cursor loops, the
  loop over one page, `fixHostToUrl`, `postProcess`, `DedupHost`, the flag
  loop, `Close`, `Run` and `mapToSliceOne`. Each is proved equal to a
  specification function, either recursive or applied row by row:
  `fixHostToUrl`, `postProcess` and the flag loop are equal row by row to
  `FixedRow`, `ProcessedRow` and a row with its flag appended. `DedupHost` is
  proved to satisfy `DedupOutput` over `Reduce`, because the order of the
  link map's rows is left open. The properties are proved about those
  functions as lemmas.
- **Searches stated as functions.** Three loops only compute a value during the
  column planning, so they are recursive functions. These are the lookup of
  `getParamIndexThenAdd` (`FirstIndex`), the host and protocol scans of
  `fixUrlCheck` (`LastIndex`) and the loop over the filter's variables
  (`AddVars`). The loop that builds the filter's environment is a map
  comprehension (`FilterEnv`).
- **The server.** The FOFA server is a sequence of responses, one per request.
- **Cancellation.** `ctx.Done()` is an oracle on the request number.
- **Callbacks.** The probe, the expression filter and the dump consumer are
  function parameters.
- **Runner state.** The runner is a class whose task list and `LastFile` are
  fields. The registry is a class whose two maps are fields.
- **File removal.** The files `Close` removes are recorded in a ghost field.

Where the documented intent and the code differ, the model follows the code:

- **`DedupHost`.** A row already kept for a link is replaced only when the kept
  row is of type `service` and the new one of type `subdomain`
  (`host.go:423`). So a later subdomain row wins over a kept service row, and
  every other duplicate is dropped.
- **`DeWildcard`.** Only `DeWildcard > 0` matters. Whatever its value, the code
  keeps at most four rows per `ip:port:domain:title:fid` key: the counter is
  tested with `> 3` (`host.go:344`).

## Model

| member | source | states |
|---|---|---|
| FieldPlanner.FirstIndex | host.go:89-95 | the index of the first occurrence of the field, or the length when it is absent; no earlier element is the field |
| FieldPlanner.IndexThenAdd | host.go:88-101 | a present field keeps the list and returns its first index; an absent one is appended and its index is the old length; either way the index holds the field and the old list is a prefix |
| FieldPlanner.LastIndex | host.go:134-155 | the index of the last occurrence of a name, or -1; no later element is the name |
| FieldPlanner.FixUrlCheck | host.go:115-159 | empty fields default to host,ip,port (plus protocol under FixUrl); without FixUrl the fields are kept and both indices are -1; with FixUrl, no "host" is the error (the only one), the host index is its last occurrence, and the protocol index is its last occurrence or the length when protocol is appended; rawFieldSize is the caller's field count and never exceeds the field count |
| FieldPlanner.AddIf | host.go:244-246 | when the option is off nothing is added and the index is -1; when it is on, a present field keeps the list and gets its first index, and an absent one is appended at the end with the old length as its index |
| FieldPlanner.AddVars | host.go:276-280 | every filter variable gets an index that holds it; the earlier columns keep their places, and the only columns appended are variables the list lacked, at the end, each once |
| FieldPlanner.AddProbeColumns | host.go:243-254 | with UniqByIP the ip column exists, else its index is -1; with IsActive the link and status_code columns exist, else both indices are -1; earlier columns are kept, and only ip, link and status_code columns the list lacked are appended, each once, for the options that are set |
| FieldPlanner.AddWildcardColumns | host.go:259-265 | with DeWildcard the ip, port, domain, title and fid columns exist, else every index is -1 and nothing is added; earlier columns are kept, and only key columns the list lacked are appended, each once |
| FieldPlanner.FieldPlan | host.go:236-289 | fails exactly when fixUrlCheck fails; otherwise every option has the columns it reads (ip for UniqByIP and DeWildcard, link/status_code for IsActive, the key columns, every filter variable, type/link for DedupHost), the fixUrlCheck fields are a prefix of the planned ones, and every column after them is a needed name they lacked, none twice |
| FieldPlanner.ExtendPlan | host.go:241-289 | the columns added after fixUrlCheck make a valid plan; they are appended after the fixUrlCheck fields, each a needed name those fields lacked, none twice |
| FieldPlanner.PlanAddsMissing | host.go:241-289 | the columns the planning appends are exactly the needed names that fixUrlCheck's fields lack (both directions), each appended once |
| FieldPlanner.NeededArePlanned | host.go:241-289 | a valid plan has a column for every name its options need |
| PostProcessor.FixedRow | host.go:64-83 | a fixed row has the same length, and every cell but the host cell is unchanged |
| PostProcessor.FixHostToUrl | host.go:61-86 | one output row per input row, each the input row with only its host cell rewritten |
| PostProcessor.UrlOf | host.go:66-80 | definition of the rewritten host cell; it always ends with the original host |
| PostProcessor.UrlOfKeepsHost | host.go:66-80 | the rewritten host ends with the original host, and equals it exactly when the host already held "://" |
| PostProcessor.UrlOfHasScheme | host.go:66-80 | with an empty prefix, or one holding "://", the rewritten host holds "://" |
| PostProcessor.FixedHostIsUrl | host.go:61-86 | the host cell of a fixed row holds "://" when the prefix is empty or has a scheme |
| PostProcessor.FixedRowIdempotent | host.go:61-86 | fixing a fixed row again changes nothing, when the prefix is empty or has a scheme |
| PostProcessor.PostProcess | host.go:161-176 | one output row per input row: the row is fixed under FixUrl, then cut to the caller's fields when columns were added |
| PostProcessor.ProcessedRow | host.go:163-175 | definition of one output row of postProcess; its width is the caller's field count when columns were added, else the row's own |
| PostProcessor.ProcessedRowWidth | host.go:161-176 | a processed row has the caller's width when columns were added, else its own width; every cell but the host cell is kept |
| RowProcessor.ProbedKeeps | host.go:369-374 | a row that passes the filters is appended; the probe changes neither the ip nor the wildcard key; with IsActive the flag appended is the probe's isActive for the row's link, the status_code cell becomes the probe's status code and no other cell changes; without IsActive the row is appended unchanged and no flag is added |
| RowProcessor.BareMeansOneField | host.go:375-388 | a bare-string result only comes with a single field, so DeWildcard and IsActive are off, and UniqByIP means the ip is column 0 |
| RowProcessor.Accept | host.go:365-374 | definition of the append of a row that passed the filters; it appends exactly one row, keeps the earlier ones, and records the given ip set and counters |
| RowProcessor.Step | host.go:329-389 | one result appends at most one row and keeps the earlier ones; a skipped element changes nothing; a duplicate ip under UniqByIP changes nothing; a row whose wildcard key was already counted more than 3 times only records its ip; a row past both checks is counted, and then dropped when the filter yields false, or else appended through the probe step; a bare string is appended unless its ip was seen; the call fails exactly when the filter fails on a row past both checks, with that error |
| RowProcessor.WildcardKeepsFour | host.go:341-347 | of n copies of one row under DeWildcard alone, the first four are kept and the rest dropped; the key's counter ends at min(n, 4) |
| RowProcessor.StepKeepsInv | host.go:335-389 | one result keeps the ingestion invariant: rows have the planned width, ips are distinct under UniqByIP, at most four rows per wildcard key, and under IsActive one flag per row, flag i and the status code of row i being the probe's answer for row i's link |
| RowProcessor.IngestAllKeepsInv | host.go:329-390 | a whole page keeps the ingestion invariant |
| RowProcessor.IngestAllGrows | host.go:329-390 | a page only appends rows, at most one per result |
| RowProcessor.ErrorSticks | host.go:355-363 | once a filter fails, the rest of the page does not matter: the page fails |
| RowProcessor.IngestItem | host.go:330-389 | the checks on one element, in the source's order, compute Step for that element |
| RowProcessor.IngestAll | host.go:329-390 | definition of the loop over one page; an error happens only with a filter expression, and it is the expression's error on one of the page's rows |
| RowProcessor.IngestPage | host.go:329-390 | the loop over one page computes IngestAll |
| ResultReducer.ReduceKeyIsLink | host.go:416-428 | each row kept by the reduction is stored under its own link |
| ResultReducer.ReduceKeysOccur | host.go:416-428 | a link is kept exactly when some input row carries it |
| ResultReducer.ReduceKeepsWinner | host.go:416-428 | the row kept for a non-empty link is the first row carrying it, unless that row is a service and a later row of the link is a subdomain, in which case the first such subdomain row |
| ResultReducer.ReduceKeepsEmpty | host.go:417-422 | the rows with an empty link are exactly the one kept in the map followed by the passed-through ones, in input order |
| ResultReducer.ReduceShrinks | host.go:414-435 | the reduction has at most as many rows as its input |
| ResultReducer.ReduceFromRows | host.go:416-428 | every row of the reduction is an input row |
| ResultReducer.AppendMapRows | host.go:430-434 | the map's rows follow the passed-through rows, each map row exactly once, in some order |
| ResultReducer.Reduce | host.go:416-428 | definition of the state of the dedup loop after reading the rows in order; every appended row is an input row |
| ResultReducer.DedupHost | host.go:414-435 | the output satisfies DedupOutput over Reduce: the passed-through empty-link rows, then one row per link in map order |
| ResultReducer.EmptyLinksKept | host.go:414-435 | every input row with an empty link is in the output |
| ResultReducer.DedupRowsFromInput | host.go:414-435 | the output is no longer than the input, and every output row is an input row |
| ResultReducer.DedupOneRowPerLink | host.go:414-435 | two output rows share a link only when it is empty; the row for a non-empty link is the winner of that link's group; every non-empty link of the input has a row in the output |
| QueryPager.QuotaGate | host.go:201-226 | fails exactly when the free size is 0 and there is either no F coin or no F-coin mode, with the two messages; a free size of -1 keeps the size; the size is cut to the free size exactly in free mode when 0 < free size < size; the size never grows |
| QueryPager.PerPage | host.go:228-234 | the page size is min(size, 1000), and 1000 for size -1 |
| QueryPager.Prepare | host.go:201-289 | the errors come in source order: the quota gate, then fixUrlCheck, then the filter's variables; when none fails the session is made, with the gated size, its page size, the planned fields of these options and variables, and the given evaluator and probe; its plan is valid |
| QueryPager.PagesAreConsecutive | host.go:292-412 | the loop asks pages 1, 2, ... in order; every page before the last was not cancelled and was full |
| QueryPager.PagesStopReason | host.go:293-409 | the loop ends on the last page's own reason: cancellation iff the oracle says so there, a failed request or a missing response, the server errmsg, a results member that is not an array, an empty array, the filter's error on that page, the size reached, or a short page that left fewer rows than the size |
| QueryPager.PagesFilled | host.go:401-404 | starting below the size, the loop ends with the size stop exactly when the gathered rows reached the size, so it never asks another page once they have |
| QueryPager.PagesAlreadyFilled | host.go:401-404 | starting with the rows already at the size (a size of 0 from the start), the loop asks no further page, and a page read without error ends it with the size stop |
| QueryPager.PagesGrow | host.go:399 | the gathered rows only grow from page to page |
| QueryPager.PagesKeepInv | host.go:292-412 | the ingestion invariant holds however the loop ends |
| QueryPager.GatheredRows | host.go:335-374 | the gathered rows have the planned width, distinct ips under UniqByIP, at most four per wildcard key under DeWildcard, and under IsActive one active flag each, with flag and status code from the probe of the row's link |
| QueryPager.Pages | host.go:292-412 | definition of the page loop from a given page; it never asks an earlier page, and it ends past the last response only by cancellation or a failed request |
| QueryPager.NextPage | host.go:401-411 | definition of the state carried to the next page; there is one only after a full page that left the rows below the size |
| QueryPager.Collect | host.go:292-412 | the page loop computes Pages from page 1 |
| QueryPager.EmittedShape | host.go:437-443 | an output row has the caller's width plus the active flag under IsActive; it holds the gathered row's cells except the host cell under FixUrl, and its last cell is the flag at its position |
| QueryPager.FlagsAreProbes | host.go:369-443 | with IsActive and without DedupHost, the flag of output row i is the probe's isActive for the link of gathered row i, and a status_code column the caller asked for holds the probe's status code |
| QueryPager.ProcessedWidth | host.go:437-443 | every processed row has the caller's width, plus one under IsActive |
| QueryPager.AppendFlags | host.go:439-443 | row i gets active flag i appended |
| QueryPager.Process | host.go:414-443 | DedupHost when it is set, then postProcess and the flags, row by row |
| QueryPager.Finish | host.go:293-445 | a cancellation or failed request returns the raw rows gathered so far; a filter error returns no rows; a server errmsg and every normal end return the processed rows, the errmsg as the error |
| QueryPager.HostSearch | host.go:183-446 | a setup error returns no rows and that error; otherwise the rows obey the ingestion invariant and are the processed (or raw, on cancellation and failed requests) rows of Pages from page 1 |
| QueryPager.RowsOf | host.go:540-550 | a batch has at most one row per result |
| QueryPager.RowsOfWidth | host.go:540-550 | results of the planned width give rows of that width |
| QueryPager.ReadBatch | host.go:534-553 | the loop over one results array computes its rows |
| QueryPager.ProcessedBatch | host.go:556 | postProcess keeps the number of rows in a batch |
| QueryPager.DumpRound | host.go:503-582 | one request: cancellation ends the call with the cancel error and nothing sent; a failed request with its error, an errmsg with that message, an empty or non-array result with no error; after a batch, a consumer error ends the call with that error; otherwise the call ends without error when allSize is reached, the batch is short or the token is empty, and in every other case it goes on with the response's token and the count raised by the batch |
| QueryPager.DumpFollowsCursor | host.go:565-582 | the first request goes without a cursor and each later request sends the previous response's next token; every request but the last got a full batch |
| QueryPager.DumpFrom | host.go:503-582 | definition of the cursor loop from a given request; it delivers at most one batch per request sent, and its first request carries the given token |
| QueryPager.DumpRequest | host.go:503-582 | one pass of the loop body computes DumpRound |
| QueryPager.DumpSearch | host.go:483-586 | a batch size outside 1..100000 is refused before any request; a fixUrlCheck error sends nothing; otherwise the error, the cursors sent and the batches delivered are those of DumpFrom from an empty cursor |
| Piperunner.Outfiles | pkg/piperunner/runner.go:80-84 | the files of the tasks, one per task, in order |
| Piperunner.LastOutfile | pkg/piperunner/runner.go:86-95 | definition of LastFile after a list of tasks was added; it is the earlier value or the non-empty outfile of one of the tasks |
| Piperunner.LastOutfileIsLatest | pkg/piperunner/runner.go:86-95 | LastFile is the outfile of the latest task that wrote one, or the earlier value when none did |
| Piperunner.Replay | pkg/piperunner/runner.go:98-131 | definition of the tasks recorded by a run of calls after the reset; one task per call |
| Piperunner.ReplayOneTaskPerCall | pkg/piperunner/runner.go:62-75 | each call of a registered function records exactly one task, named after the function, with its parameters as content, in call order |
| Piperunner.PipeRunner.constructor | pkg/piperunner/runner.go:181-185 | a new runner has the script, no tasks and no last file |
| Piperunner.PipeRunner.AddPipe | pkg/piperunner/runner.go:86-95 | the task is appended; LastFile changes exactly when the task wrote a file |
| Piperunner.PipeRunner.Close | pkg/piperunner/runner.go:80-84 | the outfile of every task is removed, once each, in order, and nothing else changes |
| Piperunner.PipeRunner.Run | pkg/piperunner/runner.go:98-131 | the task list is reset, not LastFile; afterwards the tasks are exactly those the script's calls record, and LastFile follows them |
| Piperunner.Registry.constructor | pkg/piperunner/runner.go:19-21 | both registries start empty |
| Piperunner.Registry.RegisterWorkflow | pkg/piperunner/runner.go:51-77 | a non-empty workflow name is registered with the parser, a non-empty function name with the runtime; a later registration replaces an earlier one; nothing else changes |
| Piperunner.Registry.Invoke | pkg/piperunner/runner.go:62-75 | a wrapped call runs the body once with the runner's LastFile and appends one task holding the body's results |
| Browser.Present | cmd/fofa/cmd/browser.go:77-82 | definition of the row of mapToSliceOne; it has at most one cell per key, and every cell is the value of a listed key that the record has |
| Browser.MapToSliceOne | cmd/fofa/cmd/browser.go:75-84 | one row, holding the values of the keys the record has |
| Browser.PresentConcat | cmd/fofa/cmd/browser.go:78-82 | the row for two key lists is the concatenation of their rows |
| Browser.PresentAll | cmd/fofa/cmd/browser.go:78-82 | when the record has every key, cell i is the value of key i |
| Browser.PresentNone | cmd/fofa/cmd/browser.go:78-82 | with no key present in the record the row is empty |
| Browser.PresentDuplicate | cmd/fofa/cmd/browser.go:78-82 | a key listed twice gives its value twice |

## Left out

- **Network and encoding.** `Fetch`, the base64 query encoding and JSON
  decoding are left out. The server is given as the sequence of its decoded
  responses. A request beyond that sequence fails with the message
  "no response". That message belongs to the model, not to the client.
- **Checks and filters.** `DoHttpCheck` is a function parameter from link and
  mode to (isActive, status code). So is the compile-and-run of the `expr`
  filter, from the variable environment to a boolean or an error.
  `extractVariables` is given as its result. The panic of `match.(bool)` on a
  non-boolean result is not modelled.
- **Amounts given as inputs.** `freeSize()` and the account's F coins and
  deduct mode are inputs. `DeductModeFCoin` is 1, as the error message at
  `host.go:209` says. `DeductModeFree` is taken to be 0; the file that defines
  both constants is not part of this model.
- **Floating point.** `math.Min` and `math.Max` over `float64` are modelled as
  integer minimum and maximum.
- **Callbacks and logging.** The `onResults` client hook and the logger
  warnings are side effects with no bearing on the results.
- **Cancellation.** The context is an oracle. `HostSearch` asks it with the
  page number and `DumpSearch` with the request number.
- **The dump consumer.** It is a pure function of the batch and the server's
  total. What it does with the rows is outside the model.
- **Rows of the wrong width.** The `ServerFits` precondition asks that every
  array row have exactly the requested width, and that bare strings come only
  when one field is requested. It excludes more than the rows that panic. A
  narrower row that an option indexes past its end makes the Go code panic. Go
  returns the following without error, and the model does not cover them:
  - wider rows;
  - narrower rows that no option indexes and the trim does not reach;
  - bare strings in a multi-column query.
- **Slice aliasing.** When there is spare capacity, Go's `append` inside
  `getParamIndexThenAdd` may write into the caller's `fields` array. Fields are
  values here.
- **`postProcess` trimming.** The trim to `rawFieldSize` happens only when the
  field count differs from it. The model does the same.
- **Rows past the size.** `HostSearch` does not cut its result to `size` (a
  full last page can overshoot), and neither does the model.
- **`DedupHost` order.** Go map iteration order is unspecified. `DedupHost`
  takes the map's rows in an arbitrary order, and its contract holds for every
  order.
- **Active flags after `DedupHost`.** With both `DedupHost` and `IsActive`, the
  Go code pairs output row i with the flag of gathered row i. Deduplication may
  have moved rows, so a flag need not belong to its row. The model reproduces
  this pairing. `DedupHost` never adds rows, so every output row has a flag.
- **`Run`.** The yaegi interpreter, the exports it is given and the error `Run`
  returns are left out. The script's evaluation is the sequence of calls it
  makes to registered functions.
- **What a function body can see.** A body sees only the runner's `LastFile` and
  the parameters. Bodies that read or change other runner state, or the
  `FofaCli` client, are not modelled.
- **Parameters.** They are an ordered list of key/value texts, printed as fmt
  prints a map.
- **`Cost` and the logrus debug lines.** They depend on the clock and are
  omitted.
- **`sync.Map`.** Its concurrency is not modelled. It is a map field of the
  registry.
- **`pipeast.RegisterFunction`.** Modelled as an update of the parser's
  registry. The translation hook is an opaque function.
- **`os.Remove`.** Recorded by name in the ghost `removed` list. Failures are
  ignored, as in the source.
- **`DumpTasks`.** It renders an HTML template, outside the ledger this model
  covers.
- **`mapToSliceOne` values.** They are taken as already formatted by `%v`.
- **The rest of the repository is not part of this model.** This covers
  `HostSize`, `HostStats` and the other commands (`concurrentPipeline`,
  `BrowserAction` and the rest of `cmd/`).
