/**
 * The task ledger of the workflow runner (pkg/piperunner/runner.go): a
 * runner records one task per executed pipe and remembers the last file a
 * pipe wrote; a registry maps workflow names to their translation hooks and
 * function names to their bodies, each wrapped so that one call records
 * one task.
 */
module Piperunner {

  /** The record of one executed pipe: its function, its parameters as text, its json file and other files. */
  datatype PipeTask = PipeTask(name: string, content: string, outfile: string, generatedFiles: seq<string>)

  /** The parameters of a call, as key/value pairs in the order fmt prints them (by key). */
  type Params = seq<(string, string)>

  /** fmt's %v of a map of parameters: "map[k1:v1 k2:v2]". */
  function ParamsText(params: Params): string
  {
    "map[" + Pairs(params) + "]"
  }

  function Pairs(params: Params): string
  {
    if params == [] then ""
    else if |params| == 1 then params[0].0 + ":" + params[0].1
    else Pairs(params[..|params| - 1]) + " " + params[|params| - 1].0 + ":" + params[|params| - 1].1
  }

  /** The LastFile after `tasks` were added to a runner whose LastFile was `prior`. */
  function LastOutfile(tasks: seq<PipeTask>, prior: string): (f: string)
    ensures f == prior || exists i :: 0 <= i < |tasks| && tasks[i].outfile == f && f != ""
  {
    if tasks == [] then prior
    else if |tasks[|tasks| - 1].outfile| > 0 then tasks[|tasks| - 1].outfile
    else LastOutfile(tasks[..|tasks| - 1], prior)
  }

  /** No task after index `i` wrote a file. */
  predicate NoOutfileAfter(tasks: seq<PipeTask>, i: int)
  {
    forall j :: 0 <= j < |tasks| && i < j ==> tasks[j].outfile == ""
  }

  /**
   * LastFile is the Outfile of the most recent task that wrote one, or the
   * prior value when no task did.
   */
  lemma {:induction false} LastOutfileIsLatest(tasks: seq<PipeTask>, prior: string)
    ensures NoOutfileAfter(tasks, -1) ==> LastOutfile(tasks, prior) == prior
    ensures forall i :: 0 <= i < |tasks| && tasks[i].outfile != "" && NoOutfileAfter(tasks, i)
              ==> LastOutfile(tasks, prior) == tasks[i].outfile
  {
    if NoOutfileAfter(tasks, -1) {
      LatestAt(tasks, prior, -1);
    }
    forall i | 0 <= i < |tasks| && tasks[i].outfile != "" && NoOutfileAfter(tasks, i)
      ensures LastOutfile(tasks, prior) == tasks[i].outfile
    {
      LatestAt(tasks, prior, i);
    }
  }

  /** The LastFile when task `i` (or, for -1, the prior value) is the last that wrote a file. */
  lemma {:induction false} LatestAt(tasks: seq<PipeTask>, prior: string, i: int)
    requires -1 <= i < |tasks| && NoOutfileAfter(tasks, i)
    requires 0 <= i ==> tasks[i].outfile != ""
    ensures LastOutfile(tasks, prior) == if i == -1 then prior else tasks[i].outfile
    decreases |tasks|
  {
    if i < |tasks| - 1 {
      var init := tasks[..|tasks| - 1];
      assert tasks[|tasks| - 1].outfile == "";
      assert forall j :: 0 <= j < |init| ==> init[j] == tasks[j];
      LatestAt(init, prior, i);
    }
  }

  /** The files the tasks' Close calls remove, in order. */
  function Outfiles(tasks: seq<PipeTask>): (files: seq<string>)
    ensures |files| == |tasks|
    ensures forall i :: 0 <= i < |tasks| ==> files[i] == tasks[i].outfile
  {
    if tasks == [] then [] else Outfiles(tasks[..|tasks| - 1]) + [tasks[|tasks| - 1].outfile]
  }

  /** The runner of one pipeline script. */
  class PipeRunner {
    var content: string
    var tasks: seq<PipeTask>
    var lastFile: string
    /** The LastFile when `tasks` was last emptied. */
    ghost var base: string
    /** The files removed by Close so far. */
    ghost var removed: seq<string>

    /** LastFile follows the tasks recorded since they were last reset. */
    ghost predicate Valid()
      reads this
    {
      lastFile == LastOutfile(tasks, base)
    }

    /** New: a runner for `content`, with no tasks and no last file. */
    constructor (content: string)
      ensures Valid()
      ensures this.content == content && tasks == [] && lastFile == "" && removed == []
    {
      this.content := content;
      tasks := [];
      lastFile := "";
      base := "";
      removed := [];
    }

    /** addPipe: the task goes at the end; LastFile changes only when it wrote a file. */
    method AddPipe(pt: PipeTask)
      requires Valid()
      modifies this
      ensures Valid()
      ensures tasks == old(tasks) + [pt]
      ensures lastFile == (if |pt.outfile| > 0 then pt.outfile else old(lastFile))
      ensures content == old(content) && base == old(base) && removed == old(removed)
    {
      tasks := tasks + [pt];
      assert tasks[..|tasks| - 1] == old(tasks);
      if |pt.outfile| > 0 {
        lastFile := pt.outfile;
      }
    }

    /** Close: every task removes its Outfile, and no other file is removed. */
    method Close()
      modifies this
      ensures removed == old(removed) + Outfiles(tasks)
      ensures content == old(content) && tasks == old(tasks) && lastFile == old(lastFile) && base == old(base)
    {
      var i := 0;
      while i < |tasks|
        invariant 0 <= i <= |tasks|
        invariant removed == old(removed) + Outfiles(tasks[..i])
        invariant content == old(content) && tasks == old(tasks) && lastFile == old(lastFile) && base == old(base)
      {
        assert tasks[..i + 1][..i] == tasks[..i];
        removed := removed + [tasks[i].outfile];
        i := i + 1;
      }
      assert tasks[..i] == tasks;
    }

    /**
     * Run: the tasks are reset, LastFile is not, and the script is run;
     * its evaluation is the sequence of registered functions it calls.
     */
    method Run(reg: Registry, calls: seq<Call>)
      requires forall c :: c in calls ==> c.name in reg.functions
      modifies this
      ensures Valid()
      ensures tasks == Replay(reg.functions, old(lastFile), calls)
      ensures lastFile == LastOutfile(tasks, old(lastFile))
      ensures content == old(content) && removed == old(removed)
    {
      tasks := [];
      base := lastFile;
      var i := 0;
      while i < |calls|
        invariant 0 <= i <= |calls|
        invariant Valid() && base == old(lastFile)
        invariant tasks == Replay(reg.functions, old(lastFile), calls[..i])
        invariant content == old(content) && removed == old(removed)
      {
        assert calls[..i + 1][..i] == calls[..i];
        assert calls[i] in calls;
        reg.Invoke(this, calls[i].name, calls[i].params);
        i := i + 1;
      }
      assert calls[..i] == calls;
    }
  }

  /**
   * A registered function body: given the runner's LastFile and the
   * parameters, the file it wrote (possibly none) and the other files.
   */
  type Body = (string, Params) -> (string, seq<string>)

  /** The translation of a workflow into a function call string; its parser is not part of this model. */
  type Hook = seq<string> -> string

  /** One call the script makes. */
  datatype Call = Call(name: string, params: Params)

  /** The task one wrapped call records. */
  function TaskOf(functions: map<string, Body>, lastFile: string, c: Call): PipeTask
    requires c.name in functions
  {
    var (fn, gfs) := functions[c.name](lastFile, c.params);
    PipeTask(c.name, ParamsText(c.params), fn, gfs)
  }

  /** The tasks that a sequence of calls records on a runner whose tasks were just reset. */
  function Replay(functions: map<string, Body>, lastFile: string, calls: seq<Call>): (tasks: seq<PipeTask>)
    requires forall c :: c in calls ==> c.name in functions
    ensures |tasks| == |calls|
  {
    if calls == [] then []
    else
      var init := Replay(functions, lastFile, calls[..|calls| - 1]);
      assert calls[|calls| - 1] in calls;
      init + [TaskOf(functions, LastOutfile(init, lastFile), calls[|calls| - 1])]
  }

  /** Every call records exactly one task, named after the called function, in the order of the calls. */
  lemma {:induction false} ReplayOneTaskPerCall(functions: map<string, Body>, lastFile: string, calls: seq<Call>)
    requires forall c :: c in calls ==> c.name in functions
    ensures |Replay(functions, lastFile, calls)| == |calls|
    ensures forall i :: 0 <= i < |calls| ==>
      && Replay(functions, lastFile, calls)[i].name == calls[i].name
      && Replay(functions, lastFile, calls)[i].content == ParamsText(calls[i].params)
  {
    if calls != [] {
      var init := calls[..|calls| - 1];
      assert forall c :: c in init ==> c in calls;
      ReplayOneTaskPerCall(functions, lastFile, init);
      var t := Replay(functions, lastFile, calls);
      assert forall i :: 0 <= i < |init| ==> t[i] == Replay(functions, lastFile, init)[i] && calls[i] == init[i];
    }
  }

  /** The registries the script language and its runtime share. */
  class Registry {
    /** Workflow names of the parser, with their translation hooks. */
    var syntax: map<string, Hook>
    /** Function names of the runtime, with their bodies; a call goes through Invoke. */
    var functions: map<string, Body>

    constructor ()
      ensures syntax == map[] && functions == map[]
    {
      syntax := map[];
      functions := map[];
    }

    /**
     * RegisterWorkflow: a non-empty workflow name goes to the parser, a
     * non-empty function name to the runtime; a later registration of a
     * name replaces the earlier one.
     */
    method RegisterWorkflow(workflow: string, transFunc: Hook, funcName: string, funcBody: Body)
      modifies this
      ensures syntax == if |workflow| > 0 then old(syntax)[workflow := transFunc] else old(syntax)
      ensures functions == if |funcName| > 0 then old(functions)[funcName := funcBody] else old(functions)
    {
      if |workflow| > 0 {
        syntax := syntax[workflow := transFunc];
      }
      if |funcName| > 0 {
        functions := functions[funcName := funcBody];
      }
    }

    /**
     * The wrapper of a registered body: the body runs once, and exactly one
     * task is recorded, named after the function, with the parameters as
     * its content and the body's two results as its files.
     */
    method Invoke(p: PipeRunner, funcName: string, params: Params)
      requires funcName in functions && p.Valid()
      modifies p
      ensures p.Valid()
      ensures p.tasks == old(p.tasks) + [TaskOf(functions, old(p.lastFile), Call(funcName, params))]
      ensures p.content == old(p.content) && p.base == old(p.base) && p.removed == old(p.removed)
    {
      var (fn, gfs) := functions[funcName](p.lastFile, params);
      p.AddPipe(PipeTask(funcName, ParamsText(params), fn, gfs));
    }
  }
}
