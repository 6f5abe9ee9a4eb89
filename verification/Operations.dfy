/** The table of long-running operations and the client that polls it.

    The server's tasks run on their own: between any two calls of the client any of them
    may report progress or finish, and other clients may submit requests and read results
    of their own, in any order. Under every such interleaving the client never asks for a
    name that is not in the table, and hears of each of its requests exactly once. */
module Operations {

  /** `payload` is the response or the error of a finished operation. */
  datatype Operation = Operation(name: string, done: bool, payload: string)

  datatype Status = Ok | InvalidArgument

  type Table = map<string, Operation>

  // ----- The server's table -----

  /** A finished operation is never made unfinished. */
  function AfterUpdate(table: Table, name: string, operation: Operation): Table {
    if name in table && table[name].done && !operation.done then table else table[name := operation]
  }

  /** A finished operation is removed when it is read. */
  function AfterGet(table: Table, name: string): Table {
    if name in table && table[name].done then table - {name} else table
  }

  class OperationsServiceImpl {
    var table: Table

    constructor ()
      ensures table == map[]
    {
      table := map[];
    }

    /** Stores the whole operation under the name and leaves all other entries alone, unless
        a finished entry meets an unfinished update. */
    method UpdateOperation(name: string, operation: Operation)
      modifies this
      ensures name in old(table) && old(table)[name].done && !operation.done ==> table == old(table)
      ensures !(name in old(table) && old(table)[name].done && !operation.done) ==>
                && table.Keys == old(table).Keys + {name} && table[name] == operation
                && forall other | other in old(table) && other != name :: table[other] == old(table)[other]
      ensures table == AfterUpdate(old(table), name, operation)
    {
      if name in table {
        var existing := table[name];
        if existing.done && !operation.done {
          return;
        }
        table := table[name := operation];
      } else {
        table := table[name := operation];
      }
    }

    /** Hands out the entry of the name, and removes it if it is finished. */
    method GetOperation(name: string) returns (status: Status, operation: Operation)
      modifies this
      ensures table.Keys == old(table).Keys - (if status.Ok? && operation.done then {name} else {})
      ensures forall other | other in table :: table[other] == old(table)[other]
      ensures status.Ok? <==> name in old(table)
      ensures status.Ok? ==> operation == old(table)[name]
      ensures table == AfterGet(old(table), name)
    {
      if name !in table {
        return InvalidArgument, Operation("", false, "");
      }
      status, operation := Ok, table[name];
      if operation.done {
        table := table - {name};
      }
    }
  }

  // ----- Histories of the table -----

  datatype Step = Update(name: string, operation: Operation) | Get(name: string)

  function After(table: Table, step: Step): Table {
    match step
    case Update(name, operation) => AfterUpdate(table, name, operation)
    case Get(name) => AfterGet(table, name)
  }

  function AfterAll(table: Table, steps: seq<Step>): Table
    decreases |steps|
  {
    if steps == [] then table else After(AfterAll(table, steps[..|steps| - 1]), steps[|steps| - 1])
  }

  ghost predicate IsDone(table: Table, name: string) {
    name in table && table[name].done
  }

  /** In every interleaving, a finished operation stays finished until it is read. */
  lemma {:induction false} DoneIsNeverUndone(table: Table, steps: seq<Step>, name: string)
    requires IsDone(table, name) && Get(name) !in steps
    ensures IsDone(AfterAll(table, steps), name)
    decreases |steps|
  {
    if steps != [] {
      var before := steps[..|steps| - 1];
      DoneIsNeverUndone(table, before, name);
    }
  }

  /** Once read, it is gone, whatever else happens, unless the server starts an operation
      of the same name. */
  lemma {:induction false} ReadOnce(table: Table, steps: seq<Step>, name: string)
    requires IsDone(table, name)
    requires forall k :: 0 <= k < |steps| && steps[k].Update? ==> steps[k].name != name
    ensures name !in AfterAll(AfterGet(table, name), steps)
    decreases |steps|
  {
    if steps != [] {
      ReadOnce(table, steps[..|steps| - 1], name);
    }
  }

  // ----- The server's tasks -----

  /** What has been submitted, and what was running at that time. */
  datatype Submission = Submission(name: string, running: set<string>)

  /** The tasks the server has accepted and not finished, each with the number of sleeps
      of the client that it may still outlast, and a record of the result each task
      finished with. Other clients use other names than `mine`. */
  class TaskServer {
    const service: OperationsServiceImpl
    const mine: set<string>
    var left: map<string, nat>
    ghost var submissions: seq<Submission>
    ghost var results: map<string, string>

    ghost predicate Valid()
      reads this, service
    {
      IsServed(service.table, left, results)
    }

    constructor (mine: set<string>)
      ensures Valid() && fresh(this) && fresh(service) && service.table == map[] && this.mine == mine
    {
      service := new OperationsServiceImpl();
      this.mine := mine;
      left := map[];
      submissions := [];
      results := map[];
    }

    /** Accepts a request: its operation is in the table, unfinished, before the task
        starts. How long it takes is up to the server. */
    method Submit(name: string) returns (operation: Operation)
      requires Valid() && name !in service.table
      modifies this, service
      ensures Valid() && operation == Operation(name, false, "")
      ensures service.table == old(service.table)[name := operation]
      ensures left.Keys == old(left).Keys + {name} && forall t | t in old(left) :: left[t] == old(left)[t]
      ensures results == old(results)
      ensures submissions == old(submissions) + [Submission(name, old(left).Keys)]
    {
      submissions := submissions + [Submission(name, left.Keys)];
      operation := Operation(name, false, "");
      service.UpdateOperation(name, operation);
      var sleeps: nat := *;
      left := left[name := sleeps];
    }

    /** Reports that are not final, possibly late: of running and of finished tasks. */
    method Report(names: set<string>)
      requires Valid() && names <= service.table.Keys
      modifies service
      ensures Valid() && SameTable(old(service.table), service.table)
    {
      var todo := names;
      while todo != {}
        invariant todo <= names <= service.table.Keys && Valid()
        invariant SameTable(old(service.table), service.table)
        decreases todo
      {
        var name :| name in todo;
        var progress: string := *;
        service.UpdateOperation(name, Operation(name, false, progress));
        todo := todo - {name};
      }
    }

    /** A running task finishes with its result. */
    method FinishOne(name: string, result: string)
      requires Valid() && name in left
      modifies `left, `results, service
      ensures Valid() && left == old(left) - {name} && results == old(results)[name := result]
      ensures name in service.table && service.table[name] == Operation(name, true, result)
      ensures service.table == old(service.table)[name := Operation(name, true, result)]
    {
      service.UpdateOperation(name, Operation(name, true, result));
      results := results[name := result];
      left := left - {name};
    }

    /** Some running tasks finish, each with its own result. */
    method Finish(outcomes: map<string, string>)
      requires Valid() && outcomes.Keys <= left.Keys
      modifies `left, `results, service
      ensures Valid() && Went(mine, old(service.table), service.table, old(left), old(results), results)
      ensures HaveFinished(outcomes, outcomes.Keys, old(service.table), service.table, old(left), left, old(results), results)
    {
      var todo := outcomes.Keys;
      assert outcomes.Keys - todo == {};
      NoneFinished(outcomes, service.table, left, results);
      while todo != {}
        invariant todo <= outcomes.Keys && Valid()
        invariant HaveFinished(outcomes, outcomes.Keys - todo, old(service.table), service.table, old(left), left,
                               old(results), results)
        decreases todo
      {
        var name :| name in todo;
        FinishedStep(outcomes, outcomes.Keys - todo, old(service.table), service.table, old(left), left,
                     old(results), results, name);
        FinishOne(name, outcomes[name]);
        assert outcomes.Keys - (todo - {name}) == outcomes.Keys - todo + {name};
        todo := todo - {name};
      }
      assert outcomes.Keys - todo == outcomes.Keys;
      AllFinished(mine, outcomes, old(service.table), service.table, old(left), left, old(results), results);
    }

    /** Other clients submit requests under new names. */
    method Arrive(names: set<string>)
      requires Valid() && names !! mine && names !! service.table.Keys
      modifies `left, service
      ensures Valid() && Advanced(mine, old(service.table), service.table) && OnlyRan(mine, old(left), left)
    {
      var todo := names;
      while todo != {}
        invariant todo <= names && Valid() && todo !! service.table.Keys
        invariant Advanced(mine, old(service.table), service.table) && OnlyRan(mine, old(left), left)
        decreases todo
      {
        var name :| name in todo;
        service.UpdateOperation(name, Operation(name, false, ""));
        var sleeps: nat := *;
        left := left[name := sleeps];
        todo := todo - {name};
      }
    }

    /** Other clients ask about their operations, and take the results that are there. */
    method Depart(names: set<string>)
      requires Valid() && names !! mine
      modifies service
      ensures Valid() && Advanced(mine, old(service.table), service.table)
    {
      var todo := names;
      while todo != {}
        invariant todo <= names && Valid()
        invariant Advanced(mine, old(service.table), service.table)
        decreases todo
      {
        var name :| name in todo;
        var status, operation := service.GetOperation(name);
        todo := todo - {name};
      }
    }

    /** What other clients do between two calls of this one. */
    method ServeOthers()
      requires Valid()
      modifies `left, service
      ensures Valid() && Advanced(mine, old(service.table), service.table) && OnlyRan(mine, old(left), left)
    {
      var arriving: set<string>, asked: set<string> := *, *;
      Arrive(arriving - mine - service.table.Keys);
      Depart(asked - mine);
    }

    /** Whatever the tasks and the other clients do between two calls of the client. */
    method Run()
      requires Valid()
      modifies `left, `results, service
      ensures Valid() && OnlyRan(mine, old(left), left)
      ensures Went(mine, old(service.table), service.table, old(left), old(results), results)
    {
      ServeOthers();
      var reported: set<string> :| reported <= service.table.Keys;
      Report(reported);
      var outcomes: map<string, string> := *;
      Finish(map t | t in outcomes && t in left :: outcomes[t]);
    }

    /** What they do while the client sleeps: a task whose time is up finishes. */
    method Sleep()
      requires Valid()
      modifies `left, `results, service
      ensures Valid() && Went(mine, old(service.table), service.table, old(left), old(results), results)
      ensures forall t | t in left && t in mine :: t in old(left) && left[t] < old(left)[t]
    {
      Run();
      var outcomes: map<string, string> := *;
      Finish(map t | t in left && left[t] == 0 :: if t in outcomes then outcomes[t] else "");
      left := map t | t in left && left[t] > 0 :: left[t] - 1;
    }
  }

  /** Of some tasks that finish, these have: their entries and the record carry their
      results, and they run no more. */
  ghost predicate HaveFinished(outcomes: map<string, string>, done: set<string>, tableBefore: Table, table: Table,
                               leftBefore: map<string, nat>, left: map<string, nat>,
                               before: map<string, string>, results: map<string, string>)
    requires done <= outcomes.Keys
  {
    && table.Keys == tableBefore.Keys + done && results.Keys == before.Keys + done && left == leftBefore - done
    && (forall t | t in table :: table[t] == if t in done then Operation(t, true, outcomes[t]) else tableBefore[t])
    && (forall t | t in results :: results[t] == if t in done then outcomes[t] else before[t])
  }

  lemma NoneFinished(outcomes: map<string, string>, table: Table, left: map<string, nat>, results: map<string, string>)
    ensures HaveFinished(outcomes, {}, table, table, left, left, results, results)
  {
  }

  lemma FinishedStep(outcomes: map<string, string>, done: set<string>, tableBefore: Table, table: Table,
                     leftBefore: map<string, nat>, left: map<string, nat>,
                     before: map<string, string>, results: map<string, string>, name: string)
    requires done <= outcomes.Keys <= leftBefore.Keys && name in outcomes && name !in done
    requires HaveFinished(outcomes, done, tableBefore, table, leftBefore, left, before, results)
    ensures name in left
    ensures HaveFinished(outcomes, done + {name}, tableBefore, table[name := Operation(name, true, outcomes[name])],
                         leftBefore, left - {name}, before, results[name := outcomes[name]])
  {
    assert leftBefore - done - {name} == leftBefore - (done + {name});
  }

  /** Only running tasks have finished, so what was finished before is as it was. */
  lemma AllFinished(mine: set<string>, outcomes: map<string, string>, tableBefore: Table, table: Table,
                    leftBefore: map<string, nat>, left: map<string, nat>,
                    before: map<string, string>, results: map<string, string>)
    requires outcomes.Keys <= leftBefore.Keys && IsServed(tableBefore, leftBefore, before)
    requires HaveFinished(outcomes, outcomes.Keys, tableBefore, table, leftBefore, left, before, results)
    ensures Went(mine, tableBefore, table, leftBefore, before, results)
  {
  }

  /** Running tasks are in the table, unfinished; everything else in it is finished, with the
      result that is on record. */
  ghost predicate IsServed(table: Table, left: map<string, nat>, results: map<string, string>) {
    && left.Keys <= table.Keys
    && (forall t | t in table :: table[t].name == t && (table[t].done <==> t !in left))
    && forall t | t in table && table[t].done :: t in results && table[t].payload == results[t]
  }

  /** The results of the client's tasks that were not running are still on record. */
  ghost predicate ResultsKept(mine: set<string>, left: map<string, nat>,
                              before: map<string, string>, after: map<string, string>) {
    forall t | t in mine && t !in left && t in before :: t in after && after[t] == before[t]
  }

  /** The same names, with the same of them finished, and the same results. */
  ghost predicate SameTable(before: Table, after: Table) {
    && after.Keys == before.Keys
    && forall t | t in before :: after[t].done == before[t].done && (before[t].done ==> after[t] == before[t])
  }

  /** The same of the client's names, and what was finished still is, with the same result. */
  ghost predicate Advanced(mine: set<string>, before: Table, after: Table) {
    && (forall t | t in mine :: t in before <==> t in after)
    && (forall t | t in mine && t in before && before[t].done :: after[t] == before[t])
  }

  /** What happens without the client: its names are the same, what was finished still is,
      and so is its recorded result. */
  ghost predicate Went(mine: set<string>, before: Table, after: Table, left: map<string, nat>,
                       resultsBefore: map<string, string>, results: map<string, string>) {
    Advanced(mine, before, after) && ResultsKept(mine, left, resultsBefore, results)
  }

  /** No task of the client is new, and the rest have as long as before. */
  ghost predicate OnlyRan(mine: set<string>, before: map<string, nat>, after: map<string, nat>) {
    forall t | t in after && t in mine :: t in before && after[t] == before[t]
  }
}
