/** The polling client: submits requests, at most `maxTasks` outstanding, and polls until
    all are finished. */
module WaitForOperations {
  import opened Cardinality
  import opened Operations

  type Identifiers = map<string, string>
  type Responses = map<string, Operation>

  /** What is told about one request. */
  datatype Notice = Notice(request: string, response: Operation)

  /** The requests by their identifiers; the name the server gives to each one's
      operation, and back. */
  datatype Job = Job(requests: map<string, string>, names: map<string, string>, owners: map<string, string>,
                     maxTasks: nat) {
    /** Names are distinct, and at least one task may be outstanding. */
    ghost predicate Valid() {
      && names.Keys == requests.Keys && maxTasks >= 1
      && forall id | id in names :: names[id] in owners && owners[names[id]] == id
    }
  }

  // ----- What always holds -----

  /** The identifiers of the operations that are waited for. */
  ghost function Awaited(job: Job, waiting: set<string>): set<string>
  {
    set id | id in job.names && job.names[id] in waiting
  }

  /** Each name that is waited for is known to belong to its request. */
  ghost predicate AreIdentifiers(job: Job, waiting: set<string>, taskId: Identifiers)
    requires job.Valid()
  {
    && waiting <= taskId.Keys
    && forall t | t in waiting :: taskId[t] in job.names && job.names[taskId[t]] == t
  }

  /** Pending, waited for and finished are a partition of the requests. */
  ghost predicate IsPartition(job: Job, pending: set<string>, awaited: set<string>, finished: set<string>) {
    AreParts(job.requests.Keys, pending, awaited, finished)
  }

  /** Of the client's names the table has those that are waited for. */
  ghost predicate IsTable(known: set<string>, owned: set<string>, waiting: set<string>) {
    known * owned == waiting
  }

  ghost predicate AreParts<T>(whole: set<T>, x: set<T>, y: set<T>, z: set<T>) {
    x + y + z == whole && x !! y && x !! z && y !! z
  }

  /** Every element is taken or left, as seen from one element. */
  ghost predicate IsSplit<T(!new)>(whole: set<T>, taken: set<T>, left: set<T>) {
    && (forall e :: e in taken ==> e in whole && e !in left)
    && (forall e :: e in left ==> e in whole)
    && (forall e :: e in whole ==> e in taken || e in left)
  }

  lemma SplitMove<T(!new)>(whole: set<T>, taken: set<T>, left: set<T>, e: T)
    requires IsSplit(whole, taken, left) && e in left
    ensures IsSplit(whole, taken + {e}, left - {e})
  {
  }

  lemma PartsMove<T>(whole: set<T>, x: set<T>, y: set<T>, z: set<T>, e: T)
    requires AreParts(whole, x, y, z)
    ensures e in x ==> AreParts(whole, x - {e}, y + {e}, z)
    ensures e in y ==> AreParts(whole, x, y - {e}, z + {e})
  {
  }

  /** What is pending, waited for and finished fits together, and with the server's table. */
  ghost predicate IsState(job: Job, pending: set<string>, waiting: set<string>,
                          taskId: Identifiers, finished: set<string>, known: set<string>)
    requires job.Valid()
  {
    && AreIdentifiers(job, waiting, taskId) && |waiting| <= job.maxTasks
    && IsPartition(job, pending, Awaited(job, waiting), finished)
    && IsTable(known, job.owners.Keys, waiting)
  }

  lemma AwaitedAfterSubmit(job: Job, waiting: set<string>, id: string)
    requires job.Valid() && id in job.names
    ensures Awaited(job, waiting + {job.names[id]}) == Awaited(job, waiting) + {id}
  {
  }

  lemma AwaitedAfterFinish(job: Job, waiting: set<string>, taskId: Identifiers, task: string)
    requires job.Valid() && AreIdentifiers(job, waiting, taskId) && task in waiting
    ensures taskId[task] in Awaited(job, waiting)
    ensures Awaited(job, waiting - {task}) == Awaited(job, waiting) - {taskId[task]}
  {
  }

  lemma SubmitStep(job: Job, pending: set<string>, waiting: set<string>,
                   taskId: Identifiers, finished: set<string>, known: set<string>, id: string)
    requires job.Valid() && IsState(job, pending, waiting, taskId, finished, known)
    requires id in pending && |waiting| < job.maxTasks
    ensures id in job.names
    ensures var name := job.names[id];
            && name !in known
            && IsState(job, pending - {id}, waiting + {name}, taskId[name := id], finished, known + {name})
  {
    PartsMove(job.requests.Keys, pending, Awaited(job, waiting), finished, id);
    var name := job.names[id];
    AwaitedAfterSubmit(job, waiting, id);
    IdentifiersAfterSubmit(job, waiting, taskId, id);
    OneMore(waiting, name);
  }

  lemma OneMore<T>(s: set<T>, e: T)
    ensures |s + {e}| <= |s| + 1
  {
  }

  lemma IdentifiersAfterSubmit(job: Job, waiting: set<string>, taskId: Identifiers, id: string)
    requires job.Valid() && id in job.names && AreIdentifiers(job, waiting, taskId)
    ensures AreIdentifiers(job, waiting + {job.names[id]}, taskId[job.names[id] := id])
  {
  }

  lemma FinishStep(job: Job, pending: set<string>, waiting: set<string>, taskId: Identifiers,
                   finished: set<string>, known: set<string>, after: set<string>, task: string)
    requires job.Valid() && IsState(job, pending, waiting, taskId, finished, known) && task in waiting
    requires IsTable(after, job.owners.Keys, waiting - {task})
    ensures task in taskId && taskId[task] in job.requests && taskId[task] !in finished
    ensures job.names[taskId[task]] == task
    ensures IsState(job, pending, waiting - {task}, taskId, finished + {taskId[task]}, after)
  {
    PartsMove(job.requests.Keys, pending, Awaited(job, waiting), finished, taskId[task]);
    AwaitedAfterFinish(job, waiting, taskId, task);
    SubsetCardinality(waiting - {task}, waiting);
  }

  /** Each finished request has been notified once, with its own finished response. */
  ghost predicate IsNotified(job: Job, finished: Responses, notices: seq<Notice>, order: seq<string>)
    requires job.Valid() && finished.Keys <= job.requests.Keys
  {
    && multiset(order) == multiset(finished.Keys) && |notices| == |order|
    && (forall id | id in finished :: finished[id].done && finished[id].name == job.names[id])
    && (forall k | 0 <= k < |order| :: IsNoticeOf(job, finished, notices[k], order[k]))
  }

  ghost predicate IsNoticeOf(job: Job, finished: Responses, notice: Notice, id: string)
    requires job.Valid() && finished.Keys <= job.requests.Keys
  {
    id in finished && notice == Notice(job.requests[id], finished[id])
  }

  lemma OrderStep<T>(order: seq<T>, told: set<T>, id: T)
    requires multiset(order) == multiset(told) && id !in told
    ensures multiset(order + [id]) == multiset(told + {id})
    ensures id !in order
  {
    assert id !in multiset(order);
  }

  lemma NotifyStep(job: Job, finished: Responses, notices: seq<Notice>, order: seq<string>, id: string, operation: Operation)
    requires job.Valid() && finished.Keys <= job.requests.Keys && IsNotified(job, finished, notices, order)
    requires id in job.requests && id !in finished && operation.done && operation.name == job.names[id]
    ensures IsNotified(job, finished[id := operation], notices + [Notice(job.requests[id], operation)], order + [id])
  {
    OrderStep(order, finished.Keys, id);
    assert finished[id := operation].Keys == finished.Keys + {id};
    forall k | 0 <= k < |order|
      ensures IsNoticeOf(job, finished[id := operation], notices[k], order[k])
    {
      assert IsNoticeOf(job, finished, notices[k], order[k]);
    }
  }

  /** Each response is what its own task finished with. */
  ghost predicate AreResults(job: Job, finished: Responses, results: map<string, string>)
    requires job.Valid() && finished.Keys <= job.requests.Keys
  {
    forall id | id in finished :: IsResultOf(finished[id], job.names[id], results)
  }

  ghost predicate IsResultOf(operation: Operation, name: string, results: map<string, string>) {
    name in results && operation == Operation(name, true, results[name])
  }

  /** Each notice tells a request of the result its own task finished with. */
  ghost predicate NoticesCarryResults(job: Job, notices: seq<Notice>, order: seq<string>, results: map<string, string>) {
    && |notices| == |order|
    && forall k | 0 <= k < |notices| ::
         && order[k] in job.requests && order[k] in job.names && job.names[order[k]] in results
         && notices[k] == Notice(job.requests[order[k]], Operation(job.names[order[k]], true, results[job.names[order[k]]]))
  }

  lemma NoticesAreOfResults(job: Job, finished: Responses, notices: seq<Notice>, order: seq<string>, results: map<string, string>)
    requires job.Valid() && finished.Keys <= job.requests.Keys
    requires IsNotified(job, finished, notices, order) && AreResults(job, finished, results)
    ensures NoticesCarryResults(job, notices, order, results)
  {
    forall k | 0 <= k < |notices|
      ensures order[k] in finished && notices[k] == Notice(job.requests[order[k]], finished[order[k]])
    {
      assert IsNoticeOf(job, finished, notices[k], order[k]);
    }
  }

  /** The results of finished requests are still on record. */
  ghost predicate ResultsStay(job: Job, finished: set<string>, before: map<string, string>, after: map<string, string>) {
    forall id | id in finished && id in job.names && job.names[id] in before ::
      job.names[id] in after && after[job.names[id]] == before[job.names[id]]
  }

  /** A finished request has no running task, so what the server does between two calls
      leaves its result alone. */
  lemma ResultsStayAfterRun(job: Job, pending: set<string>, waiting: set<string>, taskId: Identifiers, finished: set<string>,
                            known: set<string>, left: map<string, nat>, before: map<string, string>, after: map<string, string>)
    requires job.Valid() && IsState(job, pending, waiting, taskId, finished, known) && left.Keys <= known
    requires ResultsKept(job.owners.Keys, left, before, after)
    ensures ResultsStay(job, finished, before, after)
  {
    assert forall t | t in known && t in job.owners.Keys :: t in known * job.owners.Keys;
    assert forall id | id in finished :: id !in Awaited(job, waiting);
  }

  lemma ResultsStayTransitive(job: Job, finished: set<string>,
                              x: map<string, string>, y: map<string, string>, z: map<string, string>)
    requires ResultsStay(job, finished, x, y) && ResultsStay(job, finished, y, z)
    ensures ResultsStay(job, finished, x, z)
  {
  }

  lemma AreStillResults(job: Job, finished: Responses, before: map<string, string>, after: map<string, string>)
    requires job.Valid() && finished.Keys <= job.requests.Keys
    requires AreResults(job, finished, before) && ResultsStay(job, finished.Keys, before, after)
    ensures AreResults(job, finished, after)
  {
    forall id | id in finished
      ensures IsResultOf(finished[id], job.names[id], after)
    {
      assert IsResultOf(finished[id], job.names[id], before);
    }
  }

  /** At every submission fewer than `maxTasks` of the client's own tasks were running. */
  ghost predicate IsWithinLimit(job: Job, submission: Submission) {
    |submission.running * job.owners.Keys| < job.maxTasks
  }

  /** That holds of all submissions after the first `from`. */
  ghost predicate WithinLimit(job: Job, submissions: seq<Submission>, from: nat) {
    from <= |submissions| && forall k | from <= k < |submissions| :: IsWithinLimit(job, submissions[k])
  }

  lemma LimitStep(job: Job, known: set<string>, waiting: set<string>, running: set<string>,
                  before: seq<Submission>, name: string, from: nat)
    requires WithinLimit(job, before, from)
    requires running <= known && IsTable(known, job.owners.Keys, waiting) && |waiting| < job.maxTasks
    ensures WithinLimit(job, before + [Submission(name, running)], from)
  {
    SubsetCardinality(running * job.owners.Keys, waiting);
  }

  /** What the server does between two calls leaves the client's names alone. */
  lemma StateAfterRun(job: Job, pending: set<string>, waiting: set<string>, taskId: Identifiers,
                      finished: set<string>, before: Table, after: Table)
    requires job.Valid() && IsState(job, pending, waiting, taskId, finished, before.Keys)
    requires Advanced(job.owners.Keys, before, after)
    ensures IsState(job, pending, waiting, taskId, finished, after.Keys)
  {
    assert after.Keys * job.owners.Keys == before.Keys * job.owners.Keys;
  }

  /** The server takes no name of this client for that of another. */
  ghost predicate Serves(server: TaskServer, job: Job)
    reads server, server.service
  {
    server.Valid() && server.mine == job.owners.Keys
  }

  // ----- Sending -----

  /** The server runs before a call of the client, and leaves what the client knows true. */
  method LetRun(job: Job, server: TaskServer, ghost pending: set<string>, ghost waiting: set<string>,
                ghost taskId: Identifiers, ghost finished: set<string>, ghost original: map<string, string>)
    requires job.Valid() && Serves(server, job)
    requires IsState(job, pending, waiting, taskId, finished, server.service.table.Keys)
    requires ResultsStay(job, finished, original, server.results)
    modifies server`left, server`results, server.service
    ensures Serves(server, job) && OnlyRan(job.owners.Keys, old(server.left), server.left)
    ensures IsState(job, pending, waiting, taskId, finished, server.service.table.Keys)
    ensures ResultsStay(job, finished, original, server.results)
  {
    server.Run();
    StateAfterRun(job, pending, waiting, taskId, finished, old(server.service.table), server.service.table);
    ResultsStayAfterRun(job, pending, waiting, taskId, finished, old(server.service.table).Keys, old(server.left),
                        old(server.results), server.results);
    ResultsStayTransitive(job, finished, original, old(server.results), server.results);
  }

  /** Submits one request. */
  method SubmitOne(job: Job, server: TaskServer, ghost pending: set<string>,
                   start: set<string>, known: Identifiers, ghost finished: set<string>, id: string, ghost from: nat,
                   ghost original: map<string, string>)
    returns (waiting: set<string>, taskId: Identifiers)
    requires job.Valid() && Serves(server, job) && id in pending && |start| < job.maxTasks
    requires WithinLimit(job, server.submissions, from)
    requires IsState(job, pending, start, known, finished, server.service.table.Keys)
    requires ResultsStay(job, finished, original, server.results)
    modifies server, server.service
    ensures Serves(server, job)
    ensures IsState(job, pending - {id}, waiting, taskId, finished, server.service.table.Keys)
    ensures WithinLimit(job, server.submissions, from)
    ensures ResultsStay(job, finished, original, server.results)
  {
    LetRun(job, server, pending, start, known, finished, original);
    LimitStep(job, server.service.table.Keys, start, server.left.Keys, server.submissions, job.names[id], from);
    SubmitStep(job, pending, start, known, finished, server.service.table.Keys, id);
    var response := server.Submit(job.names[id]);
    waiting := start + {response.name};
    taskId := known[response.name := id];
  }

  /** The same operations are waited for, and their tasks have as long as before. */
  ghost predicate IsUntouched(waiting: set<string>, before: set<string>, left: map<string, nat>, leftBefore: map<string, nat>) {
    waiting == before && left == leftBefore
  }

  /** Sends pending requests until the limit is reached. */
  method SubmitRequests(job: Job, server: TaskServer, pending: set<string>,
                        start: set<string>, known: Identifiers, ghost finished: set<string>, ghost from: nat)
    returns (toRemove: set<string>, waiting: set<string>, taskId: Identifiers, ghost rest: set<string>)
    requires job.Valid() && Serves(server, job)
    requires IsState(job, pending, start, known, finished, server.service.table.Keys)
    requires WithinLimit(job, server.submissions, from)
    modifies server, server.service
    ensures Serves(server, job) && IsSplit(pending, toRemove, rest)
    ensures IsState(job, rest, waiting, taskId, finished, server.service.table.Keys)
    ensures WithinLimit(job, server.submissions, from)
    ensures ResultsStay(job, finished, old(server.results), server.results)
    ensures rest == {} || |waiting| == job.maxTasks
    ensures toRemove == {} ==> IsUntouched(waiting, start, server.left, old(server.left))
    ensures toRemove == {} ==> pending == {} || |start| >= job.maxTasks
  {
    toRemove, waiting, taskId := {}, start, known;
    var todo := pending;
    while todo != {} && |waiting| < job.maxTasks
      invariant Serves(server, job) && IsSplit(pending, toRemove, todo)
      invariant IsState(job, todo, waiting, taskId, finished, server.service.table.Keys)
      invariant WithinLimit(job, server.submissions, from)
      invariant ResultsStay(job, finished, old(server.results), server.results)
      invariant toRemove == {} ==> IsUntouched(waiting, start, server.left, old(server.left))
      decreases todo
    {
      var id :| id in todo;
      SplitMove(pending, toRemove, todo, id);
      waiting, taskId := SubmitOne(job, server, todo, waiting, taskId, finished, id, from, old(server.results));
      toRemove := toRemove + {id};
      todo := todo - {id};
    }
    rest := todo;
  }

  // ----- Polling -----

  lemma OneLess(known: set<string>, owned: set<string>, waiting: set<string>, task: string)
    requires IsTable(known, owned, waiting)
    ensures IsTable(known - {task}, owned, waiting - {task})
  {
  }

  /** Asks about one operation that is waited for. It is known to the server; and if it is
      not done, its task was still running. */
  method PollOne(job: Job, server: TaskServer, ghost pending: set<string>, ghost waiting: set<string>,
                 ghost taskId: Identifiers, ghost finished: set<string>, task: string)
    returns (status: Status, operation: Operation)
    requires job.Valid() && Serves(server, job) && task in waiting
    requires IsState(job, pending, waiting, taskId, finished, server.service.table.Keys)
    modifies server`left, server`results, server.service
    ensures Serves(server, job) && status.Ok? && OnlyRan(job.owners.Keys, old(server.left), server.left)
    ensures operation.done ==> IsResultOf(operation, task, server.results)
    ensures ResultsStay(job, finished, old(server.results), server.results)
    ensures !operation.done ==> task in old(server.left)
    ensures IsTable(server.service.table.Keys, job.owners.Keys, if operation.done then waiting - {task} else waiting)
  {
    LetRun(job, server, pending, waiting, taskId, finished, server.results);
    OneLess(server.service.table.Keys, job.owners.Keys, waiting, task);
    assert task in server.service.table.Keys * job.owners.Keys;
    status, operation := server.service.GetOperation(task);
  }

  /** One more operation is done: it is no longer waited for, and has been notified. */
  lemma RecordStep(job: Job, pending: set<string>, waiting: set<string>, taskId: Identifiers,
                   known: set<string>, after: set<string>, finished: Responses, notices: seq<Notice>,
                   order: seq<string>, results: map<string, string>, task: string, operation: Operation)
    requires job.Valid() && IsState(job, pending, waiting, taskId, finished.Keys, known) && task in waiting
    requires IsTable(after, job.owners.Keys, waiting - {task})
    requires IsNotified(job, finished, notices, order) && AreResults(job, finished, results)
    requires IsResultOf(operation, task, results)
    ensures task in taskId && taskId[task] in job.requests
    ensures var id := taskId[task];
            var more := finished[id := operation];
            && IsState(job, pending, waiting - {task}, taskId, more.Keys, after)
            && IsNotified(job, more, notices + [Notice(job.requests[id], operation)], order + [id])
            && AreResults(job, more, results)
  {
    FinishStep(job, pending, waiting, taskId, finished.Keys, known, after, task);
    var id := taskId[task];
    NotifyStep(job, finished, notices, order, id, operation);
    assert finished[id := operation].Keys == finished.Keys + {id};
  }

  lemma SameAwaited(job: Job, pending: set<string>, waiting: set<string>, taskId: Identifiers,
                    finished: set<string>, known: set<string>, after: set<string>)
    requires job.Valid() && IsState(job, pending, waiting, taskId, finished, known)
    requires IsTable(after, job.owners.Keys, waiting)
    ensures IsState(job, pending, waiting, taskId, finished, after)
  {
  }

  /** Asks about every operation that is waited for, and notifies of those that are done. */
  method PollTasks(job: Job, server: TaskServer, ghost pending: set<string>,
                   waiting: set<string>, taskId: Identifiers, responses: Responses, notes: seq<Notice>,
                   ghost notified: seq<string>)
    returns (raised: bool, finishedTasks: set<string>, finished: Responses, notices: seq<Notice>,
             ghost order: seq<string>, ghost still: set<string>)
    requires job.Valid() && Serves(server, job)
    requires IsState(job, pending, waiting, taskId, responses.Keys, server.service.table.Keys)
    requires IsNotified(job, responses, notes, notified) && AreResults(job, responses, server.results)
    modifies server`left, server`results, server.service
    ensures !raised && Serves(server, job) && OnlyRan(job.owners.Keys, old(server.left), server.left)
    ensures IsSplit(waiting, finishedTasks, still)
    ensures IsState(job, pending, still, taskId, finished.Keys, server.service.table.Keys)
    ensures IsNotified(job, finished, notices, order) && AreResults(job, finished, server.results)
    ensures forall t | t in still :: t in old(server.left)
  {
    raised, finishedTasks, finished, notices, order, still := false, {}, responses, notes, notified, waiting;
    var todo := waiting;
    while todo != {}
      invariant !raised && Serves(server, job) && OnlyRan(job.owners.Keys, old(server.left), server.left)
      invariant todo <= still && IsSplit(waiting, finishedTasks, still)
      invariant IsState(job, pending, still, taskId, finished.Keys, server.service.table.Keys)
      invariant IsNotified(job, finished, notices, order) && AreResults(job, finished, server.results)
      invariant forall t | t in still && t !in todo :: t in old(server.left)
      decreases todo
    {
      var task :| task in todo;
      ghost var known := server.service.table.Keys;
      ghost var results := server.results;
      var status, response := PollOne(job, server, pending, still, taskId, finished.Keys, task);
      AreStillResults(job, finished, results, server.results);
      if !status.Ok? {
        raised := true;
        return;
      }
      if response.done {
        RecordStep(job, pending, still, taskId, known, server.service.table.Keys, finished, notices, order, server.results,
                   task, response);
        SplitMove(waiting, finishedTasks, still, task);
        var id := taskId[task];
        finished := finished[id := response];
        finishedTasks := finishedTasks + {task};
        notices, order := notices + [Notice(job.requests[id], response)], order + [id];
        still := still - {task};
      } else {
        SameAwaited(job, pending, still, taskId, finished.Keys, known, server.service.table.Keys);
      }
      todo := todo - {task};
    }
  }

  // ----- The whole wait -----

  function Remaining(left: map<string, nat>, t: string): nat {
    if t in left then left[t] + 1 else 0
  }

  /** What is still to come of the operations that are waited for. */
  ghost function Work(waiting: set<string>, left: map<string, nat>): set<(string, nat)> {
    set t, k: nat | t in waiting && k <= Remaining(left, t) :: (t, k)
  }

  ghost predicate IsNearer(waiting: set<string>, left: map<string, nat>, before: set<string>, leftBefore: map<string, nat>) {
    Work(waiting, left) < Work(before, leftBefore)
  }

  /** A pass that sends nothing ends nearer to the end: of those that are waited for, each
      is either done now, or was running and has less time left. */
  lemma WorkShrinks(waiting: set<string>, before: map<string, nat>, still: set<string>, after: map<string, nat>)
    requires waiting != {} && still <= waiting
    requires forall t | t in still :: t in before
    requires still != {} ==> forall t | t in still && t in after :: t in before && after[t] < before[t]
    ensures Work(still, after) < Work(waiting, before)
  {
    var t :| t in waiting && (still != {} ==> t in still);
    assert (t, Remaining(before, t)) in Work(waiting, before);
    assert (t, Remaining(before, t)) !in Work(still, after);
  }

  lemma SplitIsDifference<T(!new)>(whole: set<T>, taken: set<T>, left: set<T>)
    requires IsSplit(whole, taken, left)
    ensures left == whole - taken
  {
  }

  method RemoveAll(start: set<string>, toRemove: set<string>) returns (rest: set<string>)
    ensures rest == start - toRemove
  {
    rest := start;
    var todo := toRemove;
    while todo != {}
      invariant todo <= toRemove && rest == start - (toRemove - todo)
      decreases todo
    {
      var id :| id in todo;
      rest := rest - {id};
      todo := todo - {id};
    }
  }

  /** Sends what the limit allows, and removes what was sent from what is pending. */
  method Send(job: Job, server: TaskServer, start: set<string>, waitingBefore: set<string>,
              known: Identifiers, ghost finished: set<string>, ghost from: nat)
    returns (pending: set<string>, waiting: set<string>, taskId: Identifiers)
    requires job.Valid() && Serves(server, job) && (start != {} || waitingBefore != {})
    requires IsState(job, start, waitingBefore, known, finished, server.service.table.Keys)
    requires WithinLimit(job, server.submissions, from)
    modifies server, server.service
    ensures Serves(server, job)
    ensures IsState(job, pending, waiting, taskId, finished, server.service.table.Keys)
    ensures WithinLimit(job, server.submissions, from)
    ensures ResultsStay(job, finished, old(server.results), server.results)
    ensures pending < start || (pending == start && waiting != {} && IsUntouched(waiting, waitingBefore, server.left, old(server.left)))
  {
    var toRemove;
    ghost var rest;
    toRemove, waiting, taskId, rest := SubmitRequests(job, server, start, waitingBefore, known, finished, from);
    SplitIsDifference(start, toRemove, rest);
    pending := RemoveAll(start, toRemove);
    StartIsKnown(start, toRemove, pending);
  }

  lemma StartIsKnown<T(!new)>(start: set<T>, taken: set<T>, rest: set<T>)
    requires IsSplit(start, taken, rest)
    ensures rest < start || (rest == start && taken == {})
  {
    if taken != {} {
      var e :| e in taken;
      assert e in start && e !in rest;
    }
  }

  method Without(whole: set<string>, taken: set<string>, ghost left: set<string>) returns (rest: set<string>)
    requires IsSplit(whole, taken, left)
    ensures rest == left
  {
    SplitIsDifference(whole, taken, left);
    rest := whole - taken;
  }

  /** What runs among the client's tasks was running at `before`, and has less time left. */
  ghost predicate HasLessLeft(names: set<string>, before: map<string, nat>, left: map<string, nat>) {
    forall t | t in left && t in names :: t in before && left[t] < before[t]
  }

  /** Sleeps between two passes if anything is still waited for: the state of the wait
      stays, and time passes. */
  method SleepIfWaiting(job: Job, server: TaskServer, ghost pending: set<string>, waiting: set<string>,
                        ghost taskId: Identifiers, ghost finished: Responses, ghost before: map<string, nat>)
    requires job.Valid() && Serves(server, job) && OnlyRan(job.owners.Keys, before, server.left)
    requires IsState(job, pending, waiting, taskId, finished.Keys, server.service.table.Keys)
    requires AreResults(job, finished, server.results)
    modifies server`left, server`results, server.service
    ensures Serves(server, job) && (waiting != {} ==> HasLessLeft(job.owners.Keys, before, server.left))
    ensures IsState(job, pending, waiting, taskId, finished.Keys, server.service.table.Keys)
    ensures AreResults(job, finished, server.results)
  {
    if waiting != {} {
      server.Sleep();
      StateAfterRun(job, pending, waiting, taskId, finished.Keys, old(server.service.table), server.service.table);
      ResultsStayAfterRun(job, pending, waiting, taskId, finished.Keys, old(server.service.table).Keys,
                          old(server.left), old(server.results), server.results);
      AreStillResults(job, finished, old(server.results), server.results);
    }
  }

  lemma PassIsNearer(job: Job, pending: set<string>, sent: set<string>, taken: set<string>, waiting: set<string>,
                     taskId: Identifiers, finished: set<string>, known: set<string>,
                     before: map<string, nat>, left: map<string, nat>)
    requires job.Valid() && IsState(job, pending, waiting, taskId, finished, known) && IsSplit(sent, taken, waiting)
    requires forall t | t in waiting :: t in before
    requires waiting != {} ==> HasLessLeft(job.owners.Keys, before, left)
    ensures sent != {} ==> IsNearer(waiting, left, sent, before)
  {
    if sent != {} {
      WorkShrinks(sent, before, waiting, left);
    }
  }

  /** Polls what is waited for, drops what is done, and sleeps if anything remains. What
      remains is nearer to its end. */
  method Receive(job: Job, server: TaskServer, ghost pending: set<string>, sent: set<string>,
                 taskId: Identifiers, responses: Responses, notes: seq<Notice>, ghost notified: seq<string>)
    returns (raised: bool, waiting: set<string>, finished: Responses, notices: seq<Notice>, ghost order: seq<string>)
    requires job.Valid() && Serves(server, job)
    requires IsState(job, pending, sent, taskId, responses.Keys, server.service.table.Keys)
    requires IsNotified(job, responses, notes, notified) && AreResults(job, responses, server.results)
    modifies server`left, server`results, server.service
    ensures !raised && Serves(server, job)
    ensures server.submissions == old(server.submissions)
    ensures IsState(job, pending, waiting, taskId, finished.Keys, server.service.table.Keys)
    ensures IsNotified(job, finished, notices, order) && AreResults(job, finished, server.results)
    ensures sent != {} ==> IsNearer(waiting, server.left, sent, old(server.left))
  {
    var finishedTasks;
    ghost var still;
    raised, finishedTasks, finished, notices, order, still :=
      PollTasks(job, server, pending, sent, taskId, responses, notes, notified);
    waiting := Without(sent, finishedTasks, still);
    SleepIfWaiting(job, server, pending, waiting, taskId, finished, old(server.left));
    PassIsNearer(job, pending, sent, finishedTasks, waiting, taskId, finished.Keys, server.service.table.Keys,
                 old(server.left), server.left);
  }

  lemma StateAtStart(job: Job, known: set<string>)
    requires job.Valid() && known !! job.owners.Keys
    ensures IsState(job, job.requests.Keys, {}, map[], {}, known)
  {
    assert Awaited(job, {}) == {};
  }

  lemma StateAtEnd(job: Job, taskId: Identifiers, finished: set<string>, known: set<string>)
    requires job.Valid() && IsState(job, {}, {}, taskId, finished, known)
    ensures finished == job.requests.Keys && known !! job.owners.Keys
  {
    assert Awaited(job, {}) == {};
    assert forall t | t in known && t in job.owners.Keys :: t in known * job.owners.Keys;
  }

  /** One pass of the outer loop. Either fewer requests are pending, or the same, and
      what is waited for is nearer to its end. */
  method Pass(job: Job, server: TaskServer, start: set<string>, waitingBefore: set<string>,
              known: Identifiers, responses: Responses, notes: seq<Notice>, ghost notified: seq<string>,
              ghost from: nat)
    returns (raised: bool, pending: set<string>, waiting: set<string>, taskId: Identifiers, finished: Responses,
             notices: seq<Notice>, ghost order: seq<string>)
    requires job.Valid() && Serves(server, job) && (start != {} || waitingBefore != {})
    requires IsState(job, start, waitingBefore, known, responses.Keys, server.service.table.Keys)
    requires IsNotified(job, responses, notes, notified) && AreResults(job, responses, server.results)
    requires WithinLimit(job, server.submissions, from)
    modifies server, server.service
    ensures !raised && Serves(server, job)
    ensures IsState(job, pending, waiting, taskId, finished.Keys, server.service.table.Keys)
    ensures IsNotified(job, finished, notices, order) && AreResults(job, finished, server.results)
    ensures WithinLimit(job, server.submissions, from)
    ensures pending < start ||
            (pending == start && IsNearer(waiting, server.left, waitingBefore, old(server.left)))
  {
    var sent;
    pending, sent, taskId := Send(job, server, start, waitingBefore, known, responses.Keys, from);
    AreStillResults(job, responses, old(server.results), server.results);
    raised, waiting, finished, notices, order :=
      Receive(job, server, pending, sent, taskId, responses, notes, notified);
  }

  /** Sends all requests and waits until all are finished: no poll misses, each request
      is notified once with the result its own task finished with, the limit is kept, no result stays behind
      in the table, and the wait ends. */
  method WaitForOperations(job: Job, server: TaskServer)
    returns (raised: bool, answer: bool, finished: Responses, notices: seq<Notice>, ghost order: seq<string>)
    requires job.Valid() && Serves(server, job) && server.service.table.Keys !! job.owners.Keys
    modifies server, server.service
    ensures !raised && answer == (job.requests.Keys != {})
    ensures Serves(server, job) && server.service.table.Keys !! job.owners.Keys
    ensures finished.Keys == job.requests.Keys && IsNotified(job, finished, notices, order)
    ensures NoticesCarryResults(job, notices, order, server.results)
    ensures WithinLimit(job, server.submissions, |old(server.submissions)|)
  {
    var pending, waiting, taskId: Identifiers := job.requests.Keys, {}, map[];
    ghost var from := |server.submissions|;
    raised, finished, notices, order := false, map[], [], [];
    StateAtStart(job, server.service.table.Keys);
    assert finished.Keys == {};
    while waiting != {} || pending != {}
      invariant !raised && Serves(server, job)
      invariant IsState(job, pending, waiting, taskId, finished.Keys, server.service.table.Keys)
      invariant IsNotified(job, finished, notices, order) && AreResults(job, finished, server.results)
      invariant WithinLimit(job, server.submissions, from)
      decreases pending, Work(waiting, server.left)
    {
      raised, pending, waiting, taskId, finished, notices, order :=
        Pass(job, server, pending, waiting, taskId, finished, notices, order, from);
      if raised {
        return;
      }
    }
    StateAtEnd(job, taskId, finished.Keys, server.service.table.Keys);
    NoticesAreOfResults(job, finished, notices, order, server.results);
    answer := finished.Keys != {};
  }
}
