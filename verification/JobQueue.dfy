/**
 * The server's two threads. The reader takes requests from the input, answers some itself and
 * queues the others for the worker; a mutex guards the queue and a condition variable wakes the
 * worker. Every access to shared state is a step, and the threads' steps interleave freely.
 */
module JobQueue {
  import opened JsonRpc

  /** One line of input: a JSON value, or text that is none. */
  datatype Input = Message(request: Json) | Unparsable(error: string)

  datatype Reader =
    | Reading
    | Inline(request: Json)
    | Locking(request: Json)
    | Pushing(request: Json)
    | Pushed
    | Notifying
    | StopLocking
    | StopSetting
    | StopSet
    | NotifyingAll
    | Joining
    | Returned

  datatype Worker =
    | Entering
    | Testing
    | Asleep
    | Woken
    | Taking
    | Working(request: Json)
    | Ended

  datatype Thread = ReaderThread | WorkerThread | Nobody

  datatype State = State(
    input: seq<Input>,
    reader: Reader,
    worker: Worker,
    mutex: Thread,
    jobs: seq<Json>,
    shuttingDown: bool,
    handled: seq<Json>,
    written: seq<Json>)

  function Initial(input: seq<Input>): State {
    State(input, Reading, Entering, Nobody, [], false, [], [])
  }

  predicate NeedsWorker(request: Json) {
    request.Get("method").Text?
    && request.Get("method").s in {"tools/call", "tools/list", "resources/list", "resources/read"}
  }

  // ----- Steps -----

  /** Who moves; `tools` says what the tools do if the step handles a request. */
  datatype Step = Read(tools: Tools) | Work(tools: Tools) | Spurious

  /** The mutex is all a thread ever has to wait for, but for a sleeping or finished worker. */
  predicate Enabled(s: State, step: Step) {
    match step
    case Read(_) =>
      (match s.reader
       case Locking(_) => s.mutex.Nobody?
       case StopLocking => s.mutex.Nobody?
       case Joining => s.worker.Ended?
       case Returned => false
       case _ => true)
    case Work(_) =>
      (match s.worker
       case Entering => s.mutex.Nobody?
       case Woken => s.mutex.Nobody?
       case Asleep => false
       case Ended => false
       case _ => true)
    case Spurious => s.worker.Asleep?
  }

  function Wake(worker: Worker): Worker {
    if worker.Asleep? then Woken else worker
  }

  function ReaderStep(s: State, tools: Tools): State {
    match s.reader
    case Reading =>
      if s.input == [] then s.(reader := StopLocking)
      else
        (match s.input[0]
         case Unparsable(error) =>
           s.(input := s.input[1..], written := s.written + [Error(Null, PARSE_ERROR, "Parse error: " + error)])
         case Message(request) =>
           s.(input := s.input[1..], reader := if NeedsWorker(request) then Locking(request) else Inline(request)))
    case Inline(request) => s.(reader := Reading, written := s.written + Handle(request, tools))
    case Locking(request) => s.(reader := Pushing(request), mutex := ReaderThread)
    case Pushing(request) => s.(reader := Pushed, jobs := s.jobs + [request])
    case Pushed => s.(reader := Notifying, mutex := Nobody)
    case Notifying => s.(reader := Reading, worker := Wake(s.worker))
    case StopLocking => s.(reader := StopSetting, mutex := ReaderThread)
    case StopSetting => s.(reader := StopSet, shuttingDown := true)
    case StopSet => s.(reader := NotifyingAll, mutex := Nobody)
    case NotifyingAll => s.(reader := Joining, worker := Wake(s.worker))
    case Joining => s.(reader := Returned)
    case Returned => s
  }

  /** The condition variable releases the mutex and puts the worker to sleep in one step. */
  function WorkerStep(s: State, tools: Tools): State {
    match s.worker
    case Entering => s.(worker := Testing, mutex := WorkerThread)
    case Woken => s.(worker := Testing, mutex := WorkerThread)
    case Testing =>
      if s.shuttingDown || s.jobs != [] then s.(worker := Taking) else s.(worker := Asleep, mutex := Nobody)
    case Taking =>
      if s.jobs == [] then s.(worker := Ended, mutex := Nobody)
      else s.(worker := Working(s.jobs[0]), jobs := s.jobs[1..], mutex := Nobody)
    case Working(request) =>
      s.(worker := Entering, handled := s.handled + [request], written := s.written + Handle(request, tools))
    case Asleep => s
    case Ended => s
  }

  function Apply(s: State, step: Step): State {
    match step
    case Read(tools) => ReaderStep(s, tools)
    case Work(tools) => WorkerStep(s, tools)
    case Spurious => s.(worker := Wake(s.worker))
  }

  predicate Runs(s: State, steps: seq<Step>)
    decreases |steps|, 0
  {
    steps == [] || (var n := |steps| - 1; Runs(s, steps[..n]) && Enabled(After(s, steps[..n]), steps[n]))
  }

  function After(s: State, steps: seq<Step>): State
    decreases |steps|, 1
  {
    if steps == [] then s else Apply(After(s, steps[..|steps| - 1]), steps[|steps| - 1])
  }

  // ----- What every interleaving keeps -----

  /** The mutex is held exactly by the thread that is between its lock and its unlock. */
  predicate MutexHeld(s: State) {
    && (s.mutex.ReaderThread? <==> s.reader.Pushing? || s.reader.Pushed? || s.reader.StopSetting? || s.reader.StopSet?)
    && (s.mutex.WorkerThread? <==> s.worker.Testing? || s.worker.Taking?)
  }

  predicate Stopping(reader: Reader) {
    reader.StopSet? || reader.NotifyingAll? || reader.Joining? || reader.Returned?
  }

  /** A notification is due: the reader has changed what the worker waits for and not yet said so. */
  predicate WakeUpOwed(reader: Reader) {
    reader.Pushed? || reader.Notifying? || reader.StopSet? || reader.NotifyingAll?
  }

  predicate Coherent(s: State) {
    && MutexHeld(s)
    && (s.shuttingDown <==> Stopping(s.reader))
    && (Stopping(s.reader) || s.reader.StopLocking? || s.reader.StopSetting? ==> s.input == [])
    && (s.worker.Asleep? && (s.jobs != [] || s.shuttingDown) ==> WakeUpOwed(s.reader))
    && (s.worker.Taking? ==> s.jobs != [] || s.shuttingDown)
    && (s.worker.Ended? ==> s.shuttingDown && s.jobs == [])
    && (s.reader.Returned? ==> s.worker.Ended?)
  }

  lemma StepKeepsCoherent(s: State, step: Step)
    requires Coherent(s) && Enabled(s, step)
    ensures Coherent(Apply(s, step))
  {
    hide NeedsWorker, Handle, Error;
  }

  lemma {:induction false} RunsStayCoherent(input: seq<Input>, steps: seq<Step>)
    requires Runs(Initial(input), steps)
    ensures Coherent(After(Initial(input), steps))
    decreases |steps|
  {
    hide Coherent, Apply, Enabled;
    if steps == [] {
      InitialIsCoherent(input);
    } else {
      var n := |steps| - 1;
      RunsStayCoherent(input, steps[..n]);
      StepKeepsCoherent(After(Initial(input), steps[..n]), steps[n]);
    }
  }

  lemma InitialIsCoherent(input: seq<Input>)
    ensures Coherent(Initial(input))
  {
  }

  /** The worker never sleeps through work or the shutdown unless a notification is still to come. */
  lemma {:induction false} NoLostWakeUp(input: seq<Input>, steps: seq<Step>)
    requires Runs(Initial(input), steps)
    ensures var s := After(Initial(input), steps);
      s.worker.Asleep? && (s.shuttingDown || s.jobs != []) ==> WakeUpOwed(s.reader)
  {
    hide Runs, After, WakeUpOwed, MutexHeld, Stopping;
    RunsStayCoherent(input, steps);
  }

  // ----- First in, first out -----

  function WorkerJobs(input: seq<Input>): seq<Json> {
    if input == [] then []
    else
      (if input[0].Message? && NeedsWorker(input[0].request) then [input[0].request] else [])
      + WorkerJobs(input[1..])
  }

  function InHand(reader: Reader): seq<Json> {
    if reader.Locking? || reader.Pushing? then [reader.request] else []
  }

  function InFlight(worker: Worker): seq<Json> {
    if worker.Working? then [worker.request] else []
  }

  /** Everything pushed so far, oldest first. */
  function Accepted(s: State): seq<Json> {
    s.handled + InFlight(s.worker) + s.jobs
  }

  function Ahead(s: State): seq<Json> {
    Accepted(s) + (InHand(s.reader) + WorkerJobs(s.input))
  }

  lemma ReaderKeepsOrder(s: State, tools: Tools)
    ensures var v := ReaderStep(s, tools);
      && InHand(v.reader) + WorkerJobs(v.input) ==
           (if s.reader.Pushing? then WorkerJobs(s.input) else InHand(s.reader) + WorkerJobs(s.input))
      && Accepted(v) == Accepted(s) + if s.reader.Pushing? then [s.reader.request] else []
  {
    hide ReaderStep, WorkerJobs, Accepted, InHand;
    HandPasses(s, tools);
    QueueGrows(s, tools);
  }

  lemma HandPasses(s: State, tools: Tools)
    ensures var v := ReaderStep(s, tools);
      InHand(v.reader) + WorkerJobs(v.input) ==
        if s.reader.Pushing? then WorkerJobs(s.input) else InHand(s.reader) + WorkerJobs(s.input)
  {
    hide NeedsWorker, Handle, Error;
    if s.reader.Reading? && s.input != [] {
      assert WorkerJobs(s.input) ==
        (if s.input[0].Message? && NeedsWorker(s.input[0].request) then [s.input[0].request] else [])
        + WorkerJobs(s.input[1..]);
    } else {
      hide WorkerJobs;
    }
  }

  lemma QueueGrows(s: State, tools: Tools)
    ensures Accepted(ReaderStep(s, tools)) == Accepted(s) + if s.reader.Pushing? then [s.reader.request] else []
  {
    hide NeedsWorker, Handle, Error, InFlight;
    var v := ReaderStep(s, tools);
    WakingFlight(s.worker);
    if s.reader.Pushing? {
      SeamMoves(s.handled + InFlight(s.worker), s.jobs, [s.reader.request]);
    } else {
      assert v.jobs == s.jobs && v.handled == s.handled;
      assert Accepted(s) + [] == Accepted(s);
    }
  }

  lemma WakingFlight(worker: Worker)
    ensures InFlight(Wake(worker)) == InFlight(worker)
  {
  }

  lemma WorkerKeepsOrder(s: State, tools: Tools)
    ensures var v := WorkerStep(s, tools);
      Accepted(v) == Accepted(s) && v.reader == s.reader && v.input == s.input
  {
    hide Handle;
    if s.worker.Taking? && s.jobs != [] {
      assert s.jobs == [s.jobs[0]] + s.jobs[1..];
    }
  }

  /** What was pushed is handled, in flight or queued, and only a push by the reader adds to it. */
  lemma StepKeepsOrder(s: State, step: Step)
    requires Enabled(s, step)
    ensures var v := Apply(s, step);
      && Ahead(v) == Ahead(s)
      && Accepted(v) == Accepted(s) + (if step.Read? && s.reader.Pushing? then [s.reader.request] else [])
  {
    hide ReaderStep, WorkerStep, WorkerJobs, Enabled, Accepted, InHand;
    match step
    case Read(tools) =>
      ReaderKeepsOrder(s, tools);
      PushMovesAhead(s, tools);
    case Work(tools) =>
      WorkerKeepsOrder(s, tools);
    case Spurious =>
      WakingKeepsOrder(s);
  }

  lemma PushMovesAhead(s: State, tools: Tools)
    ensures Ahead(ReaderStep(s, tools)) == Ahead(s)
  {
    hide ReaderStep, WorkerJobs, Accepted, InHand;
    ReaderKeepsOrder(s, tools);
    if s.reader.Pushing? {
      PushingHolds(s.reader);
      SeamMoves(Accepted(s), [s.reader.request], WorkerJobs(s.input));
    } else {
      assert Accepted(s) + [] == Accepted(s);
    }
  }

  lemma PushingHolds(reader: Reader)
    requires reader.Pushing?
    ensures InHand(reader) == [reader.request]
  {
  }

  lemma SeamMoves<T>(a: seq<T>, b: seq<T>, c: seq<T>)
    ensures (a + b) + c == a + (b + c)
  {
  }

  lemma WakingKeepsOrder(s: State)
    ensures Accepted(s.(worker := Wake(s.worker))) == Accepted(s)
  {
  }

  /** Requests for the worker are handled once each, in the order in which they were read. */
  lemma {:induction false} JobsStayInOrder(input: seq<Input>, steps: seq<Step>)
    requires Runs(Initial(input), steps)
    ensures Ahead(After(Initial(input), steps)) == WorkerJobs(input)
    decreases |steps|
  {
    hide Apply, Enabled, WorkerJobs, Ahead;
    if steps == [] {
      NothingAhead(input);
    } else {
      var n := |steps| - 1;
      JobsStayInOrder(input, steps[..n]);
      StepKeepsOrder(After(Initial(input), steps[..n]), steps[n]);
    }
  }

  lemma NothingAhead(input: seq<Input>)
    ensures Ahead(Initial(input)) == WorkerJobs(input)
  {
  }

  // ----- Responses -----

  function OwedForInput(input: Input): multiset<Json> {
    match input
    case Message(request) => Owed(request)
    case Unparsable(_) => multiset{Null}
  }

  function OwedForAll(input: seq<Input>): multiset<Json> {
    if input == [] then multiset{} else OwedForInput(input[0]) + OwedForAll(input[1..])
  }

  function OwedForJobs(jobs: seq<Json>): multiset<Json> {
    if jobs == [] then multiset{} else Owed(jobs[0]) + OwedForJobs(jobs[1..])
  }

  function ReaderOwes(reader: Reader): multiset<Json> {
    if reader.Inline? || reader.Locking? || reader.Pushing? then Owed(reader.request) else multiset{}
  }

  function WorkerOwes(worker: Worker): multiset<Json> {
    if worker.Working? then Owed(worker.request) else multiset{}
  }

  /** The ids of the responses still to be written. */
  function Outstanding(s: State): multiset<Json> {
    WorkerOwes(s.worker) + OwedForJobs(s.jobs) + ReaderOwes(s.reader) + OwedForAll(s.input)
  }

  lemma {:induction false} OwedForOneMore(jobs: seq<Json>, job: Json)
    ensures OwedForJobs(jobs + [job]) == OwedForJobs(jobs) + Owed(job)
  {
    hide Owed;
    if jobs == [] {
      assert (jobs + [job])[1..] == [];
    } else {
      assert (jobs + [job])[1..] == jobs[1..] + [job];
      OwedForOneMore(jobs[1..], job);
    }
  }

  lemma {:induction false} ResponseIdsConcat(a: seq<Json>, b: seq<Json>)
    ensures ResponseIds(a + b) == ResponseIds(a) + ResponseIds(b)
    decreases |b|
  {
    hide Response;
    if b == [] {
      assert a + b == a;
    } else {
      var n := |b| - 1;
      assert (a + b)[..|a + b| - 1] == a + b[..n];
      ResponseIdsConcat(a, b[..n]);
    }
  }

  lemma HandledIsAnswered(written: seq<Json>, request: Json, tools: Tools)
    ensures ResponseIds(written + Handle(request, tools)) == ResponseIds(written) + Owed(request)
  {
    hide ResponseIds, Owed, Handle;
    ResponseIdsConcat(written, Handle(request, tools));
    AnsweredExactly(request, tools);
  }

  lemma UnparsableIsAnswered(written: seq<Json>, error: string)
    ensures ResponseIds(written + [Error(Null, PARSE_ERROR, error)]) == ResponseIds(written) + multiset{Null}
  {
    hide Error, Response;
    ResponseIdsConcat(written, [Error(Null, PARSE_ERROR, error)]);
    ErrorIsResponse(Null, PARSE_ERROR, error);
    OneMessage(Error(Null, PARSE_ERROR, error));
  }

  lemma ReaderKeepsResponses(s: State, tools: Tools)
    ensures var v := ReaderStep(s, tools);
      ResponseIds(v.written) + Outstanding(v) == ResponseIds(s.written) + Outstanding(s)
  {
    hide ResponseIds, Owed, Handle, NeedsWorker, Error, OwedForAll, OwedForJobs;
    if s.reader.Reading? {
      ReadingKeepsResponses(s, tools);
    } else if s.reader.Inline? {
      HandledIsAnswered(s.written, s.reader.request, tools);
    } else if s.reader.Pushing? {
      OwedForOneMore(s.jobs, s.reader.request);
    } else {
      WakingOwesNothing(s.worker);
    }
  }

  lemma WakingOwesNothing(worker: Worker)
    ensures WorkerOwes(Wake(worker)) == WorkerOwes(worker)
  {
  }

  lemma ReadingKeepsResponses(s: State, tools: Tools)
    requires s.reader.Reading?
    ensures var v := ReaderStep(s, tools);
      ResponseIds(v.written) + Outstanding(v) == ResponseIds(s.written) + Outstanding(s)
  {
    hide ResponseIds, Owed, Handle, NeedsWorker, Error, OwedForJobs, OwedForAll, WorkerOwes;
    if s.input != [] {
      FirstIsOwed(s.input);
      if s.input[0].Unparsable? {
        UnparsableIsAnswered(s.written, "Parse error: " + s.input[0].error);
      }
    }
  }

  lemma FirstIsOwed(input: seq<Input>)
    requires input != []
    ensures OwedForAll(input) == OwedForInput(input[0]) + OwedForAll(input[1..])
  {
  }

  lemma WorkerKeepsResponses(s: State, tools: Tools)
    ensures var v := WorkerStep(s, tools);
      ResponseIds(v.written) + Outstanding(v) == ResponseIds(s.written) + Outstanding(s)
  {
    hide ResponseIds, Owed, Handle, OwedForAll;
    match s.worker
    case Working(request) =>
      HandledIsAnswered(s.written, request, tools);
    case _ =>
  }

  /** At any time: responses written, and responses still owed, make up what the input calls for. */
  lemma {:induction false} ResponsesAreConserved(input: seq<Input>, steps: seq<Step>)
    requires Runs(Initial(input), steps)
    ensures var s := After(Initial(input), steps);
      ResponseIds(s.written) + Outstanding(s) == OwedForAll(input)
    decreases |steps|
  {
    hide Enabled, Outstanding, ResponseIds, ReaderStep, WorkerStep;
    if steps == [] {
      NothingWritten(input);
    } else {
      var n := |steps| - 1;
      var s := After(Initial(input), steps[..n]);
      ResponsesAreConserved(input, steps[..n]);
      match steps[n]
      case Read(tools) => ReaderKeepsResponses(s, tools);
      case Work(tools) => WorkerKeepsResponses(s, tools);
      case Spurious => SpuriousKeepsResponses(s);
    }
  }

  lemma NothingWritten(input: seq<Input>)
    ensures ResponseIds([]) == multiset{} && Outstanding(Initial(input)) == OwedForAll(input)
  {
  }

  lemma SpuriousKeepsResponses(s: State)
    ensures Outstanding(s.(worker := Wake(s.worker))) == Outstanding(s)
  {
  }

  // ----- What is written -----

  /** Nothing that has been written is taken back. */
  lemma StepOnlyAppends(s: State, step: Step)
    ensures s.written <= Apply(s, step).written && s.handled <= Apply(s, step).handled
  {
    hide NeedsWorker, Handle, Error;
  }

  /** The message tells that the text is no JSON, or is one of those that handling the request can write. */
  ghost predicate CalledForBy(item: Input, message: Json) {
    match item
    case Unparsable(error) => Fails([message], Null, -32700, "Parse error: " + error)
    case Message(request) => exists tools :: message in Handle(request, tools)
  }

  ghost predicate CalledFor(input: seq<Input>, message: Json) {
    exists item :: item in input && CalledForBy(item, message)
  }

  /** Requests in the server come from the input, and each thread has those that are meant for it. */
  ghost predicate Sourced(input: seq<Input>, s: State) {
    && (forall item | item in s.input :: item in input)
    && (s.reader.Inline? ==> Message(s.reader.request) in input && !NeedsWorker(s.reader.request))
    && (forall request | request in InHand(s.reader) + s.jobs + InFlight(s.worker) ::
          Message(request) in input && NeedsWorker(request))
    && (forall message | message in s.written :: CalledFor(input, message))
  }

  lemma HandledIsCalledFor(input: seq<Input>, written: seq<Json>, request: Json, tools: Tools)
    requires Message(request) in input && forall message | message in written :: CalledFor(input, message)
    ensures forall message | message in written + Handle(request, tools) :: CalledFor(input, message)
  {
    hide Handle;
    forall message | message in Handle(request, tools) ensures CalledFor(input, message) {
      assert CalledForBy(Message(request), message);
    }
  }

  lemma ReaderKeepsSourced(input: seq<Input>, s: State, tools: Tools)
    requires Sourced(input, s)
    ensures Sourced(input, ReaderStep(s, tools))
  {
    hide NeedsWorker, Handle, CalledFor, Error, InFlight;
    WakingFlight(s.worker);
    match s.reader
    case Inline(request) => HandledIsCalledFor(input, s.written, request, tools);
    case Reading => ReadingKeepsSourced(input, s, tools);
    case Pushing(request) => assert request in InHand(s.reader);
    case _ =>
  }

  lemma ReadingKeepsSourced(input: seq<Input>, s: State, tools: Tools)
    requires Sourced(input, s) && s.reader.Reading?
    ensures Sourced(input, ReaderStep(s, tools))
  {
    hide NeedsWorker, Handle, CalledFor, Error, InFlight;
    if s.input != [] {
      assert s.input[0] in input && forall item | item in s.input[1..] :: item in s.input;
      if s.input[0].Unparsable? {
        ParseErrorIsCalledFor(input, s.input[0]);
      }
    }
  }

  lemma ParseErrorIsCalledFor(input: seq<Input>, item: Input)
    requires item in input && item.Unparsable?
    ensures CalledFor(input, Error(Null, PARSE_ERROR, "Parse error: " + item.error))
  {
    hide Error, Fails;
    ErrorFails(Null, PARSE_ERROR, "Parse error: " + item.error);
    assert CalledForBy(item, Error(Null, PARSE_ERROR, "Parse error: " + item.error));
  }

  lemma WorkerKeepsSourced(input: seq<Input>, s: State, tools: Tools)
    requires Sourced(input, s)
    ensures Sourced(input, WorkerStep(s, tools))
  {
    hide NeedsWorker, Handle, CalledFor;
    match s.worker
    case Working(request) =>
      assert request in InFlight(s.worker);
      HandledIsCalledFor(input, s.written, request, tools);
    case _ =>
  }

  lemma SpuriousKeepsSourced(input: seq<Input>, s: State)
    requires Sourced(input, s)
    ensures Sourced(input, s.(worker := Wake(s.worker)))
  {
    hide NeedsWorker, CalledFor;
    WakingFlight(s.worker);
  }

  /** Nothing is written that the input does not call for. */
  lemma {:induction false} RunsStaySourced(input: seq<Input>, steps: seq<Step>)
    requires Runs(Initial(input), steps)
    ensures Sourced(input, After(Initial(input), steps))
    decreases |steps|
  {
    hide Sourced, ReaderStep, WorkerStep, Enabled;
    if steps == [] {
      InitialIsSourced(input);
    } else {
      var n := |steps| - 1;
      var s := After(Initial(input), steps[..n]);
      RunsStaySourced(input, steps[..n]);
      match steps[n]
      case Read(tools) => ReaderKeepsSourced(input, s, tools);
      case Work(tools) => WorkerKeepsSourced(input, s, tools);
      case Spurious => SpuriousKeepsSourced(input, s);
    }
  }

  lemma InitialIsSourced(input: seq<Input>)
    ensures Sourced(input, Initial(input))
  {
  }

  /** What the reader answers itself does not depend on the tools. */
  lemma InlineIgnoresTools(request: Json, tools: Tools, others: Tools)
    requires !NeedsWorker(request)
    ensures Handle(request, tools) == Handle(request, others)
  {
    hide Error, Result;
  }

  /** The reader never waits for a tool: whatever the tools do, its next step is the same. */
  lemma ReaderIgnoresTools(input: seq<Input>, steps: seq<Step>, tools: Tools, others: Tools)
    requires Runs(Initial(input), steps)
    ensures ReaderStep(After(Initial(input), steps), tools) == ReaderStep(After(Initial(input), steps), others)
  {
    hide Runs, After, Handle, NeedsWorker, CalledFor, Error;
    RunsStaySourced(input, steps);
    var s := After(Initial(input), steps);
    if s.reader.Inline? {
      InlineIgnoresTools(s.reader.request, tools, others);
    }
  }

  /** What is given to the worker asks for a method whose answers do depend on the tools. */
  lemma WorkerMethodsReachTools(job: Json)
    requires NeedsWorker(job)
    ensures exists request, tools, others ::
      Asks(request, job.Get("method").s) && Handle(request, tools) != Handle(request, others)
  {
    hide Handle;
    var name := job.Get("method").s;
    var params := Object(map["name" := Text(""), "uri" := Text("")]);
    var request := Object(map["jsonrpc" := Text("2.0"), "id" := Null, "method" := Text(name), "params" := params]);
    var said := ToolOutput("", false, Null);
    var tools := Tools(Gives(Null), Gives(Null), _ => Gives(Contents(Null)), (_, _) => Gives(said));
    assert Asks(request, name);
    assert Handle(request, tools) != Handle(request, ANY_TOOLS) by {
      AnswerOrError(request, name, tools);
    }
  }

  lemma AnswerOrError(request: Json, name: string, tools: Tools)
    requires Asks(request, name) && name in {"tools/call", "tools/list", "resources/list", "resources/read"}
    requires GoodCall(request.Get("params")) && request.Get("params").Get("uri").Text?
    requires tools.toolList.Gives? && tools.resourceList.Gives?
    requires forall uri :: tools.resource(uri).Gives? && tools.resource(uri).value.Contents?
    requires forall tool, arguments :: tools.call(tool, arguments).Gives?
    ensures Handle(request, tools) != Handle(request, ANY_TOOLS)
  {
    hide Handle, ToolResult;
    match name {
      case "tools/call" =>
        ToolCallsAreAnswered(request, tools);
        ToolCallsAreAnswered(request, ANY_TOOLS);
      case "resources/read" =>
        ResourcesAreRead(request, tools);
        ResourcesAreRead(request, ANY_TOOLS);
      case _ =>
        ListingsAreAnswered(request, tools);
        ListingsAreAnswered(request, ANY_TOOLS);
    }
  }

  // ----- Progress -----

  function ReaderRank(reader: Reader): nat {
    match reader
    case Returned => 0
    case Joining => 1
    case NotifyingAll => 5
    case StopSet => 6
    case StopSetting => 7
    case StopLocking => 8
    case Reading => 9
    case Inline(_) => 10
    case Notifying => 13
    case Pushed => 14
    case Pushing(_) => 19
    case Locking(_) => 20
  }

  function WorkerRank(worker: Worker): nat {
    match worker
    case Ended => 0
    case Asleep => 1
    case Taking => 2
    case Testing => 3
    case Entering => 4
    case Woken => 4
    case Working(_) => 5
  }

  /** What is left to do: every step lowers it, except that a spurious wake-up adds three. */
  function Remaining(s: State): nat {
    12 * |s.input| + ReaderRank(s.reader) + 4 * |s.jobs| + WorkerRank(s.worker)
  }

  lemma ReaderLowersRemaining(s: State, tools: Tools)
    requires Enabled(s, Read(tools))
    ensures Remaining(ReaderStep(s, tools)) < Remaining(s)
  {
    hide NeedsWorker, Handle, Error;
  }

  lemma WorkerLowersRemaining(s: State, tools: Tools)
    requires Enabled(s, Work(tools))
    ensures Remaining(WorkerStep(s, tools)) < Remaining(s)
  {
    hide Handle;
  }

  lemma StepLowersRemaining(s: State, step: Step)
    requires Enabled(s, step)
    ensures Remaining(Apply(s, step)) + 1 <= Remaining(s) + if step.Spurious? then 4 else 0
  {
    hide ReaderStep, WorkerStep;
    match step
    case Read(tools) => ReaderLowersRemaining(s, tools);
    case Work(tools) => WorkerLowersRemaining(s, tools);
    case Spurious =>
  }

  function SpuriousSteps(steps: seq<Step>): nat {
    if steps == [] then 0
    else SpuriousSteps(steps[..|steps| - 1]) + if steps[|steps| - 1].Spurious? then 1 else 0
  }

  /** However the threads interleave, a run is over within a bound that the input fixes. */
  lemma {:induction false} RunsAreBounded(input: seq<Input>, steps: seq<Step>)
    requires Runs(Initial(input), steps)
    ensures |steps| + Remaining(After(Initial(input), steps)) <= 12 * |input| + 13 + 4 * SpuriousSteps(steps)
    decreases |steps|
  {
    hide Enabled, Apply;
    if steps != [] {
      var n := |steps| - 1;
      hide Remaining;
      RunsAreBounded(input, steps[..n]);
      StepLowersRemaining(After(Initial(input), steps[..n]), steps[n]);
    }
  }

  const ANY_TOOLS := Tools(Raises(Unknown), Raises(Unknown), _ => Raises(Unknown), (_, _) => Raises(Unknown))

  /** Unless the server has returned, one of its threads can move without a spurious wake-up. */
  lemma NoDeadlock(s: State)
    requires Coherent(s)
    ensures s.reader.Returned? <==> (forall tools :: !Enabled(s, Read(tools)) && !Enabled(s, Work(tools)))
  {
    assert Enabled(s, Read(ANY_TOOLS)) || Enabled(s, Work(ANY_TOOLS)) || s.reader.Returned?;
  }

  /**
   * A run that can go no further has served all its input: the server has returned, the worker has
   * ended, every job was handled in order, and every request has its responses and no others.
   */
  lemma CompleteRunsServeEverything(input: seq<Input>, steps: seq<Step>)
    requires Runs(Initial(input), steps)
    requires forall tools ::
      !Enabled(After(Initial(input), steps), Read(tools)) && !Enabled(After(Initial(input), steps), Work(tools))
    ensures var s := After(Initial(input), steps);
      && s.reader.Returned? && s.worker.Ended? && s.input == [] && s.jobs == []
      && s.handled == WorkerJobs(input)
      && ResponseIds(s.written) == OwedForAll(input)
  {
    hide Runs, After, Enabled, ResponseIds;
    RunsStayCoherent(input, steps);
    NoDeadlock(After(Initial(input), steps));
    JobsStayInOrder(input, steps);
    ResponsesAreConserved(input, steps);
  }
}
