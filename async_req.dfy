/** The worker pool of asyncreq.c: requests are handed to an idle worker thread or to a newly
    spawned one, a worker runs the blocking call of its request, posts the completion and then
    parks on the idle list or exits, and the shutdown trigger hands every idle worker the
    shutdown sentinel. Each step below is one critical section under `wtlock`; the blocking
    calls themselves are inputs (their result and errno). */
module AsyncReq {
  import opened Base

  /** MAX_WORKER_THREADS: the most workers the idle list keeps. */
  const MAX_WORKER_THREADS: nat := 32

  /** ENOSYS as Linux numbers it. */
  const ENOSYS: int := 38

  /** The request kinds the Linux build of worker_thread_handler knows; any other kind code
      (AsyncReqConnectPipe is compiled only on Windows) is `OtherKind`. */
  datatype ReqKind =
    | ReadReq | WriteReq | SeekReadReq | SeekWriteReq | RecvReq | SendReq | RecvFromReq
    | SendToReq | AcceptReq | ConnectReq | WaitpidReq | SelectReq | CloseReq | OpenReq
    | FstatReq | StatReq | LstatReq | RemoveReq | OtherKind(code: int)

  /** What a blocking call returned, and errno after it. */
  datatype Outcome = Outcome(rval: int, errno: int)

  /** The OS sets errno whenever a call fails (the source asserts it). */
  predicate Reported(o: Outcome) {
    o.rval == -1 ==> o.errno != 0
  }

  /** A request after its operation: the `rval` field (untouched for an unknown kind), the
      `error` field, and whether its file name was freed. */
  datatype Done = Done(rval: Option<int>, error: int, nameFreed: bool)

  predicate TakesName(kind: ReqKind) {
    kind == OpenReq || kind == StatReq || kind == LstatReq || kind == RemoveReq
  }

  /** The error a single call leaves: its errno when it returned -1. */
  function ErrorOf(o: Outcome): (e: int)
    requires Reported(o)
    ensures e != 0 <==> o.rval == -1
  {
    if o.rval == -1 then o.errno else 0
  }

  /** The switch of worker_thread_handler, after `req->error = 0`: every known kind makes
      one blocking call, whose outcome is `call`, and keeps its result and, on -1, its errno;
      the kinds that take a file name free it afterwards. */
  function Execute(kind: ReqKind, call: Outcome): (d: Done)
    requires Reported(call)
  {
    match kind
    case OtherKind(_) => Done(None, ENOSYS, false)
    case _ => Done(Some(call.rval), ErrorOf(call), TakesName(kind))
  }

  /** For every known kind the error is the call's errno, set exactly when the call returned
      -1, and the result is the call's; an unknown kind gets ENOSYS and no result. */
  lemma ExecuteError(kind: ReqKind, call: Outcome)
    requires Reported(call)
    ensures kind.OtherKind? ==> Execute(kind, call) == Done(None, ENOSYS, false)
    ensures !kind.OtherKind? ==>
      && Execute(kind, call).rval == Some(call.rval)
      && (Execute(kind, call).error != 0 <==> call.rval == -1)
      && (call.rval == -1 ==> Execute(kind, call).error == call.errno)
  {
  }

  /** Open, Stat, Lstat and Remove free their file name after the call, whatever its outcome;
      no other kind does. */
  lemma ExecuteFreesName(kind: ReqKind, call: Outcome)
    requires Reported(call)
    ensures Execute(kind, call).nameFreed <==> TakesName(kind)
  {
  }

  /** What a worker holds in `wt->req`. */
  datatype Holding = NoReq | Req(id: nat) | Sentinel

  /** Where a worker thread is: running a request, waiting on its condition variable, or
      out of its loop with its exit callback posted. */
  datatype Phase = Working | Waiting | Exited

  datatype Worker = Worker(phase: Phase, holding: Holding)

  /** The states of the shutdown bookkeeping for this subsystem. */
  datatype ShutdownState = Stopped | Normal | Pending

  /** What the pool posts to the dispatcher: a completion, a deferred spawn, a worker's exit. */
  datatype Event = Completed(req: nat) | AddDeferred(req: nat) | ExitPosted(worker: nat)

  predicate NoDup(s: seq<nat>) {
    forall i, j :: 0 <= i < j < |s| ==> s[i] != s[j]
  }

  /** wtlist, wtlist_size, wtrunning_count, the workers (until worker_thread_exit frees them),
      the shutdown state and the events posted so far. */
  class Pool {
    var idle: seq<nat>
    var idleSize: int
    var running: int
    var workers: map<nat, Worker>
    var nextId: nat
    var state: ShutdownState
    var events: seq<Event>

    /** The idle list has no repeats, is counted by wtlist_size and holds at most 32 workers,
        each waiting with no request; the running count is the number of workers; a running
        pool is never Stopped. */
    ghost predicate Valid()
      reads this
    {
      && idleSize == |idle| <= MAX_WORKER_THREADS && NoDup(idle)
      && (forall w :: w in idle ==> w in workers && workers[w] == Worker(Waiting, NoReq))
      && running == |workers.Keys|
      && (forall w :: w in workers ==> w < nextId)
      && (running > 0 ==> state != Stopped)
    }

    /** ini_asyncreq. */
    constructor ()
      ensures Valid() && idle == [] && running == 0 && workers == map[] && state == Stopped
      ensures events == []
    {
      idle, idleSize, running, workers, nextId := [], 0, 0, map[], 0;
      state, events := Stopped, [];
    }

    /** worker_thread_add (on the dispatch thread, and the deferred spawn that the dispatcher
        runs later): a new worker starts on the request; the running count rises and the first
        worker makes the subsystem Normal. */
    method Spawn(r: nat) returns (w: nat)
      requires Valid()
      modifies this
      ensures Valid() && w !in old(workers) && workers == old(workers)[w := Worker(Working, Req(r))]
      ensures running == old(running) + 1
      ensures state == if old(running) == 0 then Normal else old(state)
      ensures unchanged(this`idle, this`idleSize, this`events)
    {
      w := nextId;
      nextId := nextId + 1;
      assert w !in workers;
      workers := workers[w := Worker(Working, Req(r))];
      if running == 0 {
        state := Normal;
      }
      running := running + 1;
    }

    /** async_req_post: with the idle list empty, a new worker is spawned (or, off the dispatch
        thread, a deferred spawn is posted); otherwise the oldest idle worker is taken off the
        list and handed the request. */
    method Post(r: nat, onDispatchThread: bool) returns (handedTo: Option<nat>)
      requires Valid()
      modifies this
      ensures Valid()
      ensures old(idle) == [] && !onDispatchThread ==>
        handedTo == None && events == old(events) + [AddDeferred(r)]
        && unchanged(this`idle, this`idleSize, this`running, this`workers, this`state)
      ensures old(idle) == [] && onDispatchThread ==>
        && handedTo.Some? && handedTo.value !in old(workers)
        && workers == old(workers)[handedTo.value := Worker(Working, Req(r))]
        && running == old(running) + 1 && idle == [] && events == old(events)
        && state == (if old(running) == 0 then Normal else old(state)) && idleSize == old(idleSize)
      ensures old(idle) != [] ==>
        && handedTo == Some(old(idle)[0])
        && old(workers)[old(idle)[0]] == Worker(Waiting, NoReq)
        && idle == old(idle)[1..] && idleSize == old(idleSize) - 1
        && workers == old(workers)[old(idle)[0] := Worker(Waiting, Req(r))]
        && unchanged(this`running, this`state, this`events)
    {
      if idle == [] {
        if onDispatchThread {
          var w := Spawn(r);
          handedTo := Some(w);
        } else {
          events := events + [AddDeferred(r)];
          handedTo := None;
        }
      } else {
        var w := idle[0];
        assert w !in idle[1..] by {
          assert forall i :: 0 < i < |idle| ==> idle[i] != idle[0];
        }
        idle := idle[1..];
        idleSize := idleSize - 1;
        workers := workers[w := Worker(Waiting, Req(r))];
        handedTo := Some(w);
      }
    }

    /** The end of a round of worker_thread_handler: the completion is posted and the request
        cleared under the lock; then the worker exits (posting its exit) when the idle list is
        full or shutdown is pending, and otherwise joins the end of the idle list to wait. */
    method Finish(w: nat) returns (parked: bool)
      requires Valid() && w in workers && workers[w].phase == Working && workers[w].holding.Req?
      modifies this
      ensures Valid()
      ensures parked <==> old(idleSize) < MAX_WORKER_THREADS && old(state) != Pending
      ensures parked ==>
        && events == old(events) + [Completed(old(workers)[w].holding.id)]
        && idle == old(idle) + [w] && idleSize == old(idleSize) + 1
        && workers == old(workers)[w := Worker(Waiting, NoReq)]
      ensures !parked ==>
        && events == old(events) + [Completed(old(workers)[w].holding.id), ExitPosted(w)]
        && unchanged(this`idle, this`idleSize)
        && workers == old(workers)[w := Worker(Exited, NoReq)]
      ensures unchanged(this`running, this`state)
    {
      var r := workers[w].holding.id;
      events := events + [Completed(r)];
      if idleSize >= MAX_WORKER_THREADS || state == Pending {
        workers := workers[w := Worker(Exited, NoReq)];
        events := events + [ExitPosted(w)];
        parked := false;
      } else {
        assert w !in idle;
        assert NoDup(idle + [w]) by {
          assert forall i :: 0 <= i < |idle| ==> (idle + [w])[i] == idle[i];
        }
        idle := idle + [w];
        idleSize := idleSize + 1;
        workers := workers[w := Worker(Waiting, NoReq)];
        parked := true;
      }
    }

    /** A waiting worker that has been handed something wakes: the sentinel makes it leave
        its loop and post its exit, a request sets it working. */
    method Wake(w: nat) returns (exits: bool)
      requires Valid() && w in workers && workers[w].phase == Waiting && workers[w].holding != NoReq
      modifies this
      ensures Valid()
      ensures exits <==> old(workers)[w].holding == Sentinel
      ensures exits ==>
        workers == old(workers)[w := Worker(Exited, Sentinel)] && events == old(events) + [ExitPosted(w)]
      ensures !exits ==>
        workers == old(workers)[w := Worker(Working, old(workers)[w].holding)] && events == old(events)
      ensures unchanged(this`idle, this`idleSize, this`running, this`state)
    {
      assert w !in idle;
      if workers[w].holding == Sentinel {
        workers := workers[w := Worker(Exited, Sentinel)];
        events := events + [ExitPosted(w)];
        exits := true;
      } else {
        workers := workers[w := Worker(Working, workers[w].holding)];
        exits := false;
      }
    }

    /** The shutdown framework marks the subsystem Pending and runs trigger_async_shutdown:
        the idle list is emptied, front to back, and each of its workers is handed the
        sentinel. */
    method TriggerShutdown()
      requires Valid()
      modifies this
      ensures Valid() && state == Pending && idle == [] && idleSize == 0
      ensures workers.Keys == old(workers).Keys
      ensures forall w :: w in workers ==>
        workers[w] == if w in old(idle) then Worker(Waiting, Sentinel) else old(workers)[w]
      ensures unchanged(this`running, this`events)
    {
      state := Pending;
      while idle != []
        invariant Valid() && state == Pending && workers.Keys == old(workers).Keys
        invariant forall w :: w in idle ==> w in old(idle)
        invariant forall w :: w in workers ==>
          workers[w] == if w in old(idle) && w !in idle then Worker(Waiting, Sentinel) else old(workers)[w]
        invariant unchanged(this`running, this`events)
        decreases |idle|
      {
        HandSentinel();
      }
    }

    /** One round of the loop in trigger_async_shutdown: the first idle worker leaves the list
        holding the sentinel. */
    method HandSentinel()
      requires Valid() && idle != []
      modifies this
      ensures Valid() && idle == old(idle)[1..] && old(idle)[0] !in idle
      ensures workers == old(workers)[old(idle)[0] := Worker(Waiting, Sentinel)]
      ensures unchanged(this`running, this`events, this`state)
    {
      var w := idle[0];
      assert w !in idle[1..] by {
        assert forall i :: 0 < i < |idle| ==> idle[i] != idle[0];
      }
      idle := idle[1..];
      idleSize := idleSize - 1;
      workers := workers[w := Worker(Waiting, Sentinel)];
    }

    /** worker_thread_exit, run by the dispatcher for a worker that left its loop: the worker
        is joined and freed, the running count falls, and the last one makes the subsystem
        Stopped. */
    method WorkerExit(w: nat)
      requires Valid() && w in workers && workers[w].phase == Exited
      modifies this
      ensures Valid() && workers == old(workers) - {w} && running == old(running) - 1
      ensures state == if running == 0 then Stopped else old(state)
      ensures unchanged(this`idle, this`idleSize, this`events)
    {
      assert w !in idle;
      assert workers.Keys == (workers - {w}).Keys + {w};
      workers := workers - {w};
      running := running - 1;
      if running == 0 {
        state := Stopped;
      }
    }
  }
}
