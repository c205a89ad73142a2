/** The retained process handle: who owns it, when it is closed, and what is reported.

    The process interface may answer anything. Its preconditions are the discipline that the callers are
    proved to keep: a handle is used and closed only while it is open. */
module ProcessExitObserver {
  import opened Wrappers

  const STILL_ACTIVE := 259
  const WAIT_OBJECT_0 := 0
  const WAIT_TIMEOUT := 258

  datatype ExitState =
    | Running
    | ExitedWithCode
    | ExitedCodeUnavailable
    | PidReused
    | ProcessNotFound
    | AccessDenied
    | OpenFailed
    | WaitFailed
    | ProcessTimesFailed
    | ExitCodeQueryFailed

  datatype ExitResult = ExitResult(
    state: ExitState,
    creationMatches: bool,
    exitRecorded: bool,
    exitCode: Option<int>,
    signaled: bool)

  datatype ProcessTimes = ProcessTimes(creation: int, exit: int)

  function Unavailable(state: ExitState, creationMatches: bool, exitRecorded: bool, signaled: bool): ExitResult {
    ExitResult(state, creationMatches, exitRecorded, None, signaled)
  }

  /** An exit code is reported exactly with the state that says so, and only of the process that was asked
      for, with its exit time recorded. */
  ghost predicate Honest(r: ExitResult) {
    && (r.exitCode.Some? <==> r.state == ExitedWithCode)
    && (r.state == ExitedWithCode ==> r.creationMatches && r.exitRecorded && r.exitCode.value != STILL_ACTIVE)
    && (r.state == Running ==> r.creationMatches && !r.exitRecorded)
    && (r.state in {PidReused, ProcessNotFound, AccessDenied, OpenFailed, WaitFailed, ProcessTimesFailed} ==>
          !r.creationMatches)
  }

  /** A call of the process interface, with its answer. */
  datatype ApiCall =
    | Opened(pid: int, given: Option<int>, error: int)
    | Timed(handle: int, times: Option<ProcessTimes>)
    | Coded(handle: int, code: Option<int>)
    | Waited(handle: int, timeout: int, answer: int)
    | Closed(handle: int)

  class ProcessApi {
    /** The handles that are open. */
    var open: set<int>
    /** Every call made, in order. */
    ghost var log: seq<ApiCall>

    method OpenProcess(pid: int) returns (handle: Option<int>, error: int)
      modifies this
      ensures handle.Some? ==> handle.value !in old(open) && open == old(open) + {handle.value}
      ensures handle.None? ==> open == old(open)
      ensures log == old(log) + [Opened(pid, handle, error)]
    {
      var h: int := *;
      var opens: bool := *;
      var code: int := *;
      if opens && h !in open {
        open, log := open + {h}, log + [Opened(pid, Some(h), 0)];
        return Some(h), 0;
      }
      handle, error, log := None, code, log + [Opened(pid, None, code)];
    }

    method GetProcessTimes(handle: int) returns (times: Option<ProcessTimes>)
      requires handle in open
      modifies `log
      ensures log == old(log) + [Timed(handle, times)]
    {
      var answer: Option<ProcessTimes> := *;
      times, log := answer, log + [Timed(handle, answer)];
    }

    method GetExitCode(handle: int) returns (code: Option<int>)
      requires handle in open
      modifies `log
      ensures log == old(log) + [Coded(handle, code)]
    {
      var answer: Option<int> := *;
      code, log := answer, log + [Coded(handle, answer)];
    }

    method WaitForSingleObject(handle: int, timeout: int) returns (r: int)
      requires handle in open
      modifies `log
      ensures log == old(log) + [Waited(handle, timeout, r)]
    {
      var answer: int := *;
      r, log := answer, log + [Waited(handle, timeout, answer)];
    }

    method CloseHandle(handle: int)
      requires handle in open
      modifies this
      ensures open == old(open) - {handle}
      ensures log == old(log) + [Closed(handle)]
    {
      open, log := open - {handle}, log + [Closed(handle)];
    }
  }

  /** What a wait reports, by the calls it made and their answers: it gives the handle back unless the process
      still runs, and reads the exit code only of the process that was asked for and has an exit time. */
  ghost predicate WaitReports(calls: seq<ApiCall>, h: int, timeout: int, creation: int, r: ExitResult) {
    && calls != [] && calls[0].Waited? && calls[0].handle == h && calls[0].timeout == timeout
    && (if calls[0].answer == 258 then |calls| == 1 && r == ExitResult(Running, true, false, None, false)
        else if calls[0].answer != 0 then
          calls[1..] == [Closed(h)] && r == ExitResult(WaitFailed, false, false, None, false)
        else SignaledReports(calls[1..], h, creation, r))
  }

  ghost predicate SignaledReports(calls: seq<ApiCall>, h: int, creation: int, r: ExitResult) {
    && calls != [] && calls[0].Timed? && calls[0].handle == h
    && match calls[0].times
       case None => calls[1..] == [Closed(h)] && r == ExitResult(ProcessTimesFailed, false, false, None, true)
       case Some(t) =>
         if t.creation != creation then
           calls[1..] == [Closed(h)] && r == ExitResult(PidReused, false, t.exit != 0, None, true)
         else if t.exit == 0 then
           calls[1..] == [Closed(h)] && r == ExitResult(ExitedCodeUnavailable, true, false, None, true)
         else
           && |calls| == 3 && calls[1].Coded? && calls[1].handle == h && calls[2] == Closed(h)
           && r == (match calls[1].code
                    case None => ExitResult(ExitCodeQueryFailed, true, true, None, true)
                    case Some(code) => if code == 259 then ExitResult(ExitedCodeUnavailable, true, true, None, true)
                                       else ExitResult(ExitedWithCode, true, true, Some(code), true))
  }

  /** What an acquisition reports, by the calls it made and their answers: it keeps the handle exactly of a
      running process that is the one asked for. */
  ghost predicate RetainReports(calls: seq<ApiCall>, pid: int, creation: int, r: ExitResult) {
    if pid <= 0 || creation <= 0 then calls == [] && r == ExitResult(ProcessNotFound, false, false, None, false)
    else
      && calls != [] && calls[0].Opened? && calls[0].pid == pid
      && match calls[0].given
         case None =>
           && |calls| == 1
           && r == ExitResult(if calls[0].error == 87 || calls[0].error == 1168 then ProcessNotFound
                              else if calls[0].error == 5 then AccessDenied else OpenFailed,
                              false, false, None, false)
         case Some(h) => OpenedReports(calls[1..], h, creation, r)
  }

  ghost predicate OpenedReports(calls: seq<ApiCall>, h: int, creation: int, r: ExitResult) {
    && calls != [] && calls[0].Timed? && calls[0].handle == h
    && match calls[0].times
       case None => calls[1..] == [Closed(h)] && r == ExitResult(ProcessTimesFailed, false, false, None, false)
       case Some(t) =>
         if t.creation != creation then
           calls[1..] == [Closed(h)] && r == ExitResult(PidReused, false, t.exit != 0, None, false)
         else
           && |calls| >= 2 && calls[1].Coded? && calls[1].handle == h
           && (if t.exit == 0 && calls[1].code == Some(259) then
                 |calls| == 2 && r == ExitResult(Running, true, false, None, false)
               else
                 && calls[2..] == [Closed(h)]
                 && r == (match calls[1].code
                          case None => ExitResult(ExitCodeQueryFailed, true, t.exit != 0, None, false)
                          case Some(code) =>
                            if t.exit != 0 && code != 259 then ExitResult(ExitedWithCode, true, true, Some(code), false)
                            else ExitResult(ExitedCodeUnavailable, true, t.exit != 0, None, false)))
  }

  class RetainedProcessExitObserver {
    const api: ProcessApi
    const creation: int
    var handle: Option<int>

    /** The handle it holds is open. */
    ghost predicate Valid()
      reads this, api
    {
      handle.Some? ==> handle.value in api.open
    }

    constructor (api: ProcessApi, handle: int, creation: int)
      ensures this.api == api && this.creation == creation && this.handle == Some(handle)
    {
      this.api, this.creation, this.handle := api, creation, Some(handle);
    }

    /** Gives the handle back, once. */
    method Close()
      requires Valid()
      modifies this, api
      ensures Valid() && handle.None?
      ensures api.open == old(api.open) - (if old(handle).Some? then {old(handle).value} else {})
      ensures api.log == old(api.log) + (if old(handle).Some? then [Closed(old(handle).value)] else [])
    {
      var h := handle;
      if h.None? { return; }
      handle := None;
      api.CloseHandle(h.value);
    }

    /** With a timeout that is not negative, the handle is still open afterwards exactly when the process is
        reported running; otherwise it has been closed and no other handle has. */
    method WaitForExit(timeout: int) returns (r: ExitResult)
      requires Valid()
      modifies this, api
      ensures Valid() && Honest(r)
      ensures old(handle).None? || timeout < 0 ==>
        r.state == WaitFailed && handle == old(handle) && api.open == old(api.open) && api.log == old(api.log)
      ensures old(handle).Some? && timeout >= 0 ==>
        && (handle.Some? <==> r.state == Running)
        && (handle.Some? ==> handle == old(handle) && api.open == old(api.open))
        && (handle.None? ==> api.open == old(api.open) - {old(handle).value})
      ensures old(handle).Some? && timeout >= 0 ==>
        && old(api.log) <= api.log
        && WaitReports(api.log[|old(api.log)|..], old(handle).value, timeout, creation, r)
    {
      if handle.None? || timeout < 0 { return Unavailable(WaitFailed, false, false, false); }
      var h := handle.value;
      var waited := api.WaitForSingleObject(h, timeout);
      if waited == WAIT_TIMEOUT { return ExitResult(Running, true, false, None, false); }
      if waited != WAIT_OBJECT_0 {
        Close();
        return Unavailable(WaitFailed, false, false, false);
      }
      var times := api.GetProcessTimes(h);
      if times.None? {
        Close();
        return Unavailable(ProcessTimesFailed, false, false, true);
      }
      if times.value.creation != creation {
        Close();
        return Unavailable(PidReused, false, times.value.exit != 0, true);
      }
      if times.value.exit == 0 {
        Close();
        return Unavailable(ExitedCodeUnavailable, true, false, true);
      }
      var code := api.GetExitCode(h);
      Close();
      if code.None? { return Unavailable(ExitCodeQueryFailed, true, true, true); }
      if code.value == STILL_ACTIVE { return Unavailable(ExitedCodeUnavailable, true, true, true); }
      r := ExitResult(ExitedWithCode, true, true, code, true);
    }
  }

  /** Opens and checks a process. An observer comes back exactly with the report that the process is running,
      and it holds the one handle opened; in every other case no handle stays open. */
  method RetainProcessExitHandle(pid: int, creation: int, api: ProcessApi)
    returns (observer: RetainedProcessExitObserver?, r: ExitResult)
    modifies api
    ensures Honest(r)
    ensures observer != null <==> r.state == Running
    ensures observer != null ==>
      && fresh(observer) && observer.api == api && observer.creation == creation && observer.Valid()
      && observer.handle.Some? && observer.handle.value !in old(api.open)
      && api.open == old(api.open) + {observer.handle.value}
    ensures observer == null ==> api.open == old(api.open)
    ensures old(api.log) <= api.log && RetainReports(api.log[|old(api.log)|..], pid, creation, r)
  {
    observer := null;
    if pid <= 0 || creation <= 0 { return null, Unavailable(ProcessNotFound, false, false, false); }
    var handle, error := api.OpenProcess(pid);
    if handle.None? {
      var state := if error in {87, 1168} then ProcessNotFound else if error == 5 then AccessDenied else OpenFailed;
      return null, Unavailable(state, false, false, false);
    }
    var held := new RetainedProcessExitObserver(api, handle.value, creation);
    var times := api.GetProcessTimes(handle.value);
    if times.None? {
      held.Close();
      return null, Unavailable(ProcessTimesFailed, false, false, false);
    }
    var exited := times.value.exit != 0;
    if times.value.creation != creation {
      held.Close();
      return null, Unavailable(PidReused, false, exited, false);
    }
    var code := api.GetExitCode(handle.value);
    if code.None? {
      held.Close();
      return null, Unavailable(ExitCodeQueryFailed, true, exited, false);
    }
    if exited || code.value != STILL_ACTIVE {
      held.Close();
      if exited && code.value != STILL_ACTIVE { return null, ExitResult(ExitedWithCode, true, true, code, false); }
      return null, Unavailable(ExitedCodeUnavailable, true, exited, false);
    }
    observer, r := held, ExitResult(Running, true, false, None, false);
  }

  // ----- Several observers of one interface -----

  datatype Use = Acquire(pid: int, creation: int) | Wait(which: nat, timeout: int) | Close(which: nat)

  /** Different observers hold different handles, and besides the ones in `base` exactly the handles they
      hold are open. */
  ghost predicate Live(handles: seq<Option<int>>, open: set<int>, base: set<int>) {
    && base <= open
    && (forall i, j :: 0 <= i < j < |handles| && handles[i].Some? ==> handles[i] != handles[j])
    && (forall i :: 0 <= i < |handles| && handles[i].Some? ==> handles[i].value in open && handles[i].value !in base)
    && (forall h :: h in open ==> h in base || Some(h) in handles)
  }

  ghost function Handles(observers: seq<RetainedProcessExitObserver>): (hs: seq<Option<int>>)
    reads observers
    ensures |hs| == |observers| && forall i :: 0 <= i < |hs| ==> hs[i] == observers[i].handle
  {
    seq(|observers|, i requires 0 <= i < |observers| reads observers => observers[i].handle)
  }

  /** Different observers of the one interface. */
  ghost predicate Observers(observers: seq<RetainedProcessExitObserver>, api: ProcessApi) {
    && (forall i :: 0 <= i < |observers| ==> observers[i].api == api)
    && (forall i, j :: 0 <= i < j < |observers| ==> observers[i] != observers[j])
  }

  lemma NewHandleIsLive(handles: seq<Option<int>>, open: set<int>, base: set<int>, h: int)
    requires Live(handles, open, base) && h !in open
    ensures Live(handles + [Some(h)], open + {h}, base)
  {
    var now := handles + [Some(h)];
    forall x | x in open + {h} ensures x in base || Some(x) in now {
      if x == h { assert now[|handles|] == Some(x); }
    }
  }

  lemma ClosedHandleIsGone(handles: seq<Option<int>>, open: set<int>, base: set<int>, k: nat)
    requires Live(handles, open, base) && k < |handles| && handles[k].Some?
    ensures Live(handles[k := None], open - {handles[k].value}, base)
  {
    var now, h := handles[k := None], handles[k].value;
    forall x | x in open - {h} ensures x in base || Some(x) in now {
      if x !in base {
        var i :| 0 <= i < |handles| && handles[i] == Some(x);
        assert now[i] == Some(x);
      }
    }
  }

  /** Acquires one more observer if the process is running. */
  method AcquireOne(api: ProcessApi, observers: seq<RetainedProcessExitObserver>, pid: int, creation: int,
                    ghost base: set<int>)
    returns (after: seq<RetainedProcessExitObserver>, r: ExitResult)
    requires Observers(observers, api) && Live(Handles(observers), api.open, base)
    modifies api
    ensures Observers(after, api) && Live(Handles(after), api.open, base) && Honest(r)
    ensures || after == observers
            || (|after| == |observers| + 1 && after[..|observers|] == observers && fresh(after[|observers|]))
    ensures r.state == Running <==> after != observers
    ensures old(api.log) <= api.log && RetainReports(api.log[|old(api.log)|..], pid, creation, r)
  {
    ghost var handles, open := Handles(observers), api.open;
    var o;
    o, r := RetainProcessExitHandle(pid, creation, api);
    assert Handles(observers) == handles;
    after := observers;
    if o != null {
      after := observers + [o];
      assert Handles(after) == handles + [o.handle];
      NewHandleIsLive(handles, open, base, o.handle.value);
    }
  }

  /** Waits on one of the observers, or closes it. */
  method LetGo(api: ProcessApi, observers: seq<RetainedProcessExitObserver>, k: nat, timeout: Option<int>,
               ghost base: set<int>)
    returns (r: Option<ExitResult>)
    requires Observers(observers, api) && Live(Handles(observers), api.open, base) && k < |observers|
    modifies api, observers[k]
    ensures Live(Handles(observers), api.open, base)
    ensures timeout.None? ==> observers[k].handle.None? && r.None?
    ensures timeout.Some? ==> r.Some? && Honest(r.value)
    ensures old(api.log) <= api.log
    ensures timeout.Some? && timeout.value >= 0 && old(observers[k].handle).Some? ==>
      WaitReports(api.log[|old(api.log)|..], old(observers[k].handle).value, timeout.value, observers[k].creation,
                  r.value)
  {
    ghost var handles, open := Handles(observers), api.open;
    assert handles[k] == observers[k].handle;
    if timeout.Some? {
      var answer := observers[k].WaitForExit(timeout.value);
      r := Some(answer);
    } else {
      observers[k].Close();
      r := None;
    }
    assert Handles(observers) == handles[k := observers[k].handle];
    if handles[k].Some? { ClosedHandleIsGone(handles, open, base, k); }
    assert handles[k := handles[k]] == handles;
  }

  /** Any sequence of acquisitions, waits and closes over any number of live observers, all closed at the end:
      the handles open are those open before. Naming an observer that does not exist does nothing. */
  method UseAll(api: ProcessApi, uses: seq<Use>) returns (results: seq<ExitResult>)
    modifies api
    ensures api.open == old(api.open)
    ensures forall i :: 0 <= i < |results| ==> Honest(results[i])
  {
    var observers: seq<RetainedProcessExitObserver> := [];
    results := [];
    for k := 0 to |uses|
      invariant Observers(observers, api) && Live(Handles(observers), api.open, old(api.open))
      invariant forall i :: 0 <= i < |observers| ==> fresh(observers[i])
      invariant forall i :: 0 <= i < |results| ==> Honest(results[i])
    {
      match uses[k]
      case Acquire(pid, creation) =>
        var r;
        observers, r := AcquireOne(api, observers, pid, creation, old(api.open));
        results := results + [r];
      case Wait(which, timeout) =>
        if which < |observers| {
          var r := LetGo(api, observers, which, Some(timeout), old(api.open));
          results := results + [r.value];
        }
      case Close(which) =>
        if which < |observers| {
          var r := LetGo(api, observers, which, None, old(api.open));
        }
    }
    CloseAll(api, observers, old(api.open));
  }

  method CloseAll(api: ProcessApi, observers: seq<RetainedProcessExitObserver>, ghost base: set<int>)
    requires Observers(observers, api) && Live(Handles(observers), api.open, base)
    modifies api, observers
    ensures api.open == base
  {
    for k := 0 to |observers|
      invariant Live(Handles(observers), api.open, base)
      invariant forall i :: 0 <= i < k ==> observers[i].handle.None?
    {
      var r := LetGo(api, observers, k, None, base);
    }
    assert forall h :: h in api.open ==> h in base || Some(h) in Handles(observers);
    assert api.open <= base;
  }
}
