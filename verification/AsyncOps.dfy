/** os::async_op and os::windows::async_request: a re-armable operation and its callbacks. */
module AsyncOps {
  import opened Wire

  /** The fields of an operation. completed is what HasOverlappedIoCompleted tells, signalled
      the auto-reset event a wait consumes. C names user callbacks. */
  datatype Op<C> = Op(valid: bool, callback: Option<C>, called: bool, system: bool, systemCalled: bool,
                      completed: bool, signalled: bool)

  function Fresh<C>(): Op<C> {
    Op(false, None, false, false, false, true, false)
  }

  /** set_callback and set_system_callback refuse to touch an operation in flight. */
  predicate Locked<C>(op: Op<C>) { op.valid && !op.completed }

  function WithHandle<C>(op: Op<C>): Op<C> { op.(valid := false, called := false) }
  function WithValid<C>(op: Op<C>, v: bool): Op<C> { op.(valid := v, called := false) }
  function Invalidated<C>(op: Op<C>): Op<C> { op.(valid := false, called := true) }

  /** socket_win::read and write on a connected pipe, when the system accepts the transfer. */
  function Arm<C>(previous: Option<Op<C>>, c: Option<C>): Op<C> {
    var op := if previous.Some? then previous.value else Fresh();
    WithValid(WithHandle(op.(callback := c)).(completed := false), true)
  }

  /** The operation with its new callback and handle, before the system is asked. */
  function Prepared<C>(previous: Option<Op<C>>, c: Option<C>): Op<C> {
    var op := if previous.Some? then previous.value else Fresh();
    WithHandle(op.(callback := c))
  }

  /** A successful wait consumes the event and calls back, the system callback first; each flag is
      set before the call. */
  function Deliver<C>(op: Op<C>): (Op<C>, Option<C>) {
    CalledBack(op.(signalled := false))
  }

  /** call_callback, up to the point where the user callback is entered. */
  function CalledBack<C>(op: Op<C>): (Op<C>, Option<C>) {
    var op := op.(systemCalled := op.systemCalled || op.system);
    if op.callback.Some? && !op.called then (op.(called := true), op.callback) else (op, None)
  }

  // ----- every use of one operation object, re-entrant ones included

  datatype Accepted = Connected | Pending | Failed

  /** What its owners and the system do to an operation. body is what the user callback does, if it
      runs; prompt tells whether a cancellation the act asks for ends the transfer at once. A
      transfer can complete at any time, also when its operation was revoked or armed again. */
  datatype Act =
    | Accept(result: Accepted, hasCallback: bool, body: seq<Act>, prompt: bool)
    | Transfer(ok: bool, hasCallback: bool, body: seq<Act>, prompt: bool)
    | Revoke
    | Cancel(prompt: bool)
    | Complete
    | Wait(body: seq<Act>)

  /** armings counts the accepts and transfers issued; fired lists the arming of each user
      callback in the order of the calls. */
  datatype History = History(op: Op<()>, armings: nat, fired: seq<nat>, systemFired: nat, thrown: bool)

  const UNUSED := History(Fresh(), 0, [], 0, false)

  function Begin(h: History, hasCallback: bool): History {
    h.(op := WithHandle(h.op.(callback := if hasCallback then Some(()) else None)), armings := h.armings + 1)
  }

  /** async_request::call_callback(ec, length). */
  function CallBack(h: History, body: seq<Act>): History
    decreases body, 1
  {
    var h := if h.op.system && !h.op.systemCalled
             then h.(op := h.op.(systemCalled := true), systemFired := h.systemFired + 1) else h;
    if h.op.callback.Some? && !h.op.called
    then Run(h.(op := h.op.(called := true), fired := h.fired + [h.armings]), body)
    else h
  }

  function Completed(h: History): History { h.(op := h.op.(completed := true, signalled := true)) }

  /** async_request::cancel. */
  function Cancelled(h: History, prompt: bool): History { if Locked(h.op) && prompt then Completed(h) else h }

  function Do(h: History, act: Act): History
    decreases act, 0
  {
    match act
    case Accept(result, hasCallback, body, prompt) =>
      if Locked(h.op) then h.(thrown := true) else
      var h := Begin(h.(op := h.op.(system := true)), hasCallback);
      (match result
       case Failed => Cancelled(CallBack(h, body), prompt)
       case Pending => h.(op := WithValid(h.op.(completed := false), true))
       case Connected => CallBack(h.(op := WithValid(h.op, true)), body))
    case Transfer(ok, hasCallback, body, prompt) =>
      if Locked(h.op) then h.(thrown := true) else
      var h := Begin(h, hasCallback);
      if ok then h.(op := WithValid(h.op.(completed := false), true))
      else Cancelled(CallBack(h, body), prompt)
    case Revoke => h.(op := Invalidated(h.op))
    case Cancel(prompt) => Cancelled(h, prompt)
    case Complete => Completed(h)
    case Wait(body) =>
      if h.op.signalled then CallBack(h.(op := h.op.(signalled := false)), body) else h
  }

  function Run(h: History, acts: seq<Act>): History
    decreases acts, 0
  {
    if acts == [] || h.thrown then h else Run(Do(h, acts[0]), acts[1..])
  }

  ghost predicate NoRepeat(s: seq<nat>) {
    forall i, j :: 0 <= i < j < |s| ==> s[i] != s[j]
  }

  ghost predicate Sound(h: History) {
    && NoRepeat(h.fired)
    && (forall g <- h.fired :: g <= h.armings)
    && (h.armings in h.fired ==> h.op.called)
    && (h.armings == 0 ==> h.op.callback.None?)
    && (forall g <- h.fired :: 1 <= g)
    && h.systemFired <= (if h.op.systemCalled then 1 else 0)
  }

  lemma {:induction false} CallBackSound(h: History, body: seq<Act>)
    requires Sound(h)
    ensures Sound(CallBack(h, body))
    decreases body, 1
  {
    var h := if h.op.system && !h.op.systemCalled
             then h.(op := h.op.(systemCalled := true), systemFired := h.systemFired + 1) else h;
    if h.op.callback.Some? && !h.op.called {
      RunSound(h.(op := h.op.(called := true), fired := h.fired + [h.armings]), body);
    }
  }

  /** The flags that matter are the two called flags; a new arming starts uncalled. */
  lemma SameCalls(h: History, op: Op<()>)
    requires Sound(h) && op.called == h.op.called
    requires op.systemCalled == h.op.systemCalled && op.callback == h.op.callback
    ensures Sound(h.(op := op)) && Sound(h.(op := Invalidated(op)))
  {}

  lemma BeginSound(h: History, hasCallback: bool)
    requires Sound(h)
    ensures Sound(Begin(h, hasCallback)) && Sound(Begin(h.(op := h.op.(system := true)), hasCallback))
  {}

  lemma CompletedSound(h: History, prompt: bool)
    requires Sound(h)
    ensures Sound(Completed(h)) && Sound(Cancelled(h, prompt))
  {
    hide Sound;
    SameCalls(h, h.op.(completed := true, signalled := true));
  }

  lemma {:induction false} AcceptSound(h: History, act: Act)
    requires Sound(h) && act.Accept? && !Locked(h.op)
    ensures Sound(Do(h, act))
    decreases act, 0
  {
    hide CallBack, Sound, Cancelled;
    BeginSound(h, act.hasCallback);
    var b := Begin(h.(op := h.op.(system := true)), act.hasCallback);
    hide Begin;
    match act.result
    case Failed =>
      CallBackSound(b, act.body);
      CompletedSound(CallBack(b, act.body), act.prompt);
    case Pending => SameCalls(b, WithValid(b.op.(completed := false), true));
    case Connected =>
      SameCalls(b, WithValid(b.op, true));
      CallBackSound(b.(op := WithValid(b.op, true)), act.body);
  }

  lemma {:induction false} TransferSound(h: History, act: Act)
    requires Sound(h) && act.Transfer? && !Locked(h.op)
    ensures Sound(Do(h, act))
    decreases act, 0
  {
    hide CallBack, Sound, Cancelled;
    BeginSound(h, act.hasCallback);
    var b := Begin(h, act.hasCallback);
    hide Begin;
    if act.ok {
      SameCalls(b, WithValid(b.op.(completed := false), true));
    } else {
      CallBackSound(b, act.body);
      CompletedSound(CallBack(b, act.body), act.prompt);
    }
  }

  lemma {:induction false} WaitSound(h: History, act: Act)
    requires Sound(h) && act.Wait?
    ensures Sound(Do(h, act))
    decreases act, 0
  {
    hide CallBack, Sound;
    SameCalls(h, h.op.(signalled := false));
    if h.op.signalled {
      CallBackSound(h.(op := h.op.(signalled := false)), act.body);
    }
  }

  lemma {:induction false} DoSound(h: History, act: Act)
    requires Sound(h)
    ensures Sound(Do(h, act))
    decreases act, 1
  {
    hide CallBack, Sound, Begin, Cancelled, Completed;
    match act
    case Accept(_, _, _, _) =>
      if Locked(h.op) {
        Thrown(h);
      } else {
        AcceptSound(h, act);
      }
    case Transfer(_, _, _, _) =>
      if Locked(h.op) {
        Thrown(h);
      } else {
        TransferSound(h, act);
      }
    case Wait(_) => WaitSound(h, act);
    case Revoke => SameCalls(h, h.op);
    case Cancel(prompt) => CompletedSound(h, prompt);
    case Complete => CompletedSound(h, true);
  }

  lemma Thrown(h: History)
    requires Sound(h)
    ensures Sound(h.(thrown := true))
  {}

  lemma {:induction false} RunSound(h: History, acts: seq<Act>)
    requires Sound(h)
    ensures Sound(Run(h, acts))
    decreases acts, 0
  {
    if acts != [] && !h.thrown {
      DoSound(h, acts[0]);
      RunSound(Do(h, acts[0]), acts[1..]);
    }
  }

  /** Whatever is done to an operation, nested re-arming included, no arming calls its user
      callback twice and the system callback runs at most once. */
  lemma AtMostOnce(acts: seq<Act>)
    ensures var h := Run(UNUSED, acts);
            NoRepeat(h.fired) && h.systemFired <= 1 && forall g <- h.fired :: 1 <= g <= h.armings
  {
    RunSound(UNUSED, acts);
  }

  lemma {:induction false} RunAppend(h: History, acts: seq<Act>, act: Act)
    ensures var r := Run(h, acts); Run(h, acts + [act]) == if r.thrown then r else Do(r, act)
    decreases |acts|
  {
    if acts == [] {
      assert acts + [act] == [act] && [act][1..] == [];
    } else {
      assert (acts + [act])[1..] == acts[1..] + [act];
      if !h.thrown {
        RunAppend(Do(h, acts[0]), acts[1..], act);
      }
    }
  }

  /** A callback that arms its own operation again leaves an arming that has not been called:
      the call that is still returning does not mark it. */
  lemma RearmedInside(h: History, acts: seq<Act>, hasCallback: bool)
    requires Sound(h) && h.op.signalled && h.op.callback.Some? && !h.op.called
    ensures var r := Do(h, Wait(acts + [Transfer(true, hasCallback, [], false)]));
            r.thrown || (r.op.valid && !r.op.called && !r.op.completed && r.armings !in r.fired)
  {
    var body := acts + [Transfer(true, hasCallback, [], false)];
    var h' := h.(op := h.op.(signalled := false));
    if h'.op.system && !h'.op.systemCalled {
      h' := h'.(op := h'.op.(systemCalled := true), systemFired := h'.systemFired + 1);
    }
    h' := h'.(op := h'.op.(called := true), fired := h'.fired + [h'.armings]);
    assert Do(h, Wait(body)) == Run(h', body);
    RunAppend(h', acts, Transfer(true, hasCallback, [], false));
    DoSound(h, Wait(body));
  }

  /** A wait that finds the event set calls the callback of the arming, if that was not called; any
      other wait calls nothing. */
  lemma WaitFires(h: History)
    ensures h.op.signalled && h.op.callback.Some? && !h.op.called ==>
              var r := Do(h, Wait([])); r.fired == h.fired + [h.armings] && r.op.called && !r.op.signalled
    ensures !h.op.signalled || h.op.callback.None? || h.op.called ==> Do(h, Wait([])).fired == h.fired
  {}

  lemma CallsOnce(h: History)
    requires h.op.callback.Some? && !h.op.called
    ensures var r := CallBack(h, []);
            r.fired == h.fired + [h.armings] && r.op.valid == h.op.valid && r.op.completed == h.op.completed &&
            r.op.systemCalled == (h.op.systemCalled || h.op.system) &&
            r.systemFired == h.systemFired + (if h.op.system && !h.op.systemCalled then 1 else 0)
  {}

  lemma CancelsQuietly(h: History, prompt: bool)
    ensures var r := Cancelled(h, prompt);
            r.fired == h.fired && r.systemFired == h.systemFired && r.op.valid == h.op.valid &&
            r.op.systemCalled == h.op.systemCalled
  {}

  /** An accept that ends at once calls both callbacks, the system callback only the first time. */
  lemma {:induction false} AcceptFires(h: History, act: Act)
    requires !(h.op.valid && !h.op.completed)
    requires act.Accept? && !act.result.Pending? && act.hasCallback && act.body == []
    ensures var r := Do(h, act);
            r.fired == h.fired + [h.armings + 1] && r.op.systemCalled && r.op.valid == act.result.Connected? &&
            r.systemFired == h.systemFired + (if h.op.systemCalled then 0 else 1)
  {
    hide CallBack, Cancelled, Run;
    var b := Begin(h.(op := h.op.(system := true)), true);
    if act.result.Failed? {
      CallsOnce(b);
      CancelsQuietly(CallBack(b, []), act.prompt);
    } else {
      CallsOnce(b.(op := WithValid(b.op, true)));
    }
  }

  /** A rejected transfer calls the callback at once. */
  lemma {:induction false} RejectedFires(h: History, act: Act)
    requires !(h.op.valid && !h.op.completed)
    requires act.Transfer? && !act.ok && act.hasCallback && act.body == []
    ensures var r := Do(h, act); r.fired == h.fired + [h.armings + 1] && !r.op.valid
  {
    hide CallBack, Cancelled, Run;
    var b := Begin(h, true);
    CallsOnce(b);
    CancelsQuietly(CallBack(b, []), act.prompt);
  }

  lemma CallsBody(h: History, again: Act)
    requires h.op.callback.Some? && !h.op.called && !h.op.valid
    requires again.Transfer? && again.ok
    requires !h.thrown
    ensures var r := CallBack(h, [again]); r.op.valid && !r.op.completed && !r.op.called
  {
    var b := if h.op.system && !h.op.systemCalled
             then h.(op := h.op.(systemCalled := true), systemFired := h.systemFired + 1) else h;
    b := b.(op := b.op.(called := true), fired := b.fired + [b.armings]);
    assert [again][1..] == [];
    assert Run(b, [again]) == if b.thrown then b else Do(b, again);
  }

  /** A callback of a rejected transfer or failed accept that arms the operation again is followed by
      cancel(), which hits this arming: it ends at once if the system complies. */
  lemma {:induction false} RejectedCancels(h: History, act: Act, again: Act)
    requires !(h.op.valid && !h.op.completed) && !h.thrown && again.Transfer? && again.ok
    requires (act.Transfer? && !act.ok) || (act.Accept? && act.result.Failed?)
    requires act.hasCallback && act.body == [again]
    ensures var r := Do(h, act);
            r.op.valid && !r.op.called && r.op.completed == act.prompt && (act.prompt ==> r.op.signalled)
  {
    hide CallBack, Run;
    var b := Begin(if act.Accept? then h.(op := h.op.(system := true)) else h, true);
    CallsBody(b, again);
    assert Do(h, act) == Cancelled(CallBack(b, [again]), act.prompt);
  }

  /** A transfer or accept in flight calls nothing yet, and no other can be issued on its operation. */
  lemma ArmedSilent(h: History, accept: bool, prompt: bool)
    ensures var r := Do(h, if accept then Accept(Pending, true, [], prompt) else Transfer(true, true, [], prompt));
            if h.op.valid && !h.op.completed then r == h.(thrown := true)
            else r.fired == h.fired && r.armings == h.armings + 1 && r.op.valid && !r.op.called && !r.op.completed
  {}

  // ----- the object

  datatype Issued = Issued | Disconnected | Threw | Rejected

  class AsyncRequest<C> {
    var valid: bool
    var callback: Option<C>
    var callbackCalled: bool
    var systemCallback: bool
    var systemCallbackCalled: bool
    var completed: bool
    var signalled: bool

    ghost function Now(): Op<C>
      reads this
    {
      Op(valid, callback, callbackCalled, systemCallback, systemCallbackCalled, completed, signalled)
    }

    constructor ()
      ensures Now() == Fresh()
    {
      valid, callback, callbackCalled := false, None, false;
      systemCallback, systemCallbackCalled, completed, signalled := false, false, true, false;
    }

    method SetCallback(c: Option<C>) returns (threw: bool)
      modifies this
      ensures threw <==> old(valid) && !old(completed)
      ensures Now() == if threw then old(Now()) else old(Now()).(callback := c)
    {
      if valid {
        if !completed {
          return true;
        }
      }
      callback := c;
      return false;
    }

    method SetHandle()
      modifies this
      ensures Now() == WithHandle(old(Now())) == old(Now()).(valid := false, called := false)
    {
      valid := false;
      callbackCalled := false;
    }

    method SetValid(v: bool)
      modifies this
      ensures Now() == WithValid(old(Now()), v) == old(Now()).(valid := v, called := false)
    {
      valid := v;
      callbackCalled := false;
    }

    method Invalidate()
      modifies this
      ensures Now() == Invalidated(old(Now())) == old(Now()).(valid := false, called := true)
    {
      valid := false;
      callbackCalled := true;
    }

    /** The system finishes the transfer and the completion routine sets the event. */
    method Finish()
      modifies this
      ensures Now() == old(Now()).(completed := true, signalled := true)
    {
      completed, signalled := true, true;
    }

    /** cancel(): granted is what CancelIoEx answers, if it is asked. */
    method Cancel(granted: bool) returns (ok: bool)
      ensures ok == (valid && (granted || completed))
    {
      if !valid {
        return false;
      }
      if !completed {
        return granted;
      }
      return true;
    }

    /** call_callback(ec, length), up to the point where the user callback is entered: whether the
        system callback runs in front, and the user callback to run. */
    method CallCallback() returns (system: bool, c: Option<C>)
      modifies this
      ensures (Now(), c) == CalledBack(old(Now())) && system == (old(systemCallback) && !old(systemCallbackCalled))
      ensures c == if old(callbackCalled) then None else old(callback)
      ensures callbackCalled == (old(callbackCalled) || old(callback).Some?)
      ensures systemCallbackCalled == (old(systemCallbackCalled) || old(systemCallback))
      ensures valid == old(valid) && completed == old(completed) && signalled == old(signalled)
    {
      system := false;
      if systemCallback && !systemCallbackCalled {
        systemCallbackCalled := true;
        system := true;
      }
      c := None;
      if callback.Some? && !callbackCalled {
        callbackCalled := true;
        c := callback;
      }
    }

    /** A wait that finds the event set, up to the point where the user callback is entered. */
    method Wait() returns (system: bool, c: Option<C>)
      requires signalled
      modifies this
      ensures (Now(), c) == Deliver(old(Now())) && system == (old(systemCallback) && !old(systemCallbackCalled))
      ensures c == (if old(callbackCalled) then None else old(callback)) && !signalled
      ensures callbackCalled == (old(callbackCalled) || old(callback).Some?) && valid == old(valid)
    {
      signalled := false;
      system, c := CallCallback();
    }
  }

  /** socket_win::read and write: make or re-arm the caller's operation. accepted is what ReadFileEx
      or WriteFileEx answers; on a rejection run is the user callback that is called at once, before
      cancel(). */
  method StartTransfer<C>(op: AsyncRequest?<C>, c: Option<C>, connected: bool, accepted: bool)
    returns (r: AsyncRequest?<C>, ec: Issued, run: Option<C>)
    modifies if op != null then {op} else {}
    ensures ec == if !connected then Disconnected
                  else if op != null && old(op.valid && !op.completed) then Threw
                  else if accepted then Issued else Rejected
    ensures ec.Issued? || ec.Rejected? ==>
              (r != null && (if op == null then fresh(r) else r == op) &&
               var was := if op == null then None else Some(old(op.Now()));
               if accepted then r.Now() == Arm(was, c) && run == None
               else (r.Now(), run) == CalledBack(Prepared(was, c)) && run == c)
    ensures ec.Issued? ==> r.valid && !r.callbackCalled && !r.completed && r.callback == c
    ensures ec.Rejected? ==> !r.valid && r.callback == c && (r.callbackCalled <==> c.Some?)
    ensures ec.Disconnected? || ec.Threw? ==> (r == op && run == None && (op != null ==> op.Now() == old(op.Now())))
  {
    run := None;
    if !connected {
      return op, Disconnected, run;
    }
    r := op;
    if r == null {
      r := new AsyncRequest();
    }
    var threw := r.SetCallback(c);
    if threw {
      return r, Threw, run;
    }
    r.SetHandle();
    if !accepted {
      var system;
      system, run := r.CallCallback();
      return r, Rejected, run;
    }
    r.completed := false;
    r.SetValid(true);
    ec := Issued;
  }
}
