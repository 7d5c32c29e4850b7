/** GeeRPC/server.go:111-133, 183-219: one connection, any number of requests, each with the
    goroutine that waits for it and the goroutine that runs its method.  The steps of all of
    them interleave in any order. */
module RpcServer {
  import opened Linearizability

  /** The goroutine that runs the method (server.go:187-198): `ok` is whether it succeeded. */
  datatype Handler = Calling | AtCalled(ok: bool) | Answering(ok: bool) | HWriting(ok: bool) | AtSent | Finished

  /** The goroutine of handleRequest (server.go:199-210). */
  datatype Waiter = Selecting | AwaitSent | TimedOut | WWriting | Done

  datatype Response = Result | MethodError | Expired

  /** `responses` are the writes to the codec for this request, in order. */
  datatype Request = Request(handler: Handler, waiter: Waiter, responses: seq<Response>)

  datatype Loop = Reading | Invalid | LWriting | Waiting | Closed

  datatype Holder = ByLoop | ByHandler(i: nat) | ByTimer(i: nat)

  /** `wg` is the counter of the WaitGroup; `refusals` the answers of the loop itself, to requests
      whose body could not be read; `timeout` whether requests have a time limit. */
  datatype State = State(
    requests: seq<Request>, loop: Loop, wg: int, sending: Option<Holder>, refusals: nat, timeout: bool)

  datatype Event =
    | Accept // a request is read and its goroutine started
    | Reject // a request is read, but not its body
    | RejectLock
    | RejectWrite
    | Stop // nothing can be read any more
    | Shut // all requests are done: the codec is closed
    | Return(i: nat, ok: bool) // the method returns
    | Called(i: nat) // both sides meet on `called`
    | Lock(i: nat)
    | Write(i: nat)
    | Sent(i: nat) // both sides meet on `sent`
    | Expire(i: nat) // the time limit passes first
    | ExpireLock(i: nat)
    | ExpireWrite(i: nat)

  function Init(timeout: bool): State {
    State([], Reading, 0, None, 0, timeout)
  }

  predicate Enabled(s: State, e: Event) {
    match e
    case Accept => s.loop == Reading
    case Reject => s.loop == Reading
    case RejectLock => s.loop == Invalid && s.sending == None
    case RejectWrite => s.loop == LWriting
    case Stop => s.loop == Reading
    case Shut => s.loop == Waiting && s.wg == 0
    case Return(i, _) => i < |s.requests| && s.requests[i].handler == Calling
    case Called(i) => i < |s.requests| && s.requests[i].handler.AtCalled? && s.requests[i].waiter == Selecting
    case Lock(i) => i < |s.requests| && s.requests[i].handler.Answering? && s.sending == None
    case Write(i) => i < |s.requests| && s.requests[i].handler.HWriting?
    case Sent(i) => i < |s.requests| && s.requests[i].handler == AtSent && s.requests[i].waiter == AwaitSent
    case Expire(i) => i < |s.requests| && s.requests[i].waiter == Selecting && s.timeout
    case ExpireLock(i) => i < |s.requests| && s.requests[i].waiter == TimedOut && s.sending == None
    case ExpireWrite(i) => i < |s.requests| && s.requests[i].waiter == WWriting
  }

  function With(s: State, i: nat, r: Request): State
    requires i < |s.requests|
  {
    s.(requests := s.requests[i := r])
  }

  function Step(s: State, e: Event): State
    requires Enabled(s, e)
  {
    match e
    case Accept => s.(requests := s.requests + [Request(Calling, Selecting, [])], wg := s.wg + 1)
    case Reject => s.(loop := Invalid)
    case RejectLock => s.(loop := LWriting, sending := Some(ByLoop))
    case RejectWrite => s.(loop := Reading, sending := None, refusals := s.refusals + 1)
    case Stop => s.(loop := Waiting)
    case Shut => s.(loop := Closed)
    case Return(i, ok) => With(s, i, s.requests[i].(handler := AtCalled(ok)))
    case Called(i) =>
      With(s, i, s.requests[i].(handler := Answering(s.requests[i].handler.ok), waiter := AwaitSent))
    case Lock(i) => With(s, i, s.requests[i].(handler := HWriting(s.requests[i].handler.ok))).(sending := Some(ByHandler(i)))
    case Write(i) =>
      var response := if s.requests[i].handler.ok then Result else MethodError;
      With(s, i, s.requests[i].(handler := AtSent, responses := s.requests[i].responses + [response])).(sending := None)
    case Sent(i) => With(s, i, s.requests[i].(handler := Finished, waiter := Done)).(wg := s.wg - 1)
    case Expire(i) => With(s, i, s.requests[i].(waiter := TimedOut))
    case ExpireLock(i) => With(s, i, s.requests[i].(waiter := WWriting)).(sending := Some(ByTimer(i)))
    case ExpireWrite(i) =>
      With(s, i, s.requests[i].(waiter := Done, responses := s.requests[i].responses + [Expired])).(sending := None, wg := s.wg - 1)
  }

  ghost predicate Run(timeout: bool, ss: seq<State>, es: seq<Event>) {
    && |ss| == |es| + 1 && ss[0] == Init(timeout)
    && forall n | 0 <= n < |es| :: Enabled(ss[n], es[n]) && ss[n + 1] == Step(ss[n], es[n])
  }

  // ----- what every step keeps

  predicate NotCalled(h: Handler) {
    h == Calling || h.AtCalled?
  }

  predicate RequestInv(s: State, i: nat)
    requires i < |s.requests|
  {
    var r := s.requests[i];
    && (r.handler.HWriting? <==> s.sending == Some(ByHandler(i)))
    && (r.waiter == WWriting <==> s.sending == Some(ByTimer(i)))
    && match r.waiter
       case Selecting => NotCalled(r.handler) && r.responses == []
       case AwaitSent =>
         if r.handler == AtSent then |r.responses| == 1 && r.responses[0] != Expired
         else (r.handler.Answering? || r.handler.HWriting?) && r.responses == []
       case TimedOut => NotCalled(r.handler) && r.responses == []
       case WWriting => NotCalled(r.handler) && r.responses == []
       case Done =>
         |r.responses| == 1 && if r.responses[0] == Expired then NotCalled(r.handler) else r.handler == Finished
  }

  /** The requests whose goroutine has not returned. */
  function Unfinished(rs: seq<Request>): nat {
    if rs == [] then 0
    else Unfinished(rs[..|rs| - 1]) + if rs[|rs| - 1].waiter == Done then 0 else 1
  }

  predicate Holds(s: State) {
    match s.sending
    case None => true
    case Some(ByLoop) => true
    case Some(ByHandler(i)) => i < |s.requests|
    case Some(ByTimer(i)) => i < |s.requests|
  }

  predicate Inv(s: State) {
    && s.wg == Unfinished(s.requests)
    && (s.loop == LWriting <==> s.sending == Some(ByLoop))
    && (s.loop == Closed ==> s.wg == 0)
    && Holds(s)
    && (forall i | 0 <= i < |s.requests| :: RequestInv(s, i))
  }

  lemma {:induction false} UnfinishedUpdate(rs: seq<Request>, i: nat, r: Request)
    requires i < |rs|
    ensures Unfinished(rs[i := r]) ==
      Unfinished(rs) - (if rs[i].waiter == Done then 0 else 1) + (if r.waiter == Done then 0 else 1)
  {
    var k := |rs| - 1;
    if i == k {
      assert rs[i := r][..k] == rs[..k];
    } else {
      assert rs[i := r][..k] == rs[..k][i := r];
      UnfinishedUpdate(rs[..k], i, r);
    }
  }

  lemma {:induction false} UnfinishedNone(rs: seq<Request>, i: nat)
    requires i < |rs|
    ensures rs[i].waiter != Done ==> Unfinished(rs) > 0
  {
    if i < |rs| - 1 {
      UnfinishedNone(rs[..|rs| - 1], i);
    }
  }

  /** Who holds the sending lock for a request is not done with it. */
  lemma {:induction false} HolderUnfinished(s: State)
    requires Inv(s)
    ensures s.sending.Some? && s.sending.value != ByLoop ==> s.wg > 0
  {
    if s.sending.Some? && s.sending.value != ByLoop {
      var j := s.sending.value.i;
      assert RequestInv(s, j);
      UnfinishedNone(s.requests, j);
    }
  }

  lemma {:induction false} CountStep(s: State, e: Event)
    requires Inv(s) && Enabled(s, e)
    ensures Step(s, e).wg == Unfinished(Step(s, e).requests)
  {
    hide RequestInv, Unfinished;
    match e {
      case Accept =>
        UnfinishedAppend(s.requests, Request(Calling, Selecting, []));
      case Reject =>
      case RejectLock =>
      case RejectWrite =>
      case Stop =>
      case Shut =>
      case _ =>
        UnfinishedUpdate(s.requests, e.i, Step(s, e).requests[e.i]);
    }
  }

  lemma {:induction false} UnfinishedAppend(rs: seq<Request>, r: Request)
    requires r.waiter != Done
    ensures Unfinished(rs + [r]) == Unfinished(rs) + 1
  {
    assert (rs + [r])[..|rs|] == rs;
  }

  predicate OfLoop(e: Event) {
    e.Accept? || e.Reject? || e.RejectLock? || e.RejectWrite? || e.Stop? || e.Shut?
  }

  lemma {:induction false} OwnStep(s: State, e: Event)
    requires Enabled(s, e) && !OfLoop(e) && RequestInv(s, e.i)
    ensures e.i < |Step(s, e).requests| && RequestInv(Step(s, e), e.i)
  {
  }

  lemma {:induction false} OthersStep(s: State, e: Event, i: nat)
    requires Enabled(s, e) && !OfLoop(e) && i < |s.requests| && i != e.i && RequestInv(s, e.i) && RequestInv(s, i)
    ensures i < |Step(s, e).requests| && RequestInv(Step(s, e), i)
  {
  }

  lemma {:induction false} RequestStep(s: State, e: Event, i: nat)
    requires Inv(s) && Enabled(s, e) && i < |Step(s, e).requests|
    ensures RequestInv(Step(s, e), i)
  {
    hide Unfinished;
    assert i < |s.requests| ==> RequestInv(s, i);
    if !OfLoop(e) {
      if i == e.i {
        OwnStep(s, e);
      } else {
        OthersStep(s, e, i);
      }
    }
  }

  lemma {:induction false} StepInv(s: State, e: Event)
    requires Inv(s) && Enabled(s, e)
    ensures Inv(Step(s, e))
  {
    hide RequestInv, Unfinished;
    var s' := Step(s, e);
    forall i | 0 <= i < |s'.requests| ensures RequestInv(s', i) {
      RequestStep(s, e, i);
    }
    CountStep(s, e);
    LoopStep(s, e);
  }

  lemma {:induction false} LoopStep(s: State, e: Event)
    requires Inv(s) && Enabled(s, e)
    ensures var s' := Step(s, e);
      (s'.loop == LWriting <==> s'.sending == Some(ByLoop)) && (s'.loop == Closed ==> s'.wg == 0) && Holds(s')
  {
    hide Unfinished;
    if e.Write? || e.Sent? || e.ExpireWrite? {
      assert RequestInv(s, e.i);
      if s.loop == Closed {
        UnfinishedNone(s.requests, e.i);
      }
    }
  }

  lemma {:induction false} RunPrefix(timeout: bool, ss: seq<State>, es: seq<Event>)
    requires Run(timeout, ss, es) && es != []
    ensures var n := |es| - 1;
      && Run(timeout, ss[..n + 1], es[..n]) && Enabled(ss[n], es[n]) && ss[n + 1] == Step(ss[n], es[n])
  {
    hide Enabled, Step;
    var n := |es| - 1;
    assert forall i | 0 <= i <= n :: ss[..n + 1][i] == ss[i];
    assert forall i | 0 <= i < n :: es[..n][i] == es[i];
  }

  lemma {:induction false} RunInv(timeout: bool, ss: seq<State>, es: seq<Event>)
    requires Run(timeout, ss, es)
    ensures Inv(ss[|es|]) && ss[|es|].timeout == timeout
    decreases |es|
  {
    if es != [] {
      hide Inv, Enabled;
      var n := |es| - 1;
      RunPrefix(timeout, ss, es);
      RunInv(timeout, ss[..n + 1], es[..n]);
      StepInv(ss[n], es[n]);
    }
  }

  // ----- the protocol

  /** In every interleaving: a request is answered at most once; once its goroutine is done,
      exactly once; and the answer says that time ran out exactly if the time limit won. */
  lemma {:induction false} AnsweredOnce(timeout: bool, ss: seq<State>, es: seq<Event>, i: nat)
    requires Run(timeout, ss, es) && i < |ss[|es|].requests|
    ensures var r := ss[|es|].requests[i];
      && |r.responses| <= 1
      && (r.waiter == Done ==> |r.responses| == 1)
      && (r.responses == [Expired] ==> r.waiter == Done && NotCalled(r.handler))
      && (!timeout ==> Expired !in r.responses)
  {
    RunInv(timeout, ss, es);
    assert RequestInv(ss[|es|], i);
    if !timeout {
      NoTimer(timeout, ss, es, i);
    }
  }

  lemma {:induction false} NoTimer(timeout: bool, ss: seq<State>, es: seq<Event>, i: nat)
    requires Run(timeout, ss, es) && !timeout && i < |ss[|es|].requests|
    ensures var r := ss[|es|].requests[i]; r.waiter != TimedOut && r.waiter != WWriting && Expired !in r.responses
    decreases |es|
  {
    if es != [] {
      var n := |es| - 1;
      RunPrefix(timeout, ss, es);
      RunInv(timeout, ss[..n + 1], es[..n]);
      if i < |ss[n].requests| {
        NoTimer(timeout, ss[..n + 1], es[..n], i);
      }
    }
  }

  // ----- which answer

  /** What the events say about request `i`: its method returns once and with one outcome, the
      outcome travels with the goroutine until it is written, and the time limit passes exactly
      if the waiter has gone that way. */
  predicate AnswerInv(s: State, es: seq<Event>, i: nat)
    requires i < |s.requests|
  {
    var r := s.requests[i];
    && !(Return(i, true) in es && Return(i, false) in es)
    && (match r.handler
        case Calling => Return(i, true) !in es && Return(i, false) !in es
        case AtSent => AnswersMethod(r.responses, es, i)
        case Finished => AnswersMethod(r.responses, es, i)
        case _ => Return(i, r.handler.ok) in es)
    && (Expire(i) in es <==> r.waiter == TimedOut || r.waiter == WWriting || r.responses == [Expired])
  }

  /** The method's own outcome is what was answered. */
  predicate AnswersMethod(responses: seq<Response>, es: seq<Event>, i: nat) {
    || (responses == [Result] && Return(i, true) in es)
    || (responses == [MethodError] && Return(i, false) in es)
  }

  /** Nothing has happened to requests that have not been read. */
  predicate Untouched(s: State, es: seq<Event>) {
    forall k | 0 <= k < |es| && !OfLoop(es[k]) :: es[k].i < |s.requests|
  }

  lemma {:induction false} AnswerStep(s: State, es: seq<Event>, e: Event, i: nat)
    requires Enabled(s, e) && i < |s.requests| && RequestInv(s, i) && AnswerInv(s, es, i)
    ensures i < |Step(s, e).requests| && AnswerInv(Step(s, e), es + [e], i)
  {
    hide AnswerInv;
    if OfLoop(e) || e.i != i {
      AnswerKept(s, es, e, i);
    } else {
      AnswerOwnStep(s, es, e);
    }
  }

  lemma {:induction false} AnswerKept(s: State, es: seq<Event>, e: Event, i: nat)
    requires Enabled(s, e) && i < |s.requests| && (OfLoop(e) || e.i != i) && AnswerInv(s, es, i)
    ensures i < |Step(s, e).requests| && AnswerInv(Step(s, e), es + [e], i)
  {
    assert Step(s, e).requests[i] == s.requests[i];
  }

  lemma {:induction false} AnswerOwnStep(s: State, es: seq<Event>, e: Event)
    requires Enabled(s, e) && !OfLoop(e) && RequestInv(s, e.i) && AnswerInv(s, es, e.i)
    ensures e.i < |Step(s, e).requests| && AnswerInv(Step(s, e), es + [e], e.i)
  {
  }

  lemma {:induction false} AnswerStart(s: State, es: seq<Event>)
    requires Untouched(s, es) && Enabled(s, Accept)
    ensures AnswerInv(Step(s, Accept), es + [Accept], |s.requests|)
  {
  }

  lemma {:induction false} AnswerHolds(timeout: bool, ss: seq<State>, es: seq<Event>)
    requires Run(timeout, ss, es)
    ensures Untouched(ss[|es|], es) && forall i | 0 <= i < |ss[|es|].requests| :: AnswerInv(ss[|es|], es, i)
    decreases |es|
  {
    hide Inv, Step, Enabled, AnswerInv, Untouched;
    if es == [] {
      NothingYet(timeout);
    } else {
      var n := |es| - 1;
      var ss', es' := ss[..n + 1], es[..n];
      RunPrefix(timeout, ss, es);
      assert es == es' + [es[n]];
      AnswerHolds(timeout, ss', es');
      RunInv(timeout, ss', es');
      StepTouches(ss[n], es', es[n]);
      var s := ss[n + 1];
      forall i | 0 <= i < |s.requests| ensures AnswerInv(s, es, i) {
        if i < |ss[n].requests| {
          assert RequestInv(ss[n], i) by { InvOf(ss[n], i); }
          AnswerStep(ss[n], es', es[n], i);
        } else {
          AnswerStart(ss[n], es');
        }
      }
    }
  }

  lemma {:induction false} NothingYet(timeout: bool)
    ensures Untouched(Init(timeout), []) && Init(timeout).requests == []
  {
  }

  lemma {:induction false} InvOf(s: State, i: nat)
    requires Inv(s) && i < |s.requests|
    ensures RequestInv(s, i)
  {
  }

  /** Events are about requests that have been read, and only reading adds one. */
  lemma {:induction false} StepTouches(s: State, es: seq<Event>, e: Event)
    requires Enabled(s, e) && Untouched(s, es)
    ensures Untouched(Step(s, e), es + [e])
    ensures |Step(s, e).requests| == |s.requests| + if e == Accept then 1 else 0
  {
  }

  /** The answer that the events call for. */
  function Answer(es: seq<Event>, i: nat): Response {
    if Expire(i) in es then Expired else if Return(i, true) in es then Result else MethodError
  }

  /** In every interleaving: what is answered is the outcome of the method, exactly unless the
      time limit passed first; and a request that is done has that answer. */
  lemma {:induction false} RightAnswer(timeout: bool, ss: seq<State>, es: seq<Event>, i: nat)
    requires Run(timeout, ss, es) && i < |ss[|es|].requests|
    ensures var r := ss[|es|].requests[i];
      && (r.responses == [Result] ==> Return(i, true) in es && Return(i, false) !in es && Expire(i) !in es)
      && (r.responses == [MethodError] ==> Return(i, false) in es && Return(i, true) !in es && Expire(i) !in es)
      && (r.responses == [Expired] ==> Expire(i) in es)
      && (r.waiter == Done ==> r.responses == [Answer(es, i)])
  {
    AnswerHolds(timeout, ss, es);
    RunInv(timeout, ss, es);
    assert RequestInv(ss[|es|], i) && AnswerInv(ss[|es|], es, i);
  }

  /** A request whose body cannot be read is answered by the loop, once, before it reads on. */
  lemma {:induction false} RefusedOnce(timeout: bool, ss: seq<State>, es: seq<Event>)
    requires Run(timeout, ss, es)
    ensures multiset(es)[Reject] == ss[|es|].refusals + Refusing(ss[|es|])
    decreases |es|
  {
    if es != [] {
      hide Step, Enabled, Refusing;
      var n := |es| - 1;
      RunPrefix(timeout, ss, es);
      RefusedOnce(timeout, ss[..n + 1], es[..n]);
      assert es == es[..n] + [es[n]];
      StepRefusals(ss[n], es[n]);
    }
  }

  /** The loop has read a request without its body and not answered it yet. */
  function Refusing(s: State): nat {
    if s.loop == Invalid || s.loop == LWriting then 1 else 0
  }

  lemma {:induction false} StepRefusals(s: State, e: Event)
    requires Enabled(s, e)
    ensures Step(s, e).refusals + Refusing(Step(s, e)) == s.refusals + Refusing(s) + if e == Reject then 1 else 0
  {
  }

  /** The loop reads on until nothing can be read, whatever it read before; every request that it
      accepts is one of `requests`. */
  lemma {:induction false} LoopExactly(timeout: bool, ss: seq<State>, es: seq<Event>)
    requires Run(timeout, ss, es)
    ensures |ss[|es|].requests| == multiset(es)[Accept]
    ensures ss[|es|].loop == Waiting || ss[|es|].loop == Closed <==> Stop in es
    ensures ss[|es|].loop == Closed <==> Shut in es
    decreases |es|
  {
    if es != [] {
      hide Step, Enabled;
      var n := |es| - 1;
      RunPrefix(timeout, ss, es);
      LoopExactly(timeout, ss[..n + 1], es[..n]);
      assert es == es[..n] + [es[n]];
      LoopMoves(ss[n], es[n]);
    }
  }

  lemma {:induction false} LoopMoves(s: State, e: Event)
    requires Enabled(s, e)
    ensures var s' := Step(s, e);
      && |s'.requests| == |s.requests| + (if e == Accept then 1 else 0)
      && (s'.loop == Waiting || s'.loop == Closed <==> s.loop == Waiting || s.loop == Closed || e == Stop)
      && (s'.loop == Closed <==> s.loop == Closed || e == Shut)
  {
  }

  /** At most one of the goroutines is writing a response. */
  lemma {:induction false} OneWriter(timeout: bool, ss: seq<State>, es: seq<Event>, i: nat, j: nat)
    requires Run(timeout, ss, es) && i < |ss[|es|].requests| && j < |ss[|es|].requests|
    ensures var s := ss[|es|];
      && (Writes(s, i) ==> s.loop != LWriting)
      && (Writes(s, i) && Writes(s, j) ==> i == j)
      && !(s.requests[i].handler.HWriting? && s.requests[i].waiter == WWriting)
  {
    RunInv(timeout, ss, es);
    assert RequestInv(ss[|es|], i) && RequestInv(ss[|es|], j);
  }

  predicate Writes(s: State, i: nat)
    requires i < |s.requests|
  {
    s.requests[i].handler.HWriting? || s.requests[i].waiter == WWriting
  }

  /** The codec is closed only when every request has been answered, exactly once and rightly,
      and nobody is writing or going to write. */
  lemma {:induction false} ClosedAfterAnswers(timeout: bool, ss: seq<State>, es: seq<Event>, i: nat)
    requires Run(timeout, ss, es) && ss[|es|].loop == Closed && i < |ss[|es|].requests|
    ensures var s := ss[|es|]; var r := s.requests[i];
      && r.responses == [Answer(es, i)] && s.sending == None
      && (r.handler == Finished || (NotCalled(r.handler) && r.responses == [Expired]))
  {
    RunInv(timeout, ss, es);
    RightAnswer(timeout, ss, es, i);
    var s := ss[|es|];
    UnfinishedNone(s.requests, i);
    assert RequestInv(s, i);
    HolderUnfinished(s);
  }

  /** A method that outlives its time limit never gets past `called`, whatever happens next. */
  lemma {:induction false} LateStaysBlocked(timeout: bool, ss: seq<State>, es: seq<Event>, n: nat, i: nat)
    requires Run(timeout, ss, es) && n <= |es|
    requires i < |ss[n].requests| && ss[n].requests[i].waiter in {TimedOut, WWriting}
    ensures i < |ss[|es|].requests|
    ensures var r := ss[|es|].requests[i]; NotCalled(r.handler) && (r.waiter == Done ==> r.responses == [Expired])
    ensures ss[|es|].requests[i].waiter in {TimedOut, WWriting, Done}
    decreases |es|
  {
    hide Inv, Step, Enabled;
    if n == |es| {
      RunInv(timeout, ss, es);
      LateNotCalled(ss[n], i);
    } else {
      var m := |es| - 1;
      RunPrefix(timeout, ss, es);
      var ss', es' := ss[..m + 1], es[..m];
      assert ss'[n] == ss[n] && ss'[m] == ss[m];
      LateStaysBlocked(timeout, ss', es', n, i);
      RunInv(timeout, ss', es');
      BlockedStep(ss[m], es[m], i);
    }
  }

  lemma {:induction false} LateNotCalled(s: State, i: nat)
    requires Inv(s) && i < |s.requests| && s.requests[i].waiter in {TimedOut, WWriting}
    ensures NotCalled(s.requests[i].handler)
  {
    assert RequestInv(s, i);
  }

  lemma {:induction false} BlockedStep(s: State, e: Event, i: nat)
    requires Inv(s) && Enabled(s, e) && i < |s.requests|
    requires var r := s.requests[i]; NotCalled(r.handler) && r.waiter in {TimedOut, WWriting, Done}
    ensures i < |Step(s, e).requests|
    ensures var r := Step(s, e).requests[i];
      NotCalled(r.handler) && r.waiter in {TimedOut, WWriting, Done} && (r.waiter == Done ==> r.responses == [Expired])
  {
    assert RequestInv(s, i);
  }

  // ----- every request gets done

  function HandlerRank(h: Handler): nat {
    match h
    case Calling => 5
    case AtCalled(_) => 4
    case Answering(_) => 3
    case HWriting(_) => 2
    case AtSent => 1
    case Finished => 0
  }

  function WaiterRank(w: Waiter): nat {
    match w
    case Selecting => 3
    case TimedOut => 2
    case WWriting => 1
    case AwaitSent => 1
    case Done => 0
  }

  function LoopRank(l: Loop): nat {
    match l
    case Invalid => 4
    case LWriting => 3
    case Reading => 2
    case Waiting => 1
    case Closed => 0
  }

  function RequestRank(r: Request): nat {
    HandlerRank(r.handler) + WaiterRank(r.waiter)
  }

  function RequestRanks(rs: seq<Request>): nat {
    if rs == [] then 0 else RequestRanks(rs[..|rs| - 1]) + RequestRank(rs[|rs| - 1])
  }

  /** How many more steps there can be before a request is read. */
  function StepsLeft(s: State): nat {
    RequestRanks(s.requests) + LoopRank(s.loop)
  }

  lemma {:induction false} RanksUpdate(rs: seq<Request>, i: nat, r: Request)
    requires i < |rs|
    ensures RequestRanks(rs[i := r]) == RequestRanks(rs) - RequestRank(rs[i]) + RequestRank(r)
  {
    var k := |rs| - 1;
    if i == k {
      assert rs[i := r][..k] == rs[..k];
    } else {
      assert rs[i := r][..k] == rs[..k][i := r];
      RanksUpdate(rs[..k], i, r);
    }
  }

  /** Every step but the reading of a request makes the measure smaller. */
  lemma {:induction false} StepsRunOut(s: State, e: Event)
    requires Enabled(s, e) && !e.Accept? && !e.Reject?
    ensures StepsLeft(Step(s, e)) < StepsLeft(s)
  {
    hide RequestRanks;
    if !OfLoop(e) {
      RanksUpdate(s.requests, e.i, Step(s, e).requests[e.i]);
    }
  }

  /** The write that gives the sending lock back. */
  predicate GivesBack(s: State, e: Event) {
    match s.sending
    case None => false
    case Some(ByLoop) => e == RejectWrite
    case Some(ByHandler(i)) => e == Write(i)
    case Some(ByTimer(i)) => e == ExpireWrite(i)
  }

  /** A request that is not done can take a step of its own, or waits for the sending lock and
      its holder can give it back. */
  lemma {:induction false} NotDeadlocked(s: State, i: nat) returns (e: Event)
    requires Inv(s) && i < |s.requests| && s.requests[i].waiter != Done
    ensures Enabled(s, e) && ((!OfLoop(e) && e.i == i) || GivesBack(s, e))
  {
    assert RequestInv(s, i);
    if s.sending.Some? {
      match s.sending.value {
        case ByLoop => e := RejectWrite;
        case ByHandler(j) => assert RequestInv(s, j); e := Write(j);
        case ByTimer(j) => assert RequestInv(s, j); e := ExpireWrite(j);
      }
    } else {
      match s.requests[i].waiter {
        case Selecting => e := if s.requests[i].handler == Calling then Return(i, true) else Called(i);
        case AwaitSent => e := if s.requests[i].handler == AtSent then Sent(i) else Lock(i);
        case TimedOut => e := ExpireLock(i);
      }
    }
  }

  lemma {:induction false} RunExtend(timeout: bool, ss: seq<State>, es: seq<Event>, e: Event)
    requires Run(timeout, ss, es) && Enabled(ss[|es|], e)
    ensures Run(timeout, ss + [Step(ss[|es|], e)], es + [e])
  {
    hide Enabled, Step;
    var ss', es' := ss + [Step(ss[|es|], e)], es + [e];
    forall n | 0 <= n < |es'| ensures Enabled(ss'[n], es'[n]) && ss'[n + 1] == Step(ss'[n], es'[n]) {
      if n < |es| { assert ss'[n] == ss[n] && ss'[n + 1] == ss[n + 1] && es'[n] == es[n]; }
    }
  }

  /** Every run goes on to one in which all its requests are done, without reading another. */
  lemma {:induction false} AllGetDone(timeout: bool, ss: seq<State>, es: seq<Event>) returns (ss': seq<State>, es': seq<Event>)
    requires Run(timeout, ss, es)
    ensures Run(timeout, ss', es') && es <= es' && ss <= ss'
    ensures forall n | |es| <= n < |es'| :: !es'[n].Accept? && !es'[n].Reject? && !es'[n].Stop?
    ensures forall i | 0 <= i < |ss'[|es'|].requests| :: ss'[|es'|].requests[i].waiter == Done
    decreases StepsLeft(ss[|es|])
  {
    hide Run, Inv, Enabled, Step, StepsLeft;
    RunLength(timeout, ss, es);
    var s := ss[|es|];
    if i :| 0 <= i < |s.requests| && s.requests[i].waiter != Done {
      RunInv(timeout, ss, es);
      var e := NotDeadlocked(s, i);
      StepsRunOut(s, e);
      RunExtend(timeout, ss, es, e);
      ss', es' := AllGetDone(timeout, ss + [Step(s, e)], es + [e]);
      assert es'[|es|] == (es + [e])[|es|];
    } else {
      ss', es' := ss, es;
    }
  }

  lemma {:induction false} RunLength(timeout: bool, ss: seq<State>, es: seq<Event>)
    requires Run(timeout, ss, es)
    ensures |ss| == |es| + 1
  {
  }

  lemma {:induction false} AllDoneCount(rs: seq<Request>)
    requires forall i | 0 <= i < |rs| :: rs[i].waiter == Done
    ensures Unfinished(rs) == 0
  {
    if rs != [] { AllDoneCount(rs[..|rs| - 1]); }
  }

  /** So once nothing more is read, the codec can always be closed. */
  lemma {:induction false} CanClose(timeout: bool, ss: seq<State>, es: seq<Event>) returns (ss': seq<State>, es': seq<Event>)
    requires Run(timeout, ss, es) && ss[|es|].loop == Waiting
    ensures Run(timeout, ss', es') && es <= es' && ss'[|es'|].loop == Closed
  {
    hide Inv, Enabled, Step;
    var ss1, es1 := AllGetDone(timeout, ss, es);
    StaysWaiting(timeout, ss1, es1, |es|);
    RunInv(timeout, ss1, es1);
    var s := ss1[|es1|];
    assert s.wg == Unfinished(s.requests) by { InvCount(s); }
    AllDoneCount(s.requests);
    ss', es' := ss1, es1;
    if s.loop != Closed {
      assert Enabled(s, Shut) && Step(s, Shut).loop == Closed by { ShutEnabled(s); }
      RunExtend(timeout, ss1, es1, Shut);
      ss', es' := ss1 + [Step(s, Shut)], es1 + [Shut];
    }
  }

  lemma {:induction false} ShutEnabled(s: State)
    requires s.loop == Waiting && s.wg == 0
    ensures Enabled(s, Shut) && Step(s, Shut).loop == Closed
  {
  }

  lemma {:induction false} InvCount(s: State)
    requires Inv(s)
    ensures s.wg == Unfinished(s.requests)
  {
  }

  lemma {:induction false} StaysWaiting(timeout: bool, ss: seq<State>, es: seq<Event>, n: nat)
    requires Run(timeout, ss, es) && n <= |es| && ss[n].loop in {Waiting, Closed}
    ensures ss[|es|].loop in {Waiting, Closed}
    decreases |es|
  {
    if n < |es| {
      var m := |es| - 1;
      RunPrefix(timeout, ss, es);
      assert ss[..m + 1][n] == ss[n];
      StaysWaiting(timeout, ss[..m + 1], es[..m], n);
    }
  }
}
