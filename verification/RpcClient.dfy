/** GeeRPC/client.go: any number of calls on one client.  Every step is what one goroutine does
    between two points where others can come in; they interleave in any order. */
module RpcClient {
  import opened Linearizability

  /** The fields that the lock protects; `C` stands for a call. */
  datatype Table<C> = Table(seq_: nat, pending: map<nat, C>, closing: bool, shutdown: bool)

  predicate Open<C>(t: Table<C>) {
    !t.closing && !t.shutdown
  }

  /** client.go:74-84, for an open client. */
  function Register<C>(t: Table<C>, c: C): Table<C> {
    t.(pending := t.pending[t.seq_ := c], seq_ := t.seq_ + 1)
  }

  /** client.go:86-92. */
  function Remove<C>(t: Table<C>, k: nat): Table<C> {
    t.(pending := t.pending - {k})
  }

  /** Where a caller is in send (client.go:106-134). */
  datatype Pc = Waiting | Locked | Refused | Writing | Unsent | Claimed(call: nat) | Returned

  /** `delivered` counts the sends on the call's Done channel; `dropped` says that a cancelled
      context took the call out of the table; `over` that Call has returned. */
  datatype Call = Call(seq_: nat, pc: Pc, delivered: nat, dropped: bool, over: bool)

  /** Where the receive loop is (client.go:136-161); it may hold a call for a reply with this
      number. */
  datatype Receiver = Reading | Holding(call: nat, seq_: nat) | Ended

  datatype State = State(table: Table<nat>, calls: seq<Call>, sending: Option<nat>, receiver: Receiver, terminated: bool)

  datatype Event =
    | Begin // somebody makes a call
    | Lock(i: nat) // send gets the sending lock
    | Enter(i: nat) // registerCall
    | Refuse(i: nat) // the call is handed back with ErrShutdown
    | Written(i: nat) // the request is on its way
    | WriteError(i: nat)
    | TakeBack(i: nat) // removeCall after the error
    | HandBack(i: nat) // the call is handed back with the error
    | Reply(k: nat, more: bool) // a header is read, and the body if nobody waits for it
    | HandOver(more: bool) // the body is read and the call handed to its caller
    | HangUp // reading a header fails
    | Cancel(i: nat) // the context of a call ends
    | Take(i: nat) // Call reads its Done channel
    | Close
    | Terminate // terminateCalls, after the receive loop

  function Init(): State {
    State(Table(1, map[], false, false), [], None, Reading, false)
  }

  predicate Enabled(s: State, e: Event) {
    match e
    case Begin => true
    case Lock(i) => i < |s.calls| && s.calls[i].pc == Waiting && s.sending == None
    case Enter(i) => i < |s.calls| && s.calls[i].pc == Locked
    case Refuse(i) => i < |s.calls| && s.calls[i].pc == Refused
    case Written(i) => i < |s.calls| && s.calls[i].pc == Writing
    case WriteError(i) => i < |s.calls| && s.calls[i].pc == Writing
    case TakeBack(i) => i < |s.calls| && s.calls[i].pc == Unsent
    case HandBack(i) => i < |s.calls| && s.calls[i].pc.Claimed? && s.calls[i].pc.call < |s.calls|
    case Reply(_, _) => s.receiver == Reading
    case HandOver(_) => s.receiver.Holding? && s.receiver.call < |s.calls|
    case HangUp => s.receiver == Reading
    case Cancel(i) => i < |s.calls| && s.calls[i].pc == Returned && !s.calls[i].over
    case Take(i) => i < |s.calls| && s.calls[i].pc == Returned && !s.calls[i].over && s.calls[i].delivered > 0
    case Close => true
    case Terminate => s.receiver == Ended && s.sending == None && !s.terminated
  }

  function At(s: State, i: nat, pc: Pc): State
    requires i < |s.calls|
  {
    s.(calls := s.calls[i := s.calls[i].(pc := pc)])
  }

  /** `call.done()`. */
  function Deliver(s: State, i: nat): State
    requires i < |s.calls|
  {
    s.(calls := s.calls[i := s.calls[i].(delivered := s.calls[i].delivered + 1)])
  }

  /** The entries of a call in the table. */
  function Entries(t: Table<nat>, i: nat): set<nat> {
    set k | k in t.pending && t.pending[k] == i
  }

  function Step(s: State, e: Event): State
    requires Enabled(s, e)
  {
    match e
    case Begin => s.(calls := s.calls + [Call(0, Waiting, 0, false, false)])
    case Lock(i) => At(s, i, Locked).(sending := Some(i))
    case Enter(i) =>
      if Open(s.table) then
        var d := At(s, i, Writing);
        d.(table := Register(s.table, i), calls := d.calls[i := d.calls[i].(seq_ := s.table.seq_)])
      else At(s, i, Refused)
    case Refuse(i) => Deliver(At(s, i, Returned), i).(sending := None)
    case Written(i) => At(s, i, Returned).(sending := None)
    case WriteError(i) => At(s, i, Unsent)
    case TakeBack(i) =>
      var k := s.calls[i].seq_;
      if k in s.table.pending then At(s, i, Claimed(s.table.pending[k])).(table := Remove(s.table, k))
      else At(s, i, Returned).(sending := None)
    case HandBack(i) => Deliver(At(s, i, Returned), s.calls[i].pc.call).(sending := None)
    case Reply(k, more) =>
      if k in s.table.pending then s.(table := Remove(s.table, k), receiver := Holding(s.table.pending[k], k))
      else s.(receiver := if more then Reading else Ended)
    case HandOver(more) => Deliver(s, s.receiver.call).(receiver := if more then Reading else Ended)
    case HangUp => s.(receiver := Ended)
    case Cancel(i) =>
      var c := s.calls[i];
      s.(table := Remove(s.table, c.seq_),
         calls := s.calls[i := c.(over := true, dropped := c.dropped || (c.seq_ in s.table.pending && !s.terminated))])
    case Take(i) => s.(calls := s.calls[i := s.calls[i].(over := true)])
    case Close => s.(table := s.table.(closing := true))
    case Terminate =>
      s.(table := s.table.(shutdown := true), terminated := true,
         calls := seq(|s.calls|, i requires 0 <= i < |s.calls| =>
           s.calls[i].(delivered := s.calls[i].delivered + |Entries(s.table, i)|)))
  }

  ghost predicate Run(ss: seq<State>, es: seq<Event>) {
    && |ss| == |es| + 1 && ss[0] == Init()
    && forall n | 0 <= n < |es| :: Enabled(ss[n], es[n]) && ss[n + 1] == Step(ss[n], es[n])
  }

  // ----- what every step keeps

  predicate InSend(pc: Pc) {
    pc != Waiting && pc != Returned
  }

  /** The call is waiting in the table for somebody to settle it. */
  predicate Pending(s: State, i: nat)
    requires i < |s.calls|
  {
    s.calls[i].seq_ in s.table.pending && !s.terminated
  }

  predicate HeldByReceiver(s: State, i: nat) {
    s.receiver.Holding? && s.receiver.call == i
  }

  function One(b: bool): nat {
    if b then 1 else 0
  }

  /** In how many places a call is: in the table, with its sender, with the receiver, delivered
      (once per delivery), or dropped. */
  function Places(s: State, i: nat): nat
    requires i < |s.calls|
  {
    One(Pending(s, i)) + One(s.calls[i].pc.Claimed?) + One(HeldByReceiver(s, i)) + s.calls[i].delivered + One(s.calls[i].dropped)
  }

  predicate TableInv(s: State) {
    && s.table.seq_ > 0
    && (forall i | 0 <= i < |s.calls| :: s.calls[i].seq_ < s.table.seq_)
    && (forall k | k in s.table.pending ::
          0 < k < s.table.seq_ && s.table.pending[k] < |s.calls| && s.calls[s.table.pending[k]].seq_ == k)
  }

  predicate CallInv(s: State, i: nat)
    requires i < |s.calls|
  {
    var c := s.calls[i];
    && (InSend(c.pc) <==> s.sending == Some(i))
    && (c.pc in {Waiting, Locked, Refused} ==> c.seq_ == 0 && c.delivered == 0)
    && (c.pc in {Writing, Unsent} || c.pc.Claimed? ==> c.seq_ != 0 && !s.terminated)
    && (c.pc.Claimed? ==> c.pc.call == i)
    && (HeldByReceiver(s, i) ==> c.seq_ == s.receiver.seq_ != 0)
    && (c.seq_ != 0 ==> Places(s, i) == 1)
    && (c.seq_ == 0 ==> !c.dropped && c.delivered == One(c.pc == Returned))
  }

  predicate UniqueSeqs(s: State) {
    forall i, j | 0 <= i < j < |s.calls| && s.calls[i].seq_ != 0 :: s.calls[i].seq_ != s.calls[j].seq_
  }

  predicate EndInv(s: State) {
    && (s.receiver.Holding? ==> s.receiver.call < |s.calls|)
    && (s.sending.Some? ==> s.sending.value < |s.calls|)
    && (s.terminated ==> s.table.shutdown && s.receiver == Ended)
  }

  predicate Inv(s: State) {
    && TableInv(s) && UniqueSeqs(s) && EndInv(s)
    && (forall i | 0 <= i < |s.calls| :: CallInv(s, i))
  }

  /** The table names a call under its own number only. */
  lemma {:induction false} EntriesOf(s: State, i: nat)
    requires TableInv(s) && UniqueSeqs(s) && i < |s.calls|
    ensures Entries(s.table, i) == if s.calls[i].seq_ in s.table.pending then {s.calls[i].seq_} else {}
  {
    var k := s.calls[i].seq_;
    if k in s.table.pending {
      var j := s.table.pending[k];
      assert s.calls[j].seq_ == k;
    }
  }

  lemma {:induction false} SendStep(s: State, e: Event, i: nat)
    requires Inv(s) && Enabled(s, e) && (e.Lock? || e.Enter? || e.Refuse? || e.Written? || e.WriteError?) && i < |s.calls|
    ensures CallInv(Step(s, e), i)
  {
    assert CallInv(s, i) && CallInv(s, e.i);
  }

  lemma {:induction false} UnsentStep(s: State, e: Event, i: nat)
    requires Inv(s) && Enabled(s, e) && (e.TakeBack? || e.HandBack?) && i < |s.calls|
    ensures CallInv(Step(s, e), i)
  {
    assert CallInv(s, i) && CallInv(s, e.i);
  }

  lemma {:induction false} CallerStep(s: State, e: Event, i: nat)
    requires Inv(s) && Enabled(s, e) && (e.Cancel? || e.Take?) && i < |s.calls|
    ensures CallInv(Step(s, e), i)
  {
    assert CallInv(s, i) && CallInv(s, e.i);
  }

  lemma {:induction false} ReceiverStep(s: State, e: Event, i: nat)
    requires Inv(s) && Enabled(s, e) && (e.Reply? || e.HandOver? || e.HangUp?) && i < |s.calls|
    ensures CallInv(Step(s, e), i)
  {
    assert CallInv(s, i);
    if e.Reply? && e.k in s.table.pending {
      assert CallInv(s, s.table.pending[e.k]);
    } else if e.HandOver? {
      assert CallInv(s, s.receiver.call);
    }
  }

  lemma {:induction false} OtherStep(s: State, e: Event, i: nat)
    requires Inv(s) && Enabled(s, e) && (e.Begin? || e.Close? || e.Terminate?) && i < |Step(s, e).calls|
    ensures CallInv(Step(s, e), i)
  {
    if i < |s.calls| {
      assert CallInv(s, i);
      EntriesOf(s, i);
    }
  }

  lemma {:induction false} CallStep(s: State, e: Event, i: nat)
    requires Inv(s) && Enabled(s, e) && i < |Step(s, e).calls|
    ensures CallInv(Step(s, e), i)
  {
    hide Inv, CallInv;
    if e.Lock? || e.Enter? || e.Refuse? || e.Written? || e.WriteError? {
      SendStep(s, e, i);
    } else if e.TakeBack? || e.HandBack? {
      UnsentStep(s, e, i);
    } else if e.Cancel? || e.Take? {
      CallerStep(s, e, i);
    } else if e.Reply? || e.HandOver? || e.HangUp? {
      ReceiverStep(s, e, i);
    } else {
      OtherStep(s, e, i);
    }
  }

  lemma {:induction false} StepInv(s: State, e: Event)
    requires Inv(s) && Enabled(s, e)
    ensures Inv(Step(s, e))
  {
    hide CallInv;
    var s' := Step(s, e);
    forall i | 0 <= i < |s'.calls| ensures CallInv(s', i) {
      CallStep(s, e, i);
    }
    RestStep(s, e);
  }

  lemma {:induction false} RestStep(s: State, e: Event)
    requires Inv(s) && Enabled(s, e)
    ensures var s' := Step(s, e); TableInv(s') && UniqueSeqs(s') && EndInv(s')
  {
    if e.Enter? {
      EnterRest(s, e);
    } else if e.Begin? {
      hide CallInv;
    } else {
      KeepsSeqs(s, e);
      OtherRest(s, e);
    }
  }

  lemma {:induction false} EnterRest(s: State, e: Event)
    requires Inv(s) && Enabled(s, e) && e.Enter?
    ensures var s' := Step(s, e); TableInv(s') && UniqueSeqs(s') && EndInv(s')
  {
    assert CallInv(s, e.i);
  }

  /** Only registerCall gives out numbers and fills the table. */
  lemma {:induction false} KeepsSeqs(s: State, e: Event)
    requires Enabled(s, e) && !e.Enter? && !e.Begin?
    ensures var s' := Step(s, e);
      && |s'.calls| == |s.calls| && (forall i | 0 <= i < |s.calls| :: s'.calls[i].seq_ == s.calls[i].seq_)
      && s'.table.seq_ == s.table.seq_
      && (forall k | k in s'.table.pending :: k in s.table.pending && s'.table.pending[k] == s.table.pending[k])
  {
  }

  lemma {:induction false} OtherRest(s: State, e: Event)
    requires Inv(s) && Enabled(s, e) && !e.Enter? && !e.Begin?
    requires |Step(s, e).calls| == |s.calls|
    ensures EndInv(Step(s, e))
  {
    hide CallInv, UniqueSeqs;
  }

  lemma {:induction false} RunPrefix(ss: seq<State>, es: seq<Event>)
    requires Run(ss, es) && es != []
    ensures var n := |es| - 1;
      && Run(ss[..n + 1], es[..n]) && Enabled(ss[n], es[n]) && ss[n + 1] == Step(ss[n], es[n])
  {
    hide Enabled, Step;
    var n := |es| - 1;
    assert forall i | 0 <= i <= n :: ss[..n + 1][i] == ss[i];
    assert forall i | 0 <= i < n :: es[..n][i] == es[i];
  }

  lemma {:induction false} RunInv(ss: seq<State>, es: seq<Event>)
    requires Run(ss, es)
    ensures Inv(ss[|es|])
    decreases |es|
  {
    hide Inv, Enabled, Step;
    if es == [] {
      InitInv();
    } else {
      var n := |es| - 1;
      RunPrefix(ss, es);
      RunInv(ss[..n + 1], es[..n]);
      StepInv(ss[n], es[n]);
    }
  }

  lemma {:induction false} InitInv()
    ensures Inv(Init())
  {
  }

  // ----- the protocol

  /** In every interleaving: a registered call has a number of its own, not zero; it is in
      exactly one place, so that it is delivered at most once; and a call that was refused is
      delivered once. */
  lemma {:induction false} OnePlace(ss: seq<State>, es: seq<Event>, i: nat)
    requires Run(ss, es) && i < |ss[|es|].calls|
    ensures var s := ss[|es|]; var c := s.calls[i];
      && c.delivered <= 1
      && (c.seq_ != 0 ==> Places(s, i) == 1 && forall j | 0 <= j < |s.calls| && j != i :: s.calls[j].seq_ != c.seq_)
      && (c.pc == Returned && c.seq_ == 0 ==> c.delivered == 1)
  {
    RunInv(ss, es);
    assert CallInv(ss[|es|], i);
  }

  /** Who is about to send on a Done channel finds it empty, also one with room for one only. */
  lemma {:induction false} DoneNeverBlocks(ss: seq<State>, es: seq<Event>, e: Event, i: nat)
    requires Run(ss, es) && Enabled(ss[|es|], e) && i < |ss[|es|].calls|
    ensures var s, s' := ss[|es|], Step(ss[|es|], e);
      i < |s'.calls| && (s'.calls[i].delivered > s.calls[i].delivered ==> s.calls[i].delivered == 0)
  {
    hide Inv, Step;
    var s := ss[|es|];
    RunInv(ss, es);
    StepInv(s, e);
    Grows(s, e, i);
    assert s.calls[i].delivered <= 1 && Step(s, e).calls[i].delivered <= 1 by {
      AtMostOnce(s, i);
      AtMostOnce(Step(s, e), i);
    }
  }

  lemma {:induction false} AtMostOnce(s: State, i: nat)
    requires Inv(s) && i < |s.calls|
    ensures s.calls[i].delivered <= 1
  {
    assert CallInv(s, i);
  }

  lemma {:induction false} Grows(s: State, e: Event, i: nat)
    requires Enabled(s, e) && i < |s.calls|
    ensures i < |Step(s, e).calls| && s.calls[i].delivered <= Step(s, e).calls[i].delivered
  {
  }

  /** A reply goes to the call that was registered under its number. */
  lemma {:induction false} ReplyToItsCall(ss: seq<State>, es: seq<Event>)
    requires Run(ss, es) && ss[|es|].receiver.Holding?
    ensures var s := ss[|es|];
      s.receiver.call < |s.calls| && s.calls[s.receiver.call].seq_ == s.receiver.seq_ != 0
  {
    RunInv(ss, es);
    assert CallInv(ss[|es|], ss[|es|].receiver.call);
  }

  /** After terminateCalls every call whose sender is done has been delivered or dropped. */
  lemma {:induction false} TerminateSettles(ss: seq<State>, es: seq<Event>, i: nat)
    requires Run(ss, es) && ss[|es|].terminated
    requires i < |ss[|es|].calls| && ss[|es|].calls[i].pc == Returned
    ensures ss[|es|].calls[i].delivered == 1 || ss[|es|].calls[i].dropped
  {
    RunInv(ss, es);
    assert CallInv(ss[|es|], i);
  }

  /** Without it nobody settles what the receive loop leaves behind.  Once the loop has ended
      and its sender has returned, a call stays undelivered for ever exactly if it is then still
      in the table or was dropped. */
  lemma {:induction false} LeftBehind(ss: seq<State>, es: seq<Event>, n: nat, i: nat)
    requires Run(ss, es) && n <= |es| && Terminate !in es
    requires ss[n].receiver == Ended && i < |ss[n].calls| && ss[n].calls[i].pc == Returned
    ensures i < |ss[|es|].calls| && ss[|es|].receiver == Ended
    ensures ss[|es|].calls[i].pc == Returned && !ss[|es|].terminated
    ensures ss[|es|].calls[i].delivered == 0 ==> ss[|es|].calls[i].seq_ != 0
    ensures ss[|es|].calls[i].delivered == 0 <==> Pending(ss[n], i) || ss[n].calls[i].dropped
    decreases |es|
  {
    hide Inv, Step, Enabled, Pending;
    if n == |es| {
      RunInv(ss, es);
      NeverTerminated(ss, es);
      Unsettled(ss[n], i);
    } else {
      var m := |es| - 1;
      RunPrefix(ss, es);
      var ss', es' := ss[..m + 1], es[..m];
      assert ss'[n] == ss[n] && ss'[m] == ss[m];
      LeftBehind(ss', es', n, i);
      RunInv(ss', es');
      assert es[m] in es;
      StaysBehind(ss[m], es[m], i);
    }
  }

  lemma {:induction false} NeverTerminated(ss: seq<State>, es: seq<Event>)
    requires Run(ss, es) && Terminate !in es
    ensures !ss[|es|].terminated
    decreases |es|
  {
    if es != [] {
      RunPrefix(ss, es);
      assert es[|es| - 1] in es;
      NeverTerminated(ss[..|es|], es[..|es| - 1]);
    }
  }

  lemma {:induction false} Unsettled(s: State, i: nat)
    requires Inv(s) && s.receiver == Ended && i < |s.calls| && s.calls[i].pc == Returned && !s.terminated
    ensures s.calls[i].delivered == 0 <==> Pending(s, i) || s.calls[i].dropped
    ensures s.calls[i].delivered == 0 ==> s.calls[i].seq_ != 0
  {
    assert CallInv(s, i);
  }

  lemma {:induction false} StaysBehind(s: State, e: Event, i: nat)
    requires Inv(s) && Enabled(s, e) && e != Terminate && s.receiver == Ended && !s.terminated
    requires i < |s.calls| && s.calls[i].pc == Returned
    requires s.calls[i].delivered == 0 ==> s.calls[i].seq_ != 0
    ensures var s' := Step(s, e);
      && s'.receiver == Ended && !s'.terminated && i < |s'.calls| && s'.calls[i].pc == Returned
      && s'.calls[i].seq_ == s.calls[i].seq_ && (s'.calls[i].delivered == 0 <==> s.calls[i].delivered == 0)
  {
    if e.HandBack? {
      assert CallInv(s, e.i);
    }
  }

  // ----- a call that is never answered

  lemma {:induction false} RunExtend(ss: seq<State>, es: seq<Event>, e: Event, s: State)
    requires Run(ss, es) && Enabled(ss[|es|], e) && s == Step(ss[|es|], e)
    ensures Run(ss + [s], es + [e])
  {
    hide Enabled, Step;
    var ss', es' := ss + [s], es + [e];
    forall n | 0 <= n < |es'| ensures Enabled(ss'[n], es'[n]) && ss'[n + 1] == Step(ss'[n], es'[n]) {
      if n < |es| { assert ss'[n] == ss[n] && ss'[n + 1] == ss[n + 1] && es'[n] == es[n]; }
    }
  }

  lemma {:induction false} OneCall() returns (s1: State, s2: State, s3: State, s4: State, s5: State)
    ensures Enabled(Init(), Begin) && s1 == Step(Init(), Begin)
    ensures Enabled(s1, Lock(0)) && s2 == Step(s1, Lock(0))
    ensures Enabled(s2, Enter(0)) && s3 == Step(s2, Enter(0))
    ensures Enabled(s3, Written(0)) && s4 == Step(s3, Written(0))
    ensures Enabled(s4, HangUp) && s5 == Step(s4, HangUp)
    ensures s5 == State(Table(2, map[1 := 0], false, false), [Call(1, Returned, 0, false, false)], None, Ended, false)
  {
    var t0: Table<nat>, t1: Table<nat> := Table(1, map[], false, false), Table(2, map[1 := 0], false, false);
    s1 := State(t0, [Call(0, Waiting, 0, false, false)], None, Reading, false);
    s2 := State(t0, [Call(0, Locked, 0, false, false)], Some(0), Reading, false);
    s3 := State(t1, [Call(1, Writing, 0, false, false)], Some(0), Reading, false);
    s4 := State(t1, [Call(1, Returned, 0, false, false)], None, Reading, false);
    s5 := s4.(receiver := Ended);
    assert Step(Init(), Begin) == s1;
    assert Step(s1, Lock(0)) == s2;
    assert Step(s2, Enter(0)) == s3;
    assert Step(s3, Written(0)) == s4;
  }

  /** One call is sent, and then the connection breaks: the call is pending when the receive
      loop ends, and whatever happens later it is not delivered unless terminateCalls runs. */
  lemma {:induction false} HangingRun() returns (ss: seq<State>, es: seq<Event>)
    ensures Run(ss, es) && Terminate !in es && ss[|es|].receiver == Ended
    ensures |ss[|es|].calls| == 1 && ss[|es|].calls[0].pc == Returned && Pending(ss[|es|], 0)
  {
    hide Run, Enabled, Step;
    var s1, s2, s3, s4, s5 := OneCall();
    assert Run([Init()], []) by { InitRun(); }
    RunExtend([Init()], [], Begin, s1);
    RunExtend([Init()] + [s1], [] + [Begin], Lock(0), s2);
    var ss2, es2 := [Init()] + [s1] + [s2], [] + [Begin] + [Lock(0)];
    RunExtend(ss2, es2, Enter(0), s3);
    RunExtend(ss2 + [s3], es2 + [Enter(0)], Written(0), s4);
    var ss4, es4 := ss2 + [s3] + [s4], es2 + [Enter(0)] + [Written(0)];
    RunExtend(ss4, es4, HangUp, s5);
    ss, es := ss4 + [s5], es4 + [HangUp];
    assert ss[|es|] == s5;
  }

  lemma {:induction false} InitRun()
    ensures Run([Init()], [])
  {
  }
}
