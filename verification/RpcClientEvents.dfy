/** GeeRPC/client.go: what becomes of a call, told from the events of a run alone. */
module RpcClientEvents {
  import opened Linearizability
  import opened RpcClient

  // ----- in the table

  /** The call is entered under the next number. */
  predicate Registers(s: State, e: Event, i: nat) {
    e == Enter(i) && Open(s.table)
  }

  /** What takes call `i`, with number `k`, out of the table or settles it there: its sender
      after a write error, a reply, a cancelled context, or terminateCalls. */
  predicate Removes(e: Event, i: nat, k: nat) {
    e == TakeBack(i) || (e.Reply? && e.k == k) || e == Cancel(i) || e == Terminate
  }

  lemma {:induction false} StepRegistered(s: State, e: Event, i: nat, k: nat)
    requires Inv(s) && Enabled(s, e) && i < |s.calls| && s.calls[i].seq_ == k != 0
    ensures var s' := Step(s, e);
      && i < |s'.calls| && s'.calls[i].seq_ == k
      && (Pending(s', i) <==> Pending(s, i) && !Removes(e, i, k))
  {
    hide Inv, Step, Enabled;
    OthersKeep(s, e, i, k);
    OnlyRemoved(s, e, k);
    NumberStays(s, e, i);
  }

  lemma {:induction false} NumberStays(s: State, e: Event, i: nat)
    requires Inv(s) && Enabled(s, e) && i < |s.calls| && s.calls[i].seq_ != 0
    ensures i < |Step(s, e).calls| && Step(s, e).calls[i].seq_ == s.calls[i].seq_
  {
    assert CallInv(s, i);
    if !e.Enter? && !e.Begin? {
      KeepsSeqs(s, e);
    }
  }

  /** What happens to one number in the table. */
  lemma {:induction false} OnlyRemoved(s: State, e: Event, k: nat)
    requires Enabled(s, e)
    ensures e.TakeBack? || e.Cancel? ==> (k in Step(s, e).table.pending <==> k in s.table.pending && k != s.calls[e.i].seq_)
    ensures e.Reply? ==> (k in Step(s, e).table.pending <==> k in s.table.pending && k != e.k)
    ensures e.Enter? && Open(s.table) ==> (k in Step(s, e).table.pending <==> k in s.table.pending || k == s.table.seq_)
    ensures !(e.TakeBack? || e.Cancel? || e.Reply? || (e.Enter? && Open(s.table))) ==>
      (k in Step(s, e).table.pending <==> k in s.table.pending)
    ensures Step(s, e).terminated <==> s.terminated || e == Terminate
  {
  }

  /** No step of another call touches the number. */
  lemma {:induction false} OthersKeep(s: State, e: Event, i: nat, k: nat)
    requires Inv(s) && Enabled(s, e) && i < |s.calls| && s.calls[i].seq_ == k != 0
    ensures (e.TakeBack? || e.Cancel?) && e.i != i ==> s.calls[e.i].seq_ != k
    ensures e.Enter? && Open(s.table) ==> e.i != i && s.table.seq_ != k
  {
    assert CallInv(s, i);
  }

  /** A call is in the table exactly as long as none of that happens. */
  lemma {:induction false} PendingExactly(ss: seq<State>, es: seq<Event>, n: nat, i: nat)
    requires Run(ss, es) && n < |es| && Registers(ss[n], es[n], i)
    ensures i < |ss[|es|].calls| && ss[|es|].calls[i].seq_ == ss[n].table.seq_ != 0
    ensures Pending(ss[|es|], i) <==> forall m | n < m < |es| :: !Removes(es[m], i, ss[n].table.seq_)
    decreases |es|
  {
    hide Inv, Step, Enabled, Pending, Removes;
    var m := |es| - 1;
    var ss', es', k := ss[..m + 1], es[..m], ss[n].table.seq_;
    RunPrefix(ss, es);
    RunInv(ss', es');
    if n == m {
      StepRegisters(ss[n], i);
    } else {
      assert ss'[n] == ss[n] && es'[n] == es[n];
      PendingExactly(ss', es', n, i);
      StepRegistered(ss[m], es[m], i, k);
      assert forall j | n < j < m :: es'[j] == es[j];
    }
  }

  lemma {:induction false} StepRegisters(s: State, i: nat)
    requires Inv(s) && Enabled(s, Enter(i)) && Open(s.table)
    ensures var s' := Step(s, Enter(i));
      i < |s'.calls| && s'.calls[i].seq_ == s.table.seq_ != 0 && Pending(s', i)
  {
    assert CallInv(s, i);
  }

  /** A number is given out once: when it has left the table it does not come back. */
  lemma {:induction false} NumberGone(s: State, e: Event, k: nat)
    requires Enabled(s, e) && k < s.table.seq_ && k !in s.table.pending
    ensures k !in Step(s, e).table.pending && k < Step(s, e).table.seq_
  {
  }

  // ----- on the Done channel

  /** The steps that send a call on its Done channel. */
  predicate Delivers(s: State, e: Event, i: nat)
    requires i < |s.calls|
  {
    || e == Refuse(i) || e == HandBack(i)
    || (e.HandOver? && HeldByReceiver(s, i))
    || (e == Terminate && Pending(s, i))
  }

  lemma {:induction false} StepDelivers(s: State, e: Event, i: nat)
    requires Inv(s) && Enabled(s, e) && i < |s.calls|
    ensures i < |Step(s, e).calls|
    ensures Step(s, e).calls[i].delivered == s.calls[i].delivered + One(Delivers(s, e, i))
  {
    hide UniqueSeqs, TableInv;
    assert CallInv(s, i);
    if e == Terminate {
      TerminateDelivers(s, i);
    } else if e.HandBack? {
      assert CallInv(s, e.i);
    }
  }

  lemma {:induction false} TerminateDelivers(s: State, i: nat)
    requires Inv(s) && Enabled(s, Terminate) && i < |s.calls|
    ensures Step(s, Terminate).calls[i].delivered == s.calls[i].delivered + One(Pending(s, i))
  {
    hide CallInv;
    EntriesOf(s, i);
  }

  ghost predicate DeliveredBy(ss: seq<State>, es: seq<Event>, i: nat)
    requires |ss| == |es| + 1
  {
    exists n | 0 <= n < |es| :: i < |ss[n].calls| && Delivers(ss[n], es[n], i)
  }

  /** A call is delivered exactly if one of these steps has been taken for it. */
  lemma {:induction false} DeliveredExactly(ss: seq<State>, es: seq<Event>, i: nat)
    requires Run(ss, es) && i < |ss[|es|].calls|
    ensures ss[|es|].calls[i].delivered == One(DeliveredBy(ss, es, i))
    decreases |es|
  {
    hide Inv, Step, Enabled, Delivers;
    if es != [] {
      var m := |es| - 1;
      var ss', es' := ss[..m + 1], es[..m];
      RunPrefix(ss, es);
      RunInv(ss', es');
      SplitDelivered(ss, es, i);
      if i < |ss[m].calls| {
        DeliveredExactly(ss', es', i);
        StepDelivers(ss[m], es[m], i);
        RunInv(ss, es);
        AtMostOnce(ss[m + 1], i);
      } else {
        NewCall(ss[m], es[m], i);
        NotYet(ss', es', i);
      }
    }
  }

  lemma {:induction false} SplitDelivered(ss: seq<State>, es: seq<Event>, i: nat)
    requires |ss| == |es| + 1 && es != []
    ensures var m := |es| - 1;
      DeliveredBy(ss, es, i) <==>
        DeliveredBy(ss[..m + 1], es[..m], i) || (i < |ss[m].calls| && Delivers(ss[m], es[m], i))
  {
    hide Delivers;
    var m := |es| - 1;
    var ss', es' := ss[..m + 1], es[..m];
    if n :| 0 <= n < |es'| && i < |ss'[n].calls| && Delivers(ss'[n], es'[n], i) {
      assert i < |ss[n].calls| && Delivers(ss[n], es[n], i);
    }
    if n :| 0 <= n < |es| && i < |ss[n].calls| && Delivers(ss[n], es[n], i) {
      assert n < m ==> i < |ss'[n].calls| && Delivers(ss'[n], es'[n], i);
    }
  }

  lemma {:induction false} NewCall(s: State, e: Event, i: nat)
    requires Enabled(s, e) && |s.calls| <= i < |Step(s, e).calls|
    ensures Step(s, e).calls[i] == Call(0, Waiting, 0, false, false)
  {
  }

  lemma {:induction false} NotYet(ss: seq<State>, es: seq<Event>, i: nat)
    requires Run(ss, es) && i >= |ss[|es|].calls|
    ensures !DeliveredBy(ss, es, i)
    decreases |es|
  {
    if es != [] {
      RunPrefix(ss, es);
      SplitDelivered(ss, es, i);
      NeverFewer(ss[|es| - 1], es[|es| - 1]);
      NotYet(ss[..|es|], es[..|es| - 1], i);
    }
  }

  lemma {:induction false} NeverFewer(s: State, e: Event)
    requires Enabled(s, e)
    ensures |s.calls| <= |Step(s, e).calls|
  {
  }

  // ----- dropped

  ghost predicate DroppedBy(ss: seq<State>, es: seq<Event>, i: nat)
    requires |ss| == |es| + 1
  {
    exists n | 0 <= n < |es| :: es[n] == Cancel(i) && i < |ss[n].calls| && Pending(ss[n], i)
  }

  lemma {:induction false} StepDrops(s: State, e: Event, i: nat)
    requires Enabled(s, e) && i < |s.calls|
    ensures i < |Step(s, e).calls|
    ensures Step(s, e).calls[i].dropped <==> s.calls[i].dropped || (e == Cancel(i) && Pending(s, i))
  {
  }

  lemma {:induction false} SplitDropped(ss: seq<State>, es: seq<Event>, i: nat)
    requires |ss| == |es| + 1 && es != []
    ensures var m := |es| - 1;
      DroppedBy(ss, es, i) <==>
        DroppedBy(ss[..m + 1], es[..m], i) || (es[m] == Cancel(i) && i < |ss[m].calls| && Pending(ss[m], i))
  {
    hide Pending;
    var m := |es| - 1;
    var ss', es' := ss[..m + 1], es[..m];
    if n :| 0 <= n < |es'| && es'[n] == Cancel(i) && i < |ss'[n].calls| && Pending(ss'[n], i) {
      assert es[n] == Cancel(i) && i < |ss[n].calls| && Pending(ss[n], i);
    }
    if n :| 0 <= n < |es| && es[n] == Cancel(i) && i < |ss[n].calls| && Pending(ss[n], i) {
      assert n < m ==> es'[n] == Cancel(i) && i < |ss'[n].calls| && Pending(ss'[n], i);
    }
  }

  /** A call is dropped exactly if its context ended while it was in the table. */
  lemma {:induction false} DroppedExactly(ss: seq<State>, es: seq<Event>, i: nat)
    requires Run(ss, es)
    ensures i < |ss[|es|].calls| && ss[|es|].calls[i].dropped <==> DroppedBy(ss, es, i)
    decreases |es|
  {
    hide Step, Enabled, Pending;
    if es != [] {
      var m := |es| - 1;
      RunPrefix(ss, es);
      SplitDropped(ss, es, i);
      DroppedExactly(ss[..m + 1], es[..m], i);
      if i < |ss[m].calls| {
        StepDrops(ss[m], es[m], i);
      } else if i < |ss[m + 1].calls| {
        NewCall(ss[m], es[m], i);
      }
    }
  }

  // ----- sends come to an end

  function SendRank(pc: Pc): nat {
    match pc
    case Waiting => 5
    case Locked => 4
    case Writing => 3
    case Unsent => 2
    case Refused => 1
    case Claimed(_) => 1
    case Returned => 0
  }

  predicate SendEvent(e: Event) {
    e.Lock? || e.Enter? || e.Written? || e.TakeBack? || e.Refuse? || e.HandBack?
  }

  /** A send that has not returned can go on, or waits for the lock and its holder can go on;
      and going on brings it nearer to its end. */
  lemma {:induction false} SendGoesOn(s: State, i: nat) returns (e: Event, j: nat)
    requires Inv(s) && i < |s.calls| && s.calls[i].pc != Returned
    ensures j < |s.calls| && s.calls[j].pc != Returned && (j == i || s.sending == Some(j))
    ensures Enabled(s, e) && |Step(s, e).calls| == |s.calls| && SendRank(Step(s, e).calls[j].pc) < SendRank(s.calls[j].pc)
    ensures j != i ==> Step(s, e).calls[i] == s.calls[i]
    ensures SendEvent(e) && (Step(s, e).sending == Some(j) || Step(s, e).sending == None)
  {
    j := if s.sending.Some? then s.sending.value else i;
    assert CallInv(s, i) && CallInv(s, j);
    match s.calls[j].pc
    case Waiting => e := Lock(j);
    case Locked => e := Enter(j);
    case Writing => e := Written(j);
    case Unsent => e := TakeBack(j);
    case Refused => e := Refuse(j);
    case Claimed(_) => e := HandBack(j);
  }

  lemma {:induction false} SendKeepsOver(s: State, e: Event, i: nat)
    requires Enabled(s, e) && SendEvent(e) && i < |s.calls|
    ensures i < |Step(s, e).calls| && Step(s, e).calls[i].over == s.calls[i].over
  {
  }

  /** How far the holder of the sending lock is from giving it back, if call `i` waits for it. */
  function HolderRank(s: State, i: nat): nat {
    if s.sending.Some? && s.sending.value != i && s.sending.value < |s.calls|
    then SendRank(s.calls[s.sending.value].pc) else 0
  }

  /** Every run goes on to one in which the send of a call has returned. */
  lemma {:induction false} SendReturns(ss: seq<State>, es: seq<Event>, i: nat) returns (ss': seq<State>, es': seq<Event>)
    requires Run(ss, es) && i < |ss[|es|].calls|
    ensures Run(ss', es') && es <= es' && i < |ss'[|es'|].calls|
    ensures ss'[|es'|].calls[i].pc == Returned && ss'[|es'|].calls[i].over == ss[|es|].calls[i].over
    decreases SendRank(ss[|es|].calls[i].pc), HolderRank(ss[|es|], i)
  {
    hide Inv, Enabled, Step;
    var s := ss[|es|];
    if s.calls[i].pc == Returned {
      ss', es' := ss, es;
    } else {
      RunInv(ss, es);
      var e, j := SendGoesOn(s, i);
      RunExtend(ss, es, e, Step(s, e));
      SendKeepsOver(s, e, i);
      ss', es' := SendReturns(ss + [Step(s, e)], es + [e], i);
    }
  }

  // ----- after a write error

  lemma {:induction false} StepUnsent(s: State, e: Event, i: nat)
    requires Inv(s) && Enabled(s, e) && i < |s.calls|
    ensures var s' := Step(s, e);
      && i < |s'.calls|
      && (e == WriteError(i) ==> s'.calls[i].pc == Unsent)
      && (s.calls[i].pc == Unsent ==> s'.calls[i].pc == Unsent || e == TakeBack(i))
      && (s.calls[i].pc.Claimed? || s.calls[i].pc == Returned ==> s'.calls[i].pc.Claimed? || s'.calls[i].pc == Returned)
      && (e == TakeBack(i) ==> s'.calls[i].pc.Claimed? || s'.calls[i].pc == Returned)
      && (s.calls[i].pc in {Unsent, Returned} || s.calls[i].pc.Claimed? ==> s'.calls[i].seq_ == s.calls[i].seq_)
  {
  }

  lemma {:induction false} UnsentHolds(ss: seq<State>, es: seq<Event>, i: nat)
    requires Run(ss, es) && WriteError(i) in es
    ensures i < |ss[|es|].calls| && ss[|es|].calls[i].seq_ != 0
    ensures var s := ss[|es|];
      s.calls[i].pc == Unsent || ((s.calls[i].pc.Claimed? || s.calls[i].pc == Returned) && !Pending(s, i))
    decreases |es|
  {
    hide Inv, Step, Enabled;
    var m := |es| - 1;
    var ss', es' := ss[..m + 1], es[..m];
    assert es == es' + [es[m]];
    RunPrefix(ss, es);
    RunInv(ss', es');
    if es[m] == WriteError(i) {
      WrittenNow(ss[m], i);
    } else {
      UnsentHolds(ss', es', i);
      StepUnsent(ss[m], es[m], i);
      StepRegistered(ss[m], es[m], i, ss[m].calls[i].seq_);
    }
  }

  lemma {:induction false} WrittenNow(s: State, i: nat)
    requires Inv(s) && Enabled(s, WriteError(i))
    ensures i < |Step(s, WriteError(i)).calls|
    ensures var c := Step(s, WriteError(i)).calls[i]; c.pc == Unsent && c.seq_ != 0
  {
    assert CallInv(s, i);
  }

  /** A call whose request could not be written does not stay in the table: when its send has
      returned it is delivered, or was dropped, or the receiver is about to deliver it. */
  lemma {:induction false} WriteErrorSettled(ss: seq<State>, es: seq<Event>, i: nat)
    requires Run(ss, es) && WriteError(i) in es
    ensures i < |ss[|es|].calls|
    ensures var s := ss[|es|];
      s.calls[i].pc == Returned ==>
        && !Pending(s, i)
        && (s.calls[i].delivered == 1 || s.calls[i].dropped || HeldByReceiver(s, i))
  {
    UnsentHolds(ss, es, i);
    RunInv(ss, es);
    assert CallInv(ss[|es|], i);
  }

  // ----- a reply

  /** The receiver has the call until it hands it over, and then the call is delivered. */
  lemma {:induction false} HeldUntilDelivered(s: State, e: Event, i: nat)
    requires Inv(s) && Enabled(s, e) && i < |s.calls| && HeldByReceiver(s, i)
    ensures i < |Step(s, e).calls|
    ensures if e.HandOver? then Step(s, e).calls[i].delivered == 1 else HeldByReceiver(Step(s, e), i)
  {
    assert CallInv(s, i);
  }

  lemma {:induction false} Replied(s: State, e: Event)
    requires Inv(s) && Enabled(s, e) && e.Reply? && e.k in s.table.pending
    ensures var i, s' := s.table.pending[e.k], Step(s, e);
      && i < |s.calls| && s.calls[i].seq_ == e.k < s.table.seq_ && i < |s'.calls|
      && HeldByReceiver(s', i) && e.k !in s'.table.pending && e.k < s'.table.seq_
  {
  }

  /** A reply to a call that is in the table: the call is taken out, whatever happens next the
      receiver has it until the first hand-over, and from then on it is delivered. */
  lemma {:induction false} ReplyDelivers(ss: seq<State>, es: seq<Event>, n: nat, i: nat)
    requires Run(ss, es) && n < |es| && es[n].Reply?
    requires es[n].k in ss[n].table.pending && ss[n].table.pending[es[n].k] == i
    ensures i < |ss[n].calls| && ss[n].calls[i].seq_ == es[n].k
    ensures es[n].k !in ss[|es|].table.pending && es[n].k < ss[|es|].table.seq_ && i < |ss[|es|].calls|
    ensures if exists m :: n < m < |es| && es[m].HandOver? then ss[|es|].calls[i].delivered == 1
            else HeldByReceiver(ss[|es|], i)
    decreases |es|
  {
    hide Inv, Step, Enabled, HeldByReceiver;
    var m := |es| - 1;
    var ss', es' := ss[..m + 1], es[..m];
    RunPrefix(ss, es);
    RunInv(ss', es');
    if n == m {
      Replied(ss[n], es[n]);
    } else {
      assert ss'[n] == ss[n] && es'[n] == es[n] && ss'[m] == ss[m];
      ReplyDelivers(ss', es', n, i);
      NumberGone(ss[m], es[m], es[n].k);
      assert forall j | n < j < m :: es'[j] == es[j];
      Grows(ss[m], es[m], i);
      if exists j :: n < j < m && es'[j].HandOver? {
        var j :| n < j < m && es'[j].HandOver?;
        assert es[j].HandOver?;
        RunInv(ss, es);
        AtMostOnce(ss[m + 1], i);
      } else {
        HeldUntilDelivered(ss[m], es[m], i);
      }
    }
  }

  // ----- the client as a whole

  /** What the flags of the client say, and how many calls there are. */
  lemma {:induction false} FlagsExactly(ss: seq<State>, es: seq<Event>)
    requires Run(ss, es)
    ensures |ss[|es|].calls| == multiset(es)[Begin]
    ensures ss[|es|].table.closing <==> Close in es
    ensures ss[|es|].table.shutdown <==> Terminate in es
    ensures ss[|es|].terminated <==> Terminate in es
    decreases |es|
  {
    if es != [] {
      hide Step, Enabled;
      var n := |es| - 1;
      RunPrefix(ss, es);
      FlagsExactly(ss[..n + 1], es[..n]);
      assert es == es[..n] + [es[n]];
      StepFlags(ss[n], es[n]);
    }
  }

  lemma {:induction false} StepFlags(s: State, e: Event)
    requires Enabled(s, e)
    ensures var s' := Step(s, e);
      && |s'.calls| == |s.calls| + One(e == Begin)
      && (s'.table.closing <==> s.table.closing || e == Close)
      && (s'.table.shutdown <==> s.table.shutdown || e == Terminate)
      && (s'.terminated <==> s.terminated || e == Terminate)
  {
  }

  /** The client can be closed at any time. */
  lemma {:induction false} CloseAnytime(ss: seq<State>, es: seq<Event>)
    requires Run(ss, es)
    ensures Enabled(ss[|es|], Close) && Run(ss + [Step(ss[|es|], Close)], es + [Close])
  {
    RunExtend(ss, es, Close, Step(ss[|es|], Close));
  }

  /** A call is refused exactly if the client has been closed, or has shut down, before it gets
      to register; otherwise it has an entry in the table. */
  lemma {:induction false} RefusedExactly(ss: seq<State>, es: seq<Event>, i: nat)
    requires Run(ss, es) && es != [] && es[|es| - 1] == Enter(i)
    ensures var s, before := ss[|es|], es[..|es| - 1];
      && i < |s.calls|
      && (s.calls[i].pc == Refused <==> Close in before || Terminate in before)
      && (s.calls[i].pc == Writing <==> !(Close in before || Terminate in before))
      && (s.calls[i].pc == Writing ==> Pending(s, i))
  {
    hide Pending;
    var n := |es| - 1;
    RunPrefix(ss, es);
    FlagsExactly(ss[..n + 1], es[..n]);
    EnterOutcome(ss[n], i);
  }

  lemma {:induction false} EnterOutcome(s: State, i: nat)
    requires Enabled(s, Enter(i)) && (s.terminated ==> s.table.shutdown)
    ensures var s' := Step(s, Enter(i));
      && i < |s'.calls|
      && (s'.calls[i].pc == Refused <==> s.table.closing || s.table.shutdown)
      && (s'.calls[i].pc == Writing <==> !(s.table.closing || s.table.shutdown))
      && (s'.calls[i].pc == Writing ==> Pending(s', i))
  {
  }

  lemma {:induction false} CountLast(es: seq<Event>, e: Event)
    requires es != []
    ensures multiset(es)[e] == multiset(es[..|es| - 1])[e] + One(es[|es| - 1] == e)
  {
    var n := |es| - 1;
    assert es == es[..n] + [es[n]];
  }

  ghost predicate IsOver(s: State, i: nat) {
    i < |s.calls| && s.calls[i].over
  }

  /** Call returns once: with what its Done channel gives it, or because its context ends. */
  lemma {:induction false} OverExactly(ss: seq<State>, es: seq<Event>, i: nat)
    requires Run(ss, es)
    ensures multiset(es)[Take(i)] + multiset(es)[Cancel(i)] == One(IsOver(ss[|es|], i))
    decreases |es|
  {
    if es != [] {
      hide Step, Enabled, IsOver, One;
      var n := |es| - 1;
      RunPrefix(ss, es);
      OverExactly(ss[..n + 1], es[..n], i);
      CountLast(es, Take(i));
      CountLast(es, Cancel(i));
      StepOver(ss[n], es[n], i);
    }
  }

  lemma {:induction false} StepOver(s: State, e: Event, i: nat)
    requires Enabled(s, e)
    ensures One(IsOver(Step(s, e), i)) == One(IsOver(s, i)) + One(e == Take(i)) + One(e == Cancel(i))
  {
  }

  /** A context that ends always gets Call out, whatever the connection does, and only after the
      send has returned. */
  lemma {:induction false} CallReturns(ss: seq<State>, es: seq<Event>, i: nat) returns (ss': seq<State>, es': seq<Event>)
    requires Run(ss, es) && i < |ss[|es|].calls| && !ss[|es|].calls[i].over
    ensures Run(ss', es') && es <= es' && |es'| > 0 && es'[|es'| - 1] == Cancel(i) && IsOver(ss'[|es'|], i)
  {
    hide Inv, Enabled, Step, IsOver;
    var ss1, es1 := SendReturns(ss, es, i);
    var s := ss1[|es1|];
    CancelEnds(s, i);
    RunExtend(ss1, es1, Cancel(i), Step(s, Cancel(i)));
    ss', es' := ss1 + [Step(s, Cancel(i))], es1 + [Cancel(i)];
  }

  lemma {:induction false} CancelEnds(s: State, i: nat)
    requires i < |s.calls| && s.calls[i].pc == Returned && !s.calls[i].over
    ensures Enabled(s, Cancel(i)) && IsOver(Step(s, Cancel(i)), i)
  {
  }

  lemma {:induction false} OverReturned(ss: seq<State>, es: seq<Event>, i: nat)
    requires Run(ss, es) && IsOver(ss[|es|], i)
    ensures ss[|es|].calls[i].pc == Returned
    decreases |es|
  {
    if es != [] {
      hide Step, Enabled, IsOver;
      var n := |es| - 1;
      RunPrefix(ss, es);
      if IsOver(ss[n], i) {
        OverReturned(ss[..n + 1], es[..n], i);
      }
      StepOverReturned(ss[n], es[n], i);
    }
  }

  lemma {:induction false} StepOverReturned(s: State, e: Event, i: nat)
    requires Enabled(s, e) && (IsOver(s, i) ==> s.calls[i].pc == Returned)
    ensures IsOver(Step(s, e), i) ==> Step(s, e).calls[i].pc == Returned
  {
  }

  /** It gets from the channel only a call that has been delivered. */
  lemma {:induction false} TakenWasDelivered(ss: seq<State>, es: seq<Event>, i: nat)
    requires Run(ss, es) && Take(i) in es
    ensures i < |ss[|es|].calls| && ss[|es|].calls[i].delivered == 1
    decreases |es|
  {
    hide Step, Enabled;
    var n := |es| - 1;
    RunPrefix(ss, es);
    RunInv(ss, es);
    if es[n] == Take(i) {
      TakeFrom(ss[n], i);
    } else {
      assert Take(i) in es[..n];
      TakenWasDelivered(ss[..n + 1], es[..n], i);
      StaysDelivered(ss[n], es[n], i);
    }
    AtMostOnce(ss[|es|], i);
  }

  lemma {:induction false} TakeFrom(s: State, i: nat)
    requires Enabled(s, Take(i))
    ensures i < |Step(s, Take(i)).calls| && Step(s, Take(i)).calls[i].delivered > 0
  {
  }

  lemma {:induction false} StaysDelivered(s: State, e: Event, i: nat)
    requires Enabled(s, e) && i < |s.calls|
    ensures i < |Step(s, e).calls| && Step(s, e).calls[i].delivered >= s.calls[i].delivered
  {
  }

  /** The receive loop stops here: no header can be read, or a body cannot. */
  predicate StopsReading(s: State, e: Event) {
    e == HangUp || (e.Reply? && e.k !in s.table.pending && !e.more) || (e.HandOver? && !e.more)
  }

  /** It reads on until then, replies to unknown calls included. */
  lemma {:induction false} ReceiverExactly(ss: seq<State>, es: seq<Event>)
    requires Run(ss, es)
    ensures ss[|es|].receiver == Ended <==> exists n | 0 <= n < |es| :: StopsReading(ss[n], es[n])
    decreases |es|
  {
    if es != [] {
      hide Step, Enabled, StopsReading;
      var m := |es| - 1;
      RunPrefix(ss, es);
      ReceiverExactly(ss[..m + 1], es[..m]);
      StepReceiver(ss[m], es[m]);
      if n :| 0 <= n < m && StopsReading(ss[..m + 1][n], es[..m][n]) {
        assert StopsReading(ss[n], es[n]);
      }
      if n :| 0 <= n < |es| && StopsReading(ss[n], es[n]) {
        assert n < m ==> StopsReading(ss[..m + 1][n], es[..m][n]);
      }
    }
  }

  lemma {:induction false} StepReceiver(s: State, e: Event)
    requires Enabled(s, e)
    ensures Step(s, e).receiver == Ended <==> s.receiver == Ended || StopsReading(s, e)
  {
  }
}
