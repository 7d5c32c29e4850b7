/** gee/context.go: how a chain of handlers is dispatched.  A handler runs its own code and, as
    it goes, calls Next and Fail any number of times; its script is the list of those calls. */
module Context {
  datatype Action = CallNext | CallFail

  type Script = seq<Action>

  datatype Event = Start(handler: nat) | Failed

  predicate FailsFirst(s: Script) {
    s != [] && s[0] == CallFail
  }

  /** How many handlers start: up to the first that fails before it calls Next. */
  function Started(handlers: seq<Script>): (n: nat)
    ensures n <= |handlers|
  {
    if handlers == [] then 0
    else if FailsFirst(handlers[0]) then 1
    else 1 + Started(handlers[1..])
  }

  /** A handler starts exactly when no handler before it fails first. */
  lemma {:induction false} StartsIff(handlers: seq<Script>, i: nat)
    requires i < |handlers|
    ensures i < Started(handlers) <==> forall j | 0 <= j < i :: !FailsFirst(handlers[j])
  {
    if i > 0 {
      StartsIff(handlers[1..], i - 1);
      assert forall j | 0 <= j < i - 1 :: handlers[1..][j] == handlers[j + 1];
      if forall j | 0 <= j < i - 1 :: !FailsFirst(handlers[1..][j]) {
        forall j | 0 < j < i ensures !FailsFirst(handlers[j]) {
          assert handlers[1..][j - 1] == handlers[j];
        }
      }
    }
  }

  /** Without Fail every handler starts. */
  lemma {:induction false} AllStart(handlers: seq<Script>)
    requires forall i | 0 <= i < |handlers| :: CallFail !in handlers[i]
    ensures Started(handlers) == |handlers|
  {
    if handlers != [] {
      AllStart(handlers[1..]);
    }
  }

  function StartCount(log: seq<Event>): nat {
    if log == [] then 0
    else StartCount(log[..|log| - 1]) + if log[|log| - 1].Start? then 1 else 0
  }

  /** Handlers start as 0, 1, 2, ..., and none starts after a Fail. */
  ghost predicate InOrder(log: seq<Event>) {
    && (forall k | 0 <= k < |log| && log[k].Start? :: log[k].handler == StartCount(log[..k]))
    && (forall j, k | 0 <= j < k < |log| && log[j].Failed? :: !log[k].Start?)
  }

  lemma {:induction false} LogAppend(log: seq<Event>, e: Event)
    requires InOrder(log) && (e.Start? ==> e.handler == StartCount(log) && Failed !in log)
    ensures InOrder(log + [e]) && StartCount(log + [e]) == StartCount(log) + if e.Start? then 1 else 0
  {
    var log' := log + [e];
    assert log'[..|log|] == log;
    assert forall k | 0 <= k < |log| :: log'[..k] == log[..k] && log'[k] == log[k];
  }

  class Context {
    const handlers: seq<Script>
    var index: int
    ghost var log: seq<Event>

    /** Either the chain is over, or the handler at `index` is the last that has started. */
    ghost predicate Valid()
      reads this
    {
      && InOrder(log) && index >= -1
      && (index < |handlers| ==> index == StartCount(log) - 1 && Failed !in log)
    }

    constructor (handlers: seq<Script>)
      ensures Valid() && this.handlers == handlers && index == -1 && log == []
    {
      this.handlers, index, log := handlers, -1, [];
    }

    /** How many will have started when the handlers from `i` on are done. */
    ghost function Total(i: nat): nat
      requires i <= |handlers|
    {
      i + Started(handlers[i..])
    }

    lemma {:induction false} TotalStep(i: nat)
      requires i < |handlers| && handlers[i] == []
      ensures Total(i) == Total(i + 1)
    {
      assert handlers[i..][1..] == handlers[i + 1..];
    }

    lemma {:induction false} TotalEnd()
      ensures Total(|handlers|) == |handlers|
    {
    }

    /** context.go:38-39. */
    method Fail()
      requires Valid()
      modifies this
      ensures Valid() && index == |handlers| && log == old(log) + [Failed] && StartCount(log) == old(StartCount(log))
    {
      LogAppend(log, Failed);
      index := |handlers|;
      log := log + [Failed];
    }

    /** context.go:98-103. */
    method Next()
      requires Valid()
      modifies this
      ensures Valid() && index >= |handlers| && old(log) <= log
      ensures StartCount(log) == if old(index) >= |handlers| then old(StartCount(log)) else Total(old(index) + 1)
      decreases if index < |handlers| then |handlers| - index else 0, 0
    {
      hide InOrder, StartCount, Started;
      index := index + 1;
      assert Total(|handlers|) == |handlers| by { TotalEnd(); }
      while index < |handlers|
        invariant InOrder(log) && index > old(index) && old(log) <= log
        invariant index < |handlers| ==> index == StartCount(log) && Failed !in log
        invariant old(index) >= |handlers| ==> StartCount(log) == old(StartCount(log))
        invariant old(index) < |handlers| ==>
          (if index < |handlers| then Total(index) else StartCount(log)) == Total(old(index) + 1)
      {
        if handlers[index] == [] {
          TotalStep(index);
        }
        Run(index);
        index := index + 1;
      }
    }

    /** One handler, from its start to its return. */
    method Run(i: nat)
      requires index == i < |handlers| && InOrder(log) && i == StartCount(log) && Failed !in log
      modifies this
      ensures Valid() && old(log) + [Start(i)] <= log
      ensures handlers[i] == [] ==> index == i && StartCount(log) == i + 1
      ensures handlers[i] != [] ==> index >= |handlers| && StartCount(log) == Total(i)
      decreases |handlers| - i, 1
    {
      LogAppend(log, Start(i));
      log := log + [Start(i)];
      var script := handlers[i];
      assert handlers[i..][1..] == handlers[i + 1..];
      for k := 0 to |script|
        invariant Valid() && old(log) + [Start(i)] <= log
        invariant if k == 0 then index == i && StartCount(log) == i + 1
                  else index >= |handlers| && StartCount(log) == Total(i)
      {
        match script[k]
        case CallNext => Next();
        case CallFail => Fail();
      }
    }
  }

  /** router.go:94: dispatch from the start ends; the handlers that start are the first ones, in
      order and once each, and how many is known from the scripts. */
  method Dispatch(handlers: seq<Script>) returns (c: Context)
    ensures InOrder(c.log) && StartCount(c.log) == Started(handlers)
  {
    c := new Context(handlers);
    c.Next();
    assert handlers[0..] == handlers;
  }
}
