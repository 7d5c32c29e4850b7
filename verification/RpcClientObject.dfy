/** GeeRPC/client.go: the client object and the methods that touch its table under the lock.
    They make the table steps of RpcClient.dfy. */
module RpcClientObject {
  import opened Linearizability
  import RpcClient

  class Call {
    var seq_: nat
    var error: Option<string>
    /** How often the call has been sent on its Done channel. */
    ghost var delivered: nat

    constructor ()
      ensures seq_ == 0 && error == None && delivered == 0
    {
      seq_, error, delivered := 0, None, 0;
    }

    /** client.go:27-29. */
    method Done()
      modifies `delivered
      ensures delivered == old(delivered) + 1
    {
      delivered := delivered + 1;
    }
  }

  class Client {
    var seq_: nat
    var pending: map<nat, Call>
    var closing: bool
    var shutdown: bool

    ghost predicate Valid()
      reads this, pending.Values
    {
      seq_ > 0 && forall k | k in pending :: pending[k] in pending.Values && 0 < k < seq_ && pending[k].seq_ == k
    }

    ghost function Table(): RpcClient.Table<Call>
      reads this
    {
      RpcClient.Table(seq_, pending, closing, shutdown)
    }

    /** client.go:212-221. */
    constructor ()
      ensures Valid() && Table() == RpcClient.Table(1, map[], false, false)
    {
      seq_, pending, closing, shutdown := 1, map[], false, false;
    }

    /** client.go:74-84; zero is the number of a call that is not registered. */
    method RegisterCall(call: Call) returns (number: nat, ok: bool)
      requires Valid() && call.seq_ == 0
      modifies this, call`seq_
      ensures Valid() && ok == old(RpcClient.Open(Table()))
      ensures ok ==> Table() == RpcClient.Register(old(Table()), call) && call.seq_ == number == old(seq_)
      ensures !ok ==> Table() == old(Table()) && call.seq_ == number == 0
    {
      if closing || shutdown {
        return 0, false;
      }
      assert forall k | k in pending :: pending[k] != call;
      call.seq_ := seq_;
      pending := pending[call.seq_ := call];
      seq_ := seq_ + 1;
      return call.seq_, true;
    }

    /** client.go:86-92. */
    method RemoveCall(number: nat) returns (call: Call?)
      requires Valid()
      modifies `pending
      ensures Valid() && Table() == RpcClient.Remove(old(Table()), number)
      ensures call == if number in old(pending) then old(pending)[number] else null
      ensures call != null ==> call.seq_ == number
    {
      call := if number in pending then pending[number] else null;
      pending := pending - {number};
    }

    /** client.go:94-104: every call in the table is failed and delivered, once. */
    method TerminateCalls(err: string)
      requires Valid()
      modifies `shutdown, pending.Values`error, pending.Values`delivered
      ensures Valid() && Table() == old(Table()).(shutdown := true)
      ensures forall c | c in pending.Values :: c.error == Some(err) && c.delivered == old(c.delivered) + 1
    {
      shutdown := true;
      var rest := pending.Keys;
      while rest != {}
        invariant rest <= pending.Keys && shutdown
        invariant forall k | k in pending && k in rest :: pending[k].delivered == old(pending[k].delivered)
        invariant forall k | k in pending && k !in rest ::
          pending[k].error == Some(err) && pending[k].delivered == old(pending[k].delivered) + 1
      {
        var k :| k in rest;
        assert forall j | j in pending && j != k :: pending[j] != pending[k];
        pending[k].error := Some(err);
        pending[k].Done();
        rest := rest - {k};
      }
    }

    /** client.go:143-159: what the receive loop does with one header. */
    method HandleReply(number: nat, error: string, bodyError: Option<string>) returns (goOn: bool, call: Call?)
      requires Valid()
      modifies `pending, pending.Values`error, pending.Values`delivered
      ensures Valid() && Table() == RpcClient.Remove(old(Table()), number) && goOn == bodyError.None?
      ensures call == if number in old(pending) then old(pending)[number] else null
      ensures call != null ==> call.delivered == old(call.delivered) + 1
      ensures call != null && error != "" ==> call.error == Some(error)
      ensures call != null && error == "" ==>
        call.error == if bodyError.Some? then Some("reading body " + bodyError.value) else old(call.error)
      ensures forall c | c in old(pending.Values) && c != call :: c.delivered == old(c.delivered) && c.error == old(c.error)
    {
      call := RemoveCall(number);
      goOn := bodyError.None?;
      if call == null {
        return;
      }
      if error != "" {
        call.error := Some(error);
      } else if bodyError.Some? {
        call.error := Some("reading body " + bodyError.value);
      }
      call.Done();
    }
  }
}
