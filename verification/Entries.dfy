/** The entry list of porcupine/checker.go: the calls and returns of a history in time order. */
module Entries {
  import opened Linearizability
  import opened Search

  datatype Kind = CallEntry | ReturnEntry

  datatype Entry<V> = Entry(kind: Kind, value: V, id: nat, time: int)

  /** `h` is the history that the entry list stands for, with positions in the list as times:
      the operations are 0, 1, ..., n-1, and each has one call and, after it, one return. */
  ghost predicate Describes<V>(h: History<V>, es: seq<Entry<V>>) {
    && |es| == 2 * |h|
    && (forall i | 0 <= i < |es| ::
          es[i].id < |h| && i == if es[i].kind == CallEntry then h[es[i].id].call else h[es[i].id].ret)
    && (forall x | 0 <= x < |h| :: 0 <= h[x].call < h[x].ret < |es|)
    && (forall x {:trigger es[h[x].call]} | 0 <= x < |h| ::
          var e := es[h[x].call]; e.kind == CallEntry && e.id == x && e.value == h[x].input)
    && (forall x {:trigger es[h[x].ret]} | 0 <= x < |h| ::
          var e := es[h[x].ret]; e.kind == ReturnEntry && e.id == x && e.value == h[x].output)
  }

  ghost predicate WellFormed<V(!new)>(es: seq<Entry<V>>) {
    exists h :: Describes(h, es)
  }

  ghost function HistoryOf<V(!new)>(es: seq<Entry<V>>): (h: History<V>)
    requires WellFormed(es)
    ensures Describes(h, es)
  {
    var h :| Describes(h, es);
    h
  }

  lemma {:induction false} HistoryUnique<V(!new)>(h: History<V>, es: seq<Entry<V>>)
    requires Describes(h, es)
    ensures WellFormed(es) && HistoryOf(es) == h
  {
    var k := HistoryOf(es);
    forall x | 0 <= x < |h| ensures h[x] == k[x] {
      var e, f := es[h[x].call], es[h[x].ret];
    }
  }

  lemma {:induction false} HistoryWellTimed<V>(h: History<V>, es: seq<Entry<V>>)
    requires Describes(h, es)
    ensures WellTimed(h)
  {
    forall x, y | 0 <= x < |h| && 0 <= y < |h|
      ensures h[x].call != h[y].ret
      ensures x != y ==> h[x].call != h[y].call && h[x].ret != h[y].ret
    {
      var c, r := es[h[x].call], es[h[x].ret];
      var c', r' := es[h[y].call], es[h[y].ret];
    }
  }

  /** The node indices still in the list once `done` has been linearized; index 0 is the head
      entry, index `i + 1` holds entry `i`. */
  ghost function Live<V>(es: seq<Entry<V>>, done: set<nat>): set<nat> {
    set i: nat | i <= |es| && Unfinished(es, done, i)
  }

  ghost predicate Unfinished<V>(es: seq<Entry<V>>, done: set<nat>, i: nat)
    requires i <= |es|
  {
    i == 0 || es[i - 1].id !in done
  }

  lemma {:induction false} LiveOps<V>(h: History<V>, es: seq<Entry<V>>, done: set<nat>, x: nat)
    requires Describes(h, es) && x < |h|
    ensures h[x].call + 1 in Live(es, done) <==> x !in done
    ensures h[x].ret + 1 in Live(es, done) <==> x !in done
  {
    var c, r := es[h[x].call], es[h[x].ret];
  }

  /** Linearizing one more operation removes exactly its two entries. */
  lemma {:induction false} LiveWithout<V>(h: History<V>, es: seq<Entry<V>>, done: set<nat>, x: nat)
    requires Describes(h, es) && x < |h| && x !in done
    ensures Live(es, done + {x}) == Live(es, done) - {h[x].call as nat + 1} - {h[x].ret as nat + 1}
  {
    var c, r := es[h[x].call], es[h[x].ret];
  }

  /** Nothing live between two node indices: no unfinished call or return in between. */
  lemma {:induction false} LiveGap<V>(h: History<V>, es: seq<Entry<V>>, done: set<nat>, i: nat, j: nat)
    requires Describes(h, es)
    requires forall k: nat | i < k < j :: k !in Live(es, done)
    ensures Gap(h, done, i, j - 1)
  {
    forall y: nat | y < |h| && y !in done
      ensures !(i <= h[y].call < j - 1) && !(i <= h[y].ret < j - 1)
    {
      LiveOps(h, es, done, y);
    }
  }

  /** What the cursor points at: the call or the return of an unfinished operation. */
  lemma {:induction false} CursorOp<V>(h: History<V>, es: seq<Entry<V>>, done: set<nat>, i: nat)
    requires Describes(h, es) && i in Live(es, done) && i > 0
    ensures var x := es[i - 1].id;
      && x < |h| && x !in done
      && (es[i - 1].kind == CallEntry ==> h[x].call == i - 1 && h[x].input == es[i - 1].value)
      && (es[i - 1].kind == ReturnEntry ==> h[x].ret == i - 1 && h[x].output == es[i - 1].value)
  {
    var x := es[i - 1].id;
    var c, r := es[h[x].call], es[h[x].ret];
  }
}
