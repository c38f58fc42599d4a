/**
  The progress channel between an operation and the screen: a buffer of one event, a producer that
  drops the older event when it is full, and a consumer that reads until the channel is closed.
  Every channel operation is one step; runs interleave the two sides in any way.
 */
module Progress {

  /** Where the sink is: between calls, about to drain, about to send again, or done. */
  datatype Producer<E> = Idle | Draining(event: E) | Resending(event: E) | Finished

  datatype System<E> = System(
    pending: seq<E>,    // events still to be emitted
    sent: seq<E>,       // events whose sink call has returned
    producer: Producer<E>,
    buffer: seq<E>,
    closed: bool,
    delivered: seq<E>,
    sawClose: bool,
    lost: bool)         // a second send found no room

  function Start<E>(events: seq<E>): System<E> {
    System(events, [], Idle, [], false, [], false, false)
  }

  /** The producer's next channel operation. It is always able to take it until it has finished. */
  function Produce<E>(s: System<E>): System<E> {
    match s.producer
    case Idle =>
      if s.pending == [] then s.(closed := true, producer := Finished)
      else if s.buffer == [] then
        s.(pending := s.pending[1..], buffer := [s.pending[0]], sent := s.sent + [s.pending[0]])
      else s.(pending := s.pending[1..], producer := Draining(s.pending[0]))
    case Draining(e) => s.(buffer := [], producer := Resending(e))
    case Resending(e) =>
      if s.buffer == [] then s.(buffer := [e], sent := s.sent + [e], producer := Idle)
      else s.(lost := true, sent := s.sent + [e], producer := Idle)
    case Finished => s
  }

  /** A receive on an open, empty channel waits; on a closed, empty one it reports the close. */
  function Consume<E>(s: System<E>): System<E> {
    if s.buffer != [] then s.(delivered := s.delivered + s.buffer, buffer := [])
    else if s.closed then s.(sawClose := true)
    else s
  }

  ghost predicate IsRun<E(!new)>(events: seq<E>, run: seq<System<E>>) {
    && run != [] && run[0] == Start(events)
    && forall i :: 0 <= i < |run| - 1 ==> run[i + 1] == Produce(run[i]) || run[i + 1] == Consume(run[i])
  }

  /** `a` is `b` with some elements left out, in order. */
  ghost predicate Subsequence<E>(a: seq<E>, b: seq<E>) {
    exists at: seq<nat> :: Embeds(a, b, at)
  }

  ghost predicate Embeds<E>(a: seq<E>, b: seq<E>, at: seq<nat>) {
    && |at| == |a|
    && (forall i :: 0 <= i < |at| ==> at[i] < |b| && b[at[i]] == a[i])
    && (forall i, j :: 0 <= i < j < |at| ==> at[i] < at[j])
  }

  lemma SubsequenceBoth<E>(a: seq<E>, b: seq<E>, e: E)
    requires Subsequence(a, b)
    ensures Subsequence(a + [e], b + [e])
  {
    var at: seq<nat> :| Embeds(a, b, at);
    var longer: seq<nat> := at + [|b|];
    assert Embeds(a + [e], b + [e], longer);
  }

  lemma SubsequencePart<E>(a: seq<E>, c: seq<E>, b: seq<E>)
    requires Subsequence(a + c, b)
    ensures Subsequence(a, b)
  {
    var at: seq<nat> :| Embeds(a + c, b, at);
    var part: seq<nat> := at[..|a|];
    forall i | 0 <= i < |part| ensures part[i] < |b| && b[part[i]] == a[i] {
      assert b[at[i]] == (a + c)[i];
    }
    assert Embeds(a, b, part);
  }

  /** The event a sink call is working on. */
  function InHand<E>(s: System<E>): seq<E> {
    if s.producer.Draining? || s.producer.Resending? then [s.producer.event] else []
  }

  ghost predicate Invariant<E>(events: seq<E>, s: System<E>) {
    && s.sent + InHand(s) + s.pending == events
    && |s.buffer| <= 1
    && !s.lost
    && (s.producer.Resending? ==> s.buffer == [])
    && (s.closed <==> s.producer.Finished?) && (s.closed ==> s.pending == [])
    && (s.sawClose ==> s.closed && s.buffer == [])
    && Subsequence(s.delivered + s.buffer, s.sent)
    && (s.buffer != [] ==> s.sent != [] && s.buffer[0] == s.sent[|s.sent| - 1])
    && (s.sent != [] && !s.producer.Resending? && s.buffer == [] ==>
          s.delivered != [] && s.delivered[|s.delivered| - 1] == s.sent[|s.sent| - 1])
  }

  lemma StartInvariant<E>(events: seq<E>)
    ensures Invariant(events, Start(events))
  {
    assert Embeds<E>([], [], []);
    assert [] + [] + events == events;
  }

  lemma ProduceInvariant<E>(events: seq<E>, s: System<E>)
    requires Invariant(events, s)
    ensures Invariant(events, Produce(s))
  {
    hide Subsequence;
    var t := Produce(s);
    if s.producer.Idle? && s.pending != [] && s.buffer == [] {
      assert s.delivered + [] == s.delivered;
      SubsequenceBoth(s.delivered, s.sent, s.pending[0]);
      assert t.sent + [] + t.pending == s.sent + [] + s.pending;
    } else if s.producer.Idle? && s.pending != [] {
      assert t.sent + InHand(t) + t.pending == s.sent + [] + s.pending;
    } else if s.producer.Draining? {
      SubsequencePart(s.delivered, s.buffer, s.sent);
      assert s.delivered + [] == s.delivered;
    } else if s.producer.Resending? {
      assert s.delivered + [] == s.delivered;
      SubsequenceBoth(s.delivered, s.sent, s.producer.event);
      assert t.sent + [] + t.pending == s.sent + InHand(s) + s.pending;
    }
  }

  lemma ConsumeInvariant<E>(events: seq<E>, s: System<E>)
    requires Invariant(events, s)
    ensures Invariant(events, Consume(s))
  {
    hide Subsequence;
    assert s.delivered + s.buffer + [] == s.delivered + s.buffer;
  }

  lemma {:induction false} RunInvariant<E(!new)>(events: seq<E>, run: seq<System<E>>, i: nat)
    requires IsRun(events, run) && i < |run|
    ensures Invariant(events, run[i])
  {
    hide Invariant;
    if i == 0 {
      StartInvariant(events);
    } else {
      RunInvariant(events, run, i - 1);
      assert run[i - 1 + 1] == Produce(run[i - 1]) || run[i - 1 + 1] == Consume(run[i - 1]);
      ProduceInvariant(events, run[i - 1]);
      ConsumeInvariant(events, run[i - 1]);
    }
  }

  /**
    In every interleaving the second send finds room, what is delivered is an in-order selection of
    what was emitted, an event taken from the buffer is the newest whose sink call has returned, and
    a consumer that has read to the close has received the last event emitted.
   */
  lemma CoalescingKeepsTheLast<E(!new)>(events: seq<E>, run: seq<System<E>>, i: nat)
    requires IsRun(events, run) && i < |run|
    ensures var s := run[i];
            && !s.lost && |s.buffer| <= 1
            && Subsequence(s.delivered, events)
            && (s.buffer != [] ==> s.sent != [] && s.buffer[0] == s.sent[|s.sent| - 1])
            && (s.sawClose && events != [] ==>
                s.delivered != [] && s.delivered[|s.delivered| - 1] == events[|events| - 1])
  {
    RunInvariant(events, run, i);
    var s := run[i];
    SubsequencePart(s.delivered, s.buffer, s.sent);
    SubsequenceGrows(s.delivered, s.sent, InHand(s) + s.pending);
    assert s.sent + (InHand(s) + s.pending) == events;
  }

  lemma SubsequenceGrows<E>(a: seq<E>, b: seq<E>, c: seq<E>)
    requires Subsequence(a, b)
    ensures Subsequence(a, b + c)
  {
    var at: seq<nat> :| Embeds(a, b, at);
    assert Embeds(a, b + c, at);
  }

  /** The producer reaches its end in at most three steps of its own per event, whatever the consumer does. */
  function StepsLeft<E>(s: System<E>): nat {
    match s.producer
    case Idle => 3 * |s.pending| + 1
    case Draining(_) => 3 * |s.pending| + 3
    case Resending(_) => 3 * |s.pending| + 2
    case Finished => 0
  }

  lemma ProducerNeverWaits<E>(s: System<E>)
    ensures !s.producer.Finished? ==> StepsLeft(Produce(s)) < StepsLeft(s)
    ensures StepsLeft(Consume(s)) == StepsLeft(s)
  {
  }
}
