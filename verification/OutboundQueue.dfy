/** The persistent outbound queue: a queue in memory, a storage keyed by message id,
    and a bounded number of publish attempts per message. */
module OutboundQueue {
  import opened Permutations

  datatype Message = Message(id: string, topic: string, payload: string, retry: int) {
    function Again(): Message { this.(retry := retry + 1) }

    function Before(): Message { this.(retry := retry - 1) }
  }

  /** What LoadAll may return even when it fails: some stored messages, none twice. */
  ghost predicate IsPartLoad(loaded: seq<Message>, storage: map<string, Message>) {
    && (forall i :: 0 <= i < |loaded| ==> loaded[i].id in storage && storage[loaded[i].id] == loaded[i])
    && (forall i, j :: 0 <= i < j < |loaded| ==> loaded[i].id != loaded[j].id)
  }

  /** What a LoadAll that succeeds returns: every stored message once, in any order. */
  ghost predicate IsLoad(loaded: seq<Message>, storage: map<string, Message>) {
    && IsPartLoad(loaded, storage)
    && (forall id <- storage :: exists i :: 0 <= i < |loaded| && loaded[i].id == id)
  }

  /** Where one pass of Process leaves the messages it took from the queue. */
  datatype Pass = Pass(remain: seq<Message>, storage: map<string, Message>,
                       delivered: seq<Message>, dropped: seq<Message>)

  /** One turn of the loop: msg was published or not, and if it was, deleted or not. */
  function Handle(pass: Pass, msg: Message, published: bool, deleted: bool, maxRetry: int): Pass {
    if published then
      Pass(pass.remain, if deleted then pass.storage - {msg.id} else pass.storage,
           pass.delivered + [msg], pass.dropped)
    else if msg.retry + 1 < maxRetry then
      Pass(pass.remain + [msg.Again()], pass.storage, pass.delivered, pass.dropped)
    else
      Pass(pass.remain, pass.storage, pass.delivered, pass.dropped + [msg.Again()])
  }

  /** The pass after its first n messages. published(i) and deleted(i) say whether the
      publish and the Delete of message i succeed. */
  function PassOver(msgs: seq<Message>, storage: map<string, Message>, published: nat -> bool, deleted: nat -> bool,
                    maxRetry: int, n: nat): Pass
    requires n <= |msgs|
  {
    if n == 0 then Pass([], storage, [], [])
    else Handle(PassOver(msgs, storage, published, deleted, maxRetry, n - 1),
                msgs[n - 1], published(n - 1), deleted(n - 1), maxRetry)
  }

  class OutboundQueue {
    var queue: seq<Message>
    var storage: map<string, Message>

    /** NewOutboundQueue: takes whatever LoadAll returned; its error is ignored. */
    constructor (loaded: seq<Message>, storage: map<string, Message>)
      ensures this.queue == loaded && this.storage == storage
    {
      this.queue := loaded;
      this.storage := storage;
    }

    /** saved says whether the storage's Save succeeds; its error is ignored. */
    method Enqueue(msg: Message, saved: bool)
      modifies this
      ensures queue == old(queue) + [msg]
      ensures storage == if saved then old(storage)[msg.id := msg] else old(storage)
    {
      queue := queue + [msg];
      if saved {
        storage := storage[msg.id := msg];
      }
    }

    method Process(published: nat -> bool, deleted: nat -> bool, maxRetry: int)
      modifies this
      ensures var pass := PassOver(old(queue), old(storage), published, deleted, maxRetry, |old(queue)|);
        queue == pass.remain && storage == pass.storage
    {
      var remain: seq<Message> := [];
      for i := 0 to |queue|
        invariant queue == old(queue)
        invariant var pass := PassOver(queue, old(storage), published, deleted, maxRetry, i);
          remain == pass.remain && storage == pass.storage
      {
        var msg := queue[i];
        if !published(i) {
          msg := msg.Again();
          if msg.retry < maxRetry {
            remain := remain + [msg];
          }
        } else if deleted(i) {
          storage := storage - {msg.id};
        }
      }
      queue := remain;
    }
  }

  // ---- One pass ---------------------------------------------------------

  function Earlier(msgs: seq<Message>): seq<Message> {
    Apply((m: Message) => m.Before(), msgs)
  }

  /** a is b with some elements left out. */
  ghost predicate IsSubsequence<T>(a: seq<T>, b: seq<T>)
    decreases |b|
  {
    a == [] ||
    (b != [] &&
     ((a[|a| - 1] == b[|b| - 1] && IsSubsequence(a[..|a| - 1], b[..|b| - 1])) ||
      IsSubsequence(a, b[..|b| - 1])))
  }

  lemma EarlierAppend(msgs: seq<Message>, m: Message)
    ensures Earlier(msgs + [m.Again()]) == Earlier(msgs) + [m]
  {
    ApplyAppend((m: Message) => m.Before(), msgs, [m.Again()]);
    assert m.Again().Before() == m;
  }

  lemma {:induction false} KeptOrLeftOut<T>(a: seq<T>, b: seq<T>, x: T)
    requires IsSubsequence(a, b)
    ensures IsSubsequence(a + [x], b + [x]) && IsSubsequence(a, b + [x])
  {
    assert (a + [x])[..|a|] == a && (b + [x])[..|b|] == b;
  }

  /** The messages a pass has dealt with, as they were in the queue. */
  ghost function Handled(pass: Pass): multiset<Message> {
    multiset(pass.delivered) + multiset(Earlier(pass.dropped)) + multiset(Earlier(pass.remain))
  }

  lemma HandleConserves(pass: Pass, msg: Message, published: bool, deleted: bool, maxRetry: int)
    ensures Handled(Handle(pass, msg, published, deleted, maxRetry)) == Handled(pass) + multiset{msg}
  {
    EarlierAppend(pass.remain, msg);
    EarlierAppend(pass.dropped, msg);
  }

  /** Every message of the pass is delivered, dropped or kept, exactly once. */
  lemma {:induction false} PassConserves(msgs: seq<Message>, storage: map<string, Message>,
                                         published: nat -> bool, deleted: nat -> bool, maxRetry: int, n: nat)
    requires n <= |msgs|
    ensures Handled(PassOver(msgs, storage, published, deleted, maxRetry, n)) == multiset(msgs[..n])
  {
    if n > 0 {
      PassConserves(msgs, storage, published, deleted, maxRetry, n - 1);
      assert msgs[..n] == msgs[..n - 1] + [msgs[n - 1]];
      HandleConserves(PassOver(msgs, storage, published, deleted, maxRetry, n - 1),
                      msgs[n - 1], published(n - 1), deleted(n - 1), maxRetry);
    }
  }

  /** Each outcome lists its messages in the order of msgs. */
  ghost predicate InOrder(pass: Pass, msgs: seq<Message>) {
    && IsSubsequence(Earlier(pass.remain), msgs)
    && IsSubsequence(pass.delivered, msgs)
    && IsSubsequence(Earlier(pass.dropped), msgs)
  }

  lemma HandleKeepsOrder(pass: Pass, msgs: seq<Message>, msg: Message, published: bool, deleted: bool, maxRetry: int)
    requires InOrder(pass, msgs)
    ensures InOrder(Handle(pass, msg, published, deleted, maxRetry), msgs + [msg])
  {
    EarlierAppend(pass.remain, msg);
    EarlierAppend(pass.dropped, msg);
    KeptOrLeftOut(Earlier(pass.remain), msgs, msg);
    KeptOrLeftOut(pass.delivered, msgs, msg);
    KeptOrLeftOut(Earlier(pass.dropped), msgs, msg);
  }

  /** The survivors, the delivered and the dropped messages each keep queue order. */
  lemma {:induction false} PassKeepsOrder(msgs: seq<Message>, storage: map<string, Message>,
                                          published: nat -> bool, deleted: nat -> bool, maxRetry: int, n: nat)
    requires n <= |msgs|
    ensures InOrder(PassOver(msgs, storage, published, deleted, maxRetry, n), msgs[..n])
  {
    if n > 0 {
      PassKeepsOrder(msgs, storage, published, deleted, maxRetry, n - 1);
      assert msgs[..n] == msgs[..n - 1] + [msgs[n - 1]];
      HandleKeepsOrder(PassOver(msgs, storage, published, deleted, maxRetry, n - 1),
                       msgs[..n - 1], msgs[n - 1], published(n - 1), deleted(n - 1), maxRetry);
    }
  }

  /** The messages among the first n that the broker took. */
  function Taken(msgs: seq<Message>, published: nat -> bool, n: nat): seq<Message>
    requires n <= |msgs|
  {
    if n == 0 then [] else Taken(msgs, published, n - 1) + if published(n - 1) then [msgs[n - 1]] else []
  }

  /** Those it did not take, with Retry one higher: the ones to try again, or the rest. */
  function Missed(msgs: seq<Message>, published: nat -> bool, maxRetry: int, again: bool, n: nat): seq<Message>
    requires n <= |msgs|
  {
    if n == 0 then []
    else
      var before, m := Missed(msgs, published, maxRetry, again, n - 1), msgs[n - 1];
      if !published(n - 1) && (m.retry + 1 < maxRetry <==> again) then
        before + [Message(m.id, m.topic, m.payload, m.retry + 1)]
      else before
  }

  /** Which message a pass delivers, keeps and drops: delivered as they were exactly those
      the broker took; kept, with Retry one higher, exactly the others whose Retry is still
      below the limit then. */
  lemma {:induction false} PassIsExact(msgs: seq<Message>, storage: map<string, Message>,
                                       published: nat -> bool, deleted: nat -> bool, maxRetry: int, n: nat)
    requires n <= |msgs|
    ensures var pass := PassOver(msgs, storage, published, deleted, maxRetry, n);
      && pass.delivered == Taken(msgs, published, n)
      && pass.remain == Missed(msgs, published, maxRetry, true, n)
      && pass.dropped == Missed(msgs, published, maxRetry, false, n)
  {
    if n > 0 {
      PassIsExact(msgs, storage, published, deleted, maxRetry, n - 1);
    }
  }

  /** Storage loses exactly the ids of messages that were both delivered and deleted, and
      keeps the others as they were. */
  lemma {:induction false} PassCleansStorage(msgs: seq<Message>, storage: map<string, Message>,
                                             published: nat -> bool, deleted: nat -> bool, maxRetry: int, n: nat)
    requires n <= |msgs|
    ensures var left := PassOver(msgs, storage, published, deleted, maxRetry, n).storage;
      && (forall id :: id in left <==>
            id in storage && forall i :: 0 <= i < n && published(i) && deleted(i) ==> msgs[i].id != id)
      && (forall id <- left :: left[id] == storage[id])
  {
    if n > 0 {
      PassCleansStorage(msgs, storage, published, deleted, maxRetry, n - 1);
    }
  }

  // ---- Draining ---------------------------------------------------------

  /** The queue after some passes with nothing enqueued in between; published(p)(i)
      is the outcome of publish i in pass p. */
  function Passes(msgs: seq<Message>, published: nat -> nat -> bool, maxRetry: int, passes: nat): seq<Message> {
    if passes == 0 then msgs
    else
      var queue := Passes(msgs, published, maxRetry, passes - 1);
      PassOver(queue, map[], published(passes - 1), _ => true, maxRetry, |queue|).remain
  }

  lemma {:induction false} SurvivorsWereTried(msgs: seq<Message>, storage: map<string, Message>,
                                              published: nat -> bool, deleted: nat -> bool,
                                              maxRetry: int, n: nat, low: int)
    requires n <= |msgs| && forall m <- msgs :: m.retry >= low
    ensures forall m <- PassOver(msgs, storage, published, deleted, maxRetry, n).remain ::
              low + 1 <= m.retry < maxRetry
  {
    if n > 0 {
      SurvivorsWereTried(msgs, storage, published, deleted, maxRetry, n - 1, low);
      assert msgs[n - 1] in msgs;
    }
  }

  lemma {:induction false} RetriesGrow(msgs: seq<Message>, published: nat -> nat -> bool, maxRetry: int,
                                       passes: nat, low: int)
    requires forall m <- msgs :: m.retry >= low
    ensures forall m <- Passes(msgs, published, maxRetry, passes) ::
              m.retry >= low + passes && (passes > 0 ==> m.retry < maxRetry)
  {
    if passes > 0 {
      RetriesGrow(msgs, published, maxRetry, passes - 1, low);
      var queue := Passes(msgs, published, maxRetry, passes - 1);
      SurvivorsWereTried(queue, map[], published(passes - 1), _ => true, maxRetry, |queue|, low + passes - 1);
    }
  }

  /** max(1, maxRetry - low) passes empty a queue whose Retry values are at least low,
      whatever the broker does. */
  lemma QueueDrains(msgs: seq<Message>, published: nat -> nat -> bool, maxRetry: int, low: int)
    requires forall m <- msgs :: m.retry >= low
    ensures Passes(msgs, published, maxRetry, if maxRetry - low > 1 then maxRetry - low else 1) == []
  {
    var passes := if maxRetry - low > 1 then maxRetry - low else 1;
    var queue := Passes(msgs, published, maxRetry, passes);
    assert queue != [] ==> queue[0] in queue;
    RetriesGrow(msgs, published, maxRetry, passes, low);
  }
}
