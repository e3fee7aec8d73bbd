/** The outbound queue as a step machine: one step per effect, and a crash with restart
    possible between any two of them. The mutex makes Enqueue and Process exclude
    each other, so at most one of them is under way. */
module OutboundMachine {
  import opened OutboundQueue
  import opened Words

  datatype Phase =
    | Idle
    | Appended(msg: Message)                                  // Enqueue, before Save
    | Sending(rest: seq<Message>, remain: seq<Message>, maxRetry: int)  // Process, before the next publish
    | Sent(msg: Message, rest: seq<Message>, remain: seq<Message>, maxRetry: int)  // Process, before Delete

  datatype State = State(
    queue: seq<Message>,
    storage: map<string, Message>,
    phase: Phase,
    enqueued: map<string, Message>,   // every message ever handed to Enqueue
    stored: set<string>,              // ids whose Save succeeded
    published: multiset<string>,      // successful publishes, over all restarts
    dropped: multiset<string>,        // messages given up on, over all restarts
    lost: set<string>,                // messages given up on since the last restart
    tries: multiset<string>,          // publish attempts since the last restart
    crashes: nat)

  datatype Action =
    | Append(msg: Message)
    | Save(ok: bool)
    | Begin(maxRetry: int)
    | Publish(ok: bool)
    | Delete(ok: bool)
    | Finish
    | Crash(loaded: seq<Message>)

  const EMPTY := State([], map[], Idle, map[], {}, multiset{}, multiset{}, {}, multiset{}, 0)

  /** Ids are unique: a message is handed to Enqueue under an id never used before.
      A restart takes what LoadAll returns, all stored messages or, if it fails, some. */
  ghost predicate Enabled(s: State, a: Action) {
    match a
    case Append(msg) => s.phase.Idle? && msg.id !in s.enqueued
    case Save(_) => s.phase.Appended?
    case Begin(_) => s.phase.Idle?
    case Publish(_) => s.phase.Sending? && s.phase.rest != []
    case Delete(_) => s.phase.Sent?
    case Finish => s.phase.Sending? && s.phase.rest == []
    case Crash(loaded) => IsPartLoad(loaded, s.storage)
  }

  ghost function Next(s: State, a: Action): State
    requires Enabled(s, a)
  {
    match a
    case Append(msg) =>
      s.(queue := s.queue + [msg], phase := Appended(msg), enqueued := s.enqueued[msg.id := msg])
    case Save(ok) =>
      var id := s.phase.msg.id;
      if ok then s.(storage := s.storage[id := s.phase.msg], stored := s.stored + {id}, phase := Idle)
      else s.(phase := Idle)
    case Begin(maxRetry) => s.(phase := Sending(s.queue, [], maxRetry))
    case Publish(ok) =>
      var msg, rest, remain, maxRetry := s.phase.rest[0], s.phase.rest[1..], s.phase.remain, s.phase.maxRetry;
      var tries := s.tries + multiset{msg.id};
      if ok then
        s.(published := s.published + multiset{msg.id}, tries := tries, phase := Sent(msg, rest, remain, maxRetry))
      else if msg.retry + 1 < maxRetry then
        s.(tries := tries, phase := Sending(rest, remain + [msg.Again()], maxRetry))
      else
        s.(tries := tries, dropped := s.dropped + multiset{msg.id}, lost := s.lost + {msg.id},
           phase := Sending(rest, remain, maxRetry))
    case Delete(ok) =>
      s.(storage := if ok then s.storage - {s.phase.msg.id} else s.storage,
         phase := Sending(s.phase.rest, s.phase.remain, s.phase.maxRetry))
    case Finish => s.(queue := s.phase.remain, phase := Idle)
    case Crash(loaded) =>
      s.(queue := loaded, phase := Idle, lost := {}, tries := multiset{}, crashes := s.crashes + 1)
  }

  /** The state after a run, if every step of it is enabled. Each pass of Process has a
      maxRetry of its own. */
  ghost predicate Runs(from: State, actions: seq<Action>, to: State) {
    if actions == [] then to == from
    else
      var n := |actions| - 1;
      exists mid :: Runs(from, actions[..n], mid) && Enabled(mid, actions[n])
                    && to == Next(mid, actions[n])
  }

  // ---- The invariant ----------------------------------------------------

  /** The messages this incarnation still holds and has not delivered or dropped. */
  ghost function InMemory(s: State): seq<Message> {
    match s.phase
    case Idle => s.queue
    case Appended(_) => s.queue
    case Sending(rest, remain, _) => remain + rest
    case Sent(_, rest, remain, _) => remain + rest
  }

  ghost predicate Distinct(mem: seq<Message>) {
    forall i, j :: 0 <= i < j < |mem| ==> mem[i].id != mem[j].id
  }

  /** The message held under an id, if any. */
  ghost function Held(mem: seq<Message>, id: string): Option<Message> {
    if mem == [] then None
    else if mem[|mem| - 1].id == id then Some(mem[|mem| - 1])
    else Held(mem[..|mem| - 1], id)
  }

  /** Attempts a message may get in one incarnation. */
  function TryLimit(retry: int, maxRetry: int): int {
    if maxRetry - retry > 1 then maxRetry - retry else 1
  }

  /** Everything kept about one id, given the message held under it and a bound on the
      maxRetry of every pass. */
  ghost predicate IdInv(s: State, held: Option<Message>, id: string, bound: int) {
    var copies := if held.Some? then 1 else 0;
    if id !in s.enqueued then
      && copies == 0 && id !in s.stored && id !in s.storage && id !in s.lost
      && s.published[id] == 0 && s.dropped[id] == 0 && s.tries[id] == 0
    else
      && s.enqueued[id].id == id
      // the stored copy is the one enqueued, and goes only after a successful publish
      && (id in s.storage ==> id in s.stored && s.storage[id] == s.enqueued[id])
      && (id in s.stored && s.published[id] == 0 ==> id in s.storage)
      // and not before this incarnation has delivered the message
      && (id in s.stored && (held.Some? || id in s.lost) ==> id in s.storage)
      && (id in s.lost ==> held == None && s.dropped[id] > 0)
      // a message in memory has its Retry raised by its attempts
      && (held.Some? ==>
            && held.value == s.enqueued[id].(retry := s.enqueued[id].retry + s.tries[id])
            && (s.tries[id] > 0 ==> held.value.retry < bound))
      && s.tries[id] <= TryLimit(s.enqueued[id].retry, bound)
      && s.published[id] + copies <= 1 + s.crashes
      && (s.crashes == 0 ==> s.published[id] + s.dropped[id] + copies == 1)
  }

  ghost predicate PhaseInv(s: State, bound: int) {
    match s.phase
    case Idle => true
    case Appended(msg) => msg.id in s.enqueued && s.enqueued[msg.id] == msg
    case Sending(_, _, maxRetry) => maxRetry <= bound
    case Sent(msg, _, _, maxRetry) =>
      && maxRetry <= bound
      && s.published[msg.id] > 0 && msg.id !in s.lost && Held(InMemory(s), msg.id) == None
  }

  ghost predicate Inv(s: State, bound: int) {
    && Distinct(InMemory(s))
    && (forall id :: IdInv(s, Held(InMemory(s), id), id, bound))
    && PhaseInv(s, bound)
  }

  // ---- What memory holds ------------------------------------------------

  lemma {:induction false} HeldAt(mem: seq<Message>, k: nat)
    requires k < |mem| && Distinct(mem)
    ensures Held(mem, mem[k].id) == Some(mem[k])
  {
    if k < |mem| - 1 {
      HeldAt(mem[..|mem| - 1], k);
    }
  }

  lemma {:induction false} HeldIsIn(mem: seq<Message>, id: string)
    ensures Held(mem, id).Some? ==> Held(mem, id).value in mem && Held(mem, id).value.id == id
    ensures Held(mem, id) == None ==> forall i :: 0 <= i < |mem| ==> mem[i].id != id
  {
    if mem != [] && mem[|mem| - 1].id != id {
      HeldIsIn(mem[..|mem| - 1], id);
    }
  }

  lemma {:induction false} HeldJoin(a: seq<Message>, b: seq<Message>, id: string)
    ensures Held(a + b, id) == if Held(b, id).Some? then Held(b, id) else Held(a, id)
  {
    if b == [] {
      assert a + b == a;
    } else {
      assert (a + b)[..|a + b| - 1] == a + b[..|b| - 1];
      if b[|b| - 1].id != id {
        HeldJoin(a, b[..|b| - 1], id);
      }
    }
  }

  lemma {:induction false} HeldNowhereElse(remain: seq<Message>, msg: Message, rest: seq<Message>)
    requires Distinct(remain + [msg] + rest)
    ensures Held(remain, msg.id) == None && Held(rest, msg.id) == None
  {
    var mem := remain + [msg] + rest;
    assert mem[|remain|] == msg;
    assert forall i :: 0 <= i < |rest| ==> rest[i] == mem[|remain| + 1 + i];
    assert forall i :: 0 <= i < |remain| ==> remain[i] == mem[i];
    HeldIsIn(rest, msg.id);
    HeldIsIn(remain, msg.id);
  }

  lemma {:induction false} HeldInThree(a: seq<Message>, b: seq<Message>, c: seq<Message>, id: string)
    ensures Held(a + b + c, id)
         == if Held(c, id).Some? then Held(c, id) else if Held(b, id).Some? then Held(b, id) else Held(a, id)
  {
    HeldJoin(a + b, c, id);
    HeldJoin(a, b, id);
  }

  /** Memory around the message in turn, with something or nothing in its place. */
  lemma {:induction false} HeldAround(remain: seq<Message>, msg: Message, now: seq<Message>, rest: seq<Message>,
                                      id: string)
    requires Distinct(remain + [msg] + rest)
    requires now == [] || (|now| == 1 && now[0].id == msg.id)
    ensures Held(remain + [msg] + rest, msg.id) == Some(msg)
    ensures Held(remain + now + rest, id) == if id == msg.id then Held(now, id) else Held(remain + [msg] + rest, id)
  {
    HeldNowhereElse(remain, msg, rest);
    HeldInThree(remain, [msg], rest, msg.id);
    HeldInThree(remain, [msg], rest, id);
    HeldInThree(remain, now, rest, id);
  }

  lemma DistinctAround(remain: seq<Message>, msg: Message, now: seq<Message>, rest: seq<Message>)
    requires Distinct(remain + [msg] + rest)
    requires now == [] || (|now| == 1 && now[0].id == msg.id)
    ensures Distinct(remain + now + rest)
  {
    var mem, after := remain + [msg] + rest, remain + now + rest;
    forall i, j | 0 <= i < j < |after|
      ensures after[i].id != after[j].id
    {
      var skip := 1 - |now|;
      var p, q := if i < |remain| then i else i + skip, if j < |remain| then j else j + skip;
      assert after[i].id == mem[p].id && after[j].id == mem[q].id;
    }
  }

  // ---- Every step keeps it ----------------------------------------------

  lemma AppendKeeps(s: State, msg: Message, bound: int)
    requires Inv(s, bound) && Enabled(s, Append(msg))
    ensures Inv(Next(s, Append(msg)), bound)
  {
    var t := Next(s, Append(msg));
    assert IdInv(s, Held(InMemory(s), msg.id), msg.id, bound);
    HeldIsIn(s.queue, msg.id);
    forall id
      ensures IdInv(t, Held(InMemory(t), id), id, bound)
    {
      assert IdInv(s, Held(InMemory(s), id), id, bound);
      HeldJoin(s.queue, [msg], id);
    }
  }

  lemma SaveAndDeleteKeep(s: State, a: Action, bound: int)
    requires Inv(s, bound) && Enabled(s, a) && (a.Save? || a.Delete?)
    ensures Inv(Next(s, a), bound)
  {
    var t := Next(s, a);
    forall id
      ensures IdInv(t, Held(InMemory(t), id), id, bound)
    {
      assert IdInv(s, Held(InMemory(s), id), id, bound);
    }
  }

  /** A pass is given a maxRetry up to the bound. */
  predicate IsWithin(a: Action, bound: int) {
    a.Begin? ==> a.maxRetry <= bound
  }

  lemma BeginAndFinishKeep(s: State, a: Action, bound: int)
    requires Inv(s, bound) && Enabled(s, a) && IsWithin(a, bound) && (a.Begin? || a.Finish?)
    ensures Inv(Next(s, a), bound)
  {
    var t := Next(s, a);
    assert InMemory(t) == InMemory(s);
    forall id
      ensures IdInv(t, Held(InMemory(t), id), id, bound)
    {
      assert IdInv(s, Held(InMemory(s), id), id, bound);
    }
  }

  lemma CrashKeeps(s: State, loaded: seq<Message>, bound: int)
    requires Inv(s, bound) && Enabled(s, Crash(loaded))
    ensures Inv(Next(s, Crash(loaded)), bound)
  {
    var t := Next(s, Crash(loaded));
    forall id
      ensures IdInv(t, Held(loaded, id), id, bound)
    {
      assert IdInv(s, Held(InMemory(s), id), id, bound);
      HeldIsIn(loaded, id);
    }
  }

  /** What a publish does to memory: the message in turn goes, or comes again. */
  lemma {:induction false} PublishMoves(s: State, ok: bool, id: string)
    requires Distinct(InMemory(s)) && Enabled(s, Publish(ok))
    ensures Distinct(InMemory(Next(s, Publish(ok))))
    ensures var msg := s.phase.rest[0];
      && Held(InMemory(s), msg.id) == Some(msg)
      && Held(InMemory(Next(s, Publish(ok))), id)
         == if id != msg.id then Held(InMemory(s), id)
            else if !ok && msg.retry + 1 < s.phase.maxRetry then Some(msg.Again())
            else None
  {
    var msg, rest, remain := s.phase.rest[0], s.phase.rest[1..], s.phase.remain;
    var now := if !ok && msg.retry + 1 < s.phase.maxRetry then [msg.Again()] else [];
    assert InMemory(s) == remain + [msg] + rest;
    assert InMemory(Next(s, Publish(ok))) == remain + now + rest;
    DistinctAround(remain, msg, now, rest);
    HeldAround(remain, msg, now, rest, id);
  }

  /** What is kept about one id, from what is held under it before and after a publish. */
  lemma {:induction false} PublishKeepsId(s: State, ok: bool, id: string, held: Option<Message>,
                                          now: Option<Message>, bound: int)
    requires Enabled(s, Publish(ok)) && s.phase.maxRetry <= bound && IdInv(s, held, id, bound)
    requires var msg := s.phase.rest[0];
      if id != msg.id then now == held
      else held == Some(msg) && now == if !ok && msg.retry + 1 < s.phase.maxRetry then Some(msg.Again()) else None
    ensures IdInv(Next(s, Publish(ok)), now, id, bound)
  {
  }

  lemma PublishKeeps(s: State, ok: bool, bound: int)
    requires Inv(s, bound) && Enabled(s, Publish(ok))
    ensures Inv(Next(s, Publish(ok)), bound)
  {
    var t, msg := Next(s, Publish(ok)), s.phase.rest[0];
    forall id
      ensures IdInv(t, Held(InMemory(t), id), id, bound)
    {
      PublishMoves(s, ok, id);
      PublishKeepsId(s, ok, id, Held(InMemory(s), id), Held(InMemory(t), id), bound);
    }
    PublishMoves(s, ok, msg.id);
    assert IdInv(s, Some(msg), msg.id, bound);
  }

  lemma StepKeeps(s: State, a: Action, bound: int)
    requires Inv(s, bound) && Enabled(s, a) && IsWithin(a, bound)
    ensures Inv(Next(s, a), bound)
  {
    match a
    case Append(msg) => AppendKeeps(s, msg, bound);
    case Save(_) => SaveAndDeleteKeep(s, a, bound);
    case Delete(_) => SaveAndDeleteKeep(s, a, bound);
    case Begin(_) => BeginAndFinishKeep(s, a, bound);
    case Finish => BeginAndFinishKeep(s, a, bound);
    case Crash(loaded) => CrashKeeps(s, loaded, bound);
    case Publish(ok) => PublishKeeps(s, ok, bound);
  }

  lemma {:induction false} RunKeeps(actions: seq<Action>, bound: int, s: State)
    requires Runs(EMPTY, actions, s) && forall a <- actions :: IsWithin(a, bound)
    ensures Inv(s, bound)
  {
    if actions != [] {
      var n := |actions| - 1;
      var mid :| Runs(EMPTY, actions[..n], mid) && Enabled(mid, actions[n]) && s == Next(mid, actions[n]);
      RunKeeps(actions[..n], bound, mid);
      assert actions[n] in actions;
      StepKeeps(mid, actions[n], bound);
    }
  }

  /** Some bound covers every pass of a run. */
  function HighestLimit(actions: seq<Action>): (bound: int)
    ensures forall a <- actions :: IsWithin(a, bound)
  {
    if actions == [] then 0
    else
      var before, last := HighestLimit(actions[..|actions| - 1]), actions[|actions| - 1];
      assert forall a <- actions :: a in actions[..|actions| - 1] || a == last;
      if last.Begin? && last.maxRetry > before then last.maxRetry else before
  }

  /** What every run keeps about one id, whatever limits its passes used. */
  lemma {:induction false} RunKeepsId(actions: seq<Action>, s: State, id: string)
    requires Runs(EMPTY, actions, s)
    ensures IdInv(s, Held(InMemory(s), id), id, HighestLimit(actions))
  {
    RunKeeps(actions, HighestLimit(actions), s);
  }

  // ---- What every run guarantees ----------------------------------------

  /** A message whose Save succeeded and that was never published stays in storage as
      it was enqueued, even once dropped, and is queued again by the next restart. */
  lemma {:induction false} NothingIsLost(actions: seq<Action>, s: State, id: string, loaded: seq<Message>)
    requires Runs(EMPTY, actions, s)
    requires id in s.stored && s.published[id] == 0
    requires IsLoad(loaded, s.storage)
    ensures id in s.enqueued && id in s.storage && s.storage[id] == s.enqueued[id]
    ensures s.enqueued[id] in Next(s, Crash(loaded)).queue
  {
    RunKeepsId(actions, s, id);
    var i :| 0 <= i < |loaded| && loaded[i].id == id;
    assert loaded[i] == s.enqueued[id];
  }

  /** After a restart that loads everything, a message enqueued and never published is
      queued again exactly when its Save succeeded, whether or not it was dropped. */
  lemma {:induction false} RequeuedIff(actions: seq<Action>, s: State, id: string, loaded: seq<Message>)
    requires Runs(EMPTY, actions, s)
    requires id in s.enqueued && s.published[id] == 0
    requires IsLoad(loaded, s.storage)
    ensures (exists m <- Next(s, Crash(loaded)).queue :: m.id == id) <==> id in s.stored
    ensures id in s.stored ==> s.enqueued[id] in Next(s, Crash(loaded)).queue
  {
    RunKeepsId(actions, s, id);
    if id in s.stored {
      NothingIsLost(actions, s, id, loaded);
      assert s.enqueued[id].id == id;
    }
  }

  /** A message dropped since the last restart comes back with the next one exactly when
      its Save had succeeded, and then as it was enqueued. */
  lemma {:induction false} DroppedReturnsIff(actions: seq<Action>, s: State, id: string, loaded: seq<Message>)
    requires Runs(EMPTY, actions, s)
    requires id in s.lost && IsLoad(loaded, s.storage)
    ensures id in s.enqueued && s.dropped[id] > 0
    ensures (exists m <- Next(s, Crash(loaded)).queue :: m.id == id) <==> id in s.stored
    ensures id in s.stored ==> s.enqueued[id] in Next(s, Crash(loaded)).queue
  {
    RunKeepsId(actions, s, id);
    if id in s.stored {
      var i :| 0 <= i < |loaded| && loaded[i].id == id;
      assert loaded[i] == s.enqueued[id];
    }
  }

  /** No message is successfully published more than once per incarnation. */
  lemma {:induction false} AtMostOncePerIncarnation(actions: seq<Action>, s: State, id: string)
    requires Runs(EMPTY, actions, s)
    ensures s.published[id] <= 1 + s.crashes
  {
    RunKeepsId(actions, s, id);
  }

  /** Publish attempts since the last restart are bounded by the highest maxRetry of any
      pass; a message enqueued with Retry 0 gets at most max(1, that). */
  lemma {:induction false} AttemptsAreBounded(actions: seq<Action>, s: State, id: string, bound: int)
    requires Runs(EMPTY, actions, s) && id in s.enqueued
    requires forall a <- actions :: IsWithin(a, bound)
    ensures s.tries[id] <= TryLimit(s.enqueued[id].retry, bound)
  {
    RunKeeps(actions, bound, s);
    assert IdInv(s, Held(InMemory(s), id), id, bound);
  }

  /** Without a crash every enqueued message is in exactly one place: still held,
      delivered once, or dropped once. */
  lemma {:induction false} ExactlyOnePlace(actions: seq<Action>, s: State, id: string)
    requires Runs(EMPTY, actions, s) && s.crashes == 0 && id in s.enqueued
    ensures s.published[id] + s.dropped[id] + (if exists m <- InMemory(s) :: m.id == id then 1 else 0) == 1
  {
    RunKeepsId(actions, s, id);
    HeldIsIn(InMemory(s), id);
  }

  lemma {:induction false} RunsOneMore(from: State, actions: seq<Action>, mid: State, a: Action)
    requires Runs(from, actions, mid) && Enabled(mid, a)
    ensures Runs(from, actions + [a], Next(mid, a))
  {
    assert (actions + [a])[..|actions|] == actions;
  }

  // ---- The bounds are reached -------------------------------------------

  /** The state with one message queued and stored. */
  ghost function OneQueued(msg: Message): State {
    EMPTY.(queue := [msg], storage := map[msg.id := msg], enqueued := map[msg.id := msg], stored := {msg.id})
  }

  lemma {:induction false} OneQueuedIsReached(msg: Message)
    ensures Runs(EMPTY, [Append(msg)] + [Save(true)], OneQueued(msg))
  {
    RunsOneMore(EMPTY, [], EMPTY, Append(msg));
    var s1 := Next(EMPTY, Append(msg));
    assert [] + [Append(msg)] == [Append(msg)];
    RunsOneMore(EMPTY, [Append(msg)], s1, Save(true));
    assert Next(s1, Save(true)) == OneQueued(msg);
  }

  /** Every pass of the run is given this maxRetry. */
  predicate Uses(actions: seq<Action>, maxRetry: int) {
    forall a <- actions :: a.Begin? ==> a.maxRetry == maxRetry
  }

  /** Publishing the only queued message. */
  lemma {:induction false} OnePublish(s: State, actions: seq<Action>, msg: Message, ok: bool, maxRetry: int)
    returns (t: State)
    requires Runs(EMPTY, actions, s) && s.phase.Idle? && s.queue == [msg]
    ensures Runs(EMPTY, actions + [Begin(maxRetry)] + [Publish(ok)], t)
    ensures t.storage == s.storage && t.crashes == s.crashes && (ok ==> t.phase.Sent?)
    ensures t.published == if ok then s.published + multiset{msg.id} else s.published
    ensures !ok && msg.retry + 1 >= maxRetry ==>
              t.phase == Sending([], [], maxRetry) && t.dropped == s.dropped + multiset{msg.id}
  {
    RunsOneMore(EMPTY, actions, s, Begin(maxRetry));
    var mid := Next(s, Begin(maxRetry));
    RunsOneMore(EMPTY, actions + [Begin(maxRetry)], mid, Publish(ok));
    t := Next(mid, Publish(ok));
  }

  lemma OneIsLoaded(msg: Message)
    ensures IsLoad([msg], map[msg.id := msg])
  {
    assert [msg][0].id == msg.id;
  }

  /** One more restart between a publish and its Delete, and the message is sent again. */
  lemma CrashAndSend(actions: seq<Action>, s: State, msg: Message, maxRetry: int) returns (more: seq<Action>, t: State)
    requires Runs(EMPTY, actions, s) && Uses(actions, maxRetry)
    requires s.phase.Sent? && s.storage == map[msg.id := msg]
    ensures Runs(EMPTY, more, t) && Uses(more, maxRetry)
    ensures t.phase.Sent? && t.storage == s.storage
    ensures t.crashes == s.crashes + 1 && t.published[msg.id] == s.published[msg.id] + 1
  {
    OneIsLoaded(msg);
    RunsOneMore(EMPTY, actions, s, Crash([msg]));
    t := OnePublish(Next(s, Crash([msg])), actions + [Crash([msg])], msg, true, maxRetry);
    more := actions + [Crash([msg])] + [Begin(maxRetry)] + [Publish(true)];
  }

  /** Each restart can come between a publish and its Delete. */
  lemma {:induction false} DeliverAgain(msg: Message, maxRetry: int, crashes: nat) returns (actions: seq<Action>,
                                        s: State)
    ensures Runs(EMPTY, actions, s) && Uses(actions, maxRetry)
    ensures s.phase.Sent? && s.storage == map[msg.id := msg]
    ensures s.crashes == crashes && s.published[msg.id] == crashes + 1
  {
    if crashes == 0 {
      actions := [Append(msg)] + [Save(true)];
      OneQueuedIsReached(msg);
      s := OnePublish(OneQueued(msg), actions, msg, true, maxRetry);
      actions := actions + [Begin(maxRetry)] + [Publish(true)];
    } else {
      actions, s := DeliverAgain(msg, maxRetry, crashes - 1);
      actions, s := CrashAndSend(actions, s, msg, maxRetry);
    }
  }

  /** The delivery bound is reached for every number of crashes and every maxRetry. */
  lemma DeliveryBoundIsReached(msg: Message, maxRetry: int, crashes: nat)
    ensures exists actions, s ::
      Runs(EMPTY, actions, s) && Uses(actions, maxRetry) && s.crashes == crashes && s.published[msg.id] == crashes + 1
  {
    var actions, s := DeliverAgain(msg, maxRetry, crashes);
  }

  lemma LastRetryFails(msg: Message, maxRetry: int) returns (actions: seq<Action>, s: State)
    requires msg.retry + 1 >= maxRetry
    ensures Runs(EMPTY, actions, s) && Uses(actions, maxRetry)
    ensures s.phase == Sending([], [], maxRetry) && s.dropped == multiset{msg.id} && s.storage == map[msg.id := msg]
  {
    var enqueue := [Append(msg)] + [Save(true)];
    OneQueuedIsReached(msg);
    s := OnePublish(OneQueued(msg), enqueue, msg, false, maxRetry);
    actions := enqueue + [Begin(maxRetry)] + [Publish(false)];
  }

  /** A message dropped after its last retry is not deleted from storage: the queue no
      longer has it, and a restart brings it back with the Retry it was enqueued with. */
  lemma DroppedMessageReturns(msg: Message, maxRetry: int)
    requires msg.retry + 1 >= maxRetry
    ensures exists actions, s ::
      && Runs(EMPTY, actions, s) && Uses(actions, maxRetry)
      && s.phase.Idle? && s.queue == [] && s.dropped[msg.id] == 1
      && Enabled(s, Crash([msg]))
      && Next(s, Crash([msg])).queue == [msg]
  {
    var actions, given := LastRetryFails(msg, maxRetry);
    RunsOneMore(EMPTY, actions, given, Finish);
    OneIsLoaded(msg);
  }

  // ---- Process is a run of the machine ----------------------------------

  /** The steps Process takes over the first n messages of the queue. */
  function ProcessSteps(published: nat -> bool, deleted: nat -> bool, maxRetry: int, n: nat): seq<Action> {
    if n == 0 then [Begin(maxRetry)]
    else
      ProcessSteps(published, deleted, maxRetry, n - 1)
      + if published(n - 1) then [Publish(true), Delete(deleted(n - 1))] else [Publish(false)]
  }

  /** One message of the queue, as machine steps. */
  lemma HandleIsSteps(from: State, steps: seq<Action>, maxRetry: int, mid: State, pass: Pass, ok: bool, deleted: bool)
    returns (t: State)
    requires Runs(from, steps, mid)
    requires mid.phase.Sending? && mid.phase.rest != [] && mid.phase.maxRetry == maxRetry
    requires mid.phase.remain == pass.remain && mid.storage == pass.storage
    ensures Runs(from, steps + if ok then [Publish(true), Delete(deleted)] else [Publish(false)], t)
    ensures var after := Handle(pass, mid.phase.rest[0], ok, deleted, maxRetry);
      t.phase == Sending(mid.phase.rest[1..], after.remain, maxRetry) && t.storage == after.storage
  {
    RunsOneMore(from, steps, mid, Publish(ok));
    t := Next(mid, Publish(ok));
    if ok {
      RunsOneMore(from, steps + [Publish(true)], t, Delete(deleted));
      assert steps + [Publish(true)] + [Delete(deleted)] == steps + [Publish(true), Delete(deleted)];
      t := Next(t, Delete(deleted));
    }
  }

  lemma {:induction false} ProcessIsARun(s: State, published: nat -> bool, deleted: nat -> bool,
                                         maxRetry: int, n: nat) returns (t: State)
    requires s.phase.Idle? && n <= |s.queue|
    ensures Runs(s, ProcessSteps(published, deleted, maxRetry, n), t)
    ensures var pass := PassOver(s.queue, s.storage, published, deleted, maxRetry, n);
      t.phase == Sending(s.queue[n..], pass.remain, maxRetry) && t.storage == pass.storage
  {
    if n == 0 {
      assert Runs(s, [], s);
      RunsOneMore(s, [], s, Begin(maxRetry));
      assert [] + [Begin(maxRetry)] == ProcessSteps(published, deleted, maxRetry, 0);
      t := Next(s, Begin(maxRetry));
    } else {
      var mid := ProcessIsARun(s, published, deleted, maxRetry, n - 1);
      t := HandleIsSteps(s, ProcessSteps(published, deleted, maxRetry, n - 1), maxRetry, mid,
                         PassOver(s.queue, s.storage, published, deleted, maxRetry, n - 1),
                         published(n - 1), deleted(n - 1));
    }
  }

  /** What the method Process does is what an uninterrupted run of the machine does. */
  lemma ProcessRefinesMachine(s: State, published: nat -> bool, deleted: nat -> bool, maxRetry: int)
    returns (t: State)
    requires s.phase.Idle?
    ensures Runs(s, ProcessSteps(published, deleted, maxRetry, |s.queue|) + [Finish], t)
    ensures var pass := PassOver(s.queue, s.storage, published, deleted, maxRetry, |s.queue|);
      t.phase.Idle? && t.queue == pass.remain && t.storage == pass.storage
  {
    var mid := ProcessIsARun(s, published, deleted, maxRetry, |s.queue|);
    RunsOneMore(s, ProcessSteps(published, deleted, maxRetry, |s.queue|), mid, Finish);
    t := Next(mid, Finish);
  }
}
