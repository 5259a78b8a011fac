/**
  The thread-safe queue (net/tsqueue.hpp), step by step at the granularity of its two mutexes: any
  number of producers push, and one consumer waits, asks whether the queue is empty, and pops
  (server_interface::update in net/server.hpp).
 */
module TsQueue {
  import opened Wrappers

  type Thread = nat
  const CONSUMER: Thread := 0

  datatype Push<T> = Push(item: T, front: bool)

  /** Why the consumer asks whether the queue is empty: in `wait`, or in the loop that pops. */
  datatype Purpose = ForWait | ForPop

  /** What a thread does next. */
  datatype Step<T> =
    | Idle
    // a producer in push_back or push_front
    | LockToPush(push: Push<T>)
    | Emplace(push: Push<T>)
    | LockToNotify
    | Notify
    | UnlockNotify
    | UnlockPush
    // the consumer in empty
    | LockToAsk(purpose: Purpose)
    | Ask(purpose: Purpose)
    | UnlockAsk(purpose: Purpose, empty: bool)
    | Decide(purpose: Purpose, empty: bool)
    // the consumer in wait, after empty said true
    | LockToWait
    | Wait
    | Asleep
    | Woken
    | UnlockWait
    // the consumer in pop_front
    | LockToPop
    | Pop
    | UnlockPop

  /** `pushed` and `popped` record what went in and came out. */
  datatype State<T> = State(
    items: seq<T>,
    queueMutex: Option<Thread>,
    blockingMutex: Option<Thread>,
    threads: seq<Step<T>>,
    pushed: seq<Push<T>>,
    popped: seq<T>)

  predicate WantsQueue<T>(s: Step<T>) { s.LockToPush? || s.LockToAsk? || s.LockToPop? }

  predicate WantsBlocking<T>(s: Step<T>) { s.LockToNotify? || s.LockToWait? || s.Woken? }

  predicate HoldsQueue<T>(s: Step<T>) {
    s.Emplace? || s.LockToNotify? || s.Notify? || s.UnlockNotify? || s.UnlockPush? || s.Ask? || s.UnlockAsk? || s.Pop?
      || s.UnlockPop?
  }

  predicate HoldsBlocking<T>(s: Step<T>) { s.Notify? || s.UnlockNotify? || s.Wait? || s.UnlockWait? }

  predicate ForConsumer<T>(s: Step<T>) {
    s.LockToAsk? || s.Ask? || s.UnlockAsk? || s.Decide? || s.LockToWait? || s.Wait? || s.Asleep? || s.Woken?
      || s.UnlockWait?
    || s.LockToPop? || s.Pop? || s.UnlockPop?
  }

  // ---------------------------------------------------------------------------------------
  // Steps
  // ---------------------------------------------------------------------------------------

  /** A thread can go on: what it needs is free. An idle one begins something new, a sleeping one may wake unasked. */
  predicate Enabled<T>(s: State<T>, t: Thread) {
    t < |s.threads|
    && (WantsQueue(s.threads[t]) ==> s.queueMutex.None?)
    && (WantsBlocking(s.threads[t]) ==> s.blockingMutex.None?)
  }

  /** What an idle thread begins. */
  datatype Begin<T> = BeginPush(push: Push<T>) | BeginWait | BeginUpdate

  predicate MayBegin<T>(t: Thread, b: Begin<T>) { b.BeginPush? <==> t != CONSUMER }

  function Begun<T>(b: Begin<T>): Step<T> {
    match b
    case BeginPush(push) => LockToPush(push)
    case BeginWait => LockToAsk(ForWait)
    case BeginUpdate => LockToAsk(ForPop)
  }

  function At<T>(s: State<T>, t: Thread, step: Step<T>): State<T>
    requires t < |s.threads|
  {
    s.(threads := s.threads[t := step])
  }

  function Pushed<T>(items: seq<T>, p: Push<T>): seq<T> { if p.front then [p.item] + items else items + [p.item] }

  /** One step of a thread; after a pop the consumer may stop. A pop of an empty queue is an error. */
  function Next<T>(s: State<T>, t: Thread, b: Begin<T>, stop: bool): (r: Option<State<T>>)
    requires Enabled(s, t) && MayBegin(t, b)
  {
    match s.threads[t]
    case Idle => Some(At(s, t, Begun(b)))
    case LockToPush(push) => Some(At(s, t, Emplace(push)).(queueMutex := Some(t)))
    case Emplace(push) => Some(At(s, t, LockToNotify).(items := Pushed(s.items, push), pushed := s.pushed + [push]))
    case LockToNotify => Some(At(s, t, Notify).(blockingMutex := Some(t)))
    case Notify => Some(At(if Sleeping(s) then At(s, CONSUMER, Woken) else s, t, UnlockNotify))
    case UnlockNotify => Some(At(s, t, UnlockPush).(blockingMutex := None))
    case UnlockPush => Some(At(s, t, Idle).(queueMutex := None))
    case LockToAsk(purpose) => Some(At(s, t, Ask(purpose)).(queueMutex := Some(t)))
    case Ask(purpose) => Some(At(s, t, UnlockAsk(purpose, s.items == [])))
    case UnlockAsk(purpose, empty) => Some(At(s, t, Decide(purpose, empty)).(queueMutex := None))
    case Decide(purpose, empty) =>
      Some(At(s, t, if purpose.ForPop? then (if empty then Idle else LockToPop)
                    else if empty then LockToWait else Idle))
    case LockToWait => Some(At(s, t, Wait).(blockingMutex := Some(t)))
    case Wait => Some(At(s, t, Asleep).(blockingMutex := None))
    case Asleep => Some(At(s, t, Woken))
    case Woken => Some(At(s, t, UnlockWait).(blockingMutex := Some(t)))
    case UnlockWait => Some(At(s, t, LockToAsk(ForWait)).(blockingMutex := None))
    case LockToPop => Some(At(s, t, Pop).(queueMutex := Some(t)))
    case Pop =>
      if s.items == [] then None
      else Some(At(s, t, UnlockPop).(items := s.items[1..], popped := s.popped + [s.items[0]]))
    case UnlockPop => Some(At(s, t, if stop then Idle else LockToAsk(ForPop)).(queueMutex := None))
  }

  predicate Sleeping<T>(s: State<T>) { CONSUMER < |s.threads| && s.threads[CONSUMER].Asleep? }

  function Initial<T>(threads: nat): State<T> { State([], None, None, seq(threads, _ => Idle), [], []) }

  /** Any interleaving of steps. */
  datatype Choice<T> = Choice(thread: Thread, begin: Begin<T>, stop: bool)

  ghost predicate Run<T>(choices: seq<Choice<T>>, states: seq<State<T>>) {
    |states| == |choices| + 1 && (exists n :: states[0] == Initial(n))
    && forall i: nat :: i < |choices| ==> Follows(choices, states, i)
  }

  ghost predicate Follows<T>(choices: seq<Choice<T>>, states: seq<State<T>>, i: nat)
    requires i < |choices| < |states|
  {
    Enabled(states[i], choices[i].thread) && MayBegin(choices[i].thread, choices[i].begin)
    && Next(states[i], choices[i].thread, choices[i].begin, choices[i].stop) == Some(states[i + 1])
  }

  // ---------------------------------------------------------------------------------------
  // What every step keeps
  // ---------------------------------------------------------------------------------------

  /** Mutexes are held by the threads whose steps need them, and by no others. */
  ghost predicate QueueLocked<T>(s: State<T>) {
    (forall t: Thread :: t < |s.threads| ==> (HoldsQueue(s.threads[t]) <==> s.queueMutex == Some(t)))
    && (s.queueMutex.Some? ==> s.queueMutex.value < |s.threads|)
  }

  ghost predicate BlockingLocked<T>(s: State<T>) {
    (forall t: Thread :: t < |s.threads| ==> (HoldsBlocking(s.threads[t]) <==> s.blockingMutex == Some(t)))
    && (s.blockingMutex.Some? ==> s.blockingMutex.value < |s.threads|)
  }

  ghost predicate Roles<T>(s: State<T>) {
    forall t: Thread :: t < |s.threads| && s.threads[t] != Idle ==> (ForConsumer(s.threads[t]) <==> t == CONSUMER)
  }

  /** The consumer has seen that there is something to pop. */
  predicate SawItems<T>(s: Step<T>) { (s.UnlockAsk? && !s.empty) || (s.Decide? && !s.empty) || s.LockToPop? || s.Pop? }

  predicate StillThere<T>(s: State<T>) { |s.threads| > 0 && SawItems(s.threads[CONSUMER]) ==> s.items != [] }

  function ItemsOf<T>(pushed: seq<Push<T>>): seq<T> {
    if pushed == [] then [] else ItemsOf(pushed[..|pushed| - 1]) + [pushed[|pushed| - 1].item]
  }

  /** Nothing is lost and nothing is made up; without push_front the order is kept too. */
  ghost predicate Conserves<T>(pushed: seq<Push<T>>, popped: seq<T>, items: seq<T>) {
    multiset(ItemsOf(pushed)) == multiset(popped) + multiset(items)
    && ((forall p <- pushed :: !p.front) ==> ItemsOf(pushed) == popped + items)
  }

  ghost predicate Inv<T>(s: State<T>) {
    QueueLocked(s) && BlockingLocked(s) && Roles(s) && StillThere(s) && Conserves(s.pushed, s.popped, s.items)
  }

  lemma PushConserves<T>(pushed: seq<Push<T>>, popped: seq<T>, items: seq<T>, p: Push<T>)
    requires Conserves(pushed, popped, items)
    ensures Conserves(pushed + [p], popped, Pushed(items, p))
  {
    PushKeepsAll(pushed, popped, items, p);
    if forall q <- pushed + [p] :: !q.front {
      PushKeepsOrder(pushed, popped, items, p);
    }
  }

  lemma PushKeepsAll<T>(pushed: seq<Push<T>>, popped: seq<T>, items: seq<T>, p: Push<T>)
    requires multiset(ItemsOf(pushed)) == multiset(popped) + multiset(items)
    ensures multiset(ItemsOf(pushed + [p])) == multiset(popped) + multiset(Pushed(items, p))
  {
    MoreItems(pushed, p);
    PushedMultiset(items, p);
  }

  lemma PushKeepsOrder<T>(pushed: seq<Push<T>>, popped: seq<T>, items: seq<T>, p: Push<T>)
    requires forall q <- pushed + [p] :: !q.front
    requires (forall q <- pushed :: !q.front) ==> ItemsOf(pushed) == popped + items
    ensures ItemsOf(pushed + [p]) == popped + Pushed(items, p)
  {
    AllBack(pushed, p);
    MoreItems(pushed, p);
    assert popped + (items + [p.item]) == (popped + items) + [p.item];
  }

  lemma PushedMultiset<T>(items: seq<T>, p: Push<T>)
    ensures multiset(Pushed(items, p)) == multiset(items) + multiset{p.item}
  {
  }

  lemma MoreItems<T>(pushed: seq<Push<T>>, p: Push<T>)
    ensures ItemsOf(pushed + [p]) == ItemsOf(pushed) + [p.item]
  {
    assert (pushed + [p])[..|pushed|] == pushed;
  }

  lemma AllBack<T>(pushed: seq<Push<T>>, p: Push<T>)
    requires forall q <- pushed + [p] :: !q.front
    ensures !p.front && forall q <- pushed :: !q.front
  {
    assert p in pushed + [p];
    assert forall q <- pushed :: q in pushed + [p];
  }

  lemma PopConserves<T>(pushed: seq<Push<T>>, popped: seq<T>, items: seq<T>)
    requires Conserves(pushed, popped, items) && items != []
    ensures Conserves(pushed, popped + [items[0]], items[1..])
  {
    assert items == [items[0]] + items[1..];
    assert popped + items == popped + [items[0]] + items[1..];
  }

  /** A mutex is taken or released exactly when its thread begins or ceases to need it. */
  predicate MutexAfter(t: Thread, was: Option<Thread>, now: Option<Thread>, held: bool, holds: bool) {
    if holds == held then now == was else if holds then now == Some(t) && was.None? else now.None?
  }

  predicate QueueMutexMoves<T>(s: State<T>, t: Thread, r: State<T>)
    requires t < |s.threads| && t < |r.threads|
  {
    MutexAfter(t, s.queueMutex, r.queueMutex, HoldsQueue(s.threads[t]), HoldsQueue(r.threads[t]))
  }

  predicate BlockingMutexMoves<T>(s: State<T>, t: Thread, r: State<T>)
    requires t < |s.threads| && t < |r.threads|
  {
    MutexAfter(t, s.blockingMutex, r.blockingMutex, HoldsBlocking(s.threads[t]), HoldsBlocking(r.threads[t]))
  }

  lemma ProducerMutexes<T>(s: State<T>, t: Thread, b: Begin<T>, stop: bool)
    requires Enabled(s, t) && MayBegin(t, b) && t != CONSUMER && !ForConsumer(s.threads[t])
    ensures var r := Next(s, t, b, stop);
            r.Some? && |r.value.threads| == |s.threads|
            && QueueMutexMoves(s, t, r.value) && BlockingMutexMoves(s, t, r.value)
  {
  }

  lemma AskerMutexes<T>(s: State<T>, t: Thread, b: Begin<T>, stop: bool)
    requires Enabled(s, t) && MayBegin(t, b)
    requires var i := s.threads[t]; i.Idle? || i.LockToAsk? || i.Ask? || i.UnlockAsk? || i.Decide?
    ensures var r := Next(s, t, b, stop);
            r.Some? && |r.value.threads| == |s.threads|
            && QueueMutexMoves(s, t, r.value) && BlockingMutexMoves(s, t, r.value)
  {
  }

  lemma WaiterMutexes<T>(s: State<T>, t: Thread, b: Begin<T>, stop: bool)
    requires Enabled(s, t) && MayBegin(t, b)
    requires var i := s.threads[t]; i.LockToWait? || i.Wait? || i.Asleep? || i.Woken? || i.UnlockWait?
    ensures var r := Next(s, t, b, stop);
            r.Some? && |r.value.threads| == |s.threads|
            && QueueMutexMoves(s, t, r.value) && BlockingMutexMoves(s, t, r.value)
  {
  }

  lemma PopperMutexes<T>(s: State<T>, t: Thread, b: Begin<T>, stop: bool)
    requires Enabled(s, t) && MayBegin(t, b) && Next(s, t, b, stop).Some?
    requires s.threads[t].LockToPop? || s.threads[t].Pop? || s.threads[t].UnlockPop?
    ensures var r := Next(s, t, b, stop);
            |r.value.threads| == |s.threads|
            && QueueMutexMoves(s, t, r.value) && BlockingMutexMoves(s, t, r.value)
  {
  }

  lemma MutexesAfter<T>(s: State<T>, t: Thread, b: Begin<T>, stop: bool)
    requires Enabled(s, t) && MayBegin(t, b) && Next(s, t, b, stop).Some? && Roles(s)
    ensures var r := Next(s, t, b, stop).value;
            |r.threads| == |s.threads| && QueueMutexMoves(s, t, r) && BlockingMutexMoves(s, t, r)
  {
    var i := s.threads[t];
    if i.LockToPop? || i.Pop? || i.UnlockPop? {
      PopperMutexes(s, t, b, stop);
    } else if i.LockToWait? || i.Wait? || i.Asleep? || i.Woken? || i.UnlockWait? {
      WaiterMutexes(s, t, b, stop);
    } else if i.Idle? || ForConsumer(i) {
      AskerMutexes(s, t, b, stop);
    } else {
      ProducerMutexes(s, t, b, stop);
    }
  }

  lemma QueueLockedKeeps<T>(s: State<T>, t: Thread, b: Begin<T>, stop: bool)
    requires QueueLocked(s) && Roles(s) && Enabled(s, t) && MayBegin(t, b)
    ensures var r := Next(s, t, b, stop); r.Some? ==> QueueLocked(r.value)
  {
    if Next(s, t, b, stop).Some? {
      MutexesAfter(s, t, b, stop);
      OthersGoOn(s, t, b, stop);
    }
  }

  lemma BlockingLockedKeeps<T>(s: State<T>, t: Thread, b: Begin<T>, stop: bool)
    requires BlockingLocked(s) && Roles(s) && Enabled(s, t) && MayBegin(t, b)
    ensures var r := Next(s, t, b, stop); r.Some? ==> BlockingLocked(r.value)
  {
    if Next(s, t, b, stop).Some? {
      MutexesAfter(s, t, b, stop);
      OthersGoOn(s, t, b, stop);
    }
  }

  lemma RolesKeep<T>(s: State<T>, t: Thread, b: Begin<T>, stop: bool)
    requires Roles(s) && Enabled(s, t) && MayBegin(t, b)
    ensures var r := Next(s, t, b, stop); r.Some? ==> Roles(r.value)
  {
    if Next(s, t, b, stop).Some? {
      OthersGoOn(s, t, b, stop);
    }
  }

  /** A step changes what its thread does next, and may wake the consumer. */
  ghost predicate GoOn<T>(s: State<T>, t: Thread, r: State<T>) {
    |r.threads| == |s.threads|
    && forall u: Thread :: u < |s.threads| && u != t ==>
         r.threads[u] == s.threads[u] || (u == CONSUMER && r.threads[u].Woken? && s.threads[u].Asleep?)
  }

  lemma OthersGoOn<T>(s: State<T>, t: Thread, b: Begin<T>, stop: bool)
    requires Enabled(s, t) && MayBegin(t, b) && Next(s, t, b, stop).Some?
    ensures GoOn(s, t, Next(s, t, b, stop).value)
  {
    if ForConsumer(s.threads[t]) {
      OthersGoOnMeanwhile(s, t, b, stop);
    }
  }

  lemma OthersGoOnMeanwhile<T>(s: State<T>, t: Thread, b: Begin<T>, stop: bool)
    requires Enabled(s, t) && MayBegin(t, b) && Next(s, t, b, stop).Some? && ForConsumer(s.threads[t])
    ensures GoOn(s, t, Next(s, t, b, stop).value)
  {
  }

  /** What the consumer saw is still there when it pops: nobody else takes anything. */
  lemma PopSucceeds<T>(s: State<T>, t: Thread, b: Begin<T>, stop: bool)
    requires Roles(s) && StillThere(s) && Enabled(s, t) && MayBegin(t, b)
    ensures var r := Next(s, t, b, stop); r.Some? && StillThere(r.value)
  {
  }

  /** Only an emplacement and a pop change the queue. */
  lemma ContentsAfter<T>(s: State<T>, t: Thread, b: Begin<T>, stop: bool)
    requires Enabled(s, t) && MayBegin(t, b) && Next(s, t, b, stop).Some?
    ensures var r := Next(s, t, b, stop).value;
            match s.threads[t]
            case Emplace(push) => r.items == Pushed(s.items, push) && r.pushed == s.pushed + [push]
                                  && r.popped == s.popped
            case Pop =>
              s.items != [] && r.items == s.items[1..] && r.pushed == s.pushed && r.popped == s.popped + [s.items[0]]
            case _ => r.items == s.items && r.pushed == s.pushed && r.popped == s.popped
  {
  }

  lemma ConservedKeeps<T>(s: State<T>, t: Thread, b: Begin<T>, stop: bool, r: State<T>)
    requires Conserves(s.pushed, s.popped, s.items) && Enabled(s, t) && MayBegin(t, b) && Next(s, t, b, stop) == Some(r)
    ensures Conserves(r.pushed, r.popped, r.items)
  {
    ContentsAfter(s, t, b, stop);
    match s.threads[t]
    case Emplace(push) => PushConserves(s.pushed, s.popped, s.items, push);
    case Pop => PopConserves(s.pushed, s.popped, s.items);
    case _ =>
  }

  lemma {:induction false} RunKeeps<T>(choices: seq<Choice<T>>, states: seq<State<T>>, n: nat)
    requires Run(choices, states) && n <= |choices|
    ensures Inv(states[n])
  {
    if n > 0 {
      RunKeeps(choices, states, n - 1);
      assert Follows(choices, states, n - 1);
      var s, c := states[n - 1], choices[n - 1];
      QueueLockedKeeps(s, c.thread, c.begin, c.stop);
      BlockingLockedKeeps(s, c.thread, c.begin, c.stop);
      RolesKeep(s, c.thread, c.begin, c.stop);
      PopSucceeds(s, c.thread, c.begin, c.stop);
      ConservedKeeps(s, c.thread, c.begin, c.stop, states[n]);
    }
  }

  // ---------------------------------------------------------------------------------------
  // What holds in every reachable state
  // ---------------------------------------------------------------------------------------

  /** No step of any thread goes wrong; in particular, no pop finds the queue empty. */
  lemma NoPopOfEmpty<T>(choices: seq<Choice<T>>, states: seq<State<T>>, n: nat, t: Thread, b: Begin<T>, stop: bool)
    requires Run(choices, states) && n <= |choices| && Enabled(states[n], t) && MayBegin(t, b)
    ensures Next(states[n], t, b, stop).Some?
  {
    RunKeeps(choices, states, n);
    PopSucceeds(states[n], t, b, stop);
  }

  /** What was pushed is what was popped and what is still in the queue, in order unless something was pushed to the
      front. */
  lemma NothingIsLost<T>(choices: seq<Choice<T>>, states: seq<State<T>>, n: nat)
    requires Run(choices, states) && n <= |choices|
    ensures Conserves(states[n].pushed, states[n].popped, states[n].items)
  {
    RunKeeps(choices, states, n);
  }

  /** The mutexes are taken in one order: who waits for the queue's mutex holds none, and who holds the blocking one
      waits for none. */
  lemma OneLockOrder<T>(choices: seq<Choice<T>>, states: seq<State<T>>, n: nat, t: Thread)
    requires Run(choices, states) && n <= |choices| && t < |states[n].threads|
    ensures var s := states[n];
            (WantsQueue(s.threads[t]) ==> s.queueMutex != Some(t) && s.blockingMutex != Some(t))
            && (s.blockingMutex == Some(t) ==> !WantsQueue(s.threads[t]) && !WantsBlocking(s.threads[t]))
  {
    RunKeeps(choices, states, n);
  }

  /** As long as a thread is neither idle nor asleep, some such thread can go on. */
  lemma NoDeadlock<T>(choices: seq<Choice<T>>, states: seq<State<T>>, n: nat, busy: Thread) returns (t: Thread)
    requires Run(choices, states) && n <= |choices| && busy < |states[n].threads|
    requires !states[n].threads[busy].Idle? && !states[n].threads[busy].Asleep?
    ensures Enabled(states[n], t) && !states[n].threads[t].Idle? && !states[n].threads[t].Asleep?
  {
    RunKeeps(choices, states, n);
    var s := states[n];
    if s.blockingMutex.Some? {
      t := s.blockingMutex.value;
    } else if s.queueMutex.Some? {
      t := s.queueMutex.value;
    } else {
      t := busy;
    }
  }

  // ---------------------------------------------------------------------------------------
  // What each operation comes to
  // ---------------------------------------------------------------------------------------

  /** A step of a thread at some point of a run. */
  ghost predicate Steps<T>(choices: seq<Choice<T>>, states: seq<State<T>>, k: nat, t: Thread) {
    k < |choices| < |states| && choices[k].thread == t && t < |states[k].threads|
  }

  /** An item pushed to the front is the first, one pushed to the back the last; a pop takes the first one; and nothing
      else changes the queue. */
  lemma QueueChanges<T>(choices: seq<Choice<T>>, states: seq<State<T>>, n: nat, t: Thread)
    requires Run(choices, states) && Steps(choices, states, n, t)
    ensures var was, now := states[n], states[n + 1];
            if was.threads[t].Emplace? then
              var p := was.threads[t].push;
              now.items == (if p.front then [p.item] + was.items else was.items + [p.item])
              && now.pushed == was.pushed + [p] && now.popped == was.popped
            else if was.threads[t].Pop? then
              exists x :: was.items == [x] + now.items && now.popped == was.popped + [x] && now.pushed == was.pushed
            else now.items == was.items && now.pushed == was.pushed && now.popped == was.popped
  {
    assert Follows(choices, states, n);
    var s, c := states[n], choices[n];
    ContentsAfter(s, c.thread, c.begin, c.stop);
    if s.threads[t].Pop? {
      assert s.items == [s.items[0]] + s.items[1..];
    }
  }

  /** After an item was put in, its thread notifies before it is idle again. */
  lemma PushThenNotify<T>(choices: seq<Choice<T>>, states: seq<State<T>>, i: nat, j: nat, t: Thread)
    requires Run(choices, states) && i < j <= |choices| && Steps(choices, states, i, t) && states[i].threads[t].Emplace?
    requires t < |states[j].threads| && states[j].threads[t].Idle?
    ensures exists k :: i < k < j && Steps(choices, states, k, t) && states[k].threads[t].Notify?
  {
    if forall k :: i < k < j && Steps(choices, states, k, t) ==> !states[k].threads[t].Notify? {
      BeforeNotifying(choices, states, i, j, t);
    }
  }

  lemma {:induction false} BeforeNotifying<T>(choices: seq<Choice<T>>, states: seq<State<T>>, i: nat, n: nat, t: Thread)
    requires Run(choices, states) && i < n <= |choices| && Steps(choices, states, i, t) && states[i].threads[t].Emplace?
    requires forall k :: i < k < n && Steps(choices, states, k, t) ==> !states[k].threads[t].Notify?
    ensures t < |states[n].threads| && (states[n].threads[t].LockToNotify? || states[n].threads[t].Notify?)
  {
    RunKeeps(choices, states, n - 1);
    assert Follows(choices, states, n - 1);
    var s, c := states[n - 1], choices[n - 1];
    OthersGoOn(s, c.thread, c.begin, c.stop);
    if n - 1 > i {
      BeforeNotifying(choices, states, i, n - 1, t);
      assert c.thread == t ==> Steps(choices, states, n - 1, t);
    }
  }

  /** A notification wakes the consumer if it sleeps. */
  lemma NotifyWakes<T>(choices: seq<Choice<T>>, states: seq<State<T>>, k: nat, t: Thread)
    requires Run(choices, states) && Steps(choices, states, k, t) && states[k].threads[t].Notify?
    ensures CONSUMER < |states[k + 1].threads| && !states[k + 1].threads[CONSUMER].Asleep?
  {
    RunKeeps(choices, states, k);
    assert Follows(choices, states, k);
  }

  predicate InWait<T>(s: Step<T>) {
    s == LockToAsk(ForWait) || s == Ask(ForWait) || (s.UnlockAsk? && s.purpose == ForWait)
    || (s.Decide? && s.purpose == ForWait) || s.LockToWait? || s.Wait? || s.Asleep? || s.Woken? || s.UnlockWait?
  }

  /** The consumer comes back from waiting only when there is something in the queue. */
  lemma WaitReturnsOnItems<T>(choices: seq<Choice<T>>, states: seq<State<T>>, n: nat)
    requires Run(choices, states) && n < |choices|
    requires CONSUMER < |states[n].threads| && InWait(states[n].threads[CONSUMER])
    ensures CONSUMER < |states[n + 1].threads|
    ensures InWait(states[n + 1].threads[CONSUMER])
            || (states[n + 1].threads[CONSUMER].Idle? && states[n].items != [])
  {
    RunKeeps(choices, states, n);
    assert Follows(choices, states, n);
    var s, c := states[n], choices[n];
    OthersGoOn(s, c.thread, c.begin, c.stop);
  }

  /** And it does come back then: a consumer that finds something in the queue does not go to sleep before that. */
  lemma WaitEndsOnItems<T>(choices: seq<Choice<T>>, states: seq<State<T>>, i: nat, j: nat)
    requires Run(choices, states) && i < j <= |choices| && Steps(choices, states, i, CONSUMER)
    requires states[i].threads[CONSUMER] == Ask(ForWait) && states[i].items != []
    requires CONSUMER < |states[j].threads| && states[j].threads[CONSUMER].LockToWait?
    ensures exists k :: i < k < j && CONSUMER < |states[k].threads| && states[k].threads[CONSUMER].Idle?
  {
    if forall k :: i < k < j && CONSUMER < |states[k].threads| ==> !states[k].threads[CONSUMER].Idle? {
      BeforeReturning(choices, states, i, j);
    }
  }

  lemma {:induction false} BeforeReturning<T>(choices: seq<Choice<T>>, states: seq<State<T>>, i: nat, n: nat)
    requires Run(choices, states) && i < n <= |choices| && Steps(choices, states, i, CONSUMER)
    requires states[i].threads[CONSUMER] == Ask(ForWait) && states[i].items != []
    requires forall k :: i < k < n && CONSUMER < |states[k].threads| ==> !states[k].threads[CONSUMER].Idle?
    ensures CONSUMER < |states[n].threads|
    ensures var s := states[n].threads[CONSUMER];
            s == UnlockAsk(ForWait, false) || s == Decide(ForWait, false) || s.Idle?
  {
    RunKeeps(choices, states, n - 1);
    assert Follows(choices, states, n - 1);
    var s, c := states[n - 1], choices[n - 1];
    OthersGoOn(s, c.thread, c.begin, c.stop);
    if n - 1 > i {
      BeforeReturning(choices, states, i, n - 1);
    }
  }

  /** An update that finds something in the queue pops before the consumer is idle again. */
  lemma UpdatePops<T>(choices: seq<Choice<T>>, states: seq<State<T>>, i: nat, j: nat)
    requires Run(choices, states) && i < j <= |choices| && Steps(choices, states, i, CONSUMER)
    requires states[i].threads[CONSUMER] == Ask(ForPop) && states[i].items != []
    requires CONSUMER < |states[j].threads| && states[j].threads[CONSUMER].Idle?
    ensures exists k :: i < k < j && Steps(choices, states, k, CONSUMER) && states[k].threads[CONSUMER].Pop?
  {
    if forall k :: i < k < j && Steps(choices, states, k, CONSUMER) ==> !states[k].threads[CONSUMER].Pop? {
      BeforePopping(choices, states, i, j);
    }
  }

  lemma {:induction false} BeforePopping<T>(choices: seq<Choice<T>>, states: seq<State<T>>, i: nat, n: nat)
    requires Run(choices, states) && i < n <= |choices| && Steps(choices, states, i, CONSUMER)
    requires states[i].threads[CONSUMER] == Ask(ForPop) && states[i].items != []
    requires forall k :: i < k < n && Steps(choices, states, k, CONSUMER) ==> !states[k].threads[CONSUMER].Pop?
    ensures CONSUMER < |states[n].threads|
    ensures var s := states[n].threads[CONSUMER];
            s == UnlockAsk(ForPop, false) || s == Decide(ForPop, false) || s.LockToPop? || s.Pop?
  {
    RunKeeps(choices, states, n - 1);
    assert Follows(choices, states, n - 1);
    var s, c := states[n - 1], choices[n - 1];
    OthersGoOn(s, c.thread, c.begin, c.stop);
    if n - 1 > i {
      BeforePopping(choices, states, i, n - 1);
      assert c.thread == CONSUMER ==> Steps(choices, states, n - 1, CONSUMER);
    }
  }
}
