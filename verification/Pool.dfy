/**
 The connection pool as a concurrent protocol.

 `idle` is the queue guarded by the mutex. Every critical section of `acquire`
 and `release` is one atomic action; `notify_one` is an action of its own because
 it is issued after the lock has been dropped. A thread is one request handler:
 it acquires a connection once, or twice when it is `CreateVehicle`, which calls
 `GetVehicle` while it still holds its own connection. A handler may give up at
 any point where it is running (a rejected request, a database exception).
 */
module Pool {

  type Conn = nat

  /** A PgConn object. One that was moved from holds nothing and releases nothing. */
  datatype Handle = Owning(conn: Conn) | MovedFrom

  datatype Kind = OneConnection | CreateVehicle

  datatype Pc =
    | Working           // running handler code
    | Contending        // about to lock the mutex and test the queue, newly arrived or woken
    | Asleep            // blocked in the condition variable
    | Popped(got: Conn) // took a connection, not yet wrapped in a PgConn
    | Closing           // unwinding: destroying its PgConn objects, newest first
    | Returning(back: Conn) // inside release, before the push
    | Notifying         // pushed and unlocked, notify_one still to come
    | Done

  /** `left`: acquires the handler may still make. `moves`: how often it may still move a PgConn. */
  datatype Thread = Thread(kind: Kind, left: nat, moves: nat, handles: seq<Handle>, pc: Pc)

  datatype State = State(idle: seq<Conn>, threads: seq<Thread>)

  datatype Action =
    | Call(t: nat) | Pop(t: nat) | Sleep(t: nat) | SpuriousWake(t: nat) | Wrap(t: nat) | Move(t: nat)
    | Finish(t: nat) | Close(t: nat) | Push(t: nat) | Notify(t: nat, woken: nat) | NotifyNobody(t: nat) | Exit(t: nat)

  function Acquires(k: Kind): nat { if k.CreateVehicle? then 2 else 1 }

  predicate IsInitialThread(th: Thread) {
    th.left == Acquires(th.kind) && th.handles == [] && th.pc == Working
  }

  /** The connections created at construction. */
  function Created(n: nat): seq<Conn> { seq(n, i => i) }

  predicate IsInitial(s: State, n: nat) {
    s.idle == Created(n) && forall t :: 0 <= t < |s.threads| ==> IsInitialThread(s.threads[t])
  }

  predicate Enabled(s: State, a: Action) {
    && a.t < |s.threads|
    && var th := s.threads[a.t];
       match a
       case Call(_) => th.pc.Working? && th.left > 0
       case Pop(_) => th.pc.Contending? && s.idle != []
       case Sleep(_) => th.pc.Contending? && s.idle == []
       case SpuriousWake(_) => th.pc.Asleep?
       case Wrap(_) => th.pc.Popped?
       case Move(_) => th.pc.Working? && th.moves > 0 && th.handles != [] && th.handles[|th.handles| - 1].Owning?
       case Finish(_) => th.pc.Working?
       case Close(_) => th.pc.Closing? && th.handles != []
       case Push(_) => th.pc.Returning?
       case Notify(_, w) => th.pc.Notifying? && w < |s.threads| && s.threads[w].pc.Asleep?
       case NotifyNobody(_) => th.pc.Notifying? && forall w :: 0 <= w < |s.threads| ==> !s.threads[w].pc.Asleep?
       case Exit(_) => th.pc.Closing? && th.handles == []
  }

  /** What action `a` makes of the thread that takes it. */
  function Step(s: State, a: Action): Thread
    requires Enabled(s, a)
  {
    var th := s.threads[a.t];
    match a
    case Call(_) => th.(pc := Contending, left := th.left - 1)
    case Pop(_) => th.(pc := Popped(s.idle[0]))
    case Sleep(_) => th.(pc := Asleep)
    case SpuriousWake(_) => th.(pc := Contending)
    case Wrap(_) => th.(pc := Working, handles := th.handles + [Owning(th.pc.got)])
    case Move(_) =>
      var last := |th.handles| - 1;
      th.(moves := th.moves - 1, handles := th.handles[last := MovedFrom] + [th.handles[last]])
    case Finish(_) => th.(pc := Closing)
    case Close(_) =>
      var last := |th.handles| - 1;
      th.(handles := th.handles[..last],
          pc := match th.handles[last] case Owning(c) => Returning(c) case MovedFrom => Closing)
    case Push(_) => th.(pc := Notifying)
    case Notify(_, _) => th.(pc := Closing)
    case NotifyNobody(_) => th.(pc := Closing)
    case Exit(_) => th.(pc := Done)
  }

  function Apply(s: State, a: Action): State
    requires Enabled(s, a)
  {
    var moved := s.threads[a.t := Step(s, a)];
    match a
    case Pop(_) => State(s.idle[1..], moved)
    case Push(t) => State(s.idle + [s.threads[t].pc.back], moved)
    case Notify(_, w) => State(s.idle, moved[w := moved[w].(pc := Contending)])
    case _ => State(s.idle, moved)
  }

  predicate Runs(s: State, acts: seq<Action>)
    decreases |acts|
  {
    acts == [] || (Enabled(s, acts[0]) && Runs(Apply(s, acts[0]), acts[1..]))
  }

  function After(s: State, acts: seq<Action>): State
    requires Runs(s, acts)
    decreases |acts|
  {
    if acts == [] then s else After(Apply(s, acts[0]), acts[1..])
  }

  predicate AllDone(s: State) { forall t :: 0 <= t < |s.threads| ==> s.threads[t].pc.Done? }

  /** Nothing but a spurious wake-up can happen. */
  ghost predicate Quiescent(s: State) { forall a :: Enabled(s, a) ==> a.SpuriousWake? }

  ghost predicate Stuck(s: State) { Quiescent(s) && !AllDone(s) }

  // ------------------------------------------------------------------ counting over threads

  function Total(ts: seq<Thread>, f: Thread -> nat): nat {
    if ts == [] then 0 else f(ts[0]) + Total(ts[1..], f)
  }

  lemma TotalUpdate(ts: seq<Thread>, f: Thread -> nat, i: nat, th: Thread)
    requires i < |ts|
    ensures Total(ts[i := th], f) + f(ts[i]) == Total(ts, f) + f(th)
  {
    if i == 0 {
      assert ts[0 := th][1..] == ts[1..];
    } else {
      assert ts[i := th][1..] == ts[1..][i - 1 := th];
      TotalUpdate(ts[1..], f, i - 1, th);
    }
  }

  lemma TotalMember(ts: seq<Thread>, f: Thread -> nat, i: nat)
    requires i < |ts|
    ensures f(ts[i]) <= Total(ts, f)
  {
    if i > 0 { TotalMember(ts[1..], f, i - 1); }
  }

  lemma TotalLe(ts: seq<Thread>, f: Thread -> nat, g: Thread -> nat)
    requires forall i :: 0 <= i < |ts| ==> f(ts[i]) <= g(ts[i])
    ensures Total(ts, f) <= Total(ts, g)
  {
  }

  lemma TotalZero(ts: seq<Thread>, f: Thread -> nat)
    requires forall i :: 0 <= i < |ts| ==> f(ts[i]) == 0
    ensures Total(ts, f) == 0
  {
  }

  function IsCreate(th: Thread): nat { if th.kind.CreateVehicle? then 1 else 0 }
  function IsAsleep(th: Thread): nat { if th.pc.Asleep? then 1 else 0 }
  function IsComing(th: Thread): nat { if th.pc.Contending? || th.pc.Notifying? then 1 else 0 }

  /** A CreateVehicle call between its first acquire and its end. */
  function IsCreating(th: Thread): nat { if th.kind.CreateVehicle? && !th.pc.Done? && th.left < 2 then 1 else 0 }

  function Creates(s: State): nat { Total(s.threads, IsCreate) }

  /** CreateVehicle calls in flight. */
  function Creating(s: State): nat { Total(s.threads, IsCreating) }

  function SumHandles(hs: seq<Handle>, f: Handle -> nat): nat {
    if hs == [] then 0 else SumHandles(hs[..|hs| - 1], f) + f(hs[|hs| - 1])
  }

  function Owns(h: Handle): nat { if h.Owning? then 1 else 0 }
  function OwnsConn(c: Conn): Handle -> nat { (h: Handle) => if h == Owning(c) then 1 else 0 }

  /** Connections a thread answers for: wrapped ones and the one in transit. */
  function Held(th: Thread): nat {
    SumHandles(th.handles, Owns) + if th.pc.Popped? || th.pc.Returning? then 1 else 0
  }

  /** How often a thread answers for connection `c`. */
  function Holding(c: Conn): Thread -> nat {
    (th: Thread) => SumHandles(th.handles, OwnsConn(c)) + if th.pc == Popped(c) || th.pc == Returning(c) then 1 else 0
  }

  /** In how many places connection `c` is. */
  function Places(s: State, c: Conn): nat {
    multiset(s.idle)[c] + Total(s.threads, Holding(c))
  }

  // ------------------------------------------------------------------ the invariant

  /** A thread never answers for more connections than its kind acquires, and needs one more to wait for one. */
  predicate ThreadOk(th: Thread) {
    && Held(th) + th.left + (if th.pc.Contending? || th.pc.Asleep? then 1 else 0) <= Acquires(th.kind)
    && (th.pc.Done? ==> th.handles == [])
  }

  /** No idle connection is left beside a sleeper unless somebody awake is on the way to it. */
  predicate NobodyForgotten(s: State) {
    Total(s.threads, IsAsleep) > 0 ==> |s.idle| <= Total(s.threads, IsComing)
  }

  ghost predicate Inv(s: State, n: nat) {
    && (forall c: Conn :: Places(s, c) == if c < n then 1 else 0)
    && |s.idle| + Total(s.threads, Held) == n
    && (forall t :: 0 <= t < |s.threads| ==> ThreadOk(s.threads[t]))
    && NobodyForgotten(s)
  }

  lemma {:induction false} OncePerConn(n: nat, c: nat)
    ensures multiset(Created(n))[c] == if c < n then 1 else 0
  {
    if n > 0 {
      assert Created(n) == Created(n - 1) + [n - 1];
      OncePerConn(n - 1, c);
    }
  }

  lemma InitialInv(s: State, n: nat)
    requires IsInitial(s, n)
    ensures Inv(s, n)
  {
    forall c: Conn
      ensures Places(s, c) == if c < n then 1 else 0
    {
      OncePerConn(n, c);
      TotalZero(s.threads, Holding(c));
    }
    TotalZero(s.threads, Held);
    TotalZero(s.threads, IsAsleep);
  }

  /** The handles after a step, weighed by any function. */
  lemma StepHandles(s: State, a: Action, f: Handle -> nat)
    requires Enabled(s, a)
    ensures var before := SumHandles(s.threads[a.t].handles, f);
            var after := SumHandles(Step(s, a).handles, f);
            match a
            case Wrap(_) => after == before + f(Owning(s.threads[a.t].pc.got))
            case Move(_) => after == before + f(MovedFrom)
            case Close(_) => before == after + f(s.threads[a.t].handles[|s.threads[a.t].handles| - 1])
            case _ => after == before
  {
  }

  lemma StepHeld(s: State, a: Action)
    requires Enabled(s, a)
    ensures Held(Step(s, a)) + (if a.Push? then 1 else 0) == Held(s.threads[a.t]) + if a.Pop? then 1 else 0
    ensures ThreadOk(s.threads[a.t]) ==> ThreadOk(Step(s, a))
  {
    StepHandles(s, a, Owns);
  }

  lemma StepHolding(s: State, a: Action, c: Conn)
    requires Enabled(s, a)
    ensures Holding(c)(Step(s, a)) + (if a.Push? && s.threads[a.t].pc.back == c then 1 else 0)
         == Holding(c)(s.threads[a.t]) + if a.Pop? && s.idle[0] == c then 1 else 0
  {
    StepHandles(s, a, OwnsConn(c));
  }

  lemma ApplyTotals(s: State, a: Action, f: Thread -> nat)
    requires Enabled(s, a)
    ensures !a.Notify? ==> Total(Apply(s, a).threads, f) + f(s.threads[a.t]) == Total(s.threads, f) + f(Step(s, a))
    ensures a.Notify? ==>
      Total(Apply(s, a).threads, f) + f(s.threads[a.t]) + f(s.threads[a.woken])
      == Total(s.threads, f) + f(Step(s, a)) + f(s.threads[a.woken].(pc := Contending))
  {
    TotalUpdate(s.threads, f, a.t, Step(s, a));
    if a.Notify? {
      var moved := s.threads[a.t := Step(s, a)];
      TotalUpdate(moved, f, a.woken, moved[a.woken].(pc := Contending));
    }
  }

  lemma PlacesStep(s: State, a: Action, c: Conn)
    requires Enabled(s, a)
    ensures Places(Apply(s, a), c) == Places(s, c)
  {
    StepHolding(s, a, c);
    ApplyTotals(s, a, Holding(c));
    if a.Pop? {
      assert s.idle == [s.idle[0]] + s.idle[1..];
    }
  }

  lemma NobodyForgottenStep(s: State, a: Action)
    requires Enabled(s, a) && NobodyForgotten(s)
    ensures NobodyForgotten(Apply(s, a))
  {
    ApplyTotals(s, a, IsAsleep);
    ApplyTotals(s, a, IsComing);
    if a.NotifyNobody? { TotalZero(s.threads, IsAsleep); }
    if a.Pop? { TotalMember(s.threads, IsComing, a.t); }
  }

  lemma InvStep(s: State, a: Action, n: nat)
    requires Inv(s, n) && Enabled(s, a)
    ensures Inv(Apply(s, a), n)
  {
    forall c: Conn
      ensures Places(Apply(s, a), c) == if c < n then 1 else 0
    {
      PlacesStep(s, a, c);
    }
    StepHeld(s, a);
    ApplyTotals(s, a, Held);
    NobodyForgottenStep(s, a);
    ThreadsOkStep(s, a);
  }

  lemma ThreadsOkStep(s: State, a: Action)
    requires Enabled(s, a)
    requires forall t :: 0 <= t < |s.threads| ==> ThreadOk(s.threads[t])
    ensures forall t :: 0 <= t < |Apply(s, a).threads| ==> ThreadOk(Apply(s, a).threads[t])
  {
    StepHeld(s, a);
  }

  lemma {:induction false} InvRun(s: State, acts: seq<Action>, n: nat)
    requires Inv(s, n) && Runs(s, acts)
    ensures Inv(After(s, acts), n)
    ensures Creates(After(s, acts)) == Creates(s) && |After(s, acts).threads| == |s.threads|
    decreases |acts|
  {
    if acts != [] {
      InvStep(s, acts[0], n);
      ApplyTotals(s, acts[0], IsCreate);
      InvRun(Apply(s, acts[0]), acts[1..], n);
    }
  }

  // ------------------------------------------------------------------ safety over every run

  /** Every connection made at construction is, at all times, in exactly one place. */
  lemma Conservation(s0: State, acts: seq<Action>, n: nat)
    requires IsInitial(s0, n) && Runs(s0, acts)
    ensures forall c: Conn :: Places(After(s0, acts), c) == if c < n then 1 else 0
    ensures |After(s0, acts).idle| + Total(After(s0, acts).threads, Held) == n
  {
    InitialInv(s0, n);
    InvRun(s0, acts, n);
  }

  /** No lost wake-up: a sleeper is never left beside an idle connection that nobody is coming for. */
  lemma NoLostWakeup(s0: State, acts: seq<Action>, n: nat)
    requires IsInitial(s0, n) && Runs(s0, acts)
    requires exists t :: 0 <= t < |After(s0, acts).threads| && After(s0, acts).threads[t].pc.Asleep?
    ensures |After(s0, acts).idle| <= Total(After(s0, acts).threads, IsComing)
  {
    InitialInv(s0, n);
    InvRun(s0, acts, n);
    var s := After(s0, acts);
    var t :| 0 <= t < |s.threads| && s.threads[t].pc.Asleep?;
    TotalMember(s.threads, IsAsleep, t);
  }

  function Count(acts: seq<Action>, p: Action -> bool): nat {
    if acts == [] then 0 else (if p(acts[0]) then 1 else 0) + Count(acts[1..], p)
  }

  /** Every connection a thread popped it still answers for, or pushed back exactly once. */
  lemma {:induction false} AcquiresMatchReleases(s: State, acts: seq<Action>, t: nat)
    requires Runs(s, acts) && t < |s.threads|
    ensures |After(s, acts).threads| == |s.threads|
    ensures Count(acts, a => a == Pop(t)) + Held(s.threads[t])
         == Count(acts, a => a == Push(t)) + Held(After(s, acts).threads[t])
    decreases |acts|
  {
    if acts != [] {
      StepHeld(s, acts[0]);
      AcquiresMatchReleases(Apply(s, acts[0]), acts[1..], t);
    }
  }

  // ------------------------------------------------------------------ termination

  function HandleWeight(h: Handle): nat { if h.Owning? then 4 else 1 }

  /** Steps a thread can still cost; a notify pays for the thread it wakes. */
  function Weight(th: Thread): nat {
    SumHandles(th.handles, HandleWeight) + 7 * th.left + 2 * th.moves +
    (match th.pc
     case Working => 2
     case Contending => 8
     case Asleep => 7
     case Popped(_) => 7
     case Closing => 1
     case Returning(_) => 4
     case Notifying => 3
     case Done => 0)
  }

  lemma WeightStep(s: State, a: Action)
    requires Enabled(s, a)
    ensures a.SpuriousWake? ==> Weight(Step(s, a)) == Weight(s.threads[a.t]) + 1
    ensures !a.SpuriousWake? ==> Weight(Step(s, a)) < Weight(s.threads[a.t])
    ensures a.Notify? ==> Weight(Step(s, a)) + 2 <= Weight(s.threads[a.t])
  {
    StepHandles(s, a, HandleWeight);
  }

  function Fuel(s: State): nat { Total(s.threads, Weight) }

  /** A run has at most Fuel steps, plus two for each spurious wake-up in it. */
  lemma {:induction false} RunsAreBounded(s: State, acts: seq<Action>)
    requires Runs(s, acts)
    ensures |acts| + Fuel(After(s, acts)) <= Fuel(s) + 2 * Count(acts, (a: Action) => a.SpuriousWake?)
    decreases |acts|
  {
    if acts != [] {
      WeightStep(s, acts[0]);
      ApplyTotals(s, acts[0], Weight);
      RunsAreBounded(Apply(s, acts[0]), acts[1..]);
    }
  }

  // ------------------------------------------------------------------ progress and deadlock

  /** A thread that has neither finished nor fallen asleep has something to do. */
  lemma AwakeThreadCanAct(s: State, t: nat) returns (a: Action)
    requires t < |s.threads| && !s.threads[t].pc.Done? && !s.threads[t].pc.Asleep?
    ensures Enabled(s, a) && !a.SpuriousWake?
  {
    match s.threads[t].pc
    case Working => a := Finish(t);
    case Contending => a := if s.idle != [] then Pop(t) else Sleep(t);
    case Popped(_) => a := Wrap(t);
    case Closing => a := if s.threads[t].handles != [] then Close(t) else Exit(t);
    case Returning(_) => a := Push(t);
    case Notifying =>
      a := NotifyNobody(t);
      if w: nat :| w < |s.threads| && s.threads[w].pc.Asleep? { a := Notify(t, w); }
  }

  /** A quiescent state has only finished and sleeping threads. */
  lemma QuiescentThreads(s: State)
    requires Quiescent(s)
    ensures forall t :: 0 <= t < |s.threads| ==> s.threads[t].pc.Done? || s.threads[t].pc.Asleep?
  {
    forall t | 0 <= t < |s.threads|
      ensures s.threads[t].pc.Done? || s.threads[t].pc.Asleep?
    {
      if !s.threads[t].pc.Done? && !s.threads[t].pc.Asleep? { var a := AwakeThreadCanAct(s, t); }
    }
  }

  /** Connections held by a CreateVehicle call that sleeps. */
  function HeldAsleep(th: Thread): nat { if th.kind.CreateVehicle? && th.pc.Asleep? then Held(th) else 0 }

  /** A stuck state is one in which sleeping CreateVehicle calls hold all n connections and nobody else runs. */
  lemma StuckExactly(s: State, n: nat)
    requires Inv(s, n)
    ensures Stuck(s) <==>
              && !AllDone(s) && s.idle == [] && Total(s.threads, HeldAsleep) == n
              && forall t :: 0 <= t < |s.threads| ==> s.threads[t].pc.Done? || s.threads[t].pc.Asleep?
  {
    if Quiescent(s) && !AllDone(s) {
      QuiescentThreads(s);
      var t :| 0 <= t < |s.threads| && !s.threads[t].pc.Done?;
      TotalMember(s.threads, IsAsleep, t);
      TotalZero(s.threads, IsComing);
      TotalSame(s.threads, Held, HeldAsleep);
    }
  }

  lemma {:induction false} TotalSame(ts: seq<Thread>, f: Thread -> nat, g: Thread -> nat)
    requires forall i :: 0 <= i < |ts| ==> f(ts[i]) == g(ts[i])
    ensures Total(ts, f) == Total(ts, g)
  {
    if ts != [] { TotalSame(ts[1..], f, g); }
  }

  /** With fewer CreateVehicle calls in flight than connections, whatever ran before, somebody can act. */
  lemma NotStuckBelowCapacity(s: State, n: nat)
    requires Inv(s, n) && Creating(s) < n
    ensures !Stuck(s)
  {
    StuckExactly(s, n);
    TotalLe(s.threads, HeldAsleep, IsCreating);
  }

  lemma InFlightAreCreates(s: State)
    ensures Creating(s) <= Creates(s)
  {
    TotalLe(s.threads, IsCreating, IsCreate);
  }

  /** Below capacity a run that cannot go on has finished every handler and returned every connection. */
  lemma MaximalRunsReturnEverything(s0: State, acts: seq<Action>, n: nat)
    requires IsInitial(s0, n) && Runs(s0, acts)
    requires Quiescent(After(s0, acts)) && Creating(After(s0, acts)) < n
    ensures AllDone(After(s0, acts))
    ensures multiset(After(s0, acts).idle) == multiset(Created(n))
  {
    InitialInv(s0, n);
    InvRun(s0, acts, n);
    var s := After(s0, acts);
    NotStuckBelowCapacity(s, n);
    forall c: Conn
      ensures multiset(s.idle)[c] == multiset(Created(n))[c]
    {
      TotalZero(s.threads, Holding(c));
      OncePerConn(n, c);
      assert Places(s, c) == if c < n then 1 else 0;
    }
  }

  lemma {:induction false} RunsConcat(s: State, a: seq<Action>, b: seq<Action>)
    requires Runs(s, a) && Runs(After(s, a), b)
    ensures Runs(s, a + b) && After(s, a + b) == After(After(s, a), b)
    decreases |a|
  {
    if a == [] {
      assert a + b == b;
    } else {
      assert (a + b)[1..] == a[1..] + b;
      RunsConcat(Apply(s, a[0]), a[1..], b);
    }
  }

  /** Every initial thread from `i` on walks up to its next acquire; creators take a connection first. */
  lemma {:induction false} WalkUp(s: State, i: nat) returns (acts: seq<Action>)
    requires i <= |s.threads|
    requires forall t :: 0 <= t < i ==> s.threads[t].pc.Contending?
    requires forall t :: i <= t < |s.threads| ==> IsInitialThread(s.threads[t])
    requires |s.idle| <= Total(s.threads[i..], IsCreate)
    ensures Runs(s, acts)
    ensures After(s, acts).idle == [] && |After(s, acts).threads| == |s.threads|
    ensures forall t :: 0 <= t < |s.threads| ==> After(s, acts).threads[t].pc.Contending?
    decreases |s.threads| - i
  {
    if i == |s.threads| {
      acts := [];
    } else {
      var first := [Call(i)];
      if s.threads[i].kind.CreateVehicle? && s.idle != [] {
        first := [Call(i), Pop(i), Wrap(i), Call(i)];
        var s1 := Apply(s, Call(i));
        var s2 := Apply(s1, Pop(i));
        var s3 := Apply(s2, Wrap(i));
        var s4 := Apply(s3, Call(i));
        assert first[1..] == [Pop(i), Wrap(i), Call(i)] && first[1..][1..] == [Wrap(i), Call(i)];
        assert first[1..][1..][1..] == [Call(i)] && first[1..][1..][1..][1..] == [];
        assert Runs(s4, []) && Runs(s3, [Call(i)]) && Runs(s2, [Wrap(i), Call(i)]);
        assert Runs(s1, [Pop(i), Wrap(i), Call(i)]);
        assert Runs(s, first);
        assert After(s4, []) == s4 && After(s3, [Call(i)]) == s4 && After(s2, [Wrap(i), Call(i)]) == s4;
        assert After(s1, [Pop(i), Wrap(i), Call(i)]) == s4;
        assert After(s, first) == s4;
      } else {
        assert first[1..] == [];
        var s1 := Apply(s, Call(i));
        assert Runs(s1, []) && After(s1, []) == s1;
        assert Runs(s, first) && After(s, first) == s1;
      }
      var mid := After(s, first);
      assert mid.threads[i + 1..] == s.threads[i..][1..];
      var rest := WalkUp(mid, i + 1);
      RunsConcat(s, first, rest);
      acts := first + rest;
    }
  }

  lemma {:induction false} FallAsleep(s: State, i: nat) returns (acts: seq<Action>)
    requires i <= |s.threads| && s.idle == []
    requires forall t :: 0 <= t < i ==> s.threads[t].pc.Asleep?
    requires forall t :: i <= t < |s.threads| ==> s.threads[t].pc.Contending?
    ensures Runs(s, acts) && |After(s, acts).threads| == |s.threads|
    ensures forall t :: 0 <= t < |s.threads| ==> After(s, acts).threads[t].pc.Asleep?
    decreases |s.threads| - i
  {
    if i == |s.threads| {
      acts := [];
    } else {
      var rest := FallAsleep(Apply(s, Sleep(i)), i + 1);
      acts := [Sleep(i)] + rest;
      assert acts[1..] == rest;
    }
  }

  lemma AllAsleepIsStuck(s: State)
    requires s.threads != [] && forall t :: 0 <= t < |s.threads| ==> s.threads[t].pc.Asleep?
    ensures Stuck(s)
  {
    assert !s.threads[0].pc.Done?;
  }

  /** With as many CreateVehicle calls as connections the pool can deadlock. */
  lemma DeadlockReachable(s0: State, n: nat) returns (acts: seq<Action>)
    requires IsInitial(s0, n) && s0.threads != [] && Creates(s0) >= n
    ensures Runs(s0, acts) && Stuck(After(s0, acts))
  {
    assert s0.threads[0..] == s0.threads;
    var up := WalkUp(s0, 0);
    var down := FallAsleep(After(s0, up), 0);
    RunsConcat(s0, up, down);
    acts := up + down;
    AllAsleepIsStuck(After(After(s0, up), down));
  }

  ghost predicate NeverStuck(s0: State) {
    forall acts :: Runs(s0, acts) ==> !Stuck(After(s0, acts))
  }

  /** The connection a thread comes away with, and the one it brings back. */
  function TakenBy(s: State, a: Action): seq<Conn>
    requires Enabled(s, a)
  {
    if a.Pop? && Step(s, a).pc.Popped? then [Step(s, a).pc.got] else []
  }

  function BroughtBy(s: State, a: Action): seq<Conn>
    requires Enabled(s, a)
  {
    if a.Push? then [s.threads[a.t].pc.back] else []
  }

  function Taken(s: State, acts: seq<Action>): seq<Conn>
    requires Runs(s, acts)
    decreases |acts|
  {
    if acts == [] then [] else TakenBy(s, acts[0]) + Taken(Apply(s, acts[0]), acts[1..])
  }

  function Brought(s: State, acts: seq<Action>): seq<Conn>
    requires Runs(s, acts)
    decreases |acts|
  {
    if acts == [] then [] else BroughtBy(s, acts[0]) + Brought(Apply(s, acts[0]), acts[1..])
  }

  lemma QueueStep(s: State, a: Action)
    requires Enabled(s, a)
    ensures s.idle + BroughtBy(s, a) == TakenBy(s, a) + Apply(s, a).idle
  {
  }

  lemma Regroup(a: seq<Conn>, b: seq<Conn>, c: seq<Conn>, d: seq<Conn>, e: seq<Conn>, f: seq<Conn>, g: seq<Conn>)
    requires a + b == d + e && e + c == f + g
    ensures a + (b + c) == (d + f) + g
  {
    assert a + (b + c) == (a + b) + c;
    assert (d + e) + c == d + (e + c);
    assert d + (f + g) == (d + f) + g;
  }

  /** First come, first served: connections leave the pool in the order in which they lay and came back. */
  lemma {:induction false} FirstInFirstOut(s: State, acts: seq<Action>)
    requires Runs(s, acts)
    ensures s.idle + Brought(s, acts) == Taken(s, acts) + After(s, acts).idle
    decreases |acts|
  {
    if acts != [] {
      var a, next := acts[0], Apply(s, acts[0]);
      var brought, taken := Brought(next, acts[1..]), Taken(next, acts[1..]);
      QueueStep(s, a);
      FirstInFirstOut(next, acts[1..]);
      Regroup(s.idle, BroughtBy(s, a), brought, TakenBy(s, a), next.idle, taken, After(s, acts).idle);
    }
  }

  /** The exact condition: no run gets stuck if and only if the creators are fewer than the connections. */
  lemma ProgressExactly(s0: State, n: nat)
    requires IsInitial(s0, n)
    ensures NeverStuck(s0) <==> (s0.threads == [] || Creates(s0) < n)
  {
    if s0.threads == [] || Creates(s0) < n {
      forall acts | Runs(s0, acts)
        ensures !Stuck(After(s0, acts))
      {
        InitialInv(s0, n);
        InvRun(s0, acts, n);
        InFlightAreCreates(After(s0, acts));
        if Creates(s0) < n { NotStuckBelowCapacity(After(s0, acts), n); }
      }
    } else {
      var acts := DeadlockReachable(s0, n);
      assert Runs(s0, acts) && Stuck(After(s0, acts));
    }
  }

  predicate Blocked(s: State) {
    s.idle == [] && forall t :: 0 <= t < |s.threads| ==>
      s.threads[t].pc.Asleep? || s.threads[t].pc.Contending? || s.threads[t].pc.Done?
  }

  lemma {:induction false} BlockedForever(s: State, acts: seq<Action>)
    requires Blocked(s) && Runs(s, acts)
    ensures Blocked(After(s, acts)) && |After(s, acts).threads| == |s.threads|
    ensures forall t :: 0 <= t < |s.threads| ==> (After(s, acts).threads[t].pc.Done? <==> s.threads[t].pc.Done?)
    decreases |acts|
  {
    if acts != [] {
      var s1 := Apply(s, acts[0]);
      assert forall t :: 0 <= t < |s.threads| ==> (s1.threads[t].pc.Done? <==> s.threads[t].pc.Done?);
      BlockedForever(s1, acts[1..]);
    }
  }

  /** A deadlock never resolves itself: spurious wake-ups included, no unfinished handler ever finishes. */
  lemma DeadlockIsPermanent(s0: State, acts: seq<Action>, more: seq<Action>, n: nat)
    requires IsInitial(s0, n) && Runs(s0, acts) && Stuck(After(s0, acts))
    requires Runs(After(s0, acts), more)
    ensures var s := After(s0, acts);
            var s' := After(s, more);
            && |s'.threads| == |s.threads|
            && (forall t :: 0 <= t < |s.threads| ==> (s'.threads[t].pc.Done? <==> s.threads[t].pc.Done?))
            && !AllDone(s')
  {
    InitialInv(s0, n);
    InvRun(s0, acts, n);
    var s := After(s0, acts);
    QuiescentThreads(s);
    var t :| 0 <= t < |s.threads| && !s.threads[t].pc.Done?;
    TotalMember(s.threads, IsAsleep, t);
    TotalZero(s.threads, IsComing);
    BlockedForever(s, more);
  }
}
