/** Stopping the other CPUs: the protocol of one CPU that interrupts all others and waits for them to
    count themselves in, over every interleaving of the steps. */
module Rendezvous {
  import opened MapDef

  /** Which CPUs are online, and which of them runs cr_host_cpu_stop_all. The code bounds CPU ids by the
      number of CPUs online. */
  datatype Config = Config(online: set<nat>, me: nat)
  {
    ghost predicate Ok() { me in online }
    function Others(): set<nat> { online - {me} }
    function NCpus(): nat { |online| }
    ghost predicate IdsSmall() { forall i | i in Others() :: i < NCpus() }
  }

  /** Where another CPU is: not interrupted, interrupted, spinning for the lock, and then the load and the
      store of the counter, the release, and the halt loop. */
  datatype Pc = Running | Pending | Locking | Inside | Loaded(v: int) | Stored | Halted
  {
    predicate Holds() { Inside? || Loaded? || Stored? }
    predicate Counted() { Stored? || Halted? }
  }

  /** Where the stopping CPU is: at id n of the sending loop, or in the waiting loop. */
  datatype Boss = Sending(n: nat) | Spinning | Entered | Seen(v: int) | Released(v: int) | Out
  {
    predicate Holds() { Entered? || Seen? }
  }

  datatype State = State(boss: Boss, lock: Option<nat>, stopped: int, pc: map<nat, Pc>)

  datatype Action =
    | Send | Sent | Lock | Read | Unlock | Test
    | Take(i: nat) | CpuLock(i: nat) | Load(i: nat) | Store(i: nat) | CpuUnlock(i: nat)

  /** The state an action leads to, if it can happen. A call to an id that is not online does nothing. */
  function Step(c: Config, s: State, a: Action): Option<State> {
    match a
    case Send =>
      if s.boss.Sending? && s.boss.n < c.NCpus() then
        Some(s.(boss := Sending(s.boss.n + 1),
                pc := if s.boss.n != c.me && s.boss.n in s.pc then s.pc[s.boss.n := Pending] else s.pc))
      else None
    case Sent => if s.boss.Sending? && s.boss.n >= c.NCpus() then Some(s.(boss := Spinning)) else None
    case Lock => if s.boss.Spinning? && s.lock == None then Some(s.(boss := Entered, lock := Some(c.me))) else None
    case Read => if s.boss.Entered? then Some(s.(boss := Seen(s.stopped))) else None
    case Unlock => if s.boss.Seen? then Some(s.(boss := Released(s.boss.v), lock := None)) else None
    case Test =>
      if s.boss.Released? then Some(s.(boss := if s.boss.v < c.NCpus() - 1 then Spinning else Out)) else None
    case Take(i) => if i in s.pc && s.pc[i].Pending? then Some(s.(pc := s.pc[i := Locking])) else None
    case CpuLock(i) =>
      if i in s.pc && s.pc[i].Locking? && s.lock == None then Some(s.(pc := s.pc[i := Inside], lock := Some(i)))
      else None
    case Load(i) => if i in s.pc && s.pc[i].Inside? then Some(s.(pc := s.pc[i := Loaded(s.stopped)])) else None
    case Store(i) =>
      if i in s.pc && s.pc[i].Loaded? then Some(s.(pc := s.pc[i := Stored], stopped := s.pc[i].v + 1)) else None
    case CpuUnlock(i) => if i in s.pc && s.pc[i].Stored? then Some(s.(pc := s.pc[i := Halted], lock := None)) else None
  }

  /** The lock is initialised and the counter zeroed; nobody has been interrupted. */
  ghost predicate Init(c: Config, s: State) {
    s.boss == Sending(0) && s.lock == None && s.stopped == 0 && s.pc == map i | i in c.Others() :: Running
  }

  /** A run: a sequence of actions, each possible where it happens. */
  function After(c: Config, s: State, run: seq<Action>): Option<State>
    decreases |run|
  {
    if run == [] then Some(s)
    else
      match Step(c, s, run[0])
      case None => None
      case Some(t) => After(c, t, run[1..])
  }

  ghost predicate Reachable(c: Config, t: State) {
    exists s, run {:trigger After(c, s, run)} :: Init(c, s) && After(c, s, run) == Some(t)
  }

  // ---- the invariant ----

  function CountedIn(s: State): set<nat> { set i | i in s.pc && s.pc[i].Counted() }
  function HaltedIn(s: State): set<nat> { set i | i in s.pc && s.pc[i].Halted? }

  ghost predicate LockInv(c: Config, s: State) {
    && (s.lock == Some(c.me) <==> s.boss.Holds())
    && (forall i {:trigger s.pc[i]} | i in s.pc :: s.lock == Some(i) <==> s.pc[i].Holds())
    && (s.lock.Some? ==> s.lock.value == c.me || s.lock.value in s.pc)
  }

  ghost predicate CountInv(c: Config, s: State) {
    && s.stopped == |CountedIn(s)|
    && (forall i {:trigger s.pc[i]} | i in s.pc && s.pc[i].Loaded? :: s.pc[i].v == s.stopped)
    && (s.boss.Seen? ==> s.boss.v == s.stopped)
    && (s.boss.Released? ==> s.boss.v <= |HaltedIn(s)|)
    && (s.boss.Out? ==> c.NCpus() - 1 <= |HaltedIn(s)|)
  }

  /** Exactly the CPUs with an id below `n`, or below the number of CPUs online, have been interrupted. */
  ghost predicate SendInv(c: Config, s: State) {
    var n := if s.boss.Sending? then s.boss.n else c.NCpus();
    n <= c.NCpus() && forall i {:trigger s.pc[i]} | i in s.pc :: s.pc[i].Running? <==> i >= n
  }

  ghost predicate Inv(c: Config, s: State) {
    c.Ok() && s.pc.Keys == c.Others() && LockInv(c, s) && CountInv(c, s) && SendInv(c, s)
  }

  lemma InitInv(c: Config, s: State)
    requires c.Ok() && Init(c, s)
    ensures Inv(c, s)
  {
    assert CountedIn(s) == {};
  }

  lemma StepLock(c: Config, s: State, a: Action, t: State)
    requires Inv(c, s) && Step(c, s, a) == Some(t)
    ensures LockInv(c, t)
  {}

  lemma StepSend(c: Config, s: State, a: Action, t: State)
    requires Inv(c, s) && Step(c, s, a) == Some(t)
    ensures SendInv(c, t) && t.pc.Keys == s.pc.Keys
  {}

  lemma StepCounted(c: Config, s: State, a: Action, t: State)
    requires SendInv(c, s) && Step(c, s, a) == Some(t)
    ensures CountedIn(t) == CountedIn(s) + if a.Store? then {a.i} else {}
    ensures HaltedIn(t) == HaltedIn(s) + if a.CpuUnlock? then {a.i} else {}
    ensures a.Store? ==> a.i !in CountedIn(s)
  {}

  /** While nobody is between the store and the release, the CPUs counted are the CPUs halted. */
  lemma CountedHalted(c: Config, s: State)
    requires s.boss.Holds() && LockInv(c, s)
    requires c.me !in s.pc
    ensures CountedIn(s) == HaltedIn(s)
  {}

  lemma StepTotal(c: Config, s: State, a: Action, t: State)
    requires Inv(c, s) && Step(c, s, a) == Some(t)
    ensures t.stopped == |CountedIn(t)| && |HaltedIn(s)| <= |HaltedIn(t)|
  {
    hide CountedIn, HaltedIn, SendInv;
    SendKept(c, s);
    StepCounted(c, s, a, t);
    SizeOfSubset(HaltedIn(s), HaltedIn(t));
  }

  lemma SendKept(c: Config, s: State)
    requires Inv(c, s)
    ensures SendInv(c, s)
  {}

  lemma StepLoaded(c: Config, s: State, a: Action, t: State)
    requires Inv(c, s) && Step(c, s, a) == Some(t)
    ensures forall i {:trigger t.pc[i]} | i in t.pc && t.pc[i].Loaded? :: t.pc[i].v == t.stopped
    ensures t.boss.Seen? ==> t.boss.v == t.stopped
  {
    hide CountedIn, HaltedIn, SendInv;
  }

  lemma StepCount(c: Config, s: State, a: Action, t: State)
    requires Inv(c, s) && Step(c, s, a) == Some(t)
    ensures CountInv(c, t)
  {
    hide CountedIn, HaltedIn, SendInv, LockInv;
    StepTotal(c, s, a, t);
    StepLoaded(c, s, a, t);
    if s.boss.Seen? {
      LockKept(c, s);
      CountedHalted(c, s);
    }
  }

  lemma LockKept(c: Config, s: State)
    requires Inv(c, s)
    ensures LockInv(c, s)
  {}

  lemma StepInv(c: Config, s: State, a: Action, t: State)
    requires Inv(c, s) && Step(c, s, a) == Some(t)
    ensures Inv(c, t)
  {
    StepLock(c, s, a, t);
    StepSend(c, s, a, t);
    StepCount(c, s, a, t);
  }

  lemma {:induction false} RunInv(c: Config, s: State, run: seq<Action>, t: State)
    requires Inv(c, s) && After(c, s, run) == Some(t)
    ensures Inv(c, t)
    decreases |run|
  {
    if run != [] {
      var u := Step(c, s, run[0]).value;
      StepInv(c, s, run[0], u);
      RunInv(c, u, run[1..], t);
    }
  }

  /** The invariant holds in every state of every interleaving. */
  lemma ReachableInv(c: Config, t: State)
    requires c.Ok() && Reachable(c, t)
    ensures Inv(c, t)
  {
    var s, run :| Init(c, s) && After(c, s, run) == Some(t);
    InitInv(c, s);
    RunInv(c, s, run, t);
  }

  // ---- what it gives ----

  lemma {:induction false} SubsetSize(a: set<nat>, b: set<nat>)
    requires a <= b && |a| >= |b|
    ensures a == b
  {
    if a != b {
      var x :| x in b && x !in a;
      SizeOfSubset(a, b - {x});
    }
  }

  lemma {:induction false} SizeOfSubset(a: set<nat>, b: set<nat>)
    requires a <= b
    ensures |a| <= |b|
    decreases b
  {
    if a != {} {
      var x :| x in a;
      SizeOfSubset(a - {x}, b - {x});
    }
  }

  /** Mutual exclusion: at most one CPU is between lock and unlock. */
  lemma Exclusive(c: Config, s: State, i: nat, j: nat)
    requires c.Ok() && Reachable(c, s) && i in s.pc && j in s.pc && s.pc[i].Holds() && s.pc[j].Holds()
    ensures i == j && !s.boss.Holds()
  {
    ReachableInv(c, s);
  }

  /** When the waiting loop is left, every other CPU online has halted and the lock is free. */
  lemma OutMeansHalted(c: Config, s: State)
    requires Inv(c, s) && s.boss.Out?
    ensures s.lock == None && forall i | i in c.Others() :: i in s.pc && s.pc[i].Halted?
  {
    SubsetSize(HaltedIn(s), c.Others());
    assert forall i | i in c.Others() :: i in HaltedIn(s);
  }

  /** Safety: after the loop no interleaving has a next step, so nobody ever touches the lock or the
      counter again. */
  lemma OutIsFinal(c: Config, s: State, a: Action)
    requires c.Ok() && Reachable(c, s) && s.boss.Out?
    ensures forall i | i in c.Others() :: i in s.pc && s.pc[i].Halted?
    ensures Step(c, s, a) == None
  {
    ReachableInv(c, s);
    OutMeansHalted(c, s);
  }

  // ---- when the loop can be left at all ----

  function Left(p: Pc): nat {
    match p
    case Running => 6
    case Pending => 5
    case Locking => 4
    case Inside => 3
    case Loaded(_) => 2
    case Stored => 1
    case Halted => 0
  }

  /** Steps left to the CPUs with an id below n. */
  function SumLeft(pc: map<nat, Pc>, n: nat): nat {
    if n == 0 then 0 else SumLeft(pc, n - 1) + if n - 1 in pc then Left(pc[n - 1]) else 0
  }

  lemma {:induction false} SumLess(pc: map<nat, Pc>, i: nat, p: Pc, n: nat)
    requires i in pc && Left(p) < Left(pc[i])
    ensures SumLeft(pc[i := p], n) <= SumLeft(pc, n)
    ensures i < n ==> SumLeft(pc[i := p], n) < SumLeft(pc, n)
  {
    if n > 0 {
      SumLess(pc, i, p, n - 1);
    }
  }

  function ToSend(c: Config, s: State): nat {
    if s.boss.Sending? && s.boss.n <= c.NCpus() then c.NCpus() + 1 - s.boss.n else 0
  }

  /** Steps left to the stopping CPU until it releases the lock or, once all have halted, until it leaves
      the loop. */
  function BossLeft(c: Config, s: State): nat {
    if SumLeft(s.pc, c.NCpus()) > 0 then (if s.boss.Entered? then 2 else if s.boss.Seen? then 1 else 0)
    else match s.boss
      case Sending(_) => 6
      case Spinning => 4
      case Entered => 3
      case Seen(_) => 2
      case Released(v) => if v < c.NCpus() - 1 then 5 else 1
      case Out => 0
  }

  lemma {:induction false} AllHalted(c: Config, s: State, n: nat)
    requires forall i {:trigger s.pc[i]} | i in s.pc && i < n :: s.pc[i].Halted?
    ensures SumLeft(s.pc, n) == 0
  {
    if n > 0 {
      AllHalted(c, s, n - 1);
    }
  }

  lemma {:induction false} NoneLeft(c: Config, s: State, n: nat, i: nat)
    requires SumLeft(s.pc, n) == 0 && i in s.pc && i < n
    ensures s.pc[i].Halted?
  {
    if i < n - 1 {
      NoneLeft(c, s, n - 1, i);
    }
  }

  /** If every other CPU's id is below the number of CPUs online, the loop can still be left from every
      state: nothing is ever deadlocked. */
  lemma {:induction false} CanFinish(c: Config, s: State) returns (run: seq<Action>, t: State)
    requires Inv(c, s) && c.IdsSmall()
    ensures After(c, s, run) == Some(t) && t.boss.Out?
    decreases ToSend(c, s) + SumLeft(s.pc, c.NCpus()), BossLeft(c, s)
  {
    if s.boss.Out? {
      return [], s;
    }
    var a, u := Progress(c, s);
    StepInv(c, s, a, u);
    run, t := CanFinish(c, u);
    assert ([a] + run)[1..] == run;
    run := [a] + run;
  }

  /** An action that brings the end of the protocol nearer. */
  lemma Progress(c: Config, s: State) returns (a: Action, t: State)
    requires Inv(c, s) && c.IdsSmall() && !s.boss.Out?
    ensures Step(c, s, a) == Some(t)
    ensures var n, m := ToSend(c, s) + SumLeft(s.pc, c.NCpus()), ToSend(c, t) + SumLeft(t.pc, c.NCpus());
            m < n || (m == n && BossLeft(c, t) < BossLeft(c, s))
  {
    if s.boss.Sending? {
      a := if s.boss.n < c.NCpus() then Send else Sent;
      if s.boss.n in s.pc {
        SumLess(s.pc, s.boss.n, Pending, c.NCpus());
      }
    } else if s.boss.Holds() {
      a := if s.boss.Entered? then Read else Unlock;
      if SumLeft(s.pc, c.NCpus()) == 0 {
        AllCounted(c, s);
      }
    } else if i :| i in s.pc && !s.pc[i].Halted? && (s.lock == None || s.lock == Some(i)) {
      a, t := CpuProgress(c, s, i);
      return;
    } else {
      assert s.lock == None;
      AllHalted(c, s, c.NCpus());
      a := if s.boss.Spinning? then Lock else Test;
    }
    t := Step(c, s, a).value;
  }

  /** A CPU that has not halted and is not kept out by the lock takes its next step. */
  lemma CpuProgress(c: Config, s: State, i: nat) returns (a: Action, t: State)
    requires Inv(c, s) && c.IdsSmall() && !s.boss.Sending? && !s.boss.Holds()
    requires i in s.pc && !s.pc[i].Halted? && (s.lock == None || s.lock == Some(i))
    ensures Step(c, s, a) == Some(t)
    ensures ToSend(c, t) + SumLeft(t.pc, c.NCpus()) < ToSend(c, s) + SumLeft(s.pc, c.NCpus())
  {
    hide CountInv, SumLeft;
    a := NextOf(i, s.pc[i]);
    t := Step(c, s, a).value;
    SumLess(s.pc, i, t.pc[i], c.NCpus());
  }

  function NextOf(i: nat, p: Pc): Action {
    match p
    case Pending => Take(i)
    case Locking => CpuLock(i)
    case Inside => Load(i)
    case Loaded(_) => Store(i)
    case _ => CpuUnlock(i)
  }

  lemma AllCounted(c: Config, s: State)
    requires Inv(c, s) && c.IdsSmall() && SumLeft(s.pc, c.NCpus()) == 0
    ensures s.stopped == c.NCpus() - 1
  {
    forall i | i in s.pc ensures s.pc[i].Halted? {
      NoneLeft(c, s, c.NCpus(), i);
    }
    assert CountedIn(s) == c.Others();
  }

  /** The loop can be left if and only if every other CPU's id is below the number of CPUs online: an id
      above it is never interrupted, and the wait for it never ends. */
  lemma ExitIffIdsSmall(c: Config)
    requires c.Ok()
    ensures c.IdsSmall() <==> exists t :: Reachable(c, t) && t.boss.Out?
  {
    var s := State(Sending(0), None, 0, map i | i in c.Others() :: Running);
    InitInv(c, s);
    if c.IdsSmall() {
      var run, t := CanFinish(c, s);
      assert Reachable(c, t);
    }
    if t :| Reachable(c, t) && t.boss.Out? {
      ReachableInv(c, t);
      OutMeansHalted(c, t);
    }
  }

  /** With CPUs 0 and 2 online and CPU 0 stopping the others, the wait never ends. */
  lemma WaitsForever()
    ensures Config({0, 2}, 0).Ok()
    ensures !exists t :: Reachable(Config({0, 2}, 0), t) && t.boss.Out?
  {
    var c := Config({0, 2}, 0);
    assert 2 in c.Others();
    ExitIffIdsSmall(c);
  }
}
