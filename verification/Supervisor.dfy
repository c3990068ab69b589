/**
 * The process supervisor of pkt2-impl.cpp as a state machine: the main loop starts, checks, stops and reloads child
 * processes, while children die, other processes come and go, and requests arrive at any time.
 */
module Supervisor {

  /** Where the main loop stands; an index is that of the descriptor it deals with next. */
  datatype Phase =
    | Loading
    | Starting(i: nat)
    | Clearing
    | Guard
    | Checking(i: nat)
    | Sleeping
    | Stopping(i: nat)
    | Deciding
    | Ended

  const KEEP_RUNNING := 0
  const STOP := 1
  const RELOAD := 2
  const FORK_FAILED := -1

  /**
   * The descriptors' process ids (0 before the first start, -1 after a failed fork), the request of the signal
   * handlers, and the system around. `live` are the ids of the living children, `strangers` those of all other
   * processes. `own` are the descriptors whose own child lives, the one that was started last for them, and `lost`
   * those whose own child died since the last pass of checks began. `signalled` are the children that were sent
   * SIGINT, `broadcast` tells whether it was sent to -1, which means all processes, and `struck` are the ids
   * under which strangers were sent it. `failed` tells whether a fork ever failed.
   */
  datatype State = State(
    phase: Phase, pids: seq<int>, request: int, live: set<int>, strangers: set<int>, own: set<nat>, lost: set<nat>,
    signalled: set<int>, broadcast: bool, struck: set<int>, failed: bool)

  /**
   * One step of the main loop, given what the next fork returns, how many processes a configuration lists and whether
   * it loads; the death of a child; a child that cannot execute its program; a stranger that comes or goes; or a
   * request.
   */
  datatype Event =
    | Advance(fork: int, count: nat, loads: bool)
    | Dies(pid: int)
    | ExecFails(pid: int)
    | Comes(pid: int)
    | Goes(pid: int)
    | Asked(request: int)

  const INITIAL := State(Loading, [], KEEP_RUNNING, {}, {}, {}, {}, {}, false, {}, false)

  /** Some process, child or not, has the id; this is all that a check looks at. */
  predicate Running(s: State, pid: int) {
    pid in s.live || pid in s.strangers
  }

  /** Only what lives dies, and a fork fails or returns an id that no process has. A new process has a new id, too. */
  predicate Possible(s: State, e: Event) {
    match e
    case Advance(fork, _, _) => fork == FORK_FAILED || (fork > 0 && !Running(s, fork))
    case Dies(pid) => pid in s.live
    case ExecFails(pid) => pid in s.live
    case Comes(pid) => pid > 0 && !Running(s, pid)
    case Goes(pid) => pid in s.strangers
    case Asked(request) => request == STOP || request == RELOAD
  }

  /** `start` of descriptor `i`: its process id is whatever fork returns. */
  function Forked(s: State, i: nat, fork: int, next: Phase): State
    requires i < |s.pids|
  {
    s.(phase := next, pids := s.pids[i := fork], live := if fork > 0 then s.live + {fork} else s.live,
       own := if fork > 0 then s.own + {i} else s.own - {i}, failed := s.failed || fork == FORK_FAILED)
  }

  /** The processes that `kill` reaches: all with -1, or the one that has the id. */
  function Reached(processes: set<int>, pid: int): set<int> {
    if pid == -1 then processes else if pid in processes then {pid} else {}
  }

  /** `stop` of descriptor `i`: SIGINT goes to whatever has its id, and to all processes when the id is -1. */
  function Signalled(s: State, i: nat): State
    requires i < |s.pids|
  {
    var pid := s.pids[i];
    s.(phase := Stopping(i + 1), broadcast := s.broadcast || pid == -1,
       signalled := s.signalled + Reached(s.live, pid), struck := s.struck + Reached(s.strangers, pid))
  }

  /** The descriptors whose own child has the id. */
  function OwnersOf(s: State, pid: int): set<nat> {
    set k | k in s.own && k < |s.pids| && s.pids[k] == pid
  }

  /** The death of a child. */
  function Buried(s: State, pid: int): State {
    s.(live := s.live - {pid}, signalled := s.signalled - {pid}, own := s.own - OwnersOf(s, pid),
       lost := s.lost + OwnersOf(s, pid))
  }

  /**
   * A child that cannot execute its program sends SIGKILL to the process id 0, which means its process group: all
   * children and the supervisor itself.
   */
  function Killed(s: State): State {
    s.(phase := Ended, live := {}, signalled := {}, own := {})
  }

  function Next(s: State, e: Event): State {
    match e
    case Dies(pid) => Buried(s, pid)
    case ExecFails(_) => Killed(s)
    case Comes(pid) => s.(strangers := s.strangers + {pid})
    case Goes(pid) => s.(strangers := s.strangers - {pid})
    case Asked(request) => s.(request := request)
    case Advance(fork, count, loads) =>
      match s.phase
      case Loading =>
        if loads then s.(phase := Starting(0), pids := seq(count, _ => 0), own := {}) else s.(phase := Ended)
      case Starting(i) =>
        if i < |s.pids| then Forked(s, i, fork, Starting(i + 1)) else s.(phase := Clearing)
      case Clearing => s.(phase := Guard, request := KEEP_RUNNING)
      case Guard =>
        if s.request == KEEP_RUNNING then s.(phase := Checking(0), lost := {}) else s.(phase := Stopping(0))
      case Checking(i) =>
        if i >= |s.pids| then s.(phase := Sleeping)
        else if s.pids[i] != 0 && Running(s, s.pids[i]) then s.(phase := Checking(i + 1))
        else Forked(s, i, fork, Checking(i + 1))
      case Sleeping => s.(phase := Guard)
      case Stopping(i) => if i < |s.pids| then Signalled(s, i) else s.(phase := Deciding)
      case Deciding => s.(phase := if s.request == RELOAD then Loading else Ended)
      case Ended => s
  }

  ghost predicate Run(s: State, events: seq<Event>)
    decreases |events|
  {
    events == [] || (Possible(s, events[0]) && Run(Next(s, events[0]), events[1..]))
  }

  function After(s: State, events: seq<Event>): State
    decreases |events|
  {
    if events == [] then s else After(Next(s, events[0]), events[1..])
  }

  lemma FirstStep(s: State, e: Event, rest: seq<Event>)
    ensures Run(s, [e] + rest) <==> Possible(s, e) && Run(Next(s, e), rest)
    ensures After(s, [e] + rest) == After(Next(s, e), rest)
    ensures NoClash(s, [e] + rest) <==> !Clash(s, e) && NoClash(Next(s, e), rest)
    ensures NoIntruder(s, [e] + rest) <==> !Intrudes(s, e) && NoIntruder(Next(s, e), rest)
  {
    assert ([e] + rest)[1..] == rest;
  }

  lemma NoStep(s: State)
    ensures Run(s, []) && After(s, []) == s && NoClash(s, []) && NoIntruder(s, [])
  {
  }

  lemma {:induction false} RunOn(s: State, events: seq<Event>, rest: seq<Event>)
    ensures Run(s, events + rest) <==> Run(s, events) && Run(After(s, events), rest)
    ensures After(s, events + rest) == After(After(s, events), rest)
    ensures NoClash(s, events + rest) <==> NoClash(s, events) && NoClash(After(s, events), rest)
    ensures NoIntruder(s, events + rest) <==> NoIntruder(s, events) && NoIntruder(After(s, events), rest)
    decreases |events|
  {
    if events == [] {
      assert events + rest == rest;
    } else {
      assert events + rest == [events[0]] + (events[1..] + rest);
      FirstStep(s, events[0], events[1..] + rest);
      RunOn(Next(s, events[0]), events[1..], rest);
    }
  }

  // ---- No child is forgotten ----

  /** The process ids that the main loop will still signal before it discards its descriptors. */
  function Held(s: State): seq<int> {
    match s.phase
    case Stopping(i) => if i <= |s.pids| then s.pids[i..] else []
    case Deciding => []
    case Loading => []
    case Ended => []
    case _ => s.pids
  }

  predicate Covered(live: set<int>, held: seq<int>, signalled: set<int>) {
    forall p :: p in live ==> p in held || p in signalled
  }

  predicate InBounds(s: State) {
    match s.phase
    case Starting(i) => i <= |s.pids| && forall k :: i <= k < |s.pids| ==> s.pids[k] == 0
    case Checking(i) => i <= |s.pids|
    case Stopping(i) => i <= |s.pids|
    case _ => true
  }

  /** Every living child is held by a descriptor that will be signalled, or has been sent SIGINT. */
  predicate NoneForgotten(s: State) {
    (forall p :: p in s.live ==> p > 0) && s.signalled <= s.live && InBounds(s) && Covered(s.live, Held(s), s.signalled)
  }

  lemma CoveredFork(live: set<int>, pids: seq<int>, signalled: set<int>, i: nat, fork: int)
    requires Covered(live, pids, signalled) && i < |pids| && pids[i] !in live
    ensures Covered(live, pids[i := fork], signalled) && Covered(live + {fork}, pids[i := fork], signalled)
  {
    var next := pids[i := fork];
    assert next[i] == fork;
    forall p | p in live
      ensures p in next || p in signalled
    {
      if p in pids {
        var k :| 0 <= k < |pids| && pids[k] == p;
        assert next[k] == p;
      }
    }
  }

  lemma CoveredStop(live: set<int>, held: seq<int>, signalled: set<int>)
    requires Covered(live, held, signalled) && held != []
    ensures Covered(live, held[1..], signalled + Reached(live, held[0]))
  {
    assert held == [held[0]] + held[1..];
  }

  lemma StepForgetsNone(s: State, e: Event)
    requires NoneForgotten(s) && Possible(s, e)
    ensures NoneForgotten(Next(s, e))
  {
    hide Covered;
    CoveredCases(s, e);
    if e.Advance? {
      AdvanceForgetsNone(s, e);
    }
  }

  /** A death, and the steps that leave the children alone. */
  lemma CoveredCases(s: State, e: Event)
    requires NoneForgotten(s)
    ensures e.Dies? ==> Covered(s.live - {e.pid}, Held(s), s.signalled - {e.pid})
    ensures Covered({}, [], {})
    ensures s.live <= s.signalled ==> forall held :: Covered(s.live, held, s.signalled)
    ensures Held(s) == [] ==> s.live <= s.signalled
  {
    forall p | p in s.live && Held(s) == []
      ensures p in s.signalled
    {
      assert p in Held(s) || p in s.signalled;
    }
  }

  lemma AdvanceForgetsNone(s: State, e: Event)
    requires NoneForgotten(s) && Possible(s, e) && e.Advance?
    ensures NoneForgotten(Next(s, e))
  {
    hide Covered;
    CoveredCases(s, e);
    assert s.pids[0..] == s.pids && s.pids[|s.pids|..] == [];
    if s.phase.Starting? || s.phase.Checking? {
      ForkingForgetsNone(s, e);
    } else if s.phase.Stopping? && s.phase.i < |s.pids| {
      CoveredStop(s.live, s.pids[s.phase.i..], s.signalled);
      assert s.pids[s.phase.i..][1..] == s.pids[s.phase.i + 1..];
    }
  }

  lemma ForkingForgetsNone(s: State, e: Event)
    requires NoneForgotten(s) && Possible(s, e) && e.Advance? && (s.phase.Starting? || s.phase.Checking?)
    ensures NoneForgotten(Next(s, e))
  {
    hide Covered;
    if s.phase.i < |s.pids| && s.pids[s.phase.i] !in s.live {
      CoveredFork(s.live, s.pids, s.signalled, s.phase.i, e.fork);
    }
  }

  /** In every run no living child is ever forgotten: before descriptors are discarded, all they hold are signalled. */
  lemma {:induction false} NoRunForgets(s: State, events: seq<Event>)
    requires NoneForgotten(s) && Run(s, events)
    ensures NoneForgotten(After(s, events))
    ensures After(s, events).phase in {Loading, Ended} ==> After(s, events).live == After(s, events).signalled
    decreases |events|
  {
    if events == [] {
      CoveredCases(s, Asked(STOP));
    } else {
      StepForgetsNone(s, events[0]);
      NoRunForgets(Next(s, events[0]), events[1..]);
    }
  }

  // ---- One descriptor for each child ----

  /** No two descriptors hold the same process. */
  predicate Distinct(pids: seq<int>) {
    forall i, j :: 0 <= i < j < |pids| && pids[i] == pids[j] ==> pids[i] <= 0
  }

  /** The step starts a child for the descriptor that the main loop deals with. */
  predicate Forks(s: State, e: Event) {
    e.Advance? && (s.phase.Starting? || s.phase.Checking?) && s.phase.i < |s.pids| &&
    (s.phase.Checking? ==> s.pids[s.phase.i] == 0 || !Running(s, s.pids[s.phase.i]))
  }

  /** The step starts a child under an id that another descriptor still names. */
  predicate Clash(s: State, e: Event) {
    Forks(s, e) && e.fork > 0 && exists j :: 0 <= j < |s.pids| && j != s.phase.i && s.pids[j] == e.fork
  }

  ghost predicate NoClash(s: State, events: seq<Event>)
    decreases |events|
  {
    events != [] ==> !Clash(s, events[0]) && NoClash(Next(s, events[0]), events[1..])
  }

  /** All along, no two descriptors hold the same process. */
  ghost predicate AllDistinct(s: State, events: seq<Event>)
    decreases |events|
  {
    Distinct(s.pids) && (events != [] ==> AllDistinct(Next(s, events[0]), events[1..]))
  }

  lemma ClashMakesTwo(s: State, e: Event)
    requires Distinct(s.pids)
    ensures Distinct(Next(s, e).pids) <==> !Clash(s, e)
  {
    var t := Next(s, e);
    if Clash(s, e) {
      var j :| 0 <= j < |s.pids| && j != s.phase.i && s.pids[j] == e.fork;
      assert t.pids[j] == t.pids[s.phase.i] > 0;
    }
  }

  /** Descriptors keep to their own processes exactly as long as no child gets an id that another one still names. */
  lemma {:induction false} OneDescriptorEach(s: State, events: seq<Event>)
    requires Distinct(s.pids)
    ensures AllDistinct(s, events) <==> NoClash(s, events)
    ensures AllDistinct(s, events) ==> Distinct(After(s, events).pids)
    decreases |events|
  {
    if events != [] {
      ClashMakesTwo(s, events[0]);
      if !Clash(s, events[0]) {
        OneDescriptorEach(Next(s, events[0]), events[1..]);
      }
    }
  }

  /** Every child that has not been sent SIGINT is held by one and only one descriptor, while the main loop checks. */
  lemma HeldByOne(events: seq<Event>, pid: int)
    requires Run(INITIAL, events) && NoClash(INITIAL, events)
    requires var s := After(INITIAL, events);
             (s.phase.Guard? || s.phase.Checking? || s.phase.Sleeping?) && pid in s.live && pid !in s.signalled
    ensures var s := After(INITIAL, events);
            exists k :: 0 <= k < |s.pids| && s.pids[k] == pid &&
                        forall j :: 0 <= j < |s.pids| && j != k ==> s.pids[j] != pid
  {
    var s := After(INITIAL, events);
    NoRunForgets(INITIAL, events);
    OneDescriptorEach(INITIAL, events);
    assert pid in s.pids;
    var k :| 0 <= k < |s.pids| && s.pids[k] == pid;
  }

  // ---- Other processes ----

  /** The descriptor will still be checked or signalled. */
  predicate HeldAt(s: State, k: nat) {
    k < |s.pids| &&
    match s.phase
    case Stopping(i) => i <= k
    case Deciding => false
    case Loading => false
    case Ended => false
    case _ => true
  }

  /** Ids are positive, no two processes share one, and the own child of a descriptor lives under its id. */
  ghost predicate Sane(s: State) {
    InBounds(s) && s.live !! s.strangers && (forall p :: p in s.live ==> p > 0) &&
    (forall p :: p in s.strangers ==> p > 0) && forall k :: k in s.own ==> k < |s.pids| && s.pids[k] in s.live
  }

  lemma ForkKeepsSane(s: State, i: nat, fork: int, next: Phase)
    requires Sane(s) && i < |s.pids| && s.pids[i] !in s.live
    requires fork == FORK_FAILED || (fork > 0 && !Running(s, fork))
    requires (s.phase == Starting(i) && next == Starting(i + 1)) || (s.phase == Checking(i) && next == Checking(i + 1))
    ensures Sane(Forked(s, i, fork, next))
  {
  }

  lemma DeathKeepsSane(s: State, pid: int)
    requires Sane(s)
    ensures Sane(Buried(s, pid))
  {
  }

  lemma StepKeepsSane(s: State, e: Event)
    requires Sane(s) && Possible(s, e)
    ensures Sane(Next(s, e))
  {
    hide Forked, Buried, Reached;
    if e.Dies? {
      DeathKeepsSane(s, e.pid);
    } else if Forks(s, e) {
      var i := s.phase.i;
      ForkKeepsSane(s, i, e.fork, if s.phase.Starting? then Starting(i + 1) else Checking(i + 1));
    }
  }

  /** The step sends SIGINT to the id of descriptor `k`. */
  predicate StopsAt(s: State, e: Event, k: nat) {
    e.Advance? && s.phase == Stopping(k) && k < |s.pids|
  }

  /** What becomes of a descriptor that is held: a step forks for it, or stops it, or leaves it. */
  lemma HeldNext(s: State, e: Event, k: nat)
    requires Sane(s) && Possible(s, e)
    ensures var t := Next(s, e);
            HeldAt(t, k) && t.pids[k] > 0 ==>
              if Forks(s, e) && k == s.phase.i then t.pids[k] == e.fork else HeldAt(s, k) && t.pids[k] == s.pids[k]
    ensures var t := Next(s, e);
            HeldAt(s, k) && Running(s, s.pids[k]) ==>
              (HeldAt(t, k) && t.pids[k] == s.pids[k]) || e.ExecFails? || StopsAt(s, e, k)
  {
    hide Reached, OwnersOf;
  }

  /** What becomes of the other processes, and who is sent SIGINT. */
  lemma StrangersNext(s: State, e: Event)
    ensures var t := Next(s, e);
            t.strangers == if e.Comes? then s.strangers + {e.pid} else if e.Goes? then s.strangers - {e.pid}
                           else s.strangers
    ensures var t := Next(s, e);
            t.struck == if s.phase.Stopping? && StopsAt(s, e, s.phase.i)
                        then s.struck + Reached(s.strangers, s.pids[s.phase.i]) else s.struck
  {
    hide Reached, OwnersOf;
  }

  /** What becomes of the children, and of the own child of a descriptor. */
  lemma ChildrenNext(s: State, e: Event, k: nat)
    requires Sane(s) && Possible(s, e)
    ensures var t := Next(s, e);
            t.live == if e.Dies? then s.live - {e.pid} else if e.ExecFails? then {}
                      else if Forks(s, e) && e.fork > 0 then s.live + {e.fork} else s.live
    ensures var t := Next(s, e);
            HeldAt(t, k) && t.pids[k] > 0 ==>
              (k in t.own <==> (Forks(s, e) && k == s.phase.i) || (k in s.own && !(e.Dies? && s.pids[k] == e.pid)))
  {
    hide Reached;
  }

  /** No descriptor that is held names a stranger. */
  ghost predicate Apart(s: State) {
    forall k: nat :: HeldAt(s, k) ==> s.pids[k] !in s.strangers
  }

  /** A stranger comes under an id that a descriptor still names. */
  ghost predicate Intrudes(s: State, e: Event) {
    e.Comes? && exists k: nat :: HeldAt(s, k) && s.pids[k] == e.pid
  }

  ghost predicate NoIntruder(s: State, events: seq<Event>)
    decreases |events|
  {
    events != [] ==> !Intrudes(s, events[0]) && NoIntruder(Next(s, events[0]), events[1..])
  }

  ghost predicate AllApart(s: State, events: seq<Event>)
    decreases |events|
  {
    Apart(s) && (events != [] ==> AllApart(Next(s, events[0]), events[1..]))
  }

  lemma StepKeepsApart(s: State, e: Event)
    requires Sane(s) && Apart(s) && Possible(s, e)
    ensures Apart(Next(s, e)) <==> !Intrudes(s, e)
  {
    var t := Next(s, e);
    StepKeepsSane(s, e);
    StrangersNext(s, e);
    forall k: nat
      ensures HeldAt(t, k) && t.pids[k] in t.strangers ==> Intrudes(s, e)
    {
      HeldNext(s, e, k);
    }
    if Intrudes(s, e) {
      var k: nat :| HeldAt(s, k) && s.pids[k] == e.pid;
      assert HeldAt(t, k) && t.pids[k] in t.strangers;
    }
  }

  /** No descriptor ever names a stranger exactly when no stranger comes under an id that one still names. */
  lemma {:induction false} ApartExactly(s: State, events: seq<Event>)
    requires Sane(s) && Apart(s) && Run(s, events)
    ensures AllApart(s, events) <==> NoIntruder(s, events)
    decreases |events|
  {
    if events != [] {
      StepKeepsApart(s, events[0]);
      StepKeepsSane(s, events[0]);
      if !Intrudes(s, events[0]) {
        ApartExactly(Next(s, events[0]), events[1..]);
      }
    }
  }

  // ---- Own children ----

  /** What runs under the id of a descriptor that is held is its own child. */
  ghost predicate Mine(s: State) {
    forall k: nat :: HeldAt(s, k) && Running(s, s.pids[k]) ==> k in s.own
  }

  ghost predicate AllMine(s: State, events: seq<Event>)
    decreases |events|
  {
    Mine(s) && (events != [] ==> AllMine(Next(s, events[0]), events[1..]))
  }

  lemma StepKeepsMine(s: State, e: Event)
    requires Sane(s) && Mine(s) && Possible(s, e)
    ensures Mine(Next(s, e)) <==> !Clash(s, e) && !Intrudes(s, e)
  {
    var t := Next(s, e);
    StepKeepsSane(s, e);
    StrangersNext(s, e);
    forall k: nat
      ensures HeldAt(t, k) && Running(t, t.pids[k]) && k !in t.own ==> Clash(s, e) || Intrudes(s, e)
    {
      HeldNext(s, e, k);
      ChildrenNext(s, e, k);
    }
    if Clash(s, e) {
      var j :| 0 <= j < |s.pids| && j != s.phase.i && s.pids[j] == e.fork;
      assert HeldAt(t, j) && Running(t, t.pids[j]) && j !in t.own;
    } else if Intrudes(s, e) {
      var k: nat :| HeldAt(s, k) && s.pids[k] == e.pid;
      assert HeldAt(t, k) && Running(t, t.pids[k]) && k !in t.own;
    }
  }

  /**
   * The descriptors name their own children, or nothing that runs, exactly as long as no process, neither a stranger
   * nor the child of another descriptor, gets an id that a descriptor still names.
   */
  lemma {:induction false} OwnChildrenExactly(s: State, events: seq<Event>)
    requires Sane(s) && Mine(s) && Run(s, events)
    ensures AllMine(s, events) <==> NoClash(s, events) && NoIntruder(s, events)
    decreases |events|
  {
    if events != [] {
      StepKeepsMine(s, events[0]);
      StepKeepsSane(s, events[0]);
      if Mine(Next(s, events[0])) {
        OwnChildrenExactly(Next(s, events[0]), events[1..]);
      }
    }
  }

  /** The own child of the descriptor lives, or has died since the pass of checks began, or could not be started. */
  predicate Attended(s: State, k: nat) {
    k in s.own || k in s.lost || (k < |s.pids| && s.pids[k] == FORK_FAILED)
  }

  /** The pass of checks has attended to all descriptors that it has come by. */
  predicate Looked(s: State) {
    match s.phase
    case Checking(i) => forall k :: 0 <= k < i && k < |s.pids| ==> Attended(s, k)
    case Sleeping => forall k :: 0 <= k < |s.pids| ==> Attended(s, k)
    case _ => true
  }

  lemma StepLooks(s: State, e: Event)
    requires Sane(s) && Mine(s) && Looked(s) && Possible(s, e)
    ensures Looked(Next(s, e))
  {
    hide Reached, OwnersOf;
    var t := Next(s, e);
    if (s.phase.Checking? || s.phase.Sleeping?) && !e.ExecFails? {
      hide Attended;
      forall k: nat | k < |s.pids| && Attended(s, k)
        ensures Attended(t, k)
      {
        AttendedNext(s, e, k);
      }
      OwnIsAttended(s);
      if Forks(s, e) {
        AttendedNext(s, e, s.phase.i);
      }
    }
  }

  lemma OwnIsAttended(s: State)
    requires Mine(s)
    ensures forall k: nat :: HeldAt(s, k) && Running(s, s.pids[k]) ==> Attended(s, k)
  {
  }

  /** The attention stays, and a fork brings it. */
  lemma AttendedNext(s: State, e: Event, k: nat)
    requires Sane(s) && Possible(s, e) && !e.ExecFails? && (s.phase.Checking? || s.phase.Sleeping?) && k < |s.pids|
    ensures Attended(s, k) || (Forks(s, e) && k == s.phase.i) ==> Attended(Next(s, e), k)
  {
    hide Reached;
  }

  /**
   * Every pass of checks attends to the own child of every descriptor, while no process gets an id that a descriptor
   * still names.
   */
  lemma {:induction false} ChecksLookAtAll(s: State, events: seq<Event>)
    requires Sane(s) && Mine(s) && Looked(s) && Run(s, events)
    requires NoClash(s, events) && NoIntruder(s, events)
    ensures Looked(After(s, events))
    decreases |events|
  {
    if events != [] {
      StepLooks(s, events[0]);
      StepKeepsMine(s, events[0]);
      StepKeepsSane(s, events[0]);
      ChecksLookAtAll(Next(s, events[0]), events[1..]);
    }
  }

  // ---- Children that are not started again ----

  /** A process that is not the own child of the descriptor runs under its id. */
  predicate Shadowed(s: State, k: nat) {
    HeldAt(s, k) && Running(s, s.pids[k]) && k !in s.own
  }

  /** The process with the id goes away, or the supervisor is killed. */
  predicate Vanishes(e: Event, pid: int) {
    e.ExecFails? || e == Dies(pid) || e == Goes(pid)
  }

  ghost predicate Stays(events: seq<Event>, pid: int) {
    forall j :: 0 <= j < |events| ==> !Vanishes(events[j], pid)
  }

  /** The process has been sent SIGINT. */
  predicate Hit(s: State, pid: int) {
    pid in s.signalled || pid in s.struck
  }

  lemma StepKeepsShadow(s: State, e: Event, k: nat)
    requires Sane(s) && Possible(s, e) && Shadowed(s, k) && !Vanishes(e, s.pids[k])
    ensures var t := Next(s, e); (Shadowed(t, k) && t.pids[k] == s.pids[k]) || Hit(t, s.pids[k])
  {
    if !StopsAt(s, e, k) {
      HeldNext(s, e, k);
      ChildrenNext(s, e, k);
      StrangersNext(s, e);
      hide Next, HeldAt, InBounds;
    }
  }

  /**
   * The child of a descriptor whose id some other process has is not started again while that process stays. When the
   * supervisor stops, the process is sent SIGINT in its place.
   */
  lemma {:induction false} NotStartedAgain(s: State, events: seq<Event>, k: nat)
    requires Sane(s) && Run(s, events) && Shadowed(s, k) && Stays(events, s.pids[k])
    ensures var t := After(s, events); (Shadowed(t, k) && t.pids[k] == s.pids[k]) || Hit(t, s.pids[k])
    decreases |events|
  {
    if events != [] {
      StepKeepsShadow(s, events[0], k);
      StepKeepsSane(s, events[0]);
      if Hit(Next(s, events[0]), s.pids[k]) {
        HitStays(Next(s, events[0]), events[1..], s.pids[k]);
      } else {
        NotStartedAgain(Next(s, events[0]), events[1..], k);
      }
    }
  }

  lemma {:induction false} HitStays(s: State, events: seq<Event>, pid: int)
    requires Hit(s, pid) && Stays(events, pid)
    ensures Hit(After(s, events), pid)
    decreases |events|
  {
    if events != [] {
      HitStays(Next(s, events[0]), events[1..], pid);
    }
  }

  // ---- Two runs that fail ----

  /** Any step but a fork; the values are those of a configuration with two processes. */
  const STEP := Advance(FORK_FAILED, 2, true)

  function Fork(id: int): Event {
    Advance(id, 2, true)
  }

  /** Both children have been started, and the main loop begins. */
  function StartedTwo(p: int, q: int): State {
    State(Guard, [p, q], KEEP_RUNNING, {p, q}, {}, {0, 1}, {}, {}, false, {}, false)
  }

  lemma StartOfTwo(p: int, q: int)
    requires 0 < p && 0 < q && p != q
    ensures var events := [STEP, Fork(p), Fork(q), STEP, STEP];
            Run(INITIAL, events) && NoClash(INITIAL, events) && NoIntruder(INITIAL, events) &&
            After(INITIAL, events) == StartedTwo(p, q)
  {
    hide Run, After, NoClash, NoIntruder, Reached;
    var s1 := Next(INITIAL, STEP);
    var s2 := Next(s1, Fork(p));
    var s3 := Next(s2, Fork(q));
    var s4 := Next(s3, STEP);
    var s5 := Next(s4, STEP);
    assert s1.pids == [0, 0] && s2.pids == [p, 0] && s3.pids == [p, q] && s3.live == {p, q} && s3.own == {0, 1};
    NoStep(s5);
    FirstStep(s4, STEP, []);
    FirstStep(s3, STEP, [STEP]);
    FirstStep(s2, Fork(q), [STEP] + [STEP]);
    FirstStep(s1, Fork(p), [Fork(q)] + ([STEP] + [STEP]));
    FirstStep(INITIAL, STEP, [Fork(p)] + ([Fork(q)] + ([STEP] + [STEP])));
    assert [STEP] + ([Fork(p)] + ([Fork(q)] + ([STEP] + [STEP]))) == [STEP, Fork(p), Fork(q), STEP, STEP];
    assert [STEP] + [] == [STEP];
  }

  /**
   * When two children have died and the first is started again under the id of the second, the second descriptor takes
   * that child for its own: the pass of checks ends with one child for two descriptors.
   */
  lemma ReuseHidesADeadChild(p: int, q: int)
    requires 0 < p && 0 < q && p != q
    ensures var events :=
              [STEP, Fork(p), Fork(q), STEP, STEP] + [Dies(p), Dies(q), STEP, Fork(q), STEP, STEP];
            var s := After(INITIAL, events);
            Run(INITIAL, events) && s.phase == Sleeping && s.pids == [q, q] && s.live == {q} &&
            Shadowed(s, 1) && !Looked(s) && NoIntruder(INITIAL, events) && !NoClash(INITIAL, events)
  {
    hide Run, After, NoClash, NoIntruder, Reached;
    var rest := [Dies(p), Dies(q), STEP, Fork(q), STEP, STEP];
    StartOfTwo(p, q);
    RunOn(INITIAL, [STEP, Fork(p), Fork(q), STEP, STEP], rest);
    var s0 := StartedTwo(p, q);
    var s1 := Next(s0, Dies(p));
    var s2 := Next(s1, Dies(q));
    var s3 := Next(s2, STEP);
    var s4 := Next(s3, Fork(q));
    var s5 := Next(s4, STEP);
    var s6 := Next(s5, STEP);
    assert s1.own == {1} && s2.live == s2.own == {};
    assert s3.pids[1] == q && s4.pids == [q, q] && s4.live == {q} && s4.own == {0} && s4.lost == {};
    assert !Attended(s6, 1);
    NoStep(s6);
    FirstStep(s5, STEP, []);
    FirstStep(s4, STEP, [STEP]);
    FirstStep(s3, Fork(q), [STEP] + [STEP]);
    FirstStep(s2, STEP, [Fork(q)] + ([STEP] + [STEP]));
    FirstStep(s1, Dies(q), [STEP] + ([Fork(q)] + ([STEP] + [STEP])));
    FirstStep(s0, Dies(p), [Dies(q)] + ([STEP] + ([Fork(q)] + ([STEP] + [STEP]))));
    assert [Dies(p)] + ([Dies(q)] + ([STEP] + ([Fork(q)] + ([STEP] + [STEP])))) == rest;
    assert [STEP] + [] == [STEP];
  }

  /**
   * When a child has died and a stranger comes under its id, the checks take the stranger for the child. The child is
   * not started again, and stopping sends SIGINT to the stranger, although no fork has failed.
   */
  lemma StrangerIsStruck(p: int, q: int)
    requires 0 < p && 0 < q && p != q
    ensures var events := [STEP, Fork(p), Fork(q), STEP, STEP] + [Dies(p), Comes(p), STEP, STEP, STEP, STEP];
            var s := After(INITIAL, events);
            Run(INITIAL, events) && s.phase == Sleeping && s.pids == [p, q] && s.live == {q} && Shadowed(s, 0) &&
            !Looked(s) && NoClash(INITIAL, events) && !NoIntruder(INITIAL, events) &&
            var stop := [Asked(STOP), STEP, STEP, STEP];
            Run(s, stop) && After(s, stop).struck == {p} && !After(s, stop).failed
  {
    hide Run, After, NoClash, NoIntruder, Reached;
    var rest := [Dies(p), Comes(p), STEP, STEP, STEP, STEP];
    StartOfTwo(p, q);
    RunOn(INITIAL, [STEP, Fork(p), Fork(q), STEP, STEP], rest);
    var s0 := StartedTwo(p, q);
    var s1 := Next(s0, Dies(p));
    var s2 := Next(s1, Comes(p));
    var s3 := Next(s2, STEP);
    var s4 := Next(s3, STEP);
    var s5 := Next(s4, STEP);
    var s6 := Next(s5, STEP);
    assert s1.live == {q} && s1.own == {1} && s2.strangers == {p};
    assert HeldAt(s1, 0) && s1.pids[0] == p;
    assert !Attended(s6, 0);
    NoStep(s6);
    FirstStep(s5, STEP, []);
    FirstStep(s4, STEP, [STEP]);
    FirstStep(s3, STEP, [STEP] + [STEP]);
    FirstStep(s2, STEP, [STEP] + ([STEP] + [STEP]));
    FirstStep(s1, Comes(p), [STEP] + ([STEP] + ([STEP] + [STEP])));
    FirstStep(s0, Dies(p), [Comes(p)] + ([STEP] + ([STEP] + ([STEP] + [STEP]))));
    assert [Dies(p)] + ([Comes(p)] + ([STEP] + ([STEP] + ([STEP] + [STEP])))) == rest;
    assert [STEP] + [] == [STEP];
    StopStrikes(s6, p);
  }

  lemma StopStrikes(s: State, p: int)
    requires s.phase.Sleeping? && |s.pids| > 0 && s.pids[0] == p > 0 && s.strangers == {p} && s.struck == {}
    ensures var stop := [Asked(STOP), STEP, STEP, STEP];
            Run(s, stop) && After(s, stop).struck == {p} && After(s, stop).failed == s.failed
  {
    hide Run, After, NoClash, NoIntruder;
    var s1 := Next(s, Asked(STOP));
    var s2 := Next(s1, STEP);
    var s3 := Next(s2, STEP);
    var s4 := Next(s3, STEP);
    NoStep(s4);
    FirstStep(s3, STEP, []);
    FirstStep(s2, STEP, [STEP]);
    FirstStep(s1, STEP, [STEP] + [STEP]);
    FirstStep(s, Asked(STOP), [STEP] + ([STEP] + [STEP]));
    assert [Asked(STOP)] + ([STEP] + ([STEP] + [STEP])) == [Asked(STOP), STEP, STEP, STEP];
    assert [STEP] + [] == [STEP];
  }

  // ---- Starting ----

  /** A child has been started, or could not be, for every descriptor that the main loop has come by. */
  predicate Begun(s: State) {
    match s.phase
    case Starting(i) => forall k :: 0 <= k < i && k < |s.pids| ==> s.pids[k] != 0
    case Loading => true
    case _ => forall k :: 0 <= k < |s.pids| ==> s.pids[k] != 0
  }

  /** Before the main loop begins, all children that the configuration lists have been started. */
  lemma {:induction false} AllAreStarted(s: State, events: seq<Event>)
    requires Begun(s) && s.phase != Ended && Run(s, events) && NoEnd(s, events)
    ensures Begun(After(s, events))
    decreases |events|
  {
    if events != [] {
      StepBegins(s, events[0]);
      AllAreStarted(Next(s, events[0]), events[1..]);
    }
  }

  /** The supervisor does not end during the run. */
  ghost predicate NoEnd(s: State, events: seq<Event>)
    decreases |events|
  {
    s.phase != Ended && (events != [] ==> NoEnd(Next(s, events[0]), events[1..]))
  }

  lemma StepBegins(s: State, e: Event)
    requires Begun(s) && s.phase != Ended && Possible(s, e) && Next(s, e).phase != Ended
    ensures Begun(Next(s, e))
  {
    hide Reached, OwnersOf;
  }

  /** As many as the configuration lists. */
  lemma LoadsAll(s: State, e: Event)
    requires s.phase.Loading? && e.Advance? && e.loads
    ensures Next(s, e).phase == Starting(0) && |Next(s, e).pids| == e.count && Begun(Next(s, e))
  {
  }

  // ---- Requests ----

  /** In how many steps the main loop turns to stopping, once it is asked to. */
  function Distance(s: State): nat {
    match s.phase
    case Guard => 1
    case Sleeping => 2
    case Checking(i) => if i < |s.pids| then 3 + |s.pids| - i else 3
    case _ => 0
  }

  function Steps(events: seq<Event>): nat {
    if events == [] then 0 else (if events[0].Advance? then 1 else 0) + Steps(events[1..])
  }

  predicate InLoop(s: State) {
    s.phase.Guard? || s.phase.Sleeping? || s.phase.Checking?
  }

  /** Each step of the main loop brings it nearer to the guard; else only a failed exec takes it away. */
  lemma OneStepCloser(s: State, e: Event)
    requires InLoop(s) && s.request != KEEP_RUNNING && Possible(s, e) && !e.ExecFails?
    ensures var t := Next(s, e);
            if s.phase.Guard? && e.Advance? then t.phase == Stopping(0)
            else InLoop(t) && t.request != KEEP_RUNNING && Distance(t) == Distance(s) - (if e.Advance? then 1 else 0)
  {
  }

  /** An exec fails before the main loop has done so many steps. */
  predicate FailsWithin(events: seq<Event>, steps: nat)
    decreases |events|
  {
    events != [] && steps > 0 &&
    (events[0].ExecFails? || FailsWithin(events[1..], if events[0].Advance? then steps - 1 else steps))
  }

  /** The run comes to where stopping begins. */
  ghost predicate Stops(s: State, events: seq<Event>)
    decreases |events|
  {
    s.phase == Stopping(0) || (events != [] && Stops(Next(s, events[0]), events[1..]))
  }

  lemma {:induction false} EndedStays(s: State, events: seq<Event>)
    requires s.phase.Ended?
    ensures After(s, events).phase.Ended? && !Stops(s, events)
    decreases |events|
  {
    if events != [] {
      EndedStays(Next(s, events[0]), events[1..]);
    }
  }

  /**
   * A request that arrives while the main loop runs is honoured within one pass, so that no later check begins,
   * exactly when no child fails to execute its program meanwhile.
   */
  lemma {:induction false} RequestIsHonoured(s: State, events: seq<Event>) returns (n: nat)
    requires InLoop(s) && s.request != KEEP_RUNNING && Run(s, events) && Steps(events) >= Distance(s)
    ensures Stops(s, events) <==> !FailsWithin(events, Distance(s))
    ensures Stops(s, events) ==>
              n <= |events| && After(s, events[..n]).phase == Stopping(0) && Steps(events[..n]) == Distance(s)
    decreases |events|
  {
    n := 0;
    var e, rest := events[0], events[1..];
    if e.ExecFails? {
      EndedStays(Next(s, e), rest);
    } else {
      OneStepCloser(s, e);
      hide Next, Possible;
      if s.phase.Guard? && e.Advance? {
        n := 1;
        assert events[..1][1..] == [];
      } else {
        var m := RequestIsHonoured(Next(s, e), rest);
        n := m + 1;
        assert Stops(Next(s, e), rest) ==> events[..n][1..] == rest[..m];
      }
    }
  }

  /** The children are being started, or are being watched and nothing is asked. */
  predicate Serving(s: State) {
    s.phase.Starting? || s.phase.Clearing? || (InLoop(s) && s.request == KEEP_RUNNING)
  }

  ghost predicate NothingAsked(events: seq<Event>) {
    forall k :: 0 <= k < |events| ==> !events[k].Asked?
  }

  ghost predicate NoExecFails(events: seq<Event>) {
    forall k :: 0 <= k < |events| ==> !events[k].ExecFails?
  }

  lemma ServingNext(s: State, e: Event)
    requires !e.Asked?
    ensures Serving(s) ==> (Serving(Next(s, e)) <==> !e.ExecFails?) && s.phase != Stopping(0)
    ensures Serving(s) || s.phase.Loading? || s.phase.Ended? ==>
              var t := Next(s, e); Serving(t) || t.phase.Loading? || t.phase.Ended?
    ensures e.ExecFails? ==> Next(s, e).phase.Ended?
  {
    hide Reached, OwnersOf;
  }

  /**
   * Unless something is asked, children are watched forever, whatever was asked before, exactly as long as all can
   * execute their programs. Nothing but a request leads to stopping.
   */
  lemma {:induction false} UndisturbedServes(s: State, events: seq<Event>)
    requires NothingAsked(events)
    ensures Serving(s) ==> (Serving(After(s, events)) <==> NoExecFails(events))
    ensures Serving(s) || s.phase.Loading? || s.phase.Ended? ==>
              var t := After(s, events); (Serving(t) || t.phase.Loading? || t.phase.Ended?) && !Stops(s, events)
    decreases |events|
  {
    if events != [] {
      ServingNext(s, events[0]);
      hide Next;
      UndisturbedServes(Next(s, events[0]), events[1..]);
      if events[0].ExecFails? {
        EndedStays(Next(s, events[0]), events[1..]);
      }
    }
  }

  /**
   * Of the requests that arrive before stopping begins, those in the main loop are honoured, unless a child that
   * cannot execute its program kills the supervisor first. Those that arrive while the configuration is loaded or the
   * children are started are forgotten.
   */
  lemma HonouredExactlyInLoop(s: State, request: int, events: seq<Event>)
    requires request != KEEP_RUNNING && !s.phase.Stopping? && !s.phase.Deciding?
    requires var t := Next(s, Asked(request)); Run(t, events) && NothingAsked(events) && Steps(events) >= Distance(t)
    ensures var t := Next(s, Asked(request));
            Stops(t, events) <==> InLoop(s) && !FailsWithin(events, Distance(t))
  {
    var t := Next(s, Asked(request));
    if InLoop(s) {
      var _ := RequestIsHonoured(t, events);
    } else {
      UndisturbedServes(t, events);
    }
  }

  /** What was asked last. */
  function LastAsked(request: int, events: seq<Event>): int
    decreases |events|
  {
    if events == [] then request
    else LastAsked(if events[0].Asked? then events[0].request else request, events[1..])
  }

  /** Stopping has begun. */
  predicate Leaving(s: State) {
    (s.phase.Stopping? && s.phase.i <= |s.pids|) || s.phase.Deciding?
  }

  /** In how many steps it is done. */
  function Remaining(s: State): nat
    requires Leaving(s)
  {
    if s.phase.Stopping? then |s.pids| - s.phase.i + 1 else 0
  }

  lemma LeavingNext(s: State, e: Event)
    requires Leaving(s) && !e.ExecFails? && (e.Advance? ==> Remaining(s) > 0)
    ensures var t := Next(s, e);
            Leaving(t) && Remaining(t) == Remaining(s) - (if e.Advance? then 1 else 0) &&
            t.request == if e.Asked? then e.request else s.request
  {
    hide Reached, OwnersOf;
  }

  /**
   * Once stopping has begun, the last request before it is done decides between another start and the end, unless a
   * child that cannot execute its program brings the end.
   */
  lemma {:induction false} LastRequestDecides(s: State, events: seq<Event>, last: Event)
    requires Leaving(s) && Steps(events) == Remaining(s) && last.Advance?
    ensures After(s, events + [last]).phase ==
            if NoExecFails(events) && LastAsked(s.request, events) == RELOAD then Loading else Ended
    decreases |events|
  {
    if events == [] {
      assert events + [last] == [last] + [];
      FirstStep(s, last, []);
    } else {
      assert events + [last] == [events[0]] + (events[1..] + [last]);
      FirstStep(s, events[0], events[1..] + [last]);
      if events[0].ExecFails? {
        EndedStays(Next(s, events[0]), events[1..] + [last]);
      } else {
        LeavingNext(s, events[0]);
        hide Next;
        LastRequestDecides(Next(s, events[0]), events[1..], last);
      }
    }
  }

  // ---- Whom SIGINT reaches ----

  predicate SparesOthers(s: State) {
    !s.failed ==> !s.broadcast && s.struck == {} && FORK_FAILED !in s.pids
  }

  /**
   * While forks succeed and no stranger comes under an id that a descriptor still names, only the supervisor's own
   * children are sent SIGINT.
   */
  lemma {:induction false} OnlyChildrenAreSignalled(s: State, events: seq<Event>)
    requires Sane(s) && Apart(s) && SparesOthers(s) && Run(s, events) && NoIntruder(s, events)
    ensures SparesOthers(After(s, events))
    decreases |events|
  {
    if events != [] {
      StepKeepsApart(s, events[0]);
      StepKeepsSane(s, events[0]);
      OnlyChildrenAreSignalled(Next(s, events[0]), events[1..]);
    }
  }

  /** A stranger goes that a descriptor still names, or the supervisor is killed. */
  ghost predicate Escapes(s: State, e: Event) {
    e.ExecFails? || (e.Goes? && exists k: nat :: HeldAt(s, k) && s.pids[k] == e.pid)
  }

  ghost predicate NobodyEscapes(s: State, events: seq<Event>)
    decreases |events|
  {
    events != [] ==> !Escapes(s, events[0]) && NobodyEscapes(Next(s, events[0]), events[1..])
  }

  lemma StepStrikes(s: State, e: Event)
    requires Sane(s) && Possible(s, e) && !Escapes(s, e) && FORK_FAILED !in s.pids
    ensures var t := Next(s, e);
            t.struck != {} || !Apart(t) <==> s.struck != {} || !Apart(s) || Intrudes(s, e)
  {
    var t := Next(s, e);
    StrangersNext(s, e);
    if Apart(s) {
      StepKeepsApart(s, e);
      assert s.phase.Stopping? && StopsAt(s, e, s.phase.i) ==> HeldAt(s, s.phase.i);
    } else {
      var k: nat :| HeldAt(s, k) && s.pids[k] in s.strangers;
      HeldNext(s, e, k);
    }
  }

  lemma {:induction false} FailedStays(s: State, events: seq<Event>)
    requires s.failed
    ensures After(s, events).failed
    decreases |events|
  {
    if events != [] {
      FailedStays(Next(s, events[0]), events[1..]);
    }
  }

  /**
   * While forks succeed, and the strangers that descriptors name stay until the supervisor has stopped, some stranger
   * is sent SIGINT exactly when one has come under an id that a descriptor still named.
   */
  lemma {:induction false} StruckExactly(s: State, events: seq<Event>)
    requires Sane(s) && FORK_FAILED !in s.pids && Run(s, events) && NobodyEscapes(s, events)
    requires var t := After(s, events); !t.failed && forall k: nat :: !HeldAt(t, k)
    ensures After(s, events).struck != {} <==> s.struck != {} || !Apart(s) || !NoIntruder(s, events)
    decreases |events|
  {
    if events != [] {
      var t := Next(s, events[0]);
      StepStrikes(s, events[0]);
      StepKeepsSane(s, events[0]);
      if t.failed {
        FailedStays(t, events[1..]);
      }
      StruckExactly(t, events[1..]);
    }
  }

  /**
   * Stopping sends SIGINT to every process of the system exactly when some descriptor is left with a failed fork,
   * whatever dies, comes, goes or is asked for meanwhile.
   */
  lemma {:induction false} StopSpares(s: State, events: seq<Event>)
    requires s.phase.Stopping? && s.phase.i <= |s.pids| && Steps(events) == |s.pids| - s.phase.i
    requires NoExecFails(events)
    ensures var t := After(s, events);
            t.phase == Stopping(|s.pids|) && t.pids == s.pids &&
            (t.broadcast <==> s.broadcast || FORK_FAILED in s.pids[s.phase.i..])
    decreases |events|
  {
    var i := s.phase.i;
    if events == [] {
      assert s.pids[i..] == [];
    } else {
      if events[0].Advance? {
        assert s.pids[i..] == [s.pids[i]] + s.pids[i + 1..];
      }
      StopSpares(Next(s, events[0]), events[1..]);
    }
  }

  // ---- Runs from the start ----

  /**
   * From the start of the supervisor on: no process gets an id that a descriptor still names exactly as long as
   * descriptors name their own children or nothing that runs. Then every pass of checks attends to all own children.
   * While forks succeed, SIGINT reaches the supervisor's own children only, if no stranger comes under such an id.
   */
  lemma FromTheStart(events: seq<Event>)
    requires Run(INITIAL, events)
    ensures AllMine(INITIAL, events) <==> NoClash(INITIAL, events) && NoIntruder(INITIAL, events)
    ensures AllMine(INITIAL, events) ==> Looked(After(INITIAL, events))
    ensures var t := After(INITIAL, events);
            NoIntruder(INITIAL, events) && !t.failed ==> !t.broadcast && t.struck == {}
  {
    OwnChildrenExactly(INITIAL, events);
    if NoIntruder(INITIAL, events) {
      OnlyChildrenAreSignalled(INITIAL, events);
      if NoClash(INITIAL, events) {
        ChecksLookAtAll(INITIAL, events);
      }
    }
  }
}
