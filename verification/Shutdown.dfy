/**
 * The shutdown flag, the kick list and the vCPU loops as interleaved threads (src/input.rs, src/vcpu.rs,
 * src/main.rs). Each step is one atomic access: a flag load or store, a list operation under the lock, one kick.
 */
module Shutdown {

  /**
   * Program counters. A vCPU thread starts `Spawned`; any other thread that may request shutdown starts `Waiting`.
   * `Passed` has read the flag as clear and not yet entered `step_run`; `Kicking(i)` holds the lock and has sent
   * `i` kicks.
   */
  datatype Pc = Spawned | Waiting | Checking | Passed | Running | Flagging | Locking | Kicking(sent: nat) | Finished

  /**
   * `late[t]` counts the `step_run` calls thread `t` began with the flag set; `kicks` records who kicked whom, and
   * `hits` the kicks that found their target inside `step_run`.
   */
  datatype Sys = Sys(
    pcs: seq<Pc>, flag: bool, lock: int, targets: seq<nat>, late: seq<nat>,
    kicks: set<(nat, nat)>, hits: set<(nat, nat)>)

  const FREE := -1

  datatype Event =
    | Register(t: nat)
    | Check(t: nat)
    | Enter(t: nat)
    | Return(t: nat, stop: bool)
    | Ask(t: nat)
    | Flag(t: nat)
    | Acquire(t: nat)
    | Kick(t: nat)
    | Release(t: nat)

  predicate Enabled(s: Sys, ev: Event)
  {
    && ev.t < |s.pcs|
    && var pc := s.pcs[ev.t];
       match ev
       case Register(_) => pc == Spawned && s.lock == FREE
       case Check(_) => pc == Checking
       case Enter(_) => pc == Passed
       case Return(_, _) => pc == Running
       case Ask(_) => pc == Waiting
       case Flag(_) => pc == Flagging
       case Acquire(_) => pc == Locking && s.lock == FREE
       case Kick(_) => pc.Kicking? && pc.sent < |s.targets|
       case Release(_) => pc.Kicking? && pc.sent == |s.targets|
  }

  function Step(s: Sys, ev: Event): (s': Sys)
    requires Enabled(s, ev) && |s.late| == |s.pcs|
    ensures |s'.pcs| == |s.pcs| == |s'.late|
  {
    var t := ev.t;
    match ev
    case Register(_) => s.(pcs := s.pcs[t := Checking], targets := s.targets + [t])
    case Check(_) => s.(pcs := s.pcs[t := if s.flag then Flagging else Passed])
    case Enter(_) => s.(pcs := s.pcs[t := Running], late := if s.flag then s.late[t := s.late[t] + 1] else s.late)
    case Return(_, stop) => s.(pcs := s.pcs[t := if stop then Flagging else Checking])
    case Ask(_) => s.(pcs := s.pcs[t := Flagging])
    case Flag(_) => s.(pcs := s.pcs[t := Locking], flag := true)
    case Acquire(_) => s.(pcs := s.pcs[t := Kicking(0)], lock := t)
    case Kick(_) =>
      var u := s.targets[s.pcs[t].sent];
      s.(pcs := s.pcs[t := Kicking(s.pcs[t].sent + 1)], kicks := s.kicks + {(t, u)},
         hits := if u < |s.pcs| && s.pcs[u].Running? then s.hits + {(t, u)} else s.hits)
    case Release(_) => s.(pcs := s.pcs[t := Finished], lock := FREE)
  }

  // ---- Invariant ----

  predicate Init(s: Sys)
  {
    && |s.late| == |s.pcs| && !s.flag && s.lock == FREE && s.targets == [] && s.kicks == {} && s.hits == {}
    && (forall t :: 0 <= t < |s.pcs| ==> s.pcs[t].Spawned? || s.pcs[t].Waiting?)
    && (forall t :: 0 <= t < |s.late| ==> s.late[t] == 0)
  }

  /** In `step_run`, or about to enter it without another look at the flag. */
  predicate Inside(pc: Pc) { pc.Passed? || pc.Running? }

  predicate Requested(pc: Pc) { pc.Locking? || pc.Kicking? || pc.Finished? }

  /** Thread `r` has kicked `u` inside `step_run`, unless `u` is not in it or entered it with the flag already set. */
  ghost predicate Found(s: Sys, r: nat, u: nat)
    requires |s.pcs| == |s.late|
  {
    u < |s.pcs| && s.pcs[u].Running? && s.late[u] == 0 ==> (r, u) in s.hits
  }

  /** Whom the kick loop of `r` has reached so far. */
  ghost predicate Reached(s: Sys, r: nat)
    requires r < |s.pcs| == |s.late|
  {
    match s.pcs[r]
    case Kicking(sent) =>
      forall j :: 0 <= j < sent && j < |s.targets| ==> (r, s.targets[j]) in s.kicks && Found(s, r, s.targets[j])
    case Finished => forall u :: 0 <= u < |s.pcs| ==> Found(s, r, u)
    case _ => true
  }

  ghost predicate ThreadOk(s: Sys, t: nat)
    requires t < |s.pcs| == |s.late|
  {
    var pc := s.pcs[t];
    && (Inside(pc) || pc.Checking? ==> t in s.targets)
    && (Requested(pc) ==> s.flag)
    && (pc.Kicking? <==> s.lock == t)
    && (pc.Kicking? ==> pc.sent <= |s.targets|)
    && Reached(s, t)
    && s.late[t] <= 1
    && (!s.flag || pc.Passed? || pc.Spawned? ==> s.late[t] == 0)
  }

  ghost predicate Inv(s: Sys)
  {
    && |s.late| == |s.pcs| && (s.lock == FREE || 0 <= s.lock < |s.pcs|)
    && (!s.flag ==> s.hits == {} && s.lock == FREE)
    && (forall t :: 0 <= t < |s.pcs| ==> ThreadOk(s, t))
  }

  lemma InitHolds(s: Sys)
    requires Init(s)
    ensures Inv(s)
  {
  }

  lemma {:induction false} StepKeeps(s: Sys, ev: Event)
    requires Inv(s) && Enabled(s, ev)
    ensures Inv(Step(s, ev))
  {
    hide Reached;
    var s' := Step(s, ev);
    assert ThreadOk(s, ev.t);
    if s.lock != FREE {
      assert ThreadOk(s, s.lock);
    }
    forall t | 0 <= t < |s'.pcs|
      ensures ThreadOk(s', t)
    {
      assert ThreadOk(s, t);
      ReachedKeeps(s, ev, t);
    }
  }

  lemma {:induction false} ReachedKeeps(s: Sys, ev: Event, r: nat)
    requires Inv(s) && Enabled(s, ev) && r < |s.pcs|
    ensures Reached(Step(s, ev), r)
  {
    var s' := Step(s, ev);
    assert ThreadOk(s, r) && ThreadOk(s, ev.t);
    if s'.pcs[r].Finished? {
      forall u | 0 <= u < |s.pcs|
        ensures Found(s', r, u)
      {
        assert ThreadOk(s, u);
        assert s.pcs[u].Running? ==> Found(s, r, u);
      }
    }
  }

  // ---- Runs ----

  ghost predicate Legal(s: Sys, evs: seq<Event>)
    requires |s.late| == |s.pcs|
    decreases |evs|, 0
  {
    evs == [] || (Legal(s, evs[..|evs| - 1]) && Enabled(After(s, evs[..|evs| - 1]), evs[|evs| - 1]))
  }

  ghost function After(s: Sys, evs: seq<Event>): (s': Sys)
    requires |s.late| == |s.pcs| && Legal(s, evs)
    ensures |s'.late| == |s'.pcs| == |s.pcs|
    decreases |evs|, 1
  {
    if evs == [] then s else Step(After(s, evs[..|evs| - 1]), evs[|evs| - 1])
  }

  lemma {:induction false} RunKeeps(s: Sys, evs: seq<Event>)
    requires Inv(s) && Legal(s, evs)
    ensures Inv(After(s, evs))
    decreases |evs|
  {
    hide Inv, Enabled;
    if evs != [] {
      assert |s.late| == |s.pcs| by { InvShape(s); }
      RunKeeps(s, evs[..|evs| - 1]);
      StepKeeps(After(s, evs[..|evs| - 1]), evs[|evs| - 1]);
    }
  }

  lemma InvShape(s: Sys)
    requires Inv(s)
    ensures |s.late| == |s.pcs|
  {
  }

  /** On every run each vCPU begins at most one `step_run` after the flag is set; a finished thread means it is set. */
  lemma {:induction false} AtMostOneMore(s: Sys, evs: seq<Event>, t: nat)
    requires Init(s) && Legal(s, evs) && t < |s.pcs|
    ensures After(s, evs).late[t] <= 1
    ensures After(s, evs).pcs[t].Finished? ==> After(s, evs).flag
  {
    InitHolds(s);
    RunKeeps(s, evs);
    assert ThreadOk(After(s, evs), t);
  }

  /** Once the flag is set it stays set, and no thread gets past the check any more. */
  lemma {:induction false} NoNewEntries(s: Sys, evs: seq<Event>, t: nat)
    requires |s.late| == |s.pcs| && Legal(s, evs) && t < |s.pcs| && s.flag
    ensures After(s, evs).flag
    ensures After(s, evs).pcs[t].Passed? ==> s.pcs[t].Passed?
    ensures Inside(After(s, evs).pcs[t]) ==> Inside(s.pcs[t])
    decreases |evs|
  {
    if evs != [] {
      NoNewEntries(s, evs[..|evs| - 1], t);
    }
  }

  /**
   * When a kick loop has sent its last kick, it has kicked every vCPU that is in `step_run`, and every vCPU that
   * is in it or enters it at any later time: a thread that registers later sees the flag first.
   */
  lemma {:induction false} KicksReachAll(s0: Sys, evs: seq<Event>, later: seq<Event>, r: nat, t: nat)
    requires Init(s0) && Legal(s0, evs)
    requires var s := After(s0, evs);
             && r < |s.pcs| && t < |s.pcs| && s.pcs[r] == Kicking(|s.targets|)
             && Legal(s, later) && Inside(After(s, later).pcs[t])
    ensures var s := After(s0, evs); Inside(s.pcs[t]) && (r, t) in s.kicks
  {
    hide After, Legal;
    InitHolds(s0);
    RunKeeps(s0, evs);
    var s := After(s0, evs);
    assert ThreadOk(s, r) && ThreadOk(s, t);
    NoNewEntries(s, later, t);
    var j :| 0 <= j < |s.targets| && s.targets[j] == t;
  }

  // ---- Kicks that find their target inside ----

  /** The kick loop of `r` has sent its last kick. */
  predicate Done(s: Sys, r: nat)
  {
    r < |s.pcs| && (s.pcs[r] == Kicking(|s.targets|) || s.pcs[r].Finished?)
  }

  /** A finished kick loop has kicked, inside `step_run`, every vCPU there that entered before the flag was set. */
  lemma {:induction false} FoundInside(s0: Sys, evs: seq<Event>, r: nat, t: nat)
    requires Init(s0) && Legal(s0, evs)
    requires var s := After(s0, evs); Done(s, r) && t < |s.pcs| && s.pcs[t].Running? && s.late[t] == 0
    ensures (r, t) in After(s0, evs).hits
  {
    hide After, Legal;
    InitHolds(s0);
    RunKeeps(s0, evs);
    var s := After(s0, evs);
    assert ThreadOk(s, r) && ThreadOk(s, t);
    assert Found(s, r, t);
  }

  /** With the flag set, a vCPU in `step_run` either has been there all along or is not in it any more. */
  lemma {:induction false} StaysInside(s: Sys, evs: seq<Event>, t: nat)
    requires |s.late| == |s.pcs| && Legal(s, evs) && t < |s.pcs| && s.flag && !s.pcs[t].Passed?
    ensures Inside(After(s, evs).pcs[t]) ==> After(s, evs).pcs[t].Running? && After(s, evs).late[t] == s.late[t]
    decreases |evs|
  {
    if evs != [] {
      NoNewEntries(s, evs[..|evs| - 1], t);
      StaysInside(s, evs[..|evs| - 1], t);
    }
  }

  /** After `later` some kick loop is done and `t` is in `step_run`, where no kick has found it. */
  ghost predicate Missed(s: Sys, later: seq<Event>, t: nat)
    requires |s.late| == |s.pcs|
  {
    && Legal(s, later)
    && var s' := After(s, later);
       && t < |s'.pcs| && s'.pcs[t].Running?
       && (exists r :: Done(s', r))
       && (forall r :: (r, t) !in s'.hits)
  }

  /** `s` is where the request of `r` sets the flag for the first time. */
  ghost predicate FlagSet(s0: Sys, evs: seq<Event>, r: nat, s: Sys)
  {
    && Init(s0) && Legal(s0, evs)
    && var before := After(s0, evs);
       !before.flag && Enabled(before, Flag(r)) && s == Step(before, Flag(r))
  }

  lemma {:induction false} AtFlag(s0: Sys, evs: seq<Event>, r: nat, s: Sys)
    requires FlagSet(s0, evs, r, s)
    ensures Inv(s) && s.flag && s.lock == FREE && s.hits == {} && r < |s.pcs| && s.pcs[r].Locking?
    ensures forall t :: 0 <= t < |s.late| ==> s.late[t] == 0
    ensures Init(s0) && Legal(s0, evs + [Flag(r)]) && s == After(s0, evs + [Flag(r)])
  {
    hide After, Legal;
    InitHolds(s0);
    RunKeeps(s0, evs);
    var before := After(s0, evs);
    forall t | 0 <= t < |s.late|
      ensures s.late[t] == 0
    {
      assert ThreadOk(before, t);
    }
    StepKeeps(before, Flag(r));
    var evs', s' := Then(s0, evs, before, Flag(r));
  }

  lemma {:induction false} RunConcat(s: Sys, a: seq<Event>, b: seq<Event>)
    requires |s.late| == |s.pcs| && Legal(s, a) && Legal(After(s, a), b)
    ensures Legal(s, a + b) && After(s, a + b) == After(After(s, a), b)
    decreases |b|
  {
    hide Step, Enabled;
    if b == [] {
      assert a + b == a;
    } else {
      var init := b[..|b| - 1];
      RunConcat(s, a, init);
      assert (a + b)[..|a + b| - 1] == a + init;
    }
  }

  /** The rest of a kick loop: nobody else moves, and a vCPU that is not in `step_run` is not found there. */
  lemma {:induction false} KickLoop(s0: Sys, evs: seq<Event>, s: Sys, r: nat, t: nat)
    returns (evs': seq<Event>, s': Sys)
    requires |s0.late| == |s0.pcs| && Legal(s0, evs) && After(s0, evs) == s
    requires r < |s.pcs| && s.pcs[r].Kicking? && s.pcs[r].sent <= |s.targets|
    requires t < |s.pcs| && s.pcs[t].Passed? && forall q :: (q, t) !in s.hits
    ensures Legal(s0, evs') && After(s0, evs') == s'
    ensures |s'.pcs| == |s.pcs| && s'.pcs[r] == Kicking(|s'.targets|) && s'.pcs[t].Passed?
    ensures forall q :: (q, t) !in s'.hits
    decreases |s.targets| - s.pcs[r].sent
  {
    hide After, Legal;
    evs', s' := evs, s;
    if s.pcs[r].sent < |s.targets| {
      evs', s' := Then(s0, evs, s, Kick(r));
      evs', s' := KickLoop(s0, evs', s', r, t);
    }
  }

  /**
   * The kick that is lost: a vCPU that has passed the check when the flag is set can be kicked before it enters, and
   * then runs with that request finished.
   */
  lemma {:induction false} KickBeforeEntry(s: Sys, r: nat, t: nat) returns (later: seq<Event>)
    requires |s.late| == |s.pcs| && s.lock == FREE && s.hits == {} && r < |s.pcs| && s.pcs[r].Locking?
    requires t < |s.pcs| && s.pcs[t].Passed?
    ensures Missed(s, later, t)
  {
    hide After, Legal;
    Start(s);
    var s': Sys;
    later, s' := Then(s, [], s, Acquire(r));
    later, s' := KickLoop(s, later, s', r, t);
    later, s' := Then(s, later, s', Release(r));
    later, s' := Then(s, later, s', Enter(t));
    assert Done(s', r);
  }

  /**
   * Exactly when that can happen: from the state in which the flag is first set, a continuation leaves `t` in
   * `step_run` with a kick loop done and no kick having found it there, if and only if `t` had passed the check.
   */
  lemma {:induction false} MissedExactlyWhenPassed(s0: Sys, evs: seq<Event>, r: nat, s: Sys, t: nat)
    requires FlagSet(s0, evs, r, s) && t < |s.pcs|
    ensures |s.late| == |s.pcs|
    ensures (exists later :: Missed(s, later, t)) <==> s.pcs[t].Passed?
  {
    hide After, Legal, Enabled, Step, Missed;
    AtFlag(s0, evs, r, s);
    InvShape(s);
    if s.pcs[t].Passed? {
      var later := KickBeforeEntry(s, r, t);
    } else {
      forall later
        ensures !Missed(s, later, t)
      {
        NotMissed(s0, evs + [Flag(r)], s, later, t);
      }
    }
  }

  lemma {:induction false} NotMissed(s0: Sys, evs: seq<Event>, s: Sys, later: seq<Event>, t: nat)
    requires Init(s0) && Legal(s0, evs) && After(s0, evs) == s
    requires s.flag && t < |s.pcs| && !s.pcs[t].Passed? && s.late[t] == 0
    ensures !Missed(s, later, t)
  {
    hide After, Legal;
    if Missed(s, later, t) {
      StaysInside(s, later, t);
      RunConcat(s0, evs, later);
      var q :| Done(After(s, later), q);
      FoundInside(s0, evs + later, q, t);
    }
  }

  // ---- Completion ----

  /** The sum of a measure over all threads. */
  ghost function Sum(pcs: seq<Pc>, f: Pc -> nat): (n: nat)
  {
    if pcs == [] then 0 else Sum(pcs[..|pcs| - 1], f) + f(pcs[|pcs| - 1])
  }

  lemma {:induction false} SumUpdate(pcs: seq<Pc>, f: Pc -> nat, t: nat, pc: Pc)
    requires t < |pcs|
    ensures Sum(pcs[t := pc], f) + f(pcs[t]) == Sum(pcs, f) + f(pc)
  {
    var n := |pcs| - 1;
    if t == n {
      assert pcs[t := pc][..n] == pcs[..n];
    } else {
      SumUpdate(pcs[..n], f, t, pc);
      assert pcs[t := pc][..n] == pcs[..n][t := pc];
    }
  }

  function Unregistered(pc: Pc): nat { if pc.Spawned? then 1 else 0 }

  /** How long the kick list can become: those on it and those yet to register. */
  ghost function Listed(s: Sys): nat { |s.targets| + Sum(s.pcs, Unregistered) }

  /** With the flag set, how many steps a thread can still take when the list holds `k` threads in the end. */
  function Rank(pc: Pc, k: nat): (n: nat)
  {
    match pc
    case Finished => 0
    case Kicking(sent) => if sent <= k then k - sent + 1 else 0
    case Locking => k + 2
    case Flagging => k + 3
    case Checking => k + 4
    case Waiting => k + 4
    case Running => k + 5
    case Passed => k + 6
    case Spawned => k + 5
  }

  function Ranks(k: nat): Pc -> nat { pc => Rank(pc, k) }

  /** An upper bound on what is left to do, fixed when the flag is set. */
  ghost function Left(s: Sys): nat { Sum(s.pcs, Ranks(Listed(s))) }

  lemma {:induction false} StepDescends(s: Sys, ev: Event)
    requires |s.late| == |s.pcs| && s.flag && Enabled(s, ev)
    ensures var s' := Step(s, ev); s'.flag && Listed(s') == Listed(s) && Left(s') < Left(s)
  {
    hide Sum;
    var s' := Step(s, ev);
    var t, k := ev.t, Listed(s);
    SumUpdate(s.pcs, Unregistered, t, s'.pcs[t]);
    SumUpdate(s.pcs, Ranks(k), t, s'.pcs[t]);
  }

  /** Once the flag is set no run goes on for ever: at most `Left` more steps are taken, in any interleaving. */
  lemma {:induction false} ShutdownBounded(s: Sys, evs: seq<Event>)
    requires |s.late| == |s.pcs| && s.flag && Legal(s, evs)
    ensures After(s, evs).flag && |evs| + Left(After(s, evs)) <= Left(s)
    decreases |evs|
  {
    hide Step, Enabled, Left;
    if evs != [] {
      ShutdownBounded(s, evs[..|evs| - 1]);
      StepDescends(After(s, evs[..|evs| - 1]), evs[|evs| - 1]);
    }
  }

  /** The steps that are not the program's to take: a guest leaving `step_run`, and a new request. */
  predicate Outside(ev: Event) { ev.Return? || ev.Ask? }

  /** Some step of the thread, or of the thread holding the lock it waits for. */
  lemma {:induction false} NobodyStuck(s: Sys, t: nat) returns (ev: Event)
    requires Inv(s) && t < |s.pcs| && !s.pcs[t].Finished?
    ensures Enabled(s, ev)
    ensures Outside(ev) ==> s.pcs[t].Running? || s.pcs[t].Waiting?
  {
    assert ThreadOk(s, t);
    if s.lock != FREE && (s.pcs[t].Spawned? || s.pcs[t].Locking?) {
      var r: nat := s.lock;
      assert ThreadOk(s, r);
      ev := if s.pcs[r].sent < |s.targets| then Kick(r) else Release(r);
    } else {
      ev := match s.pcs[t]
        case Spawned => Register(t)
        case Waiting => Ask(t)
        case Checking => Check(t)
        case Passed => Enter(t)
        case Running => Return(t, false)
        case Flagging => Flag(t)
        case Locking => Acquire(t)
        case Kicking(sent) => if sent < |s.targets| then Kick(t) else Release(t)
        case Finished => Check(t);
    }
  }

  /** A run that cannot go on has finished every thread: there is no deadlock. */
  lemma {:induction false} ShutdownCompletes(s0: Sys, evs: seq<Event>)
    requires Init(s0) && Legal(s0, evs) && forall ev :: !Enabled(After(s0, evs), ev)
    ensures forall t :: 0 <= t < |s0.pcs| ==> After(s0, evs).pcs[t].Finished?
  {
    hide After, Legal, Enabled;
    InitHolds(s0);
    RunKeeps(s0, evs);
    var s := After(s0, evs);
    forall t | 0 <= t < |s0.pcs|
      ensures s.pcs[t].Finished?
    {
      if !s.pcs[t].Finished? {
        var ev := NobodyStuck(s, t);
      }
    }
  }

  /**
   * What a shutdown can wait for: when the program has done all it can after the flag was first set by `r`, every
   * thread is finished, has made no request, or is a vCPU in `step_run`; and such a vCPU was found there by the kick of
   * `r`, unless it had passed the check when the flag was set.
   */
  lemma {:induction false} OnlyGuestsRemain(s0: Sys, evs: seq<Event>, r: nat, s: Sys, later: seq<Event>, t: nat)
    requires FlagSet(s0, evs, r, s)
    requires |s.late| == |s.pcs| && Legal(s, later) && t < |s.pcs|
    requires forall ev :: Enabled(After(s, later), ev) ==> Outside(ev)
    ensures var s' := After(s, later);
            && (s'.pcs[t].Finished? || s'.pcs[t].Waiting? || s'.pcs[t].Running?)
            && (s'.pcs[t].Running? ==> (r, t) in s'.hits || s.pcs[t].Passed?)
  {
    hide After, Legal, Enabled, Inv;
    AtFlag(s0, evs, r, s);
    RunConcat(s0, evs + [Flag(r)], later);
    RunKeeps(s, later);
    var s' := After(s, later);
    if !s'.pcs[t].Finished? {
      var ev := NobodyStuck(s', t);
    }
    if s'.pcs[t].Running? && !s.pcs[t].Passed? {
      StaysInside(s, later, t);
      RequesterFinishes(s, later, r);
      if !s'.pcs[r].Finished? {
        var ev := NobodyStuck(s', r);
      }
      FoundInside(s0, evs + [Flag(r)] + later, r, t);
    }
  }

  /** A thread that has requested shutdown stays on the way out. */
  lemma {:induction false} RequesterFinishes(s: Sys, evs: seq<Event>, r: nat)
    requires |s.late| == |s.pcs| && Legal(s, evs) && r < |s.pcs| && Requested(s.pcs[r])
    ensures Requested(After(s, evs).pcs[r])
    decreases |evs|
  {
    if evs != [] {
      RequesterFinishes(s, evs[..|evs| - 1], r);
    }
  }

  /** Such states are reached: one vCPU between its check and its entry when another thread sets the flag. */
  lemma {:induction false} PassedAtFlag() returns (s0: Sys, evs: seq<Event>, s: Sys)
    ensures FlagSet(s0, evs, 1, s) && s.pcs[0].Passed?
  {
    hide Legal, After;
    s0 := Sys([Spawned, Waiting], false, FREE, [], [0, 0], {}, {});
    Start(s0);
    evs, s := Then(s0, [], s0, Register(0));
    evs, s := Then(s0, evs, s, Check(0));
    evs, s := Then(s0, evs, s, Ask(1));
    s := Step(s, Flag(1));
  }

  lemma Start(s0: Sys)
    requires |s0.late| == |s0.pcs|
    ensures Legal(s0, []) && After(s0, []) == s0
  {
  }

  lemma {:induction false} Then(s0: Sys, evs: seq<Event>, s: Sys, ev: Event) returns (evs': seq<Event>, s': Sys)
    requires |s0.late| == |s0.pcs| && Legal(s0, evs) && After(s0, evs) == s && Enabled(s, ev)
    ensures evs' == evs + [ev] && Legal(s0, evs') && s' == Step(s, ev) && After(s0, evs') == s'
  {
    evs', s' := evs + [ev], Step(s, ev);
    assert evs'[..|evs|] == evs;
  }
}
