/** Readers of the keyboard ring and the interrupt that fills it, as atomic steps over the
    scheduler's queues. Queue 0 of the blocked ones is keyboard_ring.blocked. */
module KeyboardModel {
  import opened Collections
  import opened SchedulerModel
  import opened SchedulerFairness
  import opened RingBuffers

  datatype Keyboard = Keyboard(
    sched: Sched,
    ring: seq<char>,
    accepted: seq<char>,           // every character the ring took in
    taken: seq<(Thread, char)>,    // every character handed out, and to whom
    asking: set<Pid>,              // the processes inside ring_consumer_block_next
    leaving: bool)                 // the running process is on a queue and about to yield

  datatype Action =
    | Other(e: Event)   // what the rest of the kernel does with the scheduler
    | Call              // the running process enters ring_consumer_block_next
    | Try               // CLI and one test of its loop: take a character, or PROC_block_on up to its yield
    | Poll              // ring_consumer_next
    | Key(c: char)      // ps2_irq_handler; '\0' for a code without a character

  // --------------------------------------------------------------------- steps

  /** The rest of the kernel leaves the keyboard's queue alone, and a process inside
      ring_consumer_block_next gives up the processor only from PROC_block_on. */
  predicate Allowed(s: Keyboard, e: Event) {
    match e
    case Create => true
    case Yield => s.sched.cur.Proc? ==> s.leaving || s.sched.cur.pid !in s.asking
    case Detach(q) => q > 0 && !s.leaving && s.sched.cur.Proc? && s.sched.cur.pid !in s.asking
    case Exit => !s.leaving && s.sched.cur.Proc? && s.sched.cur.pid !in s.asking
    case UnblockHead(q) => q > 0
    case UnblockAll(q) => q > 0
  }

  predicate CanDo(s: Keyboard, a: Action) {
    match a
    case Other(e) => Enabled(s.sched, e) && Allowed(s, e)
    case Call => !s.leaving && s.sched.cur.Proc? && s.sched.cur.pid in s.sched.avail && s.sched.cur.pid !in s.asking
    case Try =>
      && !s.leaving && s.sched.cur.Proc? && s.sched.cur.pid in s.asking
      && (s.ring == [] ==> Enabled(s.sched, Detach(0)))
    case Poll => !s.leaving && (s.sched.cur.Proc? ==> s.sched.cur.pid !in s.asking)
    case Key(_) => Enabled(s.sched, UnblockAll(0))
  }

  /** ring_producer_add_char, when there is a character. */
  predicate Accepts(s: Keyboard, c: char) {
    c != '\0' && |s.ring| < BUFF_SIZE - 1
  }

  function Taking(s: Keyboard): Keyboard
    requires s.ring != []
  {
    s.(ring := s.ring[1..], taken := s.taken + [(s.sched.cur, s.ring[0])])
  }

  /** What the action does to the scheduler, if anything. */
  function Effect(s: Keyboard, a: Action): seq<Event> {
    match a
    case Other(e) => [e]
    case Try => if s.ring == [] then [Detach(0)] else []
    case Key(_) => [UnblockAll(0)]
    case Call => []
    case Poll => []
  }

  function Does(s: Keyboard, a: Action): Keyboard
    requires CanDo(s, a)
  {
    match a
    case Other(e) => s.(sched := Step(s.sched, e), leaving := e.Detach? || (s.leaving && !e.Yield?))
    case Call => s.(asking := s.asking + {s.sched.cur.pid})
    case Try =>
      if s.ring == [] then s.(sched := Step(s.sched, Detach(0)), leaving := true)
      else Taking(s).(asking := s.asking - {s.sched.cur.pid})
    case Poll => if s.ring == [] then s else Taking(s)
    case Key(c) =>
      var t := s.(sched := Step(s.sched, UnblockAll(0)));
      if Accepts(s, c) then t.(ring := s.ring + [c], accepted := s.accepted + [c]) else t
  }

  // ----------------------------------------------------------------- invariant

  function Chars(taken: seq<(Thread, char)>): (r: seq<char>)
    ensures |r| == |taken|
  {
    seq(|taken|, i requires 0 <= i < |taken| => taken[i].1)
  }

  /** A process asking for a character is ready to run or blocked on the ring, and only such a
      process is blocked there; the running thread is ready unless it is about to yield. */
  ghost predicate Placed(s: Sched, asking: set<Pid>, leaving: bool) {
    && s.waits != []
    && (forall p :: p in asking ==> p in s.avail || p in s.waits[0])
    && (forall p :: p in s.waits[0] ==> p in asking)
    && (s.cur.Proc? ==> leaving || s.cur.pid in s.avail)
    && (leaving ==> s.cur.Proc?)
  }

  /** No wakeup is lost: a process is blocked on the ring only while the ring is empty. */
  ghost predicate NoLostWakeup(s: Keyboard) {
    s.sched.waits != [] && s.sched.waits[0] != [] ==> s.ring == []
  }

  /** Every accepted character has been handed out or is waiting, in order. */
  ghost predicate InOrder(s: Keyboard) {
    s.accepted == Chars(s.taken) + s.ring && |s.ring| < BUFF_SIZE
  }

  ghost predicate KeyboardInv(s: Keyboard) {
    Inv(s.sched) && Placed(s.sched, s.asking, s.leaving) && NoLostWakeup(s) && InOrder(s)
  }

  lemma {:induction false} RemoveOthers(s: seq<Pid>, p: Pid, x: Pid)
    requires x in s && x != p
    ensures x in Remove(s, p)
  {
    if p in s {
      assert x in multiset(Remove(s, p));
    }
  }

  lemma {:induction false} OthersStay(s: seq<Pid>, p: Pid, asking: set<Pid>)
    ensures forall x :: x in asking && x in s && x != p ==> x in Remove(s, p)
  {
    forall x | x in asking && x in s && x != p
      ensures x in Remove(s, p)
    {
      RemoveOthers(s, p, x);
    }
  }

  lemma {:induction false} RotateKeeps(s: seq<Pid>)
    ensures forall x :: x in s <==> x in Rotate(s)
  {
    assert forall x :: x in s <==> x in multiset(s);
    assert forall x :: x in Rotate(s) <==> x in multiset(Rotate(s));
  }

  lemma {:induction false} OtherPlaced(s: Keyboard, e: Event)
    requires Placed(s.sched, s.asking, s.leaving) && CanDo(s, Other(e))
    ensures var t := Does(s, Other(e)); Placed(t.sched, t.asking, t.leaving) && t.sched.waits[0] == s.sched.waits[0]
  {
    StepPicks(s.sched, e);
    match e
    case Create =>
    case Yield => RotateKeeps(s.sched.avail);
    case Detach(q) => OthersStay(s.sched.avail, s.sched.cur.pid, s.asking);
    case Exit => OthersStay(s.sched.avail, s.sched.cur.pid, s.asking);
    case UnblockHead(q) =>
    case UnblockAll(q) => DrainedAll(s.sched.avail, s.sched.waits[q]);
  }

  lemma {:induction false} BlockPlaced(s: Sched, asking: set<Pid>)
    requires Placed(s, asking, false) && Enabled(s, Detach(0)) && s.cur.pid in asking
    ensures Placed(Step(s, Detach(0)), asking, true)
  {
    OthersStay(s.avail, s.cur.pid, asking);
    var t := Step(s, Detach(0));
    assert t.waits[0][|t.waits[0]| - 1] == s.cur.pid;
    assert forall x :: x in s.waits[0] ==> x in t.waits[0];
  }

  lemma {:induction false} WakePlaced(s: Sched, asking: set<Pid>, leaving: bool)
    requires Placed(s, asking, leaving)
    ensures Placed(Step(s, UnblockAll(0)), asking, leaving)
  {
    DrainedAll(s.avail, s.waits[0]);
  }

  lemma {:induction false} DoesPlaced(s: Keyboard, a: Action)
    requires KeyboardInv(s) && CanDo(s, a)
    ensures var t := Does(s, a); Placed(t.sched, t.asking, t.leaving) && NoLostWakeup(t)
  {
    match a
    case Other(e) => OtherPlaced(s, e);
    case Try =>
      if s.ring == [] {
        BlockPlaced(s.sched, s.asking);
      }
    case Key(c) => WakePlaced(s.sched, s.asking, s.leaving);
    case Call =>
    case Poll =>
  }

  lemma {:induction false} DoesInOrder(s: Keyboard, a: Action)
    requires InOrder(s) && CanDo(s, a)
    ensures InOrder(Does(s, a))
  {
    if s.ring != [] {
      assert Chars(Taking(s).taken) == Chars(s.taken) + [s.ring[0]];
    }
  }

  lemma {:induction false} DoesInv(s: Keyboard, a: Action)
    requires Inv(s.sched) && CanDo(s, a)
    ensures Inv(Does(s, a).sched)
  {
    if Effect(s, a) != [] {
      StepKeepsInv(s.sched, Effect(s, a)[0]);
    }
  }

  /** Every action keeps the invariant. */
  lemma {:induction false} DoesKeeps(s: Keyboard, a: Action)
    requires KeyboardInv(s) && CanDo(s, a)
    ensures KeyboardInv(Does(s, a))
  {
    DoesPlaced(s, a);
    DoesInOrder(s, a);
    DoesInv(s, a);
  }

  ghost predicate IsSafe(once: Once, s: Keyboard) {
    match once
    case Only => KeyboardInv(s)
  }

  /** The invariant, opened where that is used. */
  ghost predicate Safe(s: Keyboard) {
    forall once: Once :: IsSafe(once, s)
  }

  lemma {:induction false} SafeIff(s: Keyboard)
    ensures Safe(s) <==> KeyboardInv(s)
  {
    assert Safe(s) ==> IsSafe(Only, s);
  }

  lemma {:induction false} SafeInv(s: Keyboard)
    requires Safe(s)
    ensures Inv(s.sched) && (s.leaving ==> s.sched.cur.Proc?)
  {
    SafeIff(s);
  }

  lemma {:induction false} DoesSafe(s: Keyboard, a: Action)
    requires Safe(s) && CanDo(s, a)
    ensures Safe(Does(s, a))
  {
    assert IsSafe(Only, s);
    DoesKeeps(s, a);
  }

  /** ring_consumer_block_next returns only from a take, and what it returns is the oldest
      accepted character not yet handed out. */
  lemma {:induction false} ReturnsNextAccepted(s: Keyboard, a: Action, p: Pid)
    requires KeyboardInv(s) && CanDo(s, a) && p in s.asking && p !in Does(s, a).asking
    ensures s.sched.cur == Proc(p) && |s.taken| < |s.accepted|
    ensures Does(s, a).taken == s.taken + [(Proc(p), s.accepted[|s.taken|])]
  {
  }

  /** A process that runs inside ring_consumer_block_next can always go on. */
  lemma {:induction false} TryNeverStuck(s: Keyboard)
    requires KeyboardInv(s) && s.sched.cur.Proc? && s.sched.cur.pid in s.asking
    ensures CanDo(s, if s.leaving then Other(Yield) else Try)
  {
  }

  // ---------------------------------------------------------------------- runs

  ghost predicate Acts(s: Keyboard, actions: seq<Action>)
    decreases |actions|
  {
    actions == [] || (CanDo(s, actions[0]) && Acts(Does(s, actions[0]), actions[1..]))
  }

  ghost function Last(s: Keyboard, actions: seq<Action>): Keyboard
    requires Acts(s, actions)
    decreases |actions|
  {
    if actions == [] then s else Last(Does(s, actions[0]), actions[1..])
  }

  /** No process yet, and every queue empty. */
  function Boot(queues: nat): Keyboard {
    Keyboard(Sched([], seq(queues, _ => []), Source, 0, {}), [], [], [], {}, false)
  }

  lemma {:induction false} EmptyQueues(waits: seq<seq<Pid>>)
    requires forall i :: 0 <= i < |waits| ==> waits[i] == []
    ensures Waiting(waits) == multiset{}
  {
    if waits != [] {
      EmptyQueues(waits[1..]);
    }
  }

  /** The first process runs and has started the keyboard. */
  function Started(): Keyboard {
    Keyboard(Sched([0], [[]], Proc(0), 1, {}), [], [], [], {}, false)
  }

  /** It has asked for a character and left the machine to kmain's loop. */
  function Idling(): Keyboard {
    Keyboard(Sched([], [[0]], Source, 1, {}), [], [], [], {0}, false)
  }

  /** It runs again, with a character to take. */
  function Woken(c: char): Keyboard {
    Keyboard(Sched([0], [[]], Proc(0), 1, {}), [c], [c], [], {0}, false)
  }

  /** It has the character. */
  function Served(c: char): Keyboard {
    Keyboard(Sched([0], [[]], Proc(0), 1, {}), [], [c], [(Proc(0), c)], {}, false)
  }

  lemma {:induction false} FirstAsk()
    ensures CanDo(Started(), Call)
    ensures var t := Does(Started(), Call); CanDo(t, Try)
    ensures var u := Does(Does(Started(), Call), Try); CanDo(u, Other(Yield)) && Does(u, Other(Yield)) == Idling()
  {
    var t := Does(Started(), Call);
    var p: Pid := 0;
    var none: seq<seq<Pid>> := [[]];
    assert t.sched.avail == [p] && [p][1..] == [];
    assert t.sched.waits == none && none[0] + [p] == [p] && none[0 := [p]] == [[p]];
    assert Does(t, Try) == t.(sched := Sched([], [[p]], Proc(p), 1, {}), leaving := true);
  }

  /** A process that has blocked can yield. */
  lemma {:induction false} BlockedYields(s: Keyboard)
    requires CanDo(s, Try) && s.ring == []
    ensures CanDo(Does(s, Try), Other(Yield))
  {
  }

  /** A key wakes a process that waits for one. */
  lemma {:induction false} KeyWakes(s: Keyboard, c: char)
    requires CanDo(s, Key(c)) && s.sched.waits[0] != []
    ensures Does(s, Key(c)).sched.avail != [] && Does(s, Key(c)).sched.cur == s.sched.cur
  {
    DrainedAll(s.sched.avail, s.sched.waits[0]);
  }

  lemma {:induction false} FirstWake(c: char)
    requires c != '\0'
    ensures var t := Does(Idling(), Key(c)); CanDo(t, Other(Yield)) && Does(t, Other(Yield)) == Woken(c)
    ensures CanDo(Woken(c), Try) && Does(Woken(c), Try) == Served(c)
  {
    assert Does(Idling(), Key(c)) == Keyboard(Sched([0], [[]], Source, 1, {}), [c], [c], [], {0}, false);
  }

  lemma {:induction false} IdleInv()
    ensures Inv(Idle())
  {
    EmptyQueues([]);
  }

  /** The keyboard is started by a process, when no other queue is in use. */
  lemma {:induction false} StartSafe(s: Sched)
    requires Inv(s) && s.waits == [] && (s.cur.Proc? ==> s.cur.pid in s.avail)
    ensures Safe(Keyboard(s.(waits := [[]]), [], [], [], {}, false))
  {
    var t := s.(waits := [[]]);
    EmptyQueues([[]]);
    assert Queued(t) == Queued(s);
  }

  lemma {:induction false} BootInv(queues: nat)
    requires queues > 0
    ensures KeyboardInv(Boot(queues))
  {
    EmptyQueues(Boot(queues).sched.waits);
  }

  /** Keys pressed one after another. */
  function Keys(cs: seq<char>): (r: seq<Action>)
    ensures |r| == |cs| && forall i :: 0 <= i < |cs| ==> r[i] == Key(cs[i])
  {
    seq(|cs|, i requires 0 <= i < |cs| => Key(cs[i]))
  }

  /** A key with a character joins the ring behind the others while fewer than 15 wait; any other
      key changes neither the ring nor what was accepted. */
  lemma {:induction false} KeyJoins(s: Keyboard, c: char)
    requires CanDo(s, Key(c))
    ensures var t := Does(s, Key(c));
            if c != '\0' && |s.ring| < 15 then t.ring == s.ring + [c] && t.accepted == s.accepted + [c]
            else t.ring == s.ring && t.accepted == s.accepted
    ensures var t := Does(s, Key(c));
            && t.taken == s.taken && t.asking == s.asking && t.leaving == s.leaving && t.sched.cur == s.sched.cur
            && t.sched.avail == s.sched.avail + s.sched.waits[0] && t.sched.waits == s.sched.waits[0 := []]
  {
    DrainedAll(s.sched.avail, s.sched.waits[0]);
  }

  /** Up to 15 characters can be typed before any is taken, and they wait in the order typed. */
  lemma {:induction false} KeysWait(s: Keyboard, cs: seq<char>)
    requires s.sched.waits != [] && |s.ring| + |cs| <= 15 && forall i :: 0 <= i < |cs| ==> cs[i] != '\0'
    ensures Acts(s, Keys(cs))
    ensures var t := Last(s, Keys(cs)); t.ring == s.ring + cs && t.accepted == s.accepted + cs && t.taken == s.taken
    decreases |cs|
  {
    if cs == [] {
      assert Keys(cs) == [] && s.ring + cs == s.ring && s.accepted + cs == s.accepted;
    } else {
      var t := Does(s, Key(cs[0]));
      KeyJoins(s, cs[0]);
      KeysWait(t, cs[1..]);
      assert Keys(cs)[1..] == Keys(cs[1..]);
      assert s.ring + [cs[0]] + cs[1..] == s.ring + cs && s.accepted + [cs[0]] + cs[1..] == s.accepted + cs;
    }
  }

  /** The scheduler's part of a run. */
  ghost function Trace(s: Keyboard, actions: seq<Action>): seq<Event>
    requires Acts(s, actions)
    decreases |actions|
  {
    if actions == [] then [] else Effect(s, actions[0]) + Trace(Does(s, actions[0]), actions[1..])
  }

  lemma {:induction false} ActsKeep(s: Keyboard, actions: seq<Action>)
    requires KeyboardInv(s) && Acts(s, actions)
    ensures KeyboardInv(Last(s, actions))
    decreases |actions|
  {
    if actions != [] {
      DoesKeeps(s, actions[0]);
      ActsKeep(Does(s, actions[0]), actions[1..]);
    }
  }

  /** In every state reachable from boot, a process that waits for a character is blocked only
      while there is none, and is otherwise ready; what was handed out is what was accepted, in
      order. */
  lemma {:induction false} EveryReachable(queues: nat, actions: seq<Action>, p: Pid)
    requires queues > 0 && Acts(Boot(queues), actions)
    ensures var s := Last(Boot(queues), actions);
            && (p in s.asking && s.ring != [] ==> p in s.sched.avail)
            && |s.taken| <= |s.accepted|
            && Chars(s.taken) == s.accepted[..|s.taken|] && s.ring == s.accepted[|s.taken|..]
  {
    BootInv(queues);
    ActsKeep(Boot(queues), actions);
  }

  /** The trace is a run of the scheduler that ends in the same state. */
  lemma {:induction false} TraceRuns(s: Keyboard, actions: seq<Action>)
    requires Acts(s, actions)
    ensures Runs(s.sched, Trace(s, actions)) && After(s.sched, Trace(s, actions)) == Last(s, actions).sched
    decreases |actions|
  {
    if actions != [] {
      var a := actions[0];
      var t := Does(s, a);
      TraceRuns(t, actions[1..]);
      var rest := Trace(t, actions[1..]);
      if Effect(s, a) == [] {
        assert [] + rest == rest;
      } else {
        assert (Effect(s, a) + rest)[1..] == rest;
      }
    }
  }

  /** A process that waits for a character while the ring has one is ready, and is picked within
      2d + 1 scheduling decisions of any run. */
  lemma {:induction false} ServedInTime(s: Keyboard, actions: seq<Action>, p: Pid)
    requires KeyboardInv(s) && Acts(s, actions) && s.ring != [] && p in s.asking && s.sched.cur != Proc(p)
    ensures p in s.sched.avail && Runs(s.sched, Trace(s, actions))
    ensures Decisions(Trace(s, actions)) >= 2 * Pos(s.sched.avail, p) + 1 ==> Dispatched(s.sched, Trace(s, actions), p)
  {
    TraceRuns(s, actions);
    if Decisions(Trace(s, actions)) >= 2 * Pos(s.sched.avail, p) + 1 {
      BoundFromDistance(s.sched, Trace(s, actions), p);
    }
  }
}
