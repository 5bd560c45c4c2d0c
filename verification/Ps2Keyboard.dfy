/** The keyboard's interrupt handler and its readers, on the real ring and queues. */
module Ps2Keyboard {
  import opened KeyboardModel
  import opened Options
  import opened RingBuffers
  import opened Scheduler
  import opened SchedulerModel
  import opened ProcessQueues

  class KeyboardDriver {
    const kernel: Kernel
    const ring: RingBuffer          // keyboard_ring
    const blocked: ProcessQueue     // keyboard_ring.blocked
    ghost var accepted: seq<char>
    ghost var taken: seq<(Thread, char)>
    ghost var asking: set<Pid>
    ghost var leaving: bool

    ghost predicate Valid()
      reads this, kernel, kernel.queues, kernel.home.Keys, ring
    {
      kernel.Valid() && |kernel.queues| > 1 && kernel.queues[1] == blocked && ring.Valid()
    }

    ghost function Abs(): Keyboard
      requires kernel.lists != [] && ring.Valid()
      reads this, kernel, ring, ring.buff
    {
      Keyboard(kernel.Abs(), ring.Contents(), accepted, taken, asking, leaving)
    }

    /** ps2_initialize, as far as the ring goes: the ring gets a queue of its own. */
    constructor (kernel: Kernel)
      requires kernel.Valid() && |kernel.queues| == 1
      modifies kernel`queues, kernel`lists
      ensures Valid() && this.kernel == kernel && kernel.queues == old(kernel.queues) + [blocked]
      ensures fresh(ring) && fresh(ring.buff) && fresh(blocked)
      ensures Abs() == Keyboard(old(kernel.Abs()).(waits := [[]]), [], [], [], {}, false)
    {
      this.kernel := kernel;
      accepted, taken, asking, leaving := [], [], {}, false;
      ring := new RingBuffer();
      var q := kernel.AddQueue();
      blocked := q;
    }

    lemma {:induction false} AtHome()
      requires Valid()
      ensures forall i :: 0 <= i < |kernel.avail.nodes| ==> kernel.avail.nodes[i] in kernel.home.Keys
      ensures forall i :: 0 <= i < |blocked.nodes| ==> blocked.nodes[i] in kernel.home.Keys
    {
      kernel.OneQueue(0);
      kernel.OneQueue(1);
    }

    /** PROC_create_kthread, by whatever runs. */
    method Create() returns (pid: Pid)
      requires Valid() && Safe(Abs())
      modifies kernel`home, kernel`lists, kernel`created, kernel.avail, kernel.avail.nodes
      ensures Valid() && Abs() == Does(old(Abs()), Other(SchedulerModel.Create)) && Safe(Abs())
      ensures pid == old(kernel.created)
      ensures forall n :: n in kernel.home.Keys ==> n in old(kernel.home.Keys) || fresh(n)
    {
      DoesSafe(Abs(), Other(SchedulerModel.Create));
      pid := kernel.CreateKthread();
    }

    /** The yield of a process that has blocked, or that is not reading the keyboard. */
    method Yield()
      requires Valid() && Safe(Abs()) && CanDo(Abs(), Other(SchedulerModel.Yield))
      modifies this`leaving, kernel`cur, kernel`next, kernel`lists, kernel.avail
      ensures Valid() && Abs() == Does(old(Abs()), Other(SchedulerModel.Yield)) && Safe(Abs())
      ensures kernel.cur == kernel.source || kernel.cur in kernel.avail.nodes
    {
      DoesSafe(Abs(), Other(SchedulerModel.Yield));
      kernel.Yield();
      leaving := false;
    }

    /** PROC_run, the body of kmain's loop. */
    method Run()
      requires Valid() && Safe(Abs()) && (kernel.cur == null || kernel.cur == kernel.source)
      modifies kernel`cur, kernel`next, kernel`lists, kernel.avail
      ensures Valid() && Safe(Abs())
      ensures Abs() == if old(Abs()).sched.avail == [] then old(Abs())
                       else Does(old(Abs()), Other(SchedulerModel.Yield))
      ensures old(Abs()).sched.avail != [] ==> kernel.cur in kernel.avail.nodes
    {
      SafeInv(Abs());
      if Abs().sched.avail != [] {
        DoesSafe(Abs(), Other(SchedulerModel.Yield));
      }
      kernel.Run();
    }

    /** The running process calls ring_consumer_block_next. */
    method Enter()
      requires Valid() && Safe(Abs()) && CanDo(Abs(), Call)
      modifies this`asking
      ensures Valid() && Abs() == Does(old(Abs()), Call) && Safe(Abs())
    {
      DoesSafe(Abs(), Call);
      asking := asking + {kernel.cur.pid};
    }

    /** ring_producer_add_char for a code that has a character. */
    method Accept(c: char)
      requires Valid()
      modifies this`accepted, ring`producer, ring.buff
      ensures ring.Valid() && unchanged(kernel)
      ensures accepted == if Accepts(old(Abs()), c) then old(accepted) + [c] else old(accepted)
      ensures ring.Contents() == if Accepts(old(Abs()), c) then old(ring.Contents()) + [c] else old(ring.Contents())
      ensures ring.Contents()
           == if c != '\0' && |old(ring.Contents())| < 15 then old(ring.Contents()) + [c] else old(ring.Contents())
    {
      if c != '\0' {
        var added := ring.AddChar(c);
        if added {
          accepted := accepted + [c];
        }
      }
    }

    /** PROC_unblock_all on the ring's queue. */
    method WakeReaders()
      requires Valid()
      modifies kernel`home, kernel`lists, kernel.avail, blocked, kernel.avail.nodes, blocked.nodes
      ensures Valid() && Enabled(old(Abs()).sched, UnblockAll(0))
      ensures Abs() == old(Abs()).(sched := Step(old(Abs()).sched, UnblockAll(0)))
      ensures kernel.avail.nodes == old(kernel.avail.nodes + blocked.nodes)
      ensures kernel.home.Keys == old(kernel.home.Keys)
    {
      kernel.UnblockAll(blocked, 1);
    }

    /** ps2_irq_handler, from the decoded character on. */
    method IrqHandler(c: char)
      requires Valid() && Safe(Abs())
      modifies this`accepted, ring`producer, ring.buff
      modifies kernel`home, kernel`lists, kernel.avail, blocked, kernel.avail.nodes, blocked.nodes
      ensures Valid() && CanDo(old(Abs()), Key(c)) && Abs() == Does(old(Abs()), Key(c)) && Safe(Abs())
      ensures ring.Contents()
           == if c != '\0' && |old(ring.Contents())| < 15 then old(ring.Contents()) + [c] else old(ring.Contents())
      ensures kernel.avail.nodes == old(kernel.avail.nodes + blocked.nodes)
      ensures kernel.home.Keys == old(kernel.home.Keys)
    {
      DoesSafe(Abs(), Key(c));
      Accept(c);
      WakeReaders();
    }

    /** The wait of ring_consumer_block_next on an empty ring, up to its yield. */
    method Wait()
      requires Valid() && Inv(kernel.Abs()) && CanDo(Abs(), Try) && kernel.cur in kernel.avail.nodes
      requires ring.Contents() == []
      modifies this`leaving
      modifies kernel`home, kernel`lists, kernel.avail, blocked, kernel.avail.nodes, blocked.nodes
      ensures Valid() && Abs() == Does(old(Abs()), Try) && kernel.home.Keys == old(kernel.home.Keys)
    {
      kernel.Detach(blocked, 1);
      leaving := true;
    }

    /** The take of ring_consumer_block_next, after which it returns. */
    method TakeNext() returns (c: char)
      requires Valid() && CanDo(Abs(), Try) && ring.Contents() != []
      modifies this`taken, this`asking, ring`consumer
      ensures Valid() && Abs() == Does(old(Abs()), Try) && c == old(ring.Contents())[0]
    {
      c := ring.Take();
      taken, asking := taken + [(kernel.Running(), c)], asking - {kernel.cur.pid};
    }

    /** One round of ring_consumer_block_next, with interrupts off: the oldest character, or
        none when the running process has blocked and must yield before it tries again. */
    method TryNext() returns (next: Option<char>)
      requires Valid() && Safe(Abs()) && CanDo(Abs(), Try) && kernel.cur in kernel.avail.nodes
      modifies this`taken, this`asking, this`leaving, ring`consumer
      modifies kernel`home, kernel`lists, kernel.avail, blocked, kernel.avail.nodes, blocked.nodes
      ensures Valid() && Abs() == Does(old(Abs()), Try) && Safe(Abs())
      ensures next == if old(ring.Contents()) == [] then None else Some(old(ring.Contents())[0])
      ensures kernel.home.Keys == old(kernel.home.Keys)
    {
      DoesSafe(Abs(), Try);
      if ring.consumer == ring.producer {
        SafeInv(Abs());
        Wait();
        return None;
      }
      var c := TakeNext();
      return Some(c);
    }

    /** ring_consumer_next, the take that does not wait. */
    method Poll() returns (next: Option<char>)
      requires Valid() && Safe(Abs()) && CanDo(Abs(), KeyboardModel.Poll)
      modifies this`taken, ring`consumer
      ensures Valid() && Abs() == Does(old(Abs()), KeyboardModel.Poll) && Safe(Abs())
      ensures next == if old(ring.Contents()) == [] then None else Some(old(ring.Contents())[0])
    {
      DoesSafe(Abs(), KeyboardModel.Poll);
      next := ring.ConsumerNext();
      if next.Some? {
        taken := taken + [(kernel.Running(), next.value)];
      }
    }
  }

  /** What a driver is made of did not exist before. */
  twostate predicate IsNew(new driver: KeyboardDriver)
    reads driver.kernel
  {
    && fresh(driver) && fresh(driver.ring) && fresh(driver.ring.buff) && fresh(driver.blocked)
    && fresh(driver.kernel) && fresh(driver.kernel.avail) && fresh(driver.kernel.home.Keys)
  }

  /** kmain creates the process of keyboard_io and runs it. */
  method StartProcess() returns (kernel: Kernel)
    ensures fresh(kernel) && fresh(kernel.avail) && fresh(kernel.home.Keys)
    ensures kernel.Valid() && |kernel.queues| == 1 && kernel.cur in kernel.avail.nodes
    ensures kernel.Abs() == Sched([0], [], Proc(0), 1, {}) && Inv(kernel.Abs())
  {
    kernel := new Kernel();
    kernel.OneQueue(0);
    IdleInv();
    StepKeepsInv(kernel.Abs(), Create);
    var pid := kernel.CreateKthread();
    StepKeepsInv(kernel.Abs(), SchedulerModel.Yield);
    kernel.Run();
  }

  /** The process starts the keyboard. */
  method StartKeyboard() returns (driver: KeyboardDriver)
    ensures IsNew(driver) && driver.Valid() && Safe(driver.Abs()) && driver.kernel.cur in driver.kernel.avail.nodes
    ensures driver.Abs() == Started()
  {
    var kernel := StartProcess();
    StartSafe(kernel.Abs());
    driver := new KeyboardDriver(kernel);
  }

  /** The running process, inside ring_consumer_block_next, finds no character and yields. */
  method BlockAndYield(driver: KeyboardDriver)
    requires driver.Valid() && Safe(driver.Abs()) && CanDo(driver.Abs(), Try)
    requires driver.Abs().ring == [] && driver.kernel.cur in driver.kernel.avail.nodes
    modifies driver`taken, driver`asking, driver`leaving, driver.ring`consumer
    modifies driver.kernel`home, driver.kernel`lists, driver.kernel`cur, driver.kernel`next, driver.kernel.avail
    modifies driver.blocked, driver.kernel.avail.nodes, driver.blocked.nodes
    ensures driver.Valid() && Safe(driver.Abs()) && driver.kernel.home.Keys == old(driver.kernel.home.Keys)
    ensures driver.Abs() == Does(Does(old(driver.Abs()), Try), Other(SchedulerModel.Yield))
    ensures driver.Abs().sched.cur == Source ==> driver.kernel.cur == driver.kernel.source
  {
    BlockedYields(driver.Abs());
    var none := driver.TryNext();
    driver.Yield();
  }

  /** A key is pressed while kmain waits for an interrupt: its loop then runs a process. */
  method PressAndRun(driver: KeyboardDriver, c: char)
    requires driver.Valid() && Safe(driver.Abs()) && CanDo(driver.Abs(), Key(c)) && driver.Abs().sched.waits[0] != []
    requires driver.kernel.cur == driver.kernel.source
    modifies driver`accepted, driver.ring`producer, driver.ring.buff
    modifies driver.kernel`home, driver.kernel`lists, driver.kernel`cur, driver.kernel`next, driver.kernel.avail
    modifies driver.blocked, driver.kernel.avail.nodes, driver.blocked.nodes
    ensures driver.Valid() && Safe(driver.Abs()) && driver.kernel.home.Keys == old(driver.kernel.home.Keys)
    ensures driver.kernel.cur in driver.kernel.avail.nodes
    ensures Does(old(driver.Abs()), Key(c)).sched.avail != []
    ensures driver.Abs() == Does(Does(old(driver.Abs()), Key(c)), Other(SchedulerModel.Yield))
  {
    KeyWakes(driver.Abs(), c);
    driver.IrqHandler(c);
    driver.Run();
  }

  /** It asks for a character, and kmain is left to wait for an interrupt. */
  method StartReader() returns (driver: KeyboardDriver)
    ensures IsNew(driver) && driver.Valid() && Safe(driver.Abs()) && driver.Abs() == Idling()
    ensures driver.kernel.cur == driver.kernel.source
  {
    driver := StartKeyboard();
    driver.AtHome();
    FirstAsk();
    driver.Enter();
    BlockAndYield(driver);
  }

  /** From boot to the first character: the reader blocks, the key's interrupt wakes it, kmain's
      loop runs it, and it returns the character. */
  method FirstKey(c: char) returns (driver: KeyboardDriver, next: Option<char>)
    requires c != '\0'
    ensures driver.Valid() && Safe(driver.Abs()) && next == Some(c) && driver.Abs() == Served(c)
  {
    driver := StartReader();
    driver.AtHome();
    FirstWake(c);
    PressAndRun(driver, c);
    driver.AtHome();
    next := driver.TryNext();
  }
}
