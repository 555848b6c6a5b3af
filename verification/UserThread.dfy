/** The one user thread the EE runs for its client: pkoExecEE, pkoLoadElf, pkoReset
    (ee/cmdHandler.c) and the exception handlers (ee/excepHandler.c). Thread ids
    are positive, and a program that exits clears userThreadID as its thread ends. */
module UserThread {

  /** userThreadID, cmdThreadID, and the user threads created and not deleted. */
  datatype Threads = Threads(user: nat, cmd: nat, alive: set<nat>)

  datatype Step =
    | Exec(pid: int, started: bool)  // pid < 0: the load failed
    | Exit
    | Exception
    | Reset(cmd: nat)                // the id of the restarted program's command thread

  predicate Possible(e: Threads, s: Step) {
    s.Exec? ==> s.pid != 0 && (s.pid > 0 ==> s.pid !in e.alive)
  }

  /** pkoExecEE: refused while userThreadID is set. A start that fails clears the
      wrong variable. */
  function ExecEE(e: Threads, pid: int, started: bool): Threads
    requires pid != 0
  {
    if e.user != 0 || pid < 0 then e
    else if started then e.(user := pid, alive := e.alive + {pid})
    else e.(user := pid, cmd := 0)
  }

  function Next(e: Threads, s: Step): Threads
    requires Possible(e, s)
  {
    match s
    case Exec(pid, started) => ExecEE(e, pid, started)
    case Exit => if e.user in e.alive then e.(user := 0, alive := e.alive - {e.user}) else e
    case Exception => if e.user != 0 then e.(alive := e.alive - {e.user}) else e
    case Reset(cmd) => Threads(0, cmd, if e.user != 0 then e.alive - {e.user} else e.alive)
  }

  /** The globals of the EE program, and the threads its kernel has. */
  class Ee {
    var userThreadID: nat
    var cmdThreadID: nat
    var alive: set<nat>
    ghost var failures: nat     // loads, makings and starts that have failed

    ghost function Now(): Threads
      reads this
    {
      Threads(userThreadID, cmdThreadID, alive)
    }

    constructor (cmd: nat)
      ensures Now() == Threads(0, cmd, {})
    {
      userThreadID, cmdThreadID, alive, failures := 0, cmd, {}, 0;
    }

    /** CreateThread(): an unused id, or a failure. */
    method CreateThread() returns (pid: int)
      modifies this`failures
      ensures pid != 0 && (pid > 0 ==> pid !in alive)
      ensures failures == old(failures) + if pid < 0 then 1 else 0
    {
      pid := *;
      if pid <= 0 || pid in alive {
        pid := -1;
      }
      failures := failures + if pid < 0 then 1 else 0;
    }

    /** StartThread() */
    method StartThread() returns (ret: int)
      modifies this`failures
      ensures failures == old(failures) + if ret < 0 then 1 else 0
    {
      ret := *;
      failures := failures + if ret < 0 then 1 else 0;
    }

    /** SifLoadElf(), and the entry point of what it has loaded, which may be 0. */
    method SifLoadElf() returns (ret: int, epc: nat)
      modifies this`failures
      ensures failures == old(failures) + if ret < 0 || epc == 0 then 1 else 0
    {
      ret, epc := *, *;
      failures := failures + if ret < 0 || epc == 0 then 1 else 0;
    }

    /** pkoLoadElf: it fails only if the loading, or the making of a thread for what
        was loaded, does. */
    method LoadElf() returns (pid: int)
      modifies this`alive, this`failures
      ensures pid > 0 ==> pid !in old(alive) && alive == old(alive) + {pid} && failures == old(failures)
      ensures pid <= 0 ==> pid == -1 && alive == old(alive) && failures > old(failures)
    {
      var ret, epc := SifLoadElf();
      if ret < 0 {
        return -1;
      }
      if epc == 0 {
        return -1;
      }
      pid := CreateThread();
      if pid < 0 {
        return -1;
      }
      alive := alive + {pid};
    }

    /** pkoExecEE: it fails only with a thread on record, or for such a failure, or
        if the thread cannot be started. */
    method Exec() returns (ret: int, ghost did: Step)
      modifies this
      ensures did.Exec? && Possible(old(Now()), did) && Now() == Next(old(Now()), did)
      ensures ret >= 0 <==> old(userThreadID) == 0 && did.pid > 0 && did.started
      ensures ret >= 0 <==> old(userThreadID) == 0 && failures == old(failures)
    {
      did := Step.Exec(-1, false);
      if userThreadID != 0 {
        return -1, did;
      }
      var pid := LoadElf();
      if pid < 0 {
        return -1, did;
      }
      userThreadID := pid;
      ret := StartThread();
      did := Step.Exec(pid, ret >= 0);
      if ret < 0 {
        cmdThreadID := 0;
        alive := alive - {userThreadID};
        ret := -1;
      }
    }

    /** pkoReset stops the user thread, and ends in starting the program afresh. */
    method Reset()
      modifies this
      ensures Now() == Next(old(Now()), Step.Reset(cmdThreadID))
    {
      if userThreadID != 0 {
        alive := alive - {userThreadID};
      }
      userThreadID, cmdThreadID := 0, 0;
      var ret := InitCmdRpc();
    }

    /** initCmdRpc: the command thread may not be made, or not be started. */
    method InitCmdRpc() returns (ret: int)
      modifies this`cmdThreadID, this`failures
      ensures ret == 0 <==> failures == old(failures)
      ensures ret == 0 ==> cmdThreadID > 0
      ensures ret != 0 ==> ret == -1 && (cmdThreadID == 0 || cmdThreadID == old(cmdThreadID))
    {
      ret := CreateThread();
      if ret < 0 {
        return -1;
      }
      cmdThreadID := ret;
      ret := StartThread();
      if ret < 0 {
        cmdThreadID := 0;
        return -1;
      }
      return 0;
    }

    /** What both exception handlers do with the thread: its id stays on record. */
    method StopUserThread()
      modifies this
      ensures Now() == Next(old(Now()), Exception)
    {
      if userThreadID != 0 {
        alive := alive - {userThreadID};
      }
    }
  }

  predicate IsRun(es: seq<Threads>, ss: seq<Step>) {
    |es| == |ss| + 1 &&
    forall i :: 0 <= i < |ss| ==> Possible(es[i], ss[i]) && es[i + 1] == Next(es[i], ss[i])
  }

  /** Only the thread on record can be there. */
  predicate OnRecord(e: Threads) {
    e.alive <= (if e.user == 0 then {} else {e.user})
  }

  lemma {:induction false} AtMostOneThread(es: seq<Threads>, ss: seq<Step>, i: nat)
    requires IsRun(es, ss) && es[0].alive == {} && es[0].user == 0 && i <= |ss|
    ensures OnRecord(es[i]) && |es[i].alive| <= 1
  {
    if i > 0 {
      AtMostOneThread(es, ss, i - 1);
      assert es[i] == Next(es[i - 1], ss[i - 1]);
    }
    if es[i].alive != {} {
      assert es[i].alive == {es[i].user};
    }
  }

  /** After an exec that left no thread behind, another can be tried exactly when
      it was the load that failed. */
  lemma RetryAfterFailedLoad(e: Threads, pid: int, started: bool)
    requires e.user == 0 && e.alive == {} && pid != 0 && ExecEE(e, pid, started).alive == {}
    ensures ExecEE(e, pid, started).user == 0 <==> pid < 0
  {
    if pid > 0 && started {
      assert pid in ExecEE(e, pid, started).alive;
    }
  }

  /** With a record of a thread that is gone, after a failed start or an
      exception, nothing is ever run again before a reset. */
  lemma {:induction false} StuckUntilReset(es: seq<Threads>, ss: seq<Step>, i: nat)
    requires IsRun(es, ss) && es[0].user != 0 && es[0].alive == {} && i <= |ss|
    requires forall j :: 0 <= j < i ==> !ss[j].Reset?
    ensures es[i].alive == {} && es[i].user == es[0].user
  {
    if i > 0 {
      StuckUntilReset(es, ss, i - 1);
      assert es[i] == Next(es[i - 1], ss[i - 1]);
    }
  }

  /** A failed start also forgets the command thread, which the interrupt handler
      is to wake, and nothing puts it back before a reset. */
  lemma {:induction false} CommandThreadForgotten(es: seq<Threads>, ss: seq<Step>, i: nat)
    requires IsRun(es, ss) && 0 < i <= |ss|
    requires ss[0].Exec? && es[0].user == 0 && ss[0].pid > 0 && !ss[0].started
    requires forall j :: 0 <= j < i ==> !ss[j].Reset?
    ensures es[i].cmd == 0
  {
    if i > 1 {
      CommandThreadForgotten(es, ss, i - 1);
    }
    assert es[i] == Next(es[i - 1], ss[i - 1]);
  }

  /** And nothing else forgets it: while its id is known it changes only by a reset
      or by a start that failed, of a program that was loaded with no thread on
      record. */
  lemma {:induction false} CommandThreadKept(es: seq<Threads>, ss: seq<Step>, i: nat)
    requires IsRun(es, ss) && i <= |ss| && es[0].cmd > 0
    requires forall j :: 0 <= j < i ==> !ss[j].Reset?
    requires forall j :: 0 <= j < i ==> !(ss[j].Exec? && es[j].user == 0 && ss[j].pid > 0 && !ss[j].started)
    ensures es[i].cmd == es[0].cmd
  {
    if i > 0 {
      CommandThreadKept(es, ss, i - 1);
      assert es[i] == Next(es[i - 1], ss[i - 1]);
    }
  }

  /** With no thread on record or alive, a program that loads and starts becomes the
      one thread, and nothing else changes; and so it is again after that program
      ends, or after a reset. */
  lemma ProgramRuns(e: Threads, pid: nat, again: nat, cmd: nat)
    requires e.user == 0 && e.alive == {} && pid > 0 && again > 0
    ensures var r := Next(e, Exec(pid, true));
            r == Threads(pid, e.cmd, {pid}) &&
            Next(Next(r, Exit), Exec(again, true)) == Threads(again, e.cmd, {again}) &&
            Next(Next(r, Reset(cmd)), Exec(again, true)) == Threads(again, cmd, {again})
  {
    assert e.alive + {pid} == {pid} && {pid} - {pid} == {};
  }
}
