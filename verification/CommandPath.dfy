/** The one-slot mailbox between the IOP and the EE's command thread
    (iop/cmdHandler.c, ee/cmdHandler.c), as runs of steps: a packet or an exception
    report is sent, the SIF interrupt is taken, the command thread is woken, the
    user program ends. A run ends with a reset. */
module CommandPath {
  import opened Bytes
  import opened SifPath
  import ExceptionPath
  import U = UserThread

  const RESET_CMD: u32 := 0xbabe_0201
  const IOPEXCEP_CMD: u32 := 0xbabe_020d

  /** The command number cmdListener passes on with a packet, if it passes it on:
      EXECIOP and POWEROFF stay on the IOP, and a reset must have its exact size. */
  function Forwarded(pkt: seq<byte>): (code: u32) {
    if |pkt| < 6 then 0 else
      match Be32(pkt[..4])
      case 0xbabe_0201 => if |pkt| == 6 then 1 else 0
      case 0xbabe_0203 => 2
      case 0xbabe_0205 => 4
      case 0xbabe_0206 => 5
      case 0xbabe_0208 => 6
      case 0xbabe_0209 => 7
      case 0xbabe_0207 => 8
      case 0xbabe_020a => 9
      case 0xbabe_020b => 10
      case 0xbabe_020c => 11
      case _ => 0
  }

  /** A report of the IOP's exception handler, which sends it with number 12. */
  predicate IsException(pkt: seq<byte>) {
    |pkt| == ExceptionPath.PACKET_SIZE && Be32(pkt[..4]) == IOPEXCEP_CMD
  }

  /** The command number a packet is sent to the EE with, or 0. */
  function Code(pkt: seq<byte>): u32 {
    if IsException(pkt) then 12 else Forwarded(pkt)
  }

  datatype Handler =
    | Reset | ExecEE | ScrDump | NetDump | StartVU | StopVU | DumpMem | DumpReg | GSExec | WriteMem
    | IopExcep | Unknown

  /** The switch of the EE's cmdThread. */
  function EeHandler(cmd: u32): Handler {
    match cmd
    case 0xbabe_0201 => Reset
    case 0xbabe_0206 => NetDump
    case 0xbabe_0205 => ScrDump
    case 0xbabe_0203 => ExecEE
    case 0xbabe_0208 => StartVU
    case 0xbabe_0209 => StopVU
    case 0xbabe_0207 => DumpMem
    case 0xbabe_020a => DumpReg
    case 0xbabe_020b => GSExec
    case 0xbabe_020c => WriteMem
    case 0xbabe_020d => IopExcep
    case _ => Unknown
  }

  /** PKO_RPC_*: what each command number stands for. */
  function RpcMeaning(code: u32): Handler {
    match code
    case 1 => Reset
    case 2 => ExecEE
    case 4 => ScrDump
    case 5 => NetDump
    case 6 => StartVU
    case 7 => StopVU
    case 8 => DumpMem
    case 9 => DumpReg
    case 10 => GSExec
    case 11 => WriteMem
    case 12 => IopExcep
    case _ => Unknown
  }

  /** A command executed by the EE: how many packets had been delivered by then,
      the word it was dispatched on and the mailbox behind the flag word. */
  datatype Executed = Executed(after: nat, cmd: u32, body: seq<byte>)

  datatype Path = Path(
    rpc: seq<byte>,           // rpc_data
    flag: u32,                // the mailbox's first word: not 0 when a packet is new
    body: seq<byte>,          // the rest of the mailbox
    wakeups: nat,             // iWakeupThread calls not yet consumed by SleepThread
    threads: U.Threads,       // userThreadID, cmdThreadID and the user threads
    parked: bool,             // the command thread sleeps inside iopException
    done: bool,               // the command thread has reset the machine
    delivered: seq<seq<byte>>,
    executed: seq<Executed>)

  /** `accepted`: the DMA was set up. `pid`, `started`: how loading and starting a
      program will go, if that is the command. */
  datatype Step =
    | Packet(pkt: seq<byte>, accepted: bool)
    | Report(pkt: seq<byte>, accepted: bool)
    | Interrupt
    | Wake(pid: int, started: bool)
    | Exit    // of the user program
    | Fault   // an exception of it

  const BODY: nat := 2044

  predicate Sized(p: Path) {
    |p.rpc| == RPC_SIZE && |p.body| == BODY
  }

  function Init(rpc: seq<byte>, body: seq<byte>, cmd: nat): Path {
    Path(rpc, 0, body, 0, U.Threads(0, cmd, {}), false, false, [], [])
  }

  /** The packet is sent to the EE, and it fits behind the command word. */
  predicate Passes(pkt: seq<byte>) {
    Code(pkt) != 0 && |pkt| <= 1020
  }

  /** The mailbox after a transfer. */
  function Box(p: Path, pkt: seq<byte>): (s: seq<byte>)
    requires Sized(p) && Passes(pkt)
    ensures |s| == 4 + BODY
  {
    Mailed(Code(pkt), pkt, p.rpc, Store32(p.flag) + p.body)
  }

  /** pkoSendSifCmd. */
  function Send(p: Path, pkt: seq<byte>, accepted: bool): (q: Path)
    requires Sized(p) && Passes(pkt)
    ensures Sized(q)
  {
    var q := p.(rpc := RpcImage(Code(pkt), pkt, p.rpc));
    if !accepted then q else
      q.(flag := Load32(Box(p, pkt)[..4]), body := Box(p, pkt)[4..], delivered := p.delivered + [pkt])
  }

  /** What a command does to the threads. A reset, with which the run ends, leaves
      no command thread. */
  function Handle(t: U.Threads, cmd: u32, pid: int, started: bool): U.Threads
    requires pid != 0
  {
    match EeHandler(cmd)
    case ExecEE => U.ExecEE(t, pid, started)
    case IopExcep => U.Next(t, U.Exception)
    case Reset => U.Next(t, U.Reset(0))
    case _ => t
  }

  /** Only three commands touch the threads: a reset and an exception report leave no
      user thread, the report with its id still on record; an exec makes one, unless
      there is a record or the load fails, and forgets the command thread if it
      cannot be started. */
  lemma HandledThreads(t: U.Threads, cmd: u32, pid: int, started: bool)
    requires pid != 0 && U.OnRecord(t)
    ensures cmd == 0xbabe_0201 ==> Handle(t, cmd, pid, started) == U.Threads(0, 0, {})
    ensures cmd == 0xbabe_020d ==> Handle(t, cmd, pid, started) == U.Threads(t.user, t.cmd, {})
    ensures cmd == 0xbabe_0203 ==>
              Handle(t, cmd, pid, started) ==
              if t.user != 0 || pid < 0 then t
              else if started then U.Threads(pid, t.cmd, {pid})
              else U.Threads(pid, 0, {})
    ensures cmd !in {0xbabe_0201, 0xbabe_0203, 0xbabe_020d} ==> Handle(t, cmd, pid, started) == t
  {
    assert t.alive - {t.user} == {} && (t.user == 0 ==> t.alive == {}) && {} + {pid} == {pid};
  }

  /** cmdThread behind its SleepThread, or iopException behind its own, from which
      it only returns. */
  function Woken(p: Path, pid: int, started: bool): Path
    requires |p.body| == BODY && p.wakeups > 0 && pid != 0
  {
    if p.parked then p.(wakeups := p.wakeups - 1, parked := false) else
      var cmd := Be32(p.body[..4]);
      p.(wakeups := p.wakeups - 1, done := cmd == RESET_CMD, parked := cmd == IOPEXCEP_CMD,
         threads := Handle(p.threads, cmd, pid, started),
         executed := p.executed + [Executed(|p.delivered|, cmd, p.body)])
  }

  /** The command thread can be woken, and the kernel can give that id. */
  predicate CanWake(p: Path, pid: int, started: bool) {
    p.wakeups > 0 && !p.done && U.Possible(p.threads, U.Exec(pid, started))
  }

  function Next(p: Path, s: Step): (q: Path)
    requires Sized(p)
    ensures Sized(q)
  {
    match s
    case Packet(pkt, accepted) => if Passes(pkt) && !IsException(pkt) then Send(p, pkt, accepted) else p
    case Report(pkt, accepted) => if Passes(pkt) && IsException(pkt) then Send(p, pkt, accepted) else p
    case Interrupt =>
      if p.flag == 0 || p.done then p
      else if p.threads.cmd == 0 then p.(flag := 0)
      else p.(flag := 0, wakeups := p.wakeups + 1)
    case Wake(pid, started) => if CanWake(p, pid, started) then Woken(p, pid, started) else p
    case Exit => p.(threads := U.Next(p.threads, U.Exit))
    case Fault => p.(threads := U.Next(p.threads, U.Exception))
  }

  /** The user program may end, and make room for another, or fault, and leave its id
      on record; the mailbox does not notice. */
  lemma ProgramEnds(p: Path, id: nat)
    requires Sized(p) && id > 0 && p.threads == U.Threads(id, p.threads.cmd, {id})
    ensures Next(p, Exit) == p.(threads := U.Threads(0, p.threads.cmd, {}))
    ensures Next(p, Fault) == p.(threads := U.Threads(id, p.threads.cmd, {}))
  {
    assert {id} - {id} == {};
  }

  function Run(p: Path, ss: seq<Step>): (q: Path)
    requires Sized(p)
    ensures Sized(q)
  {
    if ss == [] then p else Next(Run(p, ss[..|ss| - 1]), ss[|ss| - 1])
  }

  /** Packets delivered and not yet dealt with, as the EE counts them. */
  function Pending(p: Path): nat {
    p.wakeups + (if p.flag != 0 then 1 else 0)
  }

  /** A packet is in the mailbox as far as it was carried: the command word always,
      everything when the length allows it. */
  predicate Holds(body: seq<byte>, pkt: seq<byte>) {
    4 <= |pkt| <= |body| && body[..4] == pkt[..4] &&
    (1 <= |pkt| % 16 <= 12 ==> body[..|pkt|] == pkt)
  }

  /** An execution read the latest packet delivered by then. */
  predicate Explained(e: Executed, delivered: seq<seq<byte>>) {
    1 <= e.after <= |delivered| && Holds(e.body, delivered[e.after - 1]) &&
    e.cmd == Be32(delivered[e.after - 1][..4])
  }

  predicate Consistent(p: Path) {
    |p.executed| + Pending(p) <= |p.delivered| &&
    (p.delivered != [] ==> Holds(p.body, p.delivered[|p.delivered| - 1])) &&
    (forall i :: 0 <= i < |p.delivered| ==> Passes(p.delivered[i])) &&
    forall j :: 0 <= j < |p.executed| ==> Explained(p.executed[j], p.delivered)
  }

  lemma PassedSize(pkt: seq<byte>)
    requires Code(pkt) != 0
    ensures |pkt| >= 6
  {
  }

  lemma MailedHolds(p: Path, pkt: seq<byte>)
    requires Sized(p) && Passes(pkt)
    ensures Holds(Box(p, pkt)[4..], pkt) && Load32(Box(p, pkt)[..4]) == Code(pkt)
  {
    PassedSize(pkt);
    var (code, box) := (Code(pkt), Store32(p.flag) + p.body);
    var s := Mailed(code, pkt, p.rpc, box);
    CarriedPart(code, pkt, p.rpc, box, 4);
    assert s[4..][..4] == s[4..8];
    if 1 <= |pkt| % 16 <= 12 {
      CarriedExactlyWhen(|pkt|);
      assert Carried(code, pkt, s);
      assert s[4..][..|pkt|] == s[..4 + |pkt|][4..] == pkt;
    }
  }

  /** What sending a packet does, whoever sends it. */
  lemma SentIs(p: Path, pkt: seq<byte>, accepted: bool)
    requires Sized(p) && Passes(pkt)
    ensures var q := Send(p, pkt, accepted);
            q.wakeups == p.wakeups && q.executed == p.executed && q.threads == p.threads &&
            q.parked == p.parked && q.done == p.done && q.rpc == RpcImage(Code(pkt), pkt, p.rpc) &&
            (!accepted ==> q.flag == p.flag && q.body == p.body && q.delivered == p.delivered) &&
            (accepted ==> q.flag != 0 && Holds(q.body, pkt) && q.delivered == p.delivered + [pkt])
  {
    MailedHolds(p, pkt);
  }

  lemma PacketConsistent(p: Path, pkt: seq<byte>, q: Path)
    requires Consistent(p) && Passes(pkt) && Holds(q.body, pkt)
    requires q.wakeups == p.wakeups && q.delivered == p.delivered + [pkt] && q.executed == p.executed
    ensures Consistent(q)
  {
    var d := p.delivered + [pkt];
    forall j | 0 <= j < |p.executed| ensures Explained(p.executed[j], d) {
      assert d[p.executed[j].after - 1] == p.delivered[p.executed[j].after - 1];
    }
  }

  lemma SendConsistent(p: Path, pkt: seq<byte>, accepted: bool)
    requires Sized(p) && Consistent(p) && Passes(pkt)
    ensures Consistent(Send(p, pkt, accepted))
  {
    SentIs(p, pkt, accepted);
    if accepted {
      PacketConsistent(p, pkt, Send(p, pkt, accepted));
    }
  }

  lemma WakeConsistent(p: Path, pid: int, started: bool)
    requires Sized(p) && Consistent(p) && CanWake(p, pid, started)
    ensures Consistent(Woken(p, pid, started))
  {
  }

  lemma ConsistentStep(p: Path, s: Step)
    requires Sized(p) && Consistent(p)
    ensures Consistent(Next(p, s))
  {
    if s.Packet? || s.Report? {
      if Passes(s.pkt) && IsException(s.pkt) == s.Report? {
        SendConsistent(p, s.pkt, s.accepted);
      }
    } else if s.Wake? && CanWake(p, s.pid, s.started) {
      WakeConsistent(p, s.pid, s.started);
    }
  }

  lemma {:induction false} AlwaysConsistent(rpc: seq<byte>, body: seq<byte>, cmd: nat, ss: seq<Step>)
    requires |rpc| == RPC_SIZE && |body| == BODY
    ensures Consistent(Run(Init(rpc, body, cmd), ss))
  {
    if ss != [] {
      AlwaysConsistent(rpc, body, cmd, ss[..|ss| - 1]);
      ConsistentStep(Run(Init(rpc, body, cmd), ss[..|ss| - 1]), ss[|ss| - 1]);
    }
  }

  lemma SameMeaning(pkt: seq<byte>)
    requires Code(pkt) != 0
    ensures EeHandler(Be32(pkt[..4])) == RpcMeaning(Code(pkt)) != Unknown
  {
  }

  /** The listener passes on exactly the packets with one of ten command words, a
      reset only in its exact size, and the EE has a handler for each of these. */
  lemma ListenerPasses(pkt: seq<byte>)
    ensures Forwarded(pkt) != 0 <==>
            |pkt| >= 6 && (Be32(pkt[..4]) == 0xbabe_0201 ==> |pkt| == 6) &&
            Be32(pkt[..4]) in {0xbabe_0201, 0xbabe_0203, 0xbabe_0205, 0xbabe_0206, 0xbabe_0207,
                               0xbabe_0208, 0xbabe_0209, 0xbabe_020a, 0xbabe_020b, 0xbabe_020c}
    ensures |pkt| >= 6 ==>
              (Forwarded(pkt) != 0 <==>
               EeHandler(Be32(pkt[..4])) !in {Unknown, IopExcep} && (Be32(pkt[..4]) == RESET_CMD ==> |pkt| == 6))
  {
  }

  /** What each command word is for, on both processors. */
  lemma Dispatch(pkt: seq<byte>)
    requires |pkt| >= 6
    ensures match EeHandler(Be32(pkt[..4]))
            case Reset => Be32(pkt[..4]) == 0xbabe_0201 && (|pkt| == 6 ==> Forwarded(pkt) == 1)
            case ExecEE => Be32(pkt[..4]) == 0xbabe_0203 && Forwarded(pkt) == 2
            case ScrDump => Be32(pkt[..4]) == 0xbabe_0205 && Forwarded(pkt) == 4
            case NetDump => Be32(pkt[..4]) == 0xbabe_0206 && Forwarded(pkt) == 5
            case StartVU => Be32(pkt[..4]) == 0xbabe_0208 && Forwarded(pkt) == 6
            case StopVU => Be32(pkt[..4]) == 0xbabe_0209 && Forwarded(pkt) == 7
            case DumpMem => Be32(pkt[..4]) == 0xbabe_0207 && Forwarded(pkt) == 8
            case DumpReg => Be32(pkt[..4]) == 0xbabe_020a && Forwarded(pkt) == 9
            case GSExec => Be32(pkt[..4]) == 0xbabe_020b && Forwarded(pkt) == 10
            case WriteMem => Be32(pkt[..4]) == 0xbabe_020c && Forwarded(pkt) == 11
            case IopExcep => Be32(pkt[..4]) == 0xbabe_020d && Forwarded(pkt) == 0
            case Unknown => Forwarded(pkt) == 0
  {
  }

  /** A packet with a command of the EE, that fits, is delivered if the DMA is. */
  lemma PassedIsDelivered(p: Path, pkt: seq<byte>)
    requires Sized(p) && 6 <= |pkt| <= 1020
    requires EeHandler(Be32(pkt[..4])) !in {Unknown, IopExcep} && (Be32(pkt[..4]) == RESET_CMD ==> |pkt| == 6)
    ensures var q := Next(p, Packet(pkt, true));
            q.delivered == p.delivered + [pkt] && q.flag == Forwarded(pkt) != 0 && q.body[..4] == pkt[..4]
  {
    ListenerPasses(pkt);
    MailedHolds(p, pkt);
  }

  /** And it is executed, by its handler, once its interrupt is taken and the command
      thread, known and not asleep in iopException, is woken. */
  lemma PassedIsExecuted(p: Path, pkt: seq<byte>, pid: int, started: bool)
    requires Sized(p) && 6 <= |pkt| <= 1020 && pid != 0 && (pid > 0 ==> pid !in p.threads.alive)
    requires EeHandler(Be32(pkt[..4])) !in {Unknown, IopExcep} && (Be32(pkt[..4]) == RESET_CMD ==> |pkt| == 6)
    requires p.threads.cmd != 0 && !p.parked && !p.done
    ensures var q := Next(Next(Next(p, Packet(pkt, true)), Interrupt), Wake(pid, started));
            |q.executed| == |p.executed| + 1 && q.executed[..|p.executed|] == p.executed &&
            q.wakeups == p.wakeups && q.flag == 0 &&
            var e := q.executed[|p.executed|];
            e.after == |p.delivered| + 1 && e.cmd == Be32(pkt[..4]) &&
            q.threads == Handle(p.threads, e.cmd, pid, started)
  {
    ListenerPasses(pkt);
    Taken(p, Packet(pkt, true));
  }

  /** The packet that the IOP's handler makes of an exception is such a report. */
  lemma ReportPasses(s: seq<byte>, frame: ExceptionPath.Frame, repc: u32, name: cstring)
    requires ExceptionPath.IsReport(s, frame, repc, name)
    ensures Passes(s) && IsException(s)
  {
    var ws := ExceptionPath.HeadWords(frame, repc, |name|);
    SubSlice(s, 0, ExceptionPath.NAME_AT, 0, 4);
    assert ExceptionPath.Words(ws)[4 * 0..4 * 0 + 4] == Store32(ws[0]);
    ExceptionPath.CommandReadsAs();
  }

  /** An execution went to the handler of the command the IOP sent, with the packet
      in the mailbox when its length let it through whole. */
  predicate RightCommand(e: Executed, delivered: seq<seq<byte>>) {
    1 <= e.after <= |delivered| &&
    var pkt := delivered[e.after - 1];
    EeHandler(e.cmd) == RpcMeaning(Code(pkt)) != Unknown &&
    (1 <= |pkt| % 16 <= 12 ==> pkt <= e.body)
  }

  /** In every run no more commands are executed than packets were delivered, and
      each is the right one. */
  lemma EveryCommandWasDelivered(rpc: seq<byte>, body: seq<byte>, cmd: nat, ss: seq<Step>)
    requires |rpc| == RPC_SIZE && |body| == BODY
    ensures var p := Run(Init(rpc, body, cmd), ss);
            |p.executed| <= |p.delivered| &&
            forall j :: 0 <= j < |p.executed| ==> RightCommand(p.executed[j], p.delivered)
  {
    AlwaysConsistent(rpc, body, cmd, ss);
    var p := Run(Init(rpc, body, cmd), ss);
    forall j | 0 <= j < |p.executed| ensures RightCommand(p.executed[j], p.delivered) {
      assert Explained(p.executed[j], p.delivered);
      SameMeaning(p.delivered[p.executed[j].after - 1]);
    }
  }

  // ---- What becomes of the packets ------------------------------------------------

  predicate Delivers(p: Path, s: Step)
    requires Sized(p)
  {
    (s.Packet? || s.Report?) && s.accepted && |Next(p, s).delivered| > |p.delivered|
  }

  /** The three ways to lose a packet: another is written over it before its
      interrupt, its interrupt wakes no thread, or its wakeup ends the sleep of the
      exception handler. */
  predicate Loses(p: Path, s: Step)
    requires Sized(p)
  {
    (Delivers(p, s) && p.flag != 0) ||
    (s.Interrupt? && p.flag != 0 && !p.done && p.threads.cmd == 0) ||
    (s.Wake? && CanWake(p, s.pid, s.started) && p.parked)
  }

  function Lost(p: Path, ss: seq<Step>): nat
    requires Sized(p)
  {
    if ss == [] then 0 else
      Lost(p, ss[..|ss| - 1]) + if Loses(Run(p, ss[..|ss| - 1]), ss[|ss| - 1]) then 1 else 0
  }

  lemma AccountStep(p: Path, s: Step)
    requires Sized(p)
    ensures var q := Next(p, s);
            |q.delivered| - |q.executed| - Pending(q) ==
            |p.delivered| - |p.executed| - Pending(p) + if Loses(p, s) then 1 else 0
  {
    if s.Packet? || s.Report? {
      if Passes(s.pkt) && IsException(s.pkt) == s.Report? {
        SentIs(p, s.pkt, s.accepted);
      }
    }
  }

  /** Conservation: in every run each delivered packet is executed, pending or lost,
      and as many are lost as there were steps that lose one. */
  lemma {:induction false} EveryPacketAccountedFor(rpc: seq<byte>, body: seq<byte>, cmd: nat, ss: seq<Step>)
    requires |rpc| == RPC_SIZE && |body| == BODY
    ensures var (p0, p) := (Init(rpc, body, cmd), Run(Init(rpc, body, cmd), ss));
            |p.delivered| == |p.executed| + Pending(p) + Lost(p0, ss)
  {
    if ss != [] {
      EveryPacketAccountedFor(rpc, body, cmd, ss[..|ss| - 1]);
      AccountStep(Run(Init(rpc, body, cmd), ss[..|ss| - 1]), ss[|ss| - 1]);
    }
  }

  // ---- Exactly once -----------------------------------------------------------

  /** Nothing is delivered while an earlier packet is pending, no interrupt finds
      the command thread's id cleared, and no wakeup finds it in iopException. */
  predicate Clear(p: Path, s: Step)
    requires Sized(p)
  {
    (Delivers(p, s) ==> Pending(p) == 0) && !Loses(p, s)
  }

  predicate Undisturbed(p: Path, ss: seq<Step>)
    requires Sized(p)
  {
    ss == [] || (Undisturbed(p, ss[..|ss| - 1]) && Clear(Run(p, ss[..|ss| - 1]), ss[|ss| - 1]))
  }

  /** The j-th execution is of the j-th packet. */
  predicate InOrder(p: Path) {
    forall j :: 0 <= j < |p.executed| ==> p.executed[j].after == j + 1
  }

  predicate OnTime(p: Path) {
    InOrder(p) && Pending(p) <= 1 && |p.executed| + Pending(p) == |p.delivered|
  }

  lemma OnTimeStep(p: Path, s: Step)
    requires Sized(p) && OnTime(p) && Clear(p, s)
    ensures OnTime(Next(p, s))
  {
    if s.Packet? || s.Report? {
      if Passes(s.pkt) && IsException(s.pkt) == s.Report? {
        SentIs(p, s.pkt, s.accepted);
      }
    }
  }

  lemma {:induction false} UndisturbedInOrder(rpc: seq<byte>, body: seq<byte>, cmd: nat, ss: seq<Step>)
    requires |rpc| == RPC_SIZE && |body| == BODY && Undisturbed(Init(rpc, body, cmd), ss)
    ensures OnTime(Run(Init(rpc, body, cmd), ss))
  {
    if ss != [] {
      UndisturbedInOrder(rpc, body, cmd, ss[..|ss| - 1]);
      OnTimeStep(Run(Init(rpc, body, cmd), ss[..|ss| - 1]), ss[|ss| - 1]);
    }
  }

  lemma GrowStep(p: Path, s: Step)
    requires Sized(p)
    ensures var q := Next(p, s);
            p.delivered <= q.delivered && p.executed <= q.executed &&
            forall j :: |p.executed| <= j < |q.executed| ==> q.executed[j].after == |p.delivered|
  {
  }

  /** What has been executed stays, and what follows is of later packets. */
  lemma {:induction false} ExecutionsGrow(p: Path, ss: seq<Step>)
    requires Sized(p)
    ensures var q := Run(p, ss);
            |p.delivered| <= |q.delivered| && p.executed <= q.executed &&
            forall j :: |p.executed| <= j < |q.executed| ==> q.executed[j].after >= |p.delivered|
  {
    if ss != [] {
      ExecutionsGrow(p, ss[..|ss| - 1]);
      GrowStep(Run(p, ss[..|ss| - 1]), ss[|ss| - 1]);
    }
  }

  lemma {:induction false} RunSplit(p: Path, a: seq<Step>, b: seq<Step>)
    requires Sized(p)
    ensures Run(p, a + b) == Run(Run(p, a), b)
  {
    if b == [] {
      assert a + b == a;
    } else {
      assert (a + b)[..|a + b| - 1] == a + b[..|b| - 1];
      RunSplit(p, a, b[..|b| - 1]);
    }
  }

  lemma {:induction false} FirstDisturbed(p: Path, ss: seq<Step>) returns (k: nat)
    requires Sized(p) && !Undisturbed(p, ss)
    ensures k < |ss| && !Clear(Run(p, ss[..k]), ss[k])
  {
    var init := ss[..|ss| - 1];
    if Undisturbed(p, init) {
      k := |ss| - 1;
    } else {
      k := FirstDisturbed(p, init);
      assert init[..k] == ss[..k];
    }
  }

  lemma {:induction false} LossStays(p: Path, ss: seq<Step>, k: nat)
    requires Sized(p) && k < |ss| && Loses(Run(p, ss[..k]), ss[k])
    ensures Lost(p, ss) > 0
  {
    var init := ss[..|ss| - 1];
    if k < |ss| - 1 {
      assert init[..k] == ss[..k];
      LossStays(p, init, k);
    }
  }

  lemma SkipShows(q: Path, late: Path, p: Path)
    requires |q.executed| < |q.delivered| < |late.delivered| <= |p.delivered|
    requires q.executed <= p.executed
    requires forall j :: |q.executed| <= j < |p.executed| ==> p.executed[j].after >= |late.delivered|
    ensures !(InOrder(p) && |p.executed| == |p.delivered|)
  {
    if |p.executed| == |p.delivered| {
      assert p.executed[|q.executed|].after > |q.executed| + 1;
    }
  }

  /** A run cut at one of its steps. */
  lemma RunAround(p: Path, ss: seq<Step>, k: nat)
    requires Sized(p) && k < |ss|
    ensures Run(p, ss) == Run(Next(Run(p, ss[..k]), ss[k]), ss[k + 1..])
  {
    assert ss == ss[..k + 1] + ss[k + 1..];
    assert ss[..k + 1][..k] == ss[..k];
    RunSplit(p, ss[..k + 1], ss[k + 1..]);
  }

  /** After a packet was delivered over a pending one, some packet is skipped. */
  lemma LateSkips(rpc: seq<byte>, body: seq<byte>, cmd: nat, ss: seq<Step>, k: nat)
    requires |rpc| == RPC_SIZE && |body| == BODY && k < |ss|
    requires var q := Run(Init(rpc, body, cmd), ss[..k]); Pending(q) > 0 && Delivers(q, ss[k])
    ensures var p := Run(Init(rpc, body, cmd), ss); !(InOrder(p) && |p.executed| == |p.delivered|)
  {
    var q := Run(Init(rpc, body, cmd), ss[..k]);
    AlwaysConsistent(rpc, body, cmd, ss[..k]);
    RunAround(Init(rpc, body, cmd), ss, k);
    Skipped(q, ss[k], ss[k + 1..]);
  }

  lemma Skipped(q: Path, s: Step, rest: seq<Step>)
    requires Sized(q) && Consistent(q) && Pending(q) > 0 && Delivers(q, s)
    ensures var p := Run(Next(q, s), rest); !(InOrder(p) && |p.executed| == |p.delivered|)
  {
    SentIs(q, s.pkt, s.accepted);
    ExecutionsGrow(Next(q, s), rest);
    SkipShows(q, Next(q, s), Run(Next(q, s), rest));
  }

  /** A run that ends with nothing pending has executed every packet once, in
      order, exactly when no packet came in over a pending one, no interrupt fell
      on a forgotten command thread and no wakeup on one asleep in iopException. */
  lemma ExactlyOnceWhenUndisturbed(rpc: seq<byte>, body: seq<byte>, cmd: nat, ss: seq<Step>)
    requires |rpc| == RPC_SIZE && |body| == BODY
    requires Pending(Run(Init(rpc, body, cmd), ss)) == 0
    ensures var p := Run(Init(rpc, body, cmd), ss);
            (InOrder(p) && |p.executed| == |p.delivered|) <==> Undisturbed(Init(rpc, body, cmd), ss)
  {
    var p0 := Init(rpc, body, cmd);
    if Undisturbed(p0, ss) {
      UndisturbedInOrder(rpc, body, cmd, ss);
    } else {
      var k := FirstDisturbed(p0, ss);
      if Loses(Run(p0, ss[..k]), ss[k]) {
        LossStays(p0, ss, k);
        EveryPacketAccountedFor(rpc, body, cmd, ss);
      } else {
        LateSkips(rpc, body, cmd, ss, k);
      }
    }
  }

  // ---- The three ways, shown ---------------------------------------------------------

  lemma RunFive(p: Path, ss: seq<Step>)
    requires Sized(p) && |ss| == 5
    ensures Run(p, ss) == Next(Next(Next(Next(Next(p, ss[0]), ss[1]), ss[2]), ss[3]), ss[4])
  {
    assert ss[..4][..3] == ss[..3] && ss[..3][..2] == ss[..2] && ss[..2][..1] == ss[..1] && ss[..1][..0] == [];
    assert Run(p, ss[..1]) == Next(p, ss[0]);
    assert Run(p, ss[..2]) == Next(Run(p, ss[..1]), ss[1]);
    assert Run(p, ss[..3]) == Next(Run(p, ss[..2]), ss[2]);
    assert Run(p, ss[..4]) == Next(Run(p, ss[..3]), ss[3]);
  }

  lemma RunSix(p: Path, ss: seq<Step>, s: Step)
    requires Sized(p) && |ss| == 5
    ensures Run(p, ss + [s]) == Next(Run(p, ss), s)
  {
    assert (ss + [s])[..5] == ss;
  }

  /** A packet arrives, and its interrupt is taken. */
  lemma Taken(p: Path, s: Step)
    requires Sized(p) && (s.Packet? || s.Report?) && s.accepted && Passes(s.pkt) && IsException(s.pkt) == s.Report?
    requires !p.done
    ensures var q := Next(Next(p, s), Interrupt);
            q.flag == 0 && q.wakeups == p.wakeups + (if p.threads.cmd == 0 then 0 else 1) &&
            q.body[..4] == s.pkt[..4] && q.delivered == p.delivered + [s.pkt] && q.executed == p.executed &&
            q.threads == p.threads && q.parked == p.parked && !q.done
  {
    SentIs(p, s.pkt, s.accepted);
  }

  /** Two packets taken before the thread runs. */
  lemma TakenTwice(p: Path, a: seq<byte>, b: seq<byte>)
    requires Sized(p) && !p.done && Passes(a) && Passes(b) && !IsException(a) && !IsException(b)
    ensures var q := Next(Next(Next(Next(p, Packet(a, true)), Interrupt), Packet(b, true)), Interrupt);
            q.wakeups == p.wakeups + (if p.threads.cmd == 0 then 0 else 2) && q.body[..4] == b[..4] &&
            q.delivered == p.delivered + [a] + [b] && q.executed == p.executed && q.parked == p.parked && !q.done
  {
    Taken(p, Packet(a, true));
    Taken(Next(Next(p, Packet(a, true)), Interrupt), Packet(b, true));
  }

  /** A packet can be lost, and the one that overwrote it run twice. */
  lemma OverwrittenPacketRunsTwice(rpc: seq<byte>, body: seq<byte>, cmd: nat, a: seq<byte>, b: seq<byte>)
    requires |rpc| == RPC_SIZE && |body| == BODY && cmd > 0 && Passes(a) && Passes(b)
    requires !IsException(a) && !IsException(b) && Be32(b[..4]) != RESET_CMD
    ensures var p := Run(Init(rpc, body, cmd),
                         [Packet(a, true), Interrupt, Packet(b, true), Interrupt, Wake(-1, false)] + [Wake(-1, false)]);
            p.delivered == [a, b] && |p.executed| == 2 && p.executed[0].after == 2 && p.executed[1].after == 2
  {
    var p0 := Init(rpc, body, cmd);
    var ss := [Packet(a, true), Interrupt, Packet(b, true), Interrupt, Wake(-1, false)];
    RunFive(p0, ss);
    RunSix(p0, ss, Wake(-1, false));
    PassedCommand(b);
    TakenTwice(p0, a, b);
    WokenTwice(Next(Next(Next(Next(p0, ss[0]), ss[1]), ss[2]), ss[3]));
  }

  lemma PassedCommand(b: seq<byte>)
    requires Passes(b) && !IsException(b)
    ensures |b| >= 6 && Be32(b[..4]) != IOPEXCEP_CMD
  {
  }

  lemma WokenTwice(p: Path)
    requires Sized(p) && p.wakeups == 2 && !p.done && !p.parked && p.executed == []
    requires Be32(p.body[..4]) !in {RESET_CMD, IOPEXCEP_CMD}
    ensures var q := Next(Next(p, Wake(-1, false)), Wake(-1, false));
            q.delivered == p.delivered && |q.executed| == 2 &&
            forall j :: 0 <= j < 2 ==> q.executed[j].after == |p.delivered|
  {
  }

  lemma FailedStart(p: Path, a: seq<byte>)
    requires Sized(p) && p.wakeups == 0 && !p.done && !p.parked && p.threads == U.Threads(0, p.threads.cmd, {})
    requires p.threads.cmd > 0 && Passes(a) && Be32(a[..4]) == 0xbabe_0203
    ensures var q := Next(Next(Next(p, Packet(a, true)), Interrupt), Wake(1, false));
            q.threads.cmd == 0 && Pending(q) == 0 && q.delivered == p.delivered + [a] &&
            |q.executed| == |p.executed| + 1 && !q.done
  {
    Taken(p, Packet(a, true));
  }

  /** After a start that failed, the next packet is lost though nothing was pending
      when it came. */
  lemma FailedStartLosesNext(rpc: seq<byte>, body: seq<byte>, cmd: nat, a: seq<byte>, b: seq<byte>)
    requires |rpc| == RPC_SIZE && |body| == BODY && cmd > 0 && Passes(a) && Passes(b)
    requires Be32(a[..4]) == 0xbabe_0203 && !IsException(b)
    ensures var p := Run(Init(rpc, body, cmd),
                         [Packet(a, true), Interrupt, Wake(1, false), Packet(b, true), Interrupt]);
            p.delivered == [a, b] && |p.executed| == 1 && Pending(p) == 0
  {
    var p0 := Init(rpc, body, cmd);
    var ss := [Packet(a, true), Interrupt, Wake(1, false), Packet(b, true), Interrupt];
    RunFive(p0, ss);
    FailedStart(p0, a);
    Taken(Next(Next(Next(p0, ss[0]), ss[1]), ss[2]), ss[3]);
  }

  lemma ReportTakenIn(p: Path, r: seq<byte>)
    requires Sized(p) && p.wakeups == 0 && !p.done && !p.parked && p.threads.cmd > 0 && IsException(r)
    ensures var q := Next(Next(Next(p, Report(r, true)), Interrupt), Wake(-1, false));
            q.parked && q.threads.cmd > 0 && Pending(q) == 0 && q.delivered == p.delivered + [r] &&
            |q.executed| == |p.executed| + 1 && !q.done
  {
    Taken(p, Report(r, true));
  }

  lemma SwallowedWhenParked(p: Path, b: seq<byte>)
    requires Sized(p) && Pending(p) == 0 && !p.done && p.parked && p.threads.cmd > 0 && Passes(b) && !IsException(b)
    ensures var q := Next(Next(Next(p, Packet(b, true)), Interrupt), Wake(-1, false));
            Pending(q) == 0 && q.delivered == p.delivered + [b] && q.executed == p.executed
  {
    Taken(p, Packet(b, true));
  }

  /** So is the next one after an exception report. */
  lemma ReportSwallowsNext(rpc: seq<byte>, body: seq<byte>, cmd: nat, r: seq<byte>, b: seq<byte>)
    requires |rpc| == RPC_SIZE && |body| == BODY && cmd > 0 && IsException(r) && Passes(b) && !IsException(b)
    ensures var p := Run(Init(rpc, body, cmd),
                         [Report(r, true), Interrupt, Wake(-1, false), Packet(b, true), Interrupt] + [Wake(-1, false)]);
            p.delivered == [r, b] && |p.executed| == 1 && Pending(p) == 0
  {
    var p0 := Init(rpc, body, cmd);
    var ss := [Report(r, true), Interrupt, Wake(-1, false), Packet(b, true), Interrupt];
    RunFive(p0, ss);
    RunSix(p0, ss, Wake(-1, false));
    ReportTakenIn(p0, r);
    SwallowedWhenParked(Next(Next(Next(p0, ss[0]), ss[1]), ss[2]), b);
  }

  lemma ForgottenStep(p: Path, s: Step)
    requires Sized(p) && p.threads.cmd == 0
    ensures var q := Next(p, s); q.threads.cmd == 0 && |q.executed| + q.wakeups <= |p.executed| + p.wakeups
  {
  }

  /** With its id cleared, the command thread executes no more than it was woken
      for before. */
  lemma {:induction false} ForgottenExecutesNoMore(p: Path, ss: seq<Step>)
    requires Sized(p) && p.threads.cmd == 0
    ensures var q := Run(p, ss);
            q.threads.cmd == 0 && |q.executed| + q.wakeups <= |p.executed| + p.wakeups
  {
    if ss != [] {
      ForgottenExecutesNoMore(p, ss[..|ss| - 1]);
      ForgottenStep(Run(p, ss[..|ss| - 1]), ss[|ss| - 1]);
    }
  }

  /** The two commands that leave no command thread to wake. */
  predicate Forgets(p: Path, s: Step)
    requires Sized(p)
  {
    s.Wake? && p.wakeups > 0 && !p.parked &&
    (Be32(p.body[..4]) == 0xbabe_0201 ||
     (Be32(p.body[..4]) == 0xbabe_0203 && p.threads.user == 0 && s.pid > 0 && !s.started))
  }

  lemma ForgetStep(p: Path, s: Step)
    requires Sized(p) && p.threads.cmd > 0 && Next(p, s).threads.cmd != p.threads.cmd
    ensures Forgets(p, s)
  {
  }

  /** The command thread's id changes in no other way. */
  lemma {:induction false} ForgottenOnlyBy(p: Path, ss: seq<Step>) returns (k: nat)
    requires Sized(p) && p.threads.cmd > 0 && Run(p, ss).threads.cmd != p.threads.cmd
    ensures k < |ss| && Forgets(Run(p, ss[..k]), ss[k])
  {
    var init := ss[..|ss| - 1];
    if Run(p, init).threads.cmd == p.threads.cmd {
      k := |ss| - 1;
      ForgetStep(Run(p, init), ss[k]);
    } else {
      k := ForgottenOnlyBy(p, init);
      assert init[..k] == ss[..k];
    }
  }
}
