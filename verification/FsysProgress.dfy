/** What the threads of FsysThreads get done: an operation always ends, in a bounded
    number of its own steps; it can be answered in every way the protocol allows;
    and the server goes on taking clients for as long as it is active. */
module FsysProgress {
  import opened Bytes
  import opened HostLink
  import opened Lwip
  import opened Replies
  import opened FsysThreads

  // ---- Operations end -------------------------------------------------------------

  function Rest(n: nat, k: nat): nat {
    if k < n then n - k else 0
  }

  function DataLength(r: Req): nat {
    if r.Read? then r.nbytes else if r.Write? then |r.data| else 0
  }

  /** A bound on the steps an operation has left before it gives the semaphore back. */
  function Left(pc: Pc): nat {
    match pc
    case Check(r) => 10 + 2 * (PacketSize(r) as nat) + 2 * DataLength(r) + ReplySize(r) as nat
    case Build(r, k) =>
      9 + Rest(PacketSize(r), k) + PacketSize(r) as nat + 2 * DataLength(r) + ReplySize(r) as nat
    case Send(r, _, k) => 8 + Rest(PacketSize(r), k) + 2 * DataLength(r) + ReplySize(r) as nat
    case SendData(r, _, k) => 7 + Rest(DataLength(r), k) + DataLength(r) + ReplySize(r) as nat
    case Recv(r, _, k) => 6 + Rest(ReplySize(r), k) + DataLength(r)
    case Decode(r) => 5 + DataLength(r)
    case RecvData(_, _, n, k) => 4 + Rest(n, k)
    case Deactivate => 4
    case Detach => 3
    case Disconnect(_) => 2
    case Finish(_) => 1
    case _ => 0
  }

  lemma SendShrinks(sh: Shared, pc: Pc, c: Choice)
    requires Buffers(sh) && (pc.Send? || pc.SendData?)
    ensures Left(Work(sh, pc, c).1) < Left(pc)
  {
  }

  lemma RecvShrinks(sh: Shared, pc: Pc, c: Choice)
    requires Buffers(sh) && pc.Recv?
    ensures Left(Work(sh, pc, c).1) < Left(pc)
  {
  }

  lemma DecodeShrinks(sh: Shared, pc: Pc, c: Choice)
    requires Buffers(sh) && (pc.Decode? || pc.RecvData?)
    ensures Left(Work(sh, pc, c).1) < Left(pc)
  {
  }

  lemma RestShrinks(sh: Shared, pc: Pc, c: Choice)
    requires Buffers(sh) && (pc.Check? || pc.Build? || pc.Deactivate? || pc.Detach? || pc.Disconnect?)
    ensures Left(Work(sh, pc, c).1) < Left(pc)
  {
  }

  /** Each step of an operation, whatever the environment does, is a step to its end. */
  lemma StepShrinks(sh: Shared, pc: Pc, c: Choice)
    requires Buffers(sh) && Holding(pc)
    ensures Left(ClientStep(sh, pc, c).1) < Left(pc)
  {
    if pc.Send? || pc.SendData? {
      SendShrinks(sh, pc, c);
    } else if pc.Recv? {
      RecvShrinks(sh, pc, c);
    } else if pc.Decode? || pc.RecvData? {
      DecodeShrinks(sh, pc, c);
    } else if !pc.Finish? {
      RestShrinks(sh, pc, c);
    }
  }

  /** The steps of a thread among others. */
  function Own(i: nat, ls: seq<Label>): nat {
    if ls == [] then 0 else
      Own(i, ls[..|ls| - 1]) + if ls[|ls| - 1].Client? && ls[|ls| - 1].i == i then 1 else 0
  }

  /** The state after more steps. */
  function After(st: State, ls: seq<Label>): (st': State)
    requires Buffers(st.sh)
    ensures Buffers(st'.sh) && |st'.threads| == |st.threads|
  {
    if ls == [] then st else Next(After(st, ls[..|ls| - 1]), ls[|ls| - 1])
  }

  lemma {:induction false} AfterExec(n: nat, a: seq<Label>, b: seq<Label>)
    ensures Exec(n, a + b) == After(Exec(n, a), b)
  {
    if b == [] {
      assert a + b == a;
    } else {
      assert (a + b)[..|a + b| - 1] == a + b[..|b| - 1];
      AfterExec(n, a, b[..|b| - 1]);
    }
  }

  /** So an operation that is still inside has taken no more steps than its bound,
      however many the other threads and the server have taken. */
  lemma {:induction false} OperationsEnd(st: State, i: nat, ls: seq<Label>)
    requires Buffers(st.sh) && i < |st.threads|
    requires forall m :: 0 <= m <= |ls| ==> Holding(After(st, ls[..m]).threads[i])
    ensures Own(i, ls) + Left(After(st, ls).threads[i]) <= Left(st.threads[i])
  {
    assert ls[..|ls|] == ls;
    if ls != [] {
      var init := ls[..|ls| - 1];
      forall m | 0 <= m <= |init| ensures Holding(After(st, init[..m]).threads[i]) {
        assert init[..m] == ls[..m];
      }
      OperationsEnd(st, i, init);
      OwnStep(After(st, init), i, ls[|ls| - 1]);
    }
  }

  lemma OwnStep(st: State, i: nat, l: Label)
    requires Buffers(st.sh) && i < |st.threads| && Holding(st.threads[i])
    ensures Left(Next(st, l).threads[i]) + (if l.Client? && l.i == i then 1 else 0) <= Left(st.threads[i])
  {
    if l.Client? && l.i == i {
      StepShrinks(st.sh, st.threads[i], l.c);
    }
  }

  // ---- Operations succeed ------------------------------------------------------------

  /** Steps of one client thread alone. */
  function Play(sh: Shared, pc: Pc, cs: seq<Choice>): (end: (Shared, Pc))
    requires Buffers(sh)
    ensures Buffers(end.0)
  {
    if cs == [] then (sh, pc) else
      var (sh', pc') := Play(sh, pc, cs[..|cs| - 1]);
      ClientKeepsBuffers(sh', pc', cs[|cs| - 1]);
      ClientStep(sh', pc', cs[|cs| - 1])
  }

  lemma {:induction false} PlayOn(sh: Shared, pc: Pc, a: seq<Choice>, b: seq<Choice>)
    requires Buffers(sh)
    ensures var (sh', pc') := Play(sh, pc, a); Play(sh', pc', b) == Play(sh, pc, a + b)
  {
    if b == [] {
      assert a + b == a;
    } else {
      assert (a + b)[..|a + b| - 1] == a + b[..|b| - 1];
      PlayOn(sh, pc, a, b[..|b| - 1]);
    }
  }

  ghost predicate Leads(sh: Shared, pc: Pc, sh': Shared, pc': Pc)
    requires Buffers(sh)
  {
    exists cs :: Play(sh, pc, cs) == (sh', pc')
  }

  lemma LeadsOn(sh: Shared, pc: Pc, sh1: Shared, pc1: Pc, sh2: Shared, pc2: Pc)
    requires Buffers(sh) && Buffers(sh1) && Leads(sh, pc, sh1, pc1) && Leads(sh1, pc1, sh2, pc2)
    ensures Leads(sh, pc, sh2, pc2)
  {
    var a :| Play(sh, pc, a) == (sh1, pc1);
    var b :| Play(sh1, pc1, b) == (sh2, pc2);
    PlayOn(sh, pc, a, b);
    assert Play(sh, pc, a + b) == (sh2, pc2);
  }

  lemma OneStep(sh: Shared, pc: Pc, c: Choice)
    requires Buffers(sh)
    ensures var (sh', pc') := ClientStep(sh, pc, c); Buffers(sh') && Leads(sh, pc, sh', pc')
  {
    assert [c][..0] == [];
    assert Play(sh, pc, [c]) == ClientStep(sh, pc, c);
    ClientKeepsBuffers(sh, pc, c);
  }

  /** A choice for a step that needs only one thing of its environment. */
  function Asks(r: Req): Choice { Choice(Ask(r), false, 0, [], 0) }
  function Sends(n: nat): Choice { Choice(Destroy, false, n, [], 0) }
  function Receives(bytes: seq<byte>): Choice { Choice(Destroy, false, 0, bytes, 0) }

  /** All that an operation leaves alone while it has its connection. */
  predicate Steady(sh: Shared, sh': Shared) {
    Buffers(sh') && sh'.sock == sh.sock && sh'.sema == sh.sema && sh'.hist == sh.hist &&
    sh'.active == sh.active && Sockets(sh') == Sockets(sh) && sh'.cur.act == sh.cur.act
  }

  lemma Starts(sh: Shared, r: Req)
    requires Buffers(sh) && sh.sema == 1 && sh.sock >= 0
    ensures var sh' := sh.(sema := 0, cur := Record(Ask(r), [], [])); Leads(sh, Idle, sh', Build(r, 0))
  {
    var sh' := sh.(sema := 0, cur := Record(Ask(r), [], []));
    OneStep(sh, Idle, Asks(r));
    OneStep(sh, Waiting(Ask(r)), Sends(0));
    LeadsOn(sh, Idle, sh, Waiting(Ask(r)), sh', Check(r));
    OneStep(sh', Check(r), Sends(0));
    LeadsOn(sh, Idle, sh', Check(r), sh', Build(r, 0));
  }

  lemma TakeOneMore(buf: seq<byte>, p: seq<byte>, k: nat)
    requires k < |buf| && k < |p| && buf[..k] == p[..k]
    ensures buf[k := p[k]][..k + 1] == p[..k + 1]
  {
    assert p[..k + 1] == p[..k] + [p[k]];
  }

  lemma BuildsByte(sh: Shared, r: Req, k: nat)
    requires Buffers(sh) && k < PacketSize(r) as nat
    ensures var sh' := sh.(sendBuf := sh.sendBuf[k := Packet(r)[k]]);
            Leads(sh, Build(r, k), sh', Build(r, k + 1))
  {
    OneStep(sh, Build(r, k), Sends(0));
  }

  lemma BuildEnds(sh: Shared, r: Req)
    requires Buffers(sh)
    ensures Leads(sh, Build(r, PacketSize(r)), sh, Send(r, sh.sock, 0))
  {
    OneStep(sh, Build(r, PacketSize(r)), Sends(0));
  }

  lemma {:induction false} Builds(sh: Shared, r: Req, k: nat) returns (sh': Shared)
    requires Buffers(sh) && k <= PacketSize(r) as nat && sh.sendBuf[..k] == Packet(r)[..k]
    ensures Buffers(sh') && sh' == sh.(sendBuf := sh'.sendBuf) && sh'.sendBuf[..PacketSize(r)] == Packet(r)
    ensures Leads(sh, Build(r, k), sh', Send(r, sh.sock, 0))
    decreases PacketSize(r) as nat - k
  {
    if k == PacketSize(r) {
      BuildEnds(sh, r);
      TakeIsPrefix(Packet(r), k, []);
      sh' := sh;
    } else {
      var next := sh.(sendBuf := sh.sendBuf[k := Packet(r)[k]]);
      BuildsByte(sh, r, k);
      TakeOneMore(sh.sendBuf, Packet(r), k);
      sh' := Builds(next, r, k + 1);
      LeadsOn(sh, Build(r, k), next, Build(r, k + 1), sh', Send(r, sh.sock, 0));
    }
  }

  /** The packet goes out in one piece. */
  lemma SendsPacket(sh: Shared, r: Req)
    requires Buffers(sh) && sh.sock in Sockets(sh) && sh.sendBuf[..PacketSize(r)] == Packet(r)
    ensures var sh' := Sent(sh, sh.sock, Packet(r));
            Leads(sh, Send(r, sh.sock, 0), sh', if r.Write? then SendData(r, sh.sock, 0) else Recv(r, sh.sock, 0)) &&
            Steady(sh, sh')
  {
    var s := sh.sock;
    var sh' := Sent(sh, s, Packet(r));
    OneStep(sh, Send(r, s, 0), Sends(PacketSize(r)));
    assert sh.sendBuf[0..PacketSize(r)] == sh.sendBuf[..PacketSize(r)];
    OneStep(sh', Send(r, s, PacketSize(r)), Sends(0));
    LeadsOn(sh, Send(r, s, 0), sh', Send(r, s, PacketSize(r)), sh',
            if r.Write? then SendData(r, s, 0) else Recv(r, s, 0));
  }

  /** And so do the data of a write. */
  lemma SendsData(sh: Shared, r: Req)
    requires Buffers(sh) && sh.sock in Sockets(sh) && r.Write?
    ensures var sh' := Sent(sh, sh.sock, r.data);
            Leads(sh, SendData(r, sh.sock, 0), sh', Recv(r, sh.sock, 0)) && Steady(sh, sh')
  {
    var s := sh.sock;
    var sh' := Sent(sh, s, r.data);
    OneStep(sh, SendData(r, s, 0), Sends(|r.data|));
    assert r.data[0..|r.data|] == r.data;
    OneStep(sh', SendData(r, s, |r.data|), Sends(0));
    LeadsOn(sh, SendData(r, s, 0), sh', SendData(r, s, |r.data|), sh', Recv(r, s, 0));
  }

  /** A request goes out whole. */
  lemma SendsRequest(sh: Shared, r: Req) returns (sh': Shared)
    requires Buffers(sh) && sh.sock in Sockets(sh) && sh.cur == Record(Ask(r), [], [])
    ensures Steady(sh, sh') && sh'.cur == Record(Ask(r), RequestBytes(r), [])
    ensures Leads(sh, Build(r, 0), sh', Recv(r, sh.sock, 0))
  {
    var s := sh.sock;
    var built := Builds(sh, r, 0);
    SendsPacket(built, r);
    sh' := Sent(built, s, Packet(r));
    var pc := if r.Write? then SendData(r, s, 0) else Recv(r, s, 0);
    LeadsOn(sh, Build(r, 0), built, Send(r, s, 0), sh', pc);
    assert [] + Packet(r) == Packet(r);
    if r.Write? {
      SendsData(sh', r);
      var more := Sent(sh', s, r.data);
      LeadsOn(sh, Build(r, 0), sh', pc, more, Recv(r, s, 0));
      sh' := more;
    }
  }

  /** Some of the fixed part of a reply comes in. */
  lemma ReceivesSome(sh: Shared, r: Req, k: nat, bytes: seq<byte>)
    requires Buffers(sh) && sh.sock in Sockets(sh) && bytes != [] && k < ReplySize(r) as nat
    requires k + |bytes| <= if k < HEADER_SIZE then HEADER_SIZE else ReplySize(r) as nat
    requires k == HEADER_SIZE ==> HeaderIs(sh.recvBuf[..HEADER_SIZE], ReplyCommand(r), ReplySize(r))
    ensures var sh' := WithReply(sh, k, bytes);
            Buffers(sh') && Leads(sh, Recv(r, sh.sock, k), sh', Recv(r, sh.sock, k + |bytes|))
  {
    OneStep(sh, Recv(r, sh.sock, k), Receives(bytes));
  }

  function WithReply(sh: Shared, k: nat, bytes: seq<byte>): Shared
    requires k + |bytes| <= |sh.recvBuf|
  {
    Got(sh, sh.sock, bytes).(recvBuf := Patch(sh.recvBuf, k, bytes))
  }

  lemma WithReplyIs(sh: Shared, k: nat, bytes: seq<byte>)
    requires Buffers(sh) && k + |bytes| <= PACKET_LIMIT
    ensures var sh' := WithReply(sh, k, bytes);
            Steady(sh, sh') && sh'.cur == sh.cur.(got := sh.cur.got + bytes) &&
            sh'.recvBuf[..k + |bytes|] == sh.recvBuf[..k] + bytes
  {
    PatchExtends(sh.recvBuf, k, bytes);
  }

  /** The header of a reply comes in. */
  lemma ReceivesHeader(sh: Shared, r: Req, a: seq<byte>) returns (sh': Shared)
    requires Buffers(sh) && sh.sock in Sockets(sh) && sh.cur.got == [] && |a| == 6
    ensures Steady(sh, sh') && sh'.cur == sh.cur.(got := a) && sh'.recvBuf[..6] == a
    ensures Leads(sh, Recv(r, sh.sock, 0), sh', Recv(r, sh.sock, 6))
  {
    assert [] + a == a && sh.recvBuf[..0] == [];
    ReceivesSome(sh, r, 0, a);
    WithReplyIs(sh, 0, a);
    sh' := WithReply(sh, 0, a);
  }

  /** The rest of its fixed part follows. */
  lemma ReceivesBody(sh: Shared, r: Req, b: seq<byte>) returns (sh': Shared)
    requires Buffers(sh) && sh.sock in Sockets(sh) && |b| == ReplySize(r) as nat - 6
    requires HeaderIs(sh.recvBuf[..6], ReplyCommand(r), ReplySize(r))
    ensures Steady(sh, sh') && sh'.cur == sh.cur.(got := sh.cur.got + b)
    ensures sh'.recvBuf[..ReplySize(r)] == sh.recvBuf[..6] + b
    ensures Leads(sh, Recv(r, sh.sock, 6), sh', Decode(r))
  {
    ReceivesSome(sh, r, 6, b);
    WithReplyIs(sh, 6, b);
    sh' := WithReply(sh, 6, b);
    Decodes(sh', r, sh.sock);
    LeadsOn(sh, Recv(r, sh.sock, 6), sh', Recv(r, sh.sock, ReplySize(r)), sh', Decode(r));
  }

  lemma ReceivesReply(sh: Shared, r: Req, head: seq<byte>) returns (sh': Shared)
    requires Buffers(sh) && sh.sock in Sockets(sh) && sh.cur.got == []
    requires |head| == ReplySize(r) && HeaderIs(head, ReplyCommand(r), ReplySize(r))
    ensures Steady(sh, sh') && sh'.cur == sh.cur.(got := head) && sh'.recvBuf[..ReplySize(r)] == head
    ensures Leads(sh, Recv(r, sh.sock, 0), sh', Decode(r))
  {
    var (a, b) := (head[..6], head[6..]);
    assert a + b == head;
    HeaderHolds(head, ReplyCommand(r), ReplySize(r));
    var sh1 := ReceivesHeader(sh, r, a);
    sh' := ReceivesBody(sh1, r, b);
    LeadsOn(sh, Recv(r, sh.sock, 0), sh1, Recv(r, sh.sock, 6), sh', Decode(r));
  }

  lemma Decodes(sh: Shared, r: Req, s: int)
    requires Buffers(sh)
    ensures Leads(sh, Recv(r, s, ReplySize(r)), sh, Decode(r))
  {
    OneStep(sh, Recv(r, s, ReplySize(r)), Sends(0));
  }

  lemma HeaderHolds(s: seq<byte>, cmd: u32, size: nat)
    requires HeaderIs(s, cmd, size)
    ensures HeaderIs(s[..HEADER_SIZE], cmd, size)
  {
    assert s[..HEADER_SIZE][..4] == s[..4] && s[..HEADER_SIZE][4..6] == s[4..6];
  }

  /** The data of a read come in. */
  lemma ReceivesData(sh: Shared, r: Req, n: len32, data: seq<byte>) returns (sh': Shared)
    requires Buffers(sh) && sh.sock in Sockets(sh) && |data| == n
    ensures Steady(sh, sh') && sh'.cur == sh.cur.(got := sh.cur.got + data)
    ensures Leads(sh, RecvData(r, sh.sock, n, 0), sh', Finish(n))
  {
    var s := sh.sock;
    sh' := Got(sh, s, data);
    if n == 0 {
      ReceivedNothing(sh, s);
      OneStep(sh, RecvData(r, s, 0, 0), Sends(0));
      assert data == [];
    } else {
      OneStep(sh, RecvData(r, s, n, 0), Receives(data));
      OneStep(sh', RecvData(r, s, n, n), Sends(0));
      LeadsOn(sh, RecvData(r, s, n, 0), sh', RecvData(r, s, n, n), sh', Finish(n));
    }
  }

  lemma ReceivedNothing(sh: Shared, s: int)
    ensures Got(sh, s, []) == sh
  {
    AddNothing(sh.streams, s);
    assert sh.cur.got + [] == sh.cur.got;
  }

  /** A reply header with a count, or with a value, is acted on. */
  lemma ActsOnCount(sh: Shared, r: Req, n: len32)
    requires Buffers(sh) && r.Read? && ReadCount(sh.recvBuf[..14]) == n <= r.nbytes
    ensures Leads(sh, Decode(r), sh, RecvData(r, sh.sock, n, 0))
  {
    OneStep(sh, Decode(r), Sends(0));
  }

  lemma ActsOnValue(sh: Shared, r: Req, ret: i32)
    requires Buffers(sh) && !r.Read? && RetVal(sh.recvBuf[..10]) == ret
    requires r.Write? ==> ret < 0 || 0 < ret <= |r.data|
    ensures Leads(sh, Decode(r), sh, Finish(ret))
  {
    OneStep(sh, Decode(r), Sends(0));
  }

  lemma FieldsOfHead(buf: seq<byte>, reply: seq<byte>, n: nat)
    requires 10 <= n <= |reply| && n <= |buf| && buf[..n] == reply[..n]
    ensures RetVal(buf[..10]) == RetVal(reply) && (n >= 14 ==> ReadCount(buf[..14]) == ReadCount(reply))
  {
    SubSlice(buf, 0, 10, 6, 10);
    SubSlice(buf, 0, n, 6, 10);
    SubSlice(reply, 0, n, 6, 10);
    if n >= 14 {
      SubSlice(buf, 0, 14, 10, 14);
      SubSlice(buf, 0, n, 10, 14);
      SubSlice(reply, 0, n, 10, 14);
    }
  }

  /** A reply that the protocol allows is taken whole and its value returned. */
  lemma TakesReply(sh: Shared, r: Req, ret: i32, reply: seq<byte>) returns (sh': Shared)
    requires Buffers(sh) && sh.sock in Sockets(sh) && sh.cur.got == [] && IsReply(r, ret, reply)
    ensures Steady(sh, sh') && sh'.cur == sh.cur.(got := reply)
    ensures Leads(sh, Recv(r, sh.sock, 0), sh', Finish(ret))
  {
    var (s, n) := (sh.sock, ReplySize(r));
    var head := reply[..n];
    assert head[..4] == reply[..4] && head[4..6] == reply[4..6] && head + reply[n..] == reply;
    var sh1 := ReceivesReply(sh, r, head);
    FieldsOfHead(sh1.recvBuf, reply, n);
    if r.Read? {
      ActsOnCount(sh1, r, ret);
      sh' := ReceivesData(sh1, r, ret, reply[n..]);
      LeadsOn(sh1, Decode(r), sh1, RecvData(r, s, ret, 0), sh', Finish(ret));
    } else {
      ActsOnValue(sh1, r, ret);
      sh' := sh1;
    }
    LeadsOn(sh, Recv(r, s, 0), sh1, Decode(r), sh', Finish(ret));
  }

  /** The labels of one thread's steps. */
  function Labels(i: nat, cs: seq<Choice>): (ls: seq<Label>)
    ensures |ls| == |cs| && forall k :: 0 <= k < |ls| ==> ls[k] == Client(i, cs[k])
  {
    seq(|cs|, k requires 0 <= k < |cs| => Client(i, cs[k]))
  }

  lemma {:induction false} PlayAmong(st: State, i: nat, cs: seq<Choice>)
    requires Buffers(st.sh) && i < |st.threads|
    ensures var (sh, pc) := Play(st.sh, st.threads[i], cs);
            After(st, Labels(i, cs)) == State(sh, st.threads[i := pc], st.srv)
  {
    if cs != [] {
      var init := cs[..|cs| - 1];
      PlayAmong(st, i, init);
      assert Labels(i, cs)[..|cs| - 1] == Labels(i, init);
    }
  }

  /** With the semaphore free and a connection, a thread that asks for something can
      be given every answer the protocol allows, and is then done. */
  lemma OperationSucceeds(st: State, i: nat, r: Req, ret: i32, reply: seq<byte>) returns (cs: seq<Choice>)
    requires Buffers(st.sh) && i < |st.threads| && st.threads[i] == Idle
    requires st.sh.sema == 1 && st.sh.sock >= 0 && st.sh.sock in Sockets(st.sh) && IsReply(r, ret, reply)
    ensures var st' := After(st, Labels(i, cs));
            st'.threads == st.threads && st'.srv == st.srv && st'.sh.sema == 1 && st'.sh.sock == st.sh.sock &&
            st'.sh.hist == st.sh.hist + [(Record(Ask(r), RequestBytes(r), reply), ret)]
  {
    var sh := Completes(st.sh, r, ret, reply);
    cs :| Play(st.sh, Idle, cs) == (sh, Idle);
    PlayAmong(st, i, cs);
  }

  lemma Completes(sh: Shared, r: Req, ret: i32, reply: seq<byte>) returns (sh4: Shared)
    requires Buffers(sh) && sh.sema == 1 && sh.sock >= 0 && sh.sock in Sockets(sh) && IsReply(r, ret, reply)
    ensures Leads(sh, Idle, sh4, Idle) && sh4.sema == 1 && sh4.sock == sh.sock
    ensures sh4.hist == sh.hist + [(Record(Ask(r), RequestBytes(r), reply), ret)]
  {
    var sh1 := sh.(sema := 0, cur := Record(Ask(r), [], []));
    Starts(sh, r);
    var sh2 := SendsRequest(sh1, r);
    LeadsOn(sh, Idle, sh1, Build(r, 0), sh2, Recv(r, sh.sock, 0));
    var sh3 := TakesReply(sh2, r, ret, reply);
    LeadsOn(sh, Idle, sh2, Recv(r, sh.sock, 0), sh3, Finish(ret));
    OneStep(sh3, Finish(ret), Sends(0));
    sh4 := sh3.(sema := 1, hist := sh3.hist + [(sh3.cur, ret)]);
    LeadsOn(sh, Idle, sh3, Finish(ret), sh4, Idle);
  }

  /** Destroying the file system ends too: the server is told to stop, and there is no
      current socket. */
  lemma DestroySucceeds(st: State, i: nat) returns (cs: seq<Choice>)
    requires Buffers(st.sh) && i < |st.threads| && st.threads[i] == Idle && st.sh.sema == 1
    ensures var st' := After(st, Labels(i, cs));
            st'.threads == st.threads && st'.srv == st.srv && st'.sh.sema == 1 && !st'.sh.active &&
            st'.sh.sock == -1 && st'.sh.hist == st.sh.hist + [(Record(Destroy, [], []), -1)] &&
            st'.sh.streams == if st.sh.sock >= 0 then st.sh.streams - {st.sh.sock} else st.sh.streams
  {
    var sh := Destroys(st.sh);
    cs :| Play(st.sh, Idle, cs) == (sh, Idle);
    PlayAmong(st, i, cs);
  }

  lemma DestroyStarts(sh: Shared)
    requires Buffers(sh) && sh.sema == 1
    ensures var sh' := sh.(sema := 0, cur := Record(Destroy, [], []), active := false); Leads(sh, Idle, sh', Detach)
  {
    var sh1 := sh.(sema := 0, cur := Record(Destroy, [], []));
    OneStep(sh, Idle, Sends(0));
    OneStep(sh, Waiting(Destroy), Sends(0));
    LeadsOn(sh, Idle, sh, Waiting(Destroy), sh1, Deactivate);
    OneStep(sh1, Deactivate, Sends(0));
    LeadsOn(sh, Idle, sh1, Deactivate, sh1.(active := false), Detach);
  }

  /** Giving up the current socket. */
  lemma LetsGo(sh: Shared) returns (end: Shared)
    requires Buffers(sh)
    ensures Buffers(end) && Leads(sh, Detach, end, Finish(-1)) && end.sock == -1
    ensures end.active == sh.active && end.cur == sh.cur && end.hist == sh.hist
    ensures end.streams == if sh.sock >= 0 then sh.streams - {sh.sock} else sh.streams
  {
    end := sh.(sock := -1);
    OneStep(sh, Detach, Sends(0));
    if sh.sock >= 0 {
      OneStep(end, Disconnect(sh.sock), Sends(0));
      LeadsOn(sh, Detach, end, Disconnect(sh.sock), Disconnected(end, sh.sock), Finish(-1));
      end := Disconnected(end, sh.sock);
    }
  }

  lemma Destroys(sh: Shared) returns (end: Shared)
    requires Buffers(sh) && sh.sema == 1
    ensures Leads(sh, Idle, end, Idle) && end.sema == 1 && !end.active && end.sock == -1
    ensures end.hist == sh.hist + [(Record(Destroy, [], []), -1)]
    ensures end.streams == if sh.sock >= 0 then sh.streams - {sh.sock} else sh.streams
  {
    DestroyStarts(sh);
    var sh1 := sh.(sema := 0, cur := Record(Destroy, [], []), active := false);
    var sh2 := LetsGo(sh1);
    LeadsOn(sh, Idle, sh1, Detach, sh2, Finish(-1));
    end := sh2.(sema := 1, hist := sh2.hist + [(sh2.cur, -1)]);
    OneStep(sh2, Finish(-1), Sends(0));
    LeadsOn(sh, Idle, sh2, Finish(-1), end, Idle);
  }

  // ---- The server goes on ---------------------------------------------------------------

  function Takes(c: int): Label { Server(Choice(Destroy, false, 0, [], c)) }

  /** The server takes k steps, while a client with descriptor c tries to connect. */
  function Serves(st: State, c: int, k: nat): (st': State)
    requires Buffers(st.sh)
    ensures Buffers(st'.sh)
    decreases k, |st.threads|
  {
    if k == 0 then st else Next(Serves(st, c, k - 1), Takes(c))
  }

  lemma {:induction false} ServesAmong(st: State, c: int, k: nat)
    requires Buffers(st.sh)
    ensures Serves(st, c, k) == After(st, seq(k, _ => Takes(c)))
  {
    if k > 0 {
      ServesAmong(st, c, k - 1);
      assert seq(k, _ => Takes(c))[..k - 1] == seq(k - 1, _ => Takes(c));
    }
  }

  lemma ServesOn(st: State, c: int, k: nat)
    requires Buffers(st.sh)
    ensures Serves(st, c, 0) == st && Serves(st, c, k + 1) == Next(Serves(st, c, k), Takes(c))
  {
  }

  /** A client connects; the one before it is let go; the new one becomes current. */
  lemma ServerAccepts(st: State, c: int)
    requires Buffers(st.sh) && st.srv == Loop && st.sh.active && c >= 0 && c !in Sockets(st.sh)
    ensures Next(Next(st, Takes(c)), Takes(c)) ==
            State(st.sh.(streams := st.sh.streams[c := Stream([], [])], accepted := st.sh.accepted + 1),
                  st.threads, Test(c))
  {
  }

  lemma ServerReplaces(st: State, c: int)
    requires Buffers(st.sh) && st.srv == Test(c) && st.sh.sock >= 0
    ensures Next(Next(Next(st, Takes(c)), Takes(c)), Takes(c)) ==
            State(Disconnected(st.sh.(sock := -1), st.sh.sock), st.threads, Assign(c))
  {
  }

  lemma ServerAssigns(st: State, c: int)
    requires Buffers(st.sh) && st.srv == Assign(c)
    ensures Next(st, Takes(c)) == State(st.sh.(sock := c), st.threads, Loop)
  {
  }

  /** While it is active the server takes a new client that connects, and only the
      client before it is disconnected. */
  lemma ServerTakesClient(st: State, c: int) returns (k: nat)
    requires Buffers(st.sh) && st.srv == Loop && st.sh.active && c >= 0 && c !in Sockets(st.sh)
    requires st.sh.sock >= 0 ==> st.sh.sock in Sockets(st.sh)
    ensures k <= 6
    ensures var sh := Serves(st, c, k).sh;
            Serves(st, c, k) == State(sh, st.threads, Loop) && sh.active && sh.sock == c &&
            sh.accepted == st.sh.accepted + 1 && sh.sema == st.sh.sema && sh.hist == st.sh.hist &&
            sh.streams == (if st.sh.sock >= 0 then st.sh.streams - {st.sh.sock} else st.sh.streams)[c := Stream([], [])]
  {
    ServerAccepts(st, c);
    ServesOn(st, c, 0);
    ServesOn(st, c, 1);
    var st2 := Serves(st, c, 2);
    ServesOn(st, c, 2);
    ServesOn(st, c, 3);
    if st.sh.sock >= 0 {
      k := 6;
      ServerReplaces(st2, c);
      ServesOn(st, c, 4);
      ServerAssigns(Serves(st, c, 5), c);
      ServesOn(st, c, 5);
      assert st.sh.streams[c := Stream([], [])] - {st.sh.sock} == (st.sh.streams - {st.sh.sock})[c := Stream([], [])];
    } else {
      k := 4;
      ServerAssigns(Serves(st, c, 3), c);
    }
  }

  /** It becomes active when it starts, and an accept that fails is tried again. */
  lemma ServerTriesAgain(st: State, c: Choice)
    requires Buffers(st.sh) && (c.fail || c.sock < 0 || c.sock in Sockets(st.sh))
    ensures st.srv == Start ==> Next(st, Server(c)) == st.(sh := st.sh.(active := true), srv := Loop)
    ensures st.srv == Loop && st.sh.active ==> Next(st, Server(c)) == st.(srv := Accepting)
    ensures st.srv == Accepting ==> Next(st, Server(c)) == st.(srv := Loop)
  {
  }

  /** Once it is not active the server lets go of the current socket and ends. */
  lemma ServerEnds(st: State, c: int) returns (k: nat)
    requires Buffers(st.sh) && st.srv == Loop && !st.sh.active
    ensures k <= 3
    ensures var st' := Serves(st, c, k);
            st'.srv == Done && st'.threads == st.threads && st'.sh.sock == -1 &&
            st'.sh.streams == if st.sh.sock >= 0 then st.sh.streams - {st.sh.sock} else st.sh.streams
  {
    k := if st.sh.sock >= 0 then 3 else 2;
    ServesOn(st, c, 0);
    ServesOn(st, c, 1);
    ServesOn(st, c, 2);
  }
}
