/** iop/net_fsys.c around iop/net_fio.c: any number of threads whose operations
    are wrapped in one semaphore, and the server thread, which is not. Every
    statement that touches something shared is a step of its own; detaching the
    socket is one step. A step that cannot be taken leaves the state as it is. */
module FsysThreads {
  import opened Bytes
  import opened HostLink
  import opened Lwip
  import opened Replies

  /** The operations that send a request: an empty write sends none. */
  type Req = r: Request | r.Valid() && (r.Write? ==> r.data != []) witness Close(0)

  datatype Act = Ask(r: Req) | Destroy

  /** Where a client thread is. `s` is the socket argument of the current call,
      `k` the number of bytes already moved. */
  datatype Pc =
    | Idle
    | Waiting(act: Act)
    | Check(r: Req)
    | Build(r: Req, k: nat)
    | Send(r: Req, s: int, k: nat)
    | SendData(r: Req, s: int, k: nat)
    | Recv(r: Req, s: int, k: nat)
    | Decode(r: Req)
    | RecvData(r: Req, s: int, n: len32, k: nat)
    | Deactivate
    | Detach
    | Disconnect(s: int)
    | Finish(ret: i32)

  /** Where the server thread is; `c` is the socket it has accepted. */
  datatype Srv =
    | Start
    | Loop
    | Accepting
    | Test(c: int)
    | DetachOld(c: int)
    | DisconnectOld(c: int, s: int)
    | Assign(c: int)
    | ExitDetach
    | ExitDisconnect(s: int)
    | Done

  /** What one operation put on sockets and took from them. */
  datatype Record = Record(act: Act, sent: seq<byte>, got: seq<byte>)

  /** Everything the threads share. */
  datatype Shared = Shared(
    sock: int,            // pko_fileio_sock
    active: bool,         // pko_fileio_active
    sema: nat,            // fsys_sema
    sendBuf: seq<byte>,
    recvBuf: seq<byte>,
    streams: map<int, Stream>, // client sockets accepted and not disconnected, and their bytes
    accepted: nat,
    disconnected: nat,
    cur: Record,          // the operation that last took the semaphore
    hist: seq<(Record, i32)>)  // the operations that have released it

  datatype State = State(sh: Shared, threads: seq<Pc>, srv: Srv)

  /** What the environment decides in a step. */
  datatype Choice = Choice(act: Act, fail: bool, n: nat, bytes: seq<byte>, sock: int)

  datatype Label = Client(i: nat, c: Choice) | Server(c: Choice)

  function Init(n: nat): State {
    State(Shared(-1, false, 1, Zeros(PACKET_LIMIT), Zeros(PACKET_LIMIT), map[], 0, 0, Record(Destroy, [], []), []),
          seq(n, _ => Idle), Start)
  }

  predicate Buffers(sh: Shared) {
    |sh.sendBuf| == PACKET_LIMIT && |sh.recvBuf| == PACKET_LIMIT
  }

  function Sockets(sh: Shared): set<int> {
    sh.streams.Keys
  }

  /** Bytes of the operation inside went out on a socket, or came in. */
  function Sent(sh: Shared, s: int, bytes: seq<byte>): Shared {
    sh.(cur := sh.cur.(sent := sh.cur.sent + bytes), streams := AddSent(sh.streams, s, bytes))
  }

  function Got(sh: Shared, s: int, bytes: seq<byte>): Shared {
    sh.(cur := sh.cur.(got := sh.cur.got + bytes), streams := AddReceived(sh.streams, s, bytes))
  }

  function Disconnected(sh: Shared, s: int): Shared {
    sh.(streams := sh.streams - {s}, disconnected := sh.disconnected + 1)
  }

  /** One step of an operation whose thread holds the semaphore. */
  function Work(sh: Shared, pc: Pc, c: Choice): (Shared, Pc)
    requires Buffers(sh)
  {
    match pc
    case Check(r) => (sh, if sh.sock < 0 then Finish(-1) else Build(r, 0))
    case Build(r, k) =>
      if k < PacketSize(r) then (sh.(sendBuf := sh.sendBuf[k := Packet(r)[k]]), Build(r, k + 1))
      else (sh, Send(r, sh.sock, 0))
    case Send(r, s, k) =>
      if k >= PacketSize(r) then (sh, if r.Write? then SendData(r, sh.sock, 0) else Recv(r, sh.sock, 0))
      else if c.fail || s !in Sockets(sh) || c.n == 0 || k + c.n > PacketSize(r) then (sh, Detach)
      else (Sent(sh, s, sh.sendBuf[k..k + c.n]), Send(r, s, k + c.n))
    case SendData(r, s, k) =>
      if !r.Write? || k >= |r.data| then (sh, Recv(r, sh.sock, 0))
      else if c.fail || s !in Sockets(sh) || c.n == 0 || k + c.n > |r.data| then (sh, Detach)
      else (Sent(sh, s, r.data[k..k + c.n]), SendData(r, s, k + c.n))
    case Recv(r, s, k) =>
      var goal := if k < HEADER_SIZE then HEADER_SIZE else ReplySize(r);
      if k == HEADER_SIZE && !HeaderIs(sh.recvBuf[..HEADER_SIZE], ReplyCommand(r), ReplySize(r)) then (sh, Detach)
      else if k >= ReplySize(r) then (sh, Decode(r))
      else if c.fail || s !in Sockets(sh) || c.bytes == [] || k + |c.bytes| > goal then (sh, Detach)
      else (Got(sh, s, c.bytes).(recvBuf := Patch(sh.recvBuf, k, c.bytes)), Recv(r, s, k + |c.bytes|))
    case Decode(r) =>
      if r.Read? then
        var n := ReadCount(sh.recvBuf[..14]);
        (sh, if 0 <= n <= r.nbytes then RecvData(r, sh.sock, n, 0) else Detach)
      else
        var ret := RetVal(sh.recvBuf[..10]);
        (sh, if r.Write? && ret >= 0 && !(0 < ret <= |r.data|) then Detach else Finish(ret))
    case RecvData(r, s, n, k) =>
      if k >= n then (sh, Finish(n))
      else if c.fail || s !in Sockets(sh) || c.bytes == [] || k + |c.bytes| > n then (sh, Detach)
      else (Got(sh, s, c.bytes), RecvData(r, s, n, k + |c.bytes|))
    case Deactivate => (sh.(active := false), Detach)
    case Detach => (sh.(sock := -1), if sh.sock < 0 then Finish(-1) else Disconnect(sh.sock))
    case Disconnect(s) => (Disconnected(sh, s), Finish(-1))
    case _ => (sh, pc)
  }

  /** One step of a client thread: calls, the semaphore, or the work inside. */
  function ClientStep(sh: Shared, pc: Pc, c: Choice): (Shared, Pc)
    requires Buffers(sh)
  {
    match pc
    case Idle => (sh, Waiting(c.act))
    case Waiting(act) =>
      if sh.sema == 0 then (sh, pc) else
        (sh.(sema := sh.sema - 1, cur := Record(act, [], [])),
         match act case Ask(r) => Check(r) case Destroy => Deactivate)
    case Finish(ret) => (sh.(sema := 1, hist := sh.hist + [(sh.cur, ret)]), Idle)
    case _ => Work(sh, pc, c)
  }

  /** One step of pko_file_serv. */
  function ServerStep(sh: Shared, srv: Srv, c: Choice): (Shared, Srv) {
    match srv
    case Start => (sh.(active := true), Loop)
    case Loop => (sh, if sh.active then Accepting else ExitDetach)
    case Accepting =>
      if c.fail || c.sock < 0 || c.sock in Sockets(sh) then (sh, Loop)
      else (sh.(streams := sh.streams[c.sock := Stream([], [])], accepted := sh.accepted + 1), Test(c.sock))
    case Test(n) => (sh, if sh.sock >= 0 then DetachOld(n) else Assign(n))
    case DetachOld(n) => (sh.(sock := -1), if sh.sock < 0 then Assign(n) else DisconnectOld(n, sh.sock))
    case DisconnectOld(n, s) => (Disconnected(sh, s), Assign(n))
    case Assign(n) => (sh.(sock := n), Loop)
    case ExitDetach => (sh.(sock := -1), if sh.sock < 0 then Done else ExitDisconnect(sh.sock))
    case ExitDisconnect(s) => (Disconnected(sh, s), Done)
    case Done => (sh, srv)
  }

  lemma ClientKeepsBuffers(sh: Shared, pc: Pc, c: Choice)
    requires Buffers(sh)
    ensures Buffers(ClientStep(sh, pc, c).0)
  {
  }

  function Next(st: State, l: Label): (st': State)
    requires Buffers(st.sh)
    ensures Buffers(st'.sh) && |st'.threads| == |st.threads|
  {
    match l
    case Client(i, c) =>
      if i >= |st.threads| then st else
        ClientKeepsBuffers(st.sh, st.threads[i], c);
        var (sh, pc) := ClientStep(st.sh, st.threads[i], c);
        State(sh, st.threads[i := pc], st.srv)
    case Server(c) =>
      var (sh, srv) := ServerStep(st.sh, st.srv, c);
      State(sh, st.threads, srv)
  }

  /** The state after an interleaving. */
  function Exec(n: nat, ls: seq<Label>): (st: State)
    ensures Buffers(st.sh) && |st.threads| == n
  {
    if ls == [] then Init(n) else Next(Exec(n, ls[..|ls| - 1]), ls[|ls| - 1])
  }

  // ---- The semaphore -------------------------------------------------------

  predicate Holding(pc: Pc) {
    !pc.Idle? && !pc.Waiting?
  }

  /** At most one thread is inside, and none exactly while the semaphore is free. */
  predicate Exclusive(st: State) {
    st.sh.sema <= 1 &&
    (st.sh.sema == 1 <==> forall i :: 0 <= i < |st.threads| ==> !Holding(st.threads[i])) &&
    forall i, j :: 0 <= i < j < |st.threads| ==> !(Holding(st.threads[i]) && Holding(st.threads[j]))
  }

  /** How a step of a thread takes it past the semaphore, or does not. */
  predicate SemaMove(sh: Shared, pc: Pc, sh': Shared, pc': Pc) {
    if pc.Waiting? && Holding(pc') then
      sh.sema > 0 && sh'.sema == sh.sema - 1 && sh'.cur == Record(pc.act, [], []) && sh'.hist == sh.hist
    else if pc.Finish? then
      pc'.Idle? && sh'.sema == 1 && sh'.cur == sh.cur && sh'.hist == sh.hist + [(sh.cur, pc.ret)]
    else
      Holding(pc) == Holding(pc') && sh'.sema == sh.sema && sh'.hist == sh.hist &&
      (!Holding(pc) ==> sh' == sh)
  }

  lemma ClientSemaMove(sh: Shared, pc: Pc, c: Choice)
    requires Buffers(sh)
    ensures var (sh', pc') := ClientStep(sh, pc, c); SemaMove(sh, pc, sh', pc')
  {
  }

  lemma ExclusiveStep(st: State, l: Label)
    requires Buffers(st.sh) && Exclusive(st)
    ensures Exclusive(Next(st, l))
  {
    match l
    case Client(i, c) =>
      if i < |st.threads| {
        var (pc, st') := (st.threads[i], Next(st, l));
        ClientSemaMove(st.sh, pc, c);
        assert forall j :: 0 <= j < |st.threads| && j != i ==> st'.threads[j] == st.threads[j];
        if Holding(st'.threads[i]) == Holding(pc) {
          SameHolders(st.threads, st'.threads);
        }
      }
    case Server(c) =>
  }

  lemma SameHolders(a: seq<Pc>, b: seq<Pc>)
    requires |a| == |b| && forall j :: 0 <= j < |a| ==> Holding(a[j]) == Holding(b[j])
    ensures (forall j :: 0 <= j < |a| ==> !Holding(a[j])) <==> (forall j :: 0 <= j < |b| ==> !Holding(b[j]))
  {
  }

  // ---- The shared buffers ---------------------------------------------------

  /** As much of a reply as an operation takes before it gives up: nothing behind a
      header that is not the expected one, and no more data than were announced. */
  predicate Partial(r: Req, got: seq<byte>) {
    (|got| > HEADER_SIZE ==> HeaderIs(got[..HEADER_SIZE], ReplyCommand(r), ReplySize(r))) &&
    (|got| > ReplySize(r) ==>
       r.Read? && ReadCount(got[..14]) <= r.nbytes && |got| <= 14 + ReadCount(got[..14]))
  }

  predicate Answered(rec: Record, r: Req, ret: i32) {
    rec.sent == RequestBytes(r) && IsReply(r, ret, rec.got)
  }

  /** It failed inside its request, or inside its reply. */
  predicate Failed(rec: Record, r: Req) {
    if rec.got == [] then rec.sent <= RequestBytes(r) else rec.sent == RequestBytes(r) && Partial(r, rec.got)
  }

  /** What an operation run by itself may put on the stream, take from it and
      return: it fails on the way, or it sends the whole request and takes exactly
      one whole reply. */
  predicate Outcome(rec: Record, ret: i32) {
    match rec.act
    case Destroy => rec.sent == [] && rec.got == []
    case Ask(r) => (ret == -1 && Failed(rec, r)) || Answered(rec, r, ret)
  }

  /** The reply in recv_packet is the one this operation has received. */
  predicate InReply(sh: Shared, r: Req, k: nat)
    requires Buffers(sh)
  {
    sh.cur.act == Ask(r) && sh.cur.sent == RequestBytes(r) &&
    k <= ReplySize(r) && sh.cur.got == sh.recvBuf[..k] && Partial(r, sh.cur.got) &&
    (k > HEADER_SIZE ==> HeaderIs(sh.recvBuf[..HEADER_SIZE], ReplyCommand(r), ReplySize(r)))
  }

  /** How far the operation inside has come, read off the shared buffers and off
      what went over sockets. */
  predicate Progress(sh: Shared, pc: Pc)
    requires Buffers(sh)
  {
    match pc
    case Idle => true
    case Waiting(_) => true
    case Check(r) => sh.cur.act == Ask(r) && sh.cur.sent == [] && sh.cur.got == []
    case Build(r, k) =>
      sh.cur.act == Ask(r) && sh.cur.sent == [] && sh.cur.got == [] &&
      k <= PacketSize(r) && sh.sendBuf[..k] == Packet(r)[..k]
    case Send(r, s, k) =>
      sh.cur.act == Ask(r) && sh.cur.got == [] && k <= PacketSize(r) &&
      sh.sendBuf[..PacketSize(r)] == Packet(r) && sh.cur.sent == Packet(r)[..k]
    case SendData(r, s, k) =>
      sh.cur.act == Ask(r) && sh.cur.got == [] && r.Write? && k <= |r.data| &&
      sh.cur.sent == Packet(r) + r.data[..k]
    case Recv(r, s, k) => InReply(sh, r, k)
    case Decode(r) => InReply(sh, r, ReplySize(r))
    case RecvData(r, s, n, k) =>
      sh.cur.act == Ask(r) && sh.cur.sent == RequestBytes(r) && r.Read? && k <= n <= r.nbytes &&
      |sh.cur.got| == 14 + k && Partial(r, sh.cur.got) && ReadCount(sh.cur.got[..14]) == n
    case Finish(ret) => Outcome(sh.cur, ret)
    case _ => Outcome(sh.cur, -1)
  }

  lemma BuildProgress(sh: Shared, pc: Pc, c: Choice)
    requires Buffers(sh) && pc.Build? && Progress(sh, pc)
    ensures var (sh', pc') := Work(sh, pc, c); Buffers(sh') && Progress(sh', pc')
  {
    var (r, k) := (pc.r, pc.k);
    if k < PacketSize(r) {
      assert sh.sendBuf[k := Packet(r)[k]][..k + 1] == sh.sendBuf[..k] + [Packet(r)[k]];
      assert Packet(r)[..k + 1] == Packet(r)[..k] + [Packet(r)[k]];
    } else {
      assert Packet(r)[..k] == Packet(r);
    }
  }

  /** An operation may give up wherever it sends or receives. */
  lemma GivesUp(sh: Shared, pc: Pc)
    requires Buffers(sh) && Progress(sh, pc) && (pc.Send? || pc.SendData? || pc.Recv? || pc.RecvData?)
    ensures Outcome(sh.cur, -1) && Progress(sh, Detach)
  {
    if pc.Send? {
      TakeIsPrefix(Packet(pc.r), pc.k, DataOf(pc.r));
    } else if pc.SendData? {
      DataPrefix(Packet(pc.r), pc.r.data, pc.k);
    }
  }

  lemma DataPrefix(p: seq<byte>, d: seq<byte>, k: nat)
    requires k <= |d|
    ensures p + d[..k] <= p + d && d[..|d|] == d
  {
  }

  lemma SendMoves(sh: Shared, r: Req, s: int, k: nat, n: nat)
    requires Buffers(sh) && Progress(sh, Send(r, s, k)) && k + n <= PacketSize(r)
    ensures Progress(Sent(sh, s, sh.sendBuf[k..k + n]), Send(r, s, k + n))
  {
    TakeMore(Packet(r), k, n);
    SubSlice(sh.sendBuf, 0, PacketSize(r), k, k + n);
  }

  lemma SendEnds(sh: Shared, r: Req, s: int, k: nat, t: int)
    requires Buffers(sh) && Progress(sh, Send(r, s, k)) && k >= PacketSize(r)
    ensures Progress(sh, if r.Write? then SendData(r, t, 0) else Recv(r, t, 0))
  {
    TakeIsPrefix(Packet(r), k, DataOf(r));
  }

  lemma SendProgress(sh: Shared, pc: Pc, c: Choice)
    requires Buffers(sh) && pc.Send? && Progress(sh, pc)
    ensures var (sh', pc') := Work(sh, pc, c); Buffers(sh') && Progress(sh', pc')
  {
    GivesUp(sh, pc);
    if pc.k >= PacketSize(pc.r) {
      SendEnds(sh, pc.r, pc.s, pc.k, sh.sock);
    } else if pc.k + c.n <= PacketSize(pc.r) {
      SendMoves(sh, pc.r, pc.s, pc.k, c.n);
    }
  }

  lemma SendDataMoves(sh: Shared, r: Req, s: int, k: nat, n: nat)
    requires Buffers(sh) && Progress(sh, SendData(r, s, k)) && k + n <= |r.data|
    ensures Progress(Sent(sh, s, r.data[k..k + n]), SendData(r, s, k + n))
  {
    TakeMore(r.data, k, n);
    Associative(Packet(r), r.data[..k], r.data[k..k + n]);
  }

  lemma SendDataProgress(sh: Shared, pc: Pc, c: Choice)
    requires Buffers(sh) && pc.SendData? && Progress(sh, pc)
    ensures var (sh', pc') := Work(sh, pc, c); Buffers(sh') && Progress(sh', pc')
  {
    GivesUp(sh, pc);
    if pc.k >= |pc.r.data| {
      DataPrefix(Packet(pc.r), pc.r.data, pc.k);
    } else if pc.k + c.n <= |pc.r.data| {
      SendDataMoves(sh, pc.r, pc.s, pc.k, c.n);
    }
  }

  lemma PatchExtends(buf: seq<byte>, k: nat, bytes: seq<byte>)
    requires k + |bytes| <= |buf| && HEADER_SIZE <= |buf|
    ensures var b := Patch(buf, k, bytes);
            b[..k + |bytes|] == buf[..k] + bytes && (k >= HEADER_SIZE ==> b[..HEADER_SIZE] == buf[..HEADER_SIZE])
  {
    if k >= HEADER_SIZE {
      assert Patch(buf, k, bytes)[..HEADER_SIZE] == buf[..k][..HEADER_SIZE] == buf[..HEADER_SIZE];
    }
  }

  /** More of a reply is received behind what there is. */
  lemma ReplyGrows(sh: Shared, r: Req, s: int, k: nat, bytes: seq<byte>)
    requires Buffers(sh) && InReply(sh, r, k) && bytes != []
    requires k + |bytes| <= if k < HEADER_SIZE then HEADER_SIZE else ReplySize(r)
    requires k == HEADER_SIZE ==> HeaderIs(sh.recvBuf[..HEADER_SIZE], ReplyCommand(r), ReplySize(r))
    ensures var sh' := Got(sh, s, bytes).(recvBuf := Patch(sh.recvBuf, k, bytes));
            Buffers(sh') && InReply(sh', r, k + |bytes|) && Progress(sh', Recv(r, s, k + |bytes|))
  {
    var b := Patch(sh.recvBuf, k, bytes);
    PatchExtends(sh.recvBuf, k, bytes);
    if k + |bytes| > HEADER_SIZE {
      SubSlice(b, 0, k + |bytes|, 0, HEADER_SIZE);
      assert b[..k + |bytes|][..HEADER_SIZE] == b[..HEADER_SIZE] == sh.recvBuf[..HEADER_SIZE];
    }
  }

  lemma RecvProgress(sh: Shared, pc: Pc, c: Choice)
    requires Buffers(sh) && pc.Recv? && Progress(sh, pc)
    ensures var (sh', pc') := Work(sh, pc, c); Buffers(sh') && Progress(sh', pc')
  {
    GivesUp(sh, pc);
    var (k, r) := (pc.k, pc.r);
    var goal := if k < HEADER_SIZE then HEADER_SIZE else ReplySize(r);
    if c.bytes != [] && k + |c.bytes| <= goal {
      if k != HEADER_SIZE || HeaderIs(sh.recvBuf[..HEADER_SIZE], ReplyCommand(r), ReplySize(r)) {
        ReplyGrows(sh, r, pc.s, k, c.bytes);
      }
    }
  }

  /** A header is judged by its own bytes. */
  lemma HeaderOfReply(s: seq<byte>, cmd: u32, size: nat)
    requires |s| >= HEADER_SIZE && HeaderIs(s[..HEADER_SIZE], cmd, size)
    ensures HeaderIs(s, cmd, size)
  {
    assert s[..HEADER_SIZE][..4] == s[..4] && s[..HEADER_SIZE][4..6] == s[4..6];
  }

  /** A whole reply header is the one that was received. */
  lemma WholeReply(sh: Shared, r: Req)
    requires Buffers(sh) && InReply(sh, r, ReplySize(r))
    ensures var got := sh.cur.got;
            |got| == ReplySize(r) && HeaderIs(got, ReplyCommand(r), ReplySize(r)) &&
            (r.Read? ==> got[..14] == sh.recvBuf[..14]) && RetVal(got) == RetVal(sh.recvBuf[..10])
  {
    SubSlice(sh.recvBuf, 0, ReplySize(r), 0, HEADER_SIZE);
    HeaderOfReply(sh.cur.got, ReplyCommand(r), ReplySize(r));
    SubSlice(sh.recvBuf, 0, ReplySize(r), 6, 10);
    SubSlice(sh.recvBuf, 0, 10, 6, 10);
    if r.Read? {
      SubSlice(sh.recvBuf, 0, 14, 0, 14);
    }
  }

  lemma DecodeProgress(sh: Shared, pc: Pc, c: Choice)
    requires Buffers(sh) && pc.Decode? && Progress(sh, pc)
    ensures var (sh', pc') := Work(sh, pc, c);
            Buffers(sh') && Progress(sh', pc') && (pc'.Finish? ==> Answered(sh'.cur, pc.r, pc'.ret))
  {
    WholeReply(sh, pc.r);
  }

  /** More of the data of a read reply behind what there is. */
  lemma DataGrows(got: seq<byte>, bytes: seq<byte>)
    requires |got| >= 14
    ensures (got + bytes)[..HEADER_SIZE] == got[..HEADER_SIZE] && (got + bytes)[..14] == got[..14]
    ensures got[..14][10..14] == got[10..14]
  {
  }

  lemma DataMoves(sh: Shared, r: Req, s: int, n: len32, k: nat, bytes: seq<byte>)
    requires Buffers(sh) && Progress(sh, RecvData(r, s, n, k)) && k + |bytes| <= n
    ensures Progress(Got(sh, s, bytes), RecvData(r, s, n, k + |bytes|))
  {
    DataGrows(sh.cur.got, bytes);
  }

  lemma DataEnds(sh: Shared, r: Req, s: int, n: len32, k: nat)
    requires Buffers(sh) && Progress(sh, RecvData(r, s, n, k)) && k >= n
    ensures Answered(sh.cur, r, n)
  {
    DataGrows(sh.cur.got, []);
    HeaderOfReply(sh.cur.got, ReplyCommand(r), 14);
  }

  lemma RecvDataProgress(sh: Shared, pc: Pc, c: Choice)
    requires Buffers(sh) && pc.RecvData? && Progress(sh, pc)
    ensures var (sh', pc') := Work(sh, pc, c);
            Buffers(sh') && Progress(sh', pc') && (pc'.Finish? ==> Answered(sh'.cur, pc.r, pc'.ret))
  {
    GivesUp(sh, pc);
    if pc.k >= pc.n {
      DataEnds(sh, pc.r, pc.s, pc.n, pc.k);
    } else if pc.k + |c.bytes| <= pc.n {
      DataMoves(sh, pc.r, pc.s, pc.n, pc.k, c.bytes);
    }
  }

  lemma WorkProgress(sh: Shared, pc: Pc, c: Choice)
    requires Buffers(sh) && Holding(pc) && Progress(sh, pc)
    ensures var (sh', pc') := Work(sh, pc, c); Buffers(sh') && Progress(sh', pc')
  {
    if pc.Build? { BuildProgress(sh, pc, c); }
    else if pc.Send? { SendProgress(sh, pc, c); }
    else if pc.SendData? { SendDataProgress(sh, pc, c); }
    else if pc.Recv? { RecvProgress(sh, pc, c); }
    else if pc.Decode? { DecodeProgress(sh, pc, c); }
    else if pc.RecvData? { RecvDataProgress(sh, pc, c); }
  }

  /** Every finished operation went as if run by itself; so does the one inside. */
  predicate Serial(st: State)
    requires Buffers(st.sh)
  {
    (forall i :: 0 <= i < |st.threads| && Holding(st.threads[i]) ==> Progress(st.sh, st.threads[i])) &&
    forall j :: 0 <= j < |st.sh.hist| ==> Outcome(st.sh.hist[j].0, st.sh.hist[j].1)
  }

  lemma ClientProgress(sh: Shared, pc: Pc, c: Choice)
    requires Buffers(sh) && (Holding(pc) ==> Progress(sh, pc))
    ensures var (sh', pc') := ClientStep(sh, pc, c); Buffers(sh') && (Holding(pc') ==> Progress(sh', pc'))
    ensures var (sh', _) := ClientStep(sh, pc, c);
            sh'.hist == sh.hist || (exists rec, ret :: sh'.hist == sh.hist + [(rec, ret)] && Outcome(rec, ret))
  {
    if Holding(pc) && !pc.Finish? {
      WorkProgress(sh, pc, c);
      ClientSemaMove(sh, pc, c);
    }
  }

  lemma SerialStep(st: State, l: Label)
    requires Buffers(st.sh) && Exclusive(st) && Serial(st)
    ensures Serial(Next(st, l))
  {
    match l
    case Client(i, c) =>
      if i < |st.threads| {
        ClientSemaMove(st.sh, st.threads[i], c);
        ClientProgress(st.sh, st.threads[i], c);
      }
    case Server(c) =>
      ServerLeavesOperations(st.sh, st.srv, c);
  }

  lemma ProgressDepends(sh: Shared, sh': Shared, pc: Pc)
    requires Buffers(sh) && Buffers(sh') && sh'.sendBuf == sh.sendBuf && sh'.recvBuf == sh.recvBuf && sh'.cur == sh.cur
    ensures Progress(sh, pc) == Progress(sh', pc)
  {
  }

  /** The server touches neither the semaphore nor the buffers nor what is on
      record, so progress made by a client stands. */
  lemma ServerLeavesOperations(sh: Shared, srv: Srv, c: Choice)
    requires Buffers(sh)
    ensures var sh' := ServerStep(sh, srv, c).0;
            Buffers(sh') && sh'.sema == sh.sema && sh'.hist == sh.hist &&
            forall pc: Pc :: Progress(sh, pc) ==> Progress(sh', pc)
  {
    var sh' := ServerStep(sh, srv, c).0;
    forall pc: Pc | Progress(sh, pc) ensures Progress(sh', pc) {
      ProgressDepends(sh, sh', pc);
    }
  }

  // ---- The sockets ---------------------------------------------------------

  /** Everywhere a client socket can be between accept and disconnect. */
  datatype Place = Current | ServerNew | ServerOld | Detached(i: nat)

  /** The socket at a place, or -1. */
  function Held(st: State, p: Place): int {
    match p
    case Current => st.sh.sock
    case ServerNew =>
      (match st.srv
       case Test(c) => c
       case DetachOld(c) => c
       case DisconnectOld(c, _) => c
       case Assign(c) => c
       case _ => -1)
    case ServerOld =>
      (match st.srv
       case DisconnectOld(_, s) => s
       case ExitDisconnect(s) => s
       case _ => -1)
    case Detached(i) => if i < |st.threads| && st.threads[i].Disconnect? then st.threads[i].s else -1
  }

  /** The open client sockets are those held, each held at one place. */
  ghost predicate Partition(held: Place -> int, open: set<int>) {
    (forall p :: held(p) == -1 || (held(p) >= 0 && held(p) in open)) &&
    (forall p, q :: held(p) == held(q) && held(p) >= 0 ==> p == q) &&
    (forall d :: d in open ==> d >= 0 && exists p :: held(p) == d)
  }

  /** A close under way has a socket to close; and the current socket is gone by
      the time it is assigned over or the server is past its loop. */
  predicate Tidy(st: State) {
    st.sh.sock >= -1 &&
    (forall i :: 0 <= i < |st.threads| && st.threads[i].Disconnect? ==> st.threads[i].s >= 0) &&
    (st.srv.DisconnectOld? || st.srv.ExitDisconnect? ==> st.srv.s >= 0) &&
    (st.srv.Test? || st.srv.DetachOld? || st.srv.DisconnectOld? || st.srv.Assign? ==> st.srv.c >= 0) &&
    (st.srv.Assign? || st.srv.DisconnectOld? || st.srv.ExitDisconnect? || st.srv.Done? ==> st.sh.sock == -1)
  }

  ghost predicate Owned(st: State) {
    Tidy(st) && Partition(p => Held(st, p), Sockets(st.sh)) &&
    st.sh.accepted == st.sh.disconnected + |Sockets(st.sh)|
  }

  lemma Moved(h: Place -> int, h': Place -> int, open: set<int>, from: Place, to: Place)
    requires Partition(h, open) && h(to) == -1 && from != to
    requires h'(to) == h(from) && h'(from) == -1
    requires forall p :: p != from && p != to ==> h'(p) == h(p)
    ensures Partition(h', open)
  {
    forall d | d in open ensures d >= 0 && exists p :: h'(p) == d {
      var p :| h(p) == d;
      assert h'(if p == from then to else p) == d;
    }
  }

  lemma Removed(h: Place -> int, h': Place -> int, open: set<int>, from: Place)
    requires Partition(h, open) && h(from) >= 0 && h'(from) == -1
    requires forall p :: p != from ==> h'(p) == h(p)
    ensures h(from) in open && Partition(h', open - {h(from)})
  {
    forall d | d in open - {h(from)} ensures d >= 0 && exists p :: h'(p) == d {
      var p :| h(p) == d;
      assert h'(p) == d;
    }
  }

  lemma Added(h: Place -> int, h': Place -> int, open: set<int>, to: Place, c: int)
    requires Partition(h, open) && h(to) == -1 && h'(to) == c && c >= 0 && c !in open
    requires forall p :: p != to ==> h'(p) == h(p)
    ensures Partition(h', open + {c})
  {
    forall d | d in open + {c} ensures d >= 0 && exists p :: h'(p) == d {
      if d == c {
        assert h'(to) == d;
      } else {
        var p :| h(p) == d;
        assert h'(p) == d;
      }
    }
  }

  lemma Unmoved(h: Place -> int, h': Place -> int, open: set<int>)
    requires Partition(h, open) && forall p :: h'(p) == h(p)
    ensures Partition(h', open)
  {
    forall d | d in open ensures d >= 0 && exists p :: h'(p) == d {
      var p :| h(p) == d;
      assert h'(p) == d;
    }
  }

  /** What a client step does with sockets: nothing, or it takes the current one
      out, or it disconnects the one it took. */
  predicate SockMove(sh: Shared, pc: Pc, sh': Shared, pc': Pc) {
    sh'.accepted == sh.accepted &&
    if pc.Detach? then
      sh'.sock == -1 && Sockets(sh') == Sockets(sh) && sh'.disconnected == sh.disconnected &&
      pc' == if sh.sock < 0 then Finish(-1) else Disconnect(sh.sock)
    else if pc.Disconnect? then
      sh'.sock == sh.sock && Sockets(sh') == Sockets(sh) - {pc.s} && sh'.disconnected == sh.disconnected + 1 &&
      !pc'.Disconnect?
    else
      sh'.sock == sh.sock && Sockets(sh') == Sockets(sh) && sh'.disconnected == sh.disconnected && !pc'.Disconnect?
  }

  lemma ClientSockMove(sh: Shared, pc: Pc, c: Choice)
    requires Buffers(sh)
    ensures var (sh', pc') := ClientStep(sh, pc, c); SockMove(sh, pc, sh', pc')
  {
  }

  lemma ClientDetachOwned(st: State, i: nat, c: Choice)
    requires Buffers(st.sh) && Owned(st) && i < |st.threads| && st.threads[i].Detach?
    ensures Owned(Next(st, Client(i, c)))
  {
    var st' := Next(st, Client(i, c));
    var (h, h') := (p => Held(st, p), p => Held(st', p));
    if st.sh.sock >= 0 {
      Moved(h, h', Sockets(st.sh), Current, Detached(i));
    } else {
      Unmoved(h, h', Sockets(st.sh));
    }
  }

  lemma ClientDisconnectOwned(st: State, i: nat, c: Choice)
    requires Buffers(st.sh) && Owned(st) && i < |st.threads| && st.threads[i].Disconnect?
    ensures Owned(Next(st, Client(i, c)))
  {
    var st' := Next(st, Client(i, c));
    ClientSockMove(st.sh, st.threads[i], c);
    Removed(p => Held(st, p), p => Held(st', p), Sockets(st.sh), Detached(i));
  }

  lemma ClientOwned(st: State, i: nat, c: Choice)
    requires Buffers(st.sh) && Owned(st) && i < |st.threads|
    ensures Owned(Next(st, Client(i, c)))
  {
    if st.threads[i].Detach? {
      ClientDetachOwned(st, i, c);
    } else if st.threads[i].Disconnect? {
      ClientDisconnectOwned(st, i, c);
    } else {
      ClientSockMove(st.sh, st.threads[i], c);
      SockStays(st, Next(st, Client(i, c)));
    }
  }

  /** A step that moves no socket. */
  lemma SockStays(st: State, st': State)
    requires Owned(st) && Tidy(st') && Sockets(st'.sh) == Sockets(st.sh)
    requires st'.sh.accepted == st.sh.accepted && st'.sh.disconnected == st.sh.disconnected
    requires forall p :: Held(st', p) == Held(st, p)
    ensures Owned(st')
  {
    Unmoved(p => Held(st, p), p => Held(st', p), Sockets(st.sh));
  }

  lemma ServerDetachOwned(st: State, c: Choice)
    requires Buffers(st.sh) && Owned(st) && (st.srv.DetachOld? || st.srv.ExitDetach?)
    ensures Owned(Next(st, Server(c)))
  {
    var st' := Next(st, Server(c));
    var (h, h') := (p => Held(st, p), p => Held(st', p));
    if st.sh.sock >= 0 {
      Moved(h, h', Sockets(st.sh), Current, ServerOld);
    } else {
      Unmoved(h, h', Sockets(st.sh));
    }
  }

  lemma ServerDisconnectOwned(st: State, c: Choice)
    requires Buffers(st.sh) && Owned(st) && (st.srv.DisconnectOld? || st.srv.ExitDisconnect?)
    ensures Owned(Next(st, Server(c)))
  {
    var st' := Next(st, Server(c));
    Removed(p => Held(st, p), p => Held(st', p), Sockets(st.sh), ServerOld);
    assert Sockets(st'.sh) == Sockets(st.sh) - {st.srv.s};
  }

  lemma ServerAcceptOwned(st: State, c: Choice)
    requires Buffers(st.sh) && Owned(st) && st.srv.Accepting? && Next(st, Server(c)).srv.Test?
    ensures Owned(Next(st, Server(c)))
  {
    var st' := Next(st, Server(c));
    Added(p => Held(st, p), p => Held(st', p), Sockets(st.sh), ServerNew, c.sock);
    assert Sockets(st'.sh) == Sockets(st.sh) + {c.sock};
  }

  lemma ServerAssignOwned(st: State, c: Choice)
    requires Buffers(st.sh) && Owned(st) && st.srv.Assign?
    ensures Owned(Next(st, Server(c)))
  {
    var st' := Next(st, Server(c));
    Moved(p => Held(st, p), p => Held(st', p), Sockets(st.sh), ServerNew, Current);
  }

  lemma ServerOwned(st: State, c: Choice)
    requires Buffers(st.sh) && Owned(st)
    ensures Owned(Next(st, Server(c)))
  {
    if st.srv.DetachOld? || st.srv.ExitDetach? {
      ServerDetachOwned(st, c);
    } else if st.srv.DisconnectOld? || st.srv.ExitDisconnect? {
      ServerDisconnectOwned(st, c);
    } else if st.srv.Accepting? && Next(st, Server(c)).srv.Test? {
      ServerAcceptOwned(st, c);
    } else if st.srv.Assign? {
      ServerAssignOwned(st, c);
    } else {
      SockStays(st, Next(st, Server(c)));
    }
  }

  // ---- Whole runs -----------------------------------------------------------

  ghost predicate Inv(st: State) {
    Buffers(st.sh) && Exclusive(st) && Serial(st) && Owned(st)
  }

  lemma InvInit(n: nat)
    ensures Inv(Init(n))
  {
    var held := p => Held(Init(n), p);
    assert forall p :: held(p) == -1;
  }

  lemma InvStep(st: State, l: Label)
    requires Inv(st)
    ensures Inv(Next(st, l))
  {
    ExclusiveStep(st, l);
    SerialStep(st, l);
    match l
    case Client(i, c) => if i < |st.threads| { ClientOwned(st, i, c); }
    case Server(c) => ServerOwned(st, c);
  }

  /** In every interleaving of any number of threads: one operation at a time is
      inside, every operation's traffic is its own, and every socket is owned. */
  lemma {:induction false} EveryInterleaving(n: nat, ls: seq<Label>)
    ensures Inv(Exec(n, ls))
  {
    if ls == [] {
      InvInit(n);
    } else {
      EveryInterleaving(n, ls[..|ls| - 1]);
      InvStep(Exec(n, ls[..|ls| - 1]), ls[|ls| - 1]);
    }
  }

  /** What an operation among many did is what it may do alone on a connection. */
  lemma FinishedAsIfAlone(n: nat, ls: seq<Label>, j: nat, r: Req, l: Link)
    requires j < |Exec(n, ls).sh.hist| && Exec(n, ls).sh.hist[j].0.act == Ask(r) && l.Up?
    ensures var (rec, ret) := Exec(n, ls).sh.hist[j];
            Asked(l, r, ret, Up(l.sock, l.sent + rec.sent, l.received + rec.got)) ||
            (Asked(l, r, ret, Down) && Failed(rec, r))
  {
    EveryInterleaving(n, ls);
    var (rec, ret) := Exec(n, ls).sh.hist[j];
    assert Outcome(rec, ret);
    assert (l.received + rec.got)[|l.received|..] == rec.got;
  }

  /** Line 747 never drops a socket, and a socket is disconnected only while it
      is open, by the one that holds it. */
  lemma NoSocketLost(n: nat, ls: seq<Label>)
    ensures var st := Exec(n, ls);
            (st.srv.Assign? ==> st.sh.sock == -1) &&
            (st.srv.DisconnectOld? ==> st.srv.s in Sockets(st.sh)) &&
            (st.srv.ExitDisconnect? ==> st.srv.s in Sockets(st.sh)) &&
            forall i :: 0 <= i < n && st.threads[i].Disconnect? ==> st.threads[i].s in Sockets(st.sh)
  {
    EveryInterleaving(n, ls);
    var st := Exec(n, ls);
    var held := p => Held(st, p);
    assert held(ServerOld) == -1 || held(ServerOld) in Sockets(st.sh);
    forall i | 0 <= i < n && st.threads[i].Disconnect? ensures st.threads[i].s in Sockets(st.sh) {
      assert held(Detached(i)) == -1 || held(Detached(i)) in Sockets(st.sh);
    }
  }

  /** Once the server has ended and no close is under way, every socket that was
      ever accepted has been disconnected. */
  lemma AllClosedAtEnd(n: nat, ls: seq<Label>)
    requires Exec(n, ls).srv.Done?
    requires forall i :: 0 <= i < n ==> !Exec(n, ls).threads[i].Disconnect?
    ensures Sockets(Exec(n, ls).sh) == {} && Exec(n, ls).sh.accepted == Exec(n, ls).sh.disconnected
  {
    EveryInterleaving(n, ls);
    var st := Exec(n, ls);
    var held := p => Held(st, p);
    assert forall p :: held(p) == -1;
    assert forall d :: d in Sockets(st.sh) ==> d >= 0 && exists p :: held(p) == d;
  }
}
