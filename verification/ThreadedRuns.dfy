/** The threads of FsysThreads as runs of the sequential client: when the server
    moves the current socket only while no operation is inside, every interleaving
    is one of the runs of Runs, and so its streams stand at packet boundaries. */
module ThreadedRuns {
  import opened Bytes
  import opened HostLink
  import opened Lwip
  import opened Replies
  import opened Runs
  import opened FsysThreads
  import opened Wrappers

  /** The current connection, with every byte that passed over it. */
  function Now(sh: Shared): Link {
    if sh.sock < 0 || sh.sock !in sh.streams then Down
    else Up(sh.sock, sh.streams[sh.sock].sent, sh.streams[sh.sock].received)
  }

  /** The server assigns to the current socket in these states. */
  predicate MovesSocket(srv: Srv) {
    srv.DetachOld? || srv.Assign? || srv.ExitDetach?
  }

  /** What a step is to the sequential client: an operation is over when it gives
      the semaphore back. */
  function Observed(st: State, l: Label): Option<Event> {
    match l
    case Client(i, _) =>
      if i < |st.threads| && st.threads[i].Finish? then
        Some(match st.sh.cur.act case Ask(r) => Call(r, st.threads[i].ret) case Destroy => Shut)
      else None
    case Server(_) =>
      if !MovesSocket(st.srv) then None
      else Some(if st.srv.Assign? then Event.Accept(st.srv.c) else Shut)
  }

  /** The run an interleaving goes through. */
  function Trace(n: nat, ls: seq<Label>): Runs.Run {
    if ls == [] then Runs.Run([Down], []) else
      var (init, l) := (ls[..|ls| - 1], ls[|ls| - 1]);
      var (st, t) := (Exec(n, init), Trace(n, init));
      match Observed(st, l)
      case None => t
      case Some(e) => Runs.Run(t.links + [Now(Next(st, l).sh)], t.events + [e])
  }

  predicate QuietStep(st: State, l: Label) {
    l.Server? && MovesSocket(st.srv) ==> st.sh.sema == 1
  }

  /** The server moved the socket only while the semaphore was free. */
  predicate Quiet(n: nat, ls: seq<Label>) {
    ls == [] || (Quiet(n, ls[..|ls| - 1]) && QuietStep(Exec(n, ls[..|ls| - 1]), ls[|ls| - 1]))
  }

  /** The link an operation found, with what it has sent and received since. */
  predicate Moving(sh: Shared, l: Link) {
    l.Up? && sh.sock == l.sock >= 0 && sh.sock in sh.streams &&
    sh.streams[sh.sock] == Stream(l.sent + sh.cur.sent, l.received + sh.cur.got)
  }

  /** Where an operation that found the link `l` stands. */
  predicate Mid(sh: Shared, pc: Pc, l: Link) {
    match pc
    case Check(_) => Now(sh) == l && (sh.sock >= 0 ==> Moving(sh, l))
    case Build(_, _) => Moving(sh, l)
    case Send(_, s, _) => Moving(sh, l) && s == sh.sock
    case SendData(_, s, _) => Moving(sh, l) && s == sh.sock
    case Recv(_, s, _) => Moving(sh, l) && s == sh.sock
    case Decode(_) => Moving(sh, l)
    case RecvData(_, s, _, _) => Moving(sh, l) && s == sh.sock
    case Disconnect(_) => sh.sock == -1
    case Finish(ret) =>
      if sh.sock < 0 then ret == -1
      else Moving(sh, l) && sh.cur.act.Ask? && Answered(sh.cur, sh.cur.act.r, ret)
    case _ => true
  }

  /** A new connection that is not yet current has not been used. */
  predicate Unused(st: State) {
    var c := Held(st, ServerNew);
    c >= 0 ==> c in st.sh.streams && st.sh.streams[c] == Stream([], [])
  }

  /** The last link of the run is where the client is, or where the operation
      inside found it. */
  predicate Matches(st: State, l: Link) {
    Unused(st) && (st.sh.sema == 1 ==> Now(st.sh) == l) &&
    forall i :: 0 <= i < |st.threads| && Holding(st.threads[i]) ==> Mid(st.sh, st.threads[i], l)
  }

  lemma SendsMove(sh: Shared, l: Link, bytes: seq<byte>)
    requires Moving(sh, l)
    ensures Moving(Sent(sh, sh.sock, bytes), l)
  {
    Associative(l.sent, sh.cur.sent, bytes);
  }

  lemma ReceivesMove(sh: Shared, l: Link, bytes: seq<byte>)
    requires Moving(sh, l)
    ensures Moving(Got(sh, sh.sock, bytes), l)
  {
    Associative(l.received, sh.cur.got, bytes);
  }

  lemma SendMid(sh: Shared, pc: Pc, c: Choice, l: Link)
    requires Buffers(sh) && pc.Send? && Progress(sh, pc) && Mid(sh, pc, l)
    ensures var (sh', pc') := Work(sh, pc, c); Mid(sh', pc', l)
  {
    if pc.k + c.n <= PacketSize(pc.r) {
      SendsMove(sh, l, sh.sendBuf[pc.k..pc.k + c.n]);
    }
  }

  lemma SendDataMid(sh: Shared, pc: Pc, c: Choice, l: Link)
    requires Buffers(sh) && pc.SendData? && Progress(sh, pc) && Mid(sh, pc, l)
    ensures var (sh', pc') := Work(sh, pc, c); Mid(sh', pc', l)
  {
    if pc.k + c.n <= |pc.r.data| {
      SendsMove(sh, l, pc.r.data[pc.k..pc.k + c.n]);
    }
  }

  lemma RecvMid(sh: Shared, pc: Pc, c: Choice, l: Link)
    requires Buffers(sh) && pc.Recv? && Progress(sh, pc) && Mid(sh, pc, l)
    ensures var (sh', pc') := Work(sh, pc, c); Mid(sh', pc', l)
  {
    ReceivesMove(sh, l, c.bytes);
  }

  lemma DecodeMid(sh: Shared, pc: Pc, c: Choice, l: Link)
    requires Buffers(sh) && pc.Decode? && Progress(sh, pc) && Mid(sh, pc, l)
    ensures var (sh', pc') := Work(sh, pc, c); Mid(sh', pc', l)
  {
    DecodeProgress(sh, pc, c);
  }

  lemma RecvDataMid(sh: Shared, pc: Pc, c: Choice, l: Link)
    requires Buffers(sh) && pc.RecvData? && Progress(sh, pc) && Mid(sh, pc, l)
    ensures var (sh', pc') := Work(sh, pc, c); Mid(sh', pc', l)
  {
    ReceivesMove(sh, l, c.bytes);
    RecvDataProgress(sh, pc, c);
  }

  /** A step inside an operation. */
  lemma WorkMid(sh: Shared, pc: Pc, c: Choice, l: Link)
    requires Buffers(sh) && Holding(pc) && !pc.Finish? && Progress(sh, pc) && Mid(sh, pc, l)
    ensures var (sh', pc') := Work(sh, pc, c); Mid(sh', pc', l)
  {
    if pc.Send? { SendMid(sh, pc, c, l); }
    else if pc.SendData? { SendDataMid(sh, pc, c, l); }
    else if pc.Recv? { RecvMid(sh, pc, c, l); }
    else if pc.Decode? { DecodeMid(sh, pc, c, l); }
    else if pc.RecvData? { RecvDataMid(sh, pc, c, l); }
  }

  /** No step of an operation touches a connection but the current one and the one
      it disconnects. */
  lemma WorkElsewhere(sh: Shared, pc: Pc, c: Choice, l: Link, d: int)
    requires Buffers(sh) && Mid(sh, pc, l) && d in sh.streams && d != sh.sock && !(pc.Disconnect? && pc.s == d)
    ensures var sh' := Work(sh, pc, c).0; d in sh'.streams && sh'.streams[d] == sh.streams[d]
  {
  }

  /** The event of an operation that ends. */
  lemma FinishIsCall(sh: Shared, ret: i32, l: Link)
    requires Mid(sh, Finish(ret), l) && sh.sock >= -1
    ensures match sh.cur.act
            case Ask(r) => Asked(l, r, ret, Now(sh))
            case Destroy => Now(sh) == Down
  {
    if sh.sock >= 0 {
      AskedOnce(l, sh.cur.act.r, ret, sh.cur.got);
    }
  }

  /** What a step does to the run, and to where the client stands in it. */
  ghost predicate Follows(st: State, l: Label, st': State, link: Link) {
    match Observed(st, l)
    case None => Matches(st', link)
    case Some(e) => Step(link, e, Now(st'.sh)) && Matches(st', Now(st'.sh))
  }

  lemma FinishFollows(st: State, i: nat, c: Choice, link: Link)
    requires Inv(st) && Matches(st, link) && i < |st.threads| && st.threads[i].Finish?
    ensures Follows(st, Client(i, c), Next(st, Client(i, c)), link)
  {
    FinishIsCall(st.sh, st.threads[i].ret, link);
  }

  lemma TakeFollows(st: State, i: nat, c: Choice, link: Link)
    requires Inv(st) && Matches(st, link) && i < |st.threads| && !Holding(st.threads[i])
    ensures Follows(st, Client(i, c), Next(st, Client(i, c)), link)
  {
    var held := p => Held(st, p);
    assert held(Current) == -1 || held(Current) in Sockets(st.sh);
  }

  lemma NewIsElsewhere(st: State, i: nat)
    requires Owned(st) && i < |st.threads| && Held(st, ServerNew) >= 0
    ensures var d := Held(st, ServerNew);
            d in st.sh.streams && d != st.sh.sock && (st.threads[i].Disconnect? ==> st.threads[i].s != d)
  {
    var held := p => Held(st, p);
    assert held(ServerNew) in Sockets(st.sh);
    assert held(Current) != held(ServerNew) && held(Detached(i)) != held(ServerNew);
  }

  lemma WorkFollows(st: State, i: nat, c: Choice, link: Link)
    requires Inv(st) && Matches(st, link) && i < |st.threads|
    requires Holding(st.threads[i]) && !st.threads[i].Finish?
    ensures Follows(st, Client(i, c), Next(st, Client(i, c)), link)
  {
    var pc := st.threads[i];
    WorkMid(st.sh, pc, c, link);
    ClientSemaMove(st.sh, pc, c);
    if Held(st, ServerNew) >= 0 {
      NewIsElsewhere(st, i);
      WorkElsewhere(st.sh, pc, c, link, Held(st, ServerNew));
    }
  }

  lemma MidDepends(sh: Shared, sh': Shared, pc: Pc, l: Link)
    requires sh'.sock == sh.sock && sh'.cur == sh.cur
    requires sh.sock >= 0 ==>
               sh.sock in sh.streams && sh.sock in sh'.streams && sh'.streams[sh.sock] == sh.streams[sh.sock]
    ensures Mid(sh, pc, l) ==> Mid(sh', pc, l)
    ensures Now(sh) == Now(sh')
  {
  }

  lemma ServerMoves(st: State, c: Choice, link: Link)
    requires Inv(st) && Matches(st, link) && MovesSocket(st.srv) && st.sh.sema == 1
    ensures Follows(st, Server(c), Next(st, Server(c)), link)
  {
  }

  /** The server's other steps leave the current connection alone. */
  lemma ServerElsewhere(st: State, c: Choice)
    requires Inv(st) && Unused(st) && !MovesSocket(st.srv)
    ensures var st' := Next(st, Server(c));
            st'.sh.sock == st.sh.sock && st'.sh.cur == st.sh.cur && Unused(st') &&
            (st.sh.sock >= 0 ==>
               st.sh.sock in st.sh.streams && st.sh.sock in st'.sh.streams &&
               st'.sh.streams[st.sh.sock] == st.sh.streams[st.sh.sock])
  {
    var held := p => Held(st, p);
    assert held(Current) == -1 || held(Current) in Sockets(st.sh);
    assert held(ServerOld) >= 0 ==> held(ServerOld) != held(ServerNew);
  }

  lemma ServerStays(st: State, c: Choice, link: Link)
    requires Inv(st) && Matches(st, link) && !MovesSocket(st.srv)
    ensures Follows(st, Server(c), Next(st, Server(c)), link)
  {
    var st' := Next(st, Server(c));
    ServerElsewhere(st, c);
    ServerLeavesOperations(st.sh, st.srv, c);
    forall i | 0 <= i < |st.threads| && Holding(st.threads[i]) ensures Mid(st'.sh, st.threads[i], link) {
      MidDepends(st.sh, st'.sh, st.threads[i], link);
    }
    MidDepends(st.sh, st'.sh, Idle, link);
  }

  lemma StepFollows(st: State, l: Label, link: Link)
    requires Inv(st) && Matches(st, link) && QuietStep(st, l)
    ensures Follows(st, l, Next(st, l), link)
  {
    match l
    case Client(i, c) =>
      if i < |st.threads| {
        if st.threads[i].Finish? {
          FinishFollows(st, i, c, link);
        } else if Holding(st.threads[i]) {
          WorkFollows(st, i, c, link);
        } else {
          TakeFollows(st, i, c, link);
        }
      }
    case Server(c) =>
      if MovesSocket(st.srv) {
        ServerMoves(st, c, link);
      } else {
        ServerStays(st, c, link);
      }
  }

  lemma RunGrows(t: Runs.Run, e: Event, l: Link)
    requires IsRun(t) && Step(Last(t), e, l)
    ensures var u := Runs.Run(t.links + [l], t.events + [e]); IsRun(u) && Last(u) == l
  {
    var u := Runs.Run(t.links + [l], t.events + [e]);
    forall i | 0 <= i < |u.events| ensures Step(u.links[i], u.events[i], u.links[i + 1]) {
      if i < |t.events| {
        assert Step(t.links[i], t.events[i], t.links[i + 1]);
      }
    }
  }

  /** Such an interleaving of any number of threads is a run of the client. */
  lemma {:induction false} QuietIsRun(n: nat, ls: seq<Label>)
    requires Quiet(n, ls)
    ensures IsRun(Trace(n, ls)) && Matches(Exec(n, ls), Last(Trace(n, ls)))
  {
    if ls != [] {
      var (init, l) := (ls[..|ls| - 1], ls[|ls| - 1]);
      QuietIsRun(n, init);
      EveryInterleaving(n, init);
      var (st, t) := (Exec(n, init), Trace(n, init));
      StepFollows(st, l, Last(t));
      match Observed(st, l) {
        case None =>
        case Some(e) => RunGrows(t, e, Now(Next(st, l).sh));
      }
    }
  }

  /** So with n threads too: whenever no operation is inside, there is no socket, or
      its streams hold whole requests and whole replies, those of the operations
      that finished since it was accepted, in the order they finished. */
  lemma ThreadsAtBoundary(n: nat, ls: seq<Label>)
    requires Quiet(n, ls) && Exec(n, ls).sh.sema == 1
    ensures var (sh, t) := (Exec(n, ls).sh, Trace(n, ls));
            IsRun(t) &&
            (sh.sock >= 0 ==>
               sh.sock in sh.streams && AllAnswered(Session(t)) &&
               sh.streams[sh.sock] == Stream(Flatten(Pieces(Requests(Session(t)))), ReplyStream(Session(t))))
  {
    QuietIsRun(n, ls);
    StreamsAtBoundary(Trace(n, ls));
    EveryInterleaving(n, ls);
    var (st, held) := (Exec(n, ls), p => Held(Exec(n, ls), p));
    assert held(Current) == -1 || held(Current) in Sockets(st.sh);
  }
}
