/** Whole runs of the client, with reconnections between operations: where the
    two byte streams of the current connection stand after each of them. */
module Runs {
  import opened Bytes
  import opened HostLink
  import opened Replies

  /** What can happen to the client between two moments of rest. */
  datatype Event =
    | Call(r: Request, ret: i32)  // an operation that has something to send
    | Local                       // a negative length or an empty write
    | Accept(client: int)         // the server thread takes a new client
    | Shut                        // the file system is destroyed

  predicate Step(l: Link, e: Event, l': Link) {
    match e
    case Call(r, ret) => r.Valid() && Asked(l, r, ret, l')
    case Local => l' == l
    case Accept(client) => client >= 0 && l' == Up(client, [], [])
    case Shut => l' == Down
  }

  /** The links between the events, the first before the first event. */
  datatype Run = Run(links: seq<Link>, events: seq<Event>)

  predicate IsRun(run: Run) {
    |run.links| == |run.events| + 1 && run.links[0] == Down &&
    forall i :: 0 <= i < |run.events| ==> Step(run.links[i], run.events[i], run.links[i + 1])
  }

  function Last(run: Run): Link
    requires IsRun(run)
  {
    run.links[|run.events|]
  }

  function Shorter(run: Run): (s: Run)
    requires IsRun(run) && run.events != []
    ensures IsRun(s) && |s.events| < |run.events|
  {
    Run(run.links[..|run.events|], run.events[..|run.events| - 1])
  }

  /** A request with the reply bytes consumed for it. */
  datatype Exchange = Exchange(r: Request, ret: i32, reply: seq<byte>)

  /** The exchanges made on the connection that is current at the end. */
  function Session(run: Run): seq<Exchange>
    requires IsRun(run)
    decreases |run.events|
  {
    var n := |run.events|;
    if n == 0 then [] else
      match run.events[n - 1]
      case Local => Session(Shorter(run))
      case Call(r, ret) =>
        if run.links[n].Up? then
          Session(Shorter(run)) + [Exchange(r, ret, run.links[n].received[|run.links[n - 1].received|..])]
        else []
      case _ => []
  }

  function Requests(es: seq<Exchange>): (rs: seq<Request>)
    ensures |rs| == |es| && forall i :: 0 <= i < |es| ==> rs[i] == es[i].r
  {
    seq(|es|, i requires 0 <= i < |es| => es[i].r)
  }

  function ReplyPieces(es: seq<Exchange>): (ps: seq<seq<byte>>)
    ensures |ps| == |es| && forall i :: 0 <= i < |es| ==> ps[i] == es[i].reply
  {
    seq(|es|, i requires 0 <= i < |es| => es[i].reply)
  }

  function ReplyStream(es: seq<Exchange>): seq<byte> {
    Flatten(ReplyPieces(es))
  }

  predicate AllAnswered(es: seq<Exchange>) {
    forall i :: 0 <= i < |es| ==> es[i].r.Valid() && IsReply(es[i].r, es[i].ret, es[i].reply)
  }

  /** Both streams end exactly where a whole exchange does. */
  predicate AtBoundary(l: Link, es: seq<Exchange>)
    requires l.Up? && AllAnswered(es)
  {
    l.sent == Flatten(Pieces(Requests(es))) && l.received == ReplyStream(es)
  }

  lemma ExchangeAdded(es: seq<Exchange>, e: Exchange)
    requires AllAnswered(es) && e.r.Valid() && IsReply(e.r, e.ret, e.reply)
    ensures AllAnswered(es + [e])
    ensures Requests(es + [e]) == Requests(es) + [e.r]
    ensures ReplyStream(es + [e]) == ReplyStream(es) + e.reply
  {
    assert ReplyPieces(es + [e]) == ReplyPieces(es) + [e.reply];
    FlattenAppend(ReplyPieces(es), e.reply);
  }

  /** An answered request moves both streams from one boundary to the next. */
  lemma BoundaryMoves(l: Link, es: seq<Exchange>, e: Exchange, l': Link)
    requires l.Up? && l'.Up? && AllAnswered(es) && AtBoundary(l, es)
    requires e.r.Valid() && IsReply(e.r, e.ret, e.reply)
    requires l'.sent == l.sent + RequestBytes(e.r) && l'.received == l.received + e.reply
    ensures AllAnswered(es + [e]) && AtBoundary(l', es + [e])
  {
    ExchangeAdded(es, e);
    StreamGrows(Requests(es), e.r);
  }

  /** After every run, either there is no socket, or the bytes sent are the whole
      requests of the session and the bytes consumed its whole replies. */
  lemma {:induction false} StreamsAtBoundary(run: Run)
    requires IsRun(run)
    ensures Last(run).Up? ==> AllAnswered(Session(run)) && AtBoundary(Last(run), Session(run))
    decreases |run.events|
  {
    var n := |run.events|;
    if n > 0 {
      StreamsAtBoundary(Shorter(run));
      var (l, e, l') := (run.links[n - 1], run.events[n - 1], run.links[n]);
      assert Last(Shorter(run)) == l && Step(l, e, l');
      if e.Call? && l'.Up? {
        var x := Exchange(e.r, e.ret, l'.received[|l.received|..]);
        BoundaryMoves(l, Session(Shorter(run)), x, l');
      }
    }
  }

  /** So a reader that starts with the connection finds nothing but the requests
      of the session in what was sent, and all of them. */
  lemma ServerReadsSession(run: Run)
    requires IsRun(run) && Last(run).Up?
    ensures DecodeStream(Last(run).sent) == AllAsReceived(Requests(Session(run)))
  {
    StreamsAtBoundary(run);
    StreamDecodes(Requests(Session(run)));
  }

  /** The length of the reply at the head of a stream, from the request alone. */
  function ReplyLength(r: Request, s: seq<byte>): int
    requires |s| >= ReplySize(r)
  {
    if r.Read? then 14 + ReadCount(s[..14]) else ReplySize(r)
  }

  lemma ReplyLengthIs(r: Request, ret: i32, reply: seq<byte>, rest: seq<byte>)
    requires IsReply(r, ret, reply)
    ensures ReplyLength(r, reply + rest) == |reply|
  {
    if r.Read? {
      assert (reply + rest)[..14][10..14] == reply[10..14];
    }
  }

  /** No reply to a request is a proper beginning of another. */
  lemma RepliesPrefixFree(r: Request, ret: i32, a: seq<byte>, restA: seq<byte>,
                          ret': i32, b: seq<byte>, restB: seq<byte>)
    requires IsReply(r, ret, a) && IsReply(r, ret', b)
    requires a + restA == b + restB
    ensures a == b && restA == restB && ret == ret'
  {
    ReplyLengthIs(r, ret, a, restA);
    ReplyLengthIs(r, ret', b, restB);
    assert a == (a + restA)[..|a|] == b;
    assert restA == (a + restA)[|a|..] == restB;
  }

  /** A -1 that leaves the socket open is one the host reported. */
  lemma MinusOneIsReported(l: Link, r: Request, l': Link)
    requires r.Valid() && Asked(l, r, -1, l') && l.Up? && l'.Up?
    ensures !r.Read? && RetVal(l'.received[|l.received|..]) == -1
  {
  }

  /** Once the socket is lost, nothing but a new client brings one back, and
      every operation until then fails. */
  lemma {:induction false} DownUntilAccept(run: Run, i: nat, j: nat)
    requires IsRun(run) && i <= j <= |run.events| && run.links[i].Down?
    requires forall k :: i <= k < j ==> !run.events[k].Accept?
    ensures run.links[j].Down?
    ensures forall k :: i <= k < j && run.events[k].Call? ==> run.events[k].ret == -1
    decreases j - i
  {
    if i < j {
      assert Step(run.links[i], run.events[i], run.links[i + 1]);
      DownUntilAccept(run, i + 1, j);
    }
  }
}
