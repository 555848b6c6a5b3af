/** The client against a host that keeps the protocol: what the caller sees is
    what the host's files say, however TCP cuts the streams. The host is not part
    of the repository; what is assumed of it is `Conforms`. */
module HostFiles {
  import opened Bytes
  import opened HostLink
  import opened Replies
  import opened Runs

  datatype OpenFile = OpenFile(path: cstring, pos: nat)
  datatype Host = Host(files: map<cstring, seq<byte>>, fds: map<i32, OpenFile>)

  predicate Sane(h: Host) {
    forall fd :: fd in h.fds ==> h.fds[fd].path in h.files
  }

  function Contents(h: Host, fd: i32): seq<byte>
    requires Sane(h) && fd in h.fds
  {
    h.files[h.fds[fd].path]
  }

  function MoveTo(h: Host, fd: i32, pos: nat): Host
    requires fd in h.fds
  {
    h.(fds := h.fds[fd := h.fds[fd].(pos := pos)])
  }

  /** What an operation may do to a host's files, and what it returns and reads.
      Reads and writes may be short; directory operations are not constrained. */
  predicate HostDoes(h: Host, r: Request, ret: i32, data: seq<byte>, h': Host)
    requires Sane(h)
  {
    match r
    case Open(path, _) =>
      if ret < 0 then h' == h else
        ret !in h.fds && path in h'.files &&
        (h'.files == h.files || h'.files == h.files[path := []]) &&
        h'.fds == h.fds[ret := OpenFile(path, 0)]
    case Close(fd) =>
      if ret < 0 then h' == h else fd in h.fds && h' == h.(fds := h.fds - {fd})
    case Read(fd, n) =>
      |data| == ret <= n &&
      if fd !in h.fds then ret == 0 && h' == h else
        var (c, pos) := (Contents(h, fd), h.fds[fd].pos);
        (if pos + ret <= |c| then data == c[pos..pos + ret] else ret == 0) &&
        (ret == 0 ==> n == 0 || pos >= |c|) &&
        h' == MoveTo(h, fd, pos + ret)
    case Write(fd, d) =>
      if ret < 0 then h' == h else
        0 < ret <= |d| && fd in h.fds &&
        var (c, pos) := (Contents(h, fd), h.fds[fd].pos);
        h' == MoveTo(h, fd, pos + ret).(files := h.files[h.fds[fd].path := Overwrite(c, pos, d[..ret])])
    case Lseek(fd, offset, whence) =>
      if ret < 0 then h' == h else
        fd in h.fds && 0 <= whence <= 2 && h' == MoveTo(h, fd, ret) &&
        ret == Signed(offset) + (if whence == 0 then 0 else if whence == 1 then h.fds[fd].pos else |Contents(h, fd)|)
    case _ => Sane(h')
  }

  lemma StaysSane(h: Host, r: Request, ret: i32, data: seq<byte>, h': Host)
    requires Sane(h) && HostDoes(h, r, ret, data, h')
    ensures Sane(h')
  {
  }

  function ReadBytes(e: Exchange): seq<byte> {
    if e.r.Read? && |e.reply| >= 14 then ReadData(e.reply) else []
  }

  /** The host's files over a list of exchanges. */
  predicate FileRun(hs: seq<Host>, es: seq<Exchange>) {
    |hs| == |es| + 1 && Sane(hs[0]) &&
    forall i :: 0 <= i < |es| ==> Sane(hs[i]) && HostDoes(hs[i], es[i].r, es[i].ret, ReadBytes(es[i]), hs[i + 1])
  }

  /** A host's side of one connection: the requests it has decoded, in order,
      each with a whole reply and a step of its files. It has answered no more
      than it was sent, and the client has consumed no more than it answered. */
  predicate Conforms(hs: seq<Host>, served: seq<Exchange>, l: Link)
    requires l.Up?
  {
    FileRun(hs, served) && AllAnswered(served) &&
    Requests(served) <= DecodeStream(l.sent) && l.received <= ReplyStream(served)
  }

  /** An exchange with the request as the host reads it. */
  function Seen(e: Exchange): Exchange {
    e.(r := AsReceived(e.r))
  }

  function AllSeen(es: seq<Exchange>): (t: seq<Exchange>)
    ensures |t| == |es| && forall i :: 0 <= i < |es| ==> t[i] == Seen(es[i])
  {
    seq(|es|, i requires 0 <= i < |es| => Seen(es[i]))
  }

  lemma SeenReply(e: Exchange)
    requires e.r.Valid() && IsReply(e.r, e.ret, e.reply)
    ensures AsReceived(e.r).Valid() && IsReply(AsReceived(e.r), e.ret, e.reply)
  {
  }

  lemma HeadsMatch(r: Request, ret: i32, x: seq<byte>, restX: seq<byte>, ret': i32, y: seq<byte>, restY: seq<byte>)
    requires IsReply(r, ret, x) && IsReply(r, ret', y)
    requires x + restX <= y + restY
    ensures x == y && ret == ret' && restX <= restY
  {
    var more := (y + restY)[|x + restX|..];
    assert x + (restX + more) == y + restY;
    RepliesPrefixFree(r, ret, x, restX + more, ret', y, restY);
  }

  lemma TailsAnswered(es: seq<Exchange>)
    requires AllAnswered(es) && es != []
    ensures AllAnswered(es[1..]) && es[0].r.Valid() && IsReply(es[0].r, es[0].ret, es[0].reply)
    ensures ReplyStream(es) == es[0].reply + ReplyStream(es[1..])
  {
    assert ReplyPieces(es)[1..] == ReplyPieces(es[1..]);
  }

  lemma HeadsInStep(es: seq<Exchange>, served: seq<Exchange>)
    requires AllAnswered(es) && AllAnswered(served) && es != []
    requires served != [] ==> served[0].r == AsReceived(es[0].r)
    requires ReplyStream(es) <= ReplyStream(served)
    ensures served != [] && served[0] == Seen(es[0])
    ensures ReplyStream(es[1..]) <= ReplyStream(served[1..])
  {
    TailsAnswered(es);
    SeenReply(es[0]);
    assert |ReplyStream(es)| >= |es[0].reply| > 0;
    TailsAnswered(served);
    HeadsMatch(served[0].r, es[0].ret, es[0].reply, ReplyStream(es[1..]),
               served[0].ret, served[0].reply, ReplyStream(served[1..]));
  }

  lemma SameRest(es: seq<Exchange>, served: seq<Exchange>)
    requires es != [] && served != [] && served[0] == Seen(es[0]) && served[1..] == AllSeen(es[1..])
    ensures served == AllSeen(es)
  {
    assert |served| == |es|;
    forall i | 0 <= i < |es| ensures served[i] == AllSeen(es)[i] {
      if i > 0 {
        assert served[1..][i - 1] == AllSeen(es[1..])[i - 1];
      }
    }
  }

  /** Two lists of exchanges of the same requests, whose replies were cut from
      one stream, are the same list as far as the shorter stream goes. */
  lemma {:induction false} InStep(es: seq<Exchange>, served: seq<Exchange>)
    requires AllAnswered(es) && AllAnswered(served)
    requires |served| <= |es|
    requires forall i :: 0 <= i < |served| ==> served[i].r == AsReceived(es[i].r)
    requires ReplyStream(es) <= ReplyStream(served)
    ensures served == AllSeen(es)
  {
    if es != [] {
      HeadsInStep(es, served);
      TailsAnswered(es);
      TailsAnswered(served);
      forall i | 0 <= i < |served| - 1 ensures served[1..][i].r == AsReceived(es[1..][i].r) {
        assert served[i + 1].r == AsReceived(es[i + 1].r);
      }
      InStep(es[1..], served[1..]);
      SameRest(es, served);
    }
  }

  /** Whatever run led here: against a conforming host, the session the client
      saw is the one the host served, so the values returned and the bytes read
      are those of the host's files. */
  lemma ClientRefinesFiles(run: Run, hs: seq<Host>, served: seq<Exchange>)
    requires IsRun(run) && Last(run).Up? && Conforms(hs, served, Last(run))
    ensures served == AllSeen(Session(run)) && FileRun(hs, AllSeen(Session(run)))
  {
    StreamsAtBoundary(run);
    ServerReadsSession(run);
    var es := Session(run);
    forall i | 0 <= i < |served| ensures served[i].r == AsReceived(es[i].r) {
      assert Requests(served)[i] == AllAsReceived(Requests(es))[i];
    }
    InStep(es, served);
  }

  /** The converse: a session that is a run of a host's files is one that a
      conforming host can have served, so nothing is excluded. */
  lemma FileRunConforms(run: Run, hs: seq<Host>)
    requires IsRun(run) && Last(run).Up? && FileRun(hs, AllSeen(Session(run)))
    ensures Conforms(hs, AllSeen(Session(run)), Last(run))
  {
    StreamsAtBoundary(run);
    ServerReadsSession(run);
    var es := Session(run);
    var seen := AllSeen(es);
    forall i | 0 <= i < |seen| ensures seen[i].r.Valid() && IsReply(seen[i].r, seen[i].ret, seen[i].reply) {
      SeenReply(es[i]);
    }
    assert Requests(seen) == AllAsReceived(Requests(es));
    assert ReplyPieces(seen) == ReplyPieces(es);
  }

  /** What a list of reads, or of writes, moved between caller and file. */
  function Transferred(e: Exchange): seq<byte> {
    match e.r
    case Read(_, _) => ReadBytes(e)
    case Write(_, d) => if 0 <= e.ret <= |d| then d[..e.ret] else []
    case _ => []
  }

  function AllTransferred(es: seq<Exchange>): seq<byte> {
    if es == [] then [] else Transferred(es[0]) + AllTransferred(es[1..])
  }

  lemma Tail(hs: seq<Host>, es: seq<Exchange>)
    requires FileRun(hs, es) && es != []
    ensures FileRun(hs[1..], es[1..]) && HostDoes(hs[0], es[0].r, es[0].ret, ReadBytes(es[0]), hs[1])
  {
    StaysSane(hs[0], es[0].r, es[0].ret, ReadBytes(es[0]), hs[1]);
    forall i | 0 <= i < |es[1..]|
      ensures Sane(hs[1..][i])
      ensures HostDoes(hs[1..][i], es[1..][i].r, es[1..][i].ret, ReadBytes(es[1..][i]), hs[1..][i + 1])
    {
      assert Sane(hs[i + 1]) && HostDoes(hs[i + 1], es[i + 1].r, es[i + 1].ret, ReadBytes(es[i + 1]), hs[i + 2]);
    }
  }

  /** From one host to another, the bytes were read through a descriptor: they are
      the next ones of its file, its position is behind them, and no file changed. */
  predicate ReadOn(h: Host, fd: i32, got: seq<byte>, h': Host) {
    Sane(h) && fd in h.fds && Sane(h') && h'.files == h.files && fd in h'.fds &&
    var (c, pos) := (Contents(h, fd), h.fds[fd].pos);
    h'.fds[fd] == h.fds[fd].(pos := pos + |got|) &&
    (got == [] || (pos + |got| <= |c| && got == c[pos..pos + |got|]))
  }

  /** The bytes were written through it: its file is as after one write of them. */
  predicate WroteOn(h: Host, fd: i32, d: seq<byte>, h': Host) {
    Sane(h) && fd in h.fds && Sane(h') && fd in h'.fds &&
    var (c, f) := (Contents(h, fd), h.fds[fd]);
    h'.files == h.files[f.path := Overwrite(c, f.pos, d)] && h'.fds[fd] == f.(pos := f.pos + |d|)
  }

  lemma ReadStep(h: Host, e: Exchange, h': Host)
    requires Sane(h) && e.r.Read? && e.r.fd in h.fds && HostDoes(h, e.r, e.ret, ReadBytes(e), h')
    ensures ReadOn(h, e.r.fd, Transferred(e), h')
  {
  }

  lemma WriteStep(h: Host, e: Exchange, h': Host)
    requires Sane(h) && e.r.Write? && e.r.fd in h.fds && e.ret > 0 && HostDoes(h, e.r, e.ret, [], h')
    ensures WroteOn(h, e.r.fd, Transferred(e), h')
  {
  }

  lemma Adjacent(c: seq<byte>, i: nat, d: seq<byte>, e: seq<byte>)
    requires d == [] || (i + |d| <= |c| && d == c[i..i + |d|])
    requires e == [] || (i + |d| + |e| <= |c| && e == c[i + |d|..i + |d| + |e|])
    ensures var f := d + e; f == [] || (i + |f| <= |c| && f == c[i..i + |f|])
  {
  }

  lemma ReadOnJoins(h: Host, h1: Host, h2: Host, fd: i32, d: seq<byte>, e: seq<byte>)
    requires ReadOn(h, fd, d, h1) && ReadOn(h1, fd, e, h2)
    ensures ReadOn(h, fd, d + e, h2)
  {
    Adjacent(Contents(h, fd), h.fds[fd].pos, d, e);
  }

  lemma WroteOnJoins(h: Host, h1: Host, h2: Host, fd: i32, d: seq<byte>, e: seq<byte>)
    requires WroteOn(h, fd, d, h1) && WroteOn(h1, fd, e, h2)
    ensures WroteOn(h, fd, d + e, h2)
  {
    OverwriteTwice(Contents(h, fd), h.fds[fd].pos, d, e);
  }

  /** Consecutive reads deliver consecutive bytes of the file, and change no file. */
  lemma {:induction false} ReadsAreContiguous(hs: seq<Host>, es: seq<Exchange>, fd: i32)
    requires FileRun(hs, es) && fd in hs[0].fds
    requires forall i :: 0 <= i < |es| ==> es[i].r.Read? && es[i].r.fd == fd
    ensures ReadOn(hs[0], fd, AllTransferred(es), hs[|es|])
  {
    if es != [] {
      Tail(hs, es);
      ReadStep(hs[0], es[0], hs[1]);
      ReadsAreContiguous(hs[1..], es[1..], fd);
      assert hs[1..][|es[1..]|] == hs[|es|];
      ReadOnJoins(hs[0], hs[1], hs[|es|], fd, Transferred(es[0]), AllTransferred(es[1..]));
    }
  }

  lemma NothingWritten(h: Host, fd: i32)
    requires Sane(h) && fd in h.fds
    ensures WroteOn(h, fd, [], h)
  {
  }

  /** Consecutive successful writes, short or whole, leave the file as one write
      of all that was accepted would. */
  lemma {:induction false} WritesAreContiguous(hs: seq<Host>, es: seq<Exchange>, fd: i32)
    requires FileRun(hs, es) && fd in hs[0].fds
    requires forall i :: 0 <= i < |es| ==> es[i].r.Write? && es[i].r.fd == fd && es[i].ret > 0
    ensures WroteOn(hs[0], fd, AllTransferred(es), hs[|es|])
  {
    if es == [] {
      NothingWritten(hs[0], fd);
    } else {
      Tail(hs, es);
      WriteStep(hs[0], es[0], hs[1]);
      WritesAreContiguous(hs[1..], es[1..], fd);
      assert hs[1..][|es[1..]|] == hs[|es|];
      WroteOnJoins(hs[0], hs[1], hs[|es|], fd, Transferred(es[0]), AllTransferred(es[1..]));
    }
  }

  lemma SeekStep(h: Host, e: Exchange, h': Host)
    requires Sane(h) && e.r.Lseek? && e.r.fd in h.fds && e.ret >= 0 && HostDoes(h, e.r, e.ret, [], h')
    ensures Sane(h') && h' == MoveTo(h, e.r.fd, e.ret) && Contents(h', e.r.fd) == Contents(h, e.r.fd)
    ensures e.r.whence == 0 ==> e.ret == Signed(e.r.offset)
  {
  }

  lemma ReadFromStart(hs: seq<Host>, rs: seq<Exchange>, fd: i32)
    requires FileRun(hs, rs) && fd in hs[0].fds && hs[0].fds[fd].pos == 0
    requires forall i :: 0 <= i < |rs| ==> rs[i].r.Read? && rs[i].r.fd == fd
    ensures AllTransferred(rs) <= Contents(hs[0], fd)
  {
    ReadsAreContiguous(hs, rs, fd);
  }

  lemma WriteFromStart(hs: seq<Host>, ws: seq<Exchange>, fd: i32)
    requires FileRun(hs, ws) && fd in hs[0].fds && hs[0].fds[fd].pos == 0
    requires forall i :: 0 <= i < |ws| ==> ws[i].r.Write? && ws[i].r.fd == fd && ws[i].ret > 0
    ensures Sane(hs[|ws|]) && fd in hs[|ws|].fds
    ensures AllTransferred(ws) <= Contents(hs[|ws|], fd)
  {
    WritesAreContiguous(hs, ws, fd);
    var (c, d) := (Contents(hs[0], fd), AllTransferred(ws));
    assert d <= Overwrite(c, 0, d);
  }

  /** What a file was given at its start, in any pieces, comes back from a seek to
      the start and reads in any other pieces, as far as they go. */
  lemma WrittenIsReadBack(hs: seq<Host>, ws: seq<Exchange>, seek: Exchange, rs: seq<Exchange>, fd: i32)
    requires FileRun(hs, ws + [seek] + rs)
    requires fd in hs[0].fds && hs[0].fds[fd].pos == 0
    requires forall i :: 0 <= i < |ws| ==> ws[i].r.Write? && ws[i].r.fd == fd && ws[i].ret > 0
    requires seek.r == Lseek(fd, 0, 0) && seek.ret >= 0
    requires forall i :: 0 <= i < |rs| ==> rs[i].r.Read? && rs[i].r.fd == fd
    ensures var (d, got) := (AllTransferred(ws), AllTransferred(rs)); got <= d || d <= got
  {
    var (es, k) := (ws + [seek] + rs, |ws|);
    Segment(hs, es, 0, k);
    assert es[0..k] == ws;
    WriteFromStart(hs[0..k + 1], ws, fd);
    Segment(hs, es, k, k + 1);
    assert es[k..k + 1] == [seek] && [seek][0] == seek;
    SeekStep(hs[k], seek, hs[k + 1]);
    Segment(hs, es, k + 1, |es|);
    assert es[k + 1..|es|] == rs;
    ReadFromStart(hs[k + 1..|es| + 1], rs, fd);
    Comparable(AllTransferred(ws), AllTransferred(rs), Contents(hs[k], fd));
  }

  lemma Comparable(a: seq<byte>, b: seq<byte>, c: seq<byte>)
    requires a <= c && b <= c
    ensures b <= a || a <= b
  {
  }

  lemma Segment(hs: seq<Host>, es: seq<Exchange>, i: nat, j: nat)
    requires FileRun(hs, es) && i <= j <= |es|
    ensures FileRun(hs[i..j + 1], es[i..j])
  {
    if i < |es| {
      assert Sane(hs[i]);
    } else if i > 0 {
      StaysSane(hs[i - 1], es[i - 1].r, es[i - 1].ret, ReadBytes(es[i - 1]), hs[i]);
    }
    forall m | 0 <= m < j - i
      ensures Sane(hs[i..j + 1][m])
      ensures HostDoes(hs[i..j + 1][m], es[i..j][m].r, es[i..j][m].ret, ReadBytes(es[i..j][m]), hs[i..j + 1][m + 1])
    {
      assert Sane(hs[i + m]) && HostDoes(hs[i + m], es[i + m].r, es[i + m].ret, ReadBytes(es[i + m]), hs[i + m + 1]);
    }
  }
}
