/** Replies of the host: file protocol, and what one operation may do to a
    connection. */
module Replies {
  import opened Bytes
  import opened HostLink
  import opened Lwip

  const PACKET_LIMIT: nat := 4096

  function RetVal(reply: seq<byte>): i32
    requires |reply| >= 10
  {
    Signed(Be32(reply[6..10]))
  }

  /** The byte count of a read reply. */
  function ReadCount(reply: seq<byte>): i32
    requires |reply| >= 14
  {
    Signed(Be32(reply[10..14]))
  }

  /** The file data behind the header of a read reply. */
  function ReadData(reply: seq<byte>): seq<byte>
    requires |reply| >= 14
  {
    reply[14..]
  }

  /** pko_fileio_reply_header_valid, on the header itself. */
  predicate HeaderIs(s: seq<byte>, cmd: u32, size: nat) {
    |s| >= HEADER_SIZE && HEADER_SIZE <= size <= PACKET_LIMIT &&
    Be32(s[..4]) == cmd && Be16(s[4..6]) == size
  }

  /** A header is read as it was laid out, and only so. */
  lemma HeaderRead(s: seq<byte>, cmd: u32, size: u16)
    requires |s| == HEADER_SIZE
    ensures s == Header(cmd, size) <==> Be32(s[..4]) == cmd && Be16(s[4..6]) == size
  {
    assert s == s[..4] + s[4..6];
    WireBe32(s[..4]);
    WireBe16(s[4..6]);
    if s == Header(cmd, size) {
      assert s[..4] == Wire32(cmd) && s[4..6] == Wire16(size);
      BeWire32(cmd);
      BeWire16(size);
    }
  }

  /** Exactly one whole reply to a request, read data included, whose meaning to
      the caller is `ret`. */
  predicate IsReply(r: Request, ret: i32, s: seq<byte>) {
    HeaderIs(s, ReplyCommand(r), ReplySize(r)) && |s| >= ReplySize(r) &&
    match r
    case Read(_, n) => 0 <= ReadCount(s) <= n && ret == ReadCount(s) && |s| == 14 + ret
    case Write(_, data) => |s| == 10 && ret == RetVal(s) && (ret < 0 || 0 < ret <= |data|)
    case _ => |s| == ReplySize(r) && ret == RetVal(s)
  }

  /** The connection as the client knows it: no socket, or a socket and every
      byte sent and consumed on it since it was accepted. */
  datatype Link = Down | Up(sock: int, sent: seq<byte>, received: seq<byte>)

  /** One request made on a link, with the value returned to the caller: nothing
      happens without a socket; otherwise either the link goes down, or the whole
      request goes out and exactly one whole reply to it is consumed. */
  predicate Asked(l: Link, r: Request, ret: i32, l': Link)
    requires r.Valid()
  {
    if l.Down? then ret == -1 && l' == Down
    else if l'.Down? then ret == -1
    else
      l'.sock == l.sock && l'.sent == l.sent + RequestBytes(r) &&
      l.received <= l'.received && IsReply(r, ret, l'.received[|l.received|..])
  }

  /** As much of a reply as an operation takes before it gives up: nothing behind a
      header that is not the expected one, and no more data than were announced. */
  predicate Partial(r: Request, got: seq<byte>) {
    (|got| > HEADER_SIZE ==> HeaderIs(got[..HEADER_SIZE], ReplyCommand(r), ReplySize(r))) &&
    (|got| > ReplySize(r) ==>
       r.Read? && ReadCount(got[..14]) <= r.nbytes && |got| <= 14 + ReadCount(got[..14]))
  }

  /** It failed inside its request, or inside its reply. */
  predicate Failed(r: Request, sent: seq<byte>, got: seq<byte>)
    requires r.Valid()
  {
    if got == [] then sent <= RequestBytes(r) else sent == RequestBytes(r) && Partial(r, got)
  }

  /** What was received ends in something no reply to the request has: another
      header, a count of data below 0 or above what was asked for, or a count of
      written bytes that is 0 or above what was sent. */
  predicate Refused(r: Request, got: seq<byte>) {
    (|got| == 6 && got != Header(ReplyCommand(r), ReplySize(r))) ||
    (r.Read? && |got| == 14 && !(0 <= Signed(Be32(got[10..14])) <= r.nbytes)) ||
    (r.Write? && |got| == 10 && (Signed(Be32(got[6..10])) == 0 || Signed(Be32(got[6..10])) > |r.data|))
  }

  /** Traffic of a request that lost the connection: a transfer failed, or what came
      in was refused. */
  predicate Lost(r: Request, a: Traffic, b: Traffic)
    requires r.Valid()
  {
    a.sent <= b.sent && a.received <= b.received && a.faults <= b.faults && a.accepts == b.accepts &&
    Failed(r, b.sent[|a.sent|..], b.received[|a.received|..]) &&
    (b.faults > a.faults || Refused(r, b.received[|a.received|..]))
  }

  /** Traffic of a request that was answered. */
  predicate Served(r: Request, ret: i32, a: Traffic, b: Traffic)
    requires r.Valid()
  {
    b.sent == a.sent + RequestBytes(r) && a.received <= b.received && b.faults == a.faults &&
    a.accepts == b.accepts && IsReply(r, ret, b.received[|a.received|..])
  }

  /** One request made on a link, and all that passed meanwhile: the link is lost
      only for a failed transfer or for something refused. */
  predicate Attempted(l: Link, r: Request, ret: i32, l': Link, a: Traffic, b: Traffic)
    requires r.Valid()
  {
    Asked(l, r, ret, l') && if l.Down? then b == a else if l'.Down? then Lost(r, a, b) else Served(r, ret, a, b)
  }

  lemma LostSending(r: Request, a: Traffic, b: Traffic, d: seq<byte>)
    requires r.Valid() && d <= RequestBytes(r) && b == a.(sent := a.sent + d, faults := b.faults)
    requires b.faults > a.faults
    ensures Lost(r, a, b)
  {
    assert (a.sent + d)[|a.sent|..] == d;
    assert a.received[|a.received|..] == [];
  }

  lemma LostReceiving(r: Request, a: Traffic, b: Traffic, got: seq<byte>)
    requires r.Valid() && Partial(r, got) && (b.faults > a.faults || Refused(r, got))
    requires b == Traffic(a.sent + RequestBytes(r), a.received + got, b.faults, a.accepts) && b.faults >= a.faults
    ensures Lost(r, a, b)
  {
    assert (a.sent + RequestBytes(r))[|a.sent|..] == RequestBytes(r);
    assert (a.received + got)[|a.received|..] == got;
  }

  lemma ServedBy(r: Request, ret: i32, a: Traffic, b: Traffic, reply: seq<byte>)
    requires r.Valid() && IsReply(r, ret, reply)
    requires b == a.(sent := a.sent + RequestBytes(r), received := a.received + reply)
    ensures Served(r, ret, a, b)
  {
    assert (a.received + reply)[|a.received|..] == reply;
  }

  /** What is refused is no reply. */
  lemma RefusedIsNoReply(r: Request, ret: i32, got: seq<byte>)
    requires r.Valid() && Refused(r, got)
    ensures !IsReply(r, ret, got)
  {
  }

  lemma AskedOnce(l: Link, r: Request, ret: i32, reply: seq<byte>)
    requires r.Valid() && l.Up? && IsReply(r, ret, reply)
    ensures Asked(l, r, ret, Up(l.sock, l.sent + RequestBytes(r), l.received + reply))
  {
    assert (l.received + reply)[|l.received|..] == reply;
  }

  lemma AttemptServed(l: Link, r: Request, ret: i32, a: Traffic, b: Traffic, reply: seq<byte>)
    requires r.Valid() && l.Up? && IsReply(r, ret, reply)
    requires b == a.(sent := a.sent + RequestBytes(r), received := a.received + reply)
    ensures Attempted(l, r, ret, Up(l.sock, l.sent + RequestBytes(r), l.received + reply), a, b)
  {
    AskedOnce(l, r, ret, reply);
    ServedBy(r, ret, a, b, reply);
  }

  /** What a caller learns of a file from a getstat or readdir reply. */
  datatype StatValue = StatValue(mode: u32, attr: u32, size: u32, hisize: u32, times: seq<byte>)

  function StatOf(reply: seq<byte>): StatValue
    requires |reply| >= 50
  {
    StatValue(Be32(reply[10..14]), Be32(reply[14..18]), Be32(reply[18..22]), Be32(reply[46..50]), reply[22..46])
  }
}
