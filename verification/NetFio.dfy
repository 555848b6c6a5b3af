/** iop/net_fio.c: the client of the host: file protocol. */
module NetFio {
  import opened Bytes
  import opened ByteOrder
  import opened HostLink
  import opened Replies
  import opened Lwip

  /** io_stat_t and io_dirent_t, filled in for the caller. */
  class IoStat {
    var stat: StatValue
    constructor (s: StatValue)
      ensures stat == s
    {
      stat := s;
    }
  }

  class IoDirent {
    var stat: StatValue
    var name: seq<byte>
    constructor (s: StatValue, n: seq<byte>)
      ensures stat == s && name == n
    {
      stat, name := s, n;
    }
  }

  /** pko_fileio_read_length_valid and pko_fileio_write_progress_valid. */
  predicate ReadLengthValid(received: i32, requested: i32) {
    requested >= 0 && received >= 0 && received <= requested
  }

  predicate WriteProgressValid(written: i32, requested: i32) {
    requested > 0 && written > 0 && written <= requested
  }

  /** The counts they let through. */
  lemma CountsValid(count: i32, most: i32)
    ensures ReadLengthValid(count, most) <==> 0 <= count <= most
    ensures WriteProgressValid(count, most) <==> 1 <= count <= most
  {
  }

  lemma FinishRead(l: Link, r: Request, head: seq<byte>, data: seq<byte>, a: Traffic)
    requires r.Read? && l.Up? && |head| == 14 && |data| <= r.nbytes
    requires HeaderIs(head, ReplyCommand(r), 14) && ReadCount(head) == |data|
    ensures Attempted(l, r, |data|, Up(l.sock, l.sent + RequestBytes(r), (l.received + head) + data), a,
                      a.(sent := a.sent + RequestBytes(r), received := a.received + (head + data)))
    ensures var got := (l.received + head) + data;
            |got[|l.received|..]| >= 14 && ReadData(got[|l.received|..]) == data
  {
    var reply := head + data;
    assert reply[..4] == head[..4] && reply[4..6] == head[4..6] && reply[10..14] == head[10..14];
    AttemptServed(l, r, |data|, a, a.(sent := a.sent + RequestBytes(r), received := a.received + reply), reply);
    assert l.received + reply == (l.received + head) + data;
    assert (l.received + reply)[|l.received|..] == reply;
  }

  /** A transfer failed before all of the bytes had gone out, or come in. */
  predicate GaveUpSending(a: Traffic, b: Traffic, d: seq<byte>) {
    b.faults > a.faults && b == a.(sent := b.sent, faults := b.faults) && a.sent <= b.sent <= a.sent + d
  }

  predicate GaveUpReceiving(a: Traffic, b: Traffic, n: nat) {
    b.faults > a.faults && b == a.(received := b.received, faults := b.faults) &&
    a.received <= b.received && |b.received| < |a.received| + n
  }

  lemma PrefixSent(a: Traffic, b: Traffic, d: seq<byte>) returns (k: seq<byte>)
    requires GaveUpSending(a, b, d)
    ensures k <= d && b.sent == a.sent + k
  {
    k := b.sent[|a.sent|..];
    assert (a.sent + d)[|a.sent|..] == d;
  }

  /** What of a packet came in before it was given up: all of the header and no
      failed transfer only if the header is another one. */
  predicate GaveUpPacket(a: Traffic, b: Traffic, cmd: u32, len: u16) {
    a.received <= b.received && b == a.(received := b.received, faults := b.faults) && b.faults >= a.faults &&
    var got := b.received[|a.received|..];
    |got| <= len && (|got| > 6 ==> got[..6] == Header(cmd, len)) &&
    (b.faults > a.faults || (|got| == 6 && got != Header(cmd, len)))
  }

  /** A write that does not get all of its request out; `before` has gone out. */
  lemma WriteLost(r: Request, a: Traffic, a1: Traffic, b: Traffic, before: seq<byte>, d: seq<byte>)
    requires r.Write? && r.Valid() && before + d <= RequestBytes(r) && a1 == a.(sent := a.sent + before)
    requires GaveUpSending(a1, b, d)
    ensures Lost(r, a, b)
  {
    var k := PrefixSent(a1, b, d);
    Associative(a.sent, before, k);
    assert before + k <= before + d;
    LostSending(r, a, b, before + k);
  }

  lemma NothingSent(a: Traffic, p: seq<byte>, d: seq<byte>)
    ensures a == a.(sent := a.sent + []) && [] + p == p <= p + d
  {
    assert a.sent + [] == a.sent;
  }

  lemma GaveUpBehind(a: Traffic, head: seq<byte>, b: Traffic, cmd: u32, len: u16)
    requires head == Header(cmd, len) && len >= HEADER_SIZE
    requires GaveUpReceiving(a.(received := a.received + head), b, len - HEADER_SIZE)
    ensures GaveUpPacket(a, b, cmd, len)
  {
    var got := b.received[|a.received|..];
    assert (a.received + head)[|a.received|..] == head;
    assert got[..6] == head;
  }

  lemma WrongHeader(a: Traffic, head: seq<byte>, cmd: u32, len: u16)
    requires |head| == HEADER_SIZE <= len && head != Header(cmd, len)
    ensures GaveUpPacket(a, a.(received := a.received + head), cmd, len)
  {
    assert (a.received + head)[|a.received|..] == head;
  }

  lemma NoMoreThanPacket(r: Request, got: seq<byte>)
    requires |got| <= ReplySize(r) as nat && (|got| > 6 ==> got[..6] == Header(ReplyCommand(r), ReplySize(r)))
    ensures Partial(r, got)
  {
    if |got| > 6 {
      HeaderRead(got[..6], ReplyCommand(r), ReplySize(r));
    }
  }

  lemma GaveUpIsLost(r: Request, a: Traffic, a1: Traffic, b: Traffic)
    requires r.Valid() && a1 == a.(sent := a.sent + RequestBytes(r))
    requires GaveUpPacket(a1, b, ReplyCommand(r), ReplySize(r))
    ensures Lost(r, a, b)
  {
    var got := b.received[|a.received|..];
    NoMoreThanPacket(r, got);
    LostReceiving(r, a, b, got);
  }

  /** The header of a whole packet. */
  lemma HeaderOf(s: seq<byte>, cmd: u32, size: nat)
    requires HeaderIs(s, cmd, size)
    ensures HeaderIs(s[..HEADER_SIZE], cmd, size)
  {
    assert s[..HEADER_SIZE][..4] == s[..4] && s[..HEADER_SIZE][4..6] == s[4..6];
  }

  /** The count of a read reply is refused. */
  lemma CountRefused(r: Request, a: Traffic, b: Traffic, head: seq<byte>)
    requires r.Read? && |head| == 14 && HeaderIs(head, ReplyCommand(r), 14)
    requires !(0 <= ReadCount(head) <= r.nbytes)
    requires b == a.(sent := a.sent + RequestBytes(r), received := a.received + head)
    ensures Lost(r, a, b)
  {
    HeaderOf(head, ReplyCommand(r), 14);
    LostReceiving(r, a, b, head);
  }

  lemma Beyond(x: seq<byte>, head: seq<byte>, y: seq<byte>)
    requires |head| == 14 && x + head <= y
    ensures var got := y[|x|..];
            y == x + got && |got| == |y| - |x| >= 14 && got[..14] == head && got[..HEADER_SIZE] == head[..HEADER_SIZE]
  {
    var got := y[|x|..];
    assert (x + head)[|x|..] == head;
    assert got[..14] == head;
    assert got[..14][..HEADER_SIZE] == got[..HEADER_SIZE];
  }

  /** The data of a read reply do not all come in. */
  lemma DataLost(r: Request, a: Traffic, b: Traffic, head: seq<byte>)
    requires r.Read? && |head| == 14 && HeaderIs(head, ReplyCommand(r), 14)
    requires 0 <= ReadCount(head) <= r.nbytes
    requires GaveUpReceiving(a.(sent := a.sent + RequestBytes(r), received := a.received + head), b, ReadCount(head))
    ensures Lost(r, a, b)
  {
    var got := b.received[|a.received|..];
    HeaderOf(head, ReplyCommand(r), 14);
    Beyond(a.received, head, b.received);
    LostReceiving(r, a, b, got);
  }

  /** The count of a write reply is refused. */
  lemma ProgressRefused(r: Request, a: Traffic, b: Traffic, reply: seq<byte>)
    requires r.Write? && r.Valid() && |reply| == 10 && HeaderIs(reply, ReplyCommand(r), 10)
    requires RetVal(reply) == 0 || RetVal(reply) > |r.data|
    requires b == a.(sent := a.sent + RequestBytes(r), received := a.received + reply)
    ensures Lost(r, a, b)
  {
    HeaderOf(reply, ReplyCommand(r), 10);
    LostReceiving(r, a, b, reply);
  }

  /** A packet built field by field. */
  lemma TwoFields(r: Request, x: seq<byte>, y: seq<byte>)
    requires r.Valid() && Fields(r) == x + y
    ensures Header(Command(r), PacketSize(r)) + x + y == Packet(r)
  {
    Associative(Header(Command(r), PacketSize(r)), x, y);
  }

  lemma ThreeFields(r: Request, x: seq<byte>, y: seq<byte>, z: seq<byte>)
    requires r.Valid() && Fields(r) == x + (y + z)
    ensures Header(Command(r), PacketSize(r)) + x + y + z == Packet(r)
  {
    Associative(Header(Command(r), PacketSize(r)), x, y + z);
    Associative(Header(Command(r), PacketSize(r)) + x, y, z);
  }

  lemma Behind(now: seq<byte>, was: seq<byte>, i: nat, j: nat)
    requires i <= j <= |now| == |was| && now[i..] == was[i..]
    ensures now[j..] == was[j..]
  {
    DropDrop(now, i, j - i);
    DropDrop(was, i, j - i);
  }

  lemma SentNothing(m: map<int, Stream>, s: int, a: Traffic)
    ensures AddSent(m, s, []) == m && a == a.(sent := a.sent + [])
  {
    AddNothing(m, s);
    assert a.sent + [] == a.sent;
  }

  lemma ReceivedNothing(m: map<int, Stream>, s: int, a: Traffic)
    ensures AddReceived(m, s, []) == m && a == a.(received := a.received + [])
  {
    AddNothing(m, s);
    assert a.received + [] == a.received;
  }

  class FileClient {
    const lwip: Stack
    const sendPacket: array<byte>
    const recvPacket: array<byte>
    var sock: int
    var active: bool

    ghost predicate Valid()
      reads this, lwip
    {
      sendPacket.Length == PACKET_LIMIT && recvPacket.Length == PACKET_LIMIT &&
      sendPacket != recvPacket &&
      (sock == -1 || (sock >= 0 && sock in lwip.streams))
    }

    ghost function Now(): Link
      requires Valid()
      reads this, lwip
    {
      if sock < 0 then Down
      else Up(sock, lwip.streams[sock].sent, lwip.streams[sock].received)
    }

    constructor (lwip: Stack)
      ensures Valid() && Now() == Down && this.lwip == lwip
      ensures fresh(sendPacket) && fresh(recvPacket)
    {
      this.lwip := lwip;
      sendPacket := new byte[PACKET_LIMIT](_ => 0);
      recvPacket := new byte[PACKET_LIMIT](_ => 0);
      sock, active := -1, false;
    }

    /** The socket is given up before it is disconnected. */
    method CloseSocket()
      requires Valid()
      modifies this`sock, lwip`streams
      ensures Valid() && Now() == Down
      ensures lwip.streams == if old(sock) < 0 then old(lwip.streams) else old(lwip.streams) - {old(sock)}
    {
      var s := sock;
      sock := -1;
      if s < 0 {
        return;
      }
      var ret := lwip.Disconnect(s);
    }

    method CloseFsys()
      requires Valid()
      modifies this, lwip`streams
      ensures Valid() && Now() == Down && !active
    {
      active := false;
      CloseSocket();
    }

    /** All of the bytes go out, or the current socket is closed. */
    method SendAll(s: int, buf: array<byte>, len: nat) returns (ret: int)
      requires Valid() && len <= buf.Length
      modifies this`sock, lwip
      ensures Valid()
      ensures ret == -1 || ret == len
      ensures ret == len ==>
                sock == old(sock) && lwip.streams == AddSent(old(lwip.streams), s, buf[..len])
      ensures ret == -1 ==> sock == -1
      ensures sock != old(sock) ==> sock == -1 && old(sock) !in lwip.streams
      ensures ret == len ==> lwip.all == old(lwip.all).(sent := old(lwip.all).sent + buf[..len])
      ensures ret == -1 ==> GaveUpSending(old(lwip.all), lwip.all, buf[..len])
    {
      var sent := 0;
      ghost var gone: seq<byte> := [];
      SentNothing(lwip.streams, s, lwip.all);
      while sent < len
        invariant sent == |gone| <= len && gone == buf[..sent] && sock == old(sock) && Valid()
        invariant lwip.streams == AddSent(old(lwip.streams), s, gone)
        invariant lwip.all == old(lwip.all).(sent := old(lwip.all).sent + gone)
      {
        var n;
        n, gone := SendSome(s, buf, sent, len, gone, old(lwip.streams), old(lwip.all));
        if n <= 0 {
          CloseSocket();
          return -1;
        }
        sent := sent + n;
      }
      ret := sent;
    }

    /** One send() of that loop, of whose bytes `gone` have gone out. */
    method SendSome(s: int, buf: array<byte>, sent: nat, len: nat, ghost gone: seq<byte>,
                    ghost m: map<int, Stream>, ghost a: Traffic)
      returns (n: int, ghost more: seq<byte>)
      requires Valid() && sent < len <= buf.Length && gone == buf[..sent]
      requires lwip.streams == AddSent(m, s, gone) && lwip.all == a.(sent := a.sent + gone)
      modifies lwip
      ensures Valid() && n <= len - sent && lwip.streams == AddSent(m, s, more)
      ensures n > 0 ==> more == buf[..sent + n] && lwip.all == a.(sent := a.sent + more)
      ensures n <= 0 ==> more == gone && GaveUpSending(a, lwip.all, buf[..len])
    {
      n := lwip.Send(s, buf, sent, len - sent);
      if n <= 0 {
        TakeIsPrefix(buf[..len], sent, []);
        assert buf[..len][..sent] == gone;
        SentNothing(AddSent(m, s, gone), s, lwip.all);
        return n, gone;
      }
      more := gone + buf[sent..sent + n];
      AddTwice(m, s, gone, buf[sent..sent + n]);
      Associative(a.sent, gone, buf[sent..sent + n]);
    }

    /** Exactly this many bytes come in, or the current socket is closed. */
    method RecvBytes(s: int, buf: array<byte>, off: nat, bytes: nat) returns (ret: int)
      requires Valid() && off + bytes <= buf.Length
      modifies this`sock, lwip, buf
      ensures Valid()
      ensures ret == -1 || ret == bytes
      ensures buf[..off] == old(buf[..off]) && buf[off + bytes..] == old(buf[off + bytes..])
      ensures ret == bytes ==>
                sock == old(sock) &&
                lwip.streams == AddReceived(old(lwip.streams), s, buf[off..off + bytes])
      ensures ret == -1 ==> sock == -1
      ensures sock != old(sock) ==> sock == -1 && old(sock) !in lwip.streams
      ensures ret == bytes ==> lwip.all == old(lwip.all).(received := old(lwip.all).received + buf[off..off + bytes])
      ensures ret == -1 ==> GaveUpReceiving(old(lwip.all), lwip.all, bytes)
    {
      var left := bytes;
      ghost var got: seq<byte> := [];
      ReceivedNothing(lwip.streams, s, lwip.all);
      while left > 0
        invariant 0 <= left <= bytes && sock == old(sock) && Valid()
        invariant |got| == bytes - left && buf[off..off + |got|] == got
        invariant buf[..off] == old(buf[..off]) && buf[off + bytes..] == old(buf[off + bytes..])
        invariant lwip.streams == AddReceived(old(lwip.streams), s, got)
        invariant lwip.all == old(lwip.all).(received := old(lwip.all).received + got)
      {
        var n;
        n, got := RecvSome(s, buf, off, bytes, left, got, old(lwip.streams), old(lwip.all));
        if n <= 0 {
          CloseSocket();
          return -1;
        }
        left := left - n;
      }
      ret := bytes;
    }

    /** One recv() of that loop, which has already put `got` into the buffer. */
    method RecvSome(s: int, buf: array<byte>, off: nat, bytes: nat, left: nat, ghost got: seq<byte>,
                    ghost m: map<int, Stream>, ghost a: Traffic)
      returns (n: int, ghost more: seq<byte>)
      requires Valid() && 0 < left <= bytes && off + bytes <= buf.Length
      requires |got| == bytes - left && buf[off..off + |got|] == got
      requires lwip.streams == AddReceived(m, s, got) && lwip.all == a.(received := a.received + got)
      modifies lwip, buf
      ensures Valid() && n <= left
      ensures buf[..off] == old(buf[..off]) && buf[off + bytes..] == old(buf[off + bytes..])
      ensures lwip.streams == AddReceived(m, s, more)
      ensures n > 0 ==>
                |more| == |got| + n && buf[off..off + |more|] == more && lwip.all == a.(received := a.received + more)
      ensures n <= 0 ==> more == got && GaveUpReceiving(a, lwip.all, bytes)
    {
      var at := off + bytes - left;
      ghost var was := buf[..];
      n := lwip.Recv(s, buf, at, left);
      Received(was, buf[..], off, at, if n > 0 then n else 0, off + bytes);
      assert buf[..][..off] == buf[..off] && buf[..][off + bytes..] == buf[off + bytes..];
      if n <= 0 {
        ReceivedNothing(AddReceived(m, s, got), s, lwip.all);
        return n, got;
      }
      more := got + buf[at..at + n];
      assert buf[..][off..at + n] == buf[off..at + n] && was[off..at] == got;
      AddTwice(m, s, got, buf[at..at + n]);
      Associative(a.received, got, buf[at..at + n]);
    }

    /** One whole packet with the expected header comes in, or the current socket
        is closed: a stream is never resynchronised. */
    method AcceptPkt(s: int, buf: array<byte>, len: int, pktType: u32) returns (ok: bool)
      requires Valid()
      requires HEADER_SIZE <= len <= PACKET_LIMIT ==> len <= buf.Length
      modifies this`sock, lwip, buf
      ensures Valid()
      ensures !ok ==> sock == -1
      ensures sock != old(sock) ==> sock == -1 && old(sock) !in lwip.streams
      ensures ok ==>
                0 <= len <= buf.Length && HeaderIs(buf[..len], pktType, len) && sock == old(sock) &&
                lwip.streams == AddReceived(old(lwip.streams), s, buf[..len]) &&
                lwip.all == old(lwip.all).(received := old(lwip.all).received + buf[..len])
      ensures !ok ==>
                if 6 <= len <= 4096 then GaveUpPacket(old(lwip.all), lwip.all, pktType, len)
                else lwip.all == old(lwip.all)
    {
      if len < HEADER_SIZE || len > PACKET_LIMIT {
        CloseSocket();
        return false;
      }
      var length := RecvBytes(s, buf, 0, HEADER_SIZE);
      if length < 0 {
        return false;
      }
      ghost var head := buf[..HEADER_SIZE];
      assert buf[0..HEADER_SIZE] == head;
      var hcmd, hlen := ReadHeader(buf);
      HeaderRead(head, pktType, len);
      if hcmd == pktType && hlen == len {
        length := RecvBytes(s, buf, HEADER_SIZE, hlen - HEADER_SIZE);
        ok := length == hlen - HEADER_SIZE;
        if !ok {
          GaveUpBehind(old(lwip.all), head, lwip.all, pktType, len);
          return;
        }
        Associative(old(lwip.all).received, head, buf[HEADER_SIZE..len]);
        AddTwice(old(lwip.streams), s, head, buf[HEADER_SIZE..len]);
        assert buf[..len] == head + buf[HEADER_SIZE..len];
        assert buf[..len][..4] == head[..4] && buf[..len][4..6] == head[4..6];
        return;
      }
      WrongHeader(old(lwip.all), head, pktType, len);
      CloseSocket();
      return false;
    }

    /** ntohl and ntohs of the header fields of a packet. */
    method ReadHeader(buf: array<byte>) returns (cmd: u32, len: u16)
      requires buf.Length >= HEADER_SIZE
      ensures cmd == Be32(buf[..HEADER_SIZE][..4]) && len == Be16(buf[..HEADER_SIZE][4..6])
    {
      assert buf[..HEADER_SIZE][..4] == buf[..4] && buf[..HEADER_SIZE][4..6] == buf[4..6];
      LoadedIsBe(buf[..4]);
      Loaded16IsBe(buf[4..6]);
      cmd, len := Htonl(Load32(buf[..4])), Htons(Load16(buf[4..6]));
    }

    /** An assignment to a packed field of the request in send_packet. */
    method Put(off: nat, s: seq<byte>)
      requires off + |s| <= sendPacket.Length
      modifies sendPacket
      ensures sendPacket[..off + |s|] == old(sendPacket[..off]) + s
    {
      forall i | 0 <= i < |s| {
        sendPacket[off + i] := s[i];
      }
    }

    /** A field converted with htonl. */
    method PutNet32(off: nat, w: u32)
      requires off + 4 <= sendPacket.Length
      modifies sendPacket
      ensures sendPacket[..off + 4] == old(sendPacket[..off]) + Wire32(w)
    {
      StoredIsWire(w);
      Put(off, Store32(Htonl(w)));
    }

    method PutHeader(cmd: u32, len: u16)
      requires HEADER_SIZE <= sendPacket.Length
      modifies sendPacket
      ensures sendPacket[..HEADER_SIZE] == Header(cmd, len)
    {
      PutNet32(0, cmd);
      Stored16IsWire(len);
      Put(4, Store16(Htons(len)));
    }

    /** strncpy of a path, and the NUL that is forced into its last byte. */
    method PutPath(off: nat, path: cstring)
      requires off + MAX_PATH <= sendPacket.Length
      modifies sendPacket
      ensures sendPacket[..off + MAX_PATH] == old(sendPacket[..off]) + PathField(path)
    {
      Put(off, Strncpy(path + [0], MAX_PATH));
      sendPacket[off + MAX_PATH - 1] := 0;
      CStrOfPadded(path, [0]);
    }

    /** The request in send_packet goes out and its reply comes in. */
    method Transact(ghost r: Request, size: nat, replySize: int, replyType: u32) returns (ok: bool)
      requires Valid() && sock >= 0 && r.Valid() && !r.Write?
      requires size == PacketSize(r) && sendPacket[..size] == Packet(r)
      requires replySize == ReplySize(r) && replyType == ReplyCommand(r)
      modifies this`sock, lwip, recvPacket
      ensures Valid()
      ensures !ok ==> Now() == Down
      ensures sock != old(sock) ==> sock == -1 && old(sock) !in lwip.streams
      ensures ok ==> HeaderIs(recvPacket[..replySize], replyType, replySize)
      ensures ok ==> Now() == Up(old(sock), old(Now()).sent + RequestBytes(r),
                                 old(Now()).received + recvPacket[..replySize])
      ensures !ok ==> Lost(r, old(lwip.all), lwip.all)
      ensures ok ==> lwip.all == old(lwip.all).(sent := old(lwip.all).sent + RequestBytes(r),
                                                received := old(lwip.all).received + recvPacket[..replySize])
    {
      var sent := SendAll(sock, sendPacket, size);
      if sent < 0 {
        ghost var k := PrefixSent(old(lwip.all), lwip.all, Packet(r));
        LostSending(r, old(lwip.all), lwip.all, k);
        return false;
      }
      ghost var a := lwip.all;
      ok := AcceptPkt(sock, recvPacket, replySize, replyType);
      if !ok {
        GaveUpIsLost(r, old(lwip.all), a, lwip.all);
      }
    }

    /** ntohl of the value field of the reply. */
    method ReplyValue() returns (ret: i32)
      requires recvPacket.Length >= 10
      ensures forall n :: 10 <= n <= recvPacket.Length ==> ret == RetVal(recvPacket[..n])
    {
      assert forall n :: 10 <= n <= recvPacket.Length ==> recvPacket[..n][6..10] == recvPacket[6..10];
      LoadedIsBe(recvPacket[6..10]);
      ret := Signed(Htonl(Load32(recvPacket[6..10])));
    }

    /** ntohl of the byte count of a read reply. */
    method ReplyCount() returns (n: i32)
      requires recvPacket.Length >= 14
      ensures n == ReadCount(recvPacket[..14])
    {
      assert recvPacket[..14][10..14] == recvPacket[10..14];
      LoadedIsBe(recvPacket[10..14]);
      n := Signed(Htonl(Load32(recvPacket[10..14])));
    }

    method OpenFile(path: cstring, flags: i32) returns (ret: i32)
      requires Valid()
      modifies this`sock, lwip, sendPacket, recvPacket
      ensures sock != old(sock) ==> sock == -1 && old(sock) !in lwip.streams
      ensures Valid() && Attempted(old(Now()), Open(path, flags), ret, Now(), old(lwip.all), lwip.all)
    {
      if sock < 0 {
        return -1;
      }
      ghost var r := Open(path, flags);
      PutHeader(0xbabe_0111, 266);
      PutNet32(6, Unsigned(flags));
      PutPath(10, path);
      TwoFields(r, Wire32(Unsigned(flags)), PathField(path));
      assert sendPacket[..266] == Packet(r);
      var ok := Transact(r, 266, 10, 0xbabe_0112);
      if !ok {
        return -1;
      }
      ret := ReplyValue();
      AttemptServed(old(Now()), r, ret, old(lwip.all), lwip.all, recvPacket[..10]);
    }

    method CloseFile(fd: i32) returns (ret: i32)
      requires Valid()
      modifies this`sock, lwip, sendPacket, recvPacket
      ensures sock != old(sock) ==> sock == -1 && old(sock) !in lwip.streams
      ensures Valid() && Attempted(old(Now()), Close(fd), ret, Now(), old(lwip.all), lwip.all)
    {
      if sock < 0 {
        return -1;
      }
      ghost var r := Close(fd);
      PutHeader(0xbabe_0121, 10);
      PutNet32(6, Unsigned(fd));
      assert sendPacket[..10] == Packet(r);
      var ok := Transact(r, 10, 10, 0xbabe_0122);
      if !ok {
        return -1;
      }
      ret := ReplyValue();
      AttemptServed(old(Now()), r, ret, old(lwip.all), lwip.all, recvPacket[..10]);
    }

    method LseekFile(fd: i32, offset: u32, whence: i32) returns (ret: i32)
      requires Valid()
      modifies this`sock, lwip, sendPacket, recvPacket
      ensures sock != old(sock) ==> sock == -1 && old(sock) !in lwip.streams
      ensures Valid() && Attempted(old(Now()), Lseek(fd, offset, whence), ret, Now(), old(lwip.all), lwip.all)
    {
      if sock < 0 {
        return -1;
      }
      ghost var r := Lseek(fd, offset, whence);
      PutHeader(0xbabe_0151, 18);
      PutNet32(6, Unsigned(fd));
      PutNet32(10, offset);
      PutNet32(14, Unsigned(whence));
      ThreeFields(r, Wire32(Unsigned(fd)), Wire32(offset), Wire32(Unsigned(whence)));
      assert sendPacket[..18] == Packet(r);
      var ok := Transact(r, 18, 10, 0xbabe_0152);
      if !ok {
        return -1;
      }
      ret := ReplyValue();
      AttemptServed(old(Now()), r, ret, old(lwip.all), lwip.all, recvPacket[..10]);
    }

    /** The packet in send_packet goes out, and the data behind it. */
    method SendWrite(ghost r: Request, buf: array<byte>, length: i32) returns (ok: bool)
      requires Valid() && sock >= 0 && 0 < length <= buf.Length && r.Write? && r.data == buf[..length]
      requires sendPacket[..14] == Packet(r)
      modifies this`sock, lwip
      ensures Valid()
      ensures sock != old(sock) ==> sock == -1 && old(sock) !in lwip.streams
      ensures ok ==>
                Now() == Up(old(sock), old(Now()).sent + RequestBytes(r), old(Now()).received) &&
                lwip.all == old(lwip.all).(sent := old(lwip.all).sent + RequestBytes(r))
      ensures !ok ==> Now() == Down && Lost(r, old(lwip.all), lwip.all)
    {
      var sent := SendAll(sock, sendPacket, 14);
      if sent < 0 {
        NothingSent(old(lwip.all), Packet(r), r.data);
        WriteLost(r, old(lwip.all), old(lwip.all), lwip.all, [], Packet(r));
        return false;
      }
      ghost var a := lwip.all;
      sent := SendAll(sock, buf, length);
      if sent < 0 {
        WriteLost(r, old(lwip.all), a, lwip.all, Packet(r), r.data);
        return false;
      }
      AddTwice(old(lwip.streams), sock, Packet(r), r.data);
      Associative(old(lwip.all).sent, Packet(r), r.data);
      return true;
    }

    /** The whole length is announced in one request and its data follow. */
    method WriteFile(fd: i32, buf: array<byte>, length: i32) returns (ret: i32)
      requires Valid() && length <= buf.Length && buf != sendPacket && buf != recvPacket
      modifies this`sock, lwip, sendPacket, recvPacket
      ensures sock != old(sock) ==> sock == -1 && old(sock) !in lwip.streams
      ensures Valid()
      ensures length <= 0 ==> Now() == old(Now()) && lwip.all == old(lwip.all)
      ensures length <= 0 ==> ret == if old(Now()).Up? && length == 0 then 0 else -1
      ensures length > 0 ==> Attempted(old(Now()), Write(fd, buf[..length]), ret, Now(), old(lwip.all), lwip.all)
    {
      if sock < 0 || length < 0 {
        return -1;
      }
      if length == 0 {
        return 0;
      }
      ghost var r := Write(fd, buf[..length]);
      PutHeader(0xbabe_0141, 14);
      PutNet32(6, Unsigned(fd));
      PutNet32(10, length);
      TwoFields(r, Wire32(Unsigned(fd)), Wire32(length));
      assert sendPacket[..14] == Packet(r);
      var ok := SendWrite(r, buf, length);
      if !ok {
        return -1;
      }
      ret := WriteReply(old(Now()), r, length, old(lwip.all));
    }

    /** The reply to a write that has gone out whole on the link `l`. */
    method WriteReply(ghost l: Link, ghost r: Request, length: i32, ghost a: Traffic) returns (ret: i32)
      requires Valid() && r.Write? && r.Valid() && 0 < length == |r.data| && l.Up? && sock == l.sock
      requires Now() == Up(sock, l.sent + RequestBytes(r), l.received)
      requires lwip.all == a.(sent := a.sent + RequestBytes(r))
      modifies this`sock, lwip, recvPacket
      ensures sock != old(sock) ==> sock == -1 && old(sock) !in lwip.streams
      ensures Valid() && Attempted(l, r, ret, Now(), a, lwip.all)
    {
      var ok := AcceptPkt(sock, recvPacket, 10, 0xbabe_0142);
      if !ok {
        GaveUpIsLost(r, a, old(lwip.all), lwip.all);
        return -1;
      }
      ret := ReplyValue();
      CountsValid(ret, length);
      if ret >= 0 && !WriteProgressValid(ret, length) {
        ProgressRefused(r, a, lwip.all, recvPacket[..10]);
        CloseSocket();
        return -1;
      }
      AttemptServed(l, r, ret, a, lwip.all, recvPacket[..10]);
    }

    /** The reply announces how much data follow it; they go into the caller's
        buffer, the rest of which is left alone. */
    method ReadFile(fd: i32, buf: array<byte>, length: i32) returns (ret: i32)
      requires Valid() && length <= buf.Length && buf != sendPacket && buf != recvPacket
      modifies this`sock, lwip, sendPacket, recvPacket, buf
      ensures sock != old(sock) ==> sock == -1 && old(sock) !in lwip.streams
      ensures Valid()
      ensures length < 0 ==>
                ret == -1 && Now() == old(Now()) && lwip.all == old(lwip.all) && buf[..] == old(buf[..])
      ensures length >= 0 ==> Attempted(old(Now()), Read(fd, length), ret, Now(), old(lwip.all), lwip.all)
      ensures length >= 0 ==> buf[length..] == old(buf[length..])
      ensures length >= 0 && Now().Up? ==>
                buf[..ret] == ReadData(Now().received[|old(Now()).received|..]) && buf[ret..] == old(buf[ret..])
    {
      if sock < 0 {
        return -1;
      }
      PutHeader(0xbabe_0131, 14);
      PutNet32(6, Unsigned(fd));
      if length < 0 {
        return -1;
      }
      PutNet32(10, length);
      ghost var r := Read(fd, length);
      TwoFields(r, Wire32(Unsigned(fd)), Wire32(length));
      assert sendPacket[..14] == Packet(r);
      var ok := Transact(r, 14, 14, 0xbabe_0132);
      if !ok {
        return -1;
      }
      ret := ReadReplyData(old(Now()), r, buf, length, old(lwip.all));
    }

    /** The data behind the header of a read reply, which has come in after the
        request went out on the link `l`. */
    method ReadReplyData(ghost l: Link, ghost r: Request, buf: array<byte>, length: i32, ghost a: Traffic)
      returns (ret: i32)
      requires Valid() && r.Read? && r.nbytes == length <= buf.Length && buf != sendPacket && buf != recvPacket
      requires HeaderIs(recvPacket[..14], ReplyCommand(r), 14) && l.Up? && sock == l.sock
      requires Now() == Up(sock, l.sent + RequestBytes(r), l.received + recvPacket[..14])
      requires lwip.all == a.(sent := a.sent + RequestBytes(r), received := a.received + recvPacket[..14])
      modifies this`sock, lwip, buf
      ensures sock != old(sock) ==> sock == -1 && old(sock) !in lwip.streams
      ensures Valid() && Attempted(l, r, ret, Now(), a, lwip.all) && buf[length..] == old(buf[length..])
      ensures Now().Up? ==> buf[..ret] == ReadData(Now().received[|l.received|..]) && buf[ret..] == old(buf[ret..])
    {
      ghost var reply := recvPacket[..14];
      var nbytes := ReplyCount();
      CountsValid(nbytes, length);
      if !ReadLengthValid(nbytes, length) {
        CountRefused(r, a, lwip.all, reply);
        CloseSocket();
        return -1;
      }
      var got := RecvBytes(sock, buf, 0, nbytes);
      assert buf[length..] == old(buf[length..]) by {
        Behind(buf[..], old(buf[..]), nbytes, length);
      }
      if got < 0 {
        DataLost(r, a, lwip.all, reply);
        return -1;
      }
      ret := nbytes;
      ghost var data := buf[0..ret];
      assert data == buf[..ret];
      Associative(a.received, reply, data);
      FinishRead(l, r, reply, data, a);
    }

    method RemoveFile(path: cstring) returns (ret: i32)
      requires Valid()
      modifies this`sock, lwip, sendPacket, recvPacket
      ensures sock != old(sock) ==> sock == -1 && old(sock) !in lwip.streams
      ensures Valid() && Attempted(old(Now()), Remove(path), ret, Now(), old(lwip.all), lwip.all)
    {
      if sock < 0 {
        return -1;
      }
      ghost var r := Remove(path);
      PutHeader(0xbabe_0191, 262);
      PutPath(6, path);
      assert sendPacket[..262] == Packet(r);
      var ok := Transact(r, 262, 10, 0xbabe_0192);
      if !ok {
        return -1;
      }
      ret := ReplyValue();
      AttemptServed(old(Now()), r, ret, old(lwip.all), lwip.all, recvPacket[..10]);
    }

    /** The mode is stored without conversion. */
    method MakeDir(path: cstring, mode: i32) returns (ret: i32)
      requires Valid()
      modifies this`sock, lwip, sendPacket, recvPacket
      ensures sock != old(sock) ==> sock == -1 && old(sock) !in lwip.streams
      ensures Valid() && Attempted(old(Now()), Mkdir(path, mode), ret, Now(), old(lwip.all), lwip.all)
    {
      if sock < 0 {
        return -1;
      }
      ghost var r := Mkdir(path, mode);
      PutHeader(0xbabe_01a1, 266);
      Put(6, Store32(Unsigned(mode)));
      PutPath(10, path);
      TwoFields(r, Store32(Unsigned(mode)), PathField(path));
      assert sendPacket[..266] == Packet(r);
      var ok := Transact(r, 266, 10, 0xbabe_01a2);
      if !ok {
        return -1;
      }
      ret := ReplyValue();
      AttemptServed(old(Now()), r, ret, old(lwip.all), lwip.all, recvPacket[..10]);
    }

    method RemoveDir(path: cstring) returns (ret: i32)
      requires Valid()
      modifies this`sock, lwip, sendPacket, recvPacket
      ensures sock != old(sock) ==> sock == -1 && old(sock) !in lwip.streams
      ensures Valid() && Attempted(old(Now()), Rmdir(path), ret, Now(), old(lwip.all), lwip.all)
    {
      if sock < 0 {
        return -1;
      }
      ghost var r := Rmdir(path);
      PutHeader(0xbabe_01b1, 262);
      PutPath(6, path);
      assert sendPacket[..262] == Packet(r);
      var ok := Transact(r, 262, 10, 0xbabe_01b2);
      if !ok {
        return -1;
      }
      ret := ReplyValue();
      AttemptServed(old(Now()), r, ret, old(lwip.all), lwip.all, recvPacket[..10]);
    }

    method OpenDirectory(path: cstring) returns (ret: i32)
      requires Valid()
      modifies this`sock, lwip, sendPacket, recvPacket
      ensures sock != old(sock) ==> sock == -1 && old(sock) !in lwip.streams
      ensures Valid() && Attempted(old(Now()), OpenDir(path), ret, Now(), old(lwip.all), lwip.all)
    {
      if sock < 0 {
        return -1;
      }
      ghost var r := OpenDir(path);
      PutHeader(0xbabe_0161, 266);
      PutNet32(6, 0);
      PutPath(10, path);
      TwoFields(r, Wire32(0), PathField(path));
      assert sendPacket[..266] == Packet(r);
      var ok := Transact(r, 266, 10, 0xbabe_0162);
      if !ok {
        return -1;
      }
      ret := ReplyValue();
      AttemptServed(old(Now()), r, ret, old(lwip.all), lwip.all, recvPacket[..10]);
    }

    method CloseDirectory(fd: i32) returns (ret: i32)
      requires Valid()
      modifies this`sock, lwip, sendPacket, recvPacket
      ensures sock != old(sock) ==> sock == -1 && old(sock) !in lwip.streams
      ensures Valid() && Attempted(old(Now()), CloseDir(fd), ret, Now(), old(lwip.all), lwip.all)
    {
      if sock < 0 {
        return -1;
      }
      ghost var r := CloseDir(fd);
      PutHeader(0xbabe_0171, 10);
      PutNet32(6, Unsigned(fd));
      assert sendPacket[..10] == Packet(r);
      var ok := Transact(r, 10, 10, 0xbabe_0172);
      if !ok {
        return -1;
      }
      ret := ReplyValue();
      AttemptServed(old(Now()), r, ret, old(lwip.all), lwip.all, recvPacket[..10]);
    }

    /** The entry is handed on whatever the returned value; its name keeps a
        terminator only if the reply has one. */
    method ReadDirectory(fd: i32, entry: IoDirent) returns (ret: i32)
      requires Valid()
      modifies this`sock, lwip, sendPacket, recvPacket, entry
      ensures sock != old(sock) ==> sock == -1 && old(sock) !in lwip.streams
      ensures Valid() && Attempted(old(Now()), ReadDir(fd), ret, Now(), old(lwip.all), lwip.all)
      ensures Now().Up? ==>
                var reply := Now().received[|old(Now()).received|..];
                entry.stat == StatOf(reply) && entry.name == Strncpy(reply[50..306], 256)
      ensures Now().Down? ==> unchanged(entry)
    {
      if sock < 0 {
        return -1;
      }
      ghost var r := ReadDir(fd);
      PutHeader(0xbabe_0181, 10);
      PutNet32(6, Unsigned(fd));
      assert sendPacket[..10] == Packet(r);
      var ok := Transact(r, 10, 306, 0xbabe_0182);
      if !ok {
        return -1;
      }
      FillEntry(entry);
      ret := ReplyValue();
      AttemptServed(old(Now()), r, ret, old(lwip.all), lwip.all, recvPacket[..306]);
      Parts(old(Now()).received, recvPacket[..306], 0, 0);
    }

    /** The entry of a readdir reply; its name is copied as strncpy would. */
    method FillEntry(entry: IoDirent)
      requires recvPacket.Length >= 306
      modifies entry
      ensures entry.stat == StatOf(recvPacket[..306]) && entry.name == Strncpy(recvPacket[..306][50..306], 256)
    {
      entry.stat := ReplyStat();
      entry.name := Strncpy(recvPacket[50..306], 256);
      assert recvPacket[50..306] == recvPacket[..306][50..306];
    }

    /** The caller's structure is filled in only when the host reports success. */
    method GetStatus(path: cstring, out: IoStat) returns (ret: i32)
      requires Valid()
      modifies this`sock, lwip, sendPacket, recvPacket, out
      ensures sock != old(sock) ==> sock == -1 && old(sock) !in lwip.streams
      ensures Valid() && Attempted(old(Now()), GetStat(path), ret, Now(), old(lwip.all), lwip.all)
      ensures Now().Up? && ret == 0 ==> out.stat == StatOf(Now().received[|old(Now()).received|..])
      ensures Now().Down? || ret != 0 ==> unchanged(out)
    {
      if sock < 0 {
        return -1;
      }
      ghost var r := GetStat(path);
      PutHeader(0xbabe_01c1, 262);
      PutPath(6, path);
      assert sendPacket[..262] == Packet(r);
      var ok := Transact(r, 262, 50, 0xbabe_01c2);
      if !ok {
        return -1;
      }
      ret := ReplyValue();
      if ret == 0 {
        out.stat := ReplyStat();
      }
      AttemptServed(old(Now()), r, ret, old(lwip.all), lwip.all, recvPacket[..50]);
      Parts(old(Now()).received, recvPacket[..50], 0, 0);
    }

    method ReplyStat() returns (s: StatValue)
      requires recvPacket.Length >= 50
      ensures forall n :: 50 <= n <= recvPacket.Length ==> s == StatOf(recvPacket[..n])
    {
      var p := recvPacket;
      s := StatValue(Htonl(Load32(p[10..14])), Htonl(Load32(p[14..18])), Htonl(Load32(p[18..22])),
                     Htonl(Load32(p[46..50])), p[22..46]);
      LoadedIsBe(p[10..14]);
      LoadedIsBe(p[14..18]);
      LoadedIsBe(p[18..22]);
      LoadedIsBe(p[46..50]);
      forall n | 50 <= n <= p.Length ensures s == StatOf(p[..n]) {
        var q := p[..n];
        assert q[10..14] == p[10..14] && q[14..18] == p[14..18] && q[18..22] == p[18..22];
        assert q[46..50] == p[46..50] && q[22..46] == p[22..46];
      }
    }

    /** One turn of the accept loop: a new client replaces the old one. */
    method AcceptClient() returns (client: int)
      requires Valid()
      modifies this`sock, lwip
      ensures Valid()
      ensures client < 0 ==> Now() == old(Now())
      ensures client >= 0 ==> Now() == Up(client, [], [])
      ensures client >= 0 <==> lwip.all.accepts > old(lwip.all).accepts
      ensures client >= 0 && old(sock) >= 0 ==> client != old(sock) && old(sock) !in lwip.streams
    {
      client := lwip.Accept();
      if client < 0 {
        return;
      }
      if sock >= 0 {
        CloseSocket();
      }
      sock := client;
    }
  }
}
