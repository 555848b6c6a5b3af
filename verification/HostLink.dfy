/** include/hostlink.h: the packets of the host: file protocol, their sizes and
    command words, and a server-side decoder that knows nothing of the client. */
module HostLink {
  import opened Bytes
  import opened ByteOrder
  import opened Wrappers

  const MAX_PATH: nat := 256
  const HEADER_SIZE: nat := 6

  /** One request of the protocol, as the client means it. */
  datatype Request =
    | Open(path: cstring, flags: i32)
    | Close(fd: i32)
    | Read(fd: i32, nbytes: len32)
    | Write(fd: i32, data: seq<byte>)
    | Lseek(fd: i32, offset: u32, whence: i32)
    | OpenDir(path: cstring)
    | CloseDir(fd: i32)
    | ReadDir(fd: i32)
    | Remove(path: cstring)
    | Mkdir(path: cstring, mode: i32)
    | Rmdir(path: cstring)
    | GetStat(path: cstring)
  {
    /** The length of the data is held in an `int`. */
    predicate Valid() {
      Write? ==> |data| < 0x8000_0000
    }
  }

  /** PKO_*_CMD; the reply to a command is the next number, PKO_*_RLY. */
  function Command(r: Request): u32 {
    match r
    case Open(_, _) => 0xbabe_0111
    case Close(_) => 0xbabe_0121
    case Read(_, _) => 0xbabe_0131
    case Write(_, _) => 0xbabe_0141
    case Lseek(_, _, _) => 0xbabe_0151
    case OpenDir(_) => 0xbabe_0161
    case CloseDir(_) => 0xbabe_0171
    case ReadDir(_) => 0xbabe_0181
    case Remove(_) => 0xbabe_0191
    case Mkdir(_, _) => 0xbabe_01a1
    case Rmdir(_) => 0xbabe_01b1
    case GetStat(_) => 0xbabe_01c1
  }

  function ReplyCommand(r: Request): u32 {
    Command(r) + 1
  }

  /** sizeof the request structure. */
  function PacketSize(r: Request): u16 {
    match r
    case Open(_, _) => 266
    case Close(_) => 10
    case Read(_, _) => 14
    case Write(_, _) => 14
    case Lseek(_, _, _) => 18
    case OpenDir(_) => 266
    case CloseDir(_) => 10
    case ReadDir(_) => 10
    case Remove(_) => 262
    case Mkdir(_, _) => 266
    case Rmdir(_) => 262
    case GetStat(_) => 262
  }

  /** sizeof the reply structure. */
  function ReplySize(r: Request): u16 {
    match r
    case Read(_, _) => 14
    case ReadDir(_) => 306
    case GetStat(_) => 50
    case _ => 10
  }

  /** A path cut to 255 characters and padded with NULs to its 256 bytes. */
  function PathField(p: cstring): (s: seq<byte>)
    ensures |s| == MAX_PATH
  {
    if |p| < MAX_PATH then p + Zeros(MAX_PATH - |p|) else p[..MAX_PATH - 1] + [0]
  }

  function CutPath(p: cstring): cstring {
    if |p| < MAX_PATH then p else
      var s := p[..MAX_PATH - 1];
      assert forall c :: c in s ==> c in p;
      s
  }

  /** The fields that follow the header. `mode` is not converted to network
      order, so its bytes appear least significant first. */
  function Fields(r: Request): (s: seq<byte>)
    requires r.Valid()
    ensures HEADER_SIZE + |s| == PacketSize(r)
  {
    match r
    case Open(path, flags) => Wire32(Unsigned(flags)) + PathField(path)
    case Close(fd) => Wire32(Unsigned(fd))
    case Read(fd, n) => Wire32(Unsigned(fd)) + Wire32(n)
    case Write(fd, data) => Wire32(Unsigned(fd)) + Wire32(|data|)
    case Lseek(fd, offset, whence) =>
      Wire32(Unsigned(fd)) + (Wire32(offset) + Wire32(Unsigned(whence)))
    case OpenDir(path) => Wire32(0) + PathField(path)
    case CloseDir(fd) => Wire32(Unsigned(fd))
    case ReadDir(fd) => Wire32(Unsigned(fd))
    case Remove(path) => PathField(path)
    case Mkdir(path, mode) => Store32(Unsigned(mode)) + PathField(path)
    case Rmdir(path) => PathField(path)
    case GetStat(path) => PathField(path)
  }

  function Header(cmd: u32, size: u16): (s: seq<byte>)
    ensures |s| == HEADER_SIZE
  {
    Wire32(cmd) + Wire16(size)
  }

  /** The packet of a request, without write data. */
  function Packet(r: Request): (s: seq<byte>)
    requires r.Valid()
    ensures |s| == PacketSize(r)
  {
    Header(Command(r), PacketSize(r)) + Fields(r)
  }

  /** Everything a request puts on the stream. */
  function RequestBytes(r: Request): (s: seq<byte>)
    requires r.Valid()
  {
    if r.Write? then Packet(r) + r.data else Packet(r)
  }

  /** A request as the server reads it: the path cut, and a mkdir mode with its
      four bytes reversed. */
  function AsReceived(r: Request): Request {
    match r
    case Open(path, flags) => Open(CutPath(path), flags)
    case OpenDir(path) => OpenDir(CutPath(path))
    case Remove(path) => Remove(CutPath(path))
    case Mkdir(path, mode) => Mkdir(CutPath(path), Signed(Htonl(Unsigned(mode))))
    case Rmdir(path) => Rmdir(CutPath(path))
    case GetStat(path) => GetStat(CutPath(path))
    case _ => r
  }

  /** The big-endian word and the path at an offset of a packet. */
  function WordAt(s: seq<byte>, i: nat): u32
    requires i + 4 <= |s|
  {
    Be32(s[i..i + 4])
  }

  function PathAt(s: seq<byte>, i: nat): cstring
    requires i + MAX_PATH <= |s|
  {
    CStr(s[i..i + MAX_PATH])
  }

  /** A server's reading of a complete packet, write data excepted, from its
      command word and its layout alone. */
  function DecodePacket(s: seq<byte>): Option<Request>
    requires |s| >= HEADER_SIZE
  {
    var cmd := Be32(s[..4]);
    if cmd == 0xbabe_0111 && |s| == 266 then Some(Open(PathAt(s, 10), Signed(WordAt(s, 6))))
    else if cmd == 0xbabe_0121 && |s| == 10 then Some(Close(Signed(WordAt(s, 6))))
    else if cmd == 0xbabe_0131 && |s| == 14 && WordAt(s, 10) < 0x8000_0000 then
      Some(Read(Signed(WordAt(s, 6)), WordAt(s, 10)))
    else if cmd == 0xbabe_0141 && |s| == 14 && WordAt(s, 10) < 0x8000_0000 then
      Some(Write(Signed(WordAt(s, 6)), []))
    else if cmd == 0xbabe_0151 && |s| == 18 then
      Some(Lseek(Signed(WordAt(s, 6)), WordAt(s, 10), Signed(WordAt(s, 14))))
    else if cmd == 0xbabe_0161 && |s| == 266 then Some(OpenDir(PathAt(s, 10)))
    else if cmd == 0xbabe_0171 && |s| == 10 then Some(CloseDir(Signed(WordAt(s, 6))))
    else if cmd == 0xbabe_0181 && |s| == 10 then Some(ReadDir(Signed(WordAt(s, 6))))
    else if cmd == 0xbabe_0191 && |s| == 262 then Some(Remove(PathAt(s, 6)))
    else if cmd == 0xbabe_01a1 && |s| == 266 then Some(Mkdir(PathAt(s, 10), Signed(WordAt(s, 6))))
    else if cmd == 0xbabe_01b1 && |s| == 262 then Some(Rmdir(PathAt(s, 6)))
    else if cmd == 0xbabe_01c1 && |s| == 262 then Some(GetStat(PathAt(s, 6)))
    else None
  }

  /** A server's reading of one request at the head of a stream: the request
      and what is left, or None when no whole request is there. */
  function DecodeRequest(s: seq<byte>): (d: Option<(Request, seq<byte>)>)
    ensures d.Some? ==> |d.value.1| < |s|
  {
    if |s| < HEADER_SIZE then None else
      var size := Be16(s[4..6]);
      if size < HEADER_SIZE || |s| < size then None else
        match DecodePacket(s[..size])
        case None => None
        case Some(Write(fd, _)) =>
          var n := WordAt(s, 10);
          if |s| < size + n then None
          else Some((Write(fd, s[size..size + n]), s[size + n..]))
        case Some(r) => Some((r, s[size..]))
  }

  /** All the whole requests of a stream. */
  function DecodeStream(s: seq<byte>): seq<Request>
    decreases |s|
  {
    match DecodeRequest(s)
    case None => []
    case Some((r, rest)) => [r] + DecodeStream(rest)
  }

  lemma PathFieldDecodes(p: cstring)
    ensures CStr(PathField(p)) == CutPath(p)
  {
    if |p| < MAX_PATH {
      CStrOfPadded(p, Zeros(MAX_PATH - |p|));
    } else {
      CStrOfPadded(CutPath(p), [0]);
    }
  }

  /** The path field, byte by byte. */
  lemma PathFieldAt(p: cstring, i: nat)
    requires i < 256
    ensures PathField(p)[i] == if i < |p| && i < 255 then p[i] else 0
    ensures CutPath(p) <= p && |CutPath(p)| == if |p| <= 255 then |p| else 255
  {
  }

  lemma HeaderOfPacket(r: Request)
    requires r.Valid()
    ensures Be32(Packet(r)[..4]) == Command(r)
    ensures Be16(Packet(r)[4..6]) == PacketSize(r)
  {
    assert Packet(r)[..4] == Wire32(Command(r));
    assert Packet(r)[4..6] == Wire16(PacketSize(r));
    BeWire32(Command(r));
  }

  lemma WordOfPacket(r: Request, pre: seq<byte>, w: u32, post: seq<byte>)
    requires r.Valid() && Fields(r) == pre + (Wire32(w) + post)
    ensures WordAt(Packet(r), HEADER_SIZE + |pre|) == w
  {
    var i := HEADER_SIZE + |pre|;
    assert Packet(r)[i..i + 4] == Wire32(w);
    BeWire32(w);
  }

  lemma IntOfPacket(r: Request, x: i32, post: seq<byte>)
    requires r.Valid() && Fields(r) == Wire32(Unsigned(x)) + post
    ensures Signed(WordAt(Packet(r), HEADER_SIZE)) == x
  {
    assert Fields(r) == [] + (Wire32(Unsigned(x)) + post);
    WordOfPacket(r, [], Unsigned(x), post);
    SignedUnsigned(x);
  }

  lemma PathOfPacket(r: Request, pre: seq<byte>, p: cstring)
    requires r.Valid() && Fields(r) == pre + PathField(p)
    ensures PathAt(Packet(r), HEADER_SIZE + |pre|) == CutPath(p)
  {
    var i := HEADER_SIZE + |pre|;
    assert Packet(r)[i..i + MAX_PATH] == PathField(p);
    PathFieldDecodes(p);
  }

  /** The words and the path of a packet are those of the request. */
  predicate FieldsMatch(s: seq<byte>, r: Request)
    requires |s| == PacketSize(r)
  {
    match r
    case Open(p, flags) => Signed(WordAt(s, 6)) == flags && PathAt(s, 10) == CutPath(p)
    case Close(fd) => Signed(WordAt(s, 6)) == fd
    case Read(fd, n) => Signed(WordAt(s, 6)) == fd && WordAt(s, 10) == n
    case Write(fd, data) => Signed(WordAt(s, 6)) == fd && WordAt(s, 10) == |data|
    case Lseek(fd, offset, whence) =>
      Signed(WordAt(s, 6)) == fd && WordAt(s, 10) == offset && Signed(WordAt(s, 14)) == whence
    case OpenDir(p) => WordAt(s, 6) == 0 && PathAt(s, 10) == CutPath(p)
    case CloseDir(fd) => Signed(WordAt(s, 6)) == fd
    case ReadDir(fd) => Signed(WordAt(s, 6)) == fd
    case Remove(p) => PathAt(s, 6) == CutPath(p)
    case Mkdir(p, mode) => WordAt(s, 6) == Htonl(Unsigned(mode)) && PathAt(s, 10) == CutPath(p)
    case Rmdir(p) => PathAt(s, 6) == CutPath(p)
    case GetStat(p) => PathAt(s, 6) == CutPath(p)
  }

  lemma LseekFields(r: Request)
    requires r.Lseek?
    ensures FieldsMatch(Packet(r), r)
  {
    var (a, b, c) := (Wire32(Unsigned(r.fd)), Wire32(r.offset), Wire32(Unsigned(r.whence)));
    IntOfPacket(r, r.fd, b + c);
    WordOfPacket(r, a, r.offset, c);
    assert Fields(r) == (a + b) + (c + []);
    WordOfPacket(r, a + b, Unsigned(r.whence), []);
    SignedUnsigned(r.whence);
  }

  lemma MkdirFields(r: Request)
    requires r.Mkdir?
    ensures FieldsMatch(Packet(r), r)
  {
    var w := Unsigned(r.mode);
    StoredIsWire(Htonl(w));
    HtonlTwice(w);
    assert Fields(r) == [] + (Wire32(Htonl(w)) + PathField(r.path));
    WordOfPacket(r, [], Htonl(w), PathField(r.path));
    PathOfPacket(r, Store32(w), r.path);
  }

  lemma NumberFields(r: Request)
    requires r.Valid() && (r.Close? || r.Read? || r.Write? || r.CloseDir? || r.ReadDir?)
    ensures FieldsMatch(Packet(r), r)
  {
    var fd := Wire32(Unsigned(r.fd));
    if r.Read? {
      IntOfPacket(r, r.fd, Wire32(r.nbytes));
      assert Fields(r) == fd + (Wire32(r.nbytes) + []);
      WordOfPacket(r, fd, r.nbytes, []);
    } else if r.Write? {
      IntOfPacket(r, r.fd, Wire32(|r.data|));
      assert Fields(r) == fd + (Wire32(|r.data|) + []);
      WordOfPacket(r, fd, |r.data|, []);
    } else {
      IntOfPacket(r, r.fd, []);
    }
  }

  lemma WordAndPath(r: Request, w: u32, p: cstring)
    requires r.OpenDir? && Fields(r) == Wire32(w) + PathField(p)
    ensures WordAt(Packet(r), 6) == w && PathAt(Packet(r), 10) == CutPath(p)
  {
    Associative(Wire32(w), PathField(p), []);
    WordOfPacket(r, [], w, PathField(p));
    PathOfPacket(r, Wire32(w), p);
  }

  lemma OpenDirFields(r: Request)
    requires r.OpenDir?
    ensures FieldsMatch(Packet(r), r)
  {
    WordAndPath(r, 0, r.path);
  }

  lemma PathFields(r: Request)
    requires r.Open? || r.OpenDir? || r.Remove? || r.Rmdir? || r.GetStat?
    ensures FieldsMatch(Packet(r), r)
  {
    if r.Open? {
      IntOfPacket(r, r.flags, PathField(r.path));
      PathOfPacket(r, Wire32(Unsigned(r.flags)), r.path);
    } else if r.OpenDir? {
      OpenDirFields(r);
    } else {
      PathOfPacket(r, [], r.path);
    }
  }

  lemma FieldsOfPacket(r: Request)
    requires r.Valid()
    ensures FieldsMatch(Packet(r), r)
  {
    if r.Lseek? {
      LseekFields(r);
    } else if r.Mkdir? {
      MkdirFields(r);
    } else if r.Open? || r.OpenDir? || r.Remove? || r.Rmdir? || r.GetStat? {
      PathFields(r);
    } else {
      NumberFields(r);
    }
  }

  /** The decoder needs only the command, the length and the fields. */
  lemma DecodesByFields(s: seq<byte>, r: Request)
    requires r.Valid() && |s| == PacketSize(r) && Be32(s[..4]) == Command(r) && FieldsMatch(s, r)
    ensures DecodePacket(s) == Some(if r.Write? then Write(r.fd, []) else AsReceived(r))
  {
  }

  function DataOf(r: Request): seq<byte> {
    if r.Write? then r.data else []
  }

  /** The parts of a stream that starts with given bytes. */
  lemma Parts(p: seq<byte>, t: seq<byte>, i: nat, j: nat)
    requires i <= j <= |p|
    ensures (p + t)[..|p|] == p && (p + t)[|p|..] == t && (p + t)[i..j] == p[i..j]
  {
  }

  lemma DecodesWithoutData(p: seq<byte>, r: Request, rest: seq<byte>)
    requires |p| >= HEADER_SIZE && Be16(p[4..6]) == |p| && DecodePacket(p) == Some(r) && !r.Write?
    ensures DecodeRequest(p + rest) == Some((r, rest))
  {
    Parts(p, rest, 4, 6);
  }

  lemma DecodesWithData(p: seq<byte>, fd: i32, data: seq<byte>, rest: seq<byte>)
    requires |p| == 14 && Be16(p[4..6]) == |p| && DecodePacket(p) == Some(Write(fd, []))
    requires WordAt(p, 10) == |data|
    ensures DecodeRequest(p + (data + rest)) == Some((Write(fd, data), rest))
  {
    var s := p + (data + rest);
    Parts(p, data + rest, 4, 6);
    Parts(p, data + rest, 10, 14);
    assert s[14..14 + |data|] == data && s[14 + |data|..] == rest by {
      Parts(data, rest, 0, 0);
      DropDrop(s, 14, |data|);
      SubSlice(s, 14, |s|, 0, |data|);
    }
  }

  /** A stream that starts with a packet that reads as `r`, and its data. */
  lemma DecodesAtHead(p: seq<byte>, r: Request, rest: seq<byte>)
    requires r.Valid() && |p| == PacketSize(r)
    requires Be32(p[..4]) == Command(r) && Be16(p[4..6]) == PacketSize(r) && FieldsMatch(p, r)
    ensures DecodeRequest(p + (DataOf(r) + rest)) == Some((AsReceived(r), rest))
  {
    DecodesByFields(p, r);
    if r.Write? {
      DecodesWithData(p, r.fd, r.data, rest);
    } else {
      Associative([], [], rest);
      DecodesWithoutData(p, AsReceived(r), rest);
    }
  }

  lemma RequestSplits(r: Request, rest: seq<byte>)
    requires r.Valid()
    ensures RequestBytes(r) + rest == Packet(r) + (DataOf(r) + rest)
  {
    Associative(Packet(r), DataOf(r), rest);
  }

  /** A request decodes from the head of any stream it starts. */
  lemma RequestDecodes(r: Request, rest: seq<byte>)
    requires r.Valid()
    ensures DecodeRequest(RequestBytes(r) + rest) == Some((AsReceived(r), rest))
  {
    RequestSplits(r, rest);
    HeaderOfPacket(r);
    FieldsOfPacket(r);
    DecodesAtHead(Packet(r), r, rest);
  }

  predicate AllValid(rs: seq<Request>) {
    forall i :: 0 <= i < |rs| ==> rs[i].Valid()
  }

  /** The bytes of each of a list of requests. */
  function Pieces(rs: seq<Request>): (ps: seq<seq<byte>>)
    requires AllValid(rs)
    ensures |ps| == |rs| && forall i :: 0 <= i < |rs| ==> ps[i] == RequestBytes(rs[i])
  {
    seq(|rs|, i requires 0 <= i < |rs| => RequestBytes(rs[i]))
  }

  function AllAsReceived(rs: seq<Request>): (t: seq<Request>)
    ensures |t| == |rs| && forall i :: 0 <= i < |rs| ==> t[i] == AsReceived(rs[i])
  {
    seq(|rs|, i requires 0 <= i < |rs| => AsReceived(rs[i]))
  }

  lemma StreamGrows(rs: seq<Request>, r: Request)
    requires AllValid(rs) && r.Valid()
    ensures AllValid(rs + [r])
    ensures Flatten(Pieces(rs + [r])) == Flatten(Pieces(rs)) + RequestBytes(r)
  {
    assert Pieces(rs + [r]) == Pieces(rs) + [RequestBytes(r)];
    FlattenAppend(Pieces(rs), RequestBytes(r));
  }

  lemma StreamStep(s: seq<byte>, r: Request, rest: seq<byte>)
    requires DecodeRequest(s) == Some((r, rest))
    ensures DecodeStream(s) == [r] + DecodeStream(rest)
  {
  }

  lemma FirstOfStream(rs: seq<Request>)
    requires AllValid(rs) && rs != []
    ensures DecodeRequest(Flatten(Pieces(rs))) == Some((AsReceived(rs[0]), Flatten(Pieces(rs[1..]))))
  {
    assert Pieces(rs)[1..] == Pieces(rs[1..]);
    RequestDecodes(rs[0], Flatten(Pieces(rs[1..])));
  }

  lemma HeadReceived(rs: seq<Request>)
    requires rs != []
    ensures AllAsReceived(rs) == [AsReceived(rs[0])] + AllAsReceived(rs[1..])
  {
  }

  lemma EmptyStream(rs: seq<Request>)
    requires rs == []
    ensures Flatten(Pieces(rs)) == [] && AllAsReceived(rs) == [] && DecodeStream(Flatten(Pieces(rs))) == []
  {
  }

  /** The stream of any list of requests determines the list, path cuts and the
      mkdir mode apart. */
  lemma {:induction false} StreamDecodes(rs: seq<Request>)
    requires AllValid(rs)
    ensures DecodeStream(Flatten(Pieces(rs))) == AllAsReceived(rs)
  {
    if rs == [] {
      EmptyStream(rs);
    } else {
      FirstOfStream(rs);
      StreamStep(Flatten(Pieces(rs)), AsReceived(rs[0]), Flatten(Pieces(rs[1..])));
      StreamDecodes(rs[1..]);
      HeadReceived(rs);
    }
  }

  /** The server recovers a mkdir mode exactly when its bytes read the same in
      either order. */
  lemma MkdirModeRecovered(path: cstring, mode: i32)
    ensures AsReceived(Mkdir(path, mode)).mode == mode
       <==> var w := Unsigned(mode); Digit(w, 0) == Digit(w, 3) && Digit(w, 1) == Digit(w, 2)
  {
    var w := Unsigned(mode);
    DigitsOfWord(Digit(w, 3), Digit(w, 2), Digit(w, 1), Digit(w, 0));
    WordOfDigits(w);
  }

  /** It does not recover octal 755. */
  lemma MkdirModeLost()
    ensures AsReceived(Mkdir([], 493)).mode != 493
  {
    MkdirModeRecovered([], 493);
  }
}
