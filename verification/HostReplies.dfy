/** The replies of the host: file protocol as a host lays them out, from
    include/hostlink.h alone, and that these are the replies the client takes. */
module HostReplies {
  import opened Bytes
  import opened HostLink
  import opened Replies

  /** PKO_*_RLY */
  function Number(r: Request): u32 {
    match r
    case Open(_, _) => 0xbabe_0112
    case Close(_) => 0xbabe_0122
    case Read(_, _) => 0xbabe_0132
    case Write(_, _) => 0xbabe_0142
    case Lseek(_, _, _) => 0xbabe_0152
    case OpenDir(_) => 0xbabe_0162
    case CloseDir(_) => 0xbabe_0172
    case ReadDir(_) => 0xbabe_0182
    case Remove(_) => 0xbabe_0192
    case Mkdir(_, _) => 0xbabe_01a2
    case Rmdir(_) => 0xbabe_01b2
    case GetStat(_) => 0xbabe_01c2
  }

  /** A two's complement integer in network order. */
  function NetInt(v: i32): seq<byte> {
    Wire32(if v < 0 then v + 0x1_0000_0000 else v)
  }

  /** pko_pkt_file_rly */
  function FileReply(number: u32, v: i32): seq<byte> {
    Wire32(number) + (Wire16(10) + NetInt(v))
  }

  /** pko_pkt_read_rly, with the data behind it; the value field means nothing. */
  function ReadReply(status: i32, data: seq<byte>): seq<byte>
    requires |data| < 0x8000_0000
  {
    Wire32(0xbabe_0132) + (Wire16(14) + (NetInt(status) + (NetInt(|data|) + data)))
  }

  /** The fields that pko_pkt_getstat_rly and pko_pkt_dread_rly share. */
  function StatFields(st: StatValue): seq<byte> {
    Wire32(st.mode) + (Wire32(st.attr) + (Wire32(st.size) + (st.times + Wire32(st.hisize))))
  }

  function StatReply(v: i32, st: StatValue): seq<byte> {
    Wire32(0xbabe_01c2) + (Wire16(50) + (NetInt(v) + StatFields(st)))
  }

  function DirReply(v: i32, st: StatValue, name: seq<byte>): seq<byte> {
    Wire32(0xbabe_0182) + (Wire16(306) + (NetInt(v) + (StatFields(st) + name)))
  }

  /** What a host may send for a request, if it is to mean `v`. */
  ghost predicate FromHost(r: Request, v: i32, s: seq<byte>) {
    match r
    case Read(_, n) => exists status: i32, data: seq<byte> :: |data| == v <= n && s == ReadReply(status, data)
    case Write(_, data) => s == FileReply(Number(r), v) && (v < 0 || 1 <= v <= |data|)
    case ReadDir(_) =>
      exists st: StatValue, name: seq<byte> :: |st.times| == 24 && |name| == 256 && s == DirReply(v, st, name)
    case GetStat(_) => exists st: StatValue :: |st.times| == 24 && s == StatReply(v, st)
    case _ => s == FileReply(Number(r), v)
  }

  // ---- Reading what was laid out -------------------------------------------------

  lemma WordFirst(s: seq<byte>, w: u32)
    requires |s| >= 4
    ensures Be32(s[..4]) == w <==> s == Wire32(w) + s[4..]
  {
    WireBe32(s[..4]);
    BeWire32(w);
    assert s == s[..4] + s[4..];
    if s == Wire32(w) + s[4..] {
      assert s[..4] == Wire32(w);
    }
  }

  lemma IntFirst(s: seq<byte>, v: i32)
    requires |s| >= 4
    ensures Signed(Be32(s[..4])) == v <==> s == NetInt(v) + s[4..]
  {
    WordFirst(s, Unsigned(v));
    SignedUnsigned(v);
  }

  lemma HeaderFirst(s: seq<byte>, number: u32, size: u16)
    requires |s| >= 6
    ensures Be32(s[..4]) == number && Be16(s[4..6]) == size <==> s == Wire32(number) + (Wire16(size) + s[6..])
  {
    HeaderRead(s[..6], number, size);
    assert s[..6][..4] == s[..4] && s[..6][4..6] == s[4..6];
    Associative(Wire32(number), Wire16(size), s[6..]);
    assert s == s[..6] + s[6..];
    if s == Header(number, size) + s[6..] {
      assert s[..6] == Header(number, size);
    }
  }

  /** What is behind the header. */
  lemma Behind(number: u32, size: u16, rest: seq<byte>)
    ensures (Wire32(number) + (Wire16(size) + rest))[6..] == rest
  {
    Associative(Wire32(number), Wire16(size), rest);
  }

  lemma NumberIs(r: Request)
    ensures Number(r) == ReplyCommand(r)
  {
  }

  lemma IntAlone(s: seq<byte>, v: i32)
    requires |s| == 4
    ensures Signed(Be32(s)) == v <==> s == NetInt(v)
  {
    IntFirst(s, v);
    assert s[..4] == s && s[4..] == [];
  }

  /** The replies that are a value alone. */
  lemma FileReplyRead(s: seq<byte>, number: u32, v: i32)
    ensures s == FileReply(number, v) <==> HeaderIs(s, number, 10) && |s| == 10 && RetVal(s) == v
  {
    if |s| == 10 {
      HeaderFirst(s, number, 10);
      IntAlone(s[6..], v);
      assert s[6..] == s[6..10];
      Behind(number, 10, NetInt(v));
    }
  }

  lemma ReadReplyRead(s: seq<byte>, status: i32, data: seq<byte>)
    requires |data| < 0x8000_0000 && s == ReadReply(status, data)
    ensures HeaderIs(s, 0xbabe_0132, 14) && |s| == 14 + |data|
    ensures ReadCount(s) == |data| && ReadData(s) == data
  {
    var tail := NetInt(|data|) + data;
    Behind(0xbabe_0132, 14, NetInt(status) + tail);
    HeaderFirst(s, 0xbabe_0132, 14);
    assert s[6..][4..] == s[10..] == tail;
    assert tail[4..] == data;
    IntFirst(tail, |data|);
    assert tail[..4] == s[10..14] && s[14..] == tail[4..];
  }

  lemma ReadReplyWritten(s: seq<byte>)
    requires HeaderIs(s, 0xbabe_0132, 14) && |s| >= 14 && ReadCount(s) == |s| - 14
    ensures s == ReadReply(Signed(Be32(s[6..10])), s[14..])
  {
    var status := Signed(Be32(s[6..10]));
    HeaderFirst(s, 0xbabe_0132, 14);
    assert s[6..][..4] == s[6..10] && s[6..][4..] == s[10..];
    IntFirst(s[6..], status);
    assert s[10..][..4] == s[10..14] && s[10..][4..] == s[14..];
    IntFirst(s[10..], |s| - 14);
  }

  /** The stat fields, read at their offsets. */
  lemma StatRead(t: seq<byte>, st: StatValue)
    requires |t| == 40
    ensures (t == StatFields(st) && |st.times| == 24) <==>
            st == StatValue(Be32(t[0..4]), Be32(t[4..8]), Be32(t[8..12]), Be32(t[36..40]), t[12..36])
  {
    WordFirst(t, st.mode);
    assert t[..4] == t[0..4] && t[4..][..4] == t[4..8] && t[4..][4..] == t[8..];
    WordFirst(t[4..], st.attr);
    assert t[8..][..4] == t[8..12] && t[8..][4..] == t[12..];
    WordFirst(t[8..], st.size);
    TimesRead(t[12..], st.times, st.hisize);
    assert t[12..][..24] == t[12..36] && t[12..][24..] == t[36..40];
    StatSplits(t, st);
  }

  lemma TimesRead(t: seq<byte>, times: seq<byte>, hisize: u32)
    requires |t| == 28
    ensures (t == times + Wire32(hisize) && |times| == 24) <==> t[..24] == times && Be32(t[24..]) == hisize
  {
    WireBe32(t[24..]);
    BeWire32(hisize);
    assert t == t[..24] + t[24..];
    if t == times + Wire32(hisize) && |times| == 24 {
      assert t[..24] == times && t[24..] == Wire32(hisize);
    }
  }

  lemma StatSplits(t: seq<byte>, st: StatValue)
    requires |t| == 40
    ensures t == StatFields(st) && |st.times| == 24 <==>
            t == Wire32(st.mode) + t[4..] && t[4..] == Wire32(st.attr) + t[8..] &&
            t[8..] == Wire32(st.size) + t[12..] && t[12..] == st.times + Wire32(st.hisize)
  {
    if t == StatFields(st) {
      Tail4(st.mode, Wire32(st.attr) + (Wire32(st.size) + (st.times + Wire32(st.hisize))));
      Tail4(st.attr, Wire32(st.size) + (st.times + Wire32(st.hisize)));
      Tail4(st.size, st.times + Wire32(st.hisize));
      DropDrop(t, 4, 4);
      DropDrop(t, 8, 4);
    }
  }

  lemma Tail4(w: u32, rest: seq<byte>)
    ensures (Wire32(w) + rest)[4..] == rest
  {
  }

  /** The stat fields of a reply, at theirs. */
  lemma StatOfIs(s: seq<byte>, st: StatValue)
    requires |s| >= 50
    ensures StatOf(s) == st <==> s[10..50] == StatFields(st) && |st.times| == 24
  {
    StatRead(s[10..50], st);
    SubSlice(s, 10, 50, 0, 4);
    SubSlice(s, 10, 50, 4, 8);
    SubSlice(s, 10, 50, 8, 12);
    SubSlice(s, 10, 50, 36, 40);
    SubSlice(s, 10, 50, 12, 36);
  }

  /** A value and a rest behind a header. */
  lemma ValueFirst(s: seq<byte>, number: u32, size: u16, v: i32, rest: seq<byte>)
    requires |s| >= 10
    ensures s == Wire32(number) + (Wire16(size) + (NetInt(v) + rest)) <==>
            Be32(s[..4]) == number && Be16(s[4..6]) == size && RetVal(s) == v && s[10..] == rest
  {
    HeaderFirst(s, number, size);
    Behind(number, size, NetInt(v) + rest);
    IntFirst(s[6..], v);
    assert s[6..][..4] == s[6..10];
    DropDrop(s, 6, 4);
    assert (NetInt(v) + rest)[4..] == rest;
  }

  lemma StatReplyRead(s: seq<byte>, v: i32, st: StatValue)
    ensures s == StatReply(v, st) && |st.times| == 24 <==>
            HeaderIs(s, 0xbabe_01c2, 50) && |s| == 50 && RetVal(s) == v && StatOf(s) == st
  {
    if |s| == 50 {
      ValueFirst(s, 0xbabe_01c2, 50, v, StatFields(st));
      assert s[10..] == s[10..50];
      StatOfIs(s, st);
    }
  }

  lemma DirReplyRead(s: seq<byte>, v: i32, st: StatValue, name: seq<byte>)
    ensures s == DirReply(v, st, name) && |st.times| == 24 && |name| == 256 <==>
            HeaderIs(s, 0xbabe_0182, 306) && |s| == 306 && RetVal(s) == v && StatOf(s) == st && s[50..306] == name
  {
    if |s| == 306 {
      ValueFirst(s, 0xbabe_0182, 306, v, StatFields(st) + name);
      StatOfIs(s, st);
      assert s[10..] == s[10..50] + s[50..306];
      if s[10..] == StatFields(st) + name && |st.times| == 24 {
        assert s[10..50] == StatFields(st) && s[50..306] == name;
      }
    }
  }

  // ---- The replies the client takes -------------------------------------------------

  lemma ReadReplies(r: Request, v: i32, s: seq<byte>)
    requires r.Read?
    ensures IsReply(r, v, s) <==> FromHost(r, v, s)
  {
    if IsReply(r, v, s) {
      ReadReplyWritten(s);
      assert |s[14..]| == v <= r.nbytes && s == ReadReply(Signed(Be32(s[6..10])), s[14..]);
    }
    if FromHost(r, v, s) {
      var status: i32, data: seq<byte> :| |data| == v <= r.nbytes && s == ReadReply(status, data);
      ReadReplyRead(s, status, data);
    }
  }

  lemma DirReplies(r: Request, v: i32, s: seq<byte>)
    requires r.ReadDir?
    ensures IsReply(r, v, s) <==> FromHost(r, v, s)
  {
    if IsReply(r, v, s) {
      DirReplyRead(s, v, StatOf(s), s[50..306]);
    }
    if FromHost(r, v, s) {
      var st: StatValue, name: seq<byte> :| |st.times| == 24 && |name| == 256 && s == DirReply(v, st, name);
      DirReplyRead(s, v, st, name);
    }
  }

  lemma StatReplies(r: Request, v: i32, s: seq<byte>)
    requires r.GetStat?
    ensures IsReply(r, v, s) <==> FromHost(r, v, s)
  {
    if IsReply(r, v, s) {
      StatReplyRead(s, v, StatOf(s));
    }
    if FromHost(r, v, s) {
      var st: StatValue :| |st.times| == 24 && s == StatReply(v, st);
      StatReplyRead(s, v, st);
    }
  }

  /** Exactly what a host may send for a request is a reply to it, and it means to
      the client what the host meant. */
  lemma RepliesAreTheHosts(r: Request, v: i32, s: seq<byte>)
    requires r.Valid()
    ensures IsReply(r, v, s) <==> FromHost(r, v, s)
  {
    if r.Read? {
      ReadReplies(r, v, s);
    } else if r.ReadDir? {
      DirReplies(r, v, s);
    } else if r.GetStat? {
      StatReplies(r, v, s);
    } else {
      NumberIs(r);
      FileReplyRead(s, Number(r), v);
    }
  }

  /** The client gets back what was laid out: data, stat fields and name. */
  lemma ValuesAreTheHosts(status: i32, data: seq<byte>, v: i32, st: StatValue, name: seq<byte>)
    requires |data| < 0x8000_0000 && |st.times| == 24 && |name| == 256
    ensures var s := ReadReply(status, data); |s| == 14 + |data| && ReadCount(s) == |data| && ReadData(s) == data
    ensures var s := StatReply(v, st); |s| == 50 && RetVal(s) == v && StatOf(s) == st
    ensures var s := DirReply(v, st, name); |s| == 306 && RetVal(s) == v && StatOf(s) == st && s[50..306] == name
  {
    ReadReplyRead(ReadReply(status, data), status, data);
    StatReplyRead(StatReply(v, st), v, st);
    DirReplyRead(DirReply(v, st, name), v, st, name);
  }
}
