/** The TCP calls of the IOP's network stack, as far as their callers may rely
    on them. The stack chooses how much of each transfer it makes, whether it
    fails, and what the peer sent: nothing is assumed about the peer. */
module Lwip {
  import opened Bytes

  /** All the bytes that one connection has taken and has delivered. */
  datatype Stream = Stream(sent: seq<byte>, received: seq<byte>)

  /** What has passed over all connections together: bytes, transfers that failed,
      and clients accepted. Unlike a stream it outlives its connection. */
  datatype Traffic = Traffic(sent: seq<byte>, received: seq<byte>, faults: nat, accepts: nat)

  /** A stream with more bytes on it; an unknown descriptor has no stream. */
  function AddSent(m: map<int, Stream>, sock: int, bytes: seq<byte>): map<int, Stream> {
    if sock in m then m[sock := m[sock].(sent := m[sock].sent + bytes)] else m
  }

  function AddReceived(m: map<int, Stream>, sock: int, bytes: seq<byte>): map<int, Stream> {
    if sock in m then m[sock := m[sock].(received := m[sock].received + bytes)] else m
  }

  lemma AddNothing(m: map<int, Stream>, sock: int)
    ensures AddSent(m, sock, []) == m && AddReceived(m, sock, []) == m
  {
    if sock in m {
      assert m[sock].sent + [] == m[sock].sent && m[sock].received + [] == m[sock].received;
    }
  }

  lemma AddTwice(m: map<int, Stream>, sock: int, a: seq<byte>, b: seq<byte>)
    ensures AddSent(AddSent(m, sock, a), sock, b) == AddSent(m, sock, a + b)
    ensures AddReceived(AddReceived(m, sock, a), sock, b) == AddReceived(m, sock, a + b)
  {
    if sock in m {
      assert m[sock].sent + a + b == m[sock].sent + (a + b);
      assert m[sock].received + a + b == m[sock].received + (a + b);
    }
  }

  /** What a buffer holds after bytes were received behind those already there. */
  lemma Received(was: seq<byte>, now: seq<byte>, off: nat, at: nat, n: nat, end: nat)
    requires |was| == |now| && off <= at <= at + n <= end <= |now|
    requires now[..at] == was[..at] && now[at + n..] == was[at + n..]
    ensures now[..off] == was[..off] && now[end..] == was[end..]
    ensures now[off..at + n] == was[off..at] + now[at..at + n]
  {
    assert now[..off] == now[..at][..off];
    assert now[off..at] == now[..at][off..];
    assert now[end..] == now[at + n..][end - at - n..];
  }

  class Stack {
    /** The open connections by descriptor. */
    var streams: map<int, Stream>
    ghost var all: Traffic

    constructor ()
      ensures streams == map[]
    {
      streams, all := map[], Traffic([], [], 0, 0);
    }

    /** send(): some of the bytes, or none of them and a failure. */
    method Send(sock: int, buf: array<byte>, off: nat, len: nat) returns (ret: int)
      requires off + len <= buf.Length
      modifies this
      ensures ret <= len
      ensures ret > 0 ==> sock in old(streams)
      ensures streams == AddSent(old(streams), sock, if ret > 0 then buf[off..off + ret] else [])
      ensures ret > 0 ==> all == old(all).(sent := old(all).sent + buf[off..off + ret])
      ensures ret <= 0 ==> all == old(all).(faults := old(all).faults + 1)
    {
      ret := *;
      if sock !in streams || ret < 0 || ret > len {
        ret := -1;
      }
      streams := AddSent(streams, sock, if ret > 0 then buf[off..off + ret] else []);
      all := if ret > 0 then all.(sent := all.sent + buf[off..off + ret]) else all.(faults := all.faults + 1);
    }

    /** recv(): some bytes of the peer into the buffer, or none of them and a
        failure or an end of stream. */
    method Recv(sock: int, buf: array<byte>, off: nat, len: nat) returns (ret: int)
      requires off + len <= buf.Length
      modifies this, buf
      ensures ret <= len
      ensures ret > 0 ==> sock in old(streams)
      ensures buf[..off] == old(buf[..off])
      ensures var n := if ret > 0 then ret else 0;
              buf[off + n..] == old(buf[off + n..]) &&
              streams == AddReceived(old(streams), sock, buf[off..off + n])
      ensures ret > 0 ==> all == old(all).(received := old(all).received + buf[off..off + ret])
      ensures ret <= 0 ==> all == old(all).(faults := old(all).faults + 1)
    {
      ret := *;
      if sock !in streams || ret < 0 || ret > len {
        ret := -1;
      }
      var n := if ret > 0 then ret else 0;
      for i := 0 to n
        invariant buf[..off] == old(buf[..off])
        invariant buf[off + n..] == old(buf[off + n..])
        modifies buf
      {
        var b: byte := *;
        buf[off + i] := b;
      }
      streams := AddReceived(streams, sock, buf[off..off + n]);
      all := if ret > 0 then all.(received := all.received + buf[off..off + n]) else all.(faults := all.faults + 1);
    }

    /** disconnect(): the descriptor is given back, whatever is returned. */
    method Disconnect(sock: int) returns (ret: int)
      modifies this`streams
      ensures streams == old(streams) - {sock}
    {
      ret := *;
      streams := streams - {sock};
    }

    /** accept(): a failure, or a descriptor that was not in use. */
    method Accept() returns (ret: int)
      modifies this
      ensures ret < 0 ==> streams == old(streams)
      ensures ret >= 0 ==> ret !in old(streams) && streams == old(streams)[ret := Stream([], [])]
      ensures all == old(all).(accepts := old(all).accepts + if ret >= 0 then 1 else 0)
    {
      ret := *;
      if ret >= 0 {
        if ret in streams {
          ret := -1;
        } else {
          streams := streams[ret := Stream([], [])];
          all := all.(accepts := all.accepts + 1);
        }
      }
    }
  }
}
