/** iop/cmdHandler.c: commands on their way from the UDP listener through one DMA
    transfer into the EE's mailbox. */
module SifPath {
  import opened Bytes
  import opened ByteOrder

  const RPC_SIZE: nat := 1024

  /** The length rounded up to what the SIF DMA can transfer. */
  function DmaLen(len: nat): (n: nat)
    ensures len <= n < len + 16 && n % 16 == 0
  {
    (len + 15) / 16 * 16
  }

  /** rpc_data after a command: behind the payload it keeps what it held. */
  function RpcImage(cmd: u32, payload: seq<byte>, rpc: seq<byte>): (s: seq<byte>)
    requires |rpc| == RPC_SIZE && 4 + |payload| <= RPC_SIZE
    ensures |s| == RPC_SIZE
  {
    Store32(cmd) + payload + rpc[4 + |payload|..]
  }

  /** The mailbox after a transfer of n bytes. */
  function Transferred(src: seq<byte>, n: nat, box: seq<byte>): (s: seq<byte>)
    requires n <= |src| && n <= |box|
    ensures |s| == |box|
  {
    src[..n] + box[n..]
  }

  /** The mailbox after a command has been sent to it. */
  function Mailed(cmd: u32, payload: seq<byte>, rpc: seq<byte>, box: seq<byte>): (s: seq<byte>)
    requires |rpc| == RPC_SIZE <= |box| && 4 + |payload| <= RPC_SIZE
    ensures |s| == |box|
  {
    Transferred(RpcImage(cmd, payload, rpc), DmaLen(|payload|), box)
  }

  class Sif {
    const rpcData: array<byte>
    const mailbox: array<byte>
    ghost var refused: nat      // transfers that could not be set up

    ghost predicate Valid() {
      rpcData != mailbox && rpcData.Length == RPC_SIZE <= mailbox.Length
    }

    constructor (mailbox: array<byte>)
      requires RPC_SIZE <= mailbox.Length
      ensures Valid() && this.mailbox == mailbox && fresh(rpcData)
    {
      this.mailbox := mailbox;
      rpcData, refused := new byte[RPC_SIZE](_ => 0), 0;
    }

    /** pkoSetSifDma: the transfer is made whole, or refused. */
    method SetSifDma(length: nat) returns (id: u32)
      requires Valid() && length <= RPC_SIZE
      modifies mailbox, this
      ensures refused == old(refused) + if id == 0 then 1 else 0
      ensures mailbox[..] == if id == 0 then old(mailbox[..]) else Transferred(rpcData[..], length, old(mailbox[..]))
    {
      id := *;
      refused := refused + if id == 0 then 1 else 0;
      if id != 0 {
        forall i | 0 <= i < length {
          mailbox[i] := rpcData[i];
        }
      }
    }

    /** pkoSendSifCmd, for payloads that fit rpc_data behind the command word. */
    method SendSifCmd(cmd: u32, src: array<byte>, len: nat) returns (ret: int)
      requires Valid() && len <= src.Length && 4 + len <= RPC_SIZE
      requires src != rpcData && src != mailbox
      modifies rpcData, mailbox, this
      ensures rpcData[..] == RpcImage(cmd, src[..len], old(rpcData[..]))
      ensures refused == old(refused) + if ret == 0 then 0 else 1
      ensures ret == 0 ==> mailbox[..] == Mailed(cmd, src[..len], old(rpcData[..]), old(mailbox[..]))
      ensures ret != 0 ==> ret == -1 && mailbox[..] == old(mailbox[..])
    {
      var word := Store32(cmd);
      forall i | 0 <= i < 4 {
        rpcData[i] := word[i];
      }
      forall i | 0 <= i < len {
        rpcData[4 + i] := src[i];
      }
      assert rpcData[..] == RpcImage(cmd, src[..len], old(rpcData[..]));
      var id := SetSifDma(DmaLen(len));
      ret := if id == 0 then -1 else 0;
    }
  }

  /** Every byte of the mailbox after a command: the command word least significant
      byte first, the payload, what rpc_data held behind it up to the next multiple
      of 16 from the payload's own length, and the rest as it was. */
  lemma MailedAt(cmd: u32, payload: seq<byte>, rpc: seq<byte>, box: seq<byte>, i: nat)
    requires |rpc| == RPC_SIZE <= |box| && 4 + |payload| <= RPC_SIZE && i < |box|
    ensures Mailed(cmd, payload, rpc, box)[i] ==
            if i >= (|payload| + 15) / 16 * 16 then box[i]
            else if i == 0 then cmd % 256
            else if i == 1 then cmd / 256 % 256
            else if i == 2 then cmd / 256 / 256 % 256
            else if i == 3 then cmd / 256 / 256 / 256
            else if i < 4 + |payload| then payload[i - 4]
            else rpc[i]
  {
  }

  /** The command word and the payload are in the mailbox whole. */
  predicate Carried(cmd: u32, payload: seq<byte>, box: seq<byte>) {
    4 + |payload| <= |box| && box[..4 + |payload|] == Store32(cmd) + payload
  }

  lemma CarriedPart(cmd: u32, payload: seq<byte>, rpc: seq<byte>, box: seq<byte>, n: nat)
    requires |rpc| == RPC_SIZE <= |box| && 4 + |payload| <= RPC_SIZE
    requires n <= |payload| && 4 + n <= DmaLen(|payload|)
    ensures Mailed(cmd, payload, rpc, box)[4..4 + n] == payload[..n]
    ensures Load32(Mailed(cmd, payload, rpc, box)[..4]) == cmd
  {
    var s := Mailed(cmd, payload, rpc, box);
    assert s[..4] == Store32(cmd);
    LoadStore32(cmd);
    var image := RpcImage(cmd, payload, rpc);
    assert forall i :: 4 <= i < 4 + n ==> s[i] == image[i] == payload[i - 4];
    assert s[4..4 + n] == payload[..n];
  }

  /** A transfer carries every payload of a length, whatever the two buffers held
      before, exactly when the length leaves room for the command word below the
      next multiple of 16. */
  lemma CarriedExactlyWhen(len: nat)
    requires 1 <= len <= 1020
    ensures (forall cmd: u32, payload: seq<byte>, rpc: seq<byte>, box: seq<byte> ::
               |payload| == len && |rpc| == RPC_SIZE <= |box| ==> Carried(cmd, payload, Mailed(cmd, payload, rpc, box)))
       <==> 1 <= len % 16 <= 12
  {
    if 1 <= len % 16 <= 12 {
      assert DmaLen(len) >= len + 4;
      forall cmd: u32, payload: seq<byte>, rpc: seq<byte>, box: seq<byte> |
        |payload| == len && |rpc| == RPC_SIZE <= |box|
        ensures Carried(cmd, payload, Mailed(cmd, payload, rpc, box))
      {
        assert Mailed(cmd, payload, rpc, box)[..4 + len] == RpcImage(cmd, payload, rpc)[..4 + len];
      }
    } else {
      assert DmaLen(len) < len + 4;
      var (payload, box) := (seq(len, _ => 1 as byte), Zeros(RPC_SIZE));
      var s := Mailed(0, payload, box, box);
      assert s[4 + len - 1] == 0 && (Store32(0) + payload)[4 + len - 1] == 1;
      assert !Carried(0, payload, s);
    }
  }

  // ---- The packets of the listener ------------------------------------------

  const MEM_IO_SIZE: nat := 270
  const MEM_IO_PATH: nat := 14

  /** Every forwarded packet but the memory packet is carried whole: reset and the
      two dump switches (6), start and stop VU (10), gsexec (264), exec and
      register dump (266), and the exception report (296). */
  lemma PacketsCarried(len: nat, cmd: u32, payload: seq<byte>, rpc: seq<byte>, box: seq<byte>)
    requires len in {6, 10, 264, 266, 296} && |payload| == len && |rpc| == RPC_SIZE <= |box|
    ensures Carried(cmd, payload, Mailed(cmd, payload, rpc, box))
  {
    CarriedExactlyWhen(len);
  }

  /** The path of a memory packet as the EE reads it. */
  function MailedPath(cmd: u32, pkt: seq<byte>, rpc: seq<byte>, box: seq<byte>): cstring
    requires |pkt| == MEM_IO_SIZE && |rpc| == RPC_SIZE <= |box|
  {
    CStr(Mailed(cmd, pkt, rpc, box)[4 + MEM_IO_PATH..4 + MEM_IO_SIZE])
  }

  lemma StrLenPrefix(a: seq<byte>, b: seq<byte>, n: nat)
    requires |a| == |b| && n <= |a| && a[..n] == b[..n] && StrLen(a) < n
    ensures CStr(a) == CStr(b)
  {
    forall i | 0 <= i <= StrLen(a) ensures b[i] == a[i] {
      assert a[..n][i] == b[..n][i];
    }
    StrLenIs(b, StrLen(a));
  }

  /** What the EE finds where the path was: its first 254 bytes, and then two
      bytes of whatever was there. */
  lemma MailedPathBytes(cmd: u32, pkt: seq<byte>, rpc: seq<byte>, box: seq<byte>)
    requires |pkt| == MEM_IO_SIZE && |rpc| == RPC_SIZE <= |box|
    ensures var got := Mailed(cmd, pkt, rpc, box)[4 + MEM_IO_PATH..4 + MEM_IO_SIZE];
            got == pkt[MEM_IO_PATH..][..254] + box[272..274]
  {
    assert DmaLen(MEM_IO_SIZE) == 272;
    assert RpcImage(cmd, pkt, rpc)[..272][18..] == pkt[14..268];
    assert pkt[MEM_IO_PATH..][..254] == pkt[14..268];
    assert Mailed(cmd, pkt, rpc, box)[18..274] == RpcImage(cmd, pkt, rpc)[..272][18..] + box[272..274];
  }

  /** The last two bytes of a memory packet are not transferred, so its path
      arrives whatever the mailbox held exactly when it ends before them. */
  lemma MemPathArrives(cmd: u32, pkt: seq<byte>, rpc: seq<byte>)
    requires |pkt| == MEM_IO_SIZE && |rpc| == RPC_SIZE
    requires StrLen(pkt[MEM_IO_PATH..]) < 256
    ensures (forall box: seq<byte> :: |box| == 2048 ==> MailedPath(cmd, pkt, rpc, box) == CStr(pkt[MEM_IO_PATH..]))
       <==> StrLen(pkt[MEM_IO_PATH..]) <= 253
  {
    var path := pkt[MEM_IO_PATH..];
    if StrLen(path) <= 253 {
      forall box: seq<byte> | |box| == 2048 ensures MailedPath(cmd, pkt, rpc, box) == CStr(path) {
        MailedPathBytes(cmd, pkt, rpc, box);
        var got := path[..254] + box[272..274];
        assert got[..254] == path[..254];
        StrLenPrefix(path, got, 254);
      }
    } else {
      // the stale byte at 254 ends the path early, or fails to end it
      var stale: byte := if StrLen(path) == 254 then 1 else 0;
      var box: seq<byte> := seq(2048, _ => stale);
      MailedPathBytes(cmd, pkt, rpc, box);
      var got := path[..254] + box[272..274];
      assert got[254] == stale;
      assert forall i :: 0 <= i < 254 ==> got[i] == path[i];
      if stale == 0 {
        StrLenIs(got, 254);
      } else {
        assert StrLen(got) > 254;
      }
      assert MailedPath(cmd, pkt, rpc, box) != CStr(path);
    }
  }
}
