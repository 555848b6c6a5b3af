/** An IOP exception, from the module list to the EE's handler: iop/excepHandler.c,
    iop/exception_packet.h, and the words ee/cmdHandler.c takes out again. */
module ExceptionPath {
  import opened Bytes
  import opened SifPath
  import opened Wrappers

  // ---- The module list ---------------------------------------------------------

  /** A module's entry in IOP memory. A next address of 0 ends the list; the name
      of an entry may be missing. */
  datatype ModInfo = ModInfo(next: u32, name: Option<cstring>, textStart: u32, textSize: u32)

  const LIST_HEAD: u32 := 0x800

  /** The modules met from an address on, which says that the list ends. */
  predicate IsList(mem: map<u32, ModInfo>, at: u32, chain: seq<ModInfo>)
    decreases |chain|
  {
    chain != [] && at in mem && chain[0] == mem[at] &&
    if mem[at].next == 0 then |chain| == 1 else IsList(mem, mem[at].next, chain[1..])
  }

  /** The end of the text is computed in 32 bits. */
  predicate InText(m: ModInfo, epc: u32) {
    m.textStart <= epc <= (m.textStart + m.textSize) % 0x1_0000_0000
  }

  /** The first module whose closed text range holds the address. */
  predicate IsFirst(chain: seq<ModInfo>, k: nat, epc: u32) {
    k < |chain| && InText(chain[k], epc) && forall j :: 0 <= j < k ==> !InText(chain[j], epc)
  }

  /** ExceptionGetModuleName: walks the list, and sets the relative address only
      when it finds a module. */
  method GetModuleName(mem: map<u32, ModInfo>, ghost chain: seq<ModInfo>, epc: u32, unset: u32)
    returns (name: Option<cstring>, repc: u32)
    requires IsList(mem, LIST_HEAD, chain)
    ensures forall k: nat :: IsFirst(chain, k, epc) ==> name == chain[k].name && repc + chain[k].textStart == epc
    ensures (forall k :: 0 <= k < |chain| ==> !InText(chain[k], epc)) ==> name == None && repc == unset
  {
    var at := LIST_HEAD;
    ghost var k := 0;
    while at != 0
      invariant k <= |chain|
      invariant if at == 0 then k == |chain| else IsList(mem, at, chain[k..])
      invariant forall j :: 0 <= j < k ==> !InText(chain[j], epc)
      decreases |chain| - k
    {
      var m := mem[at];
      assert m == chain[k];
      if m.textStart <= epc && epc <= (m.textStart + m.textSize) % 0x1_0000_0000 {
        assert IsFirst(chain, k, epc) && forall j: nat :: IsFirst(chain, j, epc) ==> j == k;
        return m.name, epc - m.textStart;
      }
      assert chain[k..][1..] == chain[k + 1..];
      at, k := m.next, k + 1;
    }
    return None, unset;
  }

  // ---- The packet ----------------------------------------------------------------

  const NAME_AT: nat := 168
  const NAME_BYTES: nat := 128
  const PACKET_SIZE: nat := 296

  /** exception_frame_t: epc, cause, badvaddr, sr, 32 registers, hi, lo, dcic. */
  type Frame = f: seq<u32> | |f| == 39 witness seq(39, _ => 0)

  function Words(ws: seq<u32>): (s: seq<byte>)
    ensures |s| == 4 * |ws|
    ensures forall i :: 0 <= i < |ws| ==> s[4 * i..4 * i + 4] == Store32(ws[i])
  {
    if ws == [] then [] else
      var s := Words(ws[..|ws| - 1]) + Store32(ws[|ws| - 1]);
      assert forall i :: 0 <= i < |ws| - 1 ==> s[4 * i..4 * i + 4] == Words(ws[..|ws| - 1])[4 * i..4 * i + 4];
      s
  }

  /** The characters kept of a name. */
  function Kept(name: cstring, limit: nat): cstring {
    var n := if limit < NAME_BYTES then limit else NAME_BYTES - 1;
    if |name| <= n then name else
      var s := name[..n];
      assert forall c :: c in s ==> c in name;
      s
  }

  /** The report as a memory image; behind the name's NUL its field keeps what it
      held. */
  predicate IsReport(s: seq<byte>, frame: Frame, repc: u32, name: cstring) {
    |s| == PACKET_SIZE && |name| < NAME_BYTES &&
    s[..NAME_AT] == Words(HeadWords(frame, repc, |name|)) &&
    s[NAME_AT..][..|name|] == name && s[NAME_AT..][|name|] == 0
  }

  class Reporter {
    const excepBuffer: array<byte>
    const sif: Sif

    ghost predicate Valid() {
      excepBuffer.Length == PACKET_SIZE && sif.Valid() &&
      excepBuffer != sif.rpcData && excepBuffer != sif.mailbox
    }

    constructor (sif: Sif)
      requires sif.Valid()
      ensures Valid() && this.sif == sif
    {
      this.sif := sif;
      excepBuffer := new byte[PACKET_SIZE](_ => 0);
    }

    /** pko_copy_exception_name: never past the field, always ended by a NUL. */
    method CopyName(src: seq<byte>, sourceLimit: nat) returns (len: nat)
      requires Valid() && 0 in src
      modifies excepBuffer
      ensures len == |Kept(CStr(src), sourceLimit)| < NAME_BYTES
      ensures excepBuffer[..NAME_AT] == old(excepBuffer[..NAME_AT])
      ensures excepBuffer[NAME_AT..][..len] == Kept(CStr(src), sourceLimit)
      ensures excepBuffer[NAME_AT..][len] == 0
    {
      var limit := if sourceLimit >= NAME_BYTES then NAME_BYTES - 1 else sourceLimit;
      var str := StrLen(src);
      len := 0;
      while len < limit && src[len] != 0
        invariant len <= limit && len <= str < |src|
        invariant excepBuffer[..NAME_AT] == old(excepBuffer[..NAME_AT])
        invariant excepBuffer[NAME_AT..NAME_AT + len] == src[..len]
      {
        excepBuffer[NAME_AT + len] := src[len];
        len := len + 1;
      }
      excepBuffer[NAME_AT + len] := 0;
      assert CStr(src) == src[..str];
      assert excepBuffer[NAME_AT..][..len] == src[..len];
    }

    /** excep_handler2. The name field is filled before the other words. */
    method Report(mem: map<u32, ModInfo>, ghost chain: seq<ModInfo>, frame: Frame, unset: u32)
      requires Valid() && IsList(mem, LIST_HEAD, chain)
      modifies excepBuffer, sif.rpcData, sif.mailbox, sif
      ensures IsReport(excepBuffer[..], frame, FoundAddress(chain, frame[0]), FoundName(chain, frame[0]))
      ensures sif.mailbox[..] ==
              if sif.refused > old(sif.refused) then old(sif.mailbox[..])
              else Mailed(12, excepBuffer[..], old(sif.rpcData[..]), old(sif.mailbox[..]))
    {
      var repc, len := FillName(mem, chain, frame[0], unset);
      ghost var field := excepBuffer[NAME_AT..];
      FillIn(frame, repc, len);
      assert excepBuffer[..][NAME_AT..] == field;
      var ret := sif.SendSifCmd(12, excepBuffer, PACKET_SIZE);
      assert excepBuffer[..PACKET_SIZE] == excepBuffer[..];
    }

    /** The module's name, or "unknown" and the address itself. */
    method FillName(mem: map<u32, ModInfo>, ghost chain: seq<ModInfo>, epc: u32, unset: u32)
      returns (repc: u32, len: u32)
      requires Valid() && IsList(mem, LIST_HEAD, chain)
      modifies excepBuffer
      ensures repc == FoundAddress(chain, epc) && len == |FoundName(chain, epc)| < NAME_BYTES
      ensures excepBuffer[NAME_AT..][..len] == FoundName(chain, epc) && excepBuffer[NAME_AT..][len] == 0
    {
      var name;
      name, repc := GetModuleName(mem, chain, epc, unset);
      FoundIs(chain, epc);
      if name.None? {
        repc := epc;
        CStrOfPadded(UNKNOWN, [0]);
        len := CopyName(UNKNOWN + [0], |UNKNOWN|);
      } else {
        CStrOfPadded(name.value, [0]);
        len := CopyName(name.value + [0], NAME_BYTES - 1);
      }
    }

    /** The words of the packet before the name. */
    method FillIn(frame: Frame, repc: u32, len: u32)
      requires Valid()
      modifies excepBuffer
      ensures excepBuffer[..][..NAME_AT] == Words(HeadWords(frame, repc, len))
      ensures excepBuffer[NAME_AT..] == old(excepBuffer[NAME_AT..])
    {
      var head := Words(HeadWords(frame, repc, len));
      forall i | 0 <= i < NAME_AT {
        excepBuffer[i] := head[i];
      }
    }
  }

  function HeadWords(frame: Frame, repc: u32, len: u32): (ws: seq<u32>)
    ensures |ws| == 42
  {
    [0x0d02_beba] + frame + [repc, len]
  }

  /** "unknown" */
  const UNKNOWN: cstring := [117, 110, 107, 110, 111, 119, 110]

  /** The module found in a list, if any, and what the report says of it. */
  function Find(chain: seq<ModInfo>, epc: u32): (m: Option<ModInfo>)
    ensures m.Some? ==> InText(m.value, epc)
  {
    if chain == [] then None
    else if InText(chain[0], epc) then Some(chain[0])
    else Find(chain[1..], epc)
  }

  function FoundName(chain: seq<ModInfo>, epc: u32): cstring {
    match Find(chain, epc)
    case Some(ModInfo(_, Some(name), _, _)) => Kept(name, NAME_BYTES - 1)
    case _ => UNKNOWN
  }

  function FoundAddress(chain: seq<ModInfo>, epc: u32): u32 {
    match Find(chain, epc)
    case Some(ModInfo(_, Some(_), start, _)) => epc - start
    case _ => epc
  }

  lemma {:induction false} FoundIs(chain: seq<ModInfo>, epc: u32)
    ensures match Find(chain, epc)
            case None => forall k :: 0 <= k < |chain| ==> !InText(chain[k], epc)
            case Some(m) => exists k: nat :: IsFirst(chain, k, epc) && chain[k] == m
  {
    if chain != [] && !InText(chain[0], epc) {
      FoundIs(chain[1..], epc);
      if Find(chain, epc).None? {
        assert forall k :: 0 < k < |chain| ==> chain[k] == chain[1..][k - 1];
      } else {
        var k: nat :| IsFirst(chain[1..], k, epc) && chain[1..][k] == Find(chain, epc).value;
        assert chain[k + 1] == chain[1..][k];
        forall j | 0 <= j < k + 1 ensures !InText(chain[j], epc) {
          assert j > 0 ==> chain[j] == chain[1..][j - 1];
        }
        assert IsFirst(chain, k + 1, epc);
      }
    } else if chain != [] {
      assert IsFirst(chain, 0, epc);
    }
  }

  // ---- The EE's end ---------------------------------------------------------------

  /** sifDmaDataPtr[i]. */
  function BoxWord(box: seq<byte>, i: nat): u32
    requires 4 * i + 4 <= |box|
  {
    Load32(box[4 * i..4 * i + 4])
  }

  /** The arguments of iopException. */
  datatype Shown = Shown(cause: u32, badvaddr: u32, status: u32, epc: u32, regs: seq<u32>, repc: u32, name: cstring)

  function TakeOut(box: seq<byte>): Shown
    requires |box| >= RPC_SIZE
  {
    Shown(BoxWord(box, 3), BoxWord(box, 4), BoxWord(box, 5), BoxWord(box, 2),
          seq(32, i requires 0 <= i < 32 => BoxWord(box, 6 + i)), BoxWord(box, 41), CStr(box[172..]))
  }

  lemma ReportWord(s: seq<byte>, ws: seq<u32>, box: seq<byte>, i: nat)
    requires |s| == PACKET_SIZE && |box| >= RPC_SIZE && box[4..4 + PACKET_SIZE] == s
    requires |ws| == 42 && s[..NAME_AT] == Words(ws) && i < 42
    ensures BoxWord(box, 1 + i) == ws[i]
  {
    SubSlice(box, 4, 4 + PACKET_SIZE, 4 * i, 4 * i + 4);
    SubSlice(s, 0, NAME_AT, 4 * i, 4 * i + 4);
    assert box[4 * (1 + i)..4 * (1 + i) + 4] == Words(ws)[4 * i..4 * i + 4];
    LoadStore32(ws[i]);
  }

  lemma CommandReadsAs()
    ensures Be32(Store32(0x0d02_beba)) == 0xbabe_020d
  {
  }

  /** Whatever the buffers held, the EE takes out of the mailbox the command, the
      frame and the name that were put into the report. */
  lemma ReportSurvives(s: seq<byte>, frame: Frame, repc: u32, name: cstring, rpc: seq<byte>, box: seq<byte>)
    requires IsReport(s, frame, repc, name) && |rpc| == RPC_SIZE <= |box|
    ensures var got := Mailed(12, s, rpc, box);
            Be32(got[4..8]) == 0xbabe_020d &&
            TakeOut(got) == Shown(frame[1], frame[2], frame[3], frame[0], frame[4..36], repc, name)
  {
    var got := Mailed(12, s, rpc, box);
    PacketsCarried(PACKET_SIZE, 12, s, rpc, box);
    assert got[4..4 + PACKET_SIZE] == got[..4 + PACKET_SIZE][4..] == s;
    ReportTaken(got, s, frame, repc, name);
  }

  /** The words before the name, found again by their indices. */
  predicate WordsAre(box: seq<byte>, ws: seq<u32>)
    requires |box| >= RPC_SIZE && |ws| == 42
  {
    forall i :: 0 <= i < 42 ==> BoxWord(box, 1 + i) == ws[i]
  }

  lemma WordsTaken(s: seq<byte>, ws: seq<u32>, box: seq<byte>)
    requires |s| == PACKET_SIZE && |box| >= RPC_SIZE && box[4..4 + PACKET_SIZE] == s
    requires |ws| == 42 && s[..NAME_AT] == Words(ws)
    ensures WordsAre(box, ws) && box[4..8] == Store32(ws[0])
  {
    forall i | 0 <= i < 42 ensures BoxWord(box, 1 + i) == ws[i] {
      ReportWord(s, ws, box, i);
    }
    SubSlice(box, 4, 4 + PACKET_SIZE, 0, 4);
    SubSlice(s, 0, NAME_AT, 0, 4);
    assert Words(ws)[4 * 0..4 * 0 + 4] == Store32(ws[0]);
  }

  lemma FrameTaken(box: seq<byte>, ws: seq<u32>)
    requires |box| >= RPC_SIZE && |ws| == 42 && WordsAre(box, ws)
    ensures var t := TakeOut(box);
            t.epc == ws[1] && t.cause == ws[2] && t.badvaddr == ws[3] && t.status == ws[4] &&
            t.regs == ws[5..37] && t.repc == ws[40]
  {
    var t := TakeOut(box);
    assert BoxWord(box, 1 + 1) == ws[1] && BoxWord(box, 1 + 2) == ws[2] && BoxWord(box, 1 + 3) == ws[3];
    assert BoxWord(box, 1 + 4) == ws[4] && BoxWord(box, 1 + 40) == ws[40];
    forall i | 0 <= i < 32 ensures t.regs[i] == ws[5..37][i] {
      assert BoxWord(box, 1 + (5 + i)) == ws[5 + i];
    }
  }

  lemma ReportTaken(box: seq<byte>, s: seq<byte>, frame: Frame, repc: u32, name: cstring)
    requires IsReport(s, frame, repc, name) && |box| >= RPC_SIZE && box[4..4 + PACKET_SIZE] == s
    ensures Be32(box[4..8]) == 0xbabe_020d
    ensures TakeOut(box) == Shown(frame[1], frame[2], frame[3], frame[0], frame[4..36], repc, name)
  {
    var ws := HeadWords(frame, repc, |name|);
    WordsTaken(s, ws, box);
    CommandReadsAs();
    FrameTaken(box, ws);
    assert ws[5..37] == frame[4..36];
    NameSurvives(box, s, name);
  }

  lemma NameSurvives(box: seq<byte>, s: seq<byte>, name: cstring)
    requires |s| == PACKET_SIZE && |box| >= RPC_SIZE && box[4..4 + PACKET_SIZE] == s
    requires |name| < NAME_BYTES && s[NAME_AT..][..|name|] == name && s[NAME_AT..][|name|] == 0
    ensures CStr(box[172..]) == name
  {
    var tail := s[NAME_AT..][|name|..] + box[300..];
    SubSlice(box, 4, 300, 168, 296);
    assert box[172..300] == s[NAME_AT..];
    assert box[172..] == box[172..300] + box[300..];
    assert s[NAME_AT..] == name + s[NAME_AT..][|name|..];
    assert box[172..] == name + tail;
    CStrOfPadded(name, tail);
  }

  lemma WordOfReport(s: seq<byte>, ws: seq<u32>, i: nat)
    requires |s| == PACKET_SIZE && s[..NAME_AT] == Words(ws) && i < |ws| == 42
    ensures s[4 * i..4 * i + 4] == Store32(ws[i])
  {
    SubSlice(s, 0, NAME_AT, 4 * i, 4 * i + 4);
  }

  lemma FrameInReport(s: seq<byte>, frame: Frame, repc: u32, name: cstring, i: nat)
    requires IsReport(s, frame, repc, name) && i < 39
    ensures s[4 + 4 * i..8 + 4 * i] == Store32(frame[i])
  {
    WordOfReport(s, HeadWords(frame, repc, |name|), i + 1);
  }

  lemma CommandBytes()
    ensures Store32(0x0d02_beba) == [0xba, 0xbe, 0x02, 0x0d]
  {
  }

  /** The layout of the report: the command, the frame, the relative address and the
      length of the name at their offsets. */
  lemma ReportLayout(s: seq<byte>, frame: Frame, repc: u32, name: cstring)
    requires IsReport(s, frame, repc, name)
    ensures |s| == 296 && s[0..4] == [0xba, 0xbe, 0x02, 0x0d]
    ensures forall i :: 0 <= i < 39 ==> s[4 + 4 * i..8 + 4 * i] == Store32(frame[i])
    ensures s[160..164] == Store32(repc) && s[164..168] == Store32(|name|)
    ensures s[168..168 + |name|] == name && s[168 + |name|] == 0
  {
    var ws := HeadWords(frame, repc, |name|);
    WordOfReport(s, ws, 0);
    CommandBytes();
    WordOfReport(s, ws, 40);
    WordOfReport(s, ws, 41);
    forall i | 0 <= i < 39 ensures s[4 + 4 * i..8 + 4 * i] == Store32(frame[i]) {
      FrameInReport(s, frame, repc, name, i);
    }
    SubSlice(s, 168, 296, 0, |name|);
  }

  // ---- From the list to the screen ---------------------------------------------------

  /** The address lies in the closed text range, whose end is computed in 32 bits. */
  predicate Covers(m: ModInfo, epc: u32) {
    m.textStart <= epc && epc <= (m.textStart + m.textSize) % 4294967296
  }

  /** A search that meets the k-th module first finds that one. */
  lemma FindFirst(chain: seq<ModInfo>, epc: u32, k: nat)
    requires k < |chain| && Covers(chain[k], epc) && forall j :: 0 <= j < k ==> !Covers(chain[j], epc)
    ensures Find(chain, epc) == Some(chain[k])
  {
    FoundIs(chain, epc);
    assert forall j :: 0 <= j < |chain| ==> InText(chain[j], epc) == Covers(chain[j], epc);
    assert IsFirst(chain, k, epc) && forall j: nat :: IsFirst(chain, j, epc) ==> j == k;
  }

  /** The longest beginning of a name with at most 127 characters. */
  predicate IsCut(t: seq<byte>, name: seq<byte>) {
    t <= name && |t| == if |name| <= 127 then |name| else 127
  }

  /** What the EE shows of an exception in the k-th module of the list, the first
      that covers the address, when that module has a name. */
  lemma ShownInModule(chain: seq<ModInfo>, k: nat, frame: Frame, s: seq<byte>, rpc: seq<byte>, box: seq<byte>)
    requires IsReport(s, frame, FoundAddress(chain, frame[0]), FoundName(chain, frame[0]))
    requires |rpc| == RPC_SIZE <= |box| && k < |chain|
    requires Covers(chain[k], frame[0]) && forall j :: 0 <= j < k ==> !Covers(chain[j], frame[0])
    requires chain[k].name.Some?
    ensures var t := TakeOut(Mailed(12, s, rpc, box));
            t.repc + chain[k].textStart == frame[0] == t.epc && IsCut(t.name, chain[k].name.value)
  {
    FindFirst(chain, frame[0], k);
    ReportSurvives(s, frame, FoundAddress(chain, frame[0]), FoundName(chain, frame[0]), rpc, box);
  }

  /** What it shows when no module covers the address, or the first that does has no
      name: the address itself, and "unknown". */
  lemma ShownUnknown(chain: seq<ModInfo>, frame: Frame, s: seq<byte>, rpc: seq<byte>, box: seq<byte>)
    requires IsReport(s, frame, FoundAddress(chain, frame[0]), FoundName(chain, frame[0]))
    requires |rpc| == RPC_SIZE <= |box|
    requires forall k :: 0 <= k < |chain| && Covers(chain[k], frame[0]) ==>
               chain[k].name == None || exists j :: 0 <= j < k && Covers(chain[j], frame[0])
    ensures var t := TakeOut(Mailed(12, s, rpc, box));
            t.repc == frame[0] == t.epc && Spelled(t.name, "unknown")
  {
    FoundIs(chain, frame[0]);
    assert forall j :: 0 <= j < |chain| ==> InText(chain[j], frame[0]) == Covers(chain[j], frame[0]);
    ReportSurvives(s, frame, FoundAddress(chain, frame[0]), FoundName(chain, frame[0]), rpc, box);
  }
}
