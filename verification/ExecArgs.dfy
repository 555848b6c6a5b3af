/** Argument vectors of exec packets: makeArgs on the EE (ee/cmdHandler.c) and the
    argument walk of pkoExecIop on the IOP (iop/cmdHandler.c). */
module ExecArgs {
  import opened Bytes

  const PAYLOAD: nat := 256

  /** Where the string after the one at t starts. */
  function After(p: seq<byte>, t: nat): (u: nat)
    requires t <= |p|
    ensures t < u <= |p| + 1
  {
    NulFrom(p, t) + 1
  }

  /** strlen(&p[t]) */
  method StrLenAt(p: seq<byte>, t: nat) returns (n: nat)
    requires t <= |p|
    ensures t + n == NulFrom(p, t)
  {
    StrLenFrom(p, t);
    n := StrLen(p[t..]);
  }

  /** The offsets of at most n strings from t on, at least one. */
  function Offsets(p: seq<byte>, t: nat, n: int): (os: seq<nat>)
    requires t < |p|
    ensures os != [] && os[0] == t && (|os| == 1 || |os| <= n)
    decreases |p| - t
  {
    var u := After(p, t);
    [t] + (if 1 < n && u < |p| then Offsets(p, u, n - 1) else [])
  }

  /** The payload of makeArgs ends in a NUL, whatever arrived. */
  function Terminated(p: seq<byte>): (q: seq<byte>)
    requires |p| == PAYLOAD
    ensures |q| == PAYLOAD
  {
    p[PAYLOAD - 1 := 0]
  }

  /** struct sargs_start, as far as makeArgs fills it; argv holds offsets into the
      payload. */
  class ArgData {
    var argc: int
    const argv: array<nat>
    const payload: array<byte>

    constructor (maxArgs: nat)
      requires maxArgs >= 1
      ensures argv.Length == maxArgs && payload.Length == PAYLOAD && fresh(argv) && fresh(payload)
    {
      argc := 0;
      argv := new nat[maxArgs](_ => 0);
      payload := new byte[PAYLOAD](_ => 0);
    }
  }

  /** makeArgs; MAX_ARGS is the length of argv. */
  method MakeArgs(cmdargc: i32, cmdargv: array<byte>, data: ArgData)
    requires cmdargv.Length == PAYLOAD == data.payload.Length && data.argv.Length >= 1
    requires cmdargv != data.payload
    modifies cmdargv, data, data.argv, data.payload
    ensures cmdargv[..] == data.payload[..] == Terminated(old(cmdargv[..]))
    ensures var n := if cmdargc > data.argv.Length then data.argv.Length else cmdargc;
            0 < data.argc <= data.argv.Length && data.argv[..data.argc] == Offsets(data.payload[..], 0, n)
  {
    var n := if cmdargc > data.argv.Length then data.argv.Length else cmdargc;
    cmdargv[PAYLOAD - 1] := 0;
    forall i | 0 <= i < PAYLOAD {
      data.payload[i] := cmdargv[i];
    }
    assert data.payload[..] == cmdargv[..] == Terminated(old(cmdargv[..]));
    var argc := WalkStrings(data.payload[..], data.argv, n);
    data.argc := argc;
  }

  /** Each offset is just behind the string before it, and the last is the last of
      the count or of the payload. */
  lemma {:induction false} OffsetsChain(p: seq<byte>, t: nat, n: int, i: nat)
    requires t < |p| && i < |Offsets(p, t, n)|
    ensures var os := Offsets(p, t, n);
            os[i] < |p| && (i + 1 < |os| <==> i + 1 < n && After(p, os[i]) < |p|) &&
            (i + 1 < |os| ==> os[i + 1] == After(p, os[i]))
    decreases i
  {
    if i > 0 {
      OffsetsChain(p, After(p, t), n - 1, i - 1);
    }
  }

  /** The do-while loop of makeArgs. */
  method WalkStrings(p: seq<byte>, argv: array<nat>, n: int) returns (i: nat)
    requires |p| == PAYLOAD && argv.Length >= 1 && n <= argv.Length
    modifies argv
    ensures 0 < i <= argv.Length && argv[..i] == Offsets(p, 0, n)
  {
    ghost var os := Offsets(p, 0, n);
    var t := 0;
    var more := true;
    i := 0;
    while more
      invariant i <= |os| && forall j :: 0 <= j < i ==> argv[j] == os[j]
      invariant if more then i < |os| && t == os[i] else i == |os|
      decreases |os| - i
    {
      OffsetsChain(p, 0, n, i);
      argv[i] := t;
      var len := StrLenAt(p, t);
      t := t + len + 1;
      i := i + 1;
      more := i < n && t < PAYLOAD;
    }
  }

  /** A string of a terminated payload ends inside it. */
  lemma {:induction false} EndsInside(p: seq<byte>, t: nat)
    requires t < |p| && p[|p| - 1] == 0
    ensures NulFrom(p, t) < |p|
    decreases |p| - t
  {
    if p[t] != 0 {
      EndsInside(p, t + 1);
    }
  }

  /** The string at an offset ends inside the payload. */
  predicate Inside(p: seq<byte>, o: nat) {
    o < |p| && After(p, o) <= |p|
  }

  lemma {:induction false} OffsetInside(p: seq<byte>, t: nat, n: int, i: nat)
    requires t < |p| && p[|p| - 1] == 0 && i < |Offsets(p, t, n)|
    ensures t + i <= Offsets(p, t, n)[i] && Inside(p, Offsets(p, t, n)[i])
    decreases i
  {
    EndsInside(p, t);
    if i > 0 {
      OffsetInside(p, After(p, t), n - 1, i - 1);
    }
  }

  lemma {:induction false} WalkEnds(p: seq<byte>, t: nat, n: int)
    requires t < |p| && p[|p| - 1] == 0 && |Offsets(p, t, n)| < n
    ensures var os := Offsets(p, t, n); os[|os| - 1] < |p| && After(p, os[|os| - 1]) == |p|
    decreases |p| - t
  {
    EndsInside(p, t);
    var u := After(p, t);
    if u < |p| {
      WalkEnds(p, u, n - 1);
      assert Offsets(p, t, n) == [t] + Offsets(p, u, n - 1);
    }
  }

  /** Whatever 256 bytes and whatever count arrive, the offsets grow and every
      string ends inside the payload; the walk stops short of the count only where
      the payload ends. */
  lemma OffsetsInside(p: seq<byte>, n: int)
    requires |p| == PAYLOAD && p[PAYLOAD - 1] == 0
    ensures var os := Offsets(p, 0, n);
            (forall i :: 0 <= i < |os| ==> Inside(p, os[i])) &&
            (forall i :: 0 <= i < |os| - 1 ==> os[i] < os[i + 1]) &&
            (|os| < n ==> After(p, os[|os| - 1]) == PAYLOAD)
  {
    var os := Offsets(p, 0, n);
    forall i | 0 <= i < |os| ensures Inside(p, os[i]) {
      OffsetInside(p, 0, n, i);
    }
    forall i | 0 <= i < |os| - 1 ensures os[i] < os[i + 1] {
      OffsetsChain(p, 0, n, i);
    }
    if |os| < n {
      WalkEnds(p, 0, n);
    }
  }

  // ---- Round trip --------------------------------------------------------------

  function StringsAt(p: seq<byte>, os: seq<nat>): (ss: seq<cstring>)
    requires forall i :: 0 <= i < |os| ==> os[i] <= |p|
    ensures |ss| == |os| && forall i :: 0 <= i < |os| ==> ss[i] == CStr(p[os[i]..])
  {
    seq(|os|, i requires 0 <= i < |os| => CStr(p[os[i]..]))
  }

  lemma {:induction false} OffsetsCount(p: seq<byte>, t: nat, ss: seq<cstring>, pad: seq<byte>, n: nat)
    requires t <= |p| && p[t..] == Pack(ss) + pad && 0 < n <= |ss|
    ensures t < |p| && |Offsets(p, t, n)| == n
    decreases n
  {
    PackedHead(p, t, ss, pad);
    StrLenFrom(p, t);
    if n > 1 {
      OffsetsCount(p, After(p, t), ss[1..], pad, n - 1);
    }
  }

  /** The walk meets the strings in turn, and nothing else. */
  lemma {:induction false} OffsetsMeetStrings(p: seq<byte>, ss: seq<cstring>, pad: seq<byte>, n: nat, i: nat)
    requires p == Pack(ss) + pad && i < n <= |ss|
    ensures 0 < |p| && |Offsets(p, 0, n)| == n && Offsets(p, 0, n)[i] <= |p|
    ensures p[Offsets(p, 0, n)[i]..] == Pack(ss[i..]) + pad
    decreases i
  {
    assert p[0..] == p && ss[0..] == ss;
    OffsetsCount(p, 0, ss, pad, n);
    if i > 0 {
      OffsetsMeetStrings(p, ss, pad, n, i - 1);
      OffsetsChain(p, 0, n, i - 1);
      NextPacked(p, Offsets(p, 0, n)[i - 1], ss, pad, i);
    }
  }

  lemma NextPacked(p: seq<byte>, o: nat, ss: seq<cstring>, pad: seq<byte>, i: nat)
    requires 0 < i <= |ss| && o <= |p| && p[o..] == Pack(ss[i - 1..]) + pad
    ensures After(p, o) <= |p| && p[After(p, o)..] == Pack(ss[i..]) + pad
  {
    PackedHead(p, o, ss[i - 1..], pad);
    StrLenFrom(p, o);
    assert ss[i - 1..][1..] == ss[i..];
  }

  lemma StringMet(p: seq<byte>, ss: seq<cstring>, pad: seq<byte>, n: nat, i: nat)
    requires p == Pack(ss) + pad && i < n <= |ss|
    ensures 0 < |p| && |Offsets(p, 0, n)| == n && Offsets(p, 0, n)[i] <= |p|
    ensures CStr(p[Offsets(p, 0, n)[i]..]) == ss[i]
    ensures i == |ss| - 1 ==> After(p, Offsets(p, 0, n)[i]) == |Pack(ss)|
  {
    OffsetsMeetStrings(p, ss, pad, n, i);
    var o := Offsets(p, 0, n)[i];
    PackedHead(p, o, ss[i..], pad);
    StrLenFrom(p, o);
  }

  lemma {:induction false} PackEndsInNul(ss: seq<cstring>)
    requires ss != []
    ensures Pack(ss) != [] && Pack(ss)[|Pack(ss)| - 1] == 0
  {
    if |ss| > 1 {
      PackEndsInNul(ss[1..]);
    }
  }

  lemma TerminatedKeepsPack(ss: seq<cstring>, pad: seq<byte>)
    requires ss != [] && |Pack(ss)| + |pad| == PAYLOAD
    ensures exists pad' :: Terminated(Pack(ss) + pad) == Pack(ss) + pad'
  {
    PackEndsInNul(ss);
    var p := Terminated(Pack(ss) + pad);
    var pad' := p[|Pack(ss)|..];
    assert p[..|Pack(ss)|] == Pack(ss);
    assert p == Pack(ss) + pad';
  }

  /** Strings that fit the payload are found again, all that argv has room for,
      whatever follows them in the packet. */
  lemma ArgsRoundTrip(ss: seq<cstring>, pad: seq<byte>, maxArgs: nat)
    requires ss != [] && |Pack(ss)| + |pad| == 256 && maxArgs >= 1
    ensures var n := if |ss| > maxArgs then maxArgs else |ss|;
            var p := Terminated(Pack(ss) + pad);
            var os := Offsets(p, 0, n);
            |os| == n && (forall i :: 0 <= i < |os| ==> os[i] <= |p|) && StringsAt(p, os) == ss[..n]
  {
    var n := if |ss| > maxArgs then maxArgs else |ss|;
    var p := Terminated(Pack(ss) + pad);
    TerminatedKeepsPack(ss, pad);
    var pad' :| p == Pack(ss) + pad';
    forall i | 0 <= i < n
      ensures |Offsets(p, 0, n)| == n && Offsets(p, 0, n)[i] <= |p| && CStr(p[Offsets(p, 0, n)[i]..]) == ss[i]
    {
      StringMet(p, ss, pad', n, i);
    }
  }

  // ---- The IOP's walk ------------------------------------------------------------

  /** The loop of pkoExecIop. */
  method MeasureArgs(p: seq<byte>, argc: u32, args: nat) returns (arglen: nat)
    requires |p| == PAYLOAD && p[PAYLOAD - 1] == 0 && argc >= 1
    requires |Offsets(p, 0, argc)| == argc && args == After(p, 0)
    ensures var last := Offsets(p, 0, argc)[argc - 1];
            last < PAYLOAD && args + arglen == After(p, last) <= PAYLOAD
  {
    ghost var os := Offsets(p, 0, argc);
    OffsetInside(p, 0, argc, 0);
    arglen := 0;
    var i := 0;
    while i < argc - 1
      invariant 0 <= i <= argc - 1 && Inside(p, os[i])
      invariant args + arglen == After(p, os[i])
    {
      OffsetsChain(p, 0, argc, i);
      OffsetInside(p, 0, argc, i + 1);
      var len := StrLenAt(p, args + arglen);
      arglen := arglen + len + 1;
      i := i + 1;
    }
  }

  /** pkoExecIop: where the arguments behind the path start and how long they are.
      The strings counted must all start inside the payload, as nothing in the
      walk bounds it. */
  method ArgSpan(argv: array<byte>, argc: u32) returns (args: nat, arglen: nat)
    requires argv.Length == PAYLOAD && argc >= 1
    requires |Offsets(Terminated(argv[..]), 0, argc)| == argc
    modifies argv
    ensures argv[..] == Terminated(old(argv[..]))
    ensures var p := Terminated(old(argv[..])); var last := Offsets(p, 0, argc)[argc - 1];
            args == After(p, 0) && last < PAYLOAD && args + arglen == After(p, last) <= PAYLOAD
  {
    ghost var p := Terminated(argv[..]);
    argv[PAYLOAD - 1] := 0;
    assert argv[..] == p;
    var len := StrLenAt(argv[..], 0);
    args := len + 1;
    arglen := MeasureArgs(argv[..], argc, args);
  }

  /** For the strings of a well-formed packet, what the IOP hands to the loader is
      exactly the arguments after the path, ending where makeArgs, given the same
      bytes, finds the last of them to end. */
  lemma SpanIsArguments(ss: seq<cstring>, pad: seq<byte>)
    requires ss != [] && |Pack(ss)| + |pad| == PAYLOAD
    ensures var p := Terminated(Pack(ss) + pad);
            var (os, args) := (Offsets(p, 0, |ss|), After(p, 0));
            |os| == |ss| && os[|ss| - 1] <= |p| &&
            var end := After(p, os[|ss| - 1]);
            args <= end <= PAYLOAD && p[args..end] == Pack(ss[1..])
  {
    var p := Terminated(Pack(ss) + pad);
    TerminatedKeepsPack(ss, pad);
    var pad' :| p == Pack(ss) + pad';
    StringMet(p, ss, pad', |ss|, |ss| - 1);
    SpanOfTail(p, ss, pad');
  }

  lemma SpanOfTail(p: seq<byte>, ss: seq<cstring>, pad: seq<byte>)
    requires ss != [] && p == Pack(ss) + pad
    ensures After(p, 0) == |ss[0]| + 1 <= |Pack(ss)| && p[After(p, 0)..|Pack(ss)|] == Pack(ss[1..])
  {
    var rest := Pack(ss[1..]);
    assert p[0..] == p;
    PackedHead(p, 0, ss, pad);
    StrLenFrom(p, 0);
    assert p[After(p, 0)..][..|rest|] == rest;
  }
}
