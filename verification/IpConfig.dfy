/** ee/ps2link.c: the three network settings of IPCONFIG.DAT, cut up in one buffer
    and packed into another with one shared index. */
module IpConfig {
  import opened Bytes
  import opened Wrappers

  const MAX_LEN: nat := 64

  predicate IsSeparator(c: byte) {
    c == 32 || c == 13 || c == 10
  }

  /** The buffer with every separator before its first NUL made a NUL. */
  function Cleared(s: seq<byte>): (t: seq<byte>)
    ensures |t| == |s|
  {
    seq(|s|, i requires 0 <= i < |s| => if i < StrLen(s) && IsSeparator(s[i]) then 0 else s[i])
  }

  /** What one setting may hold of a string. */
  function Cut(s: cstring): (t: cstring)
    ensures |t| <= 15
  {
    if |s| <= 15 then s else
      assert forall c :: c in s[..15] ==> c in s;
      s[..15]
  }

  predicate Short(ts: seq<cstring>) {
    forall k :: 0 <= k < |ts| ==> |ts[k]| <= 15
  }

  /** The string at a place, as far as a copy takes it. */
  function Token(b: seq<byte>, i: nat): (t: cstring)
    requires i <= |b|
    ensures |t| <= 15
  {
    Cut(CStr(b[i..]))
  }

  /** What n copies with the shared index pick up from i on. */
  function Tokens(b: seq<byte>, i: nat, n: nat): (ts: seq<cstring>)
    requires i + 16 * n <= |b|
    ensures |ts| == n
    decreases n, |b|
  {
    if n == 0 then [] else [Token(b, i)] + Tokens(b, i + |Token(b, i)| + 1, n - 1)
  }

  /** A buffer that holds some bytes and is zero behind them. */
  function Padded(d: seq<byte>): (s: seq<byte>)
    requires |d| <= MAX_LEN
    ensures |s| == MAX_LEN
  {
    d + Zeros(MAX_LEN - |d|)
  }

  // ---- The code --------------------------------------------------------------------

  /** strncpy(&dst[at], src, n) */
  method CopyString(dst: array<byte>, at: nat, src: seq<byte>, n: nat)
    requires at + n <= dst.Length
    modifies dst
    ensures dst[..] == Patch(old(dst[..]), at, Strncpy(src, n))
  {
    var s := Strncpy(src, n);
    forall i | 0 <= i < n {
      dst[at + i] := s[i];
    }
  }

  /** The loop that clears the separators. */
  method ClearSeparators(buf: array<byte>)
    requires buf.Length == MAX_LEN && buf[MAX_LEN - 1] == 0
    modifies buf
    ensures buf[..] == Cleared(old(buf[..]))
  {
    ghost var was := buf[..];
    var i := 0;
    while buf[i] != 0
      invariant 0 <= i <= StrLen(was) < MAX_LEN
      invariant forall j :: 0 <= j < i ==> buf[j] == Cleared(was)[j]
      invariant forall j :: i <= j < MAX_LEN ==> buf[j] == was[j]
      decreases MAX_LEN - i
    {
      var c := buf[i];
      if c == 32 || c == 13 || c == 10 {
        buf[i] := 0;
      }
      i := i + 1;
    }
  }

  const DEFAULTS: seq<cstring> := [
    [49, 57, 50, 46, 49, 54, 56, 46, 49, 46, 49, 48],       // 192.168.1.10
    [50, 53, 53, 46, 50, 53, 53, 46, 50, 53, 53, 46, 48],   // 255.255.255.0
    [49, 57, 50, 46, 49, 54, 56, 46, 49, 46, 48]]           // 192.168.1.0

  class Config {
    const ifConf: array<byte>
    var ifConfLen: nat

    /** As linked: the buffer is zero, and no configuration has been read. */
    constructor ()
      ensures ifConf.Length == MAX_LEN && ifConf[..] == Zeros(MAX_LEN) && ifConfLen == 0
    {
      ifConf := new byte[MAX_LEN](_ => 0);
      ifConfLen := 0;
    }

    /** The last loop of getIpConfig: the lengths that move the index are those of
        the copies. */
    method SaveTokens(b: seq<byte>)
      requires |b| == MAX_LEN && b[MAX_LEN - 1] == 0
      requires ifConf.Length == MAX_LEN && ifConf[..] == Zeros(MAX_LEN)
      modifies this`ifConfLen, ifConf
      ensures ifConfLen == |Pack(Tokens(b, 0, 3))| <= MAX_LEN
      ensures ifConf[..] == Padded(Pack(Tokens(b, 0, 3)))
    {
      var (t, i) := (0, 0);
      ghost var (kept: seq<cstring>, all) := ([], Tokens(b, 0, 3));
      while t < 3
        invariant t <= 3 && i == |Pack(kept)| && i + 16 * (3 - t) <= MAX_LEN
        invariant kept + Tokens(b, i, 3 - t) == all
        invariant ifConf[..] == Padded(Pack(kept))
      {
        i, kept := SaveOne(b, i, 3 - t, kept);
        t := t + 1;
      }
      ifConfLen := i;
      assert kept + Tokens(b, i, 0) == kept;
    }

    /** getIpConfig, on what reading the file gave: None if it could not be read, or
        at most 63 bytes. */
    method GetIpConfig(got: Option<seq<byte>>)
      requires got.Some? ==> |got.value| < MAX_LEN
      requires ifConf.Length == MAX_LEN && ifConf[..] == Zeros(MAX_LEN)
      modifies this`ifConfLen, ifConf
      ensures ifConf[..] == Padded(Pack(Settings(got))) && ifConfLen == |Pack(Settings(got))|
      ensures 3 <= ifConfLen <= 48
    {
      var buf := new byte[MAX_LEN](_ => 0);
      match got {
        case None => ReadDefault(buf);
        case Some(content) =>
          forall i | 0 <= i < |content| {
            buf[i] := content[i];
          }
          assert buf[..] == Padded(content);
      }
      assert Buffer(got)[MAX_LEN - 1] == 0;
      ClearSeparators(buf);
      SaveTokens(buf[..]);
    }

    /** main: only the first boot, with no length stored, reads the file. */
    method Boot(got: Option<seq<byte>>)
      requires got.Some? ==> |got.value| < MAX_LEN
      requires ifConf.Length == MAX_LEN && (ifConfLen == 0 ==> ifConf[..] == Zeros(MAX_LEN))
      modifies this`ifConfLen, ifConf
      ensures ifConfLen > 0
      ensures old(ifConfLen) > 0 ==> ifConfLen == old(ifConfLen) && ifConf[..] == old(ifConf[..])
      ensures old(ifConfLen) == 0 ==> ifConf[..] == Padded(Pack(Settings(got)))
    {
      if ifConfLen == 0 {
        GetIpConfig(got);
      }
    }

    /** printIpConfig: the three strings it prints. */
    method PrintIpConfig(ghost ts: seq<cstring>) returns (out: seq<cstring>)
      requires |ts| == 3 && |Pack(ts)| <= MAX_LEN
      requires ifConf.Length == MAX_LEN && ifConf[..] == Padded(Pack(ts))
      ensures out == ts
    {
      var t: nat, i: nat := 0, 0;
      ghost var pad := Zeros(MAX_LEN - |Pack(ts)|);
      out := [];
      assert ts[0..] == ts && ifConf[..][0..] == ifConf[..];
      while t < 3
        invariant t <= 3 && i <= MAX_LEN && out == ts[..t]
        invariant ifConf[..][i..] == Pack(ts[t..]) + pad
      {
        PackedHead(ifConf[..], i, ts[t..], pad);
        assert ts[t..][1..] == ts[t + 1..];
        out := out + [CStr(ifConf[..][i..])];
        i := i + StrLen(ifConf[..][i..]) + 1;
        t := t + 1;
      }
    }

    /** One turn of that loop, with `left` settings still to be saved. */
    method SaveOne(b: seq<byte>, i: nat, ghost left: nat, ghost kept: seq<cstring>)
      returns (next: nat, ghost more: seq<cstring>)
      requires |b| == MAX_LEN && b[MAX_LEN - 1] == 0 && i == |Pack(kept)|
      requires left > 0 && i + 16 * left <= MAX_LEN
      requires ifConf.Length == MAX_LEN && ifConf[..] == Padded(Pack(kept))
      modifies ifConf
      ensures next == |Pack(more)| && next + 16 * (left - 1) <= MAX_LEN
      ensures more + Tokens(b, next, left - 1) == kept + Tokens(b, i, left)
      ensures ifConf[..] == Padded(Pack(more))
    {
      CopyString(ifConf, i, b[i..], 15);
      SavedOne(b, i, kept, ifConf[..]);
      TokensUnfold(b, i, left, kept);
      next := i + StrLen(ifConf[..][i..]) + 1;
      more := kept + [Token(b, i)];
    }
  }

  lemma TokensUnfold(b: seq<byte>, i: nat, n: nat, pre: seq<cstring>)
    requires n > 0 && i + 16 * n <= |b|
    ensures pre + Tokens(b, i, n) == pre + [Token(b, i)] + Tokens(b, i + |Token(b, i)| + 1, n - 1)
  {
  }

  lemma PatchPadded(done: seq<byte>, t: seq<byte>, n: nat)
    requires |t| <= n && |done| + n < MAX_LEN
    ensures var to := Patch(Padded(done), |done|, t + Zeros(n - |t|));
            to == Padded(done + (t + [0])) && to[|done|..] == t + Zeros(MAX_LEN - |done| - |t|)
  {
  }

  lemma CopiedString(s: seq<byte>)
    requires StrLen(s) < |s|
    ensures var t := Cut(CStr(s)); Strncpy(s, 15) == t + Zeros(15 - |t|)
  {
  }

  /** One copy behind what is packed already: the token and its NUL are added, and
      everything behind stays zero, so the next copy is ended by the buffer. */
  lemma CopyOnce(s: seq<byte>, kept: seq<cstring>, i: nat, to: seq<byte>)
    requires StrLen(s) < |s| && |Pack(kept)| == i && i + 16 <= MAX_LEN
    requires to == Patch(Padded(Pack(kept)), i, Strncpy(s, 15))
    ensures |Pack(kept + [Cut(CStr(s))])| == i + |Cut(CStr(s))| + 1
    ensures to == Padded(Pack(kept + [Cut(CStr(s))])) && StrLen(to[i..]) == |Cut(CStr(s))|
  {
    var t := Cut(CStr(s));
    PackAppend(kept, t);
    CopiedString(s);
    PatchPadded(Pack(kept), t, 15);
    CStrOfPadded(t, Zeros(MAX_LEN - i - |t|));
  }

  lemma SavedOne(b: seq<byte>, i: nat, kept: seq<cstring>, to: seq<byte>)
    requires |b| == MAX_LEN && b[MAX_LEN - 1] == 0 && i == |Pack(kept)| && i + 16 <= MAX_LEN
    requires to == Patch(Padded(Pack(kept)), i, Strncpy(b[i..], 15))
    ensures var more := kept + [Token(b, i)];
            i + StrLen(to[i..]) + 1 == i + |Token(b, i)| + 1 == |Pack(more)| && to == Padded(Pack(more))
  {
    assert b[i..][MAX_LEN - 1 - i] == 0;
    CopyOnce(b[i..], kept, i, to);
  }

  lemma {:induction false} TokensShort(b: seq<byte>, i: nat, n: nat)
    requires i + 16 * n <= |b|
    ensures Short(Tokens(b, i, n))
    decreases n
  {
    if n > 0 {
      TokensShort(b, i + |Token(b, i)| + 1, n - 1);
    }
  }

  lemma {:induction false} PackedSize(ts: seq<cstring>)
    requires Short(ts)
    ensures |ts| <= |Pack(ts)| <= 16 * |ts|
  {
    if ts != [] {
      PackedSize(ts[1..]);
    }
  }

  /** readDefaultIpConfig */
  method ReadDefault(buf: array<byte>)
    requires buf.Length == MAX_LEN && buf[..] == Zeros(MAX_LEN)
    modifies buf
    ensures buf[..] == Padded(Pack(DEFAULTS))
  {
    assert buf[..] == Padded(Pack([]));
    assert [] + [DEFAULTS[0]] == DEFAULTS[..1] && DEFAULTS[..1] + [DEFAULTS[1]] == DEFAULTS[..2];
    var i := CopyDefault(buf, [], 0, DEFAULTS[0]);
    i := CopyDefault(buf, DEFAULTS[..1], i, DEFAULTS[1]);
    i := CopyDefault(buf, DEFAULTS[..2], i, DEFAULTS[2]);
    assert DEFAULTS[..2] + [DEFAULTS[2]] == DEFAULTS;
  }

  method CopyDefault(buf: array<byte>, ghost kept: seq<cstring>, i: nat, s: cstring) returns (next: nat)
    requires buf.Length == MAX_LEN && i == |Pack(kept)| && i + 16 <= MAX_LEN && |s| <= 15
    requires buf[..] == Padded(Pack(kept))
    modifies buf
    ensures next == i + |s| + 1 == |Pack(kept + [s])| && buf[..] == Padded(Pack(kept + [s]))
  {
    CStrOfPadded(s, [0]);
    CopyString(buf, i, s + [0], 15);
    CopyOnce(s + [0], kept, i, buf[..]);
    next := i + StrLen(buf[..][i..]) + 1;
  }

  /** The local buffer once the file, or the defaults, are in it. */
  function Buffer(got: Option<seq<byte>>): (b: seq<byte>)
    requires got.Some? ==> |got.value| < MAX_LEN
    ensures |b| == MAX_LEN && b[MAX_LEN - 1] == 0
  {
    match got
    case None => DefaultsFit(); Padded(Pack(DEFAULTS))
    case Some(content) => Padded(content)
  }

  lemma DefaultsFit()
    ensures |Pack(DEFAULTS)| == 39
  {
    assert |DEFAULTS| == 3 && DEFAULTS[1..][1..] == [DEFAULTS[2]];
    assert Pack([DEFAULTS[2]]) == DEFAULTS[2] + [0];
    assert Pack(DEFAULTS[1..]) == DEFAULTS[1] + [0] + Pack(DEFAULTS[1..][1..]);
  }

  /** The three settings that are kept. */
  function Settings(got: Option<seq<byte>>): (ts: seq<cstring>)
    requires got.Some? ==> |got.value| < MAX_LEN
    ensures |ts| == 3 && Short(ts) && 3 <= |Pack(ts)| <= 48
  {
    var ts := Tokens(Cleared(Buffer(got)), 0, 3);
    TokensShort(Cleared(Buffer(got)), 0, 3);
    PackedSize(ts);
    ts
  }

  // ---- What the settings are ------------------------------------------------------

  /** Where the field at i ends: at the first separator, or the end. */
  function FieldEnd(s: seq<byte>, i: nat): (e: nat)
    requires i <= |s|
    ensures i <= e <= |s|
    ensures e < |s| ==> IsSeparator(s[e])
    ensures forall j :: i <= j < e ==> !IsSeparator(s[j])
    decreases |s| - i
  {
    if i < |s| && !IsSeparator(s[i]) then FieldEnd(s, i + 1) else i
  }

  function Slice(s: cstring, i: nat, e: nat): (t: cstring)
    requires i <= e <= |s|
    ensures |t| == e - i
  {
    assert forall c :: c in s[i..e] ==> c in s;
    s[i..e]
  }

  /** The first n fields of a text from i on, each ended by one separator; fields
      past the end are empty. */
  function Fields(s: cstring, i: nat, n: nat): (fs: seq<cstring>)
    requires i <= |s|
    ensures |fs| == n
    decreases n, |s|
  {
    if n == 0 then [] else
      var e := FieldEnd(s, i);
      [Slice(s, i, e)] + Fields(s, if e < |s| then e + 1 else e, n - 1)
  }

  lemma ClearedText(s: cstring)
    requires |s| < MAX_LEN
    ensures forall j :: 0 <= j < |s| ==> Cleared(Padded(s))[j] == if IsSeparator(s[j]) then 0 else s[j]
    ensures forall j :: |s| <= j < MAX_LEN ==> Cleared(Padded(s))[j] == 0
  {
    CStrOfPadded(s, Zeros(MAX_LEN - |s|));
  }

  /** A field is found in the cleared buffer, ended by a NUL. */
  lemma TokenIsField(s: cstring, i: nat)
    requires |s| < MAX_LEN && i <= |s|
    ensures Token(Cleared(Padded(s)), i) == Cut(Slice(s, i, FieldEnd(s, i)))
  {
    ClearedText(s);
    var (b, e) := (Cleared(Padded(s)), FieldEnd(s, i));
    forall j | 0 <= j < e - i ensures b[i..][j] != 0 && b[i..][j] == s[i + j] {
      assert s[i + j] in s;
    }
    StrLenIs(b[i..], e - i);
    assert CStr(b[i..]) == Slice(s, i, e);
  }

  lemma NothingThere(s: cstring, i: nat)
    requires |s| < MAX_LEN && |s| <= i < MAX_LEN
    ensures Token(Cleared(Padded(s)), i) == [] == Slice(s, |s|, |s|)
  {
    ClearedText(s);
    assert Cleared(Padded(s))[i..][0] == 0;
    StrLenIs(Cleared(Padded(s))[i..], 0);
  }

  lemma {:induction false} NothingBehind(s: cstring, i: nat, n: nat)
    requires |s| < MAX_LEN && |s| <= i && i + 16 * n <= MAX_LEN
    ensures Tokens(Cleared(Padded(s)), i, n) == Fields(s, |s|, n)
    decreases n
  {
    if n > 0 {
      NothingThere(s, i);
      NothingBehind(s, i + 1, n - 1);
    }
  }

  lemma FirstField(s: cstring, i: nat, n: nat)
    requires i <= |s| && n > 0 && Short(Fields(s, i, n))
    ensures |Slice(s, i, FieldEnd(s, i))| <= 15
    ensures var e := FieldEnd(s, i);
            Fields(s, i, n) == [Slice(s, i, e)] + Fields(s, if e < |s| then e + 1 else e, n - 1)
    ensures var e := FieldEnd(s, i); Short(Fields(s, if e < |s| then e + 1 else e, n - 1))
  {
    var e := FieldEnd(s, i);
    var (all, rest) := (Fields(s, i, n), Fields(s, if e < |s| then e + 1 else e, n - 1));
    assert |all[0]| <= 15;
    assert forall k :: 0 <= k < |rest| ==> rest[k] == all[k + 1];
  }

  lemma FieldTaken(s: cstring, i: nat, n: nat)
    requires |s| < MAX_LEN && i <= |s| && n > 0 && i + 16 * n <= MAX_LEN && FieldEnd(s, i) - i <= 15
    ensures var (b, e) := (Cleared(Padded(s)), FieldEnd(s, i));
            Tokens(b, i, n) == [Slice(s, i, e)] + Tokens(b, e + 1, n - 1)
  {
    TokenIsField(s, i);
  }

  lemma {:induction false} ShortFieldsKept(s: cstring, i: nat, n: nat)
    requires |s| < MAX_LEN && i <= |s| && i + 16 * n <= MAX_LEN && Short(Fields(s, i, n))
    ensures Tokens(Cleared(Padded(s)), i, n) == Fields(s, i, n)
    decreases n
  {
    if n > 0 {
      var e := FieldEnd(s, i);
      FirstField(s, i, n);
      FieldTaken(s, i, n);
      if e < |s| {
        ShortFieldsKept(s, e + 1, n - 1);
      } else {
        NothingBehind(s, e + 1, n - 1);
      }
    }
  }

  /** The settings of a text of at most 63 characters are its first three fields
      exactly when each of them has at most 15 characters. */
  lemma SettingsAreFields(s: cstring)
    requires |s| < MAX_LEN
    ensures Settings(Some(s)) == Fields(s, 0, 3) <==> Short(Fields(s, 0, 3))
  {
    if Short(Fields(s, 0, 3)) {
      ShortFieldsKept(s, 0, 3);
    }
  }

  predicate IsWord(w: cstring) {
    1 <= |w| <= 15 && forall j :: 0 <= j < |w| ==> !IsSeparator(w[j])
  }

  /** Words from a place on, one separator behind each; the last may end the text. */
  predicate Spells(s: seq<byte>, i: nat, ws: seq<cstring>)
    decreases |ws|
  {
    ws == [] ||
    var e := i + |ws[0]|;
    e <= |s| && IsWord(ws[0]) && s[i..e] == ws[0] &&
    if e == |s| then |ws| == 1 else IsSeparator(s[e]) && Spells(s, e + 1, ws[1..])
  }

  lemma {:induction false} WordEnds(s: seq<byte>, i: nat, e: nat)
    requires i <= e <= |s| && forall j :: i <= j < e ==> !IsSeparator(s[j])
    requires e < |s| ==> IsSeparator(s[e])
    ensures FieldEnd(s, i) == e
    decreases e - i
  {
    if i < e {
      WordEnds(s, i + 1, e);
    }
  }

  lemma WordIsField(s: cstring, i: nat, e: nat, w: cstring)
    requires i <= e <= |s| && s[i..e] == w && IsWord(w)
    requires e < |s| ==> IsSeparator(s[e])
    ensures FieldEnd(s, i) == e && Slice(s, i, e) == w
  {
    forall j | i <= j < e ensures !IsSeparator(s[j]) {
      assert s[i..e][j - i] == w[j - i];
    }
    WordEnds(s, i, e);
  }

  lemma {:induction false} WordsAreShort(s: seq<byte>, i: nat, ws: seq<cstring>)
    requires Spells(s, i, ws)
    ensures Short(ws)
    decreases |ws|
  {
    if ws != [] && i + |ws[0]| < |s| {
      WordsAreShort(s, i + |ws[0]| + 1, ws[1..]);
    }
  }

  lemma WordTaken(s: cstring, i: nat, ws: seq<cstring>)
    requires i <= |s| && ws != [] && Spells(s, i, ws)
    ensures var e := i + |ws[0]|;
            e <= |s| && Fields(s, i, |ws|) == [ws[0]] + Fields(s, if e < |s| then e + 1 else e, |ws| - 1)
  {
    WordIsField(s, i, i + |ws[0]|, ws[0]);
  }

  lemma HeadAndTail(ws: seq<cstring>)
    requires ws != []
    ensures ws == [ws[0]] + ws[1..]
  {
  }

  lemma {:induction false} WordsAreFields(s: cstring, i: nat, ws: seq<cstring>)
    requires i <= |s| && Spells(s, i, ws)
    ensures Fields(s, i, |ws|) == ws
    decreases |ws|
  {
    if ws != [] {
      WordTaken(s, i, ws);
      HeadAndTail(ws);
      var e := i + |ws[0]|;
      if e < |s| {
        WordsAreFields(s, e + 1, ws[1..]);
      }
    }
  }

  /** Three words of at most 15 characters with single separators between them, as
      README.md prescribes, are stored as they are, whatever follows the third. */
  lemma WordsKept(s: cstring, ws: seq<cstring>)
    requires |s| < MAX_LEN && |ws| == 3 && Spells(s, 0, ws)
    ensures Settings(Some(s)) == ws
  {
    WordsAreFields(s, 0, ws);
    WordsAreShort(s, 0, ws);
    SettingsAreFields(s);
  }

  /** A blank, a carriage return or a line feed. */
  predicate Blank(c: byte) {
    c in {32, 13, 10}
  }

  predicate Plain(w: cstring) {
    1 <= |w| <= 15 && forall j :: 0 <= j < |w| ==> !Blank(w[j])
  }

  lemma SpellsWord(s: seq<byte>, i: nat, w: cstring, tail: seq<byte>, ws: seq<cstring>)
    requires i <= |s| && s[i..] == w + tail && Plain(w)
    requires if tail == [] then ws == [] else Blank(tail[0]) && Spells(s, i + |w| + 1, ws)
    ensures Spells(s, i, [w] + ws)
  {
    var e := i + |w|;
    assert e <= |s| && s[i..e] == s[i..][..|w|] == w;
    assert e < |s| ==> s[e] == s[i..][|w|] == tail[0];
    assert ([w] + ws)[1..] == ws;
  }

  /** A word, a separator, and words behind it. */
  lemma SpellsMore(s: seq<byte>, i: nat, w: cstring, x: byte, tail: seq<byte>, ws: seq<cstring>)
    requires i <= |s| && s[i..] == w + ([x] + tail) && Plain(w) && Blank(x)
    requires Spells(s, i + |w| + 1, ws)
    ensures Spells(s, i, [w] + ws)
  {
    WordBehind(s, i, w, x, tail);
    SpellsWord(s, i, w, [x] + tail, ws);
  }

  lemma TwoWords(s: seq<byte>, i: nat, b: cstring, y: byte, c: cstring, rest: seq<byte>)
    requires i <= |s| && s[i..] == b + ([y] + (c + rest)) && Plain(b) && Plain(c) && Blank(y)
    requires rest == [] || Blank(rest[0])
    ensures Spells(s, i, [b] + [c])
  {
    WordBehind(s, i, b, y, c + rest);
    SpellsWord(s, i + |b| + 1, c, rest, []);
    assert [c] + [] == [c];
    SpellsMore(s, i, b, y, c + rest, [c]);
  }

  lemma FromStart(s: seq<byte>, a: cstring, x: byte, tail: seq<byte>, ws: seq<cstring>)
    requires s == a + ([x] + tail) && Plain(a) && Blank(x) && Spells(s, |a| + 1, ws)
    ensures Spells(s, 0, [a] + ws)
  {
    assert s[0..] == s;
    SpellsMore(s, 0, a, x, tail, ws);
  }

  lemma BehindFirst(s: seq<byte>, a: cstring, x: byte, tail: seq<byte>)
    requires s == a + ([x] + tail)
    ensures |a| + 1 <= |s| && s[|a| + 1..] == tail
  {
  }

  /** A text that starts with three words of 1 to 15 characters, a separator between
      each two and behind the third unless it ends the text, is stored as these
      three words. */
  lemma ThreeWordsKept(s: cstring, a: cstring, b: cstring, c: cstring, x: byte, y: byte, rest: seq<byte>)
    requires |s| <= 63 && s == a + ([x] + (b + ([y] + (c + rest))))
    requires Plain(a) && Plain(b) && Plain(c) && Blank(x) && Blank(y) && (rest == [] || Blank(rest[0]))
    ensures Settings(Some(s)) == [a, b, c]
  {
    var tail := b + ([y] + (c + rest));
    BehindFirst(s, a, x, tail);
    TwoWords(s, |a| + 1, b, y, c, rest);
    FromStart(s, a, x, tail, [b] + [c]);
    WordsKept(s, [a] + ([b] + [c]));
  }

  lemma WordBehind(s: seq<byte>, i: nat, w: cstring, x: byte, tail: seq<byte>)
    requires i <= |s| && s[i..] == w + ([x] + tail)
    ensures i + |w| + 1 <= |s| && s[i + |w| + 1..] == tail
  {
    DropDrop(s, i, |w| + 1);
    assert (w + ([x] + tail))[|w| + 1..] == tail;
  }

  lemma {:induction false} PackedTokens(b: seq<byte>, i: nat, ss: seq<cstring>, pad: seq<byte>)
    requires i + 16 * |ss| <= |b| && b[i..] == Pack(ss) + pad && Short(ss)
    ensures Tokens(b, i, |ss|) == ss
    decreases |ss|
  {
    if ss != [] {
      PackedHead(b, i, ss, pad);
      PackedTokens(b, i + |ss[0]| + 1, ss[1..], pad);
    }
  }

  lemma NothingToClear(b: seq<byte>)
    requires forall t :: t in CStr(b) ==> !IsSeparator(t)
    ensures Cleared(b) == b
  {
    forall i | 0 <= i < StrLen(b) ensures !IsSeparator(b[i]) {
      assert CStr(b)[i] == b[i];
    }
  }

  lemma NoSeparators()
    ensures forall t :: t in DEFAULTS[0] ==> !IsSeparator(t)
  {
  }

  /** The built-in settings, spelled. */
  lemma DefaultsSpelled()
    ensures |DEFAULTS| == 3
    ensures Spelled(DEFAULTS[0], "192.168.1.10") && Spelled(DEFAULTS[1], "255.255.255.0")
    ensures Spelled(DEFAULTS[2], "192.168.1.0")
  {
  }

  /** Without a file the settings are the built-in ones. */
  lemma DefaultSettings()
    ensures Settings(None) == DEFAULTS
  {
    DefaultsFit();
    var b := Buffer(None);
    var pad := Zeros(MAX_LEN - 39);
    assert b == Pack(DEFAULTS) + pad && b[0..] == b;
    PackedHead(b, 0, DEFAULTS, pad);
    assert CStr(b) == DEFAULTS[0];
    NoSeparators();
    NothingToClear(b);
    PackedTokens(b, 0, DEFAULTS, pad);
  }
}
