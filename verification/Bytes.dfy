/** Bytes, machine words and C strings, as both PS2 processors hold them in
    memory (little endian), and the byte order of the wire (big endian). */
module Bytes {
  type byte = b: int | 0 <= b < 0x100
  type u16 = w: int | 0 <= w < 0x1_0000
  type u32 = w: int | 0 <= w < 0x1_0000_0000
  type i32 = w: int | -0x8000_0000 <= w < 0x8000_0000
  /** A length a C `int` can hold. */
  type len32 = n: int | 0 <= n < 0x8000_0000
  /** The characters of a C string, its NUL not included. */
  type cstring = s: seq<byte> | 0 !in s witness []

  /** The C conversion of an `int` to `unsigned int`. */
  function Unsigned(x: i32): u32 {
    if x < 0 then x + 0x1_0000_0000 else x
  }

  /** The conversion back. */
  function Signed(w: u32): i32 {
    if w < 0x8000_0000 then w else w - 0x1_0000_0000
  }

  /** The byte of weight 256^i of a word. */
  function Digit(w: u32, i: nat): byte
    requires i < 4
  {
    match i
    case 0 => w % 0x100
    case 1 => w / 0x100 % 0x100
    case 2 => w / 0x100 / 0x100 % 0x100
    case 3 => w / 0x100 / 0x100 / 0x100
  }

  /** The word with the given bytes, the least significant first. */
  function Word(d0: byte, d1: byte, d2: byte, d3: byte): u32 {
    var lo: int := d0 as int + 0x100 * d1 as int;
    var hi: int := d2 as int + 0x100 * d3 as int;
    lo + 0x1_0000 * hi
  }

  function HalfWord(d0: byte, d1: byte): u16 {
    d0 as int + 0x100 * d1 as int
  }

  lemma DigitsOfWord(d0: byte, d1: byte, d2: byte, d3: byte)
    ensures var w := Word(d0, d1, d2, d3);
            Digit(w, 0) == d0 && Digit(w, 1) == d1 && Digit(w, 2) == d2 && Digit(w, 3) == d3
  {
    var w: int := Word(d0, d1, d2, d3);
    var w1: int := d1 as int + 0x100 * (d2 as int + 0x100 * d3 as int);
    var w2: int := d2 as int + 0x100 * d3 as int;
    assert w == d0 as int + 0x100 * w1;
    assert w / 0x100 == w1;
    assert w1 / 0x100 == w2;
  }

  lemma DigitsOfHalf(d0: byte, d1: byte)
    ensures HalfWord(d0, d1) % 0x100 == d0 && HalfWord(d0, d1) / 0x100 == d1
  {
  }

  lemma WordOfDigits(w: u32)
    ensures Word(Digit(w, 0), Digit(w, 1), Digit(w, 2), Digit(w, 3)) == w
  {
    var w1: int := w / 0x100;
    var w2: int := w1 / 0x100;
    assert w == w % 0x100 + 0x100 * w1;
    assert w1 == w1 % 0x100 + 0x100 * w2;
    assert w2 == w2 % 0x100 + 0x100 * (w2 / 0x100);
  }

  /** The memory image of a word: least significant byte first. */
  function Store32(w: u32): (s: seq<byte>) {
    [Digit(w, 0), Digit(w, 1), Digit(w, 2), Digit(w, 3)]
  }

  function Load32(s: seq<byte>): u32
    requires |s| == 4
  {
    Word(s[0], s[1], s[2], s[3])
  }

  function Store16(w: u16): (s: seq<byte>) {
    [w % 0x100, w / 0x100]
  }

  function Load16(s: seq<byte>): u16
    requires |s| == 2
  {
    HalfWord(s[0], s[1])
  }

  /** Network order: most significant byte first. */
  function Wire32(w: u32): (s: seq<byte>) {
    [Digit(w, 3), Digit(w, 2), Digit(w, 1), Digit(w, 0)]
  }

  function Wire16(w: u16): (s: seq<byte>) {
    [w / 0x100, w % 0x100]
  }

  /** What a reader of network order makes of four and of two bytes. */
  function Be32(s: seq<byte>): u32
    requires |s| == 4
  {
    Word(s[3], s[2], s[1], s[0])
  }

  function Be16(s: seq<byte>): u16
    requires |s| == 2
  {
    HalfWord(s[1], s[0])
  }

  /** What the two byte orders are. */
  lemma WordSpelled(w: u32)
    ensures var s := Wire32(w);
            w == 0x100_0000 * (s[0] as int) + 0x1_0000 * (s[1] as int) + 0x100 * (s[2] as int) + s[3] as int
    ensures var s := Store32(w);
            w == 0x100_0000 * (s[3] as int) + 0x1_0000 * (s[2] as int) + 0x100 * (s[1] as int) + s[0] as int
  {
    WordOfDigits(w);
  }

  lemma HalfSpelled(w: u16)
    ensures var s := Wire16(w); w == 0x100 * (s[0] as int) + s[1] as int
    ensures var s := Store16(w); w == 0x100 * (s[1] as int) + s[0] as int
  {
  }

  lemma BeWire32(w: u32)
    ensures Be32(Wire32(w)) == w
  {
    WordOfDigits(w);
  }

  lemma WireBe32(s: seq<byte>)
    requires |s| == 4
    ensures Wire32(Be32(s)) == s
  {
    DigitsOfWord(s[3], s[2], s[1], s[0]);
  }

  lemma BeWire16(w: u16)
    ensures Be16(Wire16(w)) == w
  {
  }

  lemma WireBe16(s: seq<byte>)
    requires |s| == 2
    ensures Wire16(Be16(s)) == s
  {
    DigitsOfHalf(s[1], s[0]);
  }

  lemma LoadStore32(w: u32)
    ensures Load32(Store32(w)) == w
  {
    WordOfDigits(w);
  }

  lemma SignedUnsigned(x: i32)
    ensures Signed(Unsigned(x)) == x
  {
  }

  function Zeros(n: nat): (s: seq<byte>)
    ensures |s| == n && forall i :: 0 <= i < n ==> s[i] == 0
  {
    seq(n, _ => 0)
  }

  /** The first NUL from an index on, or the end when there is none. */
  function NulFrom(s: seq<byte>, i: nat): (e: nat)
    requires i <= |s|
    ensures i <= e <= |s| && (e < |s| ==> s[e] == 0)
    ensures forall j :: i <= j < e ==> s[j] != 0
    decreases |s| - i
  {
    if i < |s| && s[i] != 0 then NulFrom(s, i + 1) else i
  }

  /** strlen */
  function StrLen(s: seq<byte>): (n: nat)
    ensures n <= |s| && (n < |s| ==> s[n] == 0)
    ensures forall i :: 0 <= i < n ==> s[i] != 0
  {
    NulFrom(s, 0)
  }

  /** strlen of what starts at an index finds the NUL from there on. */
  lemma StrLenFrom(s: seq<byte>, i: nat)
    requires i <= |s|
    ensures NulFrom(s, i) == i + StrLen(s[i..])
  {
    var n := StrLen(s[i..]);
    assert n < |s[i..]| ==> s[i + n] == s[i..][n];
    assert forall j :: i <= j < i + n ==> s[j] == s[i..][j - i];
  }

  /** The string that starts a byte sequence. */
  function CStr(s: seq<byte>): cstring {
    var n := StrLen(s);
    assert 0 !in s[..n];
    s[..n]
  }

  /** The characters of a text, as bytes. */
  predicate Spelled(s: seq<byte>, text: string) {
    |s| == |text| && forall i :: 0 <= i < |s| ==> s[i] as int == text[i] as int
  }

  /** What `strncpy(dst, src, n)` leaves in its n destination bytes, given the
      bytes readable from `src`. */
  function Strncpy(src: seq<byte>, n: nat): (s: seq<byte>)
    ensures |s| == n
  {
    if StrLen(src) < n then src[..StrLen(src)] + Zeros(n - StrLen(src)) else src[..n]
  }

  /** strncpy, byte by byte. */
  lemma StrncpyAt(src: seq<byte>, n: nat, i: nat)
    requires i < n && (n <= |src| || StrLen(src) < |src|)
    ensures Strncpy(src, n)[i] == if exists j :: 0 <= j <= i && j < |src| && src[j] == 0 then 0 else src[i]
  {
  }

  /** A length is settled by where the first NUL is. */
  lemma StrLenIs(s: seq<byte>, n: nat)
    requires n < |s| && s[n] == 0
    requires forall i :: 0 <= i < n ==> s[i] != 0
    ensures StrLen(s) == n
  {
  }

  lemma CStrOfPadded(p: cstring, tail: seq<byte>)
    requires tail != [] && tail[0] == 0
    ensures CStr(p + tail) == p
  {
    forall i | 0 <= i < |p| ensures (p + tail)[i] != 0 {
      assert p[i] in p;
    }
    StrLenIs(p + tail, |p|);
    assert (p + tail)[..|p|] == p;
  }

  /** `d` written over a content at a position, with a hole of zeros if the
      position is past the end; nothing written changes nothing. */
  function Overwrite(c: seq<byte>, pos: nat, d: seq<byte>): seq<byte> {
    if d == [] then c else
      var padded := if |c| < pos then c + Zeros(pos - |c|) else c;
      padded[..pos] + d + (if |c| > pos + |d| then c[pos + |d|..] else [])
  }

  /** What is where after that. */
  lemma OverwriteAt(c: seq<byte>, pos: nat, d: seq<byte>)
    requires d != []
    ensures var s := Overwrite(c, pos, d);
            |s| == (if |c| > pos + |d| then |c| else pos + |d|) &&
            forall i :: 0 <= i < |s| ==>
              s[i] == if pos <= i < pos + |d| then d[i - pos] else if i < |c| then c[i] else 0
  {
  }

  lemma OverwriteTwice(c: seq<byte>, pos: nat, d: seq<byte>, e: seq<byte>)
    ensures Overwrite(Overwrite(c, pos, d), pos + |d|, e) == Overwrite(c, pos, d + e)
  {
    if d == [] {
      assert d + e == e;
    } else if e == [] {
      assert d + e == d;
    } else {
      OverwriteAt(c, pos, d);
      OverwriteAt(Overwrite(c, pos, d), pos + |d|, e);
      OverwriteAt(c, pos, d + e);
      SameBytes(Overwrite(Overwrite(c, pos, d), pos + |d|, e), Overwrite(c, pos, d + e));
    }
  }

  lemma SameBytes(a: seq<byte>, b: seq<byte>)
    requires |a| == |b| && forall i :: 0 <= i < |a| ==> a[i] == b[i]
    ensures a == b
  {
  }

  /** Bytes put over a place in others. */
  function Patch(m: seq<byte>, at: nat, d: seq<byte>): (s: seq<byte>)
    requires at + |d| <= |m|
    ensures |s| == |m|
  {
    m[..at] + d + m[at + |d|..]
  }

  lemma PatchAt(m: seq<byte>, at: nat, d: seq<byte>, i: nat)
    requires at + |d| <= |m| && i < |m|
    ensures Patch(m, at, d)[i] == if at <= i < at + |d| then d[i - at] else m[i]
  {
  }

  lemma PatchNothing(m: seq<byte>, at: nat)
    requires at <= |m|
    ensures Patch(m, at, []) == m
  {
  }

  lemma PatchMore(m: seq<byte>, at: nat, d: seq<byte>, e: seq<byte>)
    requires at + |d| + |e| <= |m|
    ensures Patch(Patch(m, at, d), at + |d|, e) == Patch(m, at, d + e)
  {
  }

  /** Strings laid out one behind the other, each with its NUL. */
  function Pack(ss: seq<cstring>): seq<byte> {
    if ss == [] then [] else ss[0] + [0] + Pack(ss[1..])
  }

  lemma {:induction false} PackAppend(ss: seq<cstring>, s: cstring)
    ensures Pack(ss + [s]) == Pack(ss) + (s + [0])
  {
    if ss == [] {
      assert ss + [s] == [s] && [s][1..] == [];
    } else {
      assert (ss + [s])[1..] == ss[1..] + [s];
      PackAppend(ss[1..], s);
    }
  }

  lemma StringAtHead(q: seq<byte>, s: cstring, rest: seq<byte>)
    requires q == s + [0] + rest
    ensures CStr(q) == s && StrLen(q) == |s| && q[|s| + 1..] == rest
  {
    assert q == s + ([0] + rest);
    CStrOfPadded(s, [0] + rest);
  }

  /** The first of strings laid out from a place on. */
  lemma PackedHead(p: seq<byte>, i: nat, ss: seq<cstring>, pad: seq<byte>)
    requires i <= |p| && ss != [] && p[i..] == Pack(ss) + pad
    ensures CStr(p[i..]) == ss[0] && StrLen(p[i..]) == |ss[0]|
    ensures i + |ss[0]| + 1 <= |p| && p[i + |ss[0]| + 1..] == Pack(ss[1..]) + pad
  {
    Associative(ss[0] + [0], Pack(ss[1..]), pad);
    StringAtHead(p[i..], ss[0], Pack(ss[1..]) + pad);
    DropDrop(p, i, |ss[0]| + 1);
  }

  lemma Associative(a: seq<byte>, b: seq<byte>, c: seq<byte>)
    ensures a + b + c == a + (b + c) && [] + c == c
  {
  }

  lemma TakeMore(p: seq<byte>, k: nat, n: nat)
    requires k + n <= |p|
    ensures p[..k] + p[k..k + n] == p[..k + n]
  {
  }

  lemma TakeIsPrefix(p: seq<byte>, k: nat, t: seq<byte>)
    requires k <= |p|
    ensures p[..k] <= p + t && p[..|p|] == p && p + t[..0] == p
  {
  }

  lemma DropDrop(s: seq<byte>, i: nat, j: nat)
    requires i + j <= |s|
    ensures s[i..][j..] == s[i + j..]
  {
  }

  lemma SubSlice(s: seq<byte>, a: nat, b: nat, i: nat, j: nat)
    requires i <= j && a + j <= b <= |s|
    ensures s[a..b][i..j] == s[a + i..a + j]
  {
    var (t, u) := (s[a..b][i..j], s[a + i..a + j]);
    assert forall k :: 0 <= k < |t| ==> t[k] == s[a + i + k] == u[k];
  }

  /** Pieces of a stream, put together. */
  function Flatten(ps: seq<seq<byte>>): seq<byte> {
    if ps == [] then [] else ps[0] + Flatten(ps[1..])
  }

  lemma {:induction false} FlattenAppend(ps: seq<seq<byte>>, p: seq<byte>)
    ensures Flatten(ps + [p]) == Flatten(ps) + p
  {
    if ps == [] {
      assert ps + [p] == [p] && [p][1..] == [];
    } else {
      assert (ps + [p])[1..] == ps[1..] + [p];
      FlattenAppend(ps[1..], p);
    }
  }
}
