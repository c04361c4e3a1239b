/**
 * The integers and strings of the searchd protocol: network byte order on the wire, the byte
 * order of the machine in memory.
 *
 * A machine of either byte order is allowed. Numbers are split into bytes, and put together
 * again, recursively, so that the laws hold for any width; the protocol uses widths of two and
 * four bytes.
 */
module Wire {
  type Byte = b: int | 0 <= b < 256
  type Short = n: int | 0 <= n < 0x1_0000
  type Word = n: int | 0 <= n < 0x1_0000_0000
  type Qword = n: int | 0 <= n < 0x1_0000_0000_0000_0000
  type Text = s: seq<Byte> | |s| < 0x8000_0000
  type List<T> = s: seq<T> | |s| < 0x8000_0000
  type Int = n: int | -0x8000_0000 <= n < 0x8000_0000

  function Pow256(k: nat): nat {
    if k == 0 then 1 else 256 * Pow256(k - 1)
  }

  // The last k bytes of a number, the highest first
  function Big(n: nat, k: nat): (s: seq<Byte>)
    ensures |s| == k
  {
    if k == 0 then [] else Big(n / 256, k - 1) + [n % 256]
  }

  function FromBig(s: seq<Byte>): (n: nat)
    ensures n < Pow256(|s|)
  {
    if s == [] then 0 else
      var last: int := s[|s| - 1];
      256 * FromBig(s[..|s| - 1]) + last
  }

  // The last k bytes of a number, the lowest first
  function Little(n: nat, k: nat): (s: seq<Byte>)
    ensures |s| == k
  {
    if k == 0 then [] else [n % 256] + Little(n / 256, k - 1)
  }

  function FromLittle(s: seq<Byte>): (n: nat)
    ensures n < Pow256(|s|)
  {
    if s == [] then 0 else
      var first: int := s[0];
      first + 256 * FromLittle(s[1..])
  }

  lemma Powers()
    ensures Pow256(2) == 0x1_0000 && Pow256(4) == 0x1_0000_0000
  {
    assert Pow256(2) == 256 * 256;
    assert Pow256(4) == 256 * 256 * Pow256(2);
  }

  function Big16(n: Short): (s: seq<Byte>)
    ensures |s| == 2
  {
    Big(n, 2)
  }

  function Big32(n: Word): (s: seq<Byte>)
    ensures |s| == 4
  {
    Big(n, 4)
  }

  function High(n: Qword): Word {
    n / 0x1_0000_0000
  }

  function Low(n: Qword): Word {
    n % 0x1_0000_0000
  }

  function FromBig32(s: seq<Byte>): Word
    requires |s| == 4
  {
    Powers();
    FromBig(s)
  }

  function FromLittle32(s: seq<Byte>): Word
    requires |s| == 4
  {
    Powers();
    FromLittle(s)
  }

  // A 32-bit integer as it lies in memory
  function Native(n: Word, bigEndian: bool): seq<Byte> {
    if bigEndian then Big32(n) else Little(n, 4)
  }

  function FromNative(s: seq<Byte>, bigEndian: bool): Word
    requires |s| == 4
  {
    if bigEndian then FromBig32(s) else FromLittle32(s)
  }

  // ntohl and htonl
  function NetToHost(n: Word, bigEndian: bool): Word {
    if bigEndian then n else FromBig32(Little(n, 4))
  }

  function ToInt32(n: Word): Int {
    if n < 0x8000_0000 then n else n - 0x1_0000_0000
  }

  function ToInt64(n: Qword): int {
    if n < 0x8000_0000_0000_0000 then n else n - 0x1_0000_0000_0000_0000
  }

  // The unsigned word that an int or an unsigned of that width is sent as
  function ToWord(n: int): Word {
    n % 0x1_0000_0000
  }

  function ToQword(n: int): Qword {
    n % 0x1_0000_0000_0000_0000
  }

  // What is sent, followed by `tail`

  function PutInt(n: Word, tail: seq<Byte>): seq<Byte> {
    Big32(n) + tail
  }

  function PutInts(ns: seq<Word>, tail: seq<Byte>): seq<Byte> {
    if ns == [] then tail else PutInt(ns[0], PutInts(ns[1..], tail))
  }

  function PutStr(s: Text, tail: seq<Byte>): seq<Byte> {
    PutInt(|s|, s + tail)
  }

  lemma PutIntParts(n: Word, tail: seq<Byte>)
    ensures |PutInt(n, tail)| == 4 + |tail|
    ensures PutInt(n, tail)[..4] == Big32(n) && PutInt(n, tail)[4..] == tail
  {
  }

  lemma PutStrParts(s: Text, tail: seq<Byte>)
    ensures |PutStr(s, tail)| == 4 + |s| + |tail|
    ensures PutStr(s, tail)[..4] == Big32(|s|) && PutStr(s, tail)[4..] == s + tail
    ensures (s + tail)[..|s|] == s && (s + tail)[|s|..] == tail
  {
  }

  lemma WordOfInt(n: Int)
    ensures ToInt32(ToWord(n)) == n
  {
  }

  lemma {:induction false} BigBack(n: nat, k: nat)
    requires n < Pow256(k)
    ensures FromBig(Big(n, k)) == n
  {
    if k > 0 {
      BigBack(n / 256, k - 1);
      assert Big(n, k)[..k - 1] == Big(n / 256, k - 1);
    }
  }

  lemma {:induction false} LittleBack(n: nat, k: nat)
    requires n < Pow256(k)
    ensures FromLittle(Little(n, k)) == n
  {
    if k > 0 {
      LittleBack(n / 256, k - 1);
      assert Little(n, k)[1..] == Little(n / 256, k - 1);
    }
  }

  lemma {:induction false} LittleOfBytes(s: seq<Byte>)
    ensures Little(FromLittle(s), |s|) == s
  {
    if s != [] {
      LittleOfBytes(s[1..]);
      assert FromLittle(s) / 256 == FromLittle(s[1..]) && FromLittle(s) % 256 == s[0];
      assert s == [s[0]] + s[1..];
    }
  }

  function Reversed(s: seq<Byte>): (r: seq<Byte>)
    ensures |r| == |s|
  {
    if s == [] then [] else Reversed(s[1..]) + [s[0]]
  }

  lemma {:induction false} BigIsReversed(n: nat, k: nat)
    ensures Big(n, k) == Reversed(Little(n, k))
  {
    if k > 0 {
      BigIsReversed(n / 256, k - 1);
      assert Little(n, k)[1..] == Little(n / 256, k - 1);
    }
  }

  lemma {:induction false} FromBigIsReversed(s: seq<Byte>)
    ensures FromBig(s) == FromLittle(Reversed(s))
  {
    if s != [] {
      var k := |s| - 1;
      FromBigIsReversed(s[..k]);
      ReversedLast(s);
      assert Reversed(s)[1..] == Reversed(s[..k]);
    }
  }

  lemma {:induction false} ReversedLast(s: seq<Byte>)
    requires s != []
    ensures Reversed(s) == [s[|s| - 1]] + Reversed(s[..|s| - 1])
  {
    if |s| > 1 {
      ReversedLast(s[1..]);
      assert s[1..][..|s| - 2] == s[..|s| - 1][1..];
    } else {
      assert s[..0] == [] && s[1..] == [];
    }
  }

  lemma {:induction false} ReversedTwice(s: seq<Byte>)
    ensures Reversed(Reversed(s)) == s
  {
    if s != [] {
      ReversedLast(Reversed(s));
      assert Reversed(s)[..|s| - 1] == Reversed(s[1..]);
      ReversedTwice(s[1..]);
      assert s == [s[0]] + s[1..];
    }
  }

  // Storing the swapped number puts its bytes in network order.
  lemma StoredForWire(n: Word, bigEndian: bool)
    ensures Native(NetToHost(n, bigEndian), bigEndian) == Big32(n)
  {
    if !bigEndian {
      var l := Little(n, 4);
      FromBigIsReversed(l);
      LittleOfBytes(Reversed(l));
      BigIsReversed(n, 4);
    }
  }

  lemma Big32RoundTrip(n: Word)
    ensures FromBig32(Big32(n)) == n && FromLittle32(Little(n, 4)) == n
  {
    Powers();
    BigBack(n, 4);
    LittleBack(n, 4);
  }

  lemma NativeRoundTrip(n: Word, bigEndian: bool)
    ensures FromNative(Native(n, bigEndian), bigEndian) == n
  {
    Big32RoundTrip(n);
  }

  // Loading four bytes of the wire and swapping them gives the number that was sent.
  lemma LoadedFromWire(n: Word, bigEndian: bool)
    ensures NetToHost(FromNative(Big32(n), bigEndian), bigEndian) == n
  {
    Big32RoundTrip(n);
    LittleOfBytes(Big32(n));
  }

  lemma QwordHalves(n: Qword)
    ensures High(n) * 0x1_0000_0000 + Low(n) == n
  {
  }
}
