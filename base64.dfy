/**
 * The base64 encoder of the upload client (`encode_base64_file` in
 * src/client_file_testing.c): the alphabet `b64_table` and the loop that turns
 * every group of three input bytes into four characters, padding a short last
 * group with '=' as section 4 of RFC 4648 prescribes.
 *
 * `Encode` is the specification, one group per recursive step; `EncodeBuffer`
 * is the C loop, which steps `i` by 3 and writes through `p` into a buffer of
 * `4 * ((fsize + 2) / 3)` characters. `Decode` is a reference inverse, used
 * only to state that the encoding loses nothing.
 */
module Base64 {
  import opened Wrappers

  /** An `unsigned char`. */
  type Byte = b: int | 0 <= b < 256

  /** `b64_table`, written in eight pieces of eight characters. */
  const Table: string :=
    "ABCDEFGH" + "IJKLMNOP" + "QRSTUVWX" + "YZabcdef" +
    "ghijklmn" + "opqrstuv" + "wxyz0123" + "456789+/"

  const Pad: char := '='

  /**
   * Character k of the alphabet, by ranges. The specification uses it in place
   * of indexing the literal; TableChar_IsTable proves the two agree.
   */
  function TableChar(k: int): char
    requires 0 <= k < 64
  {
    if k < 26 then ('A' as int + k) as char
    else if k < 52 then ('a' as int + (k - 26)) as char
    else if k < 62 then ('0' as int + (k - 52)) as char
    else if k == 62 then '+'
    else '/'
  }

  /** The `out_len` the encoder allocates for n input bytes (the NUL aside). */
  function EncodedLength(n: nat): nat {
    4 * ((n + 2) / 3)
  }

  /** Number of '=' characters that end the encoding of n bytes. */
  function PadCount(n: nat): nat {
    if n % 3 == 0 then 0 else 3 - n % 3
  }

  /**
   * The `val` of the loop, `(b0 << 16) + (b1 << 8) + b2`: three bytes packed
   * big-endian into the low 24 bits of a C `int`. On such non-negative values
   * `x << k` is `x * 2^k`, `x >> k` is `x / 2^k` and `x & 0x3F` is `x % 64`,
   * which is how they are written in this module.
   */
  function Packed(b0: Byte, b1: Byte, b2: Byte): (val: nat)
    ensures val < 0x100_0000
  {
    b0 * 0x1_0000 + b1 * 0x100 + b2
  }

  /**
   * The four characters of a group whose first n (1 to 3) bytes are real, by
   * the sextets of section 4 of RFC 4648: `b0 >> 2`, `((b0 & 3) << 4) | (b1 >> 4)`,
   * `((b1 & 15) << 2) | (b2 >> 6)` and `b2 & 63`. A missing byte counts as 0,
   * and a character that only missing bytes determine becomes Pad.
   */
  function Quad(b0: Byte, b1: Byte, b2: Byte, n: nat): (q: string)
    ensures |q| == 4
  {
    [TableChar(b0 / 4),
     TableChar(b0 % 4 * 16 + b1 / 16),
     if n > 1 then TableChar(b1 % 16 * 4 + b2 / 64) else Pad,
     if n > 2 then TableChar(b2 % 64) else Pad]
  }

  /** What one pass of the loop writes for the group that starts at index i. */
  function Group(data: seq<Byte>, i: nat): (q: string)
    requires i < |data|
    ensures |q| == 4
  {
    Quad(data[i],
         if i + 1 < |data| then data[i + 1] else 0,
         if i + 2 < |data| then data[i + 2] else 0,
         if |data| - i < 3 then |data| - i else 3)
  }

  /** The characters the loop writes from index i of data on. */
  function EncodeFrom(data: seq<Byte>, i: nat): string
    decreases |data| - i
  {
    if i >= |data| then "" else Group(data, i) + EncodeFrom(data, i + 3)
  }

  /**
   * One pass of the loop body: the four characters for the bytes at i, i + 1
   * and i + 2, where `left` is `fsize - i` and a byte at or beyond `fsize`
   * reads as 0.
   */
  method EncodeGroup(b0: Byte, b1: Byte, b2: Byte, left: nat) returns (c0: char, c1: char, c2: char, c3: char)
    requires left >= 1
    ensures [c0, c1, c2, c3] == Quad(b0, b1, b2, if left < 3 then left else 3)
  {
    var val := b0 * 0x1_0000 + b1 * 0x100 + b2;
    SextetsOfPacked(b0, b1, b2);
    TableChar_IsTable(val / 0x4_0000 % 64);
    TableChar_IsTable(val / 0x1000 % 64);
    TableChar_IsTable(val / 0x40 % 64);
    TableChar_IsTable(val % 64);
    c0 := Table[val / 0x4_0000 % 64];
    c1 := Table[val / 0x1000 % 64];
    c2 := if 1 < left then Table[val / 0x40 % 64] else Pad;
    c3 := if 2 < left then Table[val % 64] else Pad;
  }

  /**
   * The step of the loop: if `written` followed by the encoding from i on is
   * the whole encoding, so is `written` and the group at i followed by the
   * encoding from i + 3 on.
   */
  lemma EncodeFromStep(data: seq<Byte>, written: string, i: nat)
    requires i < |data|
    requires written + EncodeFrom(data, i) == Encode(data)
    ensures (written + Group(data, i)) + EncodeFrom(data, i + 3) == Encode(data)
    ensures |written| + 4 <= |Encode(data)|
  {
    assert EncodeFrom(data, i) == Group(data, i) + EncodeFrom(data, i + 3);
  }

  /** The encoding of data, group by group. */
  function Encode(data: seq<Byte>): string {
    EncodeFrom(data, 0)
  }

  /** The encoding loop of `encode_base64_file`, over the bytes it has read. */
  method EncodeBuffer(buffer: seq<Byte>) returns (encoded: string)
    ensures encoded == Encode(buffer)
  {
    var fsize := |buffer|;
    var outLen := 4 * ((fsize + 2) / 3);
    var out := new char[outLen];
    var p := 0;
    var i := 0;
    EncodeLength(buffer);
    while i < fsize
      invariant p <= outLen
      invariant out[..p] + EncodeFrom(buffer, i) == Encode(buffer)
    {
      var b1: Byte := if i + 1 < fsize then buffer[i + 1] else 0;
      var b2: Byte := if i + 2 < fsize then buffer[i + 2] else 0;
      var c0, c1, c2, c3 := EncodeGroup(buffer[i], b1, b2, fsize - i);
      ghost var written := out[..p];
      EncodeFromStep(buffer, written, i);
      Put(out, p, c0, c1, c2, c3);
      p := p + 4;
      i := i + 3;
    }
    assert out[..] == out[..p];
    encoded := out[..];
  }

  /** `*p++ = c` four times: the characters are written at p .. p + 3, after what is there. */
  method Put(out: array<char>, p: nat, c0: char, c1: char, c2: char, c3: char)
    requires p + 4 <= out.Length
    modifies out
    ensures out[..p + 4] == old(out[..p]) + [c0, c1, c2, c3]
  {
    out[p], out[p + 1], out[p + 2], out[p + 3] := c0, c1, c2, c3;
  }

  // ---------------------------------------------------------------------------
  // The alphabet
  // ---------------------------------------------------------------------------

  /** TableChar(k) is character k of `b64_table`. */
  lemma TableChar_IsTable(k: int)
    requires 0 <= k < 64
    ensures |Table| == 64 && Table[k] == TableChar(k)
  {
    if k < 8 { assert Table[k] == "ABCDEFGH"[k]; }
    else if k < 16 { assert Table[k] == "IJKLMNOP"[k - 8]; }
    else if k < 24 { assert Table[k] == "QRSTUVWX"[k - 16]; }
    else if k < 32 { assert Table[k] == "YZabcdef"[k - 24]; }
    else if k < 40 { assert Table[k] == "ghijklmn"[k - 32]; }
    else if k < 48 { assert Table[k] == "opqrstuv"[k - 40]; }
    else if k < 56 { assert Table[k] == "wxyz0123"[k - 48]; }
    else { assert Table[k] == "456789+/"[k - 56]; }
  }

  /** No character of the table is the padding character. */
  lemma PadNotInTable()
    ensures Pad !in Table
  {
  }

  // ---------------------------------------------------------------------------
  // Properties of the encoding
  // ---------------------------------------------------------------------------

  /** From index i on, the loop writes four characters per remaining group. */
  lemma {:induction false} EncodeFromLength(data: seq<Byte>, i: nat)
    ensures |EncodeFrom(data, i)| == if i >= |data| then 0 else EncodedLength(|data| - i)
    decreases |data| - i
  {
    if i < |data| {
      EncodeFromLength(data, i + 3);
      EncodedLengthStep(|data| - i);
    }
  }

  /** A group of up to three bytes takes four characters, and the rest follows. */
  lemma EncodedLengthStep(n: nat)
    requires n >= 1
    ensures EncodedLength(n) == 4 + if n <= 3 then 0 else EncodedLength(n - 3)
  {
    assert (n + 2) / 3 == 1 + (n - 1) / 3;
  }

  /** n bytes encode to `4 * ((n + 2) / 3)` characters; no bytes, no characters. */
  lemma EncodeLength(data: seq<Byte>)
    ensures |Encode(data)| == EncodedLength(|data|)
    ensures data == [] <==> Encode(data) == ""
  {
    EncodeFromLength(data, 0);
  }

  /** Characters 4k .. 4k+3 of what is written from i on are the group at i + 3k. */
  lemma {:induction false} GroupAtFrom(data: seq<Byte>, i: nat, k: nat)
    requires i + 3 * k < |data|
    ensures 4 * k + 4 <= |EncodeFrom(data, i)|
    ensures EncodeFrom(data, i)[4 * k..4 * k + 4] == Group(data, i + 3 * k)
    decreases k
  {
    var g := Group(data, i);
    var rest := EncodeFrom(data, i + 3);
    assert EncodeFrom(data, i) == g + rest;
    if k == 0 {
      SliceOfConcat(g, rest, 0, 4);
    } else {
      GroupAtFrom(data, i + 3, k - 1);
      assert i + 3 + 3 * (k - 1) == i + 3 * k;
      SliceOfConcat(g, rest, 4 * k, 4 * k + 4);
      assert (g + rest)[4 * k..4 * k + 4] == rest[4 * (k - 1)..4 * (k - 1) + 4];
    }
  }

  /** A slice of a + b that lies within a, or within b. */
  lemma SliceOfConcat<T>(a: seq<T>, b: seq<T>, j: nat, l: nat)
    requires j <= l <= |a| + |b| && (l <= |a| || |a| <= j)
    ensures l <= |a| ==> (a + b)[j..l] == a[j..l]
    ensures |a| <= j ==> (a + b)[j..l] == b[j - |a|..l - |a|]
  {
  }

  /** Characters 4k .. 4k+3 of the encoding are the group that starts at byte 3k. */
  lemma GroupAt(data: seq<Byte>, k: nat)
    requires 3 * k < |data|
    ensures 4 * k + 4 <= |Encode(data)|
    ensures Encode(data)[4 * k..4 * k + 4] == Group(data, 3 * k)
  {
    GroupAtFrom(data, 0, k);
  }

  /** The shifts and masks the loop applies to `val` give the sextets of RFC 4648. */
  lemma SextetsOfPacked(b0: Byte, b1: Byte, b2: Byte)
    ensures var val := Packed(b0, b1, b2);
      && val / 0x4_0000 % 64 == b0 / 4
      && val / 0x1000 % 64 == b0 % 4 * 16 + b1 / 16
      && val / 0x40 % 64 == b1 % 16 * 4 + b2 / 64
      && val % 64 == b2 % 64
  {
    var val := Packed(b0, b1, b2);
    assert val / 0x4_0000 == b0 / 4;
    assert val / 0x1000 == b0 * 16 + b1 / 16;
    assert val / 0x40 == b0 * 0x400 + b1 * 4 + b2 / 64;
  }

  /** Each full group of three bytes becomes its four RFC 4648 characters. */
  lemma FullGroup(data: seq<Byte>, k: nat)
    requires 3 * k + 3 <= |data|
    ensures 4 * k + 4 <= |Encode(data)|
    ensures var b0, b1, b2 := data[3 * k], data[3 * k + 1], data[3 * k + 2];
      Encode(data)[4 * k..4 * k + 4] ==
        [TableChar(b0 / 4), TableChar(b0 % 4 * 16 + b1 / 16),
         TableChar(b1 % 16 * 4 + b2 / 64), TableChar(b2 % 64)]
  {
    GroupAt(data, k);
  }

  /** What is written for bytes behind a prefix does not depend on the prefix. */
  lemma {:induction false} EncodeFromShift(prefix: seq<Byte>, data: seq<Byte>, i: nat)
    ensures EncodeFrom(prefix + data, |prefix| + i) == EncodeFrom(data, i)
    decreases |data| - i
  {
    var whole := prefix + data;
    if i < |data| {
      assert whole[|prefix| + i] == data[i];
      assert i + 1 < |data| ==> whole[|prefix| + i + 1] == data[i + 1];
      assert i + 2 < |data| ==> whole[|prefix| + i + 2] == data[i + 2];
      SameGroup(whole, |prefix| + i, data, i);
      EncodeFromShift(prefix, data, i + 3);
    }
  }

  /** Groups with the same bytes left, up to three, are the same characters. */
  lemma SameGroup(a: seq<Byte>, i: nat, b: seq<Byte>, j: nat)
    requires i < |a| && j < |b|
    requires (if |a| - i < 3 then |a| - i else 3) == (if |b| - j < 3 then |b| - j else 3)
    requires a[i] == b[j]
    requires i + 1 < |a| ==> a[i + 1] == b[j + 1]
    requires i + 2 < |a| ==> a[i + 2] == b[j + 2]
    ensures Group(a, i) == Group(b, j)
  {
  }

  /** Within a prefix of whole groups, what follows the prefix does not matter. */
  lemma {:induction false} EncodeFromSplit(prefix: seq<Byte>, rest: seq<Byte>, i: nat)
    requires |prefix| % 3 == 0 && i % 3 == 0 && i <= |prefix|
    ensures EncodeFrom(prefix + rest, i) == EncodeFrom(prefix, i) + Encode(rest)
    decreases |prefix| - i
  {
    var whole := prefix + rest;
    if i == |prefix| {
      EncodeFromShift(prefix, rest, 0);
    } else {
      assert whole[i] == prefix[i] && whole[i + 1] == prefix[i + 1] && whole[i + 2] == prefix[i + 2];
      SameGroup(whole, i, prefix, i);
      EncodeFromSplit(prefix, rest, i + 3);
    }
  }

  /** Encoding a prefix of whole groups and then the rest is encoding the lot. */
  lemma EncodeSplit(prefix: seq<Byte>, rest: seq<Byte>)
    requires |prefix| % 3 == 0
    ensures Encode(prefix + rest) == Encode(prefix) + Encode(rest)
  {
    EncodeFromSplit(prefix, rest, 0);
  }

  /** Which characters of a group are alphabet characters and which are Pad. */
  lemma GroupChars(data: seq<Byte>, i: nat)
    requires i < |data|
    ensures var q := Group(data, i);
      && q[0] != Pad && q[1] != Pad
      && (q[2] == Pad <==> |data| - i < 2)
      && (q[3] == Pad <==> |data| - i < 3)
  {
  }

  /** From a group boundary i on, the output is Pad exactly in its last `PadCount` places. */
  lemma {:induction false} PaddingFrom(data: seq<Byte>, i: nat)
    requires i % 3 == 0
    ensures var r := EncodeFrom(data, i);
      forall j | 0 <= j < |r| :: r[j] == Pad <==> j >= |r| - PadCount(|data|)
    decreases |data| - i
  {
    if i < |data| {
      var r, q, rest := EncodeFrom(data, i), Group(data, i), EncodeFrom(data, i + 3);
      assert r == q + rest;
      GroupChars(data, i);
      assert (|data| - i) % 3 == |data| % 3;
      if |data| - i <= 3 {
        assert rest == "";
      } else {
        PaddingFrom(data, i + 3);
        EncodeFromLength(data, i + 3);
        forall j | 0 <= j < |r|
          ensures r[j] == Pad <==> j >= |r| - PadCount(|data|)
        {
          if j >= 4 {
            assert r[j] == rest[j - 4];
          }
        }
      }
    }
  }

  /**
   * Position j of the encoding is Pad exactly in the last `PadCount` places
   * (EncodeAlphabet: every other position holds a character of the table).
   */
  lemma PaddingExact(data: seq<Byte>)
    ensures var r := Encode(data);
      |r| == EncodedLength(|data|) &&
      forall j | 0 <= j < |r| :: r[j] == Pad <==> j >= |r| - PadCount(|data|)
  {
    EncodeLength(data);
    PaddingFrom(data, 0);
    assert Encode(data) == EncodeFrom(data, 0);
  }

  /** Every character written from i on is Pad or one of the alphabet. */
  lemma {:induction false} AlphabetFrom(data: seq<Byte>, i: nat)
    ensures forall c | c in EncodeFrom(data, i) :: c == Pad || CharIndex(c) >= 0
    decreases |data| - i
  {
    if i < |data| {
      var b0: Byte := data[i];
      var b1: Byte := if i + 1 < |data| then data[i + 1] else 0;
      var b2: Byte := if i + 2 < |data| then data[i + 2] else 0;
      CharIndexOfAlphabet(b0 / 4);
      CharIndexOfAlphabet(b0 % 4 * 16 + b1 / 16);
      CharIndexOfAlphabet(b1 % 16 * 4 + b2 / 64);
      CharIndexOfAlphabet(b2 % 64);
      AlphabetFrom(data, i + 3);
    }
  }

  /** Every character of the encoding is Pad or a character of the table. */
  lemma EncodeAlphabet(data: seq<Byte>)
    ensures forall c | c in Encode(data) :: c == Pad || c in Table
  {
    AlphabetFrom(data, 0);
    forall c | c in Encode(data) && c != Pad
      ensures c in Table
    {
      TableChar_IsTable(CharIndex(c));
    }
  }

  /** The three padding cases of the encoder. */
  lemma Padding(data: seq<Byte>)
    ensures var r := Encode(data);
      && (|data| % 3 == 0 ==> Pad !in r)
      && (|data| % 3 == 1 ==> r[|r| - 2..] == [Pad, Pad] && r[|r| - 3] != Pad)
      && (|data| % 3 == 2 ==> r[|r| - 1] == Pad && r[|r| - 2] != Pad)
  {
    PaddingExact(data);
  }

  // ---------------------------------------------------------------------------
  // A reference decoder: the encoding can be undone
  // ---------------------------------------------------------------------------

  /** Position of c in the alphabet, -1 for a character outside it. */
  function CharIndex(c: char): (k: int)
    ensures -1 <= k < 64
    ensures k >= 0 ==> TableChar(k) == c
  {
    if 'A' <= c <= 'Z' then c as int - 'A' as int
    else if 'a' <= c <= 'z' then 26 + (c as int - 'a' as int)
    else if '0' <= c <= '9' then 52 + (c as int - '0' as int)
    else if c == '+' then 62
    else if c == '/' then 63
    else -1
  }

  /** CharIndex undoes the lookup in the alphabet. */
  lemma CharIndexOfAlphabet(k: int)
    requires 0 <= k < 64
    ensures CharIndex(TableChar(k)) == k
  {
  }

  /** The three bytes that four sextets carry (section 4 of RFC 4648, read backwards). */
  function Unpacked(s0: int, s1: int, s2: int, s3: int): seq<Byte>
    requires 0 <= s0 < 64 && 0 <= s1 < 64 && 0 <= s2 < 64 && 0 <= s3 < 64
  {
    [s0 * 4 + s1 / 16, s1 % 16 * 16 + s2 / 4, s2 % 4 * 64 + s3]
  }

  /** The bytes coded by four characters, the last one or two of which may be Pad. */
  function DecodeQuad(q: string, last: bool): Option<seq<Byte>>
    requires |q| == 4
  {
    var i0, i1, i2, i3 := CharIndex(q[0]), CharIndex(q[1]), CharIndex(q[2]), CharIndex(q[3]);
    if i0 < 0 || i1 < 0 then None
    else
      var bs := Unpacked(i0, i1, if i2 < 0 then 0 else i2, if i3 < 0 then 0 else i3);
      if i2 >= 0 && i3 >= 0 then Some(bs)
      else if last && i2 >= 0 && q[3] == Pad then Some(bs[..2])
      else if last && q[2] == Pad && q[3] == Pad then Some(bs[..1])
      else None
  }

  /** Decoding of a string of four-character groups; only the last may be padded. */
  function Decode(s: string): Option<seq<Byte>>
    decreases |s|
  {
    if s == [] then Some([])
    else if |s| < 4 then None
    else match DecodeQuad(s[..4], |s| == 4)
      case None => None
      case Some(bs) =>
        match Decode(s[4..])
        case None => None
        case Some(more) => Some(bs + more)
  }

  /** The sextets of three bytes unpack to those bytes. */
  lemma UnpackSextets(b0: Byte, b1: Byte, b2: Byte)
    ensures Unpacked(b0 / 4, b0 % 4 * 16 + b1 / 16, b1 % 16 * 4 + b2 / 64, b2 % 64) == [b0, b1, b2]
  {
  }

  /**
   * The first byte that four sextets carry is fixed by the first two, the second
   * by the first three; the last sextet matters only for the third byte.
   */
  lemma UnpackLeading(b0: Byte, b1: Byte, s2: int, s3: int)
    requires 0 <= s2 < 64 && 0 <= s3 < 64
    ensures var bs := Unpacked(b0 / 4, b0 % 4 * 16 + b1 / 16, s2, s3);
      && bs[0] == b0
      && (s2 / 4 == b1 % 16 ==> bs[1] == b1)
  {
    assert (b0 % 4 * 16 + b1 / 16) / 16 == b0 % 4;
    assert (b0 % 4 * 16 + b1 / 16) % 16 == b1 / 16;
  }

  /** The four characters of a group decode to its (up to) three bytes. */
  lemma DecodeQuadOfQuad(b0: Byte, b1: Byte, b2: Byte, n: nat, last: bool)
    requires 1 <= n <= 3 && (n < 3 ==> last)
    ensures DecodeQuad(Quad(b0, b1, b2, n), last) == Some([b0, b1, b2][..n])
  {
    CharIndexOfAlphabet(b0 / 4);
    CharIndexOfAlphabet(b0 % 4 * 16 + b1 / 16);
    CharIndexOfAlphabet(b1 % 16 * 4 + b2 / 64);
    CharIndexOfAlphabet(b2 % 64);
    assert CharIndex(Pad) == -1;
    if n == 3 {
      UnpackSextets(b0, b1, b2);
      assert [b0, b1, b2][..3] == [b0, b1, b2];
    } else if n == 2 {
      var s2 := b1 % 16 * 4 + b2 / 64;
      assert s2 / 4 == b1 % 16;
      UnpackLeading(b0, b1, s2, 0);
      assert Unpacked(b0 / 4, b0 % 4 * 16 + b1 / 16, s2, 0)[..2] == [b0, b1] == [b0, b1, b2][..2];
    } else {
      UnpackLeading(b0, b1, 0, 0);
      assert Unpacked(b0 / 4, b0 % 4 * 16 + b1 / 16, 0, 0)[..1] == [b0] == [b0, b1, b2][..1];
    }
  }

  /** Decoding what the loop writes from a group boundary i on gives back data[i..]. */
  lemma {:induction false} DecodeEncodeFrom(data: seq<Byte>, i: nat)
    requires i <= |data|
    ensures Decode(EncodeFrom(data, i)) == Some(data[i..])
    decreases |data| - i
  {
    if i < |data| {
      var g, rest := Group(data, i), EncodeFrom(data, i + 3);
      assert EncodeFrom(data, i) == g + rest;
      var n := if |data| - i < 3 then |data| - i else 3;
      var b1: Byte := if i + 1 < |data| then data[i + 1] else 0;
      var b2: Byte := if i + 2 < |data| then data[i + 2] else 0;
      EncodeFromLength(data, i + 3);
      if i + 3 < |data| {
        EncodedLengthStep(|data| - (i + 3));
      }
      assert rest == [] <==> i + 3 >= |data|;
      assert g == Quad(data[i], b1, b2, n);
      DecodeQuadOfQuad(data[i], b1, b2, n, rest == []);
      assert [data[i], b1, b2][..n] == data[i..i + n];
      if n == 3 {
        DecodeEncodeFrom(data, i + 3);
      } else {
        assert data[i + n..] == [];
      }
      DecodeCons(g, rest, data[i..i + n], data[i + n..]);
      assert data[i..] == data[i..i + n] + data[i + n..];
    } else {
      assert data[i..] == [];
    }
  }

  /** A decodable quad followed by a decodable rest decodes to both, in order. */
  lemma DecodeCons(q: string, rest: string, bs: seq<Byte>, more: seq<Byte>)
    requires |q| == 4 && DecodeQuad(q, rest == []) == Some(bs) && Decode(rest) == Some(more)
    ensures Decode(q + rest) == Some(bs + more)
  {
    var s := q + rest;
    assert s[..4] == q && s[4..] == rest;
    assert (|s| == 4) == (rest == []);
  }

  /** Decoding the encoding of any bytes gives those bytes back. */
  lemma DecodeEncode(data: seq<Byte>)
    ensures Decode(Encode(data)) == Some(data)
  {
    DecodeEncodeFrom(data, 0);
    assert data[0..] == data;
  }
}
