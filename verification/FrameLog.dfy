/** The file format of a trace: frames, each preceded by its length as a little-endian 64-bit integer.

    The payload encoding is a parameter.  The readers work on a file that may return fewer bytes than asked
    for.
 */
module FrameLog {
  import opened Basics

  const U64_MODULUS: nat := 0x1_0000_0000_0000_0000

  // ----- 64-bit little-endian integers -----

  function ToLittleEndian(n: nat, width: nat): (r: seq<byte>)
    ensures |r| == width
  {
    if width == 0 then [] else [(n % 256) as byte] + ToLittleEndian(n / 256, width - 1)
  }

  function FromLittleEndian(bs: seq<byte>): nat {
    if bs == [] then 0 else bs[0] as nat + 256 * FromLittleEndian(bs[1..])
  }

  lemma {:induction false} LittleEndianRoundTrip(n: nat, width: nat)
    requires n < Pow(256, width)
    ensures FromLittleEndian(ToLittleEndian(n, width)) == n
  {
    if width > 0 {
      LittleEndianRoundTrip(n / 256, width - 1);
      assert ToLittleEndian(n, width)[1..] == ToLittleEndian(n / 256, width - 1);
    }
  }

  lemma LengthRoundTrip(n: nat)
    requires n < U64_MODULUS
    ensures FromLittleEndian(ToLittleEndian(n, 8)) == n
  {
    assert Pow(256, 8) == U64_MODULUS;
    LittleEndianRoundTrip(n, 8);
  }

  // ----- the log of a list of frames -----

  /** A payload encoding and its decoder */
  datatype Codec<!F> = Codec(encode: F -> seq<byte>, decode: seq<byte> -> Option<F>)

  /** What the serialisation library provides for the frames of a log: decoding inverts encoding, no payload is empty
      and every length fits in 64 bits. */
  ghost predicate Faithful<F(!new)>(c: Codec<F>, fs: seq<F>) {
    forall f :: f in fs ==> c.decode(c.encode(f)) == Some(f) && 0 < |c.encode(f)| < U64_MODULUS
  }

  function EncodeFrame<F>(c: Codec<F>, f: F): (r: seq<byte>)
    ensures |r| == 8 + |c.encode(f)|
  {
    ToLittleEndian(|c.encode(f)|, 8) + c.encode(f)
  }

  function EncodeLog<F>(c: Codec<F>, fs: seq<F>): seq<byte> {
    if fs == [] then [] else EncodeLog(c, fs[..|fs| - 1]) + EncodeFrame(c, fs[|fs| - 1])
  }

  lemma EncodeAppend<F>(c: Codec<F>, fs: seq<F>, f: F)
    ensures EncodeLog(c, fs + [f]) == EncodeLog(c, fs) + EncodeFrame(c, f)
  {
    assert (fs + [f])[..|fs|] == fs;
  }

  lemma Associative(a: seq<byte>, b: seq<byte>, c: seq<byte>)
    ensures (a + b) + c == a + (b + c)
  {
  }

  lemma Middle(a: seq<byte>, b: seq<byte>, c: seq<byte>, d: seq<byte>)
    ensures var file := (a + (b + c)) + d;
            file[|a|..|a| + |b|] == b && file[|a| + |b|..|a| + |b| + |c|] == c
  {
  }

  lemma {:induction false} EncodeConcat<F>(c: Codec<F>, fs: seq<F>, gs: seq<F>)
    ensures EncodeLog(c, fs + gs) == EncodeLog(c, fs) + EncodeLog(c, gs)
  {
    if gs == [] {
      assert fs + gs == fs;
    } else {
      var front, last := gs[..|gs| - 1], gs[|gs| - 1];
      hide EncodeFrame, EncodeLog;
      EncodeConcat(c, fs, front);
      assert fs + gs == (fs + front) + [last] && gs == front + [last];
      EncodeAppend(c, fs + front, last);
      EncodeAppend(c, front, last);
      Associative(EncodeLog(c, fs), EncodeLog(c, front), EncodeFrame(c, last));
    }
  }

  /** The length field at an offset */
  function LengthAt(file: seq<byte>, off: nat): nat
    requires off + 8 <= |file|
  {
    FromLittleEndian(file[off..off + 8])
  }

  /** Where frame i of a log starts, and that it is there in full */
  lemma FrameAt<F(!new)>(c: Codec<F>, fs: seq<F>, i: nat)
    requires Faithful(c, fs) && i < |fs|
    ensures var off, file := |EncodeLog(c, fs[..i])|, EncodeLog(c, fs);
            var n := |c.encode(fs[i])|;
            && off + 8 + n <= |file| && LengthAt(file, off) == n > 0
            && c.decode(file[off + 8..off + 8 + n]) == Some(fs[i])
            && |EncodeLog(c, fs[..i + 1])| == off + 8 + n
  {
    var before, rest := fs[..i], fs[i + 1..];
    assert fs[..i + 1] == before + [fs[i]];
    assert fs == fs[..i + 1] + rest;
    EncodeAppend(c, before, fs[i]);
    EncodeConcat(c, fs[..i + 1], rest);
    var n := |c.encode(fs[i])|;
    assert c.decode(c.encode(fs[i])) == Some(fs[i]);
    Middle(EncodeLog(c, before), ToLittleEndian(n, 8), c.encode(fs[i]), EncodeLog(c, rest));
    LengthRoundTrip(n);
  }

  // ----- reading -----

  /** How many bytes a read returns: as many as the file has and were asked for, unless it is cut short.  A read at
      an offset returns at most `limit` of the offset, and at least one byte if there is one. */
  function ReadSize(limit: nat -> nat, file: seq<byte>, off: nat, count: nat): (n: nat)
    ensures n <= count && (off >= |file| ==> n == 0) && (off < |file| ==> off + n <= |file|)
    ensures off < |file| && count > 0 ==> n > 0
  {
    if off >= |file| then 0
    else
      var available := if count < |file| - off then count else |file| - off;
      if limit(off) == 0 && available > 0 then 1 else if limit(off) < available then limit(off) else available
  }

  /** `read_at` */
  method ReadAt(limit: nat -> nat, file: seq<byte>, off: nat, count: nat) returns (data: seq<byte>)
    ensures |data| == ReadSize(limit, file, off, count)
    ensures data != [] ==> off + |data| <= |file| && data == file[off..off + |data|]
  {
    var len := ReadSize(limit, file, off, count);
    data := if len == 0 then [] else file[off..off + len];
  }

  function Zeros(n: nat): (r: seq<byte>)
    ensures |r| == n
  {
    if n == 0 then [] else [0] + Zeros(n - 1)
  }

  /** The length a frame's reader works with: what the one read of the header gave, in a buffer of zeros */
  function HeaderLength(limit: nat -> nat, file: seq<byte>, off: nat): nat
    requires off < |file|
  {
    var got := ReadSize(limit, file, off, 8);
    FromLittleEndian(file[off..off + got] + Zeros(8 - got))
  }

  lemma {:induction false} PaddedValue(bs: seq<byte>, n: nat)
    ensures FromLittleEndian(bs + Zeros(n)) == FromLittleEndian(bs)
  {
    if bs != [] {
      PaddedValue(bs[1..], n);
      assert (bs + Zeros(n))[1..] == bs[1..] + Zeros(n);
    } else if n > 0 {
      PaddedValue(bs, n - 1);
      assert bs + Zeros(n) == [0] + (bs + Zeros(n - 1));
    }
  }

  lemma {:induction false} SplitValue(bs: seq<byte>, n: nat)
    requires n <= |bs|
    ensures FromLittleEndian(bs[..n]) < Pow(256, n)
    ensures FromLittleEndian(bs) == FromLittleEndian(bs[..n]) + Pow(256, n) * FromLittleEndian(bs[n..])
  {
    if n > 0 {
      var low, high := FromLittleEndian(bs[1..n]), FromLittleEndian(bs[n..]);
      SplitValue(bs[1..], n - 1);
      assert bs[1..][..n - 1] == bs[1..n] && bs[1..][n - 1..] == bs[n..];
      assert bs[..n][1..] == bs[1..n];
      Distribute(bs[0] as nat, low, Pow(256, n - 1), high);
    } else {
      assert bs[0..] == bs && bs[..0] == [];
    }
  }

  lemma Distribute(b: nat, low: nat, p: nat, high: nat)
    ensures b + 256 * (low + p * high) == (b + 256 * low) + (256 * p) * high
  {
  }

  lemma SmallHighPart(low: nat, p: nat, high: nat)
    requires low < p
    ensures low + p * high < p <==> high == 0
  {
    if high > 0 { assert p * high >= p; }
  }

  /** A header read that is cut short gives the length exactly when the length fits in the bytes that came. */
  lemma HeaderExactIff(limit: nat -> nat, file: seq<byte>, off: nat)
    requires off + 8 <= |file|
    ensures HeaderLength(limit, file, off) == LengthAt(file, off) <==>
            LengthAt(file, off) < Pow(256, ReadSize(limit, file, off, 8))
  {
    hide FromLittleEndian, Pow;
    var got, bs := ReadSize(limit, file, off, 8), file[off..off + 8];
    assert bs[..got] == file[off..off + got];
    PaddedValue(bs[..got], 8 - got);
    SplitValue(bs, got);
    var low, high := FromLittleEndian(bs[..got]), FromLittleEndian(bs[got..]);
    SmallHighPart(low, Pow(256, got), high);
    if high > 0 { assert Pow(256, got) * high > 0; }
  }

  datatype ReadResult<+F> = Eof | Frame(frame: F) | Malformed | Hangs

  /** `read_frame_at`, on any file and for any pattern of short reads.  The header is one read whose size is not
      checked; the payload is gathered in blocks of at most 1024 bytes.  A read that returns nothing will never
      return anything, and the original then loops for ever. */
  method ReadFrameAt<F>(limit: nat -> nat, c: Codec<F>, file: seq<byte>, off: nat) returns (r: ReadResult<F>, next: nat)
    ensures off >= |file| ==> r == Eof && next == off
    ensures off < |file| ==>
              var n := HeaderLength(limit, file, off);
              if n == 0 || off + 8 + n > |file| then r == Hangs
              else
                && next == off + 8 + n
                && r == match c.decode(file[off + 8..next]) { case Some(f) => Frame(f) case None => Malformed }
  {
    hide FromLittleEndian;
    var header := ReadAt(limit, file, off, 8);
    if |header| == 0 {
      return Eof, off;
    }
    var data: seq<byte> := [];
    var start := off + 8;
    var current: nat, left: nat := start, FromLittleEndian(header + Zeros(8 - |header|));
    while true
      invariant current + left == start + HeaderLength(limit, file, off)
      invariant start <= current && (left == 0 ==> current == start)
      invariant if start < current then current <= |file| && data == file[start..current] else data == []
      decreases left
    {
      var buff := ReadAt(limit, file, current, if left < 1024 then left else 1024);
      if |buff| == 0 {
        return Hangs, current;
      }
      data := data + buff;
      current := current + |buff|;
      left := left - |buff|;
      assert data == file[start..current];
      if left == 0 {
        next := current;
        match c.decode(data) {
          case Some(f) => r := Frame(f);
          case None => r := Malformed;
        }
        return;
      }
    }
  }

  /** Every length of the log fits in the bytes that the read of its header gives. */
  ghost predicate HeadersSuffice<F>(limit: nat -> nat, c: Codec<F>, fs: seq<F>) {
    forall i :: 0 <= i < |fs| ==> HeaderSuffices(limit, c, fs, i)
  }

  ghost predicate HeaderSuffices<F>(limit: nat -> nat, c: Codec<F>, fs: seq<F>, i: nat)
    requires i < |fs|
  {
    |c.encode(fs[i])| < Pow(256, ReadSize(limit, EncodeLog(c, fs), |EncodeLog(c, fs[..i])|, 8))
  }

  /** Header reads that are not cut short suffice for every log. */
  lemma WholeHeadersSuffice<F(!new)>(limit: nat -> nat, c: Codec<F>, fs: seq<F>)
    requires Faithful(c, fs) && forall off :: limit(off) >= 8
    ensures HeadersSuffice(limit, c, fs)
  {
    forall i | 0 <= i < |fs| ensures HeaderSuffices(limit, c, fs, i) {
      FrameAt(c, fs, i);
      assert Pow(256, 8) == U64_MODULUS;
      assert ReadSize(limit, EncodeLog(c, fs), |EncodeLog(c, fs[..i])|, 8) == 8;
    }
  }

  /** Frame i of a log is read right, to its last byte, exactly when the read of its header suffices. */
  lemma FrameReadIff<F(!new)>(limit: nat -> nat, c: Codec<F>, fs: seq<F>, i: nat)
    requires Faithful(c, fs) && i < |fs|
    ensures var off, file := |EncodeLog(c, fs[..i])|, EncodeLog(c, fs);
            && off < |file|
            && (off + 8 + HeaderLength(limit, file, off) == |EncodeLog(c, fs[..i + 1])| <==>
                HeaderSuffices(limit, c, fs, i))
  {
    FrameAt(c, fs, i);
    HeaderExactIff(limit, EncodeLog(c, fs), |EncodeLog(c, fs[..i])|);
  }

  /** A payload of 256 bytes whose header comes in one byte at first: the reader sees length zero and never
      returns. */
  lemma ShortHeaderHangs<F(!new)>(limit: nat -> nat, c: Codec<F>, f: F)
    requires |c.encode(f)| == 256 && limit(0) == 1
    ensures EncodeFrame(c, f) != [] && HeaderLength(limit, EncodeFrame(c, f), 0) == 0
  {
    var file := EncodeFrame(c, f);
    assert file[0] == 0;
    assert file[0..1] == [0];
    PaddedValue([0], 7);
    assert FromLittleEndian([0]) == 0 + 256 * FromLittleEndian([]);
  }

  /** Only the encoding of a frame of the log decodes to it. */
  ghost predicate Canonical<F(!new)>(c: Codec<F>, fs: seq<F>) {
    forall bs, f :: f in fs && c.decode(bs) == Some(f) ==> bs == c.encode(f)
  }

  ghost predicate SufficeBelow<F>(limit: nat -> nat, c: Codec<F>, fs: seq<F>, n: nat)
    requires n <= |fs|
  {
    forall i :: 0 <= i < n ==> HeaderSuffices(limit, c, fs, i)
  }

  /** A frame of a log that was read as itself had a header that sufficed. */
  lemma ReadRight<F(!new)>(limit: nat -> nat, c: Codec<F>, fs: seq<F>, i: nat, next: nat)
    requires Faithful(c, fs) && Canonical(c, fs) && i < |fs|
    requires var off, file := |EncodeLog(c, fs[..i])|, EncodeLog(c, fs);
             && off < |file| && next == off + 8 + HeaderLength(limit, file, off) <= |file|
             && c.decode(file[off + 8..next]) == Some(fs[i])
    ensures HeaderSuffices(limit, c, fs, i) && next == |EncodeLog(c, fs[..i + 1])|
  {
    hide EncodeLog, HeaderLength, Faithful, HeaderSuffices;
    FrameAt(c, fs, i);
    FrameReadIff(limit, c, fs, i);
    var off := |EncodeLog(c, fs[..i])|;
    assert |EncodeLog(c, fs)[off + 8..next]| == next - off - 8;
  }

  datatype LogResult<+F> = Read(frames: seq<F>) | Failed | Endless

  /** `read_all` gives back exactly the frames that were written, for every pattern of short reads whose header
      reads suffice, and, if bytes decode to what they encode, for no other. */
  method ReadAll<F(!new)>(
    limit: nat -> nat, c: Codec<F>, file: seq<byte>, ghost written: seq<F>) returns (r: LogResult<F>)
    ensures Faithful(c, written) && file == EncodeLog(c, written) && HeadersSuffice(limit, c, written) ==>
            r == Read(written)
    ensures Faithful(c, written) && Canonical(c, written) && file == EncodeLog(c, written) && r == Read(written) ==>
              HeadersSuffice(limit, c, written)
  {
    hide EncodeLog, HeaderLength, LengthAt, Faithful, HeaderSuffices, Canonical;
    ghost var good := Faithful(c, written) && file == EncodeLog(c, written) && HeadersSuffice(limit, c, written);
    ghost var exact := Faithful(c, written) && Canonical(c, written) && file == EncodeLog(c, written);
    var frames: seq<F> := [];
    var current := 0;
    EmptyLog(c, written);
    while true
      invariant current <= |file|
      invariant good ==> frames <= written && current == |EncodeLog(c, written[..|frames|])|
      invariant exact && frames <= written ==>
                  current == |EncodeLog(c, written[..|frames|])| && SufficeBelow(limit, c, written, |frames|)
      decreases |file| - current
    {
      ghost var i := |frames|;
      if good {
        if i < |written| {
          FrameAt(c, written, i);
          FrameReadIff(limit, c, written, i);
        } else {
          assert written[..i] == written;
        }
      }
      var frame, next := ReadFrameAt(limit, c, file, current);
      match frame {
        case Eof => return Read(frames);
        case Malformed => return Failed;
        case Hangs => return Endless;
        case Frame(f) =>
          if exact && frames + [f] <= written {
            assert (frames + [f])[i] == f == written[i];
            assert frames <= written;
            ReadRight(limit, c, written, i, next);
          }
          frames := frames + [f];
          current := next;
      }
    }
  }

  lemma EmptyLog<F>(c: Codec<F>, fs: seq<F>)
    ensures fs[..0] == [] && EncodeLog(c, fs[..0]) == []
  {
  }

  // ----- scanning for the last frame -----

  datatype ScanResult = Found(off: nat) | Overrun | ShortHeader

  /** From the offset on, the file is cut into frames exactly. */
  ghost predicate Tiled(file: seq<byte>, off: nat)
    decreases |file| - off
  {
    && off + 8 <= |file|
    && var next := off + 8 + LengthAt(file, off);
    && next <= |file|
    && (next == |file| || Tiled(file, next))
  }

  /** The start of the last frame of a tiled file */
  ghost function LastStart(file: seq<byte>, off: nat): (r: nat)
    requires Tiled(file, off)
    ensures r + 8 <= |file| && r + 8 + LengthAt(file, r) == |file|
    decreases |file| - off
  {
    var next := off + 8 + LengthAt(file, off);
    if next == |file| then off else LastStart(file, next)
  }

  /** `offset_of_last_frame_start`, on any file: it succeeds exactly on files cut into frames, and then finds
      the last one.  A header cut short makes the original panic. */
  method OffsetOfLastFrameStart(file: seq<byte>) returns (r: ScanResult)
    ensures r.Found? <==> Tiled(file, 0)
    ensures r.Found? ==> r.off == LastStart(file, 0)
  {
    var offset := 0;
    while true
      invariant Tiled(file, 0) <==> Tiled(file, offset)
      invariant Tiled(file, 0) ==> LastStart(file, 0) == LastStart(file, offset)
      decreases |file| - offset
    {
      if offset + 8 > |file| {
        return ShortHeader;
      }
      var size := LengthAt(file, offset);
      offset := offset + 8;
      if offset + size == |file| {
        return Found(offset - 8);
      }
      if offset + size > |file| {
        return Overrun;
      }
      offset := offset + size;
    }
  }

  lemma {:induction false} LogTiled<F(!new)>(c: Codec<F>, fs: seq<F>, i: nat)
    requires Faithful(c, fs) && i < |fs|
    ensures Tiled(EncodeLog(c, fs), |EncodeLog(c, fs[..i])|)
    ensures LastStart(EncodeLog(c, fs), |EncodeLog(c, fs[..i])|) == |EncodeLog(c, fs[..|fs| - 1])|
    decreases |fs| - i
  {
    hide EncodeLog, FromLittleEndian, Faithful;
    NextFrame(c, fs, i);
    if i + 1 < |fs| {
      LogTiled(c, fs, i + 1);
    }
  }

  lemma NextFrame<F(!new)>(c: Codec<F>, fs: seq<F>, i: nat)
    requires Faithful(c, fs) && i < |fs|
    ensures var off, file := |EncodeLog(c, fs[..i])|, EncodeLog(c, fs);
            && off + 8 <= |file|
            && off + 8 + LengthAt(file, off) == |EncodeLog(c, fs[..i + 1])| <= |file|
            && (i + 1 == |fs| <==> |EncodeLog(c, fs[..i + 1])| == |file|)
            && (i + 1 == |fs| ==> fs[..i] == fs[..|fs| - 1])
  {
    FrameAt(c, fs, i);
    if i + 1 < |fs| {
      FrameAt(c, fs, i + 1);
    } else {
      assert fs[..i + 1] == fs;
    }
  }

  /** On a written log the scan finds the start of the last frame. */
  lemma LastFrameOfLog<F(!new)>(c: Codec<F>, fs: seq<F>)
    requires Faithful(c, fs) && fs != []
    ensures Tiled(EncodeLog(c, fs), 0)
    ensures LastStart(EncodeLog(c, fs), 0) == |EncodeLog(c, fs[..|fs| - 1])|
  {
    assert fs[..0] == [];
    LogTiled(c, fs, 0);
  }

  // ----- codecs -----

  function Tally(n: nat): (r: seq<byte>)
    ensures |r| == n
  {
    if n == 0 then [] else [1] + Tally(n - 1)
  }

  /** The first position of a frame in a list, or its length */
  function IndexOf<F(==)>(fs: seq<F>, f: F): (i: nat)
    ensures i <= |fs| && (i < |fs| <==> f in fs) && (i < |fs| ==> fs[i] == f)
  {
    if fs == [] then 0 else if fs[0] == f then 0 else
      assert fs == [fs[0]] + fs[1..];
      1 + IndexOf(fs[1..], f)
  }

  function Untally<F(==)>(fs: seq<F>, bs: seq<byte>): Option<F> {
    var n := |bs|;
    if 0 < n <= |fs| && IndexOf(fs, fs[n - 1]) == n - 1 && bs == Tally(n) then Some(fs[n - 1]) else None
  }

  /** Every list of frames has a codec: it may number them. */
  lemma CodecExists<F(!new)>(fs: seq<F>) returns (c: Codec<F>)
    requires |fs| < U64_MODULUS
    ensures Faithful(c, fs) && Canonical(c, fs)
  {
    c := Codec(f => Tally(IndexOf(fs, f) + 1), bs => Untally(fs, bs));
  }
}
