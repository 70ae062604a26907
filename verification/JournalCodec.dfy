/**
  The binary frames of inci_tennis_expert/journal_codec.py: big-endian fields, a repeated
  total, a digest trailer, a length-prefixed payload area and an order validator.

  SHA-256 is the parameter `sha`: any function from bytes to 32 bytes.
*/
module JournalCodec {
  import opened Common

  type Byte = b: int | 0 <= b < 256

  type Bytes = seq<Byte>

  type Digest = d: Bytes | |d| == 32 witness seq(32, _ => 0)

  const MAX_FRAME_BYTES: nat := 16_777_216
  const MAX_MANIFEST_METADATA_BYTES: nat := 1_048_576
  const MAX_TERMINAL_METADATA_BYTES: nat := 1_048_576
  const MAX_TERMINAL_FRAME_BYTES: nat := 1_048_652
  const MAX_GROUP_METADATA_BYTES: nat := 8_388_532
  const MAX_PAYLOAD_AREA_BYTES: nat := 8_388_608
  const MAX_EVENT_PAYLOAD_BYTES: nat := 131_064
  const MAX_OUTCOMES_PER_PARENT: nat := 64

  const PREFIX_BYTES: nat := 32
  const TRAILER_BYTES: nat := 44
  const FIXED_BYTES: nat := 76

  const FRAME_MAGIC: Bytes := [0x49, 0x58, 0x4A, 0x46]
  const TRAILER_MAGIC: Bytes := [0x46, 0x4A, 0x58, 0x49]
  const VERSION: Byte := 1
  const FLAGS: nat := 0
  const MANIFEST: nat := 1
  const PARENT_GROUP: nat := 2
  const TERMINAL: nat := 3

  const TWO_POW_32: nat := 0x1_0000_0000
  const TWO_POW_64: nat := 0x1_0000_0000_0000_0000

  datatype CodecError = FrameInvalid | OrderInvalid | TerminalMissing | PayloadAreaInvalid | CountInvalid

  // ---------- Big-endian integers ----------

  function Pow256(width: nat): nat {
    if width == 0 then 1 else 256 * Pow256(width - 1)
  }

  function BigEndian(n: nat, width: nat): (r: Bytes)
    ensures |r| == width
  {
    if width == 0 then [] else BigEndian(n / 256, width - 1) + [n % 256]
  }

  function BigEndianValue(bytes: Bytes): nat {
    if bytes == [] then 0
    else 256 * BigEndianValue(bytes[..|bytes| - 1]) + bytes[|bytes| - 1]
  }

  lemma {:induction false} ValueOfBigEndian(n: nat, width: nat)
    requires n < Pow256(width)
    ensures BigEndianValue(BigEndian(n, width)) == n
  {
    if width > 0 {
      ValueOfBigEndian(n / 256, width - 1);
      assert BigEndian(n, width)[..width - 1] == BigEndian(n / 256, width - 1);
    }
  }

  lemma {:induction false} BigEndianOfValue(bytes: Bytes)
    ensures BigEndianValue(bytes) < Pow256(|bytes|)
    ensures BigEndian(BigEndianValue(bytes), |bytes|) == bytes
  {
    if bytes != [] {
      var n := |bytes| - 1;
      BigEndianOfValue(bytes[..n]);
      assert bytes == bytes[..n] + [bytes[n]];
    }
  }

  lemma Widths()
    ensures Pow256(2) == 65536 && Pow256(4) == TWO_POW_32 && Pow256(8) == TWO_POW_64
  {
    assert Pow256(1) == 256;
    assert Pow256(3) == 0x100_0000;
    assert Pow256(5) == 0x100_0000_0000;
    assert Pow256(6) == 0x1_0000_0000_0000;
    assert Pow256(7) == 0x100_0000_0000_0000;
  }

  // ---------- Prefix ----------

  datatype Prefix = Prefix(kind: nat, sequence: nat, total: nat, metadata: nat, payloadArea: nat)

  predicate KindShape(p: Prefix) {
    if p.kind == MANIFEST then
      p.sequence == 0 && p.payloadArea == 0 && p.metadata <= MAX_MANIFEST_METADATA_BYTES
    else if p.kind == PARENT_GROUP then
      p.sequence >= 1 && p.metadata <= MAX_GROUP_METADATA_BYTES && p.payloadArea <= MAX_PAYLOAD_AREA_BYTES
    else
      && p.sequence >= 1 && p.payloadArea == 0 && p.metadata <= MAX_TERMINAL_METADATA_BYTES
      && p.total <= MAX_TERMINAL_FRAME_BYTES
  }

  predicate ValidPrefix(p: Prefix) {
    && p.kind in {MANIFEST, PARENT_GROUP, TERMINAL}
    && p.total == FIXED_BYTES + p.metadata + p.payloadArea
    && FIXED_BYTES <= p.total <= MAX_FRAME_BYTES
    && KindShape(p)
  }

  /** `_EXPERT_FRAME_PREFIX.pack`; None is a struct error. */
  function PackPrefix(p: Prefix): (r: Option<Bytes>)
    ensures r.Some? ==> |r.value| == PREFIX_BYTES
  {
    if p.kind < 256 && p.sequence < TWO_POW_64 && p.total < TWO_POW_64
       && p.metadata < TWO_POW_32 && p.payloadArea < TWO_POW_32 then
      Some(FRAME_MAGIC + [VERSION, p.kind] + BigEndian(FLAGS, 2) + BigEndian(p.sequence, 8)
           + BigEndian(p.total, 8) + BigEndian(p.metadata, 4) + BigEndian(p.payloadArea, 4))
    else None
  }

  function UnpackPrefix(content: Bytes): Prefix
    requires |content| == PREFIX_BYTES
  {
    Prefix(content[5], BigEndianValue(content[8..16]), BigEndianValue(content[16..24]),
           BigEndianValue(content[24..28]), BigEndianValue(content[28..32]))
  }

  function DecodePrefix(content: Bytes): Result<Prefix, CodecError> {
    if |content| != PREFIX_BYTES then Err(FrameInvalid)
    else
      var p := UnpackPrefix(content);
      if content[..4] != FRAME_MAGIC || content[4] != VERSION || BigEndianValue(content[6..8]) != FLAGS
         || !ValidPrefix(p) then Err(FrameInvalid)
      else Ok(p)
  }

  lemma PackedFields(p: Prefix)
    requires PackPrefix(p).Some?
    ensures var c := PackPrefix(p).value;
            && c[..4] == FRAME_MAGIC && c[4] == VERSION && c[5] == p.kind
            && c[6..8] == BigEndian(FLAGS, 2) && c[8..16] == BigEndian(p.sequence, 8)
            && c[16..24] == BigEndian(p.total, 8) && c[24..28] == BigEndian(p.metadata, 4)
            && c[28..32] == BigEndian(p.payloadArea, 4)
  {
  }

  lemma DecodePackedPrefix(p: Prefix)
    requires PackPrefix(p).Some?
    ensures DecodePrefix(PackPrefix(p).value) == if ValidPrefix(p) then Ok(p) else Err(FrameInvalid)
  {
    PackedFields(p);
    Widths();
    ValueOfBigEndian(FLAGS, 2);
    ValueOfBigEndian(p.sequence, 8);
    ValueOfBigEndian(p.total, 8);
    ValueOfBigEndian(p.metadata, 4);
    ValueOfBigEndian(p.payloadArea, 4);
  }

  lemma PackDecodedPrefix(content: Bytes)
    requires DecodePrefix(content).Ok?
    ensures PackPrefix(DecodePrefix(content).value) == Some(content)
  {
    Widths();
    BigEndianOfValue(content[6..8]);
    BigEndianOfValue(content[8..16]);
    BigEndianOfValue(content[16..24]);
    BigEndianOfValue(content[24..28]);
    BigEndianOfValue(content[28..32]);
    SplitPrefix(content);
  }

  lemma SplitPrefix(c: Bytes)
    requires |c| == PREFIX_BYTES
    ensures c == c[..4] + [c[4], c[5]] + c[6..8] + c[8..16] + c[16..24] + c[24..28] + c[28..32]
  {
  }

  // ---------- Frames ----------

  function Ascii(s: string): Bytes {
    seq(|s|, i requires 0 <= i < |s| => s[i] as int % 256)
  }

  /** The digest domain, closed by its zero byte. */
  const FRAME_DIGEST_DOMAIN: Bytes := Ascii("INCI-EXPERT-JOURNAL-FRAME-V1") + [0]

  function FrameDigest(sha: Bytes -> Digest, prefix: Bytes, metadata: Bytes, payloadArea: Bytes): Digest {
    sha(FRAME_DIGEST_DOMAIN + prefix + metadata + payloadArea)
  }

  function PackTrailer(total: nat, digest: Digest): (r: Bytes)
    ensures |r| == TRAILER_BYTES
  {
    BigEndian(total, 8) + digest + TRAILER_MAGIC
  }

  /** Ok carries the stored digest. */
  function ValidateParts(sha: Bytes -> Digest, prefix: Bytes, metadata: Bytes, payloadArea: Bytes, trailer: Bytes)
    : Result<Digest, CodecError>
  {
    var decoded := DecodePrefix(prefix);
    if decoded.Err? then Err(decoded.error)
    else
      var p := decoded.value;
      if |metadata| != p.metadata || |payloadArea| != p.payloadArea || |trailer| != TRAILER_BYTES then Err(FrameInvalid)
      else
        var expected := FrameDigest(sha, prefix, metadata, payloadArea);
        if BigEndianValue(trailer[..8]) != p.total || trailer[40..] != TRAILER_MAGIC || trailer[8..40] != expected then
          Err(FrameInvalid)
        else Ok(expected)
  }

  datatype Frame = Frame(kind: nat, sequence: nat, metadata: Bytes, payloadArea: Bytes, digest: Digest)

  function DecodeFrame(sha: Bytes -> Digest, frame: Bytes): Result<Frame, CodecError> {
    if |frame| < PREFIX_BYTES then Err(FrameInvalid)
    else
      var prefix := frame[..PREFIX_BYTES];
      var decoded := DecodePrefix(prefix);
      if decoded.Err? then Err(decoded.error)
      else
        var p := decoded.value;
        if |frame| != p.total then Err(FrameInvalid)
        else
          var payloadStart := PREFIX_BYTES + p.metadata;
          var trailerStart := payloadStart + p.payloadArea;
          var metadata := frame[PREFIX_BYTES..payloadStart];
          var payloadArea := frame[payloadStart..trailerStart];
          var digest := ValidateParts(sha, prefix, metadata, payloadArea, frame[trailerStart..]);
          if digest.Err? then Err(digest.error)
          else Ok(Frame(p.kind, p.sequence, metadata, payloadArea, digest.value))
  }

  function PrefixOf(kind: nat, sequence: nat, metadata: Bytes, payloadArea: Bytes): Prefix {
    Prefix(kind, sequence, FIXED_BYTES + |metadata| + |payloadArea|, |metadata|, |payloadArea|)
  }

  function EncodeFrame(sha: Bytes -> Digest, kind: nat, sequence: nat, metadata: Bytes, payloadArea: Bytes)
    : Result<Bytes, CodecError>
  {
    var p := PrefixOf(kind, sequence, metadata, payloadArea);
    var packed := PackPrefix(p);
    if packed.None? then Err(FrameInvalid)
    else
      var decoded := DecodePrefix(packed.value);
      if decoded.Err? then Err(decoded.error)
      else
        var trailer := PackTrailer(p.total, FrameDigest(sha, packed.value, metadata, payloadArea));
        var validated := ValidateParts(sha, packed.value, metadata, payloadArea, trailer);
        if validated.Err? then Err(validated.error)
        else Ok(packed.value + metadata + payloadArea + trailer)
  }

  lemma TrailerFields(total: nat, digest: Digest)
    requires total < TWO_POW_64
    ensures var t := PackTrailer(total, digest);
            BigEndianValue(t[..8]) == total && t[8..40] == digest && t[40..] == TRAILER_MAGIC
  {
    var t := PackTrailer(total, digest);
    assert t[..8] == BigEndian(total, 8);
    Widths();
    ValueOfBigEndian(total, 8);
  }

  lemma PackedTrailer(trailer: Bytes)
    requires |trailer| == TRAILER_BYTES && trailer[40..] == TRAILER_MAGIC
    ensures PackTrailer(BigEndianValue(trailer[..8]), trailer[8..40]) == trailer
  {
    BigEndianOfValue(trailer[..8]);
    assert trailer == trailer[..8] + trailer[8..40] + trailer[40..];
  }

  /**
    The parts a frame can carry, with no bound on their total: each part at its own cap still
    fits the frame.
  */
  predicate InCap(kind: nat, sequence: nat, metadata: nat, payloadArea: nat) {
    && sequence < 0x1_0000_0000_0000_0000
    && match kind
       case 1 => sequence == 0 && payloadArea == 0 && metadata <= 1_048_576
       case 2 => sequence >= 1 && metadata <= 8_388_532 && payloadArea <= 8_388_608
       case 3 => sequence >= 1 && payloadArea == 0 && metadata <= 1_048_576
       case _ => false
  }

  lemma ShapeIsInCap(kind: nat, sequence: nat, metadata: Bytes, payloadArea: Bytes)
    ensures var p := PrefixOf(kind, sequence, metadata, payloadArea);
            PackPrefix(p).Some? && ValidPrefix(p) <==> InCap(kind, sequence, |metadata|, |payloadArea|)
  {
  }

  /** Encoding succeeds exactly on in-cap parts, and then lays them out between prefix and trailer. */
  lemma EncodeSucceeds(sha: Bytes -> Digest, kind: nat, sequence: nat, metadata: Bytes, payloadArea: Bytes)
    ensures var r := EncodeFrame(sha, kind, sequence, metadata, payloadArea);
            && (r.Ok? <==> InCap(kind, sequence, |metadata|, |payloadArea|))
            && (r.Err? ==> r.error == FrameInvalid)
            && (r.Ok? ==>
                  var p := PrefixOf(kind, sequence, metadata, payloadArea);
                  && PackPrefix(p).Some? && ValidPrefix(p)
                  && r.value == PackPrefix(p).value + metadata + payloadArea
                                + PackTrailer(p.total, FrameDigest(sha, PackPrefix(p).value, metadata, payloadArea)))
  {
    ShapeIsInCap(kind, sequence, metadata, payloadArea);
    var p := PrefixOf(kind, sequence, metadata, payloadArea);
    if PackPrefix(p).Some? {
      DecodePackedPrefix(p);
      TrailerFields(p.total, FrameDigest(sha, PackPrefix(p).value, metadata, payloadArea));
    }
  }

  lemma SliceParts(a: Bytes, b: Bytes, c: Bytes, d: Bytes)
    ensures var f := a + b + c + d;
            && f[..|a|] == a && f[|a|..|a| + |b|] == b
            && f[|a| + |b|..|a| + |b| + |c|] == c && f[|a| + |b| + |c|..] == d
  {
  }

  /** Decoding an encoded frame returns its parts. */
  lemma DecodeEncodedFrame(sha: Bytes -> Digest, kind: nat, sequence: nat, metadata: Bytes, payloadArea: Bytes)
    requires InCap(kind, sequence, |metadata|, |payloadArea|)
    ensures EncodeFrame(sha, kind, sequence, metadata, payloadArea).Ok?
    ensures var frame := EncodeFrame(sha, kind, sequence, metadata, payloadArea).value;
            && |frame| >= TRAILER_BYTES
            && DecodeFrame(sha, frame) == Ok(Frame(kind, sequence, metadata, payloadArea, DigestOfFrame(sha, frame)))
  {
    EncodeSucceeds(sha, kind, sequence, metadata, payloadArea);
    var p := PrefixOf(kind, sequence, metadata, payloadArea);
    var prefix := PackPrefix(p).value;
    var digest := FrameDigest(sha, prefix, metadata, payloadArea);
    DecodePackedPrefix(p);
    TrailerFields(p.total, digest);
    SliceParts(prefix, metadata, payloadArea, PackTrailer(p.total, digest));
    StoredDigest(sha, EncodeFrame(sha, kind, sequence, metadata, payloadArea).value);
  }

  /** The digest of every byte before the trailer. */
  function DigestOfFrame(sha: Bytes -> Digest, frame: Bytes): Digest
    requires |frame| >= TRAILER_BYTES
  {
    sha(FRAME_DIGEST_DOMAIN + frame[..|frame| - TRAILER_BYTES])
  }

  /** An accepted frame repeats its own length and stores the digest of all bytes before its trailer. */
  lemma StoredDigest(sha: Bytes -> Digest, frame: Bytes)
    requires DecodeFrame(sha, frame).Ok?
    ensures |frame| >= FIXED_BYTES
    ensures var t := |frame| - TRAILER_BYTES;
            && BigEndianValue(frame[t..t + 8]) == |frame|
            && frame[t + 8..t + 40] == DecodeFrame(sha, frame).value.digest == DigestOfFrame(sha, frame)
  {
    var p := DecodePrefix(frame[..PREFIX_BYTES]).value;
    var t := |frame| - TRAILER_BYTES;
    assert frame[t..][..8] == frame[t..t + 8] && frame[t..][8..40] == frame[t + 8..t + 40];
    var body := PREFIX_BYTES + p.metadata;
    assert FRAME_DIGEST_DOMAIN + frame[..PREFIX_BYTES] + frame[PREFIX_BYTES..body] + frame[body..t]
        == FRAME_DIGEST_DOMAIN + frame[..t];
  }

  /** Re-encoding any accepted frame returns the same bytes. */
  lemma EncodeDecodedFrame(sha: Bytes -> Digest, frame: Bytes)
    requires DecodeFrame(sha, frame).Ok?
    ensures var f := DecodeFrame(sha, frame).value;
            EncodeFrame(sha, f.kind, f.sequence, f.metadata, f.payloadArea) == Ok(frame)
  {
    var f := DecodeFrame(sha, frame).value;
    var prefix := frame[..PREFIX_BYTES];
    var p := DecodePrefix(prefix).value;
    var trailer := frame[PREFIX_BYTES + p.metadata + p.payloadArea..];
    assert PrefixOf(f.kind, f.sequence, f.metadata, f.payloadArea) == p;
    assert PackPrefix(p) == Some(prefix) by { PackDecodedPrefix(prefix); }
    assert PackTrailer(p.total, FrameDigest(sha, prefix, f.metadata, f.payloadArea)) == trailer by {
      PackedTrailer(trailer);
    }
    ShapeIsInCap(f.kind, f.sequence, f.metadata, f.payloadArea);
    EncodeSucceeds(sha, f.kind, f.sequence, f.metadata, f.payloadArea);
    Reassemble(frame, p.metadata, p.payloadArea);
  }

  lemma Reassemble(frame: Bytes, m: nat, p: nat)
    requires PREFIX_BYTES + m + p <= |frame|
    ensures frame == frame[..PREFIX_BYTES] + frame[PREFIX_BYTES..PREFIX_BYTES + m]
                     + frame[PREFIX_BYTES + m..PREFIX_BYTES + m + p] + frame[PREFIX_BYTES + m + p..]
  {
  }

  // ---------- The wire format ----------

  /** The big-endian number of four bytes. */
  function U32(bytes: Bytes, at: nat): nat
    requires at + 4 <= |bytes|
  {
    (((bytes[at] as int * 256) + bytes[at + 1]) * 256 + bytes[at + 2]) * 256 + bytes[at + 3]
  }

  function U64(bytes: Bytes, at: nat): nat
    requires at + 8 <= |bytes|
  {
    U32(bytes, at) * 0x1_0000_0000 + U32(bytes, at + 4)
  }

  /** The letters INCI-EXPERT-JOURNAL-FRAME-V1 and a zero byte. */
  const DIGEST_LETTERS: Bytes :=
    [73, 78, 67, 73, 45, 69, 88, 80, 69, 82, 84, 45, 74, 79, 85, 82, 78, 65, 76, 45, 70, 82, 65, 77, 69, 45, 86, 49, 0]

  /** Byte for byte: what makes `bytes` the frame `f`. */
  ghost predicate IsWire(sha: Bytes -> Digest, bytes: Bytes, f: Frame) {
    var body, end := 32 + |f.metadata|, |bytes| - 44;
    && InCap(f.kind, f.sequence, |f.metadata|, |f.payloadArea|)
    && |bytes| == 76 + |f.metadata| + |f.payloadArea|
    && bytes[..8] == [0x49, 0x58, 0x4A, 0x46, 1, f.kind, 0, 0]
    && U64(bytes, 8) == f.sequence && U64(bytes, 16) == |bytes|
    && U32(bytes, 24) == |f.metadata| && U32(bytes, 28) == |f.payloadArea|
    && bytes[32..body] == f.metadata && bytes[body..end] == f.payloadArea
    && U64(bytes, end) == |bytes| && bytes[end + 8..end + 40] == f.digest
    && bytes[end + 40..] == [0x46, 0x4A, 0x58, 0x49]
    && f.digest == sha(DIGEST_LETTERS + bytes[..end])
  }

  lemma U32Is(bytes: Bytes, at: nat)
    requires at + 4 <= |bytes|
    ensures BigEndianValue(bytes[at..at + 4]) == U32(bytes, at)
  {
    var w := bytes[at..at + 4];
    assert w[..3][..2] == w[..2] && w[..2][..1] == w[..1] && w[..1][..0] == [];
    assert BigEndianValue(w[..1]) == w[0];
    var two := 256 * (w[0] as int) + w[1];
    assert BigEndianValue(w[..2]) == two;
    assert BigEndianValue(w[..3]) == 256 * two + w[2];
  }

  lemma {:induction false} ValueJoins(a: Bytes, b: Bytes)
    ensures BigEndianValue(a + b) == BigEndianValue(a) * Pow256(|b|) + BigEndianValue(b)
  {
    if b == [] {
      assert a + b == a;
    } else {
      var n := |b| - 1;
      ValueJoins(a, b[..n]);
      assert (a + b)[..|a + b| - 1] == a + b[..n] && b[..n] + [b[n]] == b;
      hide BigEndianValue;
      LastByte(a + b);
      LastByte(b);
      NextPower(n);
      Shifted(BigEndianValue(a), Pow256(n), BigEndianValue(b[..n]));
    }
  }

  lemma LastByte(bytes: Bytes)
    requires bytes != []
    ensures BigEndianValue(bytes) == 256 * BigEndianValue(bytes[..|bytes| - 1]) + bytes[|bytes| - 1]
  {
  }

  lemma NextPower(n: nat)
    ensures Pow256(n + 1) == 256 * Pow256(n)
  {
  }

  lemma Shifted(x: nat, y: nat, z: nat)
    ensures 256 * (x * y + z) == x * (256 * y) + 256 * z
  {
  }

  lemma U64Is(bytes: Bytes, at: nat)
    requires at + 8 <= |bytes|
    ensures BigEndianValue(bytes[at..at + 8]) == U64(bytes, at)
  {
    var high, low := bytes[at..at + 4], bytes[at + 4..at + 8];
    assert bytes[at..at + 8] == high + low;
    ValueJoins(high, low);
    Widths();
    U32Is(bytes, at);
    U32Is(bytes, at + 4);
  }

  lemma DigestLetters()
    ensures FRAME_DIGEST_DOMAIN == DIGEST_LETTERS
  {
  }

  lemma PrefixExactly(c: Bytes, p: Prefix)
    requires |c| >= 32
    ensures DecodePrefix(c[..32]) == Ok(p) <==>
      && c[..8] == [0x49, 0x58, 0x4A, 0x46, 1, c[5], 0, 0]
      && p == Prefix(c[5], U64(c, 8), U64(c, 16), U32(c, 24), U32(c, 28))
      && p.total == 76 + p.metadata + p.payloadArea && InCap(p.kind, p.sequence, p.metadata, p.payloadArea)
  {
    var w := c[..32];
    U64Is(c, 8);
    U64Is(c, 16);
    U32Is(c, 24);
    U32Is(c, 28);
    assert w[8..16] == c[8..16] && w[16..24] == c[16..24] && w[24..28] == c[24..28] && w[28..32] == c[28..32];
    assert w[..4] == c[..4] && w[6..8] == [c[6], c[7]];
    FlagsZero(c[6], c[7]);
    assert c[..8] == c[..4] + [c[4], c[5], c[6], c[7]];
    SequenceBound(c);
    hide BigEndianValue, U32, U64;
  }

  lemma FlagsZero(a: Byte, b: Byte)
    ensures BigEndianValue([a, b]) == 0 <==> a == 0 && b == 0
  {
    assert [a, b][..1] == [a] && [a][..0] == [];
    assert BigEndianValue([a]) == a;
  }

  lemma SequenceBound(c: Bytes)
    requires |c| >= 32
    ensures U64(c, 8) < 0x1_0000_0000_0000_0000
  {
  }

  /** What follows the prefix decides the rest. */
  lemma WireParts(sha: Bytes -> Digest, bytes: Bytes, p: Prefix)
    requires |bytes| >= 76 && DecodePrefix(bytes[..32]) == Ok(p)
    ensures p.total != |bytes| ==> DecodeFrame(sha, bytes).Err?
    ensures p.total == |bytes| ==>
      var body, end := 32 + p.metadata, |bytes| - 44;
      var closed := U64(bytes, end) == |bytes| && bytes[end + 40..] == [0x46, 0x4A, 0x58, 0x49]
                    && bytes[end + 8..end + 40] == sha(DIGEST_LETTERS + bytes[..end]);
      && body <= end
      && DecodeFrame(sha, bytes)
         == if closed then Ok(Frame(p.kind, p.sequence, bytes[32..body], bytes[body..end], bytes[end + 8..end + 40]))
            else Err(FrameInvalid)
  {
    var body, end := 32 + p.metadata, |bytes| - 44;
    if p.total == |bytes| {
      DigestLetters();
      U64Is(bytes, end);
      assert bytes[end..][..8] == bytes[end..end + 8] && bytes[end..][8..40] == bytes[end + 8..end + 40];
      assert bytes[end..][40..] == bytes[end + 40..];
      assert DIGEST_LETTERS + bytes[..32] + bytes[32..body] + bytes[body..end] == DIGEST_LETTERS + bytes[..end];
      hide DecodePrefix, BigEndianValue, U64;
    }
  }

  /** Bytes decode to a frame exactly when they are it, byte for byte. */
  lemma DecodesExactly(sha: Bytes -> Digest, bytes: Bytes, f: Frame)
    ensures DecodeFrame(sha, bytes) == Ok(f) <==> IsWire(sha, bytes, f)
  {
    if |bytes| >= 76 {
      var p := Prefix(bytes[5], U64(bytes, 8), U64(bytes, 16), U32(bytes, 24), U32(bytes, 28));
      PrefixExactly(bytes, p);
      var decoded := DecodePrefix(bytes[..32]);
      if decoded.Ok? {
        PrefixExactly(bytes, decoded.value);
        WireParts(sha, bytes, p);
      }
      if decoded.Err? { NoPrefix(sha, bytes); }
      hide DecodeFrame, DecodePrefix, U32, U64, InCap;
    } else {
      StoredLength(sha, bytes);
    }
  }

  lemma NoPrefix(sha: Bytes -> Digest, bytes: Bytes)
    requires |bytes| >= 32 && DecodePrefix(bytes[..32]).Err?
    ensures DecodeFrame(sha, bytes).Err?
  {
    hide DecodePrefix;
  }

  lemma StoredLength(sha: Bytes -> Digest, bytes: Bytes)
    ensures DecodeFrame(sha, bytes).Ok? ==> |bytes| >= 76
  {
  }

  // ---------- Streams of frames ----------

  function Concat(frames: seq<Bytes>): Bytes {
    if frames == [] then [] else frames[0] + Concat(frames[1..])
  }

  ghost predicate Accepted(sha: Bytes -> Digest, frames: seq<Bytes>) {
    forall f :: f in frames ==> DecodeFrame(sha, f).Ok?
  }

  /** No accepted frame is a proper prefix of another. */
  lemma FramePrefixFree(sha: Bytes -> Digest, f: Bytes, g: Bytes, x: Bytes, y: Bytes)
    requires DecodeFrame(sha, f).Ok? && DecodeFrame(sha, g).Ok? && f + x == g + y
    ensures f == g && x == y
  {
    assert f[..PREFIX_BYTES] == (f + x)[..PREFIX_BYTES];
    assert g[..PREFIX_BYTES] == (g + y)[..PREFIX_BYTES];
    assert |f| == |g|;
    assert f == (f + x)[..|f|] && g == (g + y)[..|g|];
    assert x == (f + x)[|f|..] && y == (g + y)[|g|..];
  }

  lemma ConcatNonempty(sha: Bytes -> Digest, frames: seq<Bytes>)
    requires Accepted(sha, frames)
    ensures frames != [] ==> Concat(frames) != []
  {
    if frames != [] {
      assert frames[0] in frames;
    }
  }

  /** A byte stream splits into accepted frames in at most one way. */
  lemma {:induction false} UniqueSplit(sha: Bytes -> Digest, fs: seq<Bytes>, gs: seq<Bytes>)
    requires Accepted(sha, fs) && Accepted(sha, gs) && Concat(fs) == Concat(gs)
    ensures fs == gs
  {
    ConcatNonempty(sha, fs);
    ConcatNonempty(sha, gs);
    if fs != [] && gs != [] {
      assert fs[0] in fs && gs[0] in gs;
      FramePrefixFree(sha, fs[0], gs[0], Concat(fs[1..]), Concat(gs[1..]));
      UniqueSplit(sha, fs[1..], gs[1..]);
    }
  }

  // ---------- Payload area ----------

  function AreaBytes(payloads: seq<Bytes>): Bytes {
    if payloads == [] then []
    else BigEndian(|payloads[0]|, 8) + payloads[0] + AreaBytes(payloads[1..])
  }

  predicate PayloadsInCap(payloads: seq<Bytes>) {
    forall i :: 0 <= i < |payloads| ==> |payloads[i]| <= 131_064
  }

  /** What the bytes hold when read as `count` length-prefixed payloads and nothing more. */
  function ReadPayloads(area: Bytes, count: nat): Option<seq<Bytes>> {
    if count == 0 then if area == [] then Some([]) else None
    else if |area| < 8 then None
    else
      var n := BigEndianValue(area[..8]);
      if n > MAX_EVENT_PAYLOAD_BYTES || 8 + n > |area| then None
      else
        match ReadPayloads(area[8 + n..], count - 1)
        case None => None
        case Some(rest) => Some([area[8..8 + n]] + rest)
  }

  lemma {:induction false} AreaBytesAppend(payloads: seq<Bytes>, p: Bytes)
    ensures AreaBytes(payloads + [p]) == AreaBytes(payloads) + (BigEndian(|p|, 8) + p)
  {
    if payloads == [] {
      assert payloads + [p] == [p];
      assert AreaBytes([p]) == BigEndian(|p|, 8) + p + AreaBytes([]);
    } else {
      assert (payloads + [p])[1..] == payloads[1..] + [p];
      AreaBytesAppend(payloads[1..], p);
    }
  }

  /** Sixty-four payloads at their cap exactly fill the area; in-cap payloads never overflow it. */
  lemma {:induction false} AreaFits(payloads: seq<Bytes>)
    requires PayloadsInCap(payloads)
    ensures |AreaBytes(payloads)| <= |payloads| * (8 + MAX_EVENT_PAYLOAD_BYTES)
    ensures (forall i :: 0 <= i < |payloads| ==> |payloads[i]| == MAX_EVENT_PAYLOAD_BYTES) ==>
              |AreaBytes(payloads)| == |payloads| * (8 + MAX_EVENT_PAYLOAD_BYTES)
    ensures MAX_OUTCOMES_PER_PARENT * (8 + MAX_EVENT_PAYLOAD_BYTES) == MAX_PAYLOAD_AREA_BYTES
    ensures FIXED_BYTES + MAX_GROUP_METADATA_BYTES + MAX_PAYLOAD_AREA_BYTES == MAX_FRAME_BYTES
  {
    if payloads != [] {
      AreaFits(payloads[1..]);
    }
  }

  method EncodePayloadArea(payloads: seq<Bytes>) returns (r: Result<Bytes, CodecError>)
    ensures r == if 1 <= |payloads| <= 64 && PayloadsInCap(payloads)
                 then Ok(AreaBytes(payloads)) else Err(PayloadAreaInvalid)
  {
    if !(1 <= |payloads| <= MAX_OUTCOMES_PER_PARENT) { return Err(PayloadAreaInvalid); }
    var total := 0;
    for i := 0 to |payloads|
      invariant PayloadsInCap(payloads[..i])
      invariant total == |AreaBytes(payloads[..i])|
    {
      if |payloads[i]| > MAX_EVENT_PAYLOAD_BYTES { return Err(PayloadAreaInvalid); }
      assert payloads[..i + 1] == payloads[..i] + [payloads[i]];
      AreaBytesAppend(payloads[..i], payloads[i]);
      total := total + 8 + |payloads[i]|;
      AreaFits(payloads[..i + 1]);
      if total > MAX_PAYLOAD_AREA_BYTES { return Err(PayloadAreaInvalid); }
    }
    assert payloads[..|payloads|] == payloads;
    var encoded: Bytes := [];
    for i := 0 to |payloads|
      invariant encoded == AreaBytes(payloads[..i])
    {
      assert payloads[..i + 1] == payloads[..i] + [payloads[i]];
      AreaBytesAppend(payloads[..i], payloads[i]);
      encoded := encoded + (BigEndian(|payloads[i]|, 8) + payloads[i]);
    }
    if |encoded| != total { return Err(PayloadAreaInvalid); }
    return Ok(encoded);
  }

  /** The payloads between the bounds the scan has found. */
  function Slices(area: Bytes, bounds: seq<(nat, nat)>): seq<Bytes>
    requires forall b :: b in bounds ==> b.0 <= b.1 <= |area|
  {
    seq(|bounds|, i requires 0 <= i < |bounds| => area[bounds[i].0..bounds[i].1])
  }

  function Prepend(found: seq<Bytes>, rest: Option<seq<Bytes>>): Option<seq<Bytes>> {
    if rest.None? then None else Some(found + rest.value)
  }

  /** The scan at `offset`: what it has bounded, followed by what it has yet to read, is the answer. */
  ghost predicate Scanning(area: Bytes, count: nat, bounds: seq<(nat, nat)>, offset: nat, left: nat) {
    && offset <= |area|
    && (forall b :: b in bounds ==> b.0 <= b.1 <= |area|)
    && ReadPayloads(area, count) == Prepend(Slices(area, bounds), ReadPayloads(area[offset..], left))
  }

  method DecodePayloadArea(area: Bytes, expectedCount: int) returns (r: Result<seq<Bytes>, CodecError>)
    ensures r == if !(1 <= expectedCount <= 64) then Err(CountInvalid)
                 else if |area| > 8_388_608 || ReadPayloads(area, expectedCount).None?
                   then Err(PayloadAreaInvalid)
                 else Ok(ReadPayloads(area, expectedCount).value)
  {
    if expectedCount < 1 || expectedCount > MAX_OUTCOMES_PER_PARENT { return Err(CountInvalid); }
    if |area| > MAX_PAYLOAD_AREA_BYTES { return Err(PayloadAreaInvalid); }
    var offset: nat := 0;
    var bounds: seq<(nat, nat)> := [];
    ScanStart(area, expectedCount);
    for i := 0 to expectedCount
      invariant Scanning(area, expectedCount, bounds, offset, expectedCount - i)
    {
      ScanFails(area, expectedCount, bounds, offset, expectedCount - i);
      if |area| - offset < 8 { return Err(PayloadAreaInvalid); }
      var start := offset + 8;
      var n := BigEndianValue(area[offset..start]);
      if n > MAX_EVENT_PAYLOAD_BYTES { return Err(PayloadAreaInvalid); }
      var end := start + n;
      if end > |area| { return Err(PayloadAreaInvalid); }
      ScanOne(area, expectedCount, bounds, offset, end, expectedCount - i);
      bounds := bounds + [(start, end)];
      offset := end;
    }
    ScanEnd(area, expectedCount, bounds, offset);
    if offset != |area| { return Err(PayloadAreaInvalid); }
    return Ok(Slices(area, bounds));
  }

  lemma ScanStart(area: Bytes, count: nat)
    ensures Scanning(area, count, [], 0, count)
  {
    assert area[0..] == area;
    assert Slices(area, []) == [];
    var r := ReadPayloads(area, count);
    assert r.Some? ==> [] + r.value == r.value;
  }

  lemma ScanFails(area: Bytes, count: nat, bounds: seq<(nat, nat)>, offset: nat, left: nat)
    requires Scanning(area, count, bounds, offset, left) && left > 0
    ensures |area| - offset < 8 ==> ReadPayloads(area, count).None?
    ensures |area| - offset >= 8 ==>
              var n := BigEndianValue(area[offset..offset + 8]);
              n > MAX_EVENT_PAYLOAD_BYTES || offset + 8 + n > |area| ==> ReadPayloads(area, count).None?
  {
    if |area| - offset >= 8 {
      assert area[offset..][..8] == area[offset..offset + 8];
    }
  }

  lemma ScanOne(area: Bytes, count: nat, bounds: seq<(nat, nat)>, offset: nat, end: nat, left: nat)
    requires Scanning(area, count, bounds, offset, left)
    requires left > 0 && offset + 8 <= end <= |area|
    requires BigEndianValue(area[offset..offset + 8]) == end - offset - 8 <= MAX_EVENT_PAYLOAD_BYTES
    ensures Scanning(area, count, bounds + [(offset + 8, end)], end, left - 1)
  {
    var start := offset + 8;
    assert area[offset..][..8] == area[offset..start];
    assert area[offset..][end - offset..] == area[end..];
    assert area[offset..][8..end - offset] == area[start..end];
    var rest := ReadPayloads(area[end..], left - 1);
    if rest.Some? {
      assert Slices(area, bounds) + ([area[start..end]] + rest.value)
          == Slices(area, bounds + [(start, end)]) + rest.value;
    }
  }

  lemma ScanEnd(area: Bytes, count: nat, bounds: seq<(nat, nat)>, offset: nat)
    requires Scanning(area, count, bounds, offset, 0)
    ensures ReadPayloads(area, count) == if offset == |area| then Some(Slices(area, bounds)) else None
  {
    assert Slices(area, bounds) + [] == Slices(area, bounds);
  }

  /** Reading what in-cap payloads were laid out as returns them. */
  lemma {:induction false} ReadAreaBytes(payloads: seq<Bytes>)
    requires PayloadsInCap(payloads)
    ensures ReadPayloads(AreaBytes(payloads), |payloads|) == Some(payloads)
  {
    if payloads != [] {
      var p, rest := payloads[0], payloads[1..];
      ReadAreaBytes(rest);
      hide AreaBytes, ReadPayloads;
      assert payloads == [p] + rest;
      AreaBytesFront(p, rest);
      ReadFront(p, AreaBytes(rest), |rest|);
    }
  }

  /** Reading one length-prefixed payload in front of an area. */
  lemma ReadFront(p: Bytes, rest: Bytes, count: nat)
    requires |p| <= MAX_EVENT_PAYLOAD_BYTES
    ensures ReadPayloads(BigEndian(|p|, 8) + p + rest, count + 1)
         == match ReadPayloads(rest, count) case None => None case Some(payloads) => Some([p] + payloads)
  {
    var area := BigEndian(|p|, 8) + p + rest;
    Widths();
    ValueOfBigEndian(|p|, 8);
    hide BigEndian, BigEndianValue;
    assert area[..8] == BigEndian(|p|, 8) && area[8..8 + |p|] == p && area[8 + |p|..] == rest;
  }

  lemma AreaBytesFront(first: Bytes, rest: seq<Bytes>)
    ensures AreaBytes([first] + rest) == BigEndian(|first|, 8) + first + AreaBytes(rest)
  {
    assert ([first] + rest)[1..] == rest;
  }

  lemma CutFront(area: Bytes, n: nat)
    requires 8 + n <= |area| && n == BigEndianValue(area[..8])
    ensures area == BigEndian(n, 8) + area[8..8 + n] + area[8 + n..]
  {
    BigEndianOfValue(area[..8]);
    assert area == area[..8] + area[8..8 + n] + area[8 + n..];
  }

  /** Laying out what was read returns the same bytes. */
  lemma {:induction false} AreaBytesOfRead(area: Bytes, count: nat)
    requires ReadPayloads(area, count).Some?
    ensures var payloads := ReadPayloads(area, count).value;
            |payloads| == count && PayloadsInCap(payloads) && AreaBytes(payloads) == area
  {
    if count > 0 {
      var n := BigEndianValue(area[..8]);
      var first, rest := area[8..8 + n], area[8 + n..];
      AreaBytesOfRead(rest, count - 1);
      var payloads := ReadPayloads(rest, count - 1).value;
      assert ReadPayloads(area, count) == Some([first] + payloads);
      hide AreaBytes, BigEndian, BigEndianValue, ReadPayloads;
      AreaBytesFront(first, payloads);
      CutFront(area, n);
    }
  }

  // ---------- Frame order ----------

  datatype OrderState = OrderState(manifestSeen: bool, nextSequence: nat, terminalSeen: bool)

  const INITIAL_ORDER := OrderState(false, 0, false)

  /** One prefix; Err leaves the validator as it was. */
  function AcceptPrefix(s: OrderState, prefix: Bytes): Result<OrderState, CodecError> {
    var decoded := DecodePrefix(prefix);
    if decoded.Err? then Err(decoded.error)
    else
      var p := decoded.value;
      if s.terminalSeen then Err(OrderInvalid)
      else if !s.manifestSeen then
        if p.kind != MANIFEST || p.sequence != 0 then Err(OrderInvalid) else Ok(OrderState(true, 1, false))
      else if p.kind == MANIFEST || p.sequence != s.nextSequence then Err(OrderInvalid)
      else if p.kind == PARENT_GROUP then Ok(s.(nextSequence := s.nextSequence + 1))
      else Ok(s.(terminalSeen := true))
  }

  function AcceptAll(prefixes: seq<Bytes>): Result<OrderState, CodecError> {
    if prefixes == [] then Ok(INITIAL_ORDER)
    else
      var before := AcceptAll(prefixes[..|prefixes| - 1]);
      if before.Err? then before else AcceptPrefix(before.value, prefixes[|prefixes| - 1])
  }

  class OrderValidator {
    var manifestSeen: bool
    var nextSequence: nat
    var terminalSeen: bool

    function State(): OrderState
      reads this
    {
      OrderState(manifestSeen, nextSequence, terminalSeen)
    }

    constructor ()
      ensures State() == INITIAL_ORDER
    {
      manifestSeen, nextSequence, terminalSeen := false, 0, false;
    }

    method Accept(prefix: Bytes) returns (r: Result<(), CodecError>)
      modifies this
      ensures match AcceptPrefix(old(State()), prefix)
              case Ok(s) => r == Ok(()) && State() == s
              case Err(e) => r == Err(e) && State() == old(State())
    {
      var decoded := DecodePrefix(prefix);
      if decoded.Err? { return Err(decoded.error); }
      var p := decoded.value;
      if terminalSeen { return Err(OrderInvalid); }
      if !manifestSeen {
        if p.kind != MANIFEST || p.sequence != 0 { return Err(OrderInvalid); }
        manifestSeen := true;
        nextSequence := 1;
        return Ok(());
      }
      if p.kind == MANIFEST || p.sequence != nextSequence { return Err(OrderInvalid); }
      if p.kind == PARENT_GROUP {
        nextSequence := nextSequence + 1;
        return Ok(());
      }
      terminalSeen := true;
      return Ok(());
    }

    method RequireTerminal() returns (r: Result<(), CodecError>)
      ensures r == if terminalSeen then Ok(()) else Err(TerminalMissing)
    {
      if !terminalSeen { return Err(TerminalMissing); }
      return Ok(());
    }
  }

  predicate IsFrame(prefix: Bytes, kind: nat, sequence: nat) {
    var d := DecodePrefix(prefix);
    d.Ok? && d.value.kind == kind && d.value.sequence == sequence
  }

  /** Manifest 0, then groups 1, 2, ... in order. */
  ghost predicate OpenJournal(prefixes: seq<Bytes>) {
    && prefixes != [] && IsFrame(prefixes[0], MANIFEST, 0)
    && forall i :: 1 <= i < |prefixes| ==> IsFrame(prefixes[i], PARENT_GROUP, i)
  }

  /** An open journal closed by the terminal that follows its last group. */
  ghost predicate ClosedJournal(prefixes: seq<Bytes>) {
    var n := |prefixes| - 1;
    n >= 1 && OpenJournal(prefixes[..n]) && IsFrame(prefixes[n], TERMINAL, n)
  }

  /** The validator's state after every sequence of prefixes, and exactly when it has one. */
  lemma {:induction false} OrderShape(prefixes: seq<Bytes>)
    ensures AcceptAll(prefixes).Ok? <==> prefixes == [] || OpenJournal(prefixes) || ClosedJournal(prefixes)
    ensures OpenJournal(prefixes) ==> AcceptAll(prefixes) == Ok(OrderState(true, |prefixes|, false))
    ensures ClosedJournal(prefixes) ==> AcceptAll(prefixes) == Ok(OrderState(true, |prefixes| - 1, true))
  {
    if prefixes != [] {
      var n := |prefixes| - 1;
      var before, last := prefixes[..n], prefixes[n];
      OrderShape(before);
      assert OpenJournal(prefixes) <==> if n == 0 then IsFrame(last, MANIFEST, 0)
                                        else OpenJournal(before) && IsFrame(last, PARENT_GROUP, n);
      if OpenJournal(before) {
        assert !ClosedJournal(before) by { assert AcceptAll(before) == Ok(OrderState(true, n, false)); }
      }
    }
  }

  /**
    A sequence of prefixes passes the validator and `require_terminal` exactly when it is one
    manifest 0, groups 1..n in order, then terminal n + 1.
  */
  lemma PassesExactlyClosedJournals(prefixes: seq<Bytes>)
    ensures AcceptAll(prefixes).Ok? && AcceptAll(prefixes).value.terminalSeen <==> ClosedJournal(prefixes)
  {
    OrderShape(prefixes);
  }
}
