/** The frame a log record travels in: `len | crc32c | body`. */
module WalFrames {
  import opened Substrate

  datatype ReadOutcome<+R> = Decoded(record: R, consumed: nat) | Torn

  /** The parts of the record codec that live in the page store: the body serializer and the
      checksum. */
  datatype Format<!R> = Format(body: R -> Bytes, parse: Bytes -> Option<R>, crc: Bytes -> Bytes)

  const FRAME_HEADER := 8

  /** The record has a body that parses back, short enough for a 32-bit length, and a checksum. */
  ghost predicate Fits<R>(f: Format<R>, r: R) {
    f.parse(f.body(r)) == Some(r) && |f.body(r)| < 0x1_0000_0000 && |f.crc(f.body(r))| == 4
  }

  function LittleEndian(n: nat): (b: Bytes)
    requires n < 0x1_0000_0000
    ensures |b| == 4
  {
    [(n % 256) as Byte, (n / 256 % 256) as Byte, (n / 65536 % 256) as Byte, (n / 16777216) as Byte]
  }

  function FromLittleEndian(b: Bytes): nat
    requires |b| == 4
  {
    b[0] as nat + 256 * b[1] as nat + 65536 * b[2] as nat + 16777216 * b[3] as nat
  }

  lemma LittleEndianRoundTrip(n: nat)
    requires n < 0x1_0000_0000
    ensures FromLittleEndian(LittleEndian(n)) == n
  {
  }

  ghost function Encode<R>(f: Format<R>, r: R): (b: Bytes)
    requires Fits(f, r)
    ensures |b| == FRAME_HEADER + |f.body(r)|
  {
    LittleEndian(|f.body(r)|) + f.crc(f.body(r)) + f.body(r)
  }

  function Decode<R>(f: Format<R>, b: Bytes): (o: ReadOutcome<R>)
    ensures o.Decoded? ==> 0 < o.consumed <= |b|
  {
    if |b| < FRAME_HEADER then Torn else
      var len := FromLittleEndian(b[..4]);
      if |b| < FRAME_HEADER + len then Torn else
        var body := b[FRAME_HEADER..FRAME_HEADER + len];
        if f.crc(body) != b[4..FRAME_HEADER] then Torn else
          match f.parse(body)
          case None => Torn
          case Some(r) => Decoded(r, FRAME_HEADER + len)
  }

  /** A record codec, and which records it has room for. */
  datatype Codec<!R> = Codec(encode: R -> Bytes, decode: Bytes -> ReadOutcome<R>, fits: R -> bool)

  ghost predicate DecodesWhole<R>(c: Codec<R>, r: R, rest: Bytes) {
    c.decode(c.encode(r) + rest) == Decoded(r, |c.encode(r)|)
  }

  ghost predicate TornWithin<R>(c: Codec<R>, r: R, k: nat) {
    k < |c.encode(r)| ==> c.decode(c.encode(r)[..k]) == Torn
  }

  ghost predicate Progresses<R>(c: Codec<R>) {
    forall b :: c.decode(b).Decoded? ==> 0 < c.decode(b).consumed <= |b|
  }

  /** A codec meets its contract when every record it has room for decodes to itself and consumes
      exactly its own bytes whatever follows, no proper prefix of one decodes, and decoding always
      makes progress within the input. */
  ghost predicate Exact<R(!new)>(c: Codec<R>) {
    && (forall r, rest :: c.fits(r) ==> DecodesWhole(c, r, rest))
    && (forall r, k :: c.fits(r) ==> TornWithin(c, r, k))
    && Progresses(c)
  }

  ghost predicate AllFit<R>(c: Codec<R>, rs: seq<R>) {
    forall r :: r in rs ==> c.fits(r)
  }

  /** The framed codec. It has room for the records that fit a frame. */
  ghost function Framed<R>(f: Format<R>): Codec<R> {
    Codec(r => if Fits(f, r) then Encode(f, r) else [], b => Decode(f, b), r => Fits(f, r))
  }

  /** The frame meets the contract, whatever the body format and the checksum are. */
  lemma FrameIsExact<R(!new)>(f: Format<R>)
    ensures Exact(Framed(f))
  {
    var c := Framed(f);
    forall r, rest | c.fits(r) ensures DecodesWhole(c, r, rest) {
      DecodeWhole(f, r, rest);
    }
    forall r, k: nat | c.fits(r) ensures TornWithin(c, r, k) {
      if k < |c.encode(r)| {
        DecodeCut(f, r, k);
      }
    }
  }

  lemma DecodeWhole<R>(f: Format<R>, r: R, rest: Bytes)
    requires Fits(f, r)
    ensures Decode(f, Encode(f, r) + rest) == Decoded(r, |Encode(f, r)|)
  {
    var body := f.body(r);
    var b := Encode(f, r) + rest;
    assert b[..4] == LittleEndian(|body|);
    LittleEndianRoundTrip(|body|);
    assert b[4..FRAME_HEADER] == f.crc(body);
    assert b[FRAME_HEADER..FRAME_HEADER + |body|] == body;
  }

  lemma DecodeCut<R>(f: Format<R>, r: R, k: nat)
    requires Fits(f, r)
    requires k < |Encode(f, r)|
    ensures Decode(f, Encode(f, r)[..k]) == Torn
  {
    var body := f.body(r);
    var b := Encode(f, r)[..k];
    if FRAME_HEADER <= k {
      assert b[..4] == LittleEndian(|body|);
      LittleEndianRoundTrip(|body|);
    }
  }

  /** A frame whose checksum is not that of its body is torn, whatever follows it. */
  lemma CorruptFrameIsTorn<R>(f: Format<R>, crc: Bytes, body: Bytes, rest: Bytes)
    requires |body| < 0x1_0000_0000 && |crc| == 4 && f.crc(body) != crc
    ensures Decode(f, LittleEndian(|body|) + crc + body + rest) == Torn
  {
    var b := LittleEndian(|body|) + crc + body + rest;
    assert b[..4] == LittleEndian(|body|);
    LittleEndianRoundTrip(|body|);
    assert b[4..FRAME_HEADER] == crc;
    assert b[FRAME_HEADER..FRAME_HEADER + |body|] == body;
  }
}
