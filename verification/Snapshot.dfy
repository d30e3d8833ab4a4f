/** The snapshot sidecar's byte layout (crates/me-backend-sqlite/src/snapshot.rs): length, header,
    payload, hash.

    `LoadsWrittenIff` says which written files come back, and `LayoutUnique` that an accepted file
    splits in one way only.
  */
module Snapshot {
  import opened Collections

  type Byte = n: int | 0 <= n < 256

  const U32_LIMIT := 0x1_0000_0000
  const BLAKE3_LEN := 32
  const MAX_SNAPSHOT_BYTES := 536_870_912
  const FORMAT_VERSION := 2

  // ---------- little-endian u32 ----------

  function ToLe(n: int): (b: seq<Byte>)
    requires 0 <= n < U32_LIMIT
    ensures |b| == 4
  {
    [n % 0x100, n / 0x100 % 0x100, n / 0x1_0000 % 0x100, n / 0x100_0000]
  }

  function Word(b0: int, b1: int, b2: int, b3: int): int { b0 + 0x100 * b1 + 0x1_0000 * b2 + 0x100_0000 * b3 }

  function FromLe(b: seq<Byte>): (n: int)
    requires |b| == 4
    ensures 0 <= n < U32_LIMIT
  {
    Word(b[0], b[1], b[2], b[3])
  }

  lemma LeRoundTrip(n: int)
    requires 0 <= n < U32_LIMIT
    ensures FromLe(ToLe(n)) == n
  {
    var n1 := n / 0x100;
    var n2 := n1 / 0x100;
    assert n / 0x1_0000 == n2 && n / 0x100_0000 == n2 / 0x100;
    assert n == n % 0x100 + 0x100 * n1;
    assert n1 == n1 % 0x100 + 0x100 * n2;
  }

  lemma WordDigits(b0: int, b1: int, b2: int, b3: int)
    requires 0 <= b0 < 0x100 && 0 <= b1 < 0x100 && 0 <= b2 < 0x100 && 0 <= b3 < 0x100
    ensures var n := Word(b0, b1, b2, b3);
      n % 0x100 == b0 && n / 0x100 % 0x100 == b1 && n / 0x1_0000 % 0x100 == b2 && n / 0x100_0000 == b3
  {
    var n := Word(b0, b1, b2, b3);
    assert n / 0x100 == b1 + 0x100 * b2 + 0x1_0000 * b3;
    assert n / 0x1_0000 == b2 + 0x100 * b3;
  }

  lemma LeInjective(b: seq<Byte>)
    requires |b| == 4
    ensures ToLe(FromLe(b)) == b
  {
    WordDigits(b[0], b[1], b[2], b[3]);
  }

  // ---------- the codecs ----------

  datatype Header = Header(version: int, dim: nat, rest: seq<Byte>)

  /** The bits of an `f32`. */
  type Bits = n: int | 0 <= n < U32_LIMIT

  /** `vectors` are the embeddings of the index entries, if an index was saved. */
  datatype Payload = Payload(vectors: Option<seq<seq<Bits>>>, rest: seq<Byte>)

  datatype Codec = Codec(
    packHeader: Header -> seq<Byte>, unpackHeader: seq<Byte> -> Option<Header>,
    packPayload: Payload -> seq<Byte>, unpackPayload: seq<Byte> -> Option<Payload>, hash: seq<Byte> -> seq<Byte>)
  {
    /** Of this header and payload: neither encoding is empty, and the payload's hash has 32 bytes. */
    predicate Encodes(h: Header, p: Payload) {
      |packHeader(h)| > 0 && |packPayload(p)| > 0 && |hash(packPayload(p))| == 32
    }

    /** Decoding gives this header and this payload back. */
    predicate Recovers(h: Header, p: Payload) {
      unpackHeader(packHeader(h)) == Some(h) && unpackPayload(packPayload(p)) == Some(p)
    }
  }

  // ---------- writing ----------

  /** The four sections in file order. */
  function Layout(header: seq<Byte>, payload: seq<Byte>, hash: seq<Byte>): seq<Byte>
    requires |header| < U32_LIMIT
  {
    ToLe(|header|) + header + payload + hash
  }

  /** Nothing is written when the header's length does not fit in a `u32`. The size cap is not checked here. */
  method WriteToFile(c: Codec, h: Header, p: Payload) returns (file: Option<seq<Byte>>)
    ensures file.None? <==> |c.packHeader(h)| >= 0x1_0000_0000
    ensures file.Some? ==> file.value == Layout(c.packHeader(h), c.packPayload(p), c.hash(c.packPayload(p)))
    ensures file.Some? ==>
      var n := |c.packHeader(h)|;
      file.value == [n % 256, n / 256 % 256, n / 65_536 % 256, n / 16_777_216]
        + c.packHeader(h) + c.packPayload(p) + c.hash(c.packPayload(p))
  {
    var header, payload := c.packHeader(h), c.packPayload(p);
    var checksum := c.hash(payload);
    if |header| >= U32_LIMIT {
      return None;
    }
    var out := ToLe(|header|);
    out := out + header;
    out := out + payload;
    out := out + checksum;
    return Some(out);
  }

  // ---------- loading ----------

  /** A section split of a file, all slices in range and the payload non-empty. */
  ghost predicate Splits(data: seq<Byte>, header: seq<Byte>, payload: seq<Byte>, hash: seq<Byte>) {
    |header| < 0x1_0000_0000 && |payload| > 0 && |hash| == 32 && data == Layout(header, payload, hash)
  }

  /** Every saved embedding has this length. */
  ghost predicate OfOneLength(p: Payload, dim: nat) {
    p.vectors == None || forall v :: v in p.vectors.value ==> |v| == dim
  }

  predicate DimsMatch(p: Payload, dim: nat) {
    p.vectors.Some? ==> forall k :: 0 <= k < |p.vectors.value| ==> |p.vectors.value[k]| == dim
  }

  /** Everything that is checked about the sections. */
  ghost predicate Sections(c: Codec, dim: nat, header: seq<Byte>, payload: seq<Byte>, hash: seq<Byte>, h: Header,
                           p: Payload)
  {
    && c.unpackHeader(header) == Some(h) && h.version == 2 && h.dim == dim
    && c.hash(payload) == hash && c.unpackPayload(payload) == Some(p) && OfOneLength(p, dim)
  }

  ghost predicate Loads(c: Codec, data: seq<Byte>, dim: nat, cap: nat, h: Header, p: Payload) {
    && |data| <= cap && |data| >= 38
    && exists header, payload, hash ::
         Splits(data, header, payload, hash) && Sections(c, dim, header, payload, hash, h, p)
  }

  /** The parser: every slice is in range, and it accepts exactly the files that split and check. */
  method LoadFromFile(c: Codec, file: Option<seq<Byte>>, dim: nat) returns (r: Option<(Header, Payload)>)
    ensures file.None? ==> r.None?
    ensures file.Some? && r.Some? ==> Loads(c, file.value, dim, 536_870_912, r.value.0, r.value.1)
    ensures file.Some? && r.None? ==> forall h, p :: !Loads(c, file.value, dim, 536_870_912, h, p)
  {
    if file.None? || |file.value| > MAX_SNAPSHOT_BYTES {
      return None;
    }
    var data := file.value;
    if |data| < 4 + 1 + 1 + BLAKE3_LEN {
      return None;
    }
    var headerLen := FromLe(data[..4]);
    var headerEnd := 4 + headerLen;
    var payloadEnd := |data| - BLAKE3_LEN;
    SplitIff(data);
    if headerEnd >= payloadEnd {
      return None;
    }
    var header, payload, stored := data[4..headerEnd], data[headerEnd..payloadEnd], data[payloadEnd..];
    var h := c.unpackHeader(header);
    if h.None? || h.value.version != FORMAT_VERSION || h.value.dim != dim {
      return None;
    }
    if c.hash(payload) != stored {
      return None;
    }
    var p := c.unpackPayload(payload);
    if p.None? || !DimsMatch(p.value, dim) {
      return None;
    }
    return Some((h.value, p.value));
  }

  /** A file splits exactly when its header length leaves room for a payload byte, and then only at these places. */
  lemma SplitIff(data: seq<Byte>)
    requires |data| >= 4 + BLAKE3_LEN
    ensures var n, end := FromLe(data[..4]), |data| - BLAKE3_LEN;
      && (4 + n < end ==> Splits(data, data[4..4 + n], data[4 + n..end], data[end..]))
      && forall header, payload, hash :: Splits(data, header, payload, hash) ==>
           4 + n < end && header == data[4..4 + n] && payload == data[4 + n..end] && hash == data[end..]
  {
    var n, end := FromLe(data[..4]), |data| - BLAKE3_LEN;
    if 4 + n < end {
      SplitsHere(data, 4 + n, end);
    }
    forall header, payload, hash | Splits(data, header, payload, hash)
      ensures 4 + n < end && header == data[4..4 + n] && payload == data[4 + n..end] && hash == data[end..]
    {
      SplitPlaces(data, header, payload, hash);
    }
  }

  lemma SplitsHere(data: seq<Byte>, mid: nat, end: nat)
    requires 4 <= mid < end == |data| - BLAKE3_LEN && mid == 4 + FromLe(data[..4])
    ensures Splits(data, data[4..mid], data[mid..end], data[end..])
  {
    LeInjective(data[..4]);
    assert data[..4] + data[4..mid] == data[..mid];
    assert data[..mid] + data[mid..end] == data[..end];
    assert data[..end] + data[end..] == data;
  }

  lemma SplitPlaces(data: seq<Byte>, header: seq<Byte>, payload: seq<Byte>, hash: seq<Byte>)
    requires Splits(data, header, payload, hash)
    ensures var n, end := FromLe(data[..4]), |data| - BLAKE3_LEN;
      4 + n < end && header == data[4..4 + n] && payload == data[4 + n..end] && hash == data[end..]
  {
    assert data[..4] == ToLe(|header|);
    LeRoundTrip(|header|);
  }

  /** An accepted file decomposes in one way into length, header, payload and hash, so what it loads as is unique. */
  lemma LayoutUnique(c: Codec, data: seq<Byte>, dim: nat, cap: nat, h: Header, p: Payload, h2: Header, p2: Payload)
    requires Loads(c, data, dim, cap, h, p) && Loads(c, data, dim, cap, h2, p2)
    ensures h == h2 && p == p2
  {
    SplitIff(data);
  }

  /** What a written file loads as, whatever the codec does: the decodings of its own two sections, if the file
      is within the cap and they pass the checks. */
  lemma LoadsSections(c: Codec, h: Header, p: Payload, dim: nat, cap: nat, got: Header, gotPayload: Payload)
    requires c.Encodes(h, p) && |c.packHeader(h)| < U32_LIMIT
    ensures var header, payload := c.packHeader(h), c.packPayload(p);
      var data := Layout(header, payload, c.hash(payload));
      Loads(c, data, dim, cap, got, gotPayload) <==>
        |data| <= cap && Sections(c, dim, header, payload, c.hash(payload), got, gotPayload)
  {
    var header, payload := c.packHeader(h), c.packPayload(p);
    var data := Layout(header, payload, c.hash(payload));
    assert Splits(data, header, payload, c.hash(payload));
    SplitIff(data);
  }

  /** Which written files come back: exactly those within the cap, of this format version and engine
      dimension, whose vectors all have that dimension; and what comes back is what was written. */
  lemma LoadsWrittenIff(c: Codec, h: Header, p: Payload, dim: nat, cap: nat, got: Header, gotPayload: Payload)
    requires c.Encodes(h, p) && c.Recovers(h, p) && |c.packHeader(h)| < U32_LIMIT
    ensures var data := Layout(c.packHeader(h), c.packPayload(p), c.hash(c.packPayload(p)));
      Loads(c, data, dim, cap, got, gotPayload) <==>
        got == h && gotPayload == p && |data| <= cap && h.version == 2 && h.dim == dim && OfOneLength(p, dim)
  {
    LoadsSections(c, h, p, dim, cap, got, gotPayload);
  }

  /** For every header and payload there is a codec that meets the two conditions, so the round trip excludes none. */
  lemma RoundTripExists(h: Header, p: Payload, dim: nat) returns (c: Codec)
    ensures c.Encodes(h, p) && c.Recovers(h, p) && |c.packHeader(h)| < U32_LIMIT
    ensures var data := Layout(c.packHeader(h), c.packPayload(p), c.hash(c.packPayload(p)));
      Loads(c, data, dim, |data|, h, p) <==> h.version == 2 && h.dim == dim && OfOneLength(p, dim)
  {
    c := Codec(_ => [0], _ => Some(h), _ => [1], _ => Some(p), _ => seq(BLAKE3_LEN, _ => 0));
    var data := Layout(c.packHeader(h), c.packPayload(p), c.hash(c.packPayload(p)));
    LoadsWrittenIff(c, h, p, dim, |data|, h, p);
  }
}
