/** The PNG chunks of the profile images, and a reader of the datastream (sections 5.2, 5.3 and 11.2.1
    of the PNG specification): signature, then chunks of length, type, data and a CRC over type and data. */
module PngChunks {
  import opened ByteFields
  import opened StoredZip
  import opened Wrappers

  datatype Chunk = Chunk(kind: Octets, data: Octets)

  const SIGNATURE: Octets := [0x89, 0x50, 0x4e, 0x47, 0x0d, 0x0a, 0x1a, 0x0a]
  const IHDR: Octets := [0x49, 0x48, 0x44, 0x52]
  const IDAT: Octets := [0x49, 0x44, 0x41, 0x54]
  const IEND: Octets := [0x49, 0x45, 0x4e, 0x44]

  // ----- the reader -----------------------------------------------------------------------------

  /** The chunks `z` consists of; `None` on a short chunk or a wrong checksum. */
  ghost function ReadChunks(z: Octets): (r: Option<seq<Chunk>>)
  {
    if z == [] then Some([])
    else if |z| < 12 || |z| < 12 + Get32BE(z, 0) then None
    else
      var end := 8 + Get32BE(z, 0);
      if !HasCrc(z[4..end], Get32BE(z, end)) then None
      else
        match ReadChunks(z[end + 4..])
        case None => None
        case Some(rest) => Some([Chunk(z[4..8], z[8..end])] + rest)
  }

  ghost function ReadPng(z: Octets): (r: Option<seq<Chunk>>)
  {
    if |z| < 8 || z[..8] != SIGNATURE then None else ReadChunks(z[8..])
  }

  // ----- the writer -----------------------------------------------------------------------------

  /** The bytes of one chunk: length, type, data, checksum. */
  ghost predicate IsChunk(z: Octets, c: Chunk)
  {
    && |z| == 12 + |c.data| && |c.kind| == 4
    && Get32BE(z, 0) == |c.data|
    && z[4..8] == c.kind && z[8..8 + |c.data|] == c.data
    && HasCrc(c.kind + c.data, Get32BE(z, 8 + |c.data|))
  }

  lemma FieldBE(z: Octets, at: nat, field: Octets)
    requires |field| == 4 && Has(z, at, field)
    ensures Get32BE(z, at) == Get32BE(field, 0)
  {
    forall i | 0 <= i < 4 ensures z[at + i] == field[i] {
      assert z[at..at + 4][i] == field[i];
    }
  }

  /** `pngChunk`: throws exactly when the length does not fit its field. */
  method PngChunk(kind: Octets, data: Octets) returns (r: Option<Octets>)
    ensures r.Some? <==> |data| <= MAX32
    ensures r.Some? && |kind| == 4 ==> IsChunk(r.value, Chunk(kind, data))
  {
    hide HasCrc, Get32BE;
    if |data| > MAX32 {
      return None;
    }
    var len := Put32BE(|data|);
    var crc := CrcOf(kind + data);
    var crcBuf := Put32BE(crc);
    var z := len[..] + kind + data + crcBuf[..];
    if |kind| == 4 {
      assert z[4..8] == kind && z[8..8 + |data|] == data;
      assert z[0..4] == len[..];
      assert z[8 + |data|..8 + |data| + 4] == crcBuf[..];
      FieldBE(z, 0, len[..]);
      FieldBE(z, 8 + |data|, crcBuf[..]);
    }
    r := Some(z);
  }

  /** A chunk in front of readable bytes is read, and the rest is left as it was. */
  lemma ChunkReadsBack(z: Octets, c: Chunk, rest: Octets)
    requires IsChunk(z, c)
    ensures ReadChunks(z + rest) ==
            match ReadChunks(rest)
            case None => None
            case Some(chunks) => Some([c] + chunks)
  {
    hide HasCrc, Get32BE;
    var all, end := z + rest, 8 + |c.data|;
    assert z[0..4] == all[0..4] && z[end..end + 4] == all[end..end + 4];
    FieldBE(all, 0, z[0..4]);
    FieldBE(z, 0, z[0..4]);
    FieldBE(all, end, z[end..end + 4]);
    FieldBE(z, end, z[end..end + 4]);
    assert all[4..8] == z[4..8] && all[8..end] == z[8..end];
    assert all[4..end] == c.kind + c.data;
    assert all[end + 4..] == rest;
  }

  /** `makeSolidPng`: a truecolor image of `width` by `height`; `idat` is the deflated raster. */
  method SolidPng(width: nat, height: nat, idat: Octets) returns (r: Option<Octets>)
    ensures r.Some? <==> width <= MAX32 && height <= MAX32 && |idat| <= MAX32
    ensures r.Some? ==> exists header: Octets ::
      && ReadPng(r.value) == Some([Chunk(IHDR, header), Chunk(IDAT, idat), Chunk(IEND, [])])
      && |header| == 13 && Get32BE(header, 0) == width && Get32BE(header, 4) == height
      && header[8..] == [8, 2, 0, 0, 0]
  {
    hide Get32BE, HasCrc;
    if width > MAX32 || height > MAX32 {
      return None;
    }
    var w := Put32BE(width);
    var h := Put32BE(height);
    var ihdr := w[..] + h[..] + [8, 2, 0, 0, 0];
    assert ihdr[0..4] == w[..] && ihdr[4..8] == h[..] && ihdr[8..] == [8, 2, 0, 0, 0];
    FieldBE(ihdr, 0, w[..]);
    FieldBE(ihdr, 4, h[..]);
    var first := PngChunk(IHDR, ihdr);
    var second := PngChunk(IDAT, idat);
    var last := PngChunk(IEND, []);
    if second.None? {
      return None;
    }
    var z := SIGNATURE + first.value + second.value + last.value;
    PngReadsBack(first.value, second.value, last.value, ihdr, idat);
    r := Some(z);
  }

  lemma PngReadsBack(first: Octets, second: Octets, last: Octets, ihdr: Octets, idat: Octets)
    requires IsChunk(first, Chunk(IHDR, ihdr)) && IsChunk(second, Chunk(IDAT, idat)) && IsChunk(last, Chunk(IEND, []))
    ensures ReadPng(SIGNATURE + first + second + last)
            == Some([Chunk(IHDR, ihdr), Chunk(IDAT, idat), Chunk(IEND, [])])
  {
    hide *;
    var tail := second + last;
    assert last + [] == last;
    assert ReadChunks([]) == Some([]) by { NoChunks(); }
    ChunkReadsBack(last, Chunk(IEND, []), []);
    ChunkReadsBack(second, Chunk(IDAT, idat), last);
    ChunkReadsBack(first, Chunk(IHDR, ihdr), tail);
    assert SIGNATURE + first + second + last == SIGNATURE + (first + tail);
    AfterSignature(first + tail);
    var a, b, c := Chunk(IHDR, ihdr), Chunk(IDAT, idat), Chunk(IEND, []);
    assert [a] + ([b] + ([c] + [])) == [a, b, c];
  }

  lemma NoChunks()
    ensures ReadChunks([]) == Some([])
  {
  }

  lemma AfterSignature(rest: Octets)
    ensures ReadPng(SIGNATURE + rest) == ReadChunks(rest)
  {
    hide ReadChunks;
    var z := SIGNATURE + rest;
    assert z[..8] == SIGNATURE && z[8..] == rest;
  }
}
