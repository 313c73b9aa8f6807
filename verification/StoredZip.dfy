/** The stored (uncompressed) zip the Office corpus is written as, and a reader of the format.

    The reader follows APPNOTE.TXT sections 4.3.7 (local file header), 4.3.12 (central directory) and
    4.3.16 (end record): it starts at the end record, walks the directory and follows each offset to
    the local record, and it rejects whatever does not agree. Nothing in it knows the writer. */
module StoredZip {
  import opened ByteFields
  import opened Wrappers

  const LOCAL_SIGNATURE := 0x04034b50
  const CENTRAL_SIGNATURE := 0x02014b50
  const END_SIGNATURE := 0x06054b50
  const MAX16 := 0xffff
  const MAX32 := 0xffff_ffff

  /** A file of the archive: its name and its text, both as UTF-8. */
  datatype Entry = Entry(name: Octets, data: Octets)

  /** Directory entries in order, and where their headers end. */
  datatype Directory = Directory(entries: seq<Entry>, end: int)

  // ----- the reader -----------------------------------------------------------------------------

  /** `data` sits whole in `z` at `at`. */
  ghost predicate Has(z: Octets, at: int, data: Octets)
  {
    0 <= at && at + |data| <= |z| && z[at..at + |data|] == data
  }

  /** The local record at `at`, read against what the directory says of it. */
  ghost function ReadLocal(z: Octets, at: int, crc: int, size: int, name: Octets): (r: Option<Octets>)
    requires 0 <= at && 0 <= size
  {
    if at + 30 > |z| || Get32(z, at) != LOCAL_SIGNATURE then None
    else if Get16(z, at + 8) != 0 then None // stored
    else if Get32(z, at + 14) != crc || Get32(z, at + 18) != size || Get32(z, at + 22) != size then None
    else
      var nameLength := Get16(z, at + 26);
      var start := at + 30 + nameLength + Get16(z, at + 28);
      if start + size > |z| || z[at + 30..at + 30 + nameLength] != name then None
      else if HasCrc(z[start..start + size], crc) then Some(z[start..start + size])
      else None
  }

  /** `count` directory headers from `at` on, and where they end. */
  ghost function ReadDirectory(z: Octets, at: int, count: nat): (r: Option<Directory>)
    requires 0 <= at
    decreases count
  {
    if count == 0 then Some(Directory([], at))
    else if at + 46 > |z| || Get32(z, at) != CENTRAL_SIGNATURE || Get16(z, at + 10) != 0 then None
    else
      var nameEnd := at + 46 + Get16(z, at + 28);
      if nameEnd > |z| || Get32(z, at + 20) != Get32(z, at + 24) then None
      else
        var name := z[at + 46..nameEnd];
        match ReadLocal(z, Get32(z, at + 42), Get32(z, at + 16), Get32(z, at + 20), name)
        case None => None
        case Some(data) =>
          WithFirst(Entry(name, data), ReadDirectory(z, nameEnd + Get16(z, at + 30) + Get16(z, at + 32), count - 1))
  }

  function WithFirst(e: Entry, rest: Option<Directory>): (r: Option<Directory>)
  {
    match rest
    case None => None
    case Some(Directory(entries, end)) => Some(Directory([e] + entries, end))
  }

  /** The entries of an archive without a comment; `None` when it is not one. */
  ghost function ReadZip(z: Octets): (r: Option<seq<Entry>>)
  {
    var end := |z| - 22;
    if end < 0 || Get32(z, end) != END_SIGNATURE || Get16(z, end + 20) != 0 then None
    else if Get16(z, end + 4) != 0 || Get16(z, end + 6) != 0 || Get16(z, end + 8) != Get16(z, end + 10) then None
    else if Get32(z, end + 16) + Get32(z, end + 12) != end then None
    else
      match ReadDirectory(z, Get32(z, end + 16), Get16(z, end + 8))
      case None => None
      case Some(Directory(entries, stop)) => if stop == end then Some(entries) else None
  }

  // ----- where the records go -------------------------------------------------------------------

  function LocalSize(e: Entry): (n: nat) { 30 + |e.name| + |e.data| }
  function CentralSize(e: Entry): (n: nat) { 46 + |e.name| }

  /** The sum of the local record sizes: the offset of the record after them. */
  function LocalsSize(entries: seq<Entry>): (n: nat)
  {
    if entries == [] then 0 else LocalsSize(entries[..|entries| - 1]) + LocalSize(entries[|entries| - 1])
  }

  function CentralsSize(entries: seq<Entry>): (n: nat)
  {
    if entries == [] then 0 else CentralsSize(entries[..|entries| - 1]) + CentralSize(entries[|entries| - 1])
  }

  /** Every field of `e`, at offset `offset`, fits its width. */
  predicate EntryFits(e: Entry, offset: nat)
  {
    |e.name| <= MAX16 && |e.data| <= MAX32 && offset <= MAX32
  }

  predicate RecordsFit(entries: seq<Entry>)
  {
    entries == [] ||
    var before := entries[..|entries| - 1];
    RecordsFit(before) && EntryFits(entries[|entries| - 1], LocalsSize(before))
  }

  /** Every field of the archive fits its width: `Buffer.write...` throws a RangeError otherwise. */
  predicate Fits(entries: seq<Entry>)
  {
    RecordsFit(entries) && |entries| <= MAX16 && CentralsSize(entries) <= MAX32 && LocalsSize(entries) <= MAX32
  }

  lemma {:induction false} PrefixFits(entries: seq<Entry>, k: nat)
    requires k <= |entries| && RecordsFit(entries)
    ensures RecordsFit(entries[..k])
    decreases |entries|
  {
    if k < |entries| {
      PrefixFits(entries[..|entries| - 1], k);
      assert entries[..|entries| - 1][..k] == entries[..k];
    } else {
      assert entries[..k] == entries;
    }
  }

  // ----- what a reader finds in the written bytes -----------------------------------------------

  ghost predicate IsLocalHeader(h: Octets, e: Entry, crc: int)
  {
    && |h| == 30 && Get32(h, 0) == LOCAL_SIGNATURE
    && Get16(h, 4) == 20 && Get16(h, 6) == 0x0800 && Get16(h, 8) == 0 && Get16(h, 10) == 0 && Get16(h, 12) == 0x21
    && Get32(h, 14) == crc && Get32(h, 18) == |e.data| && Get32(h, 22) == |e.data|
    && Get16(h, 26) == |e.name| && Get16(h, 28) == 0
  }

  ghost predicate IsCentralHeader(h: Octets, e: Entry, crc: int, offset: nat)
  {
    && |h| == 46 && Get32(h, 0) == CENTRAL_SIGNATURE
    && Get16(h, 4) == 20 && Get16(h, 6) == 20 && Get16(h, 8) == 0x0800 && Get16(h, 10) == 0 && Get16(h, 12) == 0
    && Get16(h, 14) == 0x21 && Get32(h, 16) == crc && Get32(h, 20) == |e.data| && Get32(h, 24) == |e.data|
    && Get16(h, 28) == |e.name| && Get16(h, 30) == 0 && Get16(h, 32) == 0
    && Get32(h, 42) == offset
  }

  ghost predicate IsEnd(h: Octets, count: nat, size: nat, offset: nat)
  {
    && |h| == 22 && Get32(h, 0) == END_SIGNATURE && Get16(h, 4) == 0 && Get16(h, 6) == 0
    && Get16(h, 8) == count && Get16(h, 10) == count && Get32(h, 12) == size && Get32(h, 16) == offset
    && Get16(h, 20) == 0
  }

  lemma ZeroFields(a: Octets)
    requires forall i :: 0 <= i < |a| ==> a[i] == 0
    ensures forall p: nat :: p + 2 <= |a| ==> Get16(a, p) == 0
  {
  }

  method MakeLocal(e: Entry, crc: int) returns (local: array<Octet>)
    requires |e.name| <= MAX16 && |e.data| <= MAX32 && 0 <= crc <= MAX32
    ensures fresh(local) && IsLocalHeader(local[..], e, crc)
  {
    hide Get16, Get32;
    local := new Octet[30](_ => 0);
    ZeroFields(local[..]);
    Put32(local, LOCAL_SIGNATURE, 0);
    Put16(local, 20, 4);
    Put16(local, 0x0800, 6);
    Put16(local, 0, 8);
    Put16(local, 0, 10);
    Put16(local, 0x21, 12);
    Put32(local, crc, 14);
    Put32(local, |e.data|, 18);
    Put32(local, |e.data|, 22);
    Put16(local, |e.name|, 26);
    Put16(local, 0, 28);
  }

  method MakeCentral(e: Entry, crc: int, offset: nat) returns (central: array<Octet>)
    requires EntryFits(e, offset) && 0 <= crc <= MAX32
    ensures fresh(central) && IsCentralHeader(central[..], e, crc, offset)
  {
    hide Get16, Get32;
    central := new Octet[46](_ => 0);
    ZeroFields(central[..]);
    Put32(central, CENTRAL_SIGNATURE, 0);
    Put16(central, 20, 4);
    Put16(central, 20, 6);
    Put16(central, 0x0800, 8);
    Put16(central, 0, 10);
    Put16(central, 0, 12);
    Put16(central, 0x21, 14);
    Put32(central, crc, 16);
    Put32(central, |e.data|, 20);
    Put32(central, |e.data|, 24);
    Put16(central, |e.name|, 28);
    Put32(central, offset, 42);
  }

  method MakeEnd(count: nat, size: nat, offset: nat) returns (end: array<Octet>)
    requires count <= MAX16 && size <= MAX32 && offset <= MAX32
    ensures fresh(end) && IsEnd(end[..], count, size, offset)
  {
    hide Get16, Get32;
    end := new Octet[22](_ => 0);
    ZeroFields(end[..]);
    Put32(end, END_SIGNATURE, 0);
    Put16(end, count, 8);
    Put16(end, count, 10);
    Put32(end, size, 12);
    Put32(end, offset, 16);
  }

  /** A whole local record: header, name, data, and the checksum of that data. */
  ghost predicate IsRecord(r: Octets, e: Entry)
  {
    && |r| == LocalSize(e)
    && IsLocalHeader(r[..30], e, Get32(r, 14)) && HasCrc(e.data, Get32(r, 14))
    && r[30..30 + |e.name|] == e.name && r[30 + |e.name|..] == e.data
  }

  /** A whole directory header: the record's own fields again, and where that record is. */
  ghost predicate IsHeader(h: Octets, e: Entry, record: Octets, offset: nat)
    requires |record| >= 30
  {
    && |h| == CentralSize(e)
    && IsCentralHeader(h[..46], e, Get32(record, 14), offset)
    && h[46..] == e.name
  }

  ghost predicate AreRecords(records: seq<Octets>, entries: seq<Entry>)
  {
    |records| == |entries| && forall k :: 0 <= k < |entries| ==> IsRecord(records[k], entries[k])
  }

  /** Each header points at the sum of the sizes of the records before its own. */
  ghost predicate AreHeaders(headers: seq<Octets>, records: seq<Octets>, entries: seq<Entry>)
    requires AreRecords(records, entries)
  {
    && |headers| == |entries|
    && forall k :: 0 <= k < |entries| ==> IsHeader(headers[k], entries[k], records[k], LocalsSize(entries[..k]))
  }

  /** `z` is an archive of `entries`: the records, the directory, the end record, and nothing else. */
  ghost predicate IsArchive(z: Octets, entries: seq<Entry>, records: seq<Octets>, headers: seq<Octets>, end: Octets)
  {
    && z == Concat(records) + Concat(headers) + end
    && AreRecords(records, entries) && AreHeaders(headers, records, entries)
    && IsEnd(end, |entries|, |Concat(headers)|, LocalsSize(entries))
  }

  /** The records take exactly the room the offsets count. */
  lemma {:induction false} RecordSizes(records: seq<Octets>, entries: seq<Entry>)
    requires AreRecords(records, entries)
    ensures |Concat(records)| == LocalsSize(entries)
  {
    hide IsLocalHeader, HasCrc;
    var n := |entries|;
    if n > 0 {
      assert IsRecord(records[n - 1], entries[n - 1]);
      RecordSizes(records[..n - 1], entries[..n - 1]);
    }
  }

  lemma {:induction false} HeaderSizes(records: seq<Octets>, headers: seq<Octets>, entries: seq<Entry>)
    requires AreRecords(records, entries) && AreHeaders(headers, records, entries)
    ensures |Concat(headers)| == CentralsSize(entries)
  {
    hide IsLocalHeader, IsCentralHeader, HasCrc;
    var n := |entries|;
    if n > 0 {
      assert IsHeader(headers[n - 1], entries[n - 1], records[n - 1], LocalsSize(entries[..n - 1]));
      forall k | 0 <= k < n - 1 ensures entries[..n - 1][..k] == entries[..k] {}
      HeaderSizes(records[..n - 1], headers[..n - 1], entries[..n - 1]);
    }
  }

  lemma {:induction false} PartInConcat(parts: seq<Octets>, k: nat)
    requires k < |parts|
    ensures Has(Concat(parts), |Concat(parts[..k])|, parts[k])
  {
    var n := |parts| - 1;
    if k < n {
      PartInConcat(parts[..n], k);
      assert parts[..n][..k] == parts[..k];
    }
  }

  // ----- reading back ---------------------------------------------------------------------------

  lemma FieldsOf(z: Octets, at: nat, part: Octets)
    requires Has(z, at, part)
    ensures forall p: nat :: p + 2 <= |part| ==> Get16(z, at + p) == Get16(part, p)
    ensures forall p: nat :: p + 4 <= |part| ==> Get32(z, at + p) == Get32(part, p)
  {
    forall i | 0 <= i < |part| ensures z[at + i] == part[i] {
      assert z[at..at + |part|][i] == part[i];
    }
  }

  lemma SliceOf(z: Octets, at: nat, part: Octets, from: nat, to: nat)
    requires Has(z, at, part) && from <= to <= |part|
    ensures z[at + from..at + to] == part[from..to]
  {
    var mine, theirs := z[at + from..at + to], part[from..to];
    forall i | 0 <= i < to - from ensures mine[i] == theirs[i] {
      assert z[at..at + |part|][from + i] == part[from + i];
    }
  }

  lemma HasWithin(z: Octets, at: nat, part: Octets, from: nat, inner: Octets)
    requires Has(z, at, part) && Has(part, from, inner)
    ensures Has(z, at + from, inner)
  {
    SliceOf(z, at, part, from, from + |inner|);
  }

  lemma RecordReadsBack(z: Octets, at: nat, r: Octets, e: Entry)
    requires Has(z, at, r) && IsRecord(r, e)
    ensures ReadLocal(z, at, Get32(r, 14), |e.data|, e.name) == Some(e.data)
  {
    hide HasCrc, Get16, Get32;
    FieldsOf(z, at, r);
    FieldsOf(r, 0, r[..30]);
    SliceOf(z, at, r, 30, 30 + |e.name|);
    SliceOf(z, at, r, 30 + |e.name|, |r|);
  }

  lemma HeaderReadsBack(z: Octets, at: nat, h: Octets, e: Entry, r: Octets, offset: nat, count: nat)
    requires Has(z, offset, r) && IsRecord(r, e) && Has(z, at, h) && IsHeader(h, e, r, offset) && count > 0
    ensures ReadDirectory(z, at, count) == WithFirst(e, ReadDirectory(z, at + |h|, count - 1))
  {
    hide HasCrc, Get16, Get32, ReadLocal, IsRecord;
    assert |r| >= 30 by { RecordIsLong(r, e); }
    RecordReadsBack(z, offset, r, e);
    FieldsOf(z, at, h);
    FieldsOf(h, 0, h[..46]);
    SliceOf(z, at, h, 46, |h|);
  }

  lemma RecordIsLong(r: Octets, e: Entry)
    requires IsRecord(r, e)
    ensures |r| == LocalSize(e)
  {
  }

  lemma PartInBuffer(z: Octets, at: nat, parts: seq<Octets>, k: nat)
    requires k < |parts| && Has(z, at, Concat(parts))
    ensures Has(z, at + |Concat(parts[..k])|, parts[k])
  {
    PartInConcat(parts, k);
    hide Concat;
    HasWithin(z, at, Concat(parts), |Concat(parts[..k])|, parts[k]);
  }

  lemma RecordInBuffer(z: Octets, entries: seq<Entry>, records: seq<Octets>, k: nat)
    requires AreRecords(records, entries) && Has(z, 0, Concat(records)) && k < |entries|
    ensures Has(z, LocalsSize(entries[..k]), records[k])
  {
    hide IsRecord, Concat, LocalsSize;
    PartInBuffer(z, 0, records, k);
    RecordSizes(records[..k], entries[..k]);
  }

  lemma NextPart(parts: seq<Octets>, k: nat)
    requires k < |parts|
    ensures |Concat(parts[..k + 1])| == |Concat(parts[..k])| + |parts[k]|
  {
    assert parts[..k + 1][..k] == parts[..k];
  }

  lemma {:induction false} DirectoryReadsBack(
      z: Octets, entries: seq<Entry>, records: seq<Octets>, headers: seq<Octets>, l: nat, k: nat)
    requires AreRecords(records, entries) && AreHeaders(headers, records, entries)
    requires Has(z, 0, Concat(records)) && Has(z, l, Concat(headers))
    requires k <= |entries|
    ensures ReadDirectory(z, l + |Concat(headers[..k])|, |entries| - k)
            == Some(Directory(entries[k..], l + |Concat(headers)|))
    decreases |entries| - k
  {
    hide IsRecord, IsHeader, Has, Concat, ReadDirectory;
    if k == |entries| {
      EmptyDirectory(z, l + |Concat(headers)|);
      WholeSlices(headers);
      WholeSlices(entries);
    } else {
      RecordInBuffer(z, entries, records, k);
      PartInBuffer(z, l, headers, k);
      HeaderReadsBack(z, l + |Concat(headers[..k])|, headers[k], entries[k], records[k],
                      LocalsSize(entries[..k]), |entries| - k);
      NextPart(headers, k);
      DirectoryReadsBack(z, entries, records, headers, l, k + 1);
      assert [entries[k]] + entries[k + 1..] == entries[k..];
    }
  }

  lemma WholeSlices<T>(s: seq<T>)
    ensures s[..0] == [] && s[0..] == s && s[..|s|] == s && s[|s|..] == []
  {
  }

  lemma EmptyDirectory(z: Octets, at: nat)
    ensures ReadDirectory(z, at, 0) == Some(Directory([], at))
  {
  }

  lemma EndReadsBack(z: Octets, end: Octets, count: nat, size: nat, offset: nat)
    requires |z| >= 22 && Has(z, |z| - 22, end) && IsEnd(end, count, size, offset) && offset + size == |z| - 22
    ensures ReadZip(z) ==
            match ReadDirectory(z, offset, count)
            case None => None
            case Some(Directory(entries, stop)) => if stop == |z| - 22 then Some(entries) else None
  {
    hide Get16, Get32, ReadDirectory;
    FieldsOf(z, |z| - 22, end);
  }

  /** The reader recovers exactly the entries, in order, from any archive of them. */
  lemma ReadsBack(z: Octets, entries: seq<Entry>, records: seq<Octets>, headers: seq<Octets>, end: Octets)
    requires IsArchive(z, entries, records, headers, end)
    ensures ReadZip(z) == Some(entries)
  {
    hide IsRecord, IsHeader, IsEnd, ReadDirectory, ReadZip, Concat;
    WholeSlices(headers);
    WholeSlices(entries);
    RecordSizes(records, entries);
    var a, b := Concat(records), Concat(headers);
    WholeParts(z, a, b, end);
    DirectoryReadsBack(z, entries, records, headers, |a|, 0);
    assert |end| == 22 by { EndIsShort(end, |entries|, |b|, |a|); }
    EndReadsBack(z, end, |entries|, |b|, |a|);
    assert Concat<Octet>([]) == [] by { EmptyConcat(); }
  }

  lemma EndIsShort(end: Octets, count: nat, size: nat, offset: nat)
    requires IsEnd(end, count, size, offset)
    ensures |end| == 22
  {
  }

  lemma EmptyConcat()
    ensures Concat<Octet>([]) == []
  {
  }

  lemma WholeParts(z: Octets, a: Octets, b: Octets, end: Octets)
    requires z == a + b + end
    ensures Has(z, 0, a) && Has(z, |a|, b) && Has(z, |a| + |b|, end)
  {
  }

  // ----- the writer -----------------------------------------------------------------------------

  /** Writes the archive, or throws exactly when a field would overflow. */
  method StoredZip(entries: seq<Entry>) returns (r: Option<Octets>)
    ensures r.Some? <==> Fits(entries)
    ensures r.Some? ==> ReadZip(r.value) == Some(entries)
    ensures r.Some? ==> exists records, headers, end :: IsArchive(r.value, entries, records, headers, end)
  {
    hide IsRecord, IsHeader, IsEnd, ReadZip, Concat, LocalsSize, CentralsSize, RecordsFit;
    var done, locals, centrals, offset, records, headers := WriteParts(entries);
    if !done {
      return None;
    }
    RecordSizes(records, entries);
    HeaderSizes(records, headers, entries);
    if |entries| > MAX16 || |centrals| > MAX32 || offset > MAX32 {
      return None;
    }
    var end := MakeEnd(|entries|, |centrals|, offset);
    var z := locals + centrals + end[..];
    assert IsArchive(z, entries, records, headers, end[..]);
    ReadsBack(z, entries, records, headers, end[..]);
    r := Some(z);
  }

  /** The loop over the entries, with the running offset; not `done` when a write throws. */
  method WriteParts(entries: seq<Entry>)
    returns (done: bool, locals: Octets, centrals: Octets, offset: nat,
             ghost records: seq<Octets>, ghost headers: seq<Octets>)
    ensures done <==> RecordsFit(entries)
    ensures done ==>
      && AreRecords(records, entries) && AreHeaders(headers, records, entries)
      && locals == Concat(records) && centrals == Concat(headers) && offset == LocalsSize(entries)
  {
    hide IsRecord, IsHeader, Concat;
    locals, centrals, offset, records, headers := [], [], 0, [], [];
    EmptyConcat();
    for i := 0 to |entries|
      invariant RecordsFit(entries[..i])
      invariant AreRecords(records, entries[..i]) && AreHeaders(headers, records, entries[..i])
      invariant locals == Concat(records) && centrals == Concat(headers) && offset == LocalsSize(entries[..i])
    {
      var before, e := entries[..i], entries[i];
      NextFits(entries, i);
      if |e.name| > MAX16 || |e.data| > MAX32 || offset > MAX32 {
        done := false;
        return;
      }
      var record, header := MakeParts(e, offset);
      AddParts(records, headers, before, record, header, e);
      assert entries[..i + 1] == before + [e];
      locals := locals + record;
      centrals := centrals + header;
      offset := offset + 30 + |e.name| + |e.data|;
      records := records + [record];
      headers := headers + [header];
    }
    assert entries[..|entries|] == entries;
    done := true;
  }

  lemma NextFits(entries: seq<Entry>, i: nat)
    requires i < |entries| && RecordsFit(entries[..i])
    ensures RecordsFit(entries[..i + 1]) <==> EntryFits(entries[i], LocalsSize(entries[..i]))
    ensures RecordsFit(entries) ==> RecordsFit(entries[..i + 1])
  {
    assert entries[..i + 1][..i] == entries[..i];
    if RecordsFit(entries) { PrefixFits(entries, i + 1); }
  }

  lemma AddParts(records: seq<Octets>, headers: seq<Octets>, entries: seq<Entry>,
                 record: Octets, header: Octets, e: Entry)
    requires AreRecords(records, entries) && AreHeaders(headers, records, entries)
    requires IsRecord(record, e) && IsHeader(header, e, record, LocalsSize(entries))
    ensures AreRecords(records + [record], entries + [e])
    ensures AreHeaders(headers + [header], records + [record], entries + [e])
    ensures Concat(records + [record]) == Concat(records) + record
    ensures Concat(headers + [header]) == Concat(headers) + header
    ensures LocalsSize(entries + [e]) == LocalsSize(entries) + LocalSize(e)
  {
    hide IsRecord, IsHeader;
    var n, more := |entries|, entries + [e];
    assert more[..n] == entries && (records + [record])[..n] == records && (headers + [header])[..n] == headers;
    forall k | 0 <= k < n ensures more[..k] == entries[..k] {}
  }

  /** The loop body: the local record and the directory header of one entry. */
  method MakeParts(e: Entry, offset: nat) returns (record: Octets, header: Octets)
    requires EntryFits(e, offset)
    ensures IsRecord(record, e) && IsHeader(header, e, record, offset)
  {
    hide HasCrc, Get16;
    var crc := CrcOf(e.data);
    var local := MakeLocal(e, crc);
    var central := MakeCentral(e, crc, offset);
    record := local[..] + e.name + e.data;
    header := central[..] + e.name;
    assert record[..30] == local[..] && header[..46] == central[..];
    assert record[30..30 + |e.name|] == e.name;
    FieldsOf(record, 0, local[..]);
  }
}
