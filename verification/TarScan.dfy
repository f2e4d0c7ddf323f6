/** Finding a package's manifest in an uncompressed archive. */
module TarScan {
  import opened Common
  import opened Metadata
  import opened SnapshotKeys

  /** Decoding bytes as text is the platform's. */
  type Decoder = Bytes -> string

  const BLOCK := 512

  const MANIFEST := "package/package.json"

  datatype Scan = Found(content: Bytes) | NoManifest | MalformedSize | Truncated

  // ----- Header fields -----

  /** The text before the first NUL. */
  function CutNul(text: string): string {
    var nul := IndexOf(text, '\0');
    if nul == -1 then text else text[..nul]
  }

  function TextField(decode: Decoder, header: Bytes, start: nat, length: nat): string
    requires start + length <= |header|
  {
    CutNul(decode(header[start..start + length]))
  }

  function Trim(s: string): string {
    if s == "" then ""
    else if IsSpace(s[0]) then Trim(s[1..])
    else if IsSpace(s[|s| - 1]) then Trim(s[..|s| - 1])
    else s
  }

  predicate IsOctal(s: string) {
    s != "" && forall i | 0 <= i < |s| :: '0' <= s[i] <= '7'
  }

  function OctalValue(s: string): nat
    requires forall i | 0 <= i < |s| :: '0' <= s[i] <= '7'
  {
    if s == "" then 0
    else
      var n := |s| - 1;
      8 * OctalValue(s[..n]) + (s[n] as int - '0' as int)
  }

  function ArchivePath(decode: Decoder, header: Bytes): string
    requires |header| == BLOCK
  {
    var name, prefix := TextField(decode, header, 0, 100), TextField(decode, header, 345, 155);
    if prefix == "" then name else prefix + "/" + name
  }

  function SizeText(decode: Decoder, header: Bytes): string
    requires |header| == BLOCK
  {
    Trim(TextField(decode, header, 124, 12))
  }

  predicate AllZero(header: Bytes) {
    forall i | 0 <= i < |header| :: header[i] == 0
  }

  function RoundUp(size: nat): (blocks: nat)
    ensures blocks >= size && blocks % BLOCK == 0 && blocks < size + BLOCK
  {
    (size + BLOCK - 1) / BLOCK * BLOCK
  }

  // ----- The scan -----

  /** The scan as a whole, from one offset. */
  function ScanFrom(decode: Decoder, tar: Bytes, offset: nat): Scan
    decreases |tar| - offset
  {
    if offset + BLOCK > |tar| || AllZero(tar[offset..offset + BLOCK]) then NoManifest
    else
      var header := tar[offset..offset + BLOCK];
      var sizeText := SizeText(decode, header);
      if !IsOctal(sizeText) then MalformedSize
      else
        var start := offset + BLOCK;
        var end := start + OctalValue(sizeText);
        if end > |tar| then Truncated
        else if ArchivePath(decode, header) == MANIFEST then Found(tar[start..end])
        else ScanFrom(decode, tar, start + RoundUp(OctalValue(sizeText)))
  }

  /**
   * The scan never reads outside the archive, and its offset only grows, block by block. Of an archive that holds files
   * it gives the manifest's content, byte for byte, or none when there is none.
   */
  method FindManifest(decode: Decoder, tar: Bytes) returns (r: Scan)
    ensures r == ScanFrom(decode, tar, 0)
    ensures forall records, files, tail | Holds(tar, records, files, tail) ::
      DecodesAscii(decode) && SizesStored(files) ==> r == FirstFile(files)
  {
    hide SizeText, ArchivePath, AllZero, OctalValue, DecodesAscii, Holds, FirstFile, SizesStored;
    forall records, files, tail | DecodesAscii(decode) && Holds(tar, records, files, tail) && SizesStored(files)
      ensures ScanFrom(decode, tar, 0) == FirstFile(files)
    {
      ManifestFound(decode, tar, records, files, tail);
    }
    var offset := 0;
    while offset + BLOCK <= |tar|
      invariant 0 <= offset && offset % BLOCK == 0
      invariant ScanFrom(decode, tar, offset) == ScanFrom(decode, tar, 0)
      decreases |tar| - offset
    {
      var header := tar[offset..offset + BLOCK];
      if AllZero(header) {
        return NoManifest;
      }
      var archivePath, sizeText := ArchivePath(decode, header), SizeText(decode, header);
      if !IsOctal(sizeText) {
        return MalformedSize;
      }
      var size := OctalValue(sizeText);
      var contentStart := offset + BLOCK;
      var contentEnd := contentStart + size;
      if contentEnd > |tar| {
        return Truncated;
      }
      if archivePath == MANIFEST {
        return Found(tar[contentStart..contentEnd]);
      }
      offset := contentStart + RoundUp(size);
    }
    return NoManifest;
  }

  // ----- Well-formed archives (IEEE Std 1003.1, pax, ustar Interchange Format) -----

  /** A header block, the file's bytes, and filling up to the next block. */
  datatype Record = Record(header: Bytes, content: Bytes, padding: Bytes)

  ghost predicate IsRecord(decode: Decoder, r: Record) {
    && |r.header| == 512 && !AllZero(r.header)
    && IsOctal(SizeText(decode, r.header)) && OctalValue(SizeText(decode, r.header)) == |r.content|
    && |r.padding| < 512 && (|r.content| + |r.padding|) % 512 == 0
  }

  function Lay(r: Record): Bytes {
    r.header + r.content + r.padding
  }

  function Archive(records: seq<Record>, tail: Bytes): Bytes {
    if records == [] then tail else Lay(records[0]) + Archive(records[1..], tail)
  }

  /** What follows the records: a block of zeros, or too little for a header. */
  ghost predicate IsTail(tail: Bytes) {
    |tail| < 512 || AllZero(tail[..512])
  }

  function PathOf(decode: Decoder, r: Record): string {
    if |r.header| == BLOCK then ArchivePath(decode, r.header) else ""
  }

  /** The content of the first record with the manifest's path. */
  function FirstManifest(decode: Decoder, records: seq<Record>): Scan {
    if records == [] then NoManifest
    else if PathOf(decode, records[0]) == MANIFEST then Found(records[0].content)
    else FirstManifest(decode, records[1..])
  }

  /** Up to the first with the manifest's path, records hold as many bytes as their headers say. */
  ghost predicate Straight(decode: Decoder, records: seq<Record>) {
    records == [] || (IsRecord(decode, records[0]) &&
                      (PathOf(decode, records[0]) == MANIFEST || Straight(decode, records[1..])))
  }

  lemma PaddingFills(size: nat, padding: nat)
    requires padding < BLOCK && (size + padding) % BLOCK == 0
    ensures RoundUp(size) == size + padding
  {
    var blocks := RoundUp(size);
    assert (blocks - (size + padding)) % BLOCK == 0;
    assert -BLOCK < blocks - (size + padding) < BLOCK;
  }

  lemma LaidAt(before: Bytes, r: Record, rest: Bytes)
    requires |r.header| == BLOCK
    ensures var tar := before + (Lay(r) + rest); var at := |before|;
      && at + BLOCK + |r.content| <= |tar|
      && tar[at..at + BLOCK] == r.header
      && tar[at + BLOCK..at + BLOCK + |r.content|] == r.content
      && |before + Lay(r)| == at + BLOCK + |r.content| + |r.padding|
      && (before + Lay(r)) + rest == tar
  {
  }

  /** Where records hold what their headers say, the scan goes record by record and finds the first manifest. */
  lemma {:induction false} ScanFindsFirst(decode: Decoder, before: Bytes, records: seq<Record>, tail: Bytes)
    requires Straight(decode, records) && IsTail(tail)
    ensures ScanFrom(decode, before + Archive(records, tail), |before|) == FirstManifest(decode, records)
    decreases |records|
  {
    hide SizeText, ArchivePath, OctalValue, Lay, RoundUp;
    var tar, at := before + Archive(records, tail), |before|;
    if records == [] {
      if |tail| >= BLOCK { assert tar[at..at + BLOCK] == tail[..BLOCK]; }
    } else {
      var r, rest := records[0], Archive(records[1..], tail);
      LaidAt(before, r, rest);
      PaddingFills(|r.content|, |r.padding|);
      if PathOf(decode, r) != MANIFEST { ScanFindsFirst(decode, before + Lay(r), records[1..], tail); }
    }
  }

  lemma ArchiveScanned(decode: Decoder, records: seq<Record>, tail: Bytes)
    requires Straight(decode, records) && IsTail(tail)
    ensures ScanFrom(decode, Archive(records, tail), 0) == FirstManifest(decode, records)
  {
    var none: Bytes := [];
    ScanFindsFirst(decode, none, records, tail);
    assert none + Archive(records, tail) == Archive(records, tail);
  }

  // ----- Fields as archives write them -----

  /** Leading ASCII bytes decode to their characters, whatever follows them. */
  ghost predicate DecodesAscii(decode: Decoder) {
    && (forall bytes: Bytes, n: nat | n <= |bytes| && AsciiUpTo(bytes, n) :: ReadsUpTo(bytes, n, decode(bytes)))
    && (forall bytes: Bytes | AsciiUpTo(bytes, |bytes|) :: |decode(bytes)| == |bytes|)
  }

  predicate AsciiUpTo(bytes: Bytes, n: nat) {
    n <= |bytes| && forall i | 0 <= i < n :: bytes[i] < 128
  }

  predicate ReadsUpTo(bytes: Bytes, n: nat, text: string) {
    n <= |bytes| && n <= |text| && forall i | 0 <= i < n :: text[i] == (bytes[i] as int) as char
  }

  predicate AsciiText(text: string) {
    forall i | 0 <= i < |text| :: 0 < text[i] as int < 128
  }

  /** A name fills its field or is followed by a NUL; what comes after the NUL does not matter. */
  predicate IsNameField(field: Bytes, text: string) {
    && AsciiText(text) && |text| <= |field|
    && (forall i | 0 <= i < |text| :: field[i] as int == text[i] as int)
    && (|text| < |field| ==> field[|text|] == 0)
  }

  lemma FieldReads(decode: Decoder, field: Bytes, text: string)
    requires DecodesAscii(decode) && IsNameField(field, text)
    ensures CutNul(decode(field)) == text
  {
    hide IndexOf;
    var decoded, n := decode(field), |text|;
    if n == |field| {
      assert AsciiUpTo(field, n) && ReadsUpTo(field, n, decoded);
      assert decoded == text;
    } else {
      assert AsciiUpTo(field, n + 1) && ReadsUpTo(field, n + 1, decoded);
      assert decoded == text + ['\0'] + decoded[n + 1..];
      FirstIndex(text, '\0', decoded[n + 1..]);
    }
  }

  /** A size in octal digits. */
  function OctalText(size: nat, digits: nat): (text: string)
    ensures |text| == digits && forall i | 0 <= i < digits :: '0' <= text[i] <= '7'
  {
    if digits == 0 then "" else OctalText(size / 8, digits - 1) + [('0' as int + size % 8) as char]
  }

  function OctalLimit(digits: nat): nat {
    if digits == 0 then 1 else 8 * OctalLimit(digits - 1)
  }

  /** Sizes that fit their digits read back as they were written. */
  lemma {:induction false} OctalRoundTrip(size: nat, digits: nat)
    requires size < OctalLimit(digits)
    ensures OctalValue(OctalText(size, digits)) == size
  {
    if digits > 0 {
      OctalRoundTrip(size / 8, digits - 1);
      var front := OctalText(size / 8, digits - 1);
      assert OctalText(size, digits)[..digits - 1] == front;
      assert size == 8 * (size / 8) + size % 8;
    }
  }

  /** A size field: octal digits, then spaces and NULs, at least one of them. */
  ghost predicate IsSizeField(field: Bytes, size: nat) {
    |field| == 12 && exists digits: nat :: WritesSize(field, size, digits)
  }

  ghost predicate WritesSize(field: Bytes, size: nat, digits: nat) {
    && 1 <= digits < |field| && size < OctalLimit(digits)
    && (forall i | 0 <= i < digits :: field[i] as int == OctalText(size, digits)[i] as int)
    && (forall i | digits <= i < |field| :: field[i] == 0 || field[i] == 32)
  }

  function Spaces(n: nat): string {
    seq(n, _ => ' ')
  }

  lemma {:induction false} TrimsSpaces(text: string, n: nat)
    requires text != "" && forall i | 0 <= i < |text| :: !IsSpace(text[i])
    ensures Trim(text + Spaces(n)) == text
  {
    var s := text + Spaces(n);
    if n == 0 {
      assert s == text;
    } else {
      assert s[..|s| - 1] == text + Spaces(n - 1);
      assert s[0] == text[0] && s[|s| - 1] == ' ';
      TrimsSpaces(text, n - 1);
    }
  }

  lemma SizeReads(decode: Decoder, field: Bytes, size: nat)
    requires DecodesAscii(decode) && IsSizeField(field, size)
    ensures IsOctal(Trim(CutNul(decode(field)))) && OctalValue(Trim(CutNul(decode(field)))) == size
  {
    hide Trim, OctalText, OctalValue, OctalLimit;
    var digits: nat :| WritesSize(field, size, digits);
    var text := OctalText(size, digits);
    assert AsciiUpTo(field, |field|) && ReadsUpTo(field, |field|, decode(field));
    var k := FirstNul(field, digits);
    CutAfter(decode(field), text, k);
    TrimsSpaces(text, k - digits);
    OctalRoundTrip(size, digits);
  }

  /** The first NUL from a position on, or the end of the field. */
  lemma {:induction false} FirstNul(field: Bytes, n: nat) returns (k: nat)
    requires n <= |field|
    ensures n <= k <= |field| && (k < |field| ==> field[k] == 0) && forall i | n <= i < k :: field[i] != 0
    decreases |field| - n
  {
    if n == |field| || field[n] == 0 { k := n; } else { k := FirstNul(field, n + 1); }
  }

  lemma CutAfter(decoded: string, text: string, k: nat)
    requires |text| <= k <= |decoded| && text == decoded[..|text|] && forall i | 0 <= i < |text| :: text[i] != '\0'
    requires (forall i | |text| <= i < k :: decoded[i] == ' ') && (k < |decoded| ==> decoded[k] == '\0')
    ensures CutNul(decoded) == text + Spaces(k - |text|)
  {
    hide IndexOf;
    var front := text + Spaces(k - |text|);
    assert front == decoded[..k];
    assert '\0' !in front;
    if k < |decoded| {
      assert decoded == front + ['\0'] + decoded[k + 1..];
      FirstIndex(front, '\0', decoded[k + 1..]);
    } else {
      assert decoded == front;
    }
  }

  // ----- Archives by their bytes -----

  /** What one record of an archive stands for: a path, a typeflag, the size its header gives and the bytes it holds. */
  datatype ArchivedFile = ArchivedFile(name: string, prefix: string, kind: Byte, size: nat, content: Bytes)

  function PathText(f: ArchivedFile): string {
    if f.prefix == "" then f.name else f.prefix + "/" + f.name
  }

  /** Links, devices, directories and pipes, typeflags 1 to 6, store no data whatever their size field says. */
  predicate HoldsData(kind: Byte) {
    !(49 <= kind <= 54)
  }

  /** A ustar header block: name, size, typeflag and prefix where the format puts them; other fields hold anything. */
  ghost predicate IsHeader(header: Bytes, f: ArchivedFile) {
    && |header| == 512
    && IsNameField(header[0..100], f.name)
    && IsSizeField(header[124..136], f.size)
    && header[156] == f.kind
    && IsNameField(header[345..500], f.prefix)
  }

  ghost predicate Writes(r: Record, f: ArchivedFile) {
    && IsHeader(r.header, f) && r.content == f.content
    && |f.content| == (if HoldsData(f.kind) then f.size else 0)
    && |r.padding| < 512 && (|r.content| + |r.padding|) % 512 == 0
  }

  /** The bytes of a header read as the path and the size that were written. */
  lemma HeaderReads(decode: Decoder, r: Record, f: ArchivedFile)
    requires DecodesAscii(decode) && Writes(r, f)
    ensures |r.header| == BLOCK && PathOf(decode, r) == PathText(f) && !AllZero(r.header)
    ensures IsOctal(SizeText(decode, r.header)) && OctalValue(SizeText(decode, r.header)) == f.size
    ensures f.size == |f.content| ==> IsRecord(decode, r)
  {
    hide CutNul, Trim, OctalValue, DecodesAscii, IsOctal, RoundUp, AllZero;
    FieldReads(decode, r.header[0..100], f.name);
    FieldReads(decode, r.header[345..500], f.prefix);
    SizeReads(decode, r.header[124..136], f.size);
    NotAllZero(r.header, f.size);
  }

  lemma NotAllZero(header: Bytes, size: nat)
    requires |header| == BLOCK && IsSizeField(header[124..136], size)
    ensures !AllZero(header)
  {
    var field := header[124..136];
    var digits: nat :| WritesSize(field, size, digits);
    assert field[0] as int == OctalText(size, digits)[0] as int && header[124] == field[0];
  }

  /** The content of the first file with the manifest's path. */
  function FirstFile(files: seq<ArchivedFile>): Scan {
    if files == [] then NoManifest
    else if PathText(files[0]) == MANIFEST then Found(files[0].content)
    else FirstFile(files[1..])
  }

  ghost predicate WritesAll(records: seq<Record>, files: seq<ArchivedFile>) {
    |records| == |files| && forall i | 0 <= i < |files| :: Writes(records[i], files[i])
  }

  /** Up to the first manifest, every record that stores no data has size zero. */
  ghost predicate SizesStored(files: seq<ArchivedFile>) {
    files == [] || ((HoldsData(files[0].kind) || files[0].size == 0) &&
                    (PathText(files[0]) == MANIFEST || SizesStored(files[1..])))
  }

  lemma {:induction false} FirstFileIsRead(decode: Decoder, records: seq<Record>, files: seq<ArchivedFile>)
    requires DecodesAscii(decode) && WritesAll(records, files) && SizesStored(files)
    ensures Straight(decode, records) && FirstManifest(decode, records) == FirstFile(files)
  {
    hide IsHeader, IsRecord, PathOf, PathText, DecodesAscii;
    if files != [] {
      assert Writes(records[0], files[0]);
      HeaderReads(decode, records[0], files[0]);
      if PathText(files[0]) != MANIFEST { FirstFileIsRead(decode, records[1..], files[1..]); }
    }
  }

  /** The archive consists of records that write these files, and a tail. */
  ghost predicate Holds(tar: Bytes, records: seq<Record>, files: seq<ArchivedFile>, tail: Bytes) {
    tar == Archive(records, tail) && IsTail(tail) && WritesAll(records, files)
  }

  /**
   * Of an archive that holds these files the scan finds the first manifest, byte for byte, or none, provided the sizes
   * up to it are those of stored data.
   */
  lemma ManifestFound(decode: Decoder, tar: Bytes, records: seq<Record>, files: seq<ArchivedFile>, tail: Bytes)
    requires DecodesAscii(decode) && Holds(tar, records, files, tail) && SizesStored(files)
    ensures ScanFrom(decode, tar, 0) == FirstFile(files)
  {
    hide WritesAll, SizesStored, Straight, FirstManifest, FirstFile, DecodesAscii;
    FirstFileIsRead(decode, records, files);
    ArchiveScanned(decode, records, tail);
  }

  // ----- Records whose size is not that of stored data -----

  lemma ScanSkips(decode: Decoder, tar: Bytes, header: Bytes, size: nat)
    requires BLOCK + size <= |tar| && tar[0..BLOCK] == header && !AllZero(header)
    requires IsOctal(SizeText(decode, header)) && OctalValue(SizeText(decode, header)) == size
    ensures ScanFrom(decode, tar, 0)
         == if ArchivePath(decode, header) == MANIFEST then Found(tar[BLOCK..BLOCK + size])
            else ScanFrom(decode, tar, BLOCK + RoundUp(size))
  {
    hide SizeText, ArchivePath, OctalValue, IsOctal, AllZero, RoundUp;
  }

  lemma ScanStops(decode: Decoder, tar: Bytes, offset: nat)
    requires offset + BLOCK <= |tar| && AllZero(tar[offset..offset + BLOCK])
    ensures ScanFrom(decode, tar, offset) == NoManifest
  {
    hide SizeText, ArchivePath, OctalValue, IsOctal, AllZero, RoundUp;
  }

  /** A record without data is its header alone. */
  lemma OnlyHeader(d: Record, f: ArchivedFile)
    requires Writes(d, f) && !HoldsData(f.kind)
    ensures d.content == [] && d.padding == [] && Lay(d) == d.header
  {
    hide IsHeader;
  }

  /**
   * A record without data whose size is not zero makes the scan skip as many bytes of what follows: a manifest that
   * comes next is not found when the skip ends where it does.
   */
  lemma SizedDirectoryHidesManifest(decode: Decoder, d: Record, f: ArchivedFile, m: Record, g: ArchivedFile,
                                    tail: Bytes)
    requires DecodesAscii(decode) && Writes(d, f) && !HoldsData(f.kind) && f.size > 0 && PathText(f) != MANIFEST
    requires Writes(m, g) && HoldsData(g.kind) && PathText(g) == MANIFEST
    requires RoundUp(f.size) == BLOCK + RoundUp(g.size) && |tail| >= BLOCK && AllZero(tail[..BLOCK])
    ensures ScanFrom(decode, Archive([d, m], tail), 0) == NoManifest
    ensures FirstFile([f, g]) == Found(g.content)
  {
    hide IsHeader, PathText, SizeText, ArchivePath, OctalValue, IsOctal, DecodesAscii, RoundUp, AllZero, ScanFrom,
         Archive;
    HeaderReads(decode, d, f);
    HeaderReads(decode, m, g);
    OnlyHeader(d, f);
    PaddingFills(|m.content|, |m.padding|);
    var tar := Archive([d, m], tail);
    TwoLaid(d, m, tail);
    assert [f, g][1..] == [g];
    ScanSkips(decode, tar, d.header, f.size);
    ScanStops(decode, tar, BLOCK + RoundUp(f.size));
  }

  lemma TwoLaid(d: Record, m: Record, tail: Bytes)
    requires |d.header| == BLOCK && Lay(d) == d.header && |m.header| == BLOCK
    ensures var tar, next := Archive([d, m], tail), BLOCK + BLOCK + |m.content| + |m.padding|;
      && |tar| == next + |tail| && tar[0..BLOCK] == d.header
      && forall n | 0 <= n <= |tail| :: tar[next..next + n] == tail[..n]
  {
    hide AllZero;
    assert [d, m][1..] == [m] && [m][1..] == [];
    assert Archive([m], tail) == Lay(m) + tail;
    var front := d.header + Lay(m);
    assert Archive([d, m], tail) == front + tail;
  }

  function CharByte(c: char): Byte {
    if c as int < 256 then (c as int) as Byte else 0
  }

  /** A header with nothing but a name, a size and a typeflag. */
  function PlainHeader(name: string, kind: Byte, size: nat): Bytes {
    seq(BLOCK, i requires 0 <= i < BLOCK =>
      if i < |name| && i < 100 then CharByte(name[i])
      else if 124 <= i < 135 then CharByte(OctalText(size, 11)[i - 124])
      else if i == 156 then kind else 0)
  }

  function Zeros(n: nat): Bytes {
    seq(n, _ => 0)
  }

  lemma {:induction false} LimitGrows(a: nat, b: nat)
    requires a <= b
    ensures OctalLimit(a) <= OctalLimit(b)
  {
    if a < b { LimitGrows(a, b - 1); }
  }

  lemma ManifestIsAscii()
    ensures AsciiText(MANIFEST) && |MANIFEST| == 20
  {
    forall i | 0 <= i < |MANIFEST|
      ensures 0 < MANIFEST[i] as int < 128
    {
      assert MANIFEST[i] in {'p', 'a', 'c', 'k', 'g', 'e', '/', 'j', 's', 'o', 'n', '.'};
    }
  }

  lemma PlainHeaderIs(name: string, kind: Byte, size: nat, content: Bytes)
    requires AsciiText(name) && |name| < 100 && size < OctalLimit(11)
    ensures IsHeader(PlainHeader(name, kind, size), ArchivedFile(name, "", kind, size, content))
  {
    hide OctalText, OctalLimit;
    var header := PlainHeader(name, kind, size);
    var text := OctalText(size, 11);
    forall i | 0 <= i < 11
      ensures header[124..136][i] as int == text[i] as int
    {
      assert '0' <= text[i] <= '7' && header[124 + i] == CharByte(text[i]);
    }
    assert header[124..136][11] == 0;
    assert WritesSize(header[124..136], size, 11);
  }

  /** Whatever well-formed records follow, the scan of them after this record finds the first manifest of all. */
  ghost predicate ReadsOn(decode: Decoder, r: Record, f: ArchivedFile) {
    forall records, files, tail | WritesAll(records, files) && SizesStored(files) && IsTail(tail) ::
      ScanFrom(decode, Archive([r] + records, tail), 0) == FirstFile([f] + files)
  }

  /** That is so exactly for records that store data or have size zero. */
  lemma RecordReadsIff(decode: Decoder, r: Record, f: ArchivedFile)
    requires DecodesAscii(decode) && Writes(r, f)
    ensures ReadsOn(decode, r, f) <==> HoldsData(f.kind) || f.size == 0
  {
    hide IsHeader, DecodesAscii, ScanFrom, FirstFile, Archive, PathText;
    if HoldsData(f.kind) || f.size == 0 {
      forall records, files, tail | WritesAll(records, files) && SizesStored(files) && IsTail(tail)
        ensures ScanFrom(decode, Archive([r] + records, tail), 0) == FirstFile([f] + files)
      {
        assert ([f] + files)[1..] == files;
        ManifestFound(decode, Archive([r] + records, tail), [r] + records, [f] + files, tail);
      }
    } else if PathText(f) == MANIFEST {
      SizedManifestIsMisread(decode, r, f);
    } else {
      ManifestIsHidden(decode, r, f);
    }
  }

  /** A directory of size 512, as the format allows, hides an empty manifest that follows it. */
  lemma DirectoryHidesManifest(decode: Decoder)
    requires DecodesAscii(decode)
    ensures var d, m := Record(PlainHeader("package", 53, 512), [], []), Record(PlainHeader(MANIFEST, 48, 0), [], []);
      var f, g := ArchivedFile("package", "", 53, 512, []), ArchivedFile(MANIFEST, "", 48, 0, []);
      && WritesAll([d, m], [f, g]) && FirstFile([f, g]) == Found([])
      && ScanFrom(decode, Archive([d, m], Zeros(2 * BLOCK)), 0) == NoManifest
  {
    hide IsHeader, DecodesAscii, ScanFrom, FirstFile, Archive, OctalText, PlainHeader;
    var d, m := Record(PlainHeader("package", 53, 512), [], []), Record(PlainHeader(MANIFEST, 48, 0), [], []);
    var f, g := ArchivedFile("package", "", 53, 512, []), ArchivedFile(MANIFEST, "", 48, 0, []);
    ManifestIsAscii();
    assert OctalLimit(4) == 4096;
    LimitGrows(4, 11);
    PlainHeaderIs("package", 53, 512, []);
    PlainHeaderIs(MANIFEST, 48, 0, []);
    assert Writes(d, f) && Writes(m, g);
    SizedDirectoryHidesManifest(decode, d, f, m, g, Zeros(2 * BLOCK));
  }

  lemma SizedManifestIsMisread(decode: Decoder, r: Record, f: ArchivedFile)
    requires DecodesAscii(decode) && Writes(r, f) && !HoldsData(f.kind) && f.size > 0 && PathText(f) == MANIFEST
    ensures !ReadsOn(decode, r, f)
  {
    hide IsHeader, DecodesAscii, PathText, SizeText, OctalValue, IsOctal, RoundUp, ArchivePath;
    HeaderReads(decode, r, f);
    OnlyHeader(r, f);
    var records: seq<Record>, files: seq<ArchivedFile> := [], [];
    var tail := Zeros(BLOCK + f.size);
    assert WritesAll(records, files) && SizesStored(files) && IsTail(tail);
    assert [r] + records == [r] && [f] + files == [f] && [r][1..] == [];
    assert Archive([r], tail) == r.header + tail;
    ScanSkips(decode, Archive([r], tail), r.header, f.size);
    assert FirstFile([f]) == Found(f.content);
  }

  lemma ManifestIsHidden(decode: Decoder, r: Record, f: ArchivedFile)
    requires DecodesAscii(decode) && Writes(r, f) && !HoldsData(f.kind) && f.size > 0 && PathText(f) != MANIFEST
    ensures !ReadsOn(decode, r, f)
  {
    hide DecodesAscii, ScanFrom, FirstFile, Archive, OctalLimit, OctalText, IsNameField;
    var size: nat := RoundUp(f.size) - BLOCK;
    var digits: nat :| WritesSize(r.header[124..136], f.size, digits);
    LimitGrows(digits, 11);
    var g := ArchivedFile(MANIFEST, "", 48, size, Zeros(size));
    var m := Record(PlainHeader(MANIFEST, 48, size), g.content, []);
    ManifestIsAscii();
    PlainHeaderIs(MANIFEST, 48, size, g.content);
    var tail := Zeros(BLOCK);
    assert Writes(m, g);
    SizedDirectoryHidesManifest(decode, r, f, m, g, tail);
    assert WritesAll([m], [g]) && SizesStored([g]) && IsTail(tail);
    assert [r] + [m] == [r, m] && [f] + [g] == [f, g];
  }

  /** The manifest found is that of the first file with its path. */
  lemma {:induction false} FirstManifestIs(files: seq<ArchivedFile>, i: nat)
    requires i < |files| && PathText(files[i]) == MANIFEST
    requires forall k | 0 <= k < i :: PathText(files[k]) != MANIFEST
    ensures FirstFile(files) == Found(files[i].content)
  {
    hide PathText;
    if i > 0 { FirstManifestIs(files[1..], i - 1); }
  }

  lemma {:induction false} NoManifestIs(files: seq<ArchivedFile>)
    ensures FirstFile(files) == NoManifest <==> forall k | 0 <= k < |files| :: PathText(files[k]) != MANIFEST
  {
    hide PathText;
    if files != [] && PathText(files[0]) != MANIFEST {
      NoManifestIs(files[1..]);
      assert files == [files[0]] + files[1..];
    }
  }
}
