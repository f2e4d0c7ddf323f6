/** What the root-bin preference means for package names and versions as they are written. */
module BinOwners {
  import opened Common
  import opened Metadata
  import opened StoreEdges
  import opened RootBins
  import opened SnapshotKeys
  import opened StoreKeyNames

  // ----- Versions as written -----

  /** Release segments with dots between them. */
  function Dotted(segments: seq<nat>): string
    requires segments != []
  {
    if |segments| == 1 then Decimal(segments[0]) else Decimal(segments[0]) + "." + Dotted(segments[1..])
  }

  lemma {:induction false} DecimalReads(n: nat, rest: string)
    ensures DigitsValue(Decimal(n) + rest, 0) == DigitsValue(rest, n)
  {
    var last := [(n % 10 + '0' as int) as char];
    assert (last + rest)[1..] == rest;
    if n < 10 {
      assert Decimal(n) + rest == last + rest;
    } else {
      assert Decimal(n) + rest == Decimal(n / 10) + (last + rest);
      DecimalReads(n / 10, last + rest);
    }
  }

  lemma LeadingDecimal(n: nat)
    ensures LeadingInt(Decimal(n)) == n
  {
    DecimalDigits(n);
    DecimalReads(n, "");
    assert Decimal(n) + "" == Decimal(n);
    assert Decimal(n)[0] in Decimal(n);
  }

  lemma {:induction false} SpaceSkipped(space: string, text: string)
    requires forall c | c in space :: IsSpace(c)
    ensures LeadingInt(space + text) == LeadingInt(text)
  {
    if space == "" {
      assert space + text == text;
    } else {
      assert (space + text)[1..] == space[1..] + text && space[0] in space;
      SpaceSkipped(space[1..], text);
    }
  }

  /** A leading integer may follow white space and a sign, and ends at the first character that is no digit. */
  lemma LeadingIntIs(space: string, n: nat, rest: string)
    requires forall c | c in space :: IsSpace(c)
    requires rest == "" || !('0' <= rest[0] <= '9')
    ensures LeadingInt(space + (Decimal(n) + rest)) == n
    ensures LeadingInt(space + ("-" + (Decimal(n) + rest))) == 0 - n
    ensures LeadingInt(space + ("+" + (Decimal(n) + rest))) == n
    ensures rest == "" || (rest[0] !in "+-" && !IsSpace(rest[0])) ==> LeadingInt(space + rest) == 0
  {
    hide Decimal;
    var digits := Decimal(n) + rest;
    SpaceSkipped(space, digits);
    SpaceSkipped(space, "-" + digits);
    SpaceSkipped(space, "+" + digits);
    SpaceSkipped(space, rest);
    DecimalDigits(n);
    DecimalReads(n, rest);
    StopsReading(rest, n);
    StopsReading(rest, 0);
    assert digits[0] == Decimal(n)[0] && Decimal(n)[0] in Decimal(n);
    assert ("-" + digits)[1..] == digits && ("+" + digits)[1..] == digits;
  }

  lemma StopsReading(rest: string, n: nat)
    requires rest == "" || !('0' <= rest[0] <= '9')
    ensures DigitsValue(rest, n) == n
  {
  }

  lemma {:induction false} SplitOne(s: string, c: char)
    requires c !in s
    ensures Split(s, c) == [s]
  {
    if s != "" {
      SplitOne(s[1..], c);
      assert s == [s[0]] + s[1..];
    }
  }

  lemma {:induction false} SplitMore(first: string, c: char, rest: string)
    requires c !in first
    ensures Split(first + [c] + rest, c) == [first] + Split(rest, c)
  {
    if first == "" {
      assert first + [c] + rest == [c] + rest;
    } else {
      assert (first + [c] + rest)[1..] == first[1..] + [c] + rest;
      SplitMore(first[1..], c, rest);
      assert first == [first[0]] + first[1..];
    }
  }

  lemma {:induction false} DottedReads(segments: seq<nat>)
    requires segments != []
    ensures Numbers(Split(Dotted(segments), '.')) == segments
    ensures forall c | c in Dotted(segments) :: '0' <= c <= '9' || c == '.'
  {
    hide LeadingInt, Split, Decimal;
    var first := Decimal(segments[0]);
    LeadingDecimal(segments[0]);
    DecimalDigits(segments[0]);
    if |segments| == 1 {
      SplitOne(first, '.');
    } else {
      DottedReads(segments[1..]);
      SplitMore(first, '.', Dotted(segments[1..]));
      var parts := Split(Dotted(segments[1..]), '.');
      assert ([first] + parts)[1..] == parts;
    }
  }

  /** The release segments of a version are the numbers written, with or without a prerelease tag. */
  lemma ReleaseReads(segments: seq<nat>, tag: string)
    requires segments != []
    ensures Release(Dotted(segments)) == segments && Release(Dotted(segments) + "-" + tag) == segments
    ensures '-' !in Dotted(segments)
  {
    hide Split, Numbers;
    DottedReads(segments);
    SplitOne(Dotted(segments), '-');
    SplitFirst(Dotted(segments), '-', tag);
  }

  function At(segments: seq<int>, i: nat): int {
    if i < |segments| then segments[i] else 0
  }

  /** The segments agree up to this position, and there the first is greater; missing segments are zero. */
  ghost predicate AboveAt(a: seq<int>, b: seq<int>, i: nat) {
    At(a, i) > At(b, i) && forall j: nat | j < i :: At(a, j) == At(b, j)
  }

  lemma {:induction false} SegmentsAbove(a: seq<int>, b: seq<int>)
    ensures CompareSegments(a, b) > 0 <==> exists i: nat :: AboveAt(a, b, i)
    decreases |a| + |b|
  {
    if a == [] && b == [] {
    } else if Head(a) != Head(b) {
      assert At(a, 0) == Head(a) && At(b, 0) == Head(b);
      if Head(a) > Head(b) { assert AboveAt(a, b, 0); }
    } else {
      SegmentsAbove(Tail(a), Tail(b));
      forall i: nat
        ensures At(Tail(a), i) == At(a, i + 1) && At(Tail(b), i) == At(b, i + 1)
      {
      }
      if i: nat :| AboveAt(Tail(a), Tail(b), i) {
        forall j: nat | j < i + 1 ensures At(a, j) == At(b, j) {
          if j > 0 { assert At(Tail(a), j - 1) == At(Tail(b), j - 1); }
        }
        assert AboveAt(a, b, i + 1);
      }
      if i: nat :| AboveAt(a, b, i) {
        assert i > 0;
        forall j: nat | j < i - 1 ensures At(Tail(a), j) == At(Tail(b), j) { assert At(a, j + 1) == At(b, j + 1); }
        assert AboveAt(Tail(a), Tail(b), i - 1);
      }
    }
  }

  /** The greater version has the greater first differing segment; with equal segments a release is above its tags. */
  lemma GreaterVersion(a: seq<nat>, b: seq<nat>, tag: string, other: string)
    requires a != [] && b != []
    ensures CompareVersions(Dotted(a), Dotted(b)) > 0 <==> exists i: nat :: AboveAt(a, b, i)
    ensures CompareVersions(Dotted(a), Dotted(b) + "-" + tag) > 0 <==> !exists i: nat :: AboveAt(b, a, i)
    ensures CompareVersions(Dotted(a) + "-" + tag, Dotted(b)) > 0 <==> exists i: nat :: AboveAt(a, b, i)
    ensures CompareVersions(Dotted(a) + "-" + tag, Dotted(b) + "-" + other) > 0 <==> exists i: nat :: AboveAt(a, b, i)
  {
    hide Release, CompareSegments, AboveAt;
    ReleaseReads(a, tag);
    ReleaseReads(b, tag);
    ReleaseReads(b, other);
    SegmentsAbove(a, b);
    SegmentsAbove(b, a);
    SegmentsOpposite(a, b);
    assert '-' in "-";
  }

  // ----- Names as written -----

  /** The package's name, less any scope, is that of the executable. */
  ghost predicate Owns(name: string, bin: string) {
    name == bin || exists scope :: scope != "" && '/' !in scope && name == "@" + scope + "/" + bin
  }

  lemma UnscopedIff(name: string, bin: string)
    requires '/' !in bin
    ensures Unscoped(name) == bin <==> Owns(name, bin)
  {
    var slash := IndexOf(name, '/');
    if name != "" && name[0] == '@' && slash >= 2 {
      assert name == "@" + name[1..slash] + "/" + name[slash + 1..];
      assert '/' !in name[1..slash] by { assert forall c | c in name[1..slash] :: c in name[..slash]; }
      assert name[slash] == '/';
    }
    if scope :| scope != "" && '/' !in scope && name == "@" + scope + "/" + bin {
      FirstIndex("@" + scope, '/', bin);
      assert name == ("@" + scope) + ['/'] + bin;
    }
  }

  /** The store key of a package without peers. */
  function PlainKey(name: string, version: string): string {
    ReplaceAll(name, '/', "+") + "@" + version
  }

  ghost predicate PlainPackage(name: string, version: string) {
    && name != "" && '+' !in name && '(' !in name && '\t' !in name
    && '@' !in version && '(' !in version && '\t' !in version
  }

  lemma RecordReads(name: string, version: string, path: string)
    requires PlainPackage(name, version)
    ensures ParseRecord(Record(PlainKey(name, version), path)) == NameVersion(name, version)
  {
    hide ReplaceAll, ParseVirtualStoreKey, Split;
    var short := ReplaceAll(name, '/', "+");
    var key := PlainKey(name, version);
    ReplaceKeeps(name, '/', "+", '\t');
    ReplaceKeeps(name, '/', "+", '(');
    SplitFirst(key, '\t', path);
    assert Record(key, path) == key + ['\t'] + path;
    CutsNothing(key);
    ReplacedLength(name, '/', "+");
    KeyReads(short, version);
    ReplacedBack(name);
  }

  lemma KeyReads(short: string, version: string)
    requires short != "" && '@' !in version && '(' !in short + "@" + version
    ensures ParseVirtualStoreKey(short + "@" + version) == NameVersion(ReplaceAll(short, '+', "/"), version)
  {
    hide ReplaceAll;
    var key := short + ['@'] + version;
    CutsNothing(key);
    LastAfter(short, '@', version);
    assert key[..|short|] == short && key[|short| + 1..] == version;
  }

  /**
   * Of two packages that offer an executable the challenger gets it when it alone carries the executable's name, else
   * when its name is the greater, else when its version is.
   */
  lemma PickedIff(collate: Collation, bin: string, name: string, version: string, path: string, held: string,
                  heldVersion: string, heldPath: string)
    requires '/' !in bin && PlainPackage(name, version) && PlainPackage(held, heldVersion)
    requires (name, version, path) != (held, heldVersion, heldPath)
    ensures var challenger := Record(PlainKey(name, version), path);
      var holder := Record(PlainKey(held, heldVersion), heldPath);
      PickRootBin(collate, bin, challenger, holder) == challenger && challenger != holder <==>
        || (Owns(name, bin) && !Owns(held, bin))
        || ((Owns(name, bin) <==> Owns(held, bin)) && name != held && collate(name, held) > 0)
        || (name == held && CompareVersions(version, heldVersion) > 0)
  {
    hide Owns, Unscoped, CompareVersions, Record, PlainKey, ParseRecord;
    UnscopedIff(name, bin);
    UnscopedIff(held, bin);
    RecordReads(name, version, path);
    RecordReads(held, heldVersion, heldPath);
    VersionsPreordered(version, version, version);
  }
}
