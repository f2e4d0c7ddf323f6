/** Which package owns each executable name of an importer's root bin directory. */
module RootBins {
  import opened Common
  import opened Metadata
  import opened StoreEdges

  // ----- Versions -----

  function Split(s: string, c: char): (parts: seq<string>)
    ensures parts != []
  {
    if s == [] then [[]]
    else
      var rest := Split(s[1..], c);
      if s[0] == c then [[]] + rest else [[s[0]] + rest[0]] + rest[1..]
  }

  predicate Digit(c: char) {
    '0' <= c <= '9'
  }

  /** The value of the leading digits, continuing from acc. */
  function DigitsValue(s: string, acc: nat): nat {
    if s == [] || !Digit(s[0]) then acc else DigitsValue(s[1..], acc * 10 + (s[0] as int - '0' as int))
  }

  /** The leading integer of a text; zero when there is none. */
  function LeadingInt(s: string): int {
    if s == [] then 0
    else if IsSpace(s[0]) then LeadingInt(s[1..])
    else if s[0] == '-' then 0 - DigitsValue(s[1..], 0)
    else if s[0] == '+' then DigitsValue(s[1..], 0)
    else DigitsValue(s, 0)
  }

  function Numbers(parts: seq<string>): seq<int> {
    if parts == [] then [] else [LeadingInt(parts[0])] + Numbers(parts[1..])
  }

  function Release(v: string): seq<int> {
    Numbers(Split(Split(v, '-')[0], '.'))
  }

  function Head(a: seq<int>): int { if a == [] then 0 else a[0] }

  function Tail(a: seq<int>): seq<int> { if a == [] then [] else a[1..] }

  /** Segment by segment; a missing segment counts as zero. */
  function CompareSegments(a: seq<int>, b: seq<int>): int
    decreases |a| + |b|
  {
    if a == [] && b == [] then 0
    else if Head(a) != Head(b) then (if Head(a) < Head(b) then -1 else 1)
    else CompareSegments(Tail(a), Tail(b))
  }

  /** Release segments first; a prerelease sorts below its release. */
  function CompareVersions(a: string, b: string): int {
    var segments := CompareSegments(Release(a), Release(b));
    if segments != 0 then segments
    else if ('-' in a) != ('-' in b) then (if '-' in a then -1 else 1)
    else 0
  }

  lemma {:induction false} SegmentsOpposite(a: seq<int>, b: seq<int>)
    ensures CompareSegments(a, b) == -CompareSegments(b, a)
    decreases |a| + |b|
  {
    if a != [] || b != [] {
      SegmentsOpposite(Tail(a), Tail(b));
    }
  }

  lemma {:induction false} SegmentsTransitive(a: seq<int>, b: seq<int>, c: seq<int>)
    requires CompareSegments(a, b) >= 0 && CompareSegments(b, c) >= 0
    ensures CompareSegments(a, c) >= 0
    ensures CompareSegments(a, c) == 0 ==> CompareSegments(a, b) == 0 && CompareSegments(b, c) == 0
    decreases |a| + |b| + |c|
  {
    if (a != [] || b != [] || c != []) && Head(a) == Head(b) == Head(c) {
      ZeroOnEmpty(a, b);
      ZeroOnEmpty(b, c);
      ZeroOnEmpty(a, c);
      SegmentsTransitive(Tail(a), Tail(b), Tail(c));
    }
  }

  lemma ZeroOnEmpty(a: seq<int>, b: seq<int>)
    requires Head(a) == Head(b)
    ensures CompareSegments(a, b) == CompareSegments(Tail(a), Tail(b))
  {
  }

  /** Versions are totally preordered. */
  lemma VersionsPreordered(a: string, b: string, c: string)
    ensures CompareVersions(a, b) == -CompareVersions(b, a)
    ensures CompareVersions(a, b) >= 0 && CompareVersions(b, c) >= 0 ==> CompareVersions(a, c) >= 0
    ensures CompareVersions(a, b) > 0 && CompareVersions(b, c) >= 0 ==> CompareVersions(a, c) > 0
    ensures CompareVersions(a, b) >= 0 && CompareVersions(b, c) > 0 ==> CompareVersions(a, c) > 0
  {
    var x, y, z := Release(a), Release(b), Release(c);
    SegmentsOpposite(x, y);
    if CompareSegments(x, y) >= 0 && CompareSegments(y, z) >= 0 {
      SegmentsTransitive(x, y, z);
    }
  }

  // ----- One conflict -----

  /** A package name less its scope. */
  function Unscoped(name: string): string {
    var slash := IndexOf(name, '/');
    if name != [] && name[0] == '@' && slash >= 2 then name[slash + 1..] else name
  }

  /** A record is a store key, a tab and the executable's path. */
  function Record(storeKey: string, executable: string): string {
    storeKey + "\t" + executable
  }

  function ParseRecord(record: string): NameVersion {
    ParseVirtualStoreKey(Split(record, '\t')[0])
  }

  /** The locale's comparison of two names: negative, zero or positive. */
  type Collation = (string, string) -> int

  function PickRootBin(collate: Collation, binName: string, challenger: string, holder: string): string {
    var c, h := ParseRecord(challenger), ParseRecord(holder);
    var cOwns, hOwns := Unscoped(c.name) == binName, Unscoped(h.name) == binName;
    if cOwns != hOwns then (if cOwns then challenger else holder)
    else if c.name != h.name then (if collate(c.name, h.name) > 0 then challenger else holder)
    else if CompareVersions(c.version, h.version) > 0 then challenger
    else holder
  }

  /** Owning the executable's name comes first, then the greater package name, then the greater version. */
  predicate Beats(collate: Collation, binName: string, a: string, b: string) {
    var x, y := ParseRecord(a), ParseRecord(b);
    var xOwns, yOwns := Unscoped(x.name) == binName, Unscoped(y.name) == binName;
    || (xOwns && !yOwns)
    || (xOwns == yOwns && x.name != y.name && collate(x.name, y.name) > 0)
    || (x.name == y.name && CompareVersions(x.version, y.version) > 0)
  }

  /** A comparison orders names: opposite in both directions, transitive. */
  ghost predicate Orders(collate: Collation) {
    && (forall a, b :: collate(a, b) > 0 ==> !(collate(b, a) > 0))
    && (forall a, b, c :: collate(a, b) > 0 && collate(b, c) > 0 ==> collate(a, c) > 0)
  }

  /** And no two distinct names compare equal. */
  ghost predicate Separates(collate: Collation) {
    Orders(collate) && forall a, b :: a != b ==> collate(a, b) > 0 || collate(b, a) > 0
  }

  lemma PickIsBeats(collate: Collation, binName: string, challenger: string, holder: string)
    ensures PickRootBin(collate, binName, challenger, holder)
         == if Beats(collate, binName, challenger, holder) then challenger else holder
  {
  }

  lemma BeatsTransitive(collate: Collation, binName: string, a: string, b: string, c: string)
    requires Orders(collate) && Beats(collate, binName, a, b) && Beats(collate, binName, b, c)
    ensures Beats(collate, binName, a, c)
  {
    hide Unscoped, ParseRecord, CompareVersions;
    var x, y, z := ParseRecord(a), ParseRecord(b), ParseRecord(c);
    VersionsPreordered(x.version, y.version, z.version);
  }

  lemma BeatsIrreflexive(collate: Collation, binName: string, a: string)
    ensures !Beats(collate, binName, a, a)
  {
    VersionsPreordered(ParseRecord(a).version, ParseRecord(a).version, ParseRecord(a).version);
  }

  // ----- The fold -----

  /** What visiting one more record leaves in the bin's slot. */
  function Visit(collate: Collation, binName: string, existing: string, record: string): string {
    if existing != record && PickRootBin(collate, binName, record, existing) == existing then existing else record
  }

  function Winner(collate: Collation, binName: string, records: seq<string>): string
    requires records != []
  {
    if |records| == 1 then records[0]
    else Visit(collate, binName, Winner(collate, binName, records[..|records| - 1]), records[|records| - 1])
  }

  ghost predicate Maximal(collate: Collation, binName: string, records: seq<string>, r: string) {
    r in records && forall x | x in records :: !Beats(collate, binName, x, r)
  }

  lemma VisitKeepsOrBeats(collate: Collation, binName: string, existing: string, record: string)
    ensures Visit(collate, binName, existing, record)
         == if Beats(collate, binName, record, existing) then record else existing
  {
    PickIsBeats(collate, binName, record, existing);
  }

  /** The fold's winner is beaten by nothing it visited. */
  lemma {:induction false} WinnerIsMaximal(collate: Collation, binName: string, records: seq<string>)
    requires Orders(collate) && records != []
    ensures Maximal(collate, binName, records, Winner(collate, binName, records))
  {
    hide Beats, Visit;
    if |records| == 1 {
      BeatsIrreflexive(collate, binName, records[0]);
    } else {
      var front, last := records[..|records| - 1], records[|records| - 1];
      WinnerIsMaximal(collate, binName, front);
      var w := Winner(collate, binName, front);
      VisitKeepsOrBeats(collate, binName, w, last);
      BeatsIrreflexive(collate, binName, last);
      assert records == front + [last];
      forall x | x in records
        ensures !Beats(collate, binName, x, Winner(collate, binName, records))
      {
        if Beats(collate, binName, last, w) && x in front && Beats(collate, binName, x, last) {
          BeatsTransitive(collate, binName, x, last, w);
        }
      }
    }
  }

  /** A first record nothing beats keeps the slot. */
  lemma {:induction false} FirstMaximalStays(collate: Collation, binName: string, records: seq<string>)
    requires records != [] && forall x | x in records :: !Beats(collate, binName, x, records[0])
    ensures Winner(collate, binName, records) == records[0]
  {
    hide Beats, Visit;
    if |records| > 1 {
      var front, last := records[..|records| - 1], records[|records| - 1];
      FirstMaximalStays(collate, binName, front);
      VisitKeepsOrBeats(collate, binName, records[0], last);
    }
  }

  /** The winner is the k-th record, which beats every record visited before it. */
  ghost predicate WinsAt(collate: Collation, binName: string, records: seq<string>, k: nat) {
    && k < |records| && records[k] == Winner(collate, binName, records)
    && forall j | 0 <= j < k :: Beats(collate, binName, records[k], records[j])
  }

  /** When names never tie, the winner is the first-visited maximum: it beats every record before it. */
  lemma {:induction false} WinnerIsFirst(collate: Collation, binName: string, records: seq<string>)
    requires Separates(collate) && records != []
    ensures exists k: nat :: WinsAt(collate, binName, records, k)
  {
    hide Beats, Visit;
    if |records| == 1 {
      assert WinsAt(collate, binName, records, 0);
    } else {
      var front, last := records[..|records| - 1], records[|records| - 1];
      WinnerIsFirst(collate, binName, front);
      var k: nat :| WinsAt(collate, binName, front, k);
      VisitKeepsOrBeats(collate, binName, front[k], last);
      if Beats(collate, binName, last, front[k]) {
        WinnerIsMaximal(collate, binName, front);
        forall j | 0 <= j < |front|
          ensures Beats(collate, binName, last, records[j])
        {
          assert front[j] in front;
          BeatsAllBelow(collate, binName, last, front[k], front[j]);
        }
        assert WinsAt(collate, binName, records, |front|);
      } else {
        assert WinsAt(collate, binName, records, k);
      }
    }
  }

  /** Without name ties, what beats a record beats everything that record is not beaten by. */
  lemma BeatsAllBelow(collate: Collation, binName: string, a: string, b: string, c: string)
    requires Separates(collate) && Beats(collate, binName, a, b) && !Beats(collate, binName, c, b)
    ensures Beats(collate, binName, a, c)
  {
    hide Unscoped, ParseRecord, CompareVersions;
    var x, y, z := ParseRecord(a), ParseRecord(b), ParseRecord(c);
    VersionsPreordered(x.version, y.version, z.version);
    VersionsPreordered(y.version, z.version, y.version);
    VersionsPreordered(z.version, y.version, z.version);
  }

  /** Visit order does not matter exactly when no two distinct records are maximal. */
  lemma OrderIrrelevantIff(collate: Collation, binName: string, records: seq<string>)
    requires Orders(collate) && records != []
    ensures (forall other | multiset(other) == multiset(records) && other != [] ::
               Winner(collate, binName, other) == Winner(collate, binName, records))
         <==> (forall a, b | Maximal(collate, binName, records, a) && Maximal(collate, binName, records, b) :: a == b)
  {
    hide Beats, Winner;
    if forall a, b | Maximal(collate, binName, records, a) && Maximal(collate, binName, records, b) :: a == b {
      forall other | multiset(other) == multiset(records) && other != []
        ensures Winner(collate, binName, other) == Winner(collate, binName, records)
      {
        SameMembers(records, other);
        WinnerIsMaximal(collate, binName, other);
        WinnerIsMaximal(collate, binName, records);
        assert Maximal(collate, binName, records, Winner(collate, binName, other));
      }
    } else {
      var a, b :| Maximal(collate, binName, records, a) && Maximal(collate, binName, records, b) && a != b;
      var first := BringToFront(records, a);
      var second := BringToFront(records, b);
      SameMembers(records, first);
      SameMembers(records, second);
      FirstMaximalStays(collate, binName, first);
      FirstMaximalStays(collate, binName, second);
    }
  }

  lemma SameMembers(a: seq<string>, b: seq<string>)
    requires multiset(a) == multiset(b)
    ensures forall x :: x in a <==> x in b
  {
    forall x
      ensures x in a <==> x in b
    {
      assert x in a <==> x in multiset(a);
      assert x in b <==> x in multiset(b);
    }
  }

  lemma BringToFront(records: seq<string>, a: string) returns (other: seq<string>)
    requires a in records
    ensures multiset(other) == multiset(records) && other != [] && other[0] == a
  {
    var i :| 0 <= i < |records| && records[i] == a;
    other := [a] + records[..i] + records[i + 1..];
    assert records == records[..i] + [a] + records[i + 1..];
  }

  lemma {:induction false} SplitFirst(first: string, c: char, rest: string)
    requires c !in first
    ensures Split(first + [c] + rest, c)[0] == first
  {
    if first == [] {
      assert first + [c] + rest == [c] + rest;
    } else {
      assert (first + [c] + rest)[1..] == first[1..] + [c] + rest;
      SplitFirst(first[1..], c, rest);
    }
  }

  /** What a record of package a with prerelease version 1-t parses to. */
  lemma PrereleaseRecord(t: char)
    requires 'b' <= t <= 'y'
    ensures ParseRecord(Record("a@1-" + [t], "x")) == NameVersion("a", "1-" + [t])
  {
    var key := "a@1-" + [t];
    SplitFirst(key, '\t', "x");
    assert key + ['\t'] + "x" == Record(key, "x");
    CutsNothing(key);
    assert LastIndexOf(key, '@') == 1;
    assert ReplaceAll("a", '+', "/") == "a";
  }

  lemma PrereleaseNumbers(t: char)
    requires 'b' <= t <= 'y'
    ensures Release("1-" + [t]) == [1]
  {
    SplitFirst("1", '-', [t]);
    assert "1" + ['-'] + [t] == "1-" + [t];
    assert Split("1", '.') == ["1"];
    assert Numbers(["1"]) == [1];
  }

  /** Visit order decides between two prereleases of one release: they tie, and the first stays. */
  lemma OrderMatters(collate: Collation)
    requires collate("a", "a") == 0
    ensures
      var x, y := Record("a@1-b", "x"), Record("a@1-c", "x");
      x != y && Winner(collate, "b", [x, y]) == x && Winner(collate, "b", [y, x]) == y
  {
    hide Release, ParseRecord, Unscoped;
    var x, y := Record("a@1-b", "x"), Record("a@1-c", "x");
    assert x[4] != y[4];
    PrereleaseRecord('b');
    PrereleaseRecord('c');
    PrereleaseNumbers('b');
    PrereleaseNumbers('c');
    assert "1-" + ['b'] == "1-b" && "1-" + ['c'] == "1-c";
    assert "a@1-" + ['b'] == "a@1-b" && "a@1-" + ['c'] == "a@1-c";
    assert CompareSegments([1], [1]) == 0;
    assert "1-b"[1] == '-' && "1-c"[1] == '-';
    FirstMaximalStays(collate, "b", [x, y]);
    FirstMaximalStays(collate, "b", [y, x]);
  }

  // ----- All conflicts of one importer -----

  type Bins = map<string, string>

  /** The records an entry's executables contribute, in visit order. */
  ghost function EntryVisits(storeKey: string, bins: Bins, names: seq<string>): seq<(string, string)>
    requires forall n | n in names :: n in bins
  {
    if names == [] then []
    else
      var last := names[|names| - 1];
      EntryVisits(storeKey, bins, names[..|names| - 1]) + [(last, Record(storeKey, bins[last]))]
  }

  ghost predicate BinsKnown(direct: EdgeSet, binsOf: map<string, Bins>) {
    forall n | n in direct && direct[n].EntryEdge? :: direct[n].storeKey in binsOf
  }

  /** The records an importer's direct entries contribute, in visit order. */
  ghost function Visits(direct: EdgeSet, binsOf: map<string, Bins>, names: seq<string>): seq<(string, string)>
    requires BinsKnown(direct, binsOf) && forall n | n in names :: n in direct
  {
    if names == [] then []
    else
      var edge := direct[names[|names| - 1]];
      Visits(direct, binsOf, names[..|names| - 1])
      + if edge.EntryEdge?
        then EntryVisits(edge.storeKey, binsOf[edge.storeKey], Listing(binsOf[edge.storeKey].Keys))
        else []
  }

  ghost function RecordsFor(visits: seq<(string, string)>, binName: string): seq<string> {
    if visits == [] then []
    else
      var last := visits[|visits| - 1];
      RecordsFor(visits[..|visits| - 1], binName) + if last.0 == binName then [last.1] else []
  }

  /** Every slot holds the winner of the records visited for it. */
  ghost predicate Decided(collate: Collation, bins: Bins, visits: seq<(string, string)>) {
    forall b :: (b in bins <==> RecordsFor(visits, b) != [])
      && (b in bins ==> RecordsFor(visits, b) != [] && bins[b] == Winner(collate, b, RecordsFor(visits, b)))
  }

  /** What one more record leaves in its slot, which may still be empty. */
  function Slot(collate: Collation, bins: Bins, binName: string, record: string): string {
    if binName in bins then Visit(collate, binName, bins[binName], record) else record
  }

  lemma DecideOneMore(collate: Collation, bins: Bins, visits: seq<(string, string)>, binName: string, record: string)
    requires Decided(collate, bins, visits)
    ensures Decided(collate, bins[binName := Slot(collate, bins, binName, record)], visits + [(binName, record)])
  {
    hide Visit;
    var more := visits + [(binName, record)];
    assert more[..|visits|] == visits;
    var after := bins[binName := Slot(collate, bins, binName, record)];
    forall b
      ensures (b in after <==> RecordsFor(more, b) != [])
        && (b in after ==> RecordsFor(more, b) != [] && after[b] == Winner(collate, b, RecordsFor(more, b)))
    {
      var records := RecordsFor(visits, b);
      if b == binName {
        assert RecordsFor(more, b) == records + [record];
        assert (records + [record])[..|records|] == records;
      } else {
        assert RecordsFor(more, b) == records + [] == records;
      }
    }
  }

  lemma OneMoreVisit(storeKey: string, bins: Bins, names: seq<string>, i: nat, visits: seq<(string, string)>)
    requires i < |names| && forall n | n in names :: n in bins
    ensures names[i] in bins && (forall n | n in names[..i + 1] :: n in bins)
    ensures (forall n | n in names[..i] :: n in bins)
    ensures visits + EntryVisits(storeKey, bins, names[..i + 1])
         == visits + EntryVisits(storeKey, bins, names[..i]) + [(names[i], Record(storeKey, bins[names[i]]))]
  {
    assert names[i] in names;
    assert forall n | n in names[..i + 1] :: n in names;
    assert forall n | n in names[..i] :: n in names;
    assert names[..i + 1][..i] == names[..i];
  }

  /** Visits one entry's executables. */
  method VisitEntry(collate: Collation, storeKey: string, entryBins: Bins, bins: Bins,
                    ghost visits: seq<(string, string)>)
    returns (r: Bins)
    requires Decided(collate, bins, visits)
    ensures Decided(collate, r, visits + EntryVisits(storeKey, entryBins, Listing(entryBins.Keys)))
  {
    hide Decided, Slot, Record;
    var names := SortedNames(entryBins.Keys);
    ListingIs(names, entryBins.Keys);
    r := bins;
    assert visits + [] == visits;
    for i := 0 to |names|
      invariant forall n | n in names :: n in entryBins
      invariant forall n | n in names[..i] :: n in entryBins
      invariant Decided(collate, r, visits + EntryVisits(storeKey, entryBins, names[..i]))
    {
      OneMoreVisit(storeKey, entryBins, names, i, visits);
      hide EntryVisits;
      var record := Record(storeKey, entryBins[names[i]]);
      DecideOneMore(collate, r, visits + EntryVisits(storeKey, entryBins, names[..i]), names[i], record);
      r := r[names[i] := Slot(collate, r, names[i], record)];
    }
    assert names[..|names|] == names;
  }

  /** The root bin directory of an importer with these direct edges. */
  method RootBins(collate: Collation, direct: EdgeSet, binsOf: map<string, Bins>) returns (bins: Bins)
    requires BinsKnown(direct, binsOf)
    ensures Decided(collate, bins, Visits(direct, binsOf, Listing(direct.Keys)))
  {
    hide Decided, Visits, EntryVisits;
    var names := SortedNames(direct.Keys);
    ListingIs(names, direct.Keys);
    bins := map[];
    NothingDecided(collate, direct, binsOf);
    for i := 0 to |names|
      invariant forall n | n in names :: n in direct
      invariant forall n | n in names[..i] :: n in direct
      invariant Decided(collate, bins, Visits(direct, binsOf, names[..i]))
    {
      TakeOneMore(names, i);
      VisitsOneMore(direct, binsOf, names, i);
      var edge := direct[names[i]];
      if edge.EntryEdge? {
        bins := VisitEntry(collate, edge.storeKey, binsOf[edge.storeKey], bins, Visits(direct, binsOf, names[..i]));
      }
    }
    assert names[..|names|] == names;
  }

  lemma NothingDecided(collate: Collation, direct: EdgeSet, binsOf: map<string, Bins>)
    requires BinsKnown(direct, binsOf)
    ensures Decided(collate, map[], Visits(direct, binsOf, []))
  {
  }

  lemma VisitsOneMore(direct: EdgeSet, binsOf: map<string, Bins>, names: seq<string>, i: nat)
    requires BinsKnown(direct, binsOf) && i < |names| && forall n | n in names :: n in direct
    ensures names[i] in direct && (forall n | n in names[..i] :: n in direct)
    ensures forall n | n in names[..i + 1] :: n in direct
    ensures var edge := direct[names[i]];
      Visits(direct, binsOf, names[..i + 1])
      == if edge.EntryEdge?
         then Visits(direct, binsOf, names[..i])
              + EntryVisits(edge.storeKey, binsOf[edge.storeKey], Listing(binsOf[edge.storeKey].Keys))
         else Visits(direct, binsOf, names[..i])
  {
    hide EntryVisits;
    assert names[i] in names;
    assert forall n | n in names[..i + 1] :: n in names;
    assert names[..i + 1][..i] == names[..i];
  }

  /** Every executable of every direct entry is a candidate for its slot, and nothing else is. */
  lemma {:induction false} VisitedIff(direct: EdgeSet, binsOf: map<string, Bins>, names: seq<string>, b: string,
                                      record: string)
    requires BinsKnown(direct, binsOf) && forall n | n in names :: n in direct
    ensures (b, record) in Visits(direct, binsOf, names) <==>
      exists n :: n in names && direct[n].EntryEdge? && b in binsOf[direct[n].storeKey]
        && record == Record(direct[n].storeKey, binsOf[direct[n].storeKey][b])
  {
    if names != [] {
      var front, n := names[..|names| - 1], names[|names| - 1];
      VisitedIff(direct, binsOf, front, b, record);
      assert names == front + [n];
      if direct[n].EntryEdge? {
        var bins := binsOf[direct[n].storeKey];
        EntryVisitedIff(direct[n].storeKey, bins, Listing(bins.Keys), b, record);
      }
    }
  }

  lemma {:induction false} EntryVisitedIff(storeKey: string, bins: Bins, names: seq<string>, b: string, record: string)
    requires forall n | n in names :: n in bins
    ensures (b, record) in EntryVisits(storeKey, bins, names) <==> b in names && record == Record(storeKey, bins[b])
  {
    if names != [] {
      var front, n := names[..|names| - 1], names[|names| - 1];
      EntryVisitedIff(storeKey, bins, front, b, record);
      assert names == front + [n];
    }
  }
}
