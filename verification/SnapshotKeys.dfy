/** The keys of a lockfile: package keys, peer-qualified snapshot keys and store names. */
module SnapshotKeys {
  import opened Common
  import opened Metadata

  // ----- Package keys -----

  /** The first position of c from position start on, or -1. */
  function IndexFrom(s: string, c: char, start: nat): (i: int)
    requires start <= |s|
  {
    var i := IndexOf(s[start..], c);
    if i == -1 then -1 else start + i
  }

  datatype KeyParts = KeyParts(name: string, version: string)

  function PackageKeyParts(key: string): Option<KeyParts> {
    var delimiter := if "@" <= key then IndexFrom(key, '@', IndexOf(key, '/') + 1) else IndexOf(key, '@');
    if delimiter <= 0 || delimiter == |key| - 1 then None
    else Some(KeyParts(key[..delimiter], key[delimiter + 1..]))
  }

  /** Package names as registries allow them; a scope may itself contain the delimiter. */
  ghost predicate PackageName(name: string) {
    || (name != "" && '@' !in name)
    || (exists scope, base :: '/' !in scope && '@' !in base && name == "@" + scope + "/" + base)
  }

  lemma {:induction false} FirstIndex(a: string, c: char, b: string)
    requires c !in a
    ensures IndexOf(a + [c] + b, c) == |a|
  {
    if a != [] {
      assert (a + [c] + b)[1..] == a[1..] + [c] + b;
      FirstIndex(a[1..], c, b);
    }
  }

  lemma Cut(a: string, c: char, b: string)
    ensures (a + [c] + b)[..|a|] == a && (a + [c] + b)[|a| + 1..] == b
  {
  }

  /** A package key takes apart into exactly the name and version it was put together from. */
  lemma PackageKeyRoundTrip(name: string, version: string)
    requires PackageName(name) && version != ""
    ensures PackageKeyParts(name + "@" + version) == Some(KeyParts(name, version))
  {
    if name != "" && '@' !in name {
      PlainKeyRoundTrip(name, version);
    } else {
      var scope, base :| '/' !in scope && '@' !in base && name == "@" + scope + "/" + base;
      ScopedKeyRoundTrip(scope, base, version);
    }
  }

  lemma PlainKeyRoundTrip(name: string, version: string)
    requires name != "" && '@' !in name && version != ""
    ensures PackageKeyParts(name + "@" + version) == Some(KeyParts(name, version))
  {
    FirstIndex(name, '@', version);
    Cut(name, '@', version);
    assert (name + "@" + version)[0] == name[0];
  }

  lemma ScopedKeyRoundTrip(scope: string, base: string, version: string)
    requires '/' !in scope && '@' !in base && version != ""
    ensures var name := "@" + scope + "/" + base;
      PackageKeyParts(name + "@" + version) == Some(KeyParts(name, version))
  {
    hide IndexOf, IndexFrom;
    var front := "@" + scope;
    var name := front + "/" + base;
    var key := name + "@" + version;
    assert key == front + "/" + (base + "@" + version) by { Regroup(front, "/", base, "@" + version); }
    ScopedDelimiter(front, base, version);
    assert key[0] == front[0] == '@';
    PartsAt(key, name, version);
  }

  lemma PartsAt(key: string, name: string, version: string)
    requires key == name + "@" + version && name != "" && version != "" && key[0] == '@'
    requires IndexFrom(key, '@', IndexOf(key, '/') + 1) == |name|
    ensures PackageKeyParts(key) == Some(KeyParts(name, version))
  {
    hide IndexOf, IndexFrom;
    Cut(name, '@', version);
  }

  lemma ScopedDelimiter(front: string, base: string, version: string)
    requires '/' !in front && '@' !in base
    ensures var key := front + "/" + (base + "@" + version);
      IndexOf(key, '/') == |front| && IndexFrom(key, '@', |front| + 1) == |front| + 1 + |base|
  {
    hide IndexOf;
    var back := base + "@" + version;
    FirstIndex(front, '/', back);
    Cut(front, '/', back);
    FirstIndex(base, '@', version);
  }

  lemma Regroup(a: string, b: string, c: string, d: string)
    ensures (a + b + c) + d == a + b + (c + d) == a + (b + (c + d))
  {
  }

  lemma PackageKeyRebuilds(key: string)
    ensures PackageKeyParts(key).Some? ==>
      var parts := PackageKeyParts(key).value;
      parts.name + "@" + parts.version == key && parts.name != "" && parts.version != ""
  {
    hide IndexOf;
    var delimiter := if "@" <= key then IndexFrom(key, '@', IndexOf(key, '/') + 1) else IndexOf(key, '@');
    if PackageKeyParts(key).Some? {
      assert key == key[..delimiter] + [key[delimiter]] + key[delimiter + 1..];
      assert key[delimiter] == '@';
    }
  }

  // ----- Snapshot keys -----

  function BaseSnapshotKey(key: string): string {
    var start := IndexOf(key, '(');
    if start == -1 then key else key[..start]
  }

  /** Opening minus closing parentheses. */
  function Depth(s: string): int {
    if s == [] then 0
    else Depth(s[..|s| - 1]) + (if s[|s| - 1] == '(' then 1 else if s[|s| - 1] == ')' then -1 else 0)
  }

  ghost predicate NeverNegative(s: string) {
    forall k | 0 <= k <= |s| :: Depth(s[..k]) >= 0
  }

  ghost predicate Balanced(s: string) {
    NeverNegative(s) && Depth(s) == 0
  }

  ghost predicate Suffixes(suffixes: seq<string>) {
    forall i | 0 <= i < |suffixes| :: suffixes[i] != "" && Balanced(suffixes[i])
  }

  /** Each suffix in parentheses of its own. */
  function Wrap(suffixes: seq<string>): string {
    if suffixes == [] then "" else Wrap(suffixes[..|suffixes| - 1]) + "(" + suffixes[|suffixes| - 1] + ")"
  }

  ghost predicate WellFormed(key: string) {
    exists suffixes :: Suffixes(suffixes) && key == BaseSnapshotKey(key) + Wrap(suffixes)
  }

  datatype KeyError = UnmatchedClosing | EmptySuffix | TrailingData | UnmatchedOpening

  lemma {:induction false} WrapConcat(a: seq<string>, b: seq<string>)
    ensures Wrap(a + b) == Wrap(a) + Wrap(b)
  {
    if b == [] {
      assert a + b == a;
    } else {
      var n := |b| - 1;
      assert (a + b)[..|a + b| - 1] == a + b[..n];
      WrapConcat(a, b[..n]);
    }
  }

  lemma WrapHead(b: seq<string>)
    requires b != []
    ensures Wrap(b) == "(" + b[0] + ")" + Wrap(b[1..])
  {
    WrapConcat([b[0]], b[1..]);
    assert b == [b[0]] + b[1..];
    assert Wrap([b[0]]) == "(" + b[0] + ")";
  }

  lemma ClosedIsNegative(b: string, x: string, inner: string, k: nat)
    requires Balanced(b) && inner == b + ")" + x && k > |b| && k <= |inner|
    ensures !NeverNegative(inner[..k])
  {
    var p := inner[..k];
    assert p[..|b| + 1] == b + ")";
    assert (b + ")")[..|b|] == b;
    assert Depth(b + ")") == -1;
  }

  /** A balanced suffix ends where it ends: nothing longer or shorter in its place is balanced. */
  lemma SuffixEnds(a: string, x: string, b: string, y: string)
    requires Balanced(a) && Balanced(b) && a + ")" + x == b + ")" + y
    ensures a == b && x == y
  {
    var inner := a + ")" + x;
    if |a| < |b| {
      assert inner[..|b|] == b;
      ClosedIsNegative(a, x, inner, |b|);
    } else if |b| < |a| {
      assert inner[..|a|] == a;
      ClosedIsNegative(b, y, inner, |a|);
    } else {
      assert inner[..|a|] == a && inner[..|b|] == b;
      assert inner[|a| + 1..] == x && inner[|b| + 1..] == y;
    }
  }

  /** A text has at most one reading as wrapped suffixes; read as far as a, the rest is the rest. */
  lemma {:induction false} ReadingIsUnique(a: seq<string>, x: string, b: seq<string>)
    requires Suffixes(a) && Suffixes(b) && Wrap(a) + x == Wrap(b)
    ensures a <= b && x == Wrap(b[|a|..])
  {
    if a != [] {
      FirstAgree(a, x, b);
      SuffixesTail(a);
      SuffixesTail(b);
      ReadingIsUnique(a[1..], x, b[1..]);
      assert b[1..][|a| - 1..] == b[|a|..];
      assert a == [a[0]] + a[1..] && b == [b[0]] + b[1..];
    }
  }

  lemma SuffixesTail(a: seq<string>)
    requires Suffixes(a) && a != []
    ensures Suffixes(a[1..])
  {
    hide Balanced;
  }

  lemma FirstAgree(a: seq<string>, x: string, b: seq<string>)
    requires Suffixes(a) && Suffixes(b) && a != [] && Wrap(a) + x == Wrap(b)
    ensures b != [] && a[0] == b[0] && Wrap(a[1..]) + x == Wrap(b[1..])
  {
    hide Suffixes, Balanced, Wrap;
    WrapHead(a);
    Regroup("(" + a[0], ")", Wrap(a[1..]), x);
    WrapsSomething(b, "(" + a[0] + ")" + (Wrap(a[1..]) + x));
    WrapHead(b);
    var y := Wrap(a[1..]) + x;
    Opened(a[0], y, b[0], Wrap(b[1..]));
    SuffixesHead(a);
    SuffixesHead(b);
    SuffixEnds(a[0], y, b[0], Wrap(b[1..]));
  }

  lemma Opened(a: string, x: string, b: string, y: string)
    requires "(" + a + ")" + x == "(" + b + ")" + y
    ensures a + ")" + x == b + ")" + y
  {
    assert "(" + a + ")" + x == "(" + (a + ")" + x) && "(" + b + ")" + y == "(" + (b + ")" + y);
    assert ("(" + (a + ")" + x))[1..] == a + ")" + x;
    assert ("(" + (b + ")" + y))[1..] == b + ")" + y;
  }

  lemma OpenedOnce(open: string, b: string, y: string)
    requires "(" + open == "(" + b + ")" + y
    ensures open == b + ")" + y
  {
    assert "(" + b + ")" + y == "(" + (b + ")" + y);
    assert ("(" + (b + ")" + y))[1..] == b + ")" + y && ("(" + open)[1..] == open;
  }

  lemma SuffixesRest(b: seq<string>, n: nat)
    requires Suffixes(b) && n <= |b|
    ensures Suffixes(b[n..])
  {
    hide Balanced;
  }

  lemma SuffixesHead(a: seq<string>)
    requires Suffixes(a) && a != []
    ensures Balanced(a[0]) && a[0] != ""
  {
  }

  lemma WrapsSomething(b: seq<string>, x: string)
    requires Wrap(b) == x && x != ""
    ensures b != []
  {
  }

  /** The suffixes of a well-formed key are determined by the key. */
  lemma SuffixesUnique(key: string, a: seq<string>, b: seq<string>)
    requires Suffixes(a) && Suffixes(b)
    requires key == BaseSnapshotKey(key) + Wrap(a) && key == BaseSnapshotKey(key) + Wrap(b)
    ensures a == b
  {
    assert Wrap(a) == key[|BaseSnapshotKey(key)|..] == Wrap(b);
    assert Wrap(a) + "" == Wrap(b);
    ReadingIsUnique(a, "", b);
    WrapsNothing(b[|a|..]);
  }

  lemma WrapsNothing(b: seq<string>)
    requires Wrap(b) == ""
    ensures b == []
  {
  }

  // ----- Parsing -----

  /** How far a key has been read: whole suffixes, then an unfinished one. */
  ghost predicate Reading(read: string, suffixes: seq<string>, depth: int, open: string) {
    && Suffixes(suffixes)
    && depth >= 0
    && (if depth == 0 then read == Wrap(suffixes)
        else read == Wrap(suffixes) + "(" + open && NeverNegative(open) && Depth(open) == depth - 1)
  }

  lemma ReadOn(read: string, suffixes: seq<string>, depth: int, open: string, c: char)
    requires Reading(read, suffixes, depth, open) && depth > 0 && (c == ')' ==> depth > 1)
    ensures Reading(read + [c], suffixes, depth + (if c == '(' then 1 else if c == ')' then -1 else 0), open + [c])
  {
    hide Balanced;
    var next := open + [c];
    assert next[..|open|] == open;
    forall k | 0 <= k <= |next|
      ensures Depth(next[..k]) >= 0
    {
      if k <= |open| { assert next[..k] == open[..k]; } else { assert next[..k] == next; }
    }
    assert read + [c] == Wrap(suffixes) + "(" + next;
  }

  lemma ReadOpening(read: string, suffixes: seq<string>)
    requires Reading(read, suffixes, 0, "")
    ensures Reading(read + "(", suffixes, 1, "")
  {
    hide Balanced;
    assert read + "(" == Wrap(suffixes) + "(" + "";
  }

  lemma ReadClosing(read: string, suffixes: seq<string>, open: string)
    requires Reading(read, suffixes, 1, open) && open != ""
    ensures Reading(read + ")", suffixes + [open], 0, "")
  {
    assert (suffixes + [open])[..|suffixes|] == suffixes;
    assert read + ")" == Wrap(suffixes + [open]);
  }

  /** No reading as suffixes continues with an empty one, with text outside parentheses, or stops inside one. */
  lemma NotEmptySuffix(read: string, suffixes: seq<string>, rest: string, b: seq<string>)
    requires Reading(read, suffixes, 1, "") && Suffixes(b)
    ensures read + ")" + rest != Wrap(b)
  {
    hide Wrap, Suffixes, Balanced, Depth, NeverNegative;
    if read + ")" + rest == Wrap(b) {
      var x := "(" + "" + ")" + rest;
      Regroup(Wrap(suffixes), "(", ")", rest);
      assert read + ")" + rest == Wrap(suffixes) + x;
      ReadingIsUnique(suffixes, x, b);
      var c := b[|suffixes|..];
      WrapsSomething(c, x);
      WrapHead(c);
      Opened("", rest, c[0], Wrap(c[1..]));
      SuffixesRest(b, |suffixes|);
      SuffixesHead(c);
      BalancedStart(c[0], Wrap(c[1..]), "" + ")" + rest);
    }
  }

  lemma BalancedStart(c: string, y: string, z: string)
    requires Balanced(c) && c != "" && c + ")" + y == z
    ensures z[0] != ')'
  {
    assert c[..1] == [c[0]] && [c[0]][..0] == "";
    assert Depth(c[..1]) >= 0;
  }

  lemma NotTrailing(read: string, suffixes: seq<string>, rest: string, b: seq<string>)
    requires Reading(read, suffixes, 0, "") && Suffixes(b) && rest != "" && rest[0] != '('
    ensures read + rest != Wrap(b)
  {
    hide Balanced;
    if read + rest == Wrap(b) {
      ReadingIsUnique(suffixes, rest, b);
      WrapHead(b[|suffixes|..]);
      assert false;
    }
  }

  lemma NotUnfinished(read: string, suffixes: seq<string>, depth: int, open: string, b: seq<string>)
    requires Reading(read, suffixes, depth, open) && depth > 0 && Suffixes(b)
    ensures read != Wrap(b)
  {
    hide Wrap, Suffixes, Balanced;
    if read == Wrap(b) {
      var x := "(" + open;
      assert read == Wrap(suffixes) + x;
      assert open[..|open|] == open;
      ReadingIsUnique(suffixes, x, b);
      var c := b[|suffixes|..];
      WrapsSomething(c, x);
      WrapHead(c);
      OpenedOnce(open, c[0], Wrap(c[1..]));
      SuffixesRest(b, |suffixes|);
      SuffixesHead(c);
      ClosedIsNegative(c[0], Wrap(c[1..]), open, |open|);
    }
  }

  lemma RestIsWrapped(key: string, start: int)
    requires start == IndexOf(key, '(') && start >= 0
    ensures WellFormed(key) <==> exists b :: Suffixes(b) && key[start..] == Wrap(b)
  {
    hide Suffixes;
    assert key == key[..start] + key[start..];
    if b :| Suffixes(b) && key[start..] == Wrap(b) {
      assert key == BaseSnapshotKey(key) + Wrap(b);
    }
    if b :| Suffixes(b) && key == BaseSnapshotKey(key) + Wrap(b) {
      assert key[start..] == Wrap(b);
    }
  }

  /** Reads the parenthesised suffixes of a snapshot key; the unmatched-closing branch is never taken. */
  method SnapshotSuffixes(key: string) returns (r: Result<seq<string>, KeyError>)
    ensures r.Success? <==> WellFormed(key)
    ensures r.Success? ==> Suffixes(r.value) && key == BaseSnapshotKey(key) + Wrap(r.value)
    ensures r.Failure? ==> r.error != UnmatchedClosing
  {
    hide Suffixes, Reading, WellFormed, Wrap;
    var start := IndexOf(key, '(');
    if start == -1 {
      NoSuffixes(key);
      return Success([]);
    }
    RestIsWrapped(key, start);
    var suffixes: seq<string> := [];
    var depth, groupStart, index := 0, -1, start;
    ReadNothing();
    assert key[start..start] == "";
    while index < |key|
      invariant start <= index <= |key| && depth >= 0
      invariant depth == 0 ==> index == |key| || key[index] == '('
      invariant depth > 0 ==> start < groupStart <= index
      invariant Reading(key[start..index], suffixes, depth, if depth > 0 then key[groupStart..index] else "")
    {
      var character := key[index];
      ghost var read, open := key[start..index], if depth > 0 then key[groupStart..index] else "";
      Slices(key, start, index);
      if depth > 0 { Slices(key, groupStart, index); }
      if character == '(' {
        if depth == 0 {
          groupStart := index + 1;
          ReadOpening(read, suffixes);
        } else {
          ReadOn(read, suffixes, depth, open, '(');
        }
        depth := depth + 1;
      } else if character == ')' {
        depth := depth - 1;
        if depth < 0 {
          return Result.Failure(UnmatchedClosing);
        }
        if depth == 0 {
          var suffix := key[groupStart..index];
          if |suffix| == 0 {
            forall b | Suffixes(b)
              ensures key[start..] != Wrap(b)
            {
              NotEmptySuffix(read, suffixes, key[index + 1..], b);
            }
            return Result.Failure(EmptySuffix);
          }
          ReadClosing(read, suffixes, suffix);
          suffixes := suffixes + [suffix];
          if index + 1 < |key| && key[index + 1] != '(' {
            forall b | Suffixes(b) ensures key[start..] != Wrap(b) {
              NotTrailing(key[start..index + 1], suffixes, key[index + 1..], b);
            }
            return Result.Failure(TrailingData);
          }
        } else {
          ReadOn(read, suffixes, depth + 1, open, ')');
        }
      } else {
        ReadOn(read, suffixes, depth, open, character);
      }
      index := index + 1;
    }
    assert key[start..index] == key[start..];
    if depth != 0 {
      forall b | Suffixes(b) ensures key[start..] != Wrap(b) {
        NotUnfinished(key[start..], suffixes, depth, key[groupStart..index], b);
      }
      return Result.Failure(UnmatchedOpening);
    }
    ReadAll(key, start, suffixes);
    return Success(suffixes);
  }

  lemma Slices(key: string, start: int, i: int)
    requires 0 <= start <= i < |key|
    ensures key[start..i + 1] == key[start..i] + [key[i]]
    ensures key[start..] == key[start..i + 1] + key[i + 1..]
    ensures key[i + 1..i + 1] == ""
  {
  }

  lemma NoSuffixes(key: string)
    requires '(' !in key
    ensures WellFormed(key) && Suffixes([]) && key == BaseSnapshotKey(key) + Wrap([])
  {
    assert Suffixes([]) && key == BaseSnapshotKey(key) + Wrap([]);
  }

  lemma ReadNothing()
    ensures Reading("", [], 0, "")
  {
  }

  lemma ReadAll(key: string, start: int, suffixes: seq<string>)
    requires start == IndexOf(key, '(') && start >= 0 && Reading(key[start..], suffixes, 0, "")
    ensures Suffixes(suffixes) && key == BaseSnapshotKey(key) + Wrap(suffixes)
    ensures WellFormed(key)
  {
    hide Suffixes, Wrap;
    assert key == key[..start] + key[start..];
    assert Suffixes(suffixes);
    assert key == BaseSnapshotKey(key) + Wrap(suffixes);
  }

  /** Any base without an opening parenthesis and any nonempty balanced suffixes make a key that reads back as both. */
  lemma SnapshotKeyRoundTrip(base: string, suffixes: seq<string>)
    requires '(' !in base && Suffixes(suffixes)
    ensures var key := base + Wrap(suffixes);
      BaseSnapshotKey(key) == base && WellFormed(key)
      && forall read | Suffixes(read) && key == BaseSnapshotKey(key) + Wrap(read) :: read == suffixes
  {
    hide Suffixes;
    var key := base + Wrap(suffixes);
    if suffixes == [] {
      assert Wrap(suffixes) == "";
      assert key == base;
    } else {
      WrapHead(suffixes);
      var rest := suffixes[0] + ")" + Wrap(suffixes[1..]);
      assert Wrap(suffixes) == ['('] + rest;
      assert key == base + ['('] + rest;
      FirstIndex(base, '(', rest);
      Cut(base, '(', rest);
    }
    assert key == BaseSnapshotKey(key) + Wrap(suffixes);
    forall read | Suffixes(read) && key == BaseSnapshotKey(key) + Wrap(read)
      ensures read == suffixes
    {
      SuffixesUnique(key, read, suffixes);
    }
  }

  // ----- Store names -----

  const STORE_NAME_LIMIT := 120

  /** Bytes of a character in UTF-8. */
  function CharLength(c: char): (n: nat)
    ensures 1 <= n <= 4
  {
    var code := c as int;
    if code < 0x80 then 1 else if code < 0x800 then 2 else if code < 0x1_0000 then 3 else 4
  }

  /** One byte up to seven bits of code point, two up to eleven, three up to sixteen, and else four. */
  lemma CharLengthIs(c: char)
    ensures CharLength(c) == 1 <==> c as int < 128
    ensures CharLength(c) <= 2 <==> c as int < 2048
    ensures CharLength(c) <= 3 <==> c as int < 65536
  {
  }

  function Utf8Length(s: string): nat {
    if s == [] then 0 else Utf8Length(s[..|s| - 1]) + CharLength(s[|s| - 1])
  }

  function Expanded(key: string): string {
    ReplaceAll(ReplaceAll(ReplaceAll(key, '/', "+"), '(', "_"), ')', "")
  }

  /** The longest prefix that fits the limit. */
  ghost predicate LongestFitting(s: string, limit: nat, prefix: string) {
    prefix <= s && Utf8Length(prefix) <= limit && forall k | |prefix| < k <= |s| :: Utf8Length(s[..k]) > limit
  }

  lemma {:induction false} LongerIsMore(s: string, i: nat, j: nat)
    requires i <= j <= |s|
    ensures Utf8Length(s[..i]) <= Utf8Length(s[..j]) && (i < j ==> Utf8Length(s[..i]) < Utf8Length(s[..j]))
  {
    if i < j {
      LongerIsMore(s, i, j - 1);
      assert s[..j][..j - 1] == s[..j - 1];
    }
  }

  lemma {:induction false} BytesConcat(a: string, b: string)
    ensures Utf8Length(a + b) == Utf8Length(a) + Utf8Length(b)
  {
    if b == [] {
      assert a + b == a;
    } else {
      assert (a + b)[..|a + b| - 1] == a + b[..|b| - 1];
      BytesConcat(a, b[..|b| - 1]);
    }
  }

  /** The loop stops at the first character that does not fit, which leaves the longest fitting prefix. */
  method FittingPrefix(s: string, limit: nat) returns (prefix: string)
    ensures LongestFitting(s, limit, prefix)
  {
    var prefixBytes, prefixEnd := 0, 0;
    while prefixEnd < |s|
      invariant prefixEnd <= |s| && prefixBytes == Utf8Length(s[..prefixEnd]) <= limit
    {
      var characterBytes := CharLength(s[prefixEnd]);
      assert s[..prefixEnd + 1][..prefixEnd] == s[..prefixEnd];
      if prefixBytes + characterBytes > limit {
        break;
      }
      prefixBytes, prefixEnd := prefixBytes + characterBytes, prefixEnd + 1;
    }
    forall k | prefixEnd < k <= |s|
      ensures Utf8Length(s[..k]) > limit
    {
      LongerIsMore(s, prefixEnd + 1, k);
      assert s[..prefixEnd + 1][..prefixEnd] == s[..prefixEnd];
    }
    prefix := s[..prefixEnd];
  }

  lemma LongestFittingUnique(s: string, limit: nat, a: string, b: string)
    requires LongestFitting(s, limit, a) && LongestFitting(s, limit, b)
    ensures a == b
  {
    assert s[..|a|] == a && s[..|b|] == b;
  }

  /** The names a key may be stored under: itself when short, else a fitting prefix with a digest. */
  ghost predicate IsStoreName(digest: string -> string, key: string, name: string) {
    if Utf8Length(Expanded(key)) <= STORE_NAME_LIMIT then name == Expanded(key)
    else
      var expanded := Expanded(key);
      exists p :: LongestFitting(expanded, STORE_NAME_LIMIT - 17, p) && name == p + "_" + digest(expanded)
  }

  /** A digest of sixteen single-byte characters. */
  ghost predicate ShortDigest(digest: string -> string) {
    forall s :: |digest(s)| == 16 && Utf8Length(digest(s)) == 16
  }

  method VirtualStoreName(digest: string -> string, key: string) returns (name: string)
    requires ShortDigest(digest)
    ensures IsStoreName(digest, key, name) && Utf8Length(name) <= 120
    ensures Utf8Length(Expanded(key)) <= 120 <==> name == Expanded(key)
    ensures forall other | IsStoreName(digest, key, other) :: other == name
  {
    var expanded := Expanded(key);
    var fits := Fits(expanded);
    if fits {
      return expanded;
    }
    var prefix := FittingPrefix(expanded, STORE_NAME_LIMIT - 17);
    name := prefix + "_" + digest(expanded);
    BytesConcat(prefix + "_", digest(expanded));
    BytesConcat(prefix, "_");
    assert Utf8Length("_") == 1 by { assert "_"[..0] == ""; }
    forall other | IsStoreName(digest, key, other)
      ensures other == name
    {
      var p :| LongestFitting(expanded, STORE_NAME_LIMIT - 17, p) && other == p + "_" + digest(expanded);
      LongestFittingUnique(expanded, STORE_NAME_LIMIT - 17, p, prefix);
    }
  }

  method Fits(s: string) returns (fits: bool)
    ensures fits <==> Utf8Length(s) <= STORE_NAME_LIMIT
  {
    var bytes := 0;
    for i := 0 to |s|
      invariant bytes == Utf8Length(s[..i])
    {
      assert s[..i + 1][..i] == s[..i];
      bytes := bytes + CharLength(s[i]);
    }
    assert s[..|s|] == s;
    fits := bytes <= STORE_NAME_LIMIT;
  }

  /** Different keys can have one store name; the projection rejects such lockfiles. */
  lemma StoreNamesCollide(digest: string -> string)
    ensures "a(b)" != "a_b" && IsStoreName(digest, "a(b)", "a_b") && IsStoreName(digest, "a_b", "a_b")
  {
    assert Expanded("a(b)") == "a_b" by { ExpandsAlike(); }
    assert Expanded("a_b") == "a_b" by { ExpandsAlike(); }
    assert "a_b"[..2] == "a_" && "a_"[..1] == "a" && "a"[..0] == "";
    assert Utf8Length("a") == 1 && Utf8Length("a_") == 2;
    assert Utf8Length("a_b") == 3;
  }

  lemma ExpandsAlike()
    ensures Expanded("a(b)") == "a_b" && Expanded("a_b") == "a_b"
  {
    hide ReplaceAll;
    NothingReplaced("a(b)", '/', "+");
    OpeningReplaced();
    ClosingRemoved();
    NothingReplaced("a_b", '/', "+");
    NothingReplaced("a_b", '(', "_");
    NothingReplaced("a_b", ')', "");
  }

  lemma OpeningReplaced()
    ensures ReplaceAll("a(b)", '(', "_") == "a_b)"
  {
    assert "a(b)"[1..] == "(b)" && "(b)"[1..] == "b)" && "b)"[1..] == ")" && ")"[1..] == "";
    assert ReplaceAll(")", '(', "_") == ")";
    assert ReplaceAll("b)", '(', "_") == "b)";
  }

  lemma ClosingRemoved()
    ensures ReplaceAll("a_b)", ')', "") == "a_b"
  {
    assert "a_b)"[1..] == "_b)" && "_b)"[1..] == "b)" && "b)"[1..] == ")" && ")"[1..] == "";
    assert ReplaceAll(")", ')', "") == "";
    assert ReplaceAll("b)", ')', "") == "b";
  }

  lemma {:induction false} NothingReplaced(s: string, c: char, r: string)
    requires c !in s
    ensures ReplaceAll(s, c, r) == s
  {
    if s != [] {
      NothingReplaced(s[1..], c, r);
    }
  }
}
