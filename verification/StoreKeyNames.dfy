/**
 * What a store key still tells about the package it was made from: making it rewrites
 * slashes and parentheses, and parsing it can only undo part of that.
 */
module StoreKeyNames {
  import opened Metadata
  import opened StoreEdges
  import opened SnapshotKeys

  lemma {:induction false} ReplaceConcat(a: string, b: string, c: char, r: string)
    ensures ReplaceAll(a + b, c, r) == ReplaceAll(a, c, r) + ReplaceAll(b, c, r)
  {
    if a == "" {
      assert a + b == b;
    } else {
      assert (a + b)[1..] == a[1..] + b;
      ReplaceConcat(a[1..], b, c, r);
    }
  }

  lemma ExpandedConcat(a: string, b: string)
    ensures Expanded(a + b) == Expanded(a) + Expanded(b)
  {
    ReplaceConcat(a, b, '/', "+");
    ReplaceConcat(ReplaceAll(a, '/', "+"), ReplaceAll(b, '/', "+"), '(', "_");
    ReplaceConcat(ReplaceAll(ReplaceAll(a, '/', "+"), '(', "_"),
                  ReplaceAll(ReplaceAll(b, '/', "+"), '(', "_"), ')', "");
  }

  lemma {:induction false} ReplaceKeeps(s: string, c: char, r: string, d: char)
    requires d != c && d !in r
    ensures d in ReplaceAll(s, c, r) <==> d in s
    ensures c !in r ==> c !in ReplaceAll(s, c, r)
  {
    if s != "" {
      assert s == [s[0]] + s[1..];
      ReplaceKeeps(s[1..], c, r, d);
    }
  }

  lemma ExpandedChars(s: string)
    ensures '@' in Expanded(s) <==> '@' in s
    ensures '(' !in Expanded(s)
  {
    var a := ReplaceAll(s, '/', "+");
    var b := ReplaceAll(a, '(', "_");
    ReplaceKeeps(s, '/', "+", '@');
    ReplaceKeeps(a, '(', "_", '@');
    ReplaceKeeps(b, ')', "", '@');
    ReplaceKeeps(b, ')', "", '(');
  }

  lemma {:induction false} ReplacedBack(s: string)
    requires '+' !in s
    ensures ReplaceAll(ReplaceAll(s, '/', "+"), '+', "/") == s
  {
    if s != "" {
      assert s == [s[0]] + s[1..];
      ReplacedBack(s[1..]);
      ReplaceConcat(if s[0] == '/' then "+" else [s[0]], ReplaceAll(s[1..], '/', "+"), '+', "/");
      OneReplaced(s[0]);
    }
  }

  lemma OneReplaced(c: char)
    requires c != '+'
    ensures ReplaceAll(if c == '/' then "+" else [c], '+', "/") == [c]
  {
    assert "+"[1..] == "" && [c][1..] == "";
  }

  lemma {:induction false} ReplacedLength(s: string, c: char, r: string)
    requires |r| == 1
    ensures |ReplaceAll(s, c, r)| == |s|
  {
    if s != "" { ReplacedLength(s[1..], c, r); }
  }

  lemma LastAfter(a: string, c: char, b: string)
    ensures LastIndexOf(a + [c] + b, c) >= |a|
    ensures LastIndexOf(a + [c] + b, c) == |a| <==> c !in b
  {
    var s := a + [c] + b;
    var i := LastIndexOf(s, c);
    assert s[|a|] == c && s[|a| + 1..] == b;
    LaterIsLast(s, c, |a|);
    if i > |a| { assert s[i] == b[i - |a| - 1]; }
  }

  lemma LaterIsLast(s: string, c: char, n: nat)
    requires n < |s| && s[n] == c
    ensures LastIndexOf(s, c) >= n
  {
    var i := LastIndexOf(s, c);
    assert c in s;
    assert forall j | i < j < |s| :: s[i + 1..][j - i - 1] == s[j];
  }

  // ----- Names and the bytes of a store key -----

  lemma {:induction false} ReplacedBytes(s: string)
    ensures Utf8Length(ReplaceAll(s, '/', "+")) == Utf8Length(s)
  {
    if s != "" {
      ReplacedBytes(s[1..]);
      assert s == [s[0]] + s[1..];
      BytesConcat([s[0]], s[1..]);
      BytesConcat(if s[0] == '/' then "+" else [s[0]], ReplaceAll(s[1..], '/', "+"));
      OneCharBytes(s[0]);
      OneCharBytes('+');
    }
  }

  lemma OneCharBytes(c: char)
    ensures Utf8Length([c]) == CharLength(c)
  {
    assert [c][..0] == "";
  }

  /** A digest as hexadecimal digits, so without at signs, slashes, pluses or parentheses. */
  ghost predicate HexDigest(digest: string -> string) {
    && ShortDigest(digest)
    && forall s, c | c in digest(s) :: '0' <= c <= '9' || 'a' <= c <= 'f'
  }

  /** The name and its at sign fit what is kept of a key that is cut. */
  predicate NameFits(name: string) {
    Utf8Length(name + "@") <= STORE_NAME_LIMIT - 17
  }

  function From(s: string, n: nat): string {
    if n <= |s| then s[n..] else ""
  }

  /**
   * When a package's store key still gives its name back; tail is all that follows the name and its at sign, and kept
   * the
   * part of the expanded key that is kept when the key is cut. A name that is itself cut can only come back if what it
   * loses is exactly an underscore and the digest of its own key.
   */
  ghost predicate NameSurvives(digest: string -> string, name: string, tail: string, kept: string) {
    var expanded := Expanded(name + "@" + tail);
    && '+' !in name
    && if Utf8Length(expanded) <= STORE_NAME_LIMIT then '@' !in tail
       else if NameFits(name) then '@' !in From(kept, |name| + 1)
       else |kept| <= |name| && name[|kept|..] == "_" + digest(expanded) && '@' !in From(name[..|kept|], 1)
  }

  /** The expanded key is the expanded name, an at sign and the expanded rest. */
  lemma ExpandedKey(name: string, tail: string)
    requires '(' !in name && ')' !in name
    ensures Expanded(name + "@" + tail) == ReplaceAll(name, '/', "+") + ['@'] + Expanded(tail)
    ensures |ReplaceAll(name, '/', "+")| == |name| && '(' !in Expanded(name + "@" + tail)
    ensures '@' in Expanded(tail) <==> '@' in tail
  {
    hide Expanded, ReplaceAll;
    ExpandedConcat(name + "@", tail);
    ExpandedConcat(name, "@");
    AtSignStays();
    ExpandedChars(name + "@" + tail);
    ExpandedChars(tail);
    NameExpanded(name);
    ReplacedLength(name, '/', "+");
  }

  lemma KeptIsPrefix(s: string, limit: nat, kept: string)
    requires LongestFitting(s, limit, kept)
    ensures kept <= s
  {
  }

  /** What is kept of a cut key holds the name and its at sign exactly when their bytes fit. */
  lemma KeepsName(short: string, rest: string, limit: nat, kept: string)
    requires LongestFitting(short + ['@'] + rest, limit, kept)
    ensures |kept| > |short| <==> Utf8Length(short + ['@']) <= limit
    ensures |kept| > |short| ==> kept == short + ['@'] + From(kept, |short| + 1)
  {
    KeepsFront(short + ['@'], rest, limit, kept);
  }

  lemma KeepsFront(front: string, rest: string, limit: nat, kept: string)
    requires LongestFitting(front + rest, limit, kept)
    ensures |kept| >= |front| <==> Utf8Length(front) <= limit
    ensures |kept| >= |front| ==> kept == front + kept[|front|..]
  {
    hide Utf8Length;
    var s := front + rest;
    assert s[..|front|] == front;
    if |kept| >= |front| {
      assert kept == s[..|kept|] && kept == front + kept[|front|..];
      BytesConcat(front, kept[|front|..]);
    }
  }

  /**
   * A store key gives back its package's name exactly when the name survives in it. A peer-qualified key, whose
   * parentheses were rewritten when it was made, gives back something longer unless the cut removes its peers.
   */
  lemma NameRecoveredIff(digest: string -> string, name: string, tail: string, kept: string, stored: string)
    requires name != "" && '(' !in name && ')' !in name && HexDigest(digest)
    requires IsStoreName(digest, name + "@" + tail, stored)
    requires LongestFitting(Expanded(name + "@" + tail), STORE_NAME_LIMIT - 17, kept)
    ensures ParseVirtualStoreKey(stored).name == name <==> NameSurvives(digest, name, tail, kept)
  {
    hide Expanded, ParseVirtualStoreKey, ReplaceAll, Utf8Length, LongestFitting, HexDigest;
    var expanded := Expanded(name + "@" + tail);
    var short := ReplaceAll(name, '/', "+");
    ExpandedKey(name, tail);
    if Utf8Length(expanded) <= STORE_NAME_LIMIT {
      RecoveredFrom(name, Expanded(tail));
    } else {
      var prefix :| LongestFitting(expanded, STORE_NAME_LIMIT - 17, prefix)
        && stored == prefix + "_" + digest(expanded);
      LongestFittingUnique(expanded, STORE_NAME_LIMIT - 17, prefix, kept);
      KeepsName(short, Expanded(tail), STORE_NAME_LIMIT - 17, kept);
      KeptIsPrefix(expanded, STORE_NAME_LIMIT - 17, kept);
      DigestChars(digest, expanded);
      SameBytes(name);
      if NameFits(name) {
        assert stored == kept + ("_" + digest(expanded));
        CutAfterName(name, From(kept, |name| + 1), "_" + digest(expanded));
      } else {
        CutName(digest, name, Expanded(tail), kept);
      }
    }
  }

  lemma SameBytes(name: string)
    ensures Utf8Length(ReplaceAll(name, '/', "+") + ['@']) == Utf8Length(name + "@")
  {
    ReplacedBytes(name);
    BytesConcat(ReplaceAll(name, '/', "+"), ['@']);
    BytesConcat(name, "@");
  }

  /** A name followed by an at sign comes back exactly when it has no plus and no later at sign follows. */
  lemma RecoveredFrom(name: string, rest: string)
    requires name != "" && '(' !in ReplaceAll(name, '/', "+") + ['@'] + rest
    ensures ParseVirtualStoreKey(ReplaceAll(name, '/', "+") + ['@'] + rest).name == name <==>
      '+' !in name && '@' !in rest
  {
    hide ParseVirtualStoreKey, ReplaceAll;
    var short := ReplaceAll(name, '/', "+");
    ReplacedLength(name, '/', "+");
    ParsedName(short, rest);
    PlusIsLost(short);
    if '+' !in name { ReplacedBack(name); }
  }

  /** Nothing that is parsed has a plus in its name. */
  lemma PlusIsLost(s: string)
    ensures '+' !in ReplaceAll(s, '+', "/")
  {
    ReplaceKeeps(s, '+', "/", 'a');
  }

  lemma DigestChars(digest: string -> string, s: string)
    requires HexDigest(digest)
    ensures |digest(s)| == 16 && '@' !in digest(s) && '(' !in digest(s) && '+' !in digest(s)
  {
  }

  lemma CutAfterName(name: string, rest: string, end: string)
    requires name != "" && '@' !in end && '(' !in ReplaceAll(name, '/', "+") + ['@'] + rest && '(' !in end
    ensures ParseVirtualStoreKey(ReplaceAll(name, '/', "+") + ['@'] + rest + end).name == name <==>
      '+' !in name && '@' !in rest
  {
    hide ParseVirtualStoreKey, ReplaceAll;
    var front := ReplaceAll(name, '/', "+") + ['@'];
    assert front + rest + end == front + (rest + end);
    RecoveredFrom(name, rest + end);
  }

  /** A name that is cut loses its end, or the digest happens to restore it. */
  lemma CutName(digest: string -> string, name: string, rest: string, kept: string)
    requires name != "" && HexDigest(digest) && |kept| <= |name| == |ReplaceAll(name, '/', "+")|
    requires var expanded := ReplaceAll(name, '/', "+") + ['@'] + rest; '(' !in expanded && kept <= expanded
    ensures var expanded := ReplaceAll(name, '/', "+") + ['@'] + rest;
      && (ParseVirtualStoreKey(kept + "_" + digest(expanded)).name == name
          <==> '+' !in name && name[|kept|..] == "_" + digest(expanded) && '@' !in From(name[..|kept|], 1))
  {
    hide ParseVirtualStoreKey, ReplaceAll, HexDigest;
    var short := ReplaceAll(name, '/', "+");
    var expanded := short + ['@'] + rest;
    DigestChars(digest, expanded);
    var k := |kept|;
    KeptOfName(name, k);
    assert kept == short[..k] == ReplaceAll(name[..k], '/', "+");
    var end := "_" + digest(expanded);
    assert kept + "_" + digest(expanded) == kept + end;
    ParsedCut(name, k, end);
  }

  lemma KeptOfName(name: string, k: nat)
    requires k <= |name|
    ensures |ReplaceAll(name, '/', "+")| == |name| && ReplaceAll(name, '/', "+")[..k] == ReplaceAll(name[..k], '/', "+")
  {
    ReplacedLength(name, '/', "+");
    ReplacedLength(name[..k], '/', "+");
    ReplaceConcat(name[..k], name[k..], '/', "+");
    assert name == name[..k] + name[k..];
  }

  lemma ParsedCut(name: string, k: nat, end: string)
    requires k <= |name| && |end| == 17 && '@' !in end && '(' !in end && '+' !in end
    requires '(' !in ReplaceAll(name[..k], '/', "+")
    ensures ParseVirtualStoreKey(ReplaceAll(name[..k], '/', "+") + end).name == name
        <==> '+' !in name && name[k..] == end && '@' !in From(name[..k], 1)
  {
    hide ReplaceAll, CutPeers, LastIndexOf;
    var kept := ReplaceAll(name[..k], '/', "+");
    CutsNothing(kept + end);
    ReplacedLength(name[..k], '/', "+");
    AtSignsKept(name[..k]);
    LastInFront(kept, end);
    var at := LastIndexOf(kept + end, '@');
    if at > 0 {
      ReplacedLength((kept + end)[..at], '+', "/");
    } else {
      PlusIsLost(kept + end);
      if '+' !in name {
        WholeRestored(name, k, end);
        SameEnd(name, k, end);
      }
    }
  }

  lemma SameEnd(s: string, k: nat, end: string)
    requires k <= |s|
    ensures s == s[..k] + end <==> s[k..] == end
  {
    assert s == s[..k] + s[k..];
    assert (s[..k] + end)[k..] == end;
  }

  lemma AtSignsKept(s: string)
    ensures '@' in From(ReplaceAll(s, '/', "+"), 1) <==> '@' in From(s, 1)
  {
    if s != "" {
      assert s == [s[0]] + s[1..];
      ReplaceConcat([s[0]], s[1..], '/', "+");
      ReplacedLength([s[0]], '/', "+");
      ReplaceKeeps(s[1..], '/', "+", '@');
    }
  }

  lemma EndChars(front: string, end: string)
    ensures forall i | |front| <= i < |front + end| :: (front + end)[i] in end
  {
    forall i | |front| <= i < |front + end|
      ensures (front + end)[i] in end
    {
      assert (front + end)[i] == end[i - |front|];
    }
  }

  /** No at sign after the first character means none to split at. */
  lemma LastInFront(front: string, end: string)
    requires '@' !in end
    ensures LastIndexOf(front + end, '@') < |front|
    ensures LastIndexOf(front + end, '@') > 0 <==> '@' in From(front, 1)
  {
    hide LastIndexOf;
    var s := front + end;
    var at := LastIndexOf(s, '@');
    EndChars(front, end);
    if 0 < at < |front| { assert From(front, 1)[at - 1] == s[at]; }
    if '@' in From(front, 1) {
      var i :| 0 <= i < |From(front, 1)| && From(front, 1)[i] == '@';
      assert s[i + 1] == From(front, 1)[i];
      LaterIsLast(s, '@', i + 1);
    }
  }

  lemma WholeRestored(name: string, k: nat, end: string)
    requires k <= |name| && '+' !in name && '+' !in end
    ensures ReplaceAll(ReplaceAll(name[..k], '/', "+") + end, '+', "/") == name[..k] + end
  {
    ReplaceConcat(ReplaceAll(name[..k], '/', "+"), end, '+', "/");
    ReplacedBack(name[..k]);
    NothingReplaced(end, '+', "/");
  }

  /** A name too long for a store key is never given back. */
  lemma LongNameIsLost(digest: string -> string, name: string, tail: string, stored: string)
    requires name != "" && '(' !in name && ')' !in name && HexDigest(digest) && Utf8Length(name) > STORE_NAME_LIMIT
    requires IsStoreName(digest, name + "@" + tail, stored)
    ensures ParseVirtualStoreKey(stored).name != name
  {
    hide Expanded, ParseVirtualStoreKey, ReplaceAll, Utf8Length, HexDigest;
    var expanded, short := Expanded(name + "@" + tail), ReplaceAll(name, '/', "+");
    ExpandedKey(name, tail);
    ReplacedBytes(name);
    BytesConcat(short + ['@'], Expanded(tail));
    BytesConcat(short, ['@']);
    BytesConcat(name, "@");
    var kept :| LongestFitting(expanded, STORE_NAME_LIMIT - 17, kept) && stored == kept + "_" + digest(expanded);
    NoBytes();
    NameRecoveredIff(digest, name, tail, kept, stored);
    if NameSurvives(digest, name, tail, kept) {
      KeptOfName(name, |kept|);
      assert kept == short[..|kept|];
      ReplacedBytes(name[..|kept|]);
      EndBytes(digest, name, expanded, |kept|);
    }
  }

  /** A key that is not cut and has a peer, so an at sign after the name's own: the name is not given back. */
  lemma PeersHideTheName(digest: string -> string, name: string, tail: string, stored: string)
    requires name != "" && '(' !in name && ')' !in name && '@' in tail
    requires IsStoreName(digest, name + "@" + tail, stored)
    requires Utf8Length(Expanded(name + "@" + tail)) <= STORE_NAME_LIMIT
    ensures ParseVirtualStoreKey(stored).name != name
  {
    hide ParseVirtualStoreKey, ReplaceAll, Utf8Length, Expanded;
    ExpandedKey(name, tail);
    RecoveredFrom(name, Expanded(tail));
  }

  lemma NoBytes()
    ensures Utf8Length("") == 0
  {
  }

  lemma EndBytes(digest: string -> string, name: string, expanded: string, k: nat)
    requires HexDigest(digest) && k <= |name| && name[k..] == "_" + digest(expanded)
    ensures Utf8Length(name) == Utf8Length(name[..k]) + 17
  {
    assert name == name[..k] + name[k..];
    BytesConcat(name[..k], name[k..]);
    BytesConcat("_", digest(expanded));
    OneCharBytes('_');
  }

  lemma AtSignStays()
    ensures Expanded("@") == "@"
  {
    NothingReplaced("@", '/', "+");
    NothingReplaced("@", '(', "_");
    NothingReplaced("@", ')', "");
  }

  lemma NameExpanded(name: string)
    requires '(' !in name && ')' !in name
    ensures Expanded(name) == ReplaceAll(name, '/', "+")
  {
    ReplaceKeeps(name, '/', "+", '(');
    ReplaceKeeps(name, '/', "+", ')');
    NothingReplaced(ReplaceAll(name, '/', "+"), '(', "_");
    NothingReplaced(ReplaceAll(name, '/', "+"), ')', "");
  }

  lemma ParsedName(short: string, rest: string)
    requires short != "" && '(' !in short + ['@'] + rest
    ensures var parsed := ParseVirtualStoreKey(short + ['@'] + rest).name;
      if '@' in rest then |parsed| > |short| else parsed == ReplaceAll(short, '+', "/")
  {
    var s := short + ['@'] + rest;
    CutsNothing(s);
    LastAfter(short, '@', rest);
    var at := LastIndexOf(s, '@');
    ReplacedLength(s[..at], '+', "/");
    if '@' !in rest { assert s[..at] == short; }
  }

  // ----- Peers and their type companions -----

  /** Nothing, or the parenthesised peers of a peer, on one line. */
  predicate OwnPeers(rest: string) {
    rest == "" || (rest[0] == '(' && forall c | c in rest :: !LineBreak(c))
  }

  /** What is cut off is all from the first parenthesis that no line break follows. */
  lemma {:induction false} CutPeersIs(key: string)
    ensures CutPeers(key) <= key
    ensures var rest := key[|CutPeers(key)|..];
      rest == "" || (rest[0] == '(' && forall c | c in rest :: c !in {'\n', '\r', '\U{2028}', '\U{2029}'})
    ensures forall i | 0 <= i < |CutPeers(key)| && key[i] == '(' ::
      exists c :: c in key[i..] && c in {'\n', '\r', '\U{2028}', '\U{2029}'}
  {
    var kept := CutPeers(key);
    if kept != "" {
      CutPeersIs(key[1..]);
      assert key == [key[0]] + key[1..] && key[|kept|..] == key[1..][|kept| - 1..];
      forall i | 0 <= i < |kept| && key[i] == '('
        ensures exists c :: c in key[i..] && c in {'\n', '\r', '\U{2028}', '\U{2029}'}
      {
        if i > 0 { assert key[i..] == key[1..][i - 1..] && key[i] == key[1..][i - 1]; }
        if i == 0 { assert key[0..] == key; }
      }
    }
  }

  lemma {:induction false} CutsAt(front: string, rest: string)
    requires '(' !in front && OwnPeers(rest)
    ensures CutPeers(front + rest) == front
  {
    if front == "" {
      assert front + rest == rest;
    } else {
      assert (front + rest)[1..] == front[1..] + rest;
      CutsAt(front[1..], rest);
    }
  }

  /** A peer's identity reads as its name and version, whatever peers of its own it carries. */
  lemma PeerIdentityReads(name: string, version: string, rest: string)
    requires name != "" && '+' !in name && '(' !in name && '@' !in version && '(' !in version && OwnPeers(rest)
    ensures ParseVirtualStoreKey(name + "@" + version + rest) == NameVersion(name, version)
  {
    hide ReplaceAll, OwnPeers, CutPeers;
    var front := name + ['@'] + version;
    CutsAt(front, rest);
    assert name + "@" + version + rest == front + rest;
    LastAfter(name, '@', version);
    NothingReplaced(name, '+', "/");
    assert front[..|name|] == name && front[|name| + 1..] == version;
  }

  /** The companion of an unscoped package carries its name, that of a scoped one scope and name joined. */
  lemma CompanionNames(scope: string, base: string)
    requires '/' !in scope && '/' !in base
    ensures !("@" <= base) ==> TypesCompanionName(base) == "@types/" + base
    ensures TypesCompanionName("@" + scope + "/" + base) == "@types/" + scope + "__" + base
  {
    hide ReplaceAll;
    var name := "@" + scope + "/" + base;
    assert name[1..] == scope + ("/" + base);
    ReplaceConcat(scope, "/" + base, '/', "__");
    ReplaceConcat("/", base, '/', "__");
    NothingReplaced(scope, '/', "__");
    NothingReplaced(base, '/', "__");
    SlashReplaced();
  }

  lemma SlashReplaced()
    ensures ReplaceAll("/", '/', "__") == "__"
  {
    assert "/"[1..] == "";
  }

  /**
   * A snapshot with a scoped or unscoped peer gets the peer's type companion as an edge of its own, to the snapshot the
   * repository chose, unless it declares the companion itself or the lockfile has none.
   */
  lemma PeerBringsCompanion(companions: map<string, string>, s: Snapshot, scope: string, base: string, version: string,
                            rest: string, scoped: bool)
    requires '/' !in scope && '+' !in scope && '(' !in scope && scope != "types"
    requires base != "" && !("@" <= base) && '/' !in base && '+' !in base && '(' !in base
    requires '@' !in version && '(' !in version && OwnPeers(rest)
    requires (if scoped then "@" + scope + "/" + base else base) + "@" + version + rest in s.peerIdentities
    ensures var n := "@types/" + (if scoped then scope + "__" + base else base);
      n in companions && n !in s.dependencies && n !in s.optionalDependencies ==>
        n in PeerTypeCompanionsOf(companions, s)
        && PeerTypeCompanionsOf(companions, s)[n] == PackageRef(companions[n])
  {
    hide ParseVirtualStoreKey, TypesCompanionName;
    var name := if scoped then "@" + scope + "/" + base else base;
    PeerIdentityReads(name, version, rest);
    CompanionNames(scope, base);
    if scoped { OtherScope(scope, base); }
    assert "@types/" + (scope + "__" + base) == "@types/" + scope + "__" + base;
    assert name + "@" + version + rest in s.peerIdentities && !("@types/" <= name);
    assert TypesCompanionName(name) in PeerCompanionNames(s.peerIdentities);
  }

  lemma OtherScope(scope: string, base: string)
    requires '/' !in scope
    ensures "@types/" <= "@" + scope + "/" + base <==> scope == "types"
  {
    var name := "@" + scope + "/" + base;
    assert name[1 + |scope|] == '/';
    if "@types/" <= name {
      assert forall i | 0 <= i < 7 :: name[i] == "@types/"[i];
      assert forall i | 0 <= i < |scope| :: name[1 + i] == scope[i];
      var sixth := name[6];
      assert sixth == "@types/"[6];
      assert |scope| > 5 ==> sixth in scope;
      assert |scope| == 5;
      assert scope == name[1..6] == "types";
    }
  }
}
