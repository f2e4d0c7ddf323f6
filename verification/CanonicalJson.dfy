/**
 * Normalizing JavaScript values before they are fingerprinted: object keys in
 * enumeration order, undefined properties dropped, at every depth.
 */
module CanonicalJson {
  import opened Common

  /** A JavaScript value; objects list their own properties in order. */
  datatype Value =
    | Null
    | Boolean(b: bool)
    | Number(n: real)
    | Text(s: string)
    | Array(items: seq<Value>)
    | Object(entries: seq<Entry>)
    | Undefined
    | NotFinite
    | NotJson

  datatype Entry = Entry(key: string, value: Value)

  // ----- The order of an object's own properties -----

  predicate Digits(k: string) {
    k != "" && forall i | 0 <= i < |k| :: '0' <= k[i] <= '9'
  }

  /** Keys JavaScript treats as array indices; longer digit strings are ordinary keys. */
  predicate IndexLike(k: string) {
    Digits(k) && (k[0] != '0' || k == "0") && (|k| < 10 || (|k| == 10 && Before(k, "4294967295")))
  }

  /** Index-like keys come first, by value; the others follow in string order. */
  predicate KeyBefore(a: string, b: string) {
    if IndexLike(a) && IndexLike(b) then |a| < |b| || (|a| == |b| && Before(a, b))
    else if IndexLike(a) || IndexLike(b) then IndexLike(a)
    else Before(a, b)
  }

  lemma KeysOrdered(a: string, b: string)
    ensures KeyBefore(a, b) || a == b || KeyBefore(b, a)
    ensures !KeyBefore(a, a)
  {
    hide IndexLike;
    BeforeTotal(a, b);
    BeforeIrreflexive(a);
  }

  lemma KeysTransitive(a: string, b: string, c: string)
    requires KeyBefore(a, b) && KeyBefore(b, c)
    ensures KeyBefore(a, c)
  {
    hide IndexLike, Before;
    if Before(a, b) && Before(b, c) { BeforeTransitive(a, b, c); }
  }

  lemma {:induction false} BeforeExtended(a: string, b: string, c: char, d: char)
    requires |a| == |b| && (Before(a, b) || (a == b && c < d))
    ensures Before(a + [c], b + [d])
  {
    if a != "" {
      assert (a + [c])[1..] == a[1..] + [c] && (b + [d])[1..] == b[1..] + [d];
      if a[0] == b[0] {
        if a == b { assert a[1..] == b[1..]; }
        BeforeExtended(a[1..], b[1..], c, d);
      }
    }
  }

  /** A smaller number is written shorter, or as long and earlier. */
  lemma {:induction false} DecimalOrder(m: nat, n: nat)
    requires m < n
    ensures |Decimal(m)| < |Decimal(n)| || (|Decimal(m)| == |Decimal(n)| && Before(Decimal(m), Decimal(n)))
  {
    hide Before;
    var c, d := (m % 10 + '0' as int) as char, (n % 10 + '0' as int) as char;
    if n < 10 {
      BeforeExtended("", "", c, d);
      assert "" + [c] == [c] && "" + [d] == [d];
    } else if m < 10 {
      DecimalDigits(n / 10);
    } else if m / 10 < n / 10 {
      DecimalOrder(m / 10, n / 10);
      if |Decimal(m / 10)| == |Decimal(n / 10)| { BeforeExtended(Decimal(m / 10), Decimal(n / 10), c, d); }
    } else {
      BeforeExtended(Decimal(m / 10), Decimal(n / 10), c, d);
    }
  }

  const INDEX_LIMIT := 4294967295

  lemma DecimalStep(m: nat, n: nat, d: nat)
    requires n > 0 && d < 10 && m == 10 * n + d
    ensures Decimal(m) == Decimal(n) + [(d + '0' as int) as char]
  {
    assert m / 10 == n && m % 10 == d;
  }

  lemma LimitText()
    ensures Decimal(INDEX_LIMIT) == "4294967295"
  {
    hide Decimal;
    FourText();
    DecimalStep(42, 4, 2);
    DecimalStep(429, 42, 9);
    DecimalStep(4294, 429, 4);
    DecimalStep(42949, 4294, 9);
    DecimalStep(429496, 42949, 6);
    DecimalStep(4294967, 429496, 7);
    DecimalStep(42949672, 4294967, 2);
    DecimalStep(429496729, 42949672, 9);
    DecimalStep(INDEX_LIMIT, 429496729, 5);
  }

  lemma FourText()
    ensures Decimal(4) == "4"
  {
  }

  function ValueOf(k: string): nat
    requires forall i | 0 <= i < |k| :: '0' <= k[i] <= '9'
  {
    if k == "" then 0 else ValueOf(k[..|k| - 1]) * 10 + (k[|k| - 1] as int - '0' as int)
  }

  lemma {:induction false} DecimalOfValue(k: string)
    requires Digits(k) && (k[0] != '0' || k == "0")
    ensures Decimal(ValueOf(k)) == k && (k != "0" ==> ValueOf(k) > 0)
  {
    var n := |k| - 1;
    assert k == k[..n] + [k[n]];
    if n == 0 {
      assert k[..0] == "";
    } else {
      DecimalOfValue(k[..n]);
    }
  }

  /** The keys taken for array indices are the decimal numbers below the limit. */
  lemma IndexLikeIff(k: string)
    ensures IndexLike(k) <==> exists n: nat :: n < 4294967295 && k == Decimal(n)
  {
    hide Before, Decimal;
    LimitText();
    if IndexLike(k) {
      DecimalOfValue(k);
      var n := ValueOf(k);
      if n >= INDEX_LIMIT {
        if n > INDEX_LIMIT { DecimalOrder(INDEX_LIMIT, n); }
        BeforeIrreflexive(k);
        if Before(k, "4294967295") && Before("4294967295", k) { BeforeTransitive(k, "4294967295", k); }
      }
      assert n < INDEX_LIMIT;
    }
    if n: nat :| n < 4294967295 && k == Decimal(n) {
      DecimalDigits(n);
      DecimalOrder(n, INDEX_LIMIT);
      ZeroText();
      assert forall i | 0 <= i < |k| :: k[i] in k;
    }
  }

  lemma ZeroText()
    ensures Decimal(0) == "0"
  {
  }

  /** Indices come in their own order and before all other keys. */
  lemma KeyOrderIs(m: nat, n: nat, k: string, l: string)
    requires m < n < 4294967295 && !IndexLike(k) && !IndexLike(l)
    ensures KeyBefore(Decimal(m), Decimal(n)) && KeyBefore(Decimal(m), k) && !KeyBefore(k, Decimal(m))
    ensures KeyBefore(k, l) <==> Before(k, l)
  {
    hide IndexLike, Before, Decimal;
    IndexLikeIff(Decimal(m));
    IndexLikeIff(Decimal(n));
    DecimalOrder(m, n);
  }

  ghost predicate InKeyOrder(entries: seq<Entry>) {
    forall i, j | 0 <= i < j < |entries| :: KeyBefore(entries[i].key, entries[j].key)
  }

  function InsertEntry(entries: seq<Entry>, e: Entry): seq<Entry> {
    if entries == [] then [e]
    else
      var n := |entries| - 1;
      if KeyBefore(entries[n].key, e.key) then entries + [e]
      else if entries[n].key == e.key then entries[..n] + [e]
      else InsertEntry(entries[..n], e) + [entries[n]]
  }

  // ----- Normalization -----

  function Rank(v: Value): nat {
    match v
    case Array(items) => |items| + 1
    case Object(entries) => |entries| + 1
    case _ => 0
  }

  /** Objects keep their defined properties in key order; a value JSON cannot express is an error. */
  function Canonical(v: Value): Option<Value>
    decreases v, Rank(v)
  {
    match v
    case Array(items) =>
      (match CanonicalItems(v, |items|)
       case None => None
       case Some(done) => Some(Array(done)))
    case Object(entries) =>
      (match CanonicalFields(v, |entries|)
       case None => None
       case Some(done) => Some(Object(done)))
    case Undefined => None
    case NotFinite => None
    case NotJson => None
    case _ => Some(v)
  }

  function CanonicalItems(v: Value, n: nat): Option<seq<Value>>
    requires v.Array? && n <= |v.items|
    decreases v, n
  {
    if n == 0 then Some([])
    else
      match CanonicalItems(v, n - 1)
      case None => None
      case Some(before) =>
        match Canonical(v.items[n - 1])
        case None => None
        case Some(item) => Some(before + [item])
  }

  function CanonicalFields(v: Value, n: nat): Option<seq<Entry>>
    requires v.Object? && n <= |v.entries|
    decreases v, n
  {
    if n == 0 then Some([])
    else
      match CanonicalFields(v, n - 1)
      case None => None
      case Some(before) =>
        var e := v.entries[n - 1];
        if e.value == Undefined then Some(before)
        else
          match Canonical(e.value)
          case None => None
          case Some(child) => Some(InsertEntry(before, Entry(e.key, child)))
  }

  /** What JSON can express, an undefined property aside. */
  ghost predicate IsJson(v: Value)
    decreases v
  {
    match v
    case Array(items) => forall i | 0 <= i < |items| :: IsJson(items[i])
    case Object(entries) => forall i | 0 <= i < |entries| && entries[i].value != Undefined :: IsJson(entries[i].value)
    case _ => v.Null? || v.Boolean? || v.Number? || v.Text?
  }

  /** Normalizing fails exactly on values JSON cannot express, at any depth. */
  lemma {:induction false} CanonicalExistsIff(v: Value)
    ensures Canonical(v).Some? <==> IsJson(v)
    decreases v, Rank(v), 1
  {
    if v.Array? { ItemsExistIff(v, |v.items|); }
    if v.Object? { FieldsExistIff(v, |v.entries|); }
  }

  lemma {:induction false} ItemsExistIff(v: Value, n: nat)
    requires v.Array? && n <= |v.items|
    ensures CanonicalItems(v, n).Some? <==> forall i | 0 <= i < n :: IsJson(v.items[i])
    decreases v, n, 0
  {
    if n > 0 {
      ItemsExistIff(v, n - 1);
      CanonicalExistsIff(v.items[n - 1]);
    }
  }

  lemma {:induction false} FieldsExistIff(v: Value, n: nat)
    requires v.Object? && n <= |v.entries|
    ensures CanonicalFields(v, n).Some? <==>
      forall i | 0 <= i < n && v.entries[i].value != Undefined :: IsJson(v.entries[i].value)
    decreases v, n, 0
  {
    hide InsertEntry;
    if n > 0 {
      FieldsExistIff(v, n - 1);
      if v.entries[n - 1].value != Undefined { CanonicalExistsIff(v.entries[n - 1].value); }
    }
  }

  // ----- Values with the same meaning -----

  /** No object has a key twice. */
  ghost predicate KeysOnce(v: Value)
    decreases v
  {
    match v
    case Array(items) => forall i | 0 <= i < |items| :: KeysOnce(items[i])
    case Object(entries) =>
      && (forall i, j | 0 <= i < j < |entries| :: entries[i].key != entries[j].key)
      && forall i | 0 <= i < |entries| :: KeysOnce(entries[i].value)
    case _ => true
  }

  ghost predicate HasKey(entries: seq<Entry>, k: string) {
    exists i :: 0 <= i < |entries| && entries[i].key == k && entries[i].value != Undefined
  }

  /** Equal up to the order of keys and to keys whose value is undefined, at every depth. */
  ghost predicate SameJson(v: Value, w: Value)
    decreases v
  {
    match v
    case Array(items) =>
      && w.Array? && |w.items| == |items|
      && forall i | 0 <= i < |items| :: SameJson(items[i], w.items[i])
    case Object(entries) =>
      && w.Object?
      && (forall i | 0 <= i < |entries| && entries[i].value != Undefined :: HasKey(w.entries, entries[i].key))
      && (forall j | 0 <= j < |w.entries| && w.entries[j].value != Undefined :: HasKey(entries, w.entries[j].key))
      && (forall i, j | 0 <= i < |entries| && 0 <= j < |w.entries| && entries[i].key == w.entries[j].key
            && entries[i].value != Undefined && w.entries[j].value != Undefined
            :: SameJson(entries[i].value, w.entries[j].value))
    case _ => v == w
  }

  // ----- What normalized objects hold -----

  ghost predicate Lists(entries: seq<Entry>, k: string, child: Value) {
    exists i :: 0 <= i < |entries| && entries[i] == Entry(k, child)
  }

  lemma {:induction false} InsertIs(entries: seq<Entry>, e: Entry)
    requires InKeyOrder(entries) && forall i | 0 <= i < |entries| :: entries[i].key != e.key
    ensures forall k, child ::
      Lists(InsertEntry(entries, e), k, child) <==> Lists(entries, k, child) || (k == e.key && child == e.value)
    ensures InKeyOrder(InsertEntry(entries, e))
  {
    var result := InsertEntry(entries, e);
    if entries != [] {
      var n := |entries| - 1;
      KeysOrdered(entries[n].key, e.key);
      if KeyBefore(entries[n].key, e.key) {
        AppendIs(entries, e);
        forall i | 0 <= i < n
          ensures KeyBefore(entries[i].key, e.key)
        {
          KeysTransitive(entries[i].key, entries[n].key, e.key);
        }
      } else {
        InsertIs(entries[..n], e);
        AppendIs(entries[..n], entries[n]);
        AppendIs(InsertEntry(entries[..n], e), entries[n]);
        assert entries == entries[..n] + [entries[n]];
        InsertedBefore(entries[..n], e, entries[n].key);
      }
    } else {
      AppendIs([], e);
      assert [] + [e] == [e];
    }
  }

  /** A property assigned again keeps its place and takes the later value. */
  lemma {:induction false} InsertReplaces(entries: seq<Entry>, e: Entry, i: nat)
    requires InKeyOrder(entries) && i < |entries| && entries[i].key == e.key
    ensures InsertEntry(entries, e) == entries[i := e]
  {
    var n := |entries| - 1;
    KeysOrdered(entries[n].key, e.key);
    if i < n {
      if KeyBefore(entries[n].key, e.key) { KeysTransitive(entries[n].key, e.key, entries[n].key); }
      InsertReplaces(entries[..n], e, i);
    }
  }

  lemma AppendIs(entries: seq<Entry>, e: Entry)
    ensures forall k, child ::
      Lists(entries + [e], k, child) <==> Lists(entries, k, child) || (k == e.key && child == e.value)
  {
    forall k, child
      ensures Lists(entries + [e], k, child) <==> Lists(entries, k, child) || (k == e.key && child == e.value)
    {
      if Lists(entries, k, child) {
        var i :| 0 <= i < |entries| && entries[i] == Entry(k, child);
        assert (entries + [e])[i] == Entry(k, child);
      }
      if k == e.key && child == e.value { assert (entries + [e])[|entries|] == Entry(k, child); }
    }
  }

  lemma InsertedBefore(entries: seq<Entry>, e: Entry, k: string)
    requires forall key, child ::
      Lists(InsertEntry(entries, e), key, child) <==> Lists(entries, key, child) || (key == e.key && child == e.value)
    requires (forall i | 0 <= i < |entries| :: KeyBefore(entries[i].key, k)) && KeyBefore(e.key, k)
    ensures forall i | 0 <= i < |InsertEntry(entries, e)| :: KeyBefore(InsertEntry(entries, e)[i].key, k)
  {
    var inserted := InsertEntry(entries, e);
    forall i | 0 <= i < |inserted|
      ensures KeyBefore(inserted[i].key, k)
    {
      assert Lists(inserted, inserted[i].key, inserted[i].value);
    }
  }

  /** A normalized object lists exactly the normalized defined properties, in key order. */
  lemma {:induction false} FieldsAre(v: Value, n: nat)
    requires v.Object? && n <= |v.entries| && CanonicalFields(v, n).Some?
    requires forall i, j | 0 <= i < j < |v.entries| :: v.entries[i].key != v.entries[j].key
    ensures InKeyOrder(CanonicalFields(v, n).value)
    ensures forall k, child :: Lists(CanonicalFields(v, n).value, k, child) <==> Comes(v, n, k, child)
    decreases n
  {
    hide Canonical, InsertEntry, KeyBefore;
    var r := CanonicalFields(v, n).value;
    if n > 0 {
      FieldsAre(v, n - 1);
      var before, e := CanonicalFields(v, n - 1).value, v.entries[n - 1];
      if e.value != Undefined {
        forall i | 0 <= i < |before|
          ensures before[i].key != e.key
        {
          assert Lists(before, before[i].key, before[i].value);
        }
        InsertIs(before, Entry(e.key, Canonical(e.value).value));
      }
      forall k, child
        ensures Lists(r, k, child) <==> Comes(v, n, k, child)
      {
        assert Lists(before, k, child) <==> Comes(v, n - 1, k, child);
        ComesOneMore(v, n, k, child);
      }
    }
  }

  /** One of the first n properties has this key and normalizes to this value. */
  ghost predicate Comes(v: Value, n: nat, k: string, child: Value)
    requires v.Object? && n <= |v.entries|
  {
    exists i :: 0 <= i < n && v.entries[i].key == k && v.entries[i].value != Undefined
      && Canonical(v.entries[i].value) == Some(child)
  }

  lemma ComesOneMore(v: Value, n: nat, k: string, child: Value)
    requires v.Object? && 0 < n <= |v.entries|
    ensures var e := v.entries[n - 1];
      Comes(v, n, k, child) <==>
        Comes(v, n - 1, k, child) || (e.key == k && e.value != Undefined && Canonical(e.value) == Some(child))
  {
    hide Canonical;
  }

  /** Lists in key order with the same members are equal. */
  lemma {:induction false} OrderedUnique(a: seq<Entry>, b: seq<Entry>)
    requires InKeyOrder(a) && InKeyOrder(b) && forall k, child :: Lists(a, k, child) <==> Lists(b, k, child)
    ensures a == b
  {
    hide KeyBefore;
    assert b != [] ==> Lists(b, b[0].key, b[0].value);
    if a != [] {
      assert Lists(a, a[0].key, a[0].value);
      assert Lists(b, a[0].key, a[0].value);
      FirstAgrees(a, b);
      RestAgrees(a, b);
      OrderedUnique(a[1..], b[1..]);
      assert a == [a[0]] + a[1..] && b == [b[0]] + b[1..];
    }
  }

  lemma FirstAgrees(a: seq<Entry>, b: seq<Entry>)
    requires InKeyOrder(a) && InKeyOrder(b) && a != [] && b != []
    requires forall k, child :: Lists(a, k, child) <==> Lists(b, k, child)
    ensures a[0] == b[0]
  {
    hide KeyBefore;
    assert Lists(a, a[0].key, a[0].value) && Lists(b, b[0].key, b[0].value);
    var j :| 0 <= j < |b| && b[j] == a[0];
    var i :| 0 <= i < |a| && a[i] == b[0];
    KeysOrdered(a[0].key, a[0].key);
    if j > 0 && i > 0 {
      KeysTransitive(a[0].key, a[i].key, b[j].key);
    }
  }

  lemma RestAgrees(a: seq<Entry>, b: seq<Entry>)
    requires InKeyOrder(a) && InKeyOrder(b) && a != [] && b != [] && a[0] == b[0]
    requires forall k, child :: Lists(a, k, child) <==> Lists(b, k, child)
    ensures forall k, child :: Lists(a[1..], k, child) <==> Lists(b[1..], k, child)
    ensures InKeyOrder(a[1..]) && InKeyOrder(b[1..])
  {
    hide KeyBefore;
    forall k, child
      ensures Lists(a[1..], k, child) <==> Lists(b[1..], k, child)
    {
      TailLists(a, k, child);
      TailLists(b, k, child);
    }
  }

  lemma TailLists(a: seq<Entry>, k: string, child: Value)
    requires InKeyOrder(a) && a != []
    ensures Lists(a[1..], k, child) <==> Lists(a, k, child) && Entry(k, child) != a[0]
  {
    hide KeyBefore;
    KeysOrdered(a[0].key, a[0].key);
    if Lists(a[1..], k, child) {
      var i :| 0 <= i < |a[1..]| && a[1..][i] == Entry(k, child);
      assert a[i + 1] == Entry(k, child) && KeyBefore(a[0].key, a[i + 1].key);
    }
    if Lists(a, k, child) && Entry(k, child) != a[0] {
      var i :| 0 <= i < |a| && a[i] == Entry(k, child);
      assert a[1..][i - 1] == Entry(k, child);
    }
  }

  // ----- Normal forms and meaning -----

  lemma {:induction false} ItemsAre(v: Value, n: nat)
    requires v.Array? && n <= |v.items|
    ensures CanonicalItems(v, n).Some? <==> forall i | 0 <= i < n :: Canonical(v.items[i]).Some?
    ensures CanonicalItems(v, n).Some? ==>
      |CanonicalItems(v, n).value| == n
      && forall i | 0 <= i < n :: Canonical(v.items[i]) == Some(CanonicalItems(v, n).value[i])
    decreases n
  {
    hide Canonical;
    if n > 0 { ItemsAre(v, n - 1); }
  }

  lemma {:induction false} FieldsDefined(v: Value, n: nat)
    requires v.Object? && n <= |v.entries|
    ensures CanonicalFields(v, n).Some? <==>
      forall i | 0 <= i < n :: v.entries[i].value == Undefined || Canonical(v.entries[i].value).Some?
    decreases n
  {
    hide Canonical, InsertEntry;
    if n > 0 { FieldsDefined(v, n - 1); }
  }

  /** Two values JSON can express have one normal form exactly when they mean the same. */
  lemma {:induction false} CanonicalIff(v: Value, w: Value)
    requires KeysOnce(v) && KeysOnce(w) && Canonical(v).Some? && Canonical(w).Some?
    ensures Canonical(v) == Canonical(w) <==> SameJson(v, w)
    decreases v
  {
    if v.Array? && w.Array? {
      ItemsAre(v, |v.items|);
      ItemsAre(w, |w.items|);
      if |v.items| == |w.items| {
        forall i | 0 <= i < |v.items|
          ensures Canonical(v.items[i]) == Canonical(w.items[i]) <==> SameJson(v.items[i], w.items[i])
        {
          CanonicalIff(v.items[i], w.items[i]);
        }
        SameItems(v, w);
      }
    } else if v.Object? && w.Object? {
      FieldsDefined(v, |v.entries|);
      FieldsDefined(w, |w.entries|);
      forall i, j | 0 <= i < |v.entries| && 0 <= j < |w.entries|
        && v.entries[i].value != Undefined && w.entries[j].value != Undefined
        ensures Canonical(v.entries[i].value) == Canonical(w.entries[j].value) <==>
          SameJson(v.entries[i].value, w.entries[j].value)
      {
        CanonicalIff(v.entries[i].value, w.entries[j].value);
      }
      SameFields(v, w);
    }
  }

  lemma SameItems(v: Value, w: Value)
    requires v.Array? && w.Array? && |v.items| == |w.items| && Canonical(v).Some? && Canonical(w).Some?
    requires forall i | 0 <= i < |v.items| ::
      Canonical(v.items[i]) == Canonical(w.items[i]) <==> SameJson(v.items[i], w.items[i])
    ensures Canonical(v) == Canonical(w) <==> SameJson(v, w)
  {
    ItemsAre(v, |v.items|);
    ItemsAre(w, |w.items|);
    var a, b := CanonicalItems(v, |v.items|).value, CanonicalItems(w, |w.items|).value;
    assert Canonical(v) == Some(Array(a)) && Canonical(w) == Some(Array(b));
    assert a == b <==> forall i | 0 <= i < |a| :: a[i] == b[i];
    forall i | 0 <= i < |a| ensures a[i] == b[i] <==> SameJson(v.items[i], w.items[i]) {
      assert Canonical(v.items[i]) == Some(a[i]) && Canonical(w.items[i]) == Some(b[i]);
    }
  }

  ghost predicate ChildrenAgree(v: Value, w: Value)
    requires v.Object? && w.Object?
  {
    forall i, j | 0 <= i < |v.entries| && 0 <= j < |w.entries|
      && v.entries[i].value != Undefined && w.entries[j].value != Undefined ::
      Canonical(v.entries[i].value) == Canonical(w.entries[j].value) <==>
        SameJson(v.entries[i].value, w.entries[j].value)
  }

  lemma SameFields(v: Value, w: Value)
    requires v.Object? && w.Object? && KeysOnce(v) && KeysOnce(w) && Canonical(v).Some? && Canonical(w).Some?
    requires ChildrenAgree(v, w)
    ensures Canonical(v) == Canonical(w) <==> SameJson(v, w)
  {
    FieldsAre(v, |v.entries|);
    FieldsAre(w, |w.entries|);
    var a, b := CanonicalFields(v, |v.entries|).value, CanonicalFields(w, |w.entries|).value;
    assert Canonical(v) == Some(Object(a)) && Canonical(w) == Some(Object(b));
    if SameJson(v, w) {
      SameMeansSameLists(v, w);
      OrderedUnique(a, b);
    }
    if a == b {
      forall k, child ensures Comes(v, |v.entries|, k, child) <==> Comes(w, |w.entries|, k, child) {
        assert Lists(a, k, child) <==> Comes(v, |v.entries|, k, child);
        assert Lists(b, k, child) <==> Comes(w, |w.entries|, k, child);
      }
      SameListsMeanSame(v, w);
    }
  }

  lemma SameMeansSameLists(v: Value, w: Value)
    requires v.Object? && w.Object? && KeysOnce(v) && KeysOnce(w) && ChildrenAgree(v, w) && SameJson(v, w)
    ensures forall k, child :: Comes(v, |v.entries|, k, child) <==> Comes(w, |w.entries|, k, child)
  {
    hide Canonical;
    forall k, child
      ensures Comes(v, |v.entries|, k, child) <==> Comes(w, |w.entries|, k, child)
    {
      if Comes(v, |v.entries|, k, child) {
        var i :| 0 <= i < |v.entries| && v.entries[i].key == k && v.entries[i].value != Undefined
          && Canonical(v.entries[i].value) == Some(child);
        assert HasKey(w.entries, v.entries[i].key);
        var j :| 0 <= j < |w.entries| && w.entries[j].key == k && w.entries[j].value != Undefined;
        assert SameJson(v.entries[i].value, w.entries[j].value);
      }
      if Comes(w, |w.entries|, k, child) {
        var j :| 0 <= j < |w.entries| && w.entries[j].key == k && w.entries[j].value != Undefined
          && Canonical(w.entries[j].value) == Some(child);
        assert HasKey(v.entries, w.entries[j].key);
        var i :| 0 <= i < |v.entries| && v.entries[i].key == k && v.entries[i].value != Undefined;
        assert SameJson(v.entries[i].value, w.entries[j].value);
      }
    }
  }

  ghost predicate HasSame(entries: seq<Entry>, e: Entry) {
    exists j ::
      0 <= j < |entries| && entries[j].key == e.key && entries[j].value != Undefined
      && SameJson(e.value, entries[j].value)
  }

  lemma SameListsMeanSame(v: Value, w: Value)
    requires v.Object? && w.Object? && KeysOnce(v) && KeysOnce(w) && ChildrenAgree(v, w)
    requires Canonical(v).Some? && Canonical(w).Some?
    requires forall k, child :: Comes(v, |v.entries|, k, child) <==> Comes(w, |w.entries|, k, child)
    ensures SameJson(v, w)
  {
    FieldsDefined(v, |v.entries|);
    FieldsDefined(w, |w.entries|);
    forall i | 0 <= i < |v.entries| && v.entries[i].value != Undefined
      ensures HasKey(w.entries, v.entries[i].key)
      ensures HasSame(w.entries, v.entries[i])
    {
      Counterpart(v, w, i);
    }
    forall j | 0 <= j < |w.entries| && w.entries[j].value != Undefined
      ensures HasKey(v.entries, w.entries[j].key)
    {
      var child := Canonical(w.entries[j].value).value;
      assert Comes(w, |w.entries|, w.entries[j].key, child);
      assert Comes(v, |v.entries|, w.entries[j].key, child);
    }
  }

  lemma Counterpart(v: Value, w: Value, i: nat)
    requires v.Object? && w.Object? && ChildrenAgree(v, w)
    requires i < |v.entries| && v.entries[i].value != Undefined && Canonical(v.entries[i].value).Some?
    requires forall k, child :: Comes(v, |v.entries|, k, child) <==> Comes(w, |w.entries|, k, child)
    ensures HasKey(w.entries, v.entries[i].key)
    ensures HasSame(w.entries, v.entries[i])
  {
    hide Canonical, SameJson;
    var k, child := v.entries[i].key, Canonical(v.entries[i].value).value;
    assert Comes(v, |v.entries|, k, child);
    assert Comes(w, |w.entries|, k, child);
    var j :| 0 <= j < |w.entries| && w.entries[j].key == k && w.entries[j].value != Undefined
      && Canonical(w.entries[j].value) == Some(child);
  }

  /** A normal form means what its value means, has each key once and can be normalized again. */
  lemma {:induction false} CanonicalMeansTheSame(v: Value)
    requires KeysOnce(v) && Canonical(v).Some?
    ensures var c := Canonical(v).value; KeysOnce(c) && SameJson(v, c) && c != Undefined && Canonical(c).Some?
    decreases v
  {
    var c := Canonical(v).value;
    if v.Array? {
      ItemsAre(v, |v.items|);
      forall i | 0 <= i < |v.items|
        ensures KeysOnce(c.items[i]) && SameJson(v.items[i], c.items[i]) && Canonical(c.items[i]).Some?
      {
        CanonicalMeansTheSame(v.items[i]);
      }
      ItemsAre(c, |c.items|);
    } else if v.Object? {
      FieldsDefined(v, |v.entries|);
      forall i | 0 <= i < |v.entries| && v.entries[i].value != Undefined
        ensures Canonical(v.entries[i].value).Some?
        ensures var d := Canonical(v.entries[i].value).value;
          KeysOnce(d) && SameJson(v.entries[i].value, d) && d != Undefined && Canonical(d).Some?
      {
        CanonicalMeansTheSame(v.entries[i].value);
      }
      FieldsMeanTheSame(v, c);
    }
  }

  lemma FieldsMeanTheSame(v: Value, c: Value)
    requires v.Object? && KeysOnce(v) && Canonical(v) == Some(c)
    requires forall i | 0 <= i < |v.entries| && v.entries[i].value != Undefined ::
      && Canonical(v.entries[i].value).Some?
      && var d := Canonical(v.entries[i].value).value;
         KeysOnce(d) && SameJson(v.entries[i].value, d) && d != Undefined && Canonical(d).Some?
    ensures KeysOnce(c) && SameJson(v, c) && Canonical(c).Some?
  {
    FieldsAre(v, |v.entries|);
    var r := CanonicalFields(v, |v.entries|).value;
    assert c == Object(r);
    forall j | 0 <= j < |r|
      ensures Comes(v, |v.entries|, r[j].key, r[j].value)
    {
      assert Lists(r, r[j].key, r[j].value);
    }
    forall i | 0 <= i < |v.entries| && v.entries[i].value != Undefined
      ensures HasKey(r, v.entries[i].key)
    {
      assert Comes(v, |v.entries|, v.entries[i].key, Canonical(v.entries[i].value).value);
      assert Lists(r, v.entries[i].key, Canonical(v.entries[i].value).value);
    }
    OrderHasKeysOnce(r);
    FieldsDefined(c, |r|);
  }

  lemma OrderHasKeysOnce(entries: seq<Entry>)
    requires InKeyOrder(entries)
    ensures forall i, j | 0 <= i < j < |entries| :: entries[i].key != entries[j].key
  {
    hide KeyBefore;
    forall i, j | 0 <= i < j < |entries|
      ensures entries[i].key != entries[j].key
    {
      KeysOrdered(entries[i].key, entries[i].key);
    }
  }

  /** Normalizing twice changes nothing more. */
  lemma CanonicalIdempotent(v: Value)
    requires KeysOnce(v) && Canonical(v).Some?
    ensures Canonical(Canonical(v).value) == Canonical(v)
  {
    hide Canonical, SameJson, KeysOnce;
    CanonicalMeansTheSame(v);
    CanonicalIff(v, Canonical(v).value);
  }

  // ----- Fingerprints -----

  /** Printing and hashing are the platform's. */
  datatype Sealer = Sealer(stringify: Value -> string, digest: string -> string)

  /** These two values are printed apart if they differ, and their prints hashed apart if those differ. */
  predicate ToldApart(s: Sealer, a: Value, b: Value) {
    && (s.stringify(a) == s.stringify(b) ==> a == b)
    && (s.digest(s.stringify(a)) == s.digest(s.stringify(b)) ==> s.stringify(a) == s.stringify(b))
  }

  function Projection(generator: string, schemaVersion: nat, data: Value): Value {
    Object([Entry("generator", Text(generator)), Entry("schemaVersion", Number(schemaVersion as real)),
            Entry("semanticData", data)])
  }

  function SemanticFingerprint(s: Sealer, generator: string, schemaVersion: nat, data: Value): Option<string> {
    match Canonical(Projection(generator, schemaVersion, data))
    case None => None
    case Some(c) => Some("sha256:" + s.digest(s.stringify(c)))
  }

  lemma ProjectionKeys(generator: string, schemaVersion: nat, data: Value)
    requires KeysOnce(data)
    ensures KeysOnce(Projection(generator, schemaVersion, data))
  {
    assert "generator"[0] != "schemaVersion"[0];
    assert "schemaVersion"[1] != "semanticData"[1];
    assert "generator"[0] != "semanticData"[0];
  }

  /** Two projections mean the same exactly when generator, version and data do. */
  lemma ProjectionsSame(g: string, n: nat, d: Value, h: string, m: nat, e: Value)
    requires KeysOnce(d) && KeysOnce(e) && d != Undefined && e != Undefined
    ensures SameJson(Projection(g, n, d), Projection(h, m, e)) <==> g == h && n == m && SameJson(d, e)
  {
    hide SameJson;
    ProjectionKeys(g, n, Null);
    var v, w := Projection(g, n, d).entries, Projection(h, m, e).entries;
    assert KeysOnce(Projection(g, n, Null));
    DistinctNames();
    SameKeysSame(v, w);
    LeavesSame(Text(g), Text(h));
    LeavesSame(Number(n as real), Number(m as real));
    assert (forall i | 0 <= i < 3 :: SameJson(v[i].value, w[i].value)) <==>
      SameJson(v[0].value, w[0].value) && SameJson(v[1].value, w[1].value) && SameJson(v[2].value, w[2].value);
  }

  lemma DistinctNames()
    ensures "generator" != "schemaVersion" && "schemaVersion" != "semanticData" && "generator" != "semanticData"
  {
    assert "generator"[0] != "schemaVersion"[0];
    assert "schemaVersion"[1] != "semanticData"[1];
    assert "generator"[0] != "semanticData"[0];
  }

  lemma LeavesSame(v: Value, w: Value)
    requires !v.Array? && !v.Object?
    ensures SameJson(v, w) <==> v == w
  {
  }

  /** Objects with the same defined keys at the same positions mean the same when their values do. */
  lemma SameKeysSame(a: seq<Entry>, b: seq<Entry>)
    requires |a| == |b|
    requires forall i | 0 <= i < |a| :: a[i].key == b[i].key && a[i].value != Undefined && b[i].value != Undefined
    requires forall i, j | 0 <= i < j < |a| :: a[i].key != a[j].key
    ensures SameJson(Object(a), Object(b)) <==> forall i | 0 <= i < |a| :: SameJson(a[i].value, b[i].value)
  {
    forall i | 0 <= i < |a| ensures HasKey(a, b[i].key) && HasKey(b, a[i].key) {
      assert a[i].key == b[i].key;
    }
  }

  /** The fingerprint depends on semantic content only, and wholly unless the two normal forms at hand collide. */
  lemma FingerprintIff(s: Sealer, g: string, n: nat, d: Value, h: string, m: nat, e: Value)
    requires KeysOnce(d) && KeysOnce(e) && d != Undefined && e != Undefined
    requires SemanticFingerprint(s, g, n, d).Some? && SemanticFingerprint(s, h, m, e).Some?
    ensures g == h && n == m && SameJson(d, e) ==> SemanticFingerprint(s, g, n, d) == SemanticFingerprint(s, h, m, e)
    ensures ToldApart(s, Canonical(Projection(g, n, d)).value, Canonical(Projection(h, m, e)).value) ==>
      (SemanticFingerprint(s, g, n, d) == SemanticFingerprint(s, h, m, e) <==> g == h && n == m && SameJson(d, e))
    ensures "sha256:" <= SemanticFingerprint(s, g, n, d).value
  {
    hide Canonical, SameJson, KeysOnce, Projection;
    ProjectionKeys(g, n, d);
    ProjectionKeys(h, m, e);
    CanonicalIff(Projection(g, n, d), Projection(h, m, e));
    ProjectionsSame(g, n, d, h, m, e);
    if SemanticFingerprint(s, g, n, d) == SemanticFingerprint(s, h, m, e) {
      SamePrefix(s, Canonical(Projection(g, n, d)).value, Canonical(Projection(h, m, e)).value);
    }
  }

  lemma SamePrefix(s: Sealer, a: Value, b: Value)
    requires "sha256:" + s.digest(s.stringify(a)) == "sha256:" + s.digest(s.stringify(b))
    ensures s.digest(s.stringify(a)) == s.digest(s.stringify(b))
  {
    assert ("sha256:" + s.digest(s.stringify(a)))[7..] == s.digest(s.stringify(a));
    assert ("sha256:" + s.digest(s.stringify(b)))[7..] == s.digest(s.stringify(b));
  }
}
