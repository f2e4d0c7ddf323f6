/** Grouping platforms whose projected value has the same identity. */
module PlatformGroups {
  import opened Common
  import opened StoreEdges

  datatype Group<+V> = Group(platforms: seq<Platform>, value: V)

  /** The platforms whose identity is the key, in order. */
  ghost function Select<K>(platforms: seq<Platform>, identities: seq<K>, key: K): seq<Platform>
    requires |platforms| == |identities|
  {
    if platforms == [] then []
    else
      var n := |platforms| - 1;
      Select(platforms[..n], identities[..n], key) + if identities[n] == key then [platforms[n]] else []
  }

  ghost predicate Represents<V, K>(values: seq<V>, identities: seq<K>, key: K, value: V) {
    |values| == |identities| && exists k :: 0 <= k < |values| && identities[k] == key && values[k] == value
  }

  /** One group per distinct identity, holding that identity's platforms and one of its values. */
  ghost predicate Grouped<V, K>(platforms: seq<Platform>, values: seq<V>, identities: seq<K>, groups: seq<Group<V>>,
                                keys: seq<K>) {
    && |platforms| == |values| == |identities|
    && |groups| == |keys|
    && (forall i, j | 0 <= i < j < |keys| :: keys[i] != keys[j])
    && (forall i | 0 <= i < |identities| :: identities[i] in keys)
    && (forall n | 0 <= n < |groups| :: groups[n].platforms != []
          && groups[n].platforms == Select(platforms, identities, keys[n]))
    && (forall n | 0 <= n < |groups| :: Represents(values, identities, keys[n], groups[n].value))
  }

  lemma SelectSnoc<K>(platforms: seq<Platform>, identities: seq<K>, platform: Platform, identity: K, key: K)
    requires |platforms| == |identities|
    ensures Select(platforms + [platform], identities + [identity], key)
         == Select(platforms, identities, key) + if identity == key then [platform] else []
  {
    assert (platforms + [platform])[..|platforms|] == platforms;
    assert (identities + [identity])[..|identities|] == identities;
  }

  lemma {:induction false} SelectIff<K>(platforms: seq<Platform>, identities: seq<K>, key: K, p: Platform)
    requires |platforms| == |identities|
    ensures p in Select(platforms, identities, key) <==>
      exists i :: 0 <= i < |platforms| && platforms[i] == p && identities[i] == key
  {
    if platforms != [] {
      var n := |platforms| - 1;
      SelectIff(platforms[..n], identities[..n], key, p);
      if i :| 0 <= i < |platforms| && platforms[i] == p && identities[i] == key {
        if i < n { assert platforms[..n][i] == p && identities[..n][i] == key; }
      }
      if p in Select(platforms[..n], identities[..n], key) {
        var i :| 0 <= i < n && platforms[..n][i] == p && identities[..n][i] == key;
        assert platforms[i] == p && identities[i] == key;
      }
    }
  }

  lemma {:induction false} NeverSelected<K>(platforms: seq<Platform>, identities: seq<K>, key: K)
    requires |platforms| == |identities| && key !in identities
    ensures Select(platforms, identities, key) == []
  {
    if platforms != [] {
      var n := |platforms| - 1;
      assert identities == identities[..n] + [identities[n]];
      NeverSelected(platforms[..n], identities[..n], key);
    }
  }

  method GroupByPlatform<V, K(==)>(platforms: seq<Platform>, values: seq<V>, identities: seq<K>)
    returns (groups: seq<Group<V>>)
    requires |platforms| == |values| == |identities|
    ensures exists keys :: Grouped(platforms, values, identities, groups, keys)
  {
    hide Select;
    groups := [];
    var order: seq<K> := [];
    for i := 0 to |platforms|
      invariant Grouped(platforms[..i], values[..i], identities[..i], groups, order)
    {
      assert platforms[..i + 1] == platforms[..i] + [platforms[i]];
      assert identities[..i + 1] == identities[..i] + [identities[i]];
      var at := 0;
      while at < |order| && order[at] != identities[i]
        invariant 0 <= at <= |order| && forall j | 0 <= j < at :: order[j] != identities[i]
      {
        at := at + 1;
      }
      ghost var before, beforeKeys := groups, order;
      if at == |order| {
        groups := groups + [Group([platforms[i]], values[i])];
        order := order + [identities[i]];
      } else {
        groups := groups[at := Group(groups[at].platforms + [platforms[i]], groups[at].value)];
      }
      forall n | 0 <= n < |groups|
        ensures groups[n].platforms == Select(platforms[..i + 1], identities[..i + 1], order[n])
        ensures Represents(values[..i + 1], identities[..i + 1], order[n], groups[n].value)
      {
        SelectSnoc(platforms[..i], identities[..i], platforms[i], identities[i], order[n]);
        if n < |before| {
          var k :| 0 <= k < i && identities[..i][k] == beforeKeys[n] && values[..i][k] == before[n].value;
          assert identities[..i + 1][k] == order[n] && values[..i + 1][k] == groups[n].value;
        } else {
          NeverSelected(platforms[..i], identities[..i], identities[i]);
          assert identities[..i + 1][i] == order[n] && values[..i + 1][i] == groups[n].value;
        }
      }
    }
    assert platforms[..|platforms|] == platforms && values[..|values|] == values;
    assert identities[..|identities|] == identities;
    assert Grouped(platforms, values, identities, groups, order);
  }

  /** The first group that lists the platform. */
  function Find<V>(groups: seq<Group<V>>, platform: Platform): Option<V> {
    if groups == [] then None
    else if platform in groups[0].platforms then Some(groups[0].value)
    else Find(groups[1..], platform)
  }

  lemma {:induction false} FindIs<V>(groups: seq<Group<V>>, platform: Platform)
    ensures Find(groups, platform).None? ==> forall n | 0 <= n < |groups| :: platform !in groups[n].platforms
    ensures Find(groups, platform).Some? ==>
      exists n :: 0 <= n < |groups| && platform in groups[n].platforms
        && groups[n].value == Find(groups, platform).value
  {
    if groups != [] && platform !in groups[0].platforms {
      FindIs(groups[1..], platform);
      if Find(groups, platform).Some? {
        var n :| 0 <= n < |groups[1..]| && platform in groups[1..][n].platforms
          && groups[1..][n].value == Find(groups[1..], platform).value;
        assert groups[n + 1] == groups[1..][n];
      } else {
        forall n | 0 <= n < |groups|
          ensures platform !in groups[n].platforms
        {
          if n > 0 { assert groups[n] == groups[1..][n - 1]; }
        }
      }
    }
  }

  ghost predicate NoRepeats(platforms: seq<Platform>) {
    forall i, j | 0 <= i < j < |platforms| :: platforms[i] != platforms[j]
  }

  /** Each grouped platform finds a value with its own identity. */
  lemma FindsItsIdentity<V, K>(platforms: seq<Platform>, values: seq<V>, identities: seq<K>, groups: seq<Group<V>>,
                               keys: seq<K>, i: nat)
    requires Grouped(platforms, values, identities, groups, keys) && NoRepeats(platforms) && i < |platforms|
    ensures Find(groups, platforms[i]).Some?
    ensures Represents(values, identities, identities[i], Find(groups, platforms[i]).value)
  {
    hide Select, Represents;
    var p := platforms[i];
    FindIs(groups, p);
    var m :| 0 <= m < |keys| && keys[m] == identities[i];
    SelectIff(platforms, identities, keys[m], p);
    var n :| 0 <= n < |groups| && p in groups[n].platforms && groups[n].value == Find(groups, p).value;
    SelectIff(platforms, identities, keys[n], p);
    assert keys[n] == identities[i];
  }

  /** A platform that was not projected is in no group. */
  lemma FindsNothingElse<V, K>(platforms: seq<Platform>, values: seq<V>, identities: seq<K>, groups: seq<Group<V>>,
                               keys: seq<K>, p: Platform)
    requires Grouped(platforms, values, identities, groups, keys) && p !in platforms
    ensures Find(groups, p).None?
  {
    hide Select;
    FindIs(groups, p);
    if Find(groups, p).Some? {
      var n :| 0 <= n < |groups| && p in groups[n].platforms && groups[n].value == Find(groups, p).value;
      SelectIff(platforms, identities, keys[n], p);
    }
  }

  /** Two platforms share a group exactly when their values have the same identity. */
  lemma ShareIffSame<V, K>(platforms: seq<Platform>, values: seq<V>, identities: seq<K>, groups: seq<Group<V>>,
                           keys: seq<K>, i: nat, j: nat)
    requires Grouped(platforms, values, identities, groups, keys) && NoRepeats(platforms)
    requires i < |platforms| && j < |platforms|
    ensures identities[i] == identities[j] <==>
      exists n :: 0 <= n < |groups| && platforms[i] in groups[n].platforms && platforms[j] in groups[n].platforms
  {
    hide Select, Represents;
    var m :| 0 <= m < |keys| && keys[m] == identities[i];
    forall n | 0 <= n < |groups|
      ensures platforms[i] in groups[n].platforms <==> identities[i] == keys[n]
      ensures platforms[j] in groups[n].platforms <==> identities[j] == keys[n]
    {
      SelectIff(platforms, identities, keys[n], platforms[i]);
      SelectIff(platforms, identities, keys[n], platforms[j]);
    }
  }

  /** The groups partition the platforms: every one is in a group, and in no second. */
  lemma InExactlyOneGroup<V, K>(platforms: seq<Platform>, values: seq<V>, identities: seq<K>, groups: seq<Group<V>>,
                                keys: seq<K>, i: nat)
    requires Grouped(platforms, values, identities, groups, keys) && NoRepeats(platforms) && i < |platforms|
    ensures exists n :: 0 <= n < |groups| && platforms[i] in groups[n].platforms
    ensures forall n, m | 0 <= n < m < |groups| && platforms[i] in groups[n].platforms ::
      platforms[i] !in groups[m].platforms
  {
    hide Select, Represents;
    var m :| 0 <= m < |keys| && keys[m] == identities[i];
    forall n | 0 <= n < |groups|
      ensures platforms[i] in groups[n].platforms <==> identities[i] == keys[n]
    {
      SelectIff(platforms, identities, keys[n], platforms[i]);
    }
  }
}
