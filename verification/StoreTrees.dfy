/**
 * The three kinds of store tree: an entry of its own, a component of several members, and an importer's view.
 * Each lists its copies and links as steps of an assembly; what stands where afterwards is stated over the disk
 * and the options alone.
 */
module StoreTrees {
  import opened Common
  import opened PosixPaths
  import opened StorePaths
  import opened StoreAssembly

  // ----- The three kinds of tree -----

  /** A relative path of plain components, as file names may appear in every system. */
  predicate Portable(value: string) {
    value != "" && '\\' !in value && '\0' !in value && !IsAbsolute(value) && Clean(Components(value))
  }

  predicate StoreKey(value: string) {
    Portable(value) && '/' !in value
  }

  function Below(prefix: PlainPath, name: string): PlainPath
    requires Portable(name)
  {
    PlainConcat(prefix, Components(name));
    prefix + Components(name)
  }

  datatype EntryLink = EntryLink(entryDir: Path, name: string, packageName: string)

  datatype BinLink = BinLink(entryDir: Path, name: string, packageName: string, executable: string)

  datatype WorkspaceLink = WorkspaceLink(workspaceDir: Path, name: string)

  /** Links to declared entries under distinct names; none when a name repeats or is not portable. */
  function EntryLinks(prefix: PlainPath, links: seq<EntryLink>, seen: set<string>): Option<seq<Act>> {
    if links == [] then Some([])
    else
      var link := links[0];
      if !Portable(link.name) || !Portable(link.packageName) || link.name in seen then None
      else
        match EntryLinks(prefix, links[1..], seen + {link.name})
        case None => None
        case Some(rest) =>
          Some([AddLink(Below(prefix, link.name), Declared(link.entryDir, Components(link.packageName)))] + rest)
  }

  function WorkspaceLinks(prefix: PlainPath, links: seq<WorkspaceLink>, seen: set<string>): Option<seq<Act>> {
    if links == [] then Some([])
    else
      var link := links[0];
      if !Portable(link.name) || link.name in seen then None
      else
        match WorkspaceLinks(prefix, links[1..], seen + {link.name})
        case None => None
        case Some(rest) => Some([AddLink(Below(prefix, link.name), Declared(link.workspaceDir, []))] + rest)
  }

  function BinLinks(prefix: PlainPath, bins: seq<BinLink>): Option<seq<Act>> {
    if bins == [] then Some([])
    else
      var bin := bins[0];
      if !Portable(bin.name) || !Portable(bin.executable) then None
      else
        match BinLinks(prefix, bins[1..])
        case None => None
        case Some(rest) =>
          Some([AddLink(Below(prefix, bin.name),
                        Declared(bin.entryDir, Components(bin.packageName) + Components(bin.executable)))] + rest)
  }

  function Then(a: Option<seq<Act>>, b: Option<seq<Act>>): Option<seq<Act>> {
    if a.Some? && b.Some? then Some(a.value + b.value) else None
  }

  const NODE_MODULES: PlainPath := ["node_modules"]

  const BIN_DIRECTORY: PlainPath := ["node_modules", ".bin"]

  datatype EntryOptions = EntryOptions(packageName: string, packageTree: Path,
    dependencies: seq<EntryLink>, bins: seq<BinLink>)

  function EntryActs(o: EntryOptions): Option<seq<Act>> {
    if !Portable(o.packageName) then None
    else
      Then(Some([Copy(o.packageTree, Below(NODE_MODULES, o.packageName))]),
           Then(EntryLinks(NODE_MODULES, o.dependencies, {}), BinLinks(BIN_DIRECTORY, o.bins)))
  }

  datatype ViewOptions = ViewOptions(links: seq<EntryLink>, workspaceLinks: seq<WorkspaceLink>, bins: seq<BinLink>)

  function ViewActs(o: ViewOptions): Option<seq<Act>> {
    var names := set link | link in o.links :: link.name;
    Then(EntryLinks([], o.links, {}), Then(WorkspaceLinks([], o.workspaceLinks, names), BinLinks([".bin"], o.bins)))
  }

  datatype Member = Member(storeKey: string, packageName: string, packageTree: Path)

  datatype InternalEdge = InternalEdge(name: string, source: string, target: string)

  datatype ExternalEdge = ExternalEdge(source: string, link: EntryLink)

  datatype MemberBin = MemberBin(name: string, executable: string, source: string, target: string)

  datatype ExternalBin = ExternalBin(source: string, bin: BinLink)

  datatype SccOptions = SccOptions(
    members: seq<Member>, internal: seq<InternalEdge>, external: seq<ExternalEdge>,
    bins: seq<MemberBin>, externalBins: seq<ExternalBin>)

  /** Members by namespace; none when a namespace repeats or is not one path component. */
  function MembersByKey(members: seq<Member>): Option<map<string, Member>> {
    if members == [] then Some(map[])
    else
      var member := members[|members| - 1];
      match MembersByKey(members[..|members| - 1])
      case None => None
      case Some(before) =>
        if !StoreKey(member.storeKey) || !Portable(member.packageName) || member.storeKey in before then None
        else Some(before[member.storeKey := member])
  }

  function Namespace(storeKey: string): PlainPath
    requires StoreKey(storeKey)
  {
    SplitPlain(storeKey);
    [storeKey, "node_modules"]
  }

  /** The members in the order of their namespaces; each copy goes under its own. */
  function MemberCopies(members: seq<Member>): Option<seq<Act>> {
    if members == [] then Some([])
    else if !StoreKey(members[0].storeKey) || !Portable(members[0].packageName) then None
    else
      match MemberCopies(members[1..])
      case None => None
      case Some(rest) =>
        Some([Copy(members[0].packageTree, Below(Namespace(members[0].storeKey), members[0].packageName))] + rest)
  }

  function InternalLinks(members: map<string, Member>, edges: seq<InternalEdge>): Option<seq<Act>> {
    if edges == [] then Some([])
    else
      var edge := edges[0];
      if !Portable(edge.name) || edge.source !in members || edge.target !in members
        || !StoreKey(edge.source) || !StoreKey(edge.target) then None
      else
        match InternalLinks(members, edges[1..])
        case None => None
        case Some(rest) =>
          Some([AddLink(Below(Namespace(edge.source), edge.name),
                        Within(Namespace(edge.target) + Components(members[edge.target].packageName)))] + rest)
  }

  function ExternalLinks(members: map<string, Member>, edges: seq<ExternalEdge>): Option<seq<Act>> {
    if edges == [] then Some([])
    else
      var edge := edges[0];
      if !Portable(edge.link.name) || !Portable(edge.link.packageName) || edge.source !in members
        || !StoreKey(edge.source) then None
      else
        match ExternalLinks(members, edges[1..])
        case None => None
        case Some(rest) =>
          Some([AddLink(Below(Namespace(edge.source), edge.link.name),
                        Declared(edge.link.entryDir, Components(edge.link.packageName)))] + rest)
  }

  function MemberBins(members: map<string, Member>, bins: seq<MemberBin>): Option<seq<Act>> {
    if bins == [] then Some([])
    else
      var bin := bins[0];
      if !Portable(bin.name) || !Portable(bin.executable) || bin.source !in members || bin.target !in members
        || !StoreKey(bin.source) || !StoreKey(bin.target)
      then None
      else
        match MemberBins(members, bins[1..])
        case None => None
        case Some(rest) =>
          Some([AddLink(Below(BinNamespace(bin.source), bin.name),
                        Within(Namespace(bin.target) + Components(members[bin.target].packageName)
                               + Components(bin.executable)))] + rest)
  }

  function BinNamespace(storeKey: string): PlainPath
    requires StoreKey(storeKey)
  {
    SplitPlain(storeKey);
    [storeKey, "node_modules", ".bin"]
  }

  function ExternalMemberBins(members: map<string, Member>, bins: seq<ExternalBin>): Option<seq<Act>> {
    if bins == [] then Some([])
    else
      var edge := bins[0];
      if !Portable(edge.bin.name) || !Portable(edge.bin.executable) || edge.source !in members
        || !StoreKey(edge.source) then None
      else
        match ExternalMemberBins(members, bins[1..])
        case None => None
        case Some(rest) =>
          Some([AddLink(Below(BinNamespace(edge.source), edge.bin.name),
                        Declared(edge.bin.entryDir,
                                 Components(edge.bin.packageName) + Components(edge.bin.executable)))] + rest)
  }

  /** The acts of one component; sorted lists its members by namespace. */
  function SccActs(o: SccOptions, sorted: seq<Member>): Option<seq<Act>> {
    match MembersByKey(o.members)
    case None => None
    case Some(members) =>
      if |members| < 1 then None
      else
        Then(MemberCopies(sorted),
             Then(InternalLinks(members, o.internal),
                  Then(ExternalLinks(members, o.external),
                       Then(MemberBins(members, o.bins), ExternalMemberBins(members, o.externalBins)))))
  }

  // ----- Which options are accepted, and the steps they ask for -----

  /** A portable path has plain components, and no backslash or NUL. */
  lemma PortableIff(value: string)
    ensures Portable(value) <==> '\\' !in value && '\0' !in value && Clean(Components(value))
  {
    if IsAbsolute(value) { AbsoluteStarts(value); }
    assert !IsName(Components(value)[0]) ==> !Clean(Components(value));
  }

  lemma {:induction false} AbsoluteStarts(value: string)
    requires value != "" && value[0] == '/'
    ensures Components(value)[0] == ""
  {
    if |value| == 1 {
      assert value[..0] == "";
    } else {
      AbsoluteStarts(value[..|value| - 1]);
      if |Components(value[..|value| - 1])| == 1 { OneComponent(value[..|value| - 1]); }
    }
  }

  lemma {:induction false} OneComponent(value: string)
    requires |Components(value)| == 1
    ensures '/' !in value
  {
    if value != "" {
      OneComponent(value[..|value| - 1]);
      assert value == value[..|value| - 1] + [value[|value| - 1]];
    }
  }

  ghost predicate IsEntryLink(prefix: Path, link: EntryLink, act: Act) {
    act.AddLink? && act.at == prefix + Components(link.name)
    && act.aim == Declared(link.entryDir, Components(link.packageName))
  }

  ghost predicate IsWorkspaceLink(prefix: Path, link: WorkspaceLink, act: Act) {
    act.AddLink? && act.at == prefix + Components(link.name) && act.aim == Declared(link.workspaceDir, [])
  }

  ghost predicate IsBinLink(prefix: Path, bin: BinLink, act: Act) {
    act.AddLink? && act.at == prefix + Components(bin.name)
    && act.aim == Declared(bin.entryDir, Components(bin.packageName) + Components(bin.executable))
  }

  lemma {:induction false} EntryLinksAre(prefix: PlainPath, links: seq<EntryLink>, seen: set<string>)
    requires EntryLinks(prefix, links, seen).Some?
    ensures forall link | link in links ::
      exists act :: act in EntryLinks(prefix, links, seen).value && IsEntryLink(prefix, link, act)
    ensures forall act | act in EntryLinks(prefix, links, seen).value ::
      exists link :: link in links && IsEntryLink(prefix, link, act)
  {
    hide Portable;
    if links != [] {
      EntryLinksAre(prefix, links[1..], seen + {links[0].name});
      assert links == [links[0]] + links[1..];
      var acts := EntryLinks(prefix, links, seen).value;
      assert acts == [acts[0]] + acts[1..] && acts[1..] == EntryLinks(prefix, links[1..], seen + {links[0].name}).value;
      assert IsEntryLink(prefix, links[0], acts[0]);
    }
  }

  lemma {:induction false} WorkspaceLinksAre(prefix: PlainPath, links: seq<WorkspaceLink>, seen: set<string>)
    requires WorkspaceLinks(prefix, links, seen).Some?
    ensures forall link | link in links ::
      exists act :: act in WorkspaceLinks(prefix, links, seen).value && IsWorkspaceLink(prefix, link, act)
    ensures forall act | act in WorkspaceLinks(prefix, links, seen).value ::
      exists link :: link in links && IsWorkspaceLink(prefix, link, act)
  {
    hide Portable;
    if links != [] {
      WorkspaceLinksAre(prefix, links[1..], seen + {links[0].name});
      assert links == [links[0]] + links[1..];
      var acts := WorkspaceLinks(prefix, links, seen).value;
      assert acts == [acts[0]] + acts[1..];
      assert acts[1..] == WorkspaceLinks(prefix, links[1..], seen + {links[0].name}).value;
      assert IsWorkspaceLink(prefix, links[0], acts[0]);
    }
  }

  lemma {:induction false} BinLinksAre(prefix: PlainPath, bins: seq<BinLink>)
    requires BinLinks(prefix, bins).Some?
    ensures forall bin | bin in bins :: exists act :: act in BinLinks(prefix, bins).value && IsBinLink(prefix, bin, act)
    ensures forall act | act in BinLinks(prefix, bins).value :: exists bin :: bin in bins && IsBinLink(prefix, bin, act)
  {
    hide Portable;
    if bins != [] {
      BinLinksAre(prefix, bins[1..]);
      assert bins == [bins[0]] + bins[1..];
      var acts := BinLinks(prefix, bins).value;
      assert acts == [acts[0]] + acts[1..] && acts[1..] == BinLinks(prefix, bins[1..]).value;
      assert IsBinLink(prefix, bins[0], acts[0]);
    }
  }

  lemma {:induction false} WorkspaceLinksIff(prefix: PlainPath, links: seq<WorkspaceLink>, seen: set<string>)
    ensures WorkspaceLinks(prefix, links, seen).Some? <==>
      && (forall i | 0 <= i < |links| :: Portable(links[i].name) && links[i].name !in seen)
      && (forall i, j | 0 <= i < j < |links| :: links[i].name != links[j].name)
  {
    hide Portable, Below;
    if links != [] {
      var rest, more := links[1..], seen + {links[0].name};
      WorkspaceLinksIff(prefix, rest, more);
      if WorkspaceLinks(prefix, rest, more).Some? && Portable(links[0].name) && links[0].name !in seen {
        forall i | 0 <= i < |links|
          ensures Portable(links[i].name) && links[i].name !in seen
        {
          if i > 0 { assert links[i] == rest[i - 1]; }
        }
        forall i, j | 0 <= i < j < |links|
          ensures links[i].name != links[j].name
        {
          assert links[j] == rest[j - 1];
          if i > 0 { assert links[i] == rest[i - 1]; }
        }
      } else if WorkspaceLinks(prefix, rest, more).None? {
        if i :| 0 <= i < |rest| && !(Portable(rest[i].name) && rest[i].name !in more) {
          assert links[i + 1] == rest[i];
        } else {
          var i, j :| 0 <= i < j < |rest| && rest[i].name == rest[j].name;
          assert links[i + 1] == rest[i] && links[j + 1] == rest[j];
        }
      }
    }
  }

  lemma {:induction false} BinLinksIff(prefix: PlainPath, bins: seq<BinLink>)
    ensures BinLinks(prefix, bins).Some? <==>
      forall bin | bin in bins :: Portable(bin.name) && Portable(bin.executable)
  {
    hide Portable, Below;
    if bins != [] {
      BinLinksIff(prefix, bins[1..]);
      assert bins == [bins[0]] + bins[1..];
    }
  }

  // ----- Members -----

  /** The members by key: every one under its own, and no other key. */
  lemma {:induction false} MembersFound(members: seq<Member>)
    requires MembersByKey(members).Some?
    ensures var byKey := MembersByKey(members).value;
      && (forall m | m in members :: m.storeKey in byKey && byKey[m.storeKey] == m)
      && (forall m | m in members :: StoreKey(m.storeKey) && Portable(m.packageName))
      && (forall k | k in byKey :: byKey[k] in members && byKey[k].storeKey == k)
  {
    hide StoreKey, Portable;
    if members != [] {
      var n := |members| - 1;
      MembersFound(members[..n]);
      assert members == members[..n] + [members[n]];
    }
  }

  ghost predicate MembersAccepted(members: seq<Member>) {
    && (forall m | m in members :: StoreKey(m.storeKey) && Portable(m.packageName))
    && (forall i, j | 0 <= i < j < |members| :: members[i].storeKey != members[j].storeKey)
  }

  lemma {:induction false} AcceptedAreFound(members: seq<Member>)
    requires MembersAccepted(members)
    ensures MembersByKey(members).Some?
  {
    hide StoreKey, Portable;
    if members != [] {
      var n := |members| - 1;
      assert members == members[..n] + [members[n]];
      AcceptedAreFound(members[..n]);
      MembersFound(members[..n]);
      assert StoreKey(members[n].storeKey) && Portable(members[n].packageName);
    }
  }

  /** Members are accepted exactly when their keys are single components, their names portable and no key repeats. */
  lemma MembersIff(members: seq<Member>)
    ensures MembersByKey(members).Some? <==> MembersAccepted(members)
  {
    hide StoreKey, Portable, MembersByKey;
    if MembersAccepted(members) { AcceptedAreFound(members); }
    if MembersByKey(members).Some? {
      MembersFound(members);
      MembersDistinct(members);
    }
  }

  // ----- The steps of a component's links -----

  ghost predicate IsInternal(members: map<string, Member>, edge: InternalEdge, act: Act) {
    && edge.source in members && edge.target in members
    && act.AddLink? && act.at == [edge.source, "node_modules"] + Components(edge.name)
    && act.aim == Within([edge.target, "node_modules"] + Components(members[edge.target].packageName))
  }

  ghost predicate IsExternal(edge: ExternalEdge, act: Act) {
    act.AddLink? && act.at == [edge.source, "node_modules"] + Components(edge.link.name)
    && act.aim == Declared(edge.link.entryDir, Components(edge.link.packageName))
  }

  ghost predicate IsMemberBin(members: map<string, Member>, bin: MemberBin, act: Act) {
    && bin.source in members && bin.target in members
    && act.AddLink? && act.at == [bin.source, "node_modules", ".bin"] + Components(bin.name)
    && act.aim == Within([bin.target, "node_modules"] + Components(members[bin.target].packageName)
                         + Components(bin.executable))
  }

  ghost predicate IsExternalBin(edge: ExternalBin, act: Act) {
    act.AddLink? && act.at == [edge.source, "node_modules", ".bin"] + Components(edge.bin.name)
    && act.aim == Declared(edge.bin.entryDir, Components(edge.bin.packageName) + Components(edge.bin.executable))
  }

  ghost predicate IsMemberCopy(member: Member, act: Act) {
    act.Copy? && act.source == member.packageTree
    && act.at == [member.storeKey, "node_modules"] + Components(member.packageName)
  }

  ghost predicate KeyedByStore(members: map<string, Member>) {
    forall k | k in members :: StoreKey(k)
  }

  lemma {:induction false} InternalLinksAre(members: map<string, Member>, edges: seq<InternalEdge>)
    requires KeyedByStore(members)
    ensures InternalLinks(members, edges).Some? <==>
      forall edge | edge in edges :: Portable(edge.name) && edge.source in members && edge.target in members
    ensures InternalLinks(members, edges).Some? ==>
      && (forall edge | edge in edges ::
            exists act :: act in InternalLinks(members, edges).value && IsInternal(members, edge, act))
      && (forall act | act in InternalLinks(members, edges).value ::
            exists edge :: edge in edges && IsInternal(members, edge, act))
  {
    hide Portable, StoreKey;
    if edges != [] {
      InternalLinksAre(members, edges[1..]);
      assert edges == [edges[0]] + edges[1..];
      if InternalLinks(members, edges).Some? {
        var acts := InternalLinks(members, edges).value;
        assert acts == [acts[0]] + acts[1..] && acts[1..] == InternalLinks(members, edges[1..]).value;
        assert IsInternal(members, edges[0], acts[0]);
      }
    }
  }

  lemma {:induction false} ExternalLinksAre(members: map<string, Member>, edges: seq<ExternalEdge>)
    requires KeyedByStore(members)
    ensures ExternalLinks(members, edges).Some? <==>
      forall edge | edge in edges ::
        Portable(edge.link.name) && Portable(edge.link.packageName) && edge.source in members
    ensures ExternalLinks(members, edges).Some? ==>
      && (forall edge | edge in edges ::
            exists act :: act in ExternalLinks(members, edges).value && IsExternal(edge, act))
      && (forall act | act in ExternalLinks(members, edges).value ::
            exists edge :: edge in edges && IsExternal(edge, act))
  {
    hide Portable, StoreKey;
    if edges != [] {
      ExternalLinksAre(members, edges[1..]);
      assert edges == [edges[0]] + edges[1..];
      if ExternalLinks(members, edges).Some? {
        var acts := ExternalLinks(members, edges).value;
        assert acts == [acts[0]] + acts[1..] && acts[1..] == ExternalLinks(members, edges[1..]).value;
        assert IsExternal(edges[0], acts[0]);
      }
    }
  }

  lemma {:induction false} MemberBinsAre(members: map<string, Member>, bins: seq<MemberBin>)
    requires KeyedByStore(members)
    ensures MemberBins(members, bins).Some? <==>
      forall bin | bin in bins ::
        Portable(bin.name) && Portable(bin.executable) && bin.source in members && bin.target in members
    ensures MemberBins(members, bins).Some? ==>
      && (forall bin | bin in bins ::
            exists act :: act in MemberBins(members, bins).value && IsMemberBin(members, bin, act))
      && (forall act | act in MemberBins(members, bins).value ::
            exists bin :: bin in bins && IsMemberBin(members, bin, act))
  {
    hide Portable, StoreKey;
    if bins != [] {
      MemberBinsAre(members, bins[1..]);
      assert bins == [bins[0]] + bins[1..];
      if MemberBins(members, bins).Some? {
        var acts := MemberBins(members, bins).value;
        assert acts == [acts[0]] + acts[1..] && acts[1..] == MemberBins(members, bins[1..]).value;
        assert IsMemberBin(members, bins[0], acts[0]);
      }
    }
  }

  lemma {:induction false} ExternalMemberBinsAre(members: map<string, Member>, bins: seq<ExternalBin>)
    requires KeyedByStore(members)
    ensures ExternalMemberBins(members, bins).Some? <==>
      forall edge | edge in bins :: Portable(edge.bin.name) && Portable(edge.bin.executable) && edge.source in members
    ensures ExternalMemberBins(members, bins).Some? ==>
      && (forall edge | edge in bins ::
            exists act :: act in ExternalMemberBins(members, bins).value && IsExternalBin(edge, act))
      && (forall act | act in ExternalMemberBins(members, bins).value ::
            exists edge :: edge in bins && IsExternalBin(edge, act))
  {
    hide Portable, StoreKey;
    if bins != [] {
      ExternalMemberBinsAre(members, bins[1..]);
      assert bins == [bins[0]] + bins[1..];
      if ExternalMemberBins(members, bins).Some? {
        var acts := ExternalMemberBins(members, bins).value;
        assert acts == [acts[0]] + acts[1..] && acts[1..] == ExternalMemberBins(members, bins[1..]).value;
        assert IsExternalBin(bins[0], acts[0]);
      }
    }
  }

  lemma {:induction false} CopiesAreMembers(members: seq<Member>)
    ensures MemberCopies(members).Some? <==>
      forall m | m in members :: StoreKey(m.storeKey) && Portable(m.packageName)
    ensures MemberCopies(members).Some? ==>
      && (forall m | m in members :: exists act :: act in MemberCopies(members).value && IsMemberCopy(m, act))
      && (forall act | act in MemberCopies(members).value :: exists m :: m in members && IsMemberCopy(m, act))
  {
    hide Portable, StoreKey;
    if members != [] {
      CopiesAreMembers(members[1..]);
      assert members == [members[0]] + members[1..];
      if MemberCopies(members).Some? {
        var acts := MemberCopies(members).value;
        assert acts == [acts[0]] + acts[1..] && acts[1..] == MemberCopies(members[1..]).value;
        assert IsMemberCopy(members[0], acts[0]);
      }
    }
  }

  // ----- What the kinds promise -----

  ghost predicate LinksOnly(acts: seq<Act>) {
    forall i | 0 <= i < |acts| :: acts[i].AddLink?
  }

  lemma {:induction false} EntryLinksAreLinks(prefix: PlainPath, links: seq<EntryLink>, seen: set<string>)
    ensures var r := EntryLinks(prefix, links, seen); r.Some? ==> LinksOnly(r.value)
  {
    hide Portable, Below;
    if links != [] { EntryLinksAreLinks(prefix, links[1..], seen + {links[0].name}); }
  }

  /** Links are accepted exactly when the names are portable and no two of them are the same, or one of those taken. */
  lemma {:induction false} EntryLinksIff(prefix: PlainPath, links: seq<EntryLink>, seen: set<string>)
    ensures EntryLinks(prefix, links, seen).Some? <==>
      && (forall i | 0 <= i < |links| ::
            Portable(links[i].name) && Portable(links[i].packageName) && links[i].name !in seen)
      && (forall i, j | 0 <= i < j < |links| :: links[i].name != links[j].name)
  {
    hide Portable, Below;
    if links != [] {
      var rest, more := links[1..], seen + {links[0].name};
      EntryLinksIff(prefix, rest, more);
      if EntryLinks(prefix, rest, more).Some? && Portable(links[0].name) && Portable(links[0].packageName)
        && links[0].name !in seen {
        forall i | 0 <= i < |links|
          ensures Portable(links[i].name) && Portable(links[i].packageName) && links[i].name !in seen
        {
          if i > 0 { assert links[i] == rest[i - 1]; }
        }
        forall i, j | 0 <= i < j < |links|
          ensures links[i].name != links[j].name
        {
          assert links[j] == rest[j - 1];
          if i > 0 { assert links[i] == rest[i - 1]; }
        }
      } else if EntryLinks(prefix, rest, more).None? {
        if i :| 0 <= i < |rest| && !(Portable(rest[i].name) && Portable(rest[i].packageName) && rest[i].name !in more) {
          assert links[i + 1] == rest[i];
        } else {
          var i, j :| 0 <= i < j < |rest| && rest[i].name == rest[j].name;
          assert links[i + 1] == rest[i] && links[j + 1] == rest[j];
        }
      }
    }
  }

  lemma {:induction false} WorkspaceLinksAreLinks(prefix: PlainPath, links: seq<WorkspaceLink>, seen: set<string>)
    ensures var r := WorkspaceLinks(prefix, links, seen); r.Some? ==> LinksOnly(r.value)
  {
    hide Portable, Below;
    if links != [] { WorkspaceLinksAreLinks(prefix, links[1..], seen + {links[0].name}); }
  }

  lemma {:induction false} BinLinksAreLinks(prefix: PlainPath, bins: seq<BinLink>)
    ensures var r := BinLinks(prefix, bins); r.Some? ==> LinksOnly(r.value)
  {
    hide Portable, Below;
    if bins != [] { BinLinksAreLinks(prefix, bins[1..]); }
  }

  /** A view consists of links alone. */
  lemma ViewIsLinks(o: ViewOptions)
    requires ViewActs(o).Some?
    ensures LinksOnly(ViewActs(o).value)
  {
    hide EntryLinks, WorkspaceLinks, BinLinks;
    EntryLinksAreLinks([], o.links, {});
    WorkspaceLinksAreLinks([], o.workspaceLinks, set link | link in o.links :: link.name);
    BinLinksAreLinks([".bin"], o.bins);
  }

  /** An entry is one copy, of its own package, and links. */
  lemma EntryIsOneCopy(o: EntryOptions)
    requires EntryActs(o).Some?
    ensures |EntryActs(o).value| > 0 && Portable(o.packageName)
    ensures EntryActs(o).value[0] == Copy(o.packageTree, Below(NODE_MODULES, o.packageName))
    ensures LinksOnly(EntryActs(o).value[1..])
  {
    hide EntryLinks, BinLinks, Portable, Below;
    EntryLinksAreLinks(NODE_MODULES, o.dependencies, {});
    BinLinksAreLinks(BIN_DIRECTORY, o.bins);
  }

  /** The copies of two members never touch: neither lies below the other. */
  lemma NamespacesApart(a: string, b: string, x: Path, y: Path)
    requires StoreKey(a) && StoreKey(b) && a != b
    ensures !(Namespace(a) + x <= Namespace(b) + y)
  {
    hide Portable;
    assert (Namespace(a) + x)[0] == a && (Namespace(b) + y)[0] == b;
  }

  lemma {:induction false} InternalLinksAreLinks(members: map<string, Member>, edges: seq<InternalEdge>)
    ensures var r := InternalLinks(members, edges); r.Some? ==> LinksOnly(r.value)
  {
    hide Portable, Below, Namespace;
    if edges != [] { InternalLinksAreLinks(members, edges[1..]); }
  }

  lemma {:induction false} ExternalLinksAreLinks(members: map<string, Member>, edges: seq<ExternalEdge>)
    ensures var r := ExternalLinks(members, edges); r.Some? ==> LinksOnly(r.value)
  {
    hide Portable, Below, Namespace;
    if edges != [] { ExternalLinksAreLinks(members, edges[1..]); }
  }

  lemma {:induction false} MemberBinsAreLinks(members: map<string, Member>, bins: seq<MemberBin>)
    ensures var r := MemberBins(members, bins); r.Some? ==> LinksOnly(r.value)
  {
    hide Portable, Below, Namespace, BinNamespace;
    if bins != [] { MemberBinsAreLinks(members, bins[1..]); }
  }

  lemma {:induction false} ExternalMemberBinsAreLinks(members: map<string, Member>, bins: seq<ExternalBin>)
    ensures var r := ExternalMemberBins(members, bins); r.Some? ==> LinksOnly(r.value)
  {
    hide Portable, Below, BinNamespace;
    if bins != [] { ExternalMemberBinsAreLinks(members, bins[1..]); }
  }

  /** Each member's copy goes into its own namespace. */
  lemma {:induction false} MemberCopiesAre(members: seq<Member>, i: nat)
    requires MemberCopies(members).Some?
    ensures |MemberCopies(members).value| == |members|
    ensures i < |members| ==>
      && StoreKey(members[i].storeKey) && Portable(members[i].packageName)
      && MemberCopies(members).value[i]
         == Copy(members[i].packageTree, Below(Namespace(members[i].storeKey), members[i].packageName))
  {
    hide Portable, Below, Namespace, StoreKey;
    if members != [] {
      MemberCopiesAre(members[1..], if i > 0 then i - 1 else 0);
      if i > 0 { assert i < |members| ==> members[i] == members[1..][i - 1]; }
    }
  }

  lemma {:induction false} MembersDistinct(members: seq<Member>)
    requires MembersByKey(members).Some?
    ensures forall i | 0 <= i < |members| :: members[i].storeKey in MembersByKey(members).value
    ensures forall i, j | 0 <= i < j < |members| :: members[i].storeKey != members[j].storeKey
  {
    hide StoreKey, Portable;
    if members != [] {
      var n := |members| - 1;
      MembersDistinct(members[..n]);
      assert forall i | 0 <= i < n :: members[i] == members[..n][i];
    }
  }

  lemma SortedDistinct(members: seq<Member>, sorted: seq<Member>)
    requires MembersByKey(members).Some? && multiset(sorted) == multiset(members)
    ensures forall i, j | 0 <= i < j < |sorted| :: sorted[i].storeKey != sorted[j].storeKey
  {
    hide MembersByKey;
    MembersDistinct(members);
    DistinctPermutation(members, sorted);
    forall i, j | 0 <= i < j < |sorted|
      ensures sorted[i].storeKey != sorted[j].storeKey
    {
      assert sorted[i] in multiset(members) && sorted[j] in multiset(members);
      var m :| 0 <= m < |members| && members[m] == sorted[i];
      var n :| 0 <= n < |members| && members[n] == sorted[j];
    }
  }

  /** Links alone leave nothing to keep apart. */
  lemma LinksAreApart(acts: seq<Act>)
    requires LinksOnly(acts)
    ensures CopiesApart(acts)
  {
  }

  lemma ThenLinks(copies: seq<Act>, links: seq<Act>)
    requires CopiesApart(copies) && LinksOnly(links)
    ensures CopiesApart(copies + links)
  {
  }

  lemma BelowSomething(prefix: PlainPath, name: string)
    requires Portable(name)
    ensures Below(prefix, name) != [] && prefix <= Below(prefix, name)
  {
    hide Portable;
  }

  lemma EntryCopiesApart(o: EntryOptions)
    requires EntryActs(o).Some?
    ensures CopiesApart(EntryActs(o).value)
  {
    hide EntryActs, LinksOnly, Portable, Below;
    EntryIsOneCopy(o);
    BelowSomething(NODE_MODULES, o.packageName);
    var acts := EntryActs(o).value;
    assert acts == [acts[0]] + acts[1..];
    ThenLinks([acts[0]], acts[1..]);
  }

  lemma CopiesOfMembersApart(members: seq<Member>)
    requires MemberCopies(members).Some?
    requires forall i, j | 0 <= i < j < |members| :: members[i].storeKey != members[j].storeKey
    ensures CopiesApart(MemberCopies(members).value)
  {
    hide MemberCopies, Portable, StoreKey, Below, Namespace, Apart;
    var acts := MemberCopies(members).value;
    MemberCopiesAre(members, 0);
    forall j | 0 <= j < |acts|
      ensures acts[j].Copy? && acts[j].at != []
    {
      MemberCopiesAre(members, j);
      BelowSomething(Namespace(members[j].storeKey), members[j].packageName);
    }
    forall i, j | 0 <= i < j < |acts|
      ensures Apart(acts[i].at, acts[j].at)
    {
      MemberCopiesAre(members, i);
      MemberCopiesAre(members, j);
      MembersApart(members[i], members[j]);
    }
  }

  lemma MembersApart(a: Member, b: Member)
    requires StoreKey(a.storeKey) && StoreKey(b.storeKey) && a.storeKey != b.storeKey
    requires Portable(a.packageName) && Portable(b.packageName)
    ensures Apart(Below(Namespace(a.storeKey), a.packageName), Below(Namespace(b.storeKey), b.packageName))
  {
    hide Portable, StoreKey, Namespace;
    NamespacesApart(a.storeKey, b.storeKey, Components(a.packageName), Components(b.packageName));
    NamespacesApart(b.storeKey, a.storeKey, Components(b.packageName), Components(a.packageName));
  }

  /** The copies of a component's members never meet. */
  lemma SccCopiesApart(o: SccOptions, sorted: seq<Member>)
    requires SccActs(o, sorted).Some? && multiset(sorted) == multiset(o.members)
    ensures CopiesApart(SccActs(o, sorted).value)
  {
    hide MembersByKey, MemberCopies, InternalLinks, ExternalLinks, MemberBins, ExternalMemberBins, CopiesApart;
    var members := MembersByKey(o.members).value;
    SortedDistinct(o.members, sorted);
    CopiesOfMembersApart(sorted);
    InternalLinksAreLinks(members, o.internal);
    ExternalLinksAreLinks(members, o.external);
    MemberBinsAreLinks(members, o.bins);
    ExternalMemberBinsAreLinks(members, o.externalBins);
    var links := InternalLinks(members, o.internal).value + (ExternalLinks(members, o.external).value
      + (MemberBins(members, o.bins).value + ExternalMemberBins(members, o.externalBins).value));
    ThenLinks(MemberCopies(sorted).value, links);
  }

  // ----- What stands where -----

  ghost predicate HasMember(o: SccOptions, k: string) {
    exists m :: m in o.members && m.storeKey == k
  }

  /** What the arguments of a component must be; anything else is rejected before the disk is touched. */
  ghost predicate SccAccepts(o: SccOptions) {
    && o.members != [] && MembersAccepted(o.members)
    && (forall e | e in o.internal :: Portable(e.name) && HasMember(o, e.source) && HasMember(o, e.target))
    && (forall e | e in o.external ::
          Portable(e.link.name) && Portable(e.link.packageName) && HasMember(o, e.source))
    && (forall b | b in o.bins ::
          Portable(b.name) && Portable(b.executable) && HasMember(o, b.source) && HasMember(o, b.target))
    && (forall e | e in o.externalBins ::
          Portable(e.bin.name) && Portable(e.bin.executable) && HasMember(o, e.source))
  }

  /** Where a member's package stands in the component. */
  function PackageIn(root: Path, m: Member): Path {
    root + [m.storeKey, "node_modules"] + Components(m.packageName)
  }

  /**
   * Every member's tree stands in its own namespace. Each internal link stands in its source's namespace and leads to
   * the target's package, each external one into the entry declared for it, and so do the executables.
   */
  ghost predicate SccStands(resolve: RealPath, before: Nodes, stage: Path, after: Nodes, root: Path, o: SccOptions) {
    && (forall m | m in o.members :: CopiedFrom(resolve, before, stage, m.packageTree, after, PackageIn(root, m)))
    && (forall e, m | e in o.internal && m in o.members && m.storeKey == e.target ::
          LeadsWithin(resolve, before, stage, root, after, root + [e.source, "node_modules"] + Components(e.name),
                      [m.storeKey, "node_modules"] + Components(m.packageName)))
    && (forall e | e in o.external ::
          LeadsInto(resolve, before, stage, root, after, root + [e.source, "node_modules"] + Components(e.link.name),
                    e.link.entryDir, Components(e.link.packageName)))
    && (forall b, m | b in o.bins && m in o.members && m.storeKey == b.target ::
          LeadsWithin(resolve, before, stage, root, after,
                      root + [b.source, "node_modules", ".bin"] + Components(b.name),
                      [m.storeKey, "node_modules"] + Components(m.packageName) + Components(b.executable)))
    && (forall e | e in o.externalBins ::
          LeadsInto(resolve, before, stage, root, after,
                    root + [e.source, "node_modules", ".bin"] + Components(e.bin.name),
                    e.bin.entryDir, Components(e.bin.packageName) + Components(e.bin.executable)))
  }

  /** Beyond directories the component holds nothing else. */
  ghost predicate SccHolds(after: Nodes, root: Path, o: SccOptions) {
    forall p | p in after && root <= p && after[p] != Directory ::
      || (exists m :: m in o.members && PackageIn(root, m) <= p)
      || (exists e :: e in o.internal && p == root + [e.source, "node_modules"] + Components(e.name))
      || (exists e :: e in o.external && p == root + [e.source, "node_modules"] + Components(e.link.name))
      || (exists b :: b in o.bins && p == root + [b.source, "node_modules", ".bin"] + Components(b.name))
      || (exists e :: e in o.externalBins && p == root + [e.source, "node_modules", ".bin"] + Components(e.bin.name))
  }

  /** The steps of a component exist exactly for accepted arguments. */
  lemma SccActsIff(o: SccOptions, sorted: seq<Member>)
    requires multiset(sorted) == multiset(o.members)
    ensures SccActs(o, sorted).Some? <==> SccAccepts(o)
  {
    hide MembersByKey, MemberCopies, InternalLinks, ExternalLinks, MemberBins, ExternalMemberBins, Portable, StoreKey;
    MembersIff(o.members);
    if MembersByKey(o.members).Some? {
      SameMembers(o.members, sorted);
      MembersFound(o.members);
      var members := MembersByKey(o.members).value;
      forall k ensures k in members <==> HasMember(o, k) { }
      CopiesAreMembers(sorted);
      InternalLinksAre(members, o.internal);
      ExternalLinksAre(members, o.external);
      MemberBinsAre(members, o.bins);
      ExternalMemberBinsAre(members, o.externalBins);
      assert |members| < 1 <==> members == map[];
      if o.members != [] { assert o.members[0] in o.members; }
    }
  }

  lemma SameMembers<T>(a: seq<T>, b: seq<T>)
    requires multiset(a) == multiset(b)
    ensures forall x :: x in a <==> x in b
  {
    forall x ensures x in a <==> x in b { assert x in multiset(a) <==> x in multiset(b); }
  }

  /** An assembly that has succeeded, on a disk where no stage stood. */
  ghost predicate Succeeds(resolve: RealPath, nodes: Nodes, parent: PlainPath, output: string, stageName: string,
                           acts: seq<Act>) {
    && IsName(output) && IsName(stageName) && Assembles(resolve, nodes, parent, output, stageName, acts)
    && Rooted(nodes) && Vacant(nodes, parent + [stageName]) && CopiesApart(acts)
  }

  /** What the steps of a successful assembly leave in the output, step by step. */
  lemma StepStands(resolve: RealPath, nodes: Nodes, parent: PlainPath, output: string, stageName: string,
                   acts: seq<Act>, act: Act)
    requires Succeeds(resolve, nodes, parent, output, stageName, acts) && act in acts
    ensures var after := Assembled(resolve, nodes, parent, output, stageName, acts);
      var root, stage := parent + [output], parent + [stageName];
      && (act.Copy? ==> CopiedFrom(resolve, nodes, stage, act.source, after, root + act.at))
      && (act.AddLink? && act.aim.Within? && Clean(act.aim.rest) ==>
            LeadsWithin(resolve, nodes, stage, root, after, root + act.at, act.aim.rest))
      && (act.AddLink? && act.aim.Declared? ==>
            LeadsInto(resolve, nodes, stage, root, after, root + act.at, act.aim.tree, act.aim.rest))
  {
    hide Assembles, Assembled, CopiesApart, Rooted, Vacant, CopiedFrom, LeadsWithin, LeadsInto;
    match act
    case Copy(source, at) =>
      CopyStandsIn(resolve, nodes, parent, output, stageName, acts, source, at);
    case AddLink(at, aim) =>
      match aim {
        case Within(rest) =>
          if Clean(rest) { WithinLeads(resolve, nodes, parent, output, stageName, acts, at, rest); }
        case Declared(tree, rest) =>
          DeclaredLeads(resolve, nodes, parent, output, stageName, acts, at, tree, rest);
      }
  }

  lemma Joined(root: Path, a: Path, b: Path)
    ensures root + (a + b) == root + a + b
  {
  }

  lemma AtRoot(root: Path, a: Path)
    ensures root + ([] + a) == root + a
  {
    assert [] + a == a;
  }

  lemma PackagePlace(m: Member)
    requires StoreKey(m.storeKey) && Portable(m.packageName)
    ensures Clean([m.storeKey, "node_modules"] + Components(m.packageName))
  {
    SplitPlain(m.storeKey);
    PlainConcat([m.storeKey, "node_modules"], Components(m.packageName));
  }

  lemma SccCopyStands(resolve: RealPath, nodes: Nodes, parent: PlainPath, output: string, stageName: string,
                      o: SccOptions, sorted: seq<Member>, m: Member)
    requires SccActs(o, sorted).Some? && multiset(sorted) == multiset(o.members)
    requires Succeeds(resolve, nodes, parent, output, stageName, SccActs(o, sorted).value)
    requires m in o.members
    ensures var stage, root := parent + [stageName], parent + [output];
      var after := Assembled(resolve, nodes, parent, output, stageName, SccActs(o, sorted).value);
      CopiedFrom(resolve, nodes, stage, m.packageTree, after, PackageIn(root, m))
  {
    hide MembersByKey, MemberCopies, InternalLinks, ExternalLinks, MemberBins, ExternalMemberBins, Portable, StoreKey,
         Assembles, Rooted, Vacant, CopiesApart, Assembled, CopiedFrom, LeadsWithin, LeadsInto, Clean;
    var acts, root := SccActs(o, sorted).value, parent + [output];
    var members := MembersByKey(o.members).value;
    MembersFound(o.members);
    SameMembers(o.members, sorted);
    CopiesAreMembers(sorted);
    var act :| act in MemberCopies(sorted).value && IsMemberCopy(m, act);
    StepStands(resolve, nodes, parent, output, stageName, acts, act);
    Joined(root, [m.storeKey, "node_modules"], Components(m.packageName));
  }

  lemma SccInternalStands(resolve: RealPath, nodes: Nodes, parent: PlainPath, output: string, stageName: string,
                          o: SccOptions, sorted: seq<Member>, e: InternalEdge, m: Member)
    requires SccActs(o, sorted).Some? && multiset(sorted) == multiset(o.members)
    requires Succeeds(resolve, nodes, parent, output, stageName, SccActs(o, sorted).value)
    requires e in o.internal && m in o.members && m.storeKey == e.target
    ensures var stage, root := parent + [stageName], parent + [output];
      var after := Assembled(resolve, nodes, parent, output, stageName, SccActs(o, sorted).value);
      LeadsWithin(resolve, nodes, stage, root, after, root + [e.source, "node_modules"] + Components(e.name),
                  [m.storeKey, "node_modules"] + Components(m.packageName))
  {
    hide MembersByKey, MemberCopies, InternalLinks, ExternalLinks, MemberBins, ExternalMemberBins, Portable, StoreKey,
         Assembles, Rooted, Vacant, CopiesApart, Assembled, CopiedFrom, LeadsWithin, LeadsInto, Clean;
    var acts, root := SccActs(o, sorted).value, parent + [output];
    var members := MembersByKey(o.members).value;
    MembersFound(o.members);
    InternalLinksAre(members, o.internal);
    var act :| act in InternalLinks(members, o.internal).value && IsInternal(members, e, act);
    PackagePlace(m);
    StepStands(resolve, nodes, parent, output, stageName, acts, act);
    Joined(root, [e.source, "node_modules"], Components(e.name));
  }

  lemma SccExternalStands(resolve: RealPath, nodes: Nodes, parent: PlainPath, output: string, stageName: string,
                          o: SccOptions, sorted: seq<Member>, e: ExternalEdge)
    requires SccActs(o, sorted).Some? && multiset(sorted) == multiset(o.members)
    requires Succeeds(resolve, nodes, parent, output, stageName, SccActs(o, sorted).value)
    requires e in o.external
    ensures var stage, root := parent + [stageName], parent + [output];
      var after := Assembled(resolve, nodes, parent, output, stageName, SccActs(o, sorted).value);
      LeadsInto(resolve, nodes, stage, root, after, root + [e.source, "node_modules"] + Components(e.link.name),
                e.link.entryDir, Components(e.link.packageName))
  {
    hide MembersByKey, MemberCopies, InternalLinks, ExternalLinks, MemberBins, ExternalMemberBins, Portable, StoreKey,
         Assembles, Rooted, Vacant, CopiesApart, Assembled, CopiedFrom, LeadsWithin, LeadsInto, Clean;
    var acts, root := SccActs(o, sorted).value, parent + [output];
    var members := MembersByKey(o.members).value;
    MembersFound(o.members);
    ExternalLinksAre(members, o.external);
    var act :| act in ExternalLinks(members, o.external).value && IsExternal(e, act);
    StepStands(resolve, nodes, parent, output, stageName, acts, act);
    Joined(root, [e.source, "node_modules"], Components(e.link.name));
  }

  lemma SccBinStands(resolve: RealPath, nodes: Nodes, parent: PlainPath, output: string, stageName: string,
                     o: SccOptions, sorted: seq<Member>, b: MemberBin, m: Member)
    requires SccActs(o, sorted).Some? && multiset(sorted) == multiset(o.members)
    requires Succeeds(resolve, nodes, parent, output, stageName, SccActs(o, sorted).value)
    requires b in o.bins && m in o.members && m.storeKey == b.target
    ensures var stage, root := parent + [stageName], parent + [output];
      var after := Assembled(resolve, nodes, parent, output, stageName, SccActs(o, sorted).value);
      LeadsWithin(resolve, nodes, stage, root, after, root + [b.source, "node_modules", ".bin"] + Components(b.name),
                  [m.storeKey, "node_modules"] + Components(m.packageName) + Components(b.executable))
  {
    hide MembersByKey, MemberCopies, InternalLinks, ExternalLinks, MemberBins, ExternalMemberBins, Portable, StoreKey,
         Assembles, Rooted, Vacant, CopiesApart, Assembled, CopiedFrom, LeadsWithin, LeadsInto, Clean;
    var acts, root := SccActs(o, sorted).value, parent + [output];
    var members := MembersByKey(o.members).value;
    MembersFound(o.members);
    MemberBinsAre(members, o.bins);
    var act :| act in MemberBins(members, o.bins).value && IsMemberBin(members, b, act);
    ExecutablePlace(m, b.executable);
    StepStands(resolve, nodes, parent, output, stageName, acts, act);
    Joined(root, [b.source, "node_modules", ".bin"], Components(b.name));
  }

  lemma SccExternalBinStands(resolve: RealPath, nodes: Nodes, parent: PlainPath, output: string, stageName: string,
                             o: SccOptions, sorted: seq<Member>, e: ExternalBin)
    requires SccActs(o, sorted).Some? && multiset(sorted) == multiset(o.members)
    requires Succeeds(resolve, nodes, parent, output, stageName, SccActs(o, sorted).value)
    requires e in o.externalBins
    ensures var stage, root := parent + [stageName], parent + [output];
      var after := Assembled(resolve, nodes, parent, output, stageName, SccActs(o, sorted).value);
      LeadsInto(resolve, nodes, stage, root, after, root + [e.source, "node_modules", ".bin"] + Components(e.bin.name),
                e.bin.entryDir, Components(e.bin.packageName) + Components(e.bin.executable))
  {
    hide MembersByKey, MemberCopies, InternalLinks, ExternalLinks, MemberBins, ExternalMemberBins, Portable, StoreKey,
         Assembles, Rooted, Vacant, CopiesApart, Assembled, CopiedFrom, LeadsWithin, LeadsInto, Clean;
    var acts, root := SccActs(o, sorted).value, parent + [output];
    var members := MembersByKey(o.members).value;
    MembersFound(o.members);
    ExternalMemberBinsAre(members, o.externalBins);
    var act :| act in ExternalMemberBins(members, o.externalBins).value && IsExternalBin(e, act);
    StepStands(resolve, nodes, parent, output, stageName, acts, act);
    Joined(root, [e.source, "node_modules", ".bin"], Components(e.bin.name));
  }

  lemma SccTreeStands(resolve: RealPath, nodes: Nodes, parent: PlainPath, output: string, stageName: string,
                      o: SccOptions, sorted: seq<Member>)
    requires SccActs(o, sorted).Some? && multiset(sorted) == multiset(o.members)
    requires Succeeds(resolve, nodes, parent, output, stageName, SccActs(o, sorted).value)
    ensures SccStands(resolve, nodes, parent + [stageName],
                      Assembled(resolve, nodes, parent, output, stageName, SccActs(o, sorted).value),
                      parent + [output], o)
  {
    hide SccActs, Assembles, Rooted, Vacant, CopiesApart, Assembled, CopiedFrom, LeadsWithin, LeadsInto;
    var acts, root, stage := SccActs(o, sorted).value, parent + [output], parent + [stageName];
    var after := Assembled(resolve, nodes, parent, output, stageName, acts);
    forall m | m in o.members
      ensures CopiedFrom(resolve, nodes, stage, m.packageTree, after, PackageIn(root, m))
    {
      SccCopyStands(resolve, nodes, parent, output, stageName, o, sorted, m);
    }
    forall e, m | e in o.internal && m in o.members && m.storeKey == e.target
      ensures LeadsWithin(resolve, nodes, stage, root, after, root + [e.source, "node_modules"] + Components(e.name),
                          [m.storeKey, "node_modules"] + Components(m.packageName))
    {
      SccInternalStands(resolve, nodes, parent, output, stageName, o, sorted, e, m);
    }
    forall e | e in o.external
      ensures LeadsInto(resolve, nodes, stage, root, after,
                        root + [e.source, "node_modules"] + Components(e.link.name),
                        e.link.entryDir, Components(e.link.packageName))
    {
      SccExternalStands(resolve, nodes, parent, output, stageName, o, sorted, e);
    }
    forall b, m | b in o.bins && m in o.members && m.storeKey == b.target
      ensures LeadsWithin(resolve, nodes, stage, root, after,
                          root + [b.source, "node_modules", ".bin"] + Components(b.name),
                          [m.storeKey, "node_modules"] + Components(m.packageName) + Components(b.executable))
    {
      SccBinStands(resolve, nodes, parent, output, stageName, o, sorted, b, m);
    }
    forall e | e in o.externalBins
      ensures LeadsInto(resolve, nodes, stage, root, after,
                        root + [e.source, "node_modules", ".bin"] + Components(e.bin.name),
                        e.bin.entryDir, Components(e.bin.packageName) + Components(e.bin.executable))
    {
      SccExternalBinStands(resolve, nodes, parent, output, stageName, o, sorted, e);
    }
  }

  lemma ExecutablePlace(m: Member, executable: string)
    requires StoreKey(m.storeKey) && Portable(m.packageName) && Portable(executable)
    ensures Clean([m.storeKey, "node_modules"] + Components(m.packageName) + Components(executable))
  {
    PackagePlace(m);
    PlainConcat([m.storeKey, "node_modules"] + Components(m.packageName), Components(executable));
  }

  lemma SccTreeHolds(resolve: RealPath, nodes: Nodes, parent: PlainPath, output: string, stageName: string,
                     o: SccOptions, sorted: seq<Member>)
    requires multiset(sorted) == multiset(o.members) && SccActs(o, sorted).Some?
    requires Succeeds(resolve, nodes, parent, output, stageName, SccActs(o, sorted).value)
    ensures SccHolds(Assembled(resolve, nodes, parent, output, stageName, SccActs(o, sorted).value),
                     parent + [output], o)
  {
    hide MembersByKey, MemberCopies, InternalLinks, ExternalLinks, MemberBins, ExternalMemberBins, Portable, StoreKey,
         Assembled, Assembles, Rooted, CopiesApart;
    var acts, root := SccActs(o, sorted).value, parent + [output];
    var after := Assembled(resolve, nodes, parent, output, stageName, acts);
    var members := MembersByKey(o.members).value;
    SameMembers(o.members, sorted);
    MembersFound(o.members);
    CopiesAreMembers(sorted);
    InternalLinksAre(members, o.internal);
    ExternalLinksAre(members, o.external);
    MemberBinsAre(members, o.bins);
    ExternalMemberBinsAre(members, o.externalBins);
    OutputAccounted(resolve, nodes, parent, output, stageName, acts);
    forall p | p in after && root <= p && after[p] != Directory
      ensures
        || (exists m :: m in o.members && PackageIn(root, m) <= p)
        || (exists e :: e in o.internal && p == root + [e.source, "node_modules"] + Components(e.name))
        || (exists e :: e in o.external && p == root + [e.source, "node_modules"] + Components(e.link.name))
        || (exists b :: b in o.bins && p == root + [b.source, "node_modules", ".bin"] + Components(b.name))
        || (exists e ::
              e in o.externalBins && p == root + [e.source, "node_modules", ".bin"] + Components(e.bin.name))
    {
      var act :| act in acts && PlacedBy(act, root, p);
      StepOf(o, sorted, members, acts, act, root);
    }
  }

  lemma StepOf(o: SccOptions, sorted: seq<Member>, members: map<string, Member>, acts: seq<Act>, act: Act, root: Path)
    requires MembersByKey(o.members) == Some(members) && SccActs(o, sorted) == Some(acts) && act in acts
    requires multiset(sorted) == multiset(o.members)
    ensures
      || (exists m :: m in o.members && act.Copy? && root + act.at == PackageIn(root, m))
      || (exists e :: e in o.internal && act.AddLink?
            && root + act.at == root + [e.source, "node_modules"] + Components(e.name))
      || (exists e :: e in o.external && act.AddLink?
            && root + act.at == root + [e.source, "node_modules"] + Components(e.link.name))
      || (exists b :: b in o.bins && act.AddLink?
            && root + act.at == root + [b.source, "node_modules", ".bin"] + Components(b.name))
      || (exists e :: e in o.externalBins && act.AddLink?
            && root + act.at == root + [e.source, "node_modules", ".bin"] + Components(e.bin.name))
  {
    hide MembersByKey, MemberCopies, InternalLinks, ExternalLinks, MemberBins, ExternalMemberBins, Portable, StoreKey;
    SameMembers(o.members, sorted);
    MembersFound(o.members);
    CopiesAreMembers(sorted);
    InternalLinksAre(members, o.internal);
    ExternalLinksAre(members, o.external);
    MemberBinsAre(members, o.bins);
    ExternalMemberBinsAre(members, o.externalBins);
    if act in MemberCopies(sorted).value {
      var m :| m in sorted && IsMemberCopy(m, act);
      Joined(root, [m.storeKey, "node_modules"], Components(m.packageName));
    } else if act in InternalLinks(members, o.internal).value {
      var e :| e in o.internal && IsInternal(members, e, act);
      Joined(root, [e.source, "node_modules"], Components(e.name));
    } else if act in ExternalLinks(members, o.external).value {
      var e :| e in o.external && IsExternal(e, act);
      Joined(root, [e.source, "node_modules"], Components(e.link.name));
    } else if act in MemberBins(members, o.bins).value {
      var b :| b in o.bins && IsMemberBin(members, b, act);
      Joined(root, [b.source, "node_modules", ".bin"], Components(b.name));
    } else {
      var e :| e in o.externalBins && IsExternalBin(e, act);
      Joined(root, [e.source, "node_modules", ".bin"], Components(e.bin.name));
    }
  }

  // ----- Entries and views -----

  ghost predicate EntryLinksAccepted(links: seq<EntryLink>, seen: set<string>) {
    && (forall i | 0 <= i < |links| ::
          Portable(links[i].name) && Portable(links[i].packageName) && links[i].name !in seen)
    && (forall i, j | 0 <= i < j < |links| :: links[i].name != links[j].name)
  }

  ghost predicate EntryAccepts(o: EntryOptions) {
    && Portable(o.packageName) && EntryLinksAccepted(o.dependencies, {})
    && (forall bin | bin in o.bins :: Portable(bin.name) && Portable(bin.executable))
  }

  /** The package stands below node_modules, and beside it each dependency leads to the declared entry's package. */
  ghost predicate EntryStands(resolve: RealPath, before: Nodes, stage: Path, after: Nodes, root: Path,
                              o: EntryOptions) {
    && CopiedFrom(resolve, before, stage, o.packageTree, after, root + ["node_modules"] + Components(o.packageName))
    && (forall link | link in o.dependencies ::
          LeadsInto(resolve, before, stage, root, after, root + ["node_modules"] + Components(link.name),
                    link.entryDir, Components(link.packageName)))
    && (forall bin | bin in o.bins ::
          LeadsInto(resolve, before, stage, root, after, root + ["node_modules", ".bin"] + Components(bin.name),
                    bin.entryDir, Components(bin.packageName) + Components(bin.executable)))
  }

  ghost predicate EntryHolds(after: Nodes, root: Path, o: EntryOptions) {
    forall p | p in after && root <= p && after[p] != Directory ::
      || root + ["node_modules"] + Components(o.packageName) <= p
      || (exists link :: link in o.dependencies && p == root + ["node_modules"] + Components(link.name))
      || (exists bin :: bin in o.bins && p == root + ["node_modules", ".bin"] + Components(bin.name))
  }

  lemma EntryActsIff(o: EntryOptions)
    ensures EntryActs(o).Some? <==> EntryAccepts(o)
  {
    hide EntryLinks, BinLinks, Portable, Below;
    EntryLinksIff(NODE_MODULES, o.dependencies, {});
    BinLinksIff(BIN_DIRECTORY, o.bins);
  }

  lemma EntryTreeStands(resolve: RealPath, nodes: Nodes, parent: PlainPath, output: string, stageName: string,
                        o: EntryOptions)
    requires EntryActs(o).Some? && Succeeds(resolve, nodes, parent, output, stageName, EntryActs(o).value)
    ensures EntryStands(resolve, nodes, parent + [stageName],
                        Assembled(resolve, nodes, parent, output, stageName, EntryActs(o).value),
                        parent + [output], o)
  {
    hide EntryLinks, BinLinks, Portable, Assembles, Rooted, Vacant, CopiesApart, Assembled, CopiedFrom, LeadsWithin,
         LeadsInto;
    var acts, root := EntryActs(o).value, parent + [output];
    var stage := parent + [stageName];
    var after := Assembled(resolve, nodes, parent, output, stageName, acts);
    EntryLinksAre(NODE_MODULES, o.dependencies, {});
    BinLinksAre(BIN_DIRECTORY, o.bins);
    StepStands(resolve, nodes, parent, output, stageName, acts, acts[0]);
    Joined(root, ["node_modules"], Components(o.packageName));
    forall link | link in o.dependencies
      ensures LeadsInto(resolve, nodes, stage, root, after, root + ["node_modules"] + Components(link.name),
                        link.entryDir, Components(link.packageName))
    {
      var act :| act in EntryLinks(NODE_MODULES, o.dependencies, {}).value && IsEntryLink(NODE_MODULES, link, act);
      StepStands(resolve, nodes, parent, output, stageName, acts, act);
      Joined(root, ["node_modules"], Components(link.name));
    }
    forall bin | bin in o.bins
      ensures LeadsInto(resolve, nodes, stage, root, after, root + ["node_modules", ".bin"] + Components(bin.name),
                        bin.entryDir, Components(bin.packageName) + Components(bin.executable))
    {
      var act :| act in BinLinks(BIN_DIRECTORY, o.bins).value && IsBinLink(BIN_DIRECTORY, bin, act);
      StepStands(resolve, nodes, parent, output, stageName, acts, act);
      Joined(root, ["node_modules", ".bin"], Components(bin.name));
    }
  }

  lemma EntryTreeHolds(resolve: RealPath, nodes: Nodes, parent: PlainPath, output: string, stageName: string,
                       o: EntryOptions)
    requires EntryActs(o).Some? && Succeeds(resolve, nodes, parent, output, stageName, EntryActs(o).value)
    ensures EntryHolds(Assembled(resolve, nodes, parent, output, stageName, EntryActs(o).value), parent + [output], o)
  {
    hide EntryLinks, BinLinks, Portable, Assembles, Rooted, CopiesApart, Assembled;
    var acts, root := EntryActs(o).value, parent + [output];
    var after := Assembled(resolve, nodes, parent, output, stageName, acts);
    EntryLinksAre(NODE_MODULES, o.dependencies, {});
    BinLinksAre(BIN_DIRECTORY, o.bins);
    OutputAccounted(resolve, nodes, parent, output, stageName, acts);
    forall p | p in after && root <= p && after[p] != Directory
      ensures
        || root + ["node_modules"] + Components(o.packageName) <= p
        || (exists link :: link in o.dependencies && p == root + ["node_modules"] + Components(link.name))
        || (exists bin :: bin in o.bins && p == root + ["node_modules", ".bin"] + Components(bin.name))
    {
      var act :| act in acts && PlacedBy(act, root, p);
      Joined(root, ["node_modules"], Components(o.packageName));
      if act in EntryLinks(NODE_MODULES, o.dependencies, {}).value {
        var link :| link in o.dependencies && IsEntryLink(NODE_MODULES, link, act);
        Joined(root, ["node_modules"], Components(link.name));
      } else if act in BinLinks(BIN_DIRECTORY, o.bins).value {
        var bin :| bin in o.bins && IsBinLink(BIN_DIRECTORY, bin, act);
        Joined(root, ["node_modules", ".bin"], Components(bin.name));
      }
    }
  }

  ghost predicate ViewAccepts(o: ViewOptions) {
    && EntryLinksAccepted(o.links, {})
    && (forall i | 0 <= i < |o.workspaceLinks| :: Portable(o.workspaceLinks[i].name))
    && (forall i, j | 0 <= i < j < |o.workspaceLinks| :: o.workspaceLinks[i].name != o.workspaceLinks[j].name)
    && (forall i, j | 0 <= i < |o.links| && 0 <= j < |o.workspaceLinks| :: o.links[i].name != o.workspaceLinks[j].name)
    && (forall bin | bin in o.bins :: Portable(bin.name) && Portable(bin.executable))
  }

  /** Direct dependencies lead to their entries' packages, workspaces to their trees, executables into entries. */
  ghost predicate ViewStands(resolve: RealPath, before: Nodes, stage: Path, after: Nodes, root: Path, o: ViewOptions) {
    && (forall link | link in o.links ::
          LeadsInto(resolve, before, stage, root, after, root + Components(link.name), link.entryDir,
                    Components(link.packageName)))
    && (forall link | link in o.workspaceLinks ::
          LeadsInto(resolve, before, stage, root, after, root + Components(link.name), link.workspaceDir, []))
    && (forall bin | bin in o.bins ::
          LeadsInto(resolve, before, stage, root, after, root + [".bin"] + Components(bin.name), bin.entryDir,
                    Components(bin.packageName) + Components(bin.executable)))
  }

  ghost predicate ViewHolds(after: Nodes, root: Path, o: ViewOptions) {
    forall p | p in after && root <= p && after[p] != Directory ::
      after[p].Link?
      && (|| (exists link :: link in o.links && p == root + Components(link.name))
          || (exists link :: link in o.workspaceLinks && p == root + Components(link.name))
          || (exists bin :: bin in o.bins && p == root + [".bin"] + Components(bin.name)))
  }

  lemma ViewActsIff(o: ViewOptions)
    ensures ViewActs(o).Some? <==> ViewAccepts(o)
  {
    hide EntryLinks, WorkspaceLinks, BinLinks, Portable, Below;
    var names := set link | link in o.links :: link.name;
    EntryLinksIff([], o.links, {});
    WorkspaceLinksIff([], o.workspaceLinks, names);
    BinLinksIff([".bin"], o.bins);
    forall j | 0 <= j < |o.workspaceLinks|
      ensures o.workspaceLinks[j].name in names <==>
        exists i :: 0 <= i < |o.links| && o.links[i].name == o.workspaceLinks[j].name
    {
      if o.workspaceLinks[j].name in names {
        var link :| link in o.links && link.name == o.workspaceLinks[j].name;
        var i :| 0 <= i < |o.links| && o.links[i] == link;
      }
    }
  }

  lemma ViewTreeStands(resolve: RealPath, nodes: Nodes, parent: PlainPath, output: string, stageName: string,
                       o: ViewOptions)
    requires ViewActs(o).Some? && Succeeds(resolve, nodes, parent, output, stageName, ViewActs(o).value)
    ensures ViewStands(resolve, nodes, parent + [stageName],
                       Assembled(resolve, nodes, parent, output, stageName, ViewActs(o).value),
                       parent + [output], o)
  {
    hide EntryLinks, WorkspaceLinks, BinLinks, Portable, Assembles, Rooted, Vacant, CopiesApart, Assembled, LeadsWithin,
         LeadsInto;
    var acts, root := ViewActs(o).value, parent + [output];
    var stage := parent + [stageName];
    var after := Assembled(resolve, nodes, parent, output, stageName, acts);
    var names := set link | link in o.links :: link.name;
    EntryLinksAre([], o.links, {});
    WorkspaceLinksAre([], o.workspaceLinks, names);
    BinLinksAre([".bin"], o.bins);
    forall link | link in o.links
      ensures LeadsInto(resolve, nodes, stage, root, after, root + Components(link.name), link.entryDir,
                        Components(link.packageName))
    {
      var act :| act in EntryLinks([], o.links, {}).value && IsEntryLink([], link, act);
      StepStands(resolve, nodes, parent, output, stageName, acts, act);
      AtRoot(root, Components(link.name));
    }
    forall link | link in o.workspaceLinks
      ensures LeadsInto(resolve, nodes, stage, root, after, root + Components(link.name), link.workspaceDir, [])
    {
      var act :| act in WorkspaceLinks([], o.workspaceLinks, names).value && IsWorkspaceLink([], link, act);
      StepStands(resolve, nodes, parent, output, stageName, acts, act);
      AtRoot(root, Components(link.name));
    }
    forall bin | bin in o.bins
      ensures LeadsInto(resolve, nodes, stage, root, after, root + [".bin"] + Components(bin.name), bin.entryDir,
                        Components(bin.packageName) + Components(bin.executable))
    {
      var act :| act in BinLinks([".bin"], o.bins).value && IsBinLink([".bin"], bin, act);
      StepStands(resolve, nodes, parent, output, stageName, acts, act);
      Joined(root, [".bin"], Components(bin.name));
    }
  }

  lemma ViewTreeHolds(resolve: RealPath, nodes: Nodes, parent: PlainPath, output: string, stageName: string,
                      o: ViewOptions)
    requires ViewActs(o).Some? && Succeeds(resolve, nodes, parent, output, stageName, ViewActs(o).value)
    ensures ViewHolds(Assembled(resolve, nodes, parent, output, stageName, ViewActs(o).value), parent + [output], o)
  {
    hide ViewActs, Assembles, Rooted, Vacant, CopiesApart, Assembled;
    var acts, root := ViewActs(o).value, parent + [output];
    var after := Assembled(resolve, nodes, parent, output, stageName, acts);
    OutputAccounted(resolve, nodes, parent, output, stageName, acts);
    ViewIsLinks(o);
    ViewHoldsNoFiles(resolve, nodes, parent, output, stageName, acts);
    forall p | p in after && root <= p && after[p] != Directory
      ensures
        || (exists link :: link in o.links && p == root + Components(link.name))
        || (exists link :: link in o.workspaceLinks && p == root + Components(link.name))
        || (exists bin :: bin in o.bins && p == root + [".bin"] + Components(bin.name))
    {
      var act :| act in acts && PlacedBy(act, root, p);
      ViewStepOf(o, act, root);
    }
  }

  lemma ViewStepOf(o: ViewOptions, act: Act, root: Path)
    requires ViewActs(o).Some? && act in ViewActs(o).value
    ensures
      || (exists link :: link in o.links && root + act.at == root + Components(link.name))
      || (exists link :: link in o.workspaceLinks && root + act.at == root + Components(link.name))
      || (exists bin :: bin in o.bins && root + act.at == root + [".bin"] + Components(bin.name))
  {
    hide EntryLinks, WorkspaceLinks, BinLinks, Portable;
    var names := set link | link in o.links :: link.name;
    EntryLinksAre([], o.links, {});
    WorkspaceLinksAre([], o.workspaceLinks, names);
    BinLinksAre([".bin"], o.bins);
    if act in EntryLinks([], o.links, {}).value {
      var link :| link in o.links && IsEntryLink([], link, act);
      AtRoot(root, Components(link.name));
    } else if act in WorkspaceLinks([], o.workspaceLinks, names).value {
      var link :| link in o.workspaceLinks && IsWorkspaceLink([], link, act);
      AtRoot(root, Components(link.name));
    } else {
      var bin :| bin in o.bins && IsBinLink([".bin"], bin, act);
      Joined(root, [".bin"], Components(bin.name));
    }
  }

  method AssembleStoreView(disk: Disk, resolve: RealPath, parent: PlainPath, output: string, stageName: string,
                           o: ViewOptions)
    returns (ok: bool)
    requires IsName(output) && IsName(stageName) && output != stageName
    requires Rooted(disk.nodes) && Vacant(disk.nodes, parent + [stageName])
    modifies disk
    ensures ok <==>
      ViewActs(o).Some? && Assembles(resolve, old(disk.nodes), parent, output, stageName, ViewActs(o).value)
    ensures disk.nodes ==
      if ok then Assembled(resolve, old(disk.nodes), parent, output, stageName, ViewActs(o).value) else old(disk.nodes)
    ensures ViewActs(o).Some? <==> ViewAccepts(o)
    ensures ok ==> ViewStands(resolve, old(disk.nodes), parent + [stageName], disk.nodes, parent + [output], o)
    ensures ok ==> ViewHolds(disk.nodes, parent + [output], o)
    ensures ok ==> SameOutside(old(disk.nodes), disk.nodes, parent + [output])
  {
    hide ViewActs, Assembles, Assembled, LinksOnly, CopiesApart, ViewStands, ViewHolds, ViewAccepts, SameOutside;
    var acts := ViewActs(o);
    ViewActsIff(o);
    if acts.None? { return false; }
    ViewIsLinks(o);
    LinksAreApart(acts.value);
    ghost var before := disk.nodes;
    ok := disk.WithStaging(resolve, parent, output, stageName, acts.value);
    if ok {
      ViewTreeStands(resolve, before, parent, output, stageName, o);
      ViewTreeHolds(resolve, before, parent, output, stageName, o);
      OnlyOutputChanges(resolve, before, parent, output, stageName, acts.value);
    }
  }

  method AssembleStoreEntry(disk: Disk, resolve: RealPath, parent: PlainPath, output: string, stageName: string,
                            o: EntryOptions)
    returns (ok: bool)
    requires IsName(output) && IsName(stageName) && output != stageName
    requires Rooted(disk.nodes) && Vacant(disk.nodes, parent + [stageName])
    modifies disk
    ensures ok <==>
      EntryActs(o).Some? && Assembles(resolve, old(disk.nodes), parent, output, stageName, EntryActs(o).value)
    ensures disk.nodes ==
      if ok then Assembled(resolve, old(disk.nodes), parent, output, stageName, EntryActs(o).value) else old(disk.nodes)
    ensures EntryActs(o).Some? <==> EntryAccepts(o)
    ensures ok ==> EntryStands(resolve, old(disk.nodes), parent + [stageName], disk.nodes, parent + [output], o)
    ensures ok ==> EntryHolds(disk.nodes, parent + [output], o)
    ensures ok ==> SameOutside(old(disk.nodes), disk.nodes, parent + [output])
  {
    hide EntryActs, Assembles, Assembled, CopiesApart, EntryStands, EntryHolds, EntryAccepts, SameOutside;
    var acts := EntryActs(o);
    EntryActsIff(o);
    if acts.None? { return false; }
    EntryCopiesApart(o);
    ghost var before := disk.nodes;
    ok := disk.WithStaging(resolve, parent, output, stageName, acts.value);
    if ok {
      EntryTreeStands(resolve, before, parent, output, stageName, o);
      EntryTreeHolds(resolve, before, parent, output, stageName, o);
      OnlyOutputChanges(resolve, before, parent, output, stageName, acts.value);
    }
  }

  /** Members sorted by namespace, which are all different. */
  method SortMembers(members: seq<Member>) returns (sorted: seq<Member>)
    ensures multiset(sorted) == multiset(members)
    ensures Ascending(StoreKeys(sorted))
  {
    sorted := [];
    for i := 0 to |members|
      invariant multiset(sorted) == multiset(members[..i])
      invariant Ascending(StoreKeys(sorted))
    {
      var at := |sorted|;
      while at > 0 && Before(members[i].storeKey, sorted[at - 1].storeKey)
        invariant 0 <= at <= |sorted|
        invariant forall j | at <= j < |sorted| :: Before(members[i].storeKey, sorted[j].storeKey)
      {
        at := at - 1;
      }
      Inserted(sorted, at, members[i]);
      assert members[..i + 1] == members[..i] + [members[i]];
      assert sorted == sorted[..at] + sorted[at..];
      sorted := sorted[..at] + [members[i]] + sorted[at..];
    }
    assert members[..|members|] == members;
  }

  function StoreKeys(members: seq<Member>): seq<string> {
    seq(|members|, i requires 0 <= i < |members| => members[i].storeKey)
  }

  lemma Inserted(sorted: seq<Member>, at: nat, member: Member)
    requires at <= |sorted| && Ascending(StoreKeys(sorted))
    requires at > 0 ==> !Before(member.storeKey, sorted[at - 1].storeKey)
    requires forall j | at <= j < |sorted| :: Before(member.storeKey, sorted[j].storeKey)
    ensures Ascending(StoreKeys(sorted[..at] + [member] + sorted[at..]))
  {
    var keys := StoreKeys(sorted);
    InsertAscending(keys, at, member.storeKey);
    assert StoreKeys(sorted[..at] + [member] + sorted[at..]) == keys[..at] + [member.storeKey] + keys[at..];
  }

  method AssembleStoreScc(disk: Disk, resolve: RealPath, parent: PlainPath, output: string, stageName: string,
                          o: SccOptions)
    returns (ok: bool, sorted: seq<Member>)
    requires IsName(output) && IsName(stageName) && output != stageName
    requires Rooted(disk.nodes) && Vacant(disk.nodes, parent + [stageName])
    modifies disk
    ensures multiset(sorted) == multiset(o.members) && Ascending(StoreKeys(sorted))
    ensures ok <==>
      && SccActs(o, sorted).Some?
      && Assembles(resolve, old(disk.nodes), parent, output, stageName, SccActs(o, sorted).value)
    ensures disk.nodes ==
      if ok then Assembled(resolve, old(disk.nodes), parent, output, stageName, SccActs(o, sorted).value)
      else old(disk.nodes)
    ensures SccActs(o, sorted).Some? <==> SccAccepts(o)
    ensures ok ==> SccStands(resolve, old(disk.nodes), parent + [stageName], disk.nodes, parent + [output], o)
    ensures ok ==> SccHolds(disk.nodes, parent + [output], o)
    ensures ok ==> SameOutside(old(disk.nodes), disk.nodes, parent + [output])
  {
    hide SccActs, Assembles, Assembled, CopiesApart, SccStands, SccHolds, SccAccepts, SameOutside;
    sorted := SortMembers(o.members);
    var acts := SccActs(o, sorted);
    SccActsIff(o, sorted);
    if acts.None? { return false, sorted; }
    SccCopiesApart(o, sorted);
    ghost var before := disk.nodes;
    ok := disk.WithStaging(resolve, parent, output, stageName, acts.value);
    if ok {
      SccTreeStands(resolve, before, parent, output, stageName, o, sorted);
      SccTreeHolds(resolve, before, parent, output, stageName, o, sorted);
      OnlyOutputChanges(resolve, before, parent, output, stageName, acts.value);
    }
  }
}
