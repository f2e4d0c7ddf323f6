/**
 * POSIX path texts and what they denote, as Node's path.posix treats them: normalizing drops
 * empty and dot components and resolves parents; joining writes the parts with slashes between and normalizes.
 */
module PosixPaths {
  import opened Metadata

  // ----- Texts and components -----

  function Components(s: string): (parts: seq<string>)
    ensures |parts| > 0
  {
    if s == "" then [""]
    else
      var rest := Components(s[..|s| - 1]);
      var c := s[|s| - 1];
      if c == '/' then rest + [""] else rest[..|rest| - 1] + [rest[|rest| - 1] + [c]]
  }

  function JoinParts(parts: seq<string>): string {
    if parts == [] then ""
    else if |parts| == 1 then parts[0]
    else JoinParts(parts[..|parts| - 1]) + "/" + parts[|parts| - 1]
  }

  ghost predicate SlashFree(parts: seq<string>) {
    forall i | 0 <= i < |parts| :: '/' !in parts[i]
  }

  lemma {:induction false} SplitIsSlashFree(s: string)
    ensures SlashFree(Components(s))
  {
    if s != "" {
      SplitIsSlashFree(s[..|s| - 1]);
    }
  }

  lemma {:induction false} SplitAppends(s: string, t: string)
    requires '/' !in t
    ensures var parts := Components(s); Components(s + t) == parts[..|parts| - 1] + [parts[|parts| - 1] + t]
  {
    var parts := Components(s);
    if t == "" {
      assert s + t == s;
      assert parts[|parts| - 1] + t == parts[|parts| - 1];
    } else {
      var n := |t| - 1;
      assert (s + t)[..|s + t| - 1] == s + t[..n];
      SplitAppends(s, t[..n]);
      assert parts[|parts| - 1] + t[..n] + [t[n]] == parts[|parts| - 1] + t;
    }
  }

  lemma SplitSnoc(s: string, c: char)
    ensures var parts := Components(s);
      Components(s + [c]) == if c == '/' then parts + [""] else parts[..|parts| - 1] + [parts[|parts| - 1] + [c]]
  {
    assert (s + [c])[..|s|] == s;
  }

  lemma LastOfConcat(a: seq<string>, b: seq<string>, c: char)
    requires b != []
    ensures var both := a + b;
      both[..|both| - 1] + [both[|both| - 1] + [c]] == a + (b[..|b| - 1] + [b[|b| - 1] + [c]])
  {
  }

  lemma {:induction false} SplitConcat(s: string, t: string)
    ensures Components(s + "/" + t) == Components(s) + Components(t)
  {
    hide Components;
    if t == "" {
      SplitSnoc(s, '/');
      assert s + "/" + t == s + ['/'];
      SplitNothing();
    } else {
      var n := |t| - 1;
      var front := s + "/" + t[..n];
      assert s + "/" + t == front + [t[n]] && t == t[..n] + [t[n]];
      SplitConcat(s, t[..n]);
      SplitSnoc(front, t[n]);
      SplitSnoc(t[..n], t[n]);
      LastOfConcat(Components(s), Components(t[..n]), t[n]);
      if t[n] == '/' {
        assert Components(s) + Components(t[..n]) + [""] == Components(s) + (Components(t[..n]) + [""]);
      }
    }
  }

  lemma SplitNothing()
    ensures Components("") == [""]
  {
  }

  lemma SplitPlain(t: string)
    requires '/' !in t
    ensures Components(t) == [t]
  {
    SplitAppends("", t);
    assert "" + t == t;
  }

  /** Splitting undoes joining. */
  lemma {:induction false} SplitOfJoin(parts: seq<string>)
    requires SlashFree(parts) && parts != []
    ensures Components(JoinParts(parts)) == parts
  {
    var n := |parts| - 1;
    SplitPlain(parts[n]);
    if n == 0 {
      assert parts == [parts[0]];
    } else {
      SplitOfJoin(parts[..n]);
      SplitConcat(JoinParts(parts[..n]), parts[n]);
      assert parts == parts[..n] + [parts[n]];
    }
  }

  // ----- Normal form -----

  function NormalParts(parts: seq<string>, allowAbove: bool): seq<string> {
    if parts == [] then []
    else
      var stack := NormalParts(parts[..|parts| - 1], allowAbove);
      var part := parts[|parts| - 1];
      if part == "" || part == "." then stack
      else if part != ".." then stack + [part]
      else if stack != [] && stack[|stack| - 1] != ".." then stack[..|stack| - 1]
      else if allowAbove then stack + [".."]
      else stack
  }

  predicate IsAbsolute(s: string) {
    "/" <= s
  }

  function Render(parts: seq<string>, absolute: bool, trailing: bool): string {
    if parts == [] then (if absolute then "/" else if trailing then "./" else ".")
    else (if absolute then "/" else "") + JoinParts(parts) + (if trailing then "/" else "")
  }

  function Normalize(s: string): string {
    if s == "" then "."
    else Render(NormalParts(Components(s), !IsAbsolute(s)), IsAbsolute(s), s[|s| - 1] == '/')
  }

  /** Joining two segments and normalizing; an empty segment does not count. */
  function PathJoin(a: string, b: string): string {
    if a == "" then (if b == "" then "." else Normalize(b))
    else if b == "" then Normalize(a) else Normalize(a + "/" + b)
  }

  /** Plain names, after leading steps up if those are allowed. */
  ghost predicate IsNormal(parts: seq<string>, allowAbove: bool) {
    && (forall i | 0 <= i < |parts| :: parts[i] != "" && parts[i] != "." && '/' !in parts[i])
    && (forall i, j | 0 <= i < j < |parts| && parts[j] == ".." :: parts[i] == "..")
    && (!allowAbove ==> ".." !in parts)
  }

  lemma {:induction false} NormalPartsAreNormal(parts: seq<string>, allowAbove: bool)
    requires SlashFree(parts)
    ensures IsNormal(NormalParts(parts, allowAbove), allowAbove)
  {
    if parts != [] {
      NormalPartsAreNormal(parts[..|parts| - 1], allowAbove);
    }
  }

  lemma {:induction false} NormalIsFixed(parts: seq<string>, allowAbove: bool)
    requires IsNormal(parts, allowAbove)
    ensures NormalParts(parts, allowAbove) == parts
  {
    if parts != [] {
      var n := |parts| - 1;
      NormalIsFixed(parts[..n], allowAbove);
      assert parts[..n] + [parts[n]] == parts;
    }
  }

  lemma {:induction false} EmptyPartsDropped(parts: seq<string>, allowAbove: bool)
    ensures NormalParts([""] + parts, allowAbove) == NormalParts(parts, allowAbove)
    ensures NormalParts(parts + [""], allowAbove) == NormalParts(parts, allowAbove)
  {
    assert (parts + [""])[..|parts|] == parts;
    if parts == [] {
      assert [""] + parts == [""] && [""][..0] == [];
    } else {
      var n := |parts| - 1;
      assert ([""] + parts)[..n + 1] == [""] + parts[..n];
      EmptyPartsDropped(parts[..n], allowAbove);
    }
  }

  /** What a rendered normal path splits into, ignoring empty components. */
  lemma RenderedParts(parts: seq<string>, absolute: bool, trailing: bool)
    requires IsNormal(parts, !absolute)
    ensures NormalParts(Components(Render(parts, absolute, trailing)), !absolute) == parts
    ensures Render(parts, absolute, trailing) != "" && IsAbsolute(Render(parts, absolute, trailing)) == absolute
  {
    hide NormalParts, Components, JoinParts;
    if parts == [] {
      DotParts(!absolute);
      assert "."[0] != '/' && "./"[0] != '/';
    } else {
      SplitOfJoin(parts);
      NormalIsFixed(parts, !absolute);
      JoinStart(parts);
      SlashesAround(JoinParts(parts), absolute, trailing);
    }
  }

  lemma SlashesAround(body: string, absolute: bool, trailing: bool)
    requires body != "" && !IsAbsolute(body)
    ensures var text := (if absolute then "/" else "") + body + (if trailing then "/" else "");
      && NormalParts(Components(text), !absolute) == NormalParts(Components(body), !absolute)
      && text != "" && IsAbsolute(text) == absolute
  {
    hide NormalParts, Components;
    SlashesDropped(body, !absolute);
    SlashesDropped("/" + body, !absolute);
    assert "" + body == body && body + "" == body && "/" + body + "" == "/" + body && "" + body + "/" == body + "/";
  }

  lemma SlashesDropped(s: string, allowAbove: bool)
    ensures NormalParts(Components("/" + s), allowAbove) == NormalParts(Components(s), allowAbove)
    ensures NormalParts(Components(s + "/"), allowAbove) == NormalParts(Components(s), allowAbove)
  {
    hide NormalParts;
    SplitConcat("", s);
    SplitConcat(s, "");
    assert "" + "/" + s == "/" + s && s + "/" + "" == s + "/";
    EmptyPartsDropped(Components(s), allowAbove);
  }

  lemma JoinStart(parts: seq<string>)
    requires parts != [] && parts[0] != "" && '/' !in parts[0]
    ensures JoinParts(parts) != "" && JoinParts(parts)[0] == parts[0][0] && !IsAbsolute(JoinParts(parts))
  {
    if |parts| > 1 { JoinStart(parts[..|parts| - 1]); }
    assert parts[0][0] in parts[0];
  }

  lemma DotParts(allowAbove: bool)
    ensures NormalParts(Components("/"), allowAbove) == [] && NormalParts(Components("."), allowAbove) == []
    ensures NormalParts(Components("./"), allowAbove) == []
  {
    DotSplits();
    assert ["", ""][..1] == [""] && [""][..0] == [] && ["."][..0] == [] && [".", ""][..1] == ["."];
    assert NormalParts([""], allowAbove) == [] && NormalParts(["."], allowAbove) == [];
  }

  lemma {:induction false} JoinEnd(parts: seq<string>)
    requires parts != [] && parts[|parts| - 1] != "" && '/' !in parts[|parts| - 1]
    ensures JoinParts(parts) != "" && JoinParts(parts)[|JoinParts(parts)| - 1] != '/'
  {
    var last := parts[|parts| - 1];
    assert last[|last| - 1] in last;
  }

  lemma RenderEnd(parts: seq<string>, absolute: bool, trailing: bool)
    requires IsNormal(parts, !absolute)
    ensures var text := Render(parts, absolute, trailing);
      (parts != [] || !absolute) ==> (text[|text| - 1] == '/' <==> trailing)
  {
    if parts != [] { JoinEnd(parts); }
  }

  /** Normalizing twice changes nothing more. */
  lemma NormalizeIdempotent(s: string)
    ensures Normalize(Normalize(s)) == Normalize(s)
  {
    if s == "" {
      DotParts(true);
    } else {
      var absolute, trailing := IsAbsolute(s), s[|s| - 1] == '/';
      var parts := NormalParts(Components(s), !absolute);
      SplitIsSlashFree(s);
      NormalPartsAreNormal(Components(s), !absolute);
      RenderedParts(parts, absolute, trailing);
      RenderEnd(parts, absolute, trailing);
    }
  }

  // ----- What a path denotes -----

  /** Walking a path from a directory; a step up from the root stays there. */
  function Walk(from: seq<string>, parts: seq<string>): seq<string> {
    if parts == [] then from
    else
      var here := Walk(from, parts[..|parts| - 1]);
      var part := parts[|parts| - 1];
      if part == "" || part == "." then here
      else if part != ".." then here + [part]
      else if here == [] then here
      else here[..|here| - 1]
  }

  /** The normal form leads where the path leads, from anywhere; an absolute one starts at the root. */
  lemma {:induction false} NormalLeadsThere(from: seq<string>, parts: seq<string>, allowAbove: bool)
    requires allowAbove || from == []
    ensures Walk(from, NormalParts(parts, allowAbove)) == Walk(from, parts)
  {
    if parts != [] {
      var stack := NormalParts(parts[..|parts| - 1], allowAbove);
      var part := parts[|parts| - 1];
      NormalLeadsThere(from, parts[..|parts| - 1], allowAbove);
      assert (stack + [part])[..|stack|] == stack;
      if stack != [] { KeptNames(parts[..|parts| - 1], allowAbove, |stack| - 1); }
      if part == ".." && stack != [] && stack[|stack| - 1] != ".." {
        var below := Walk(from, stack[..|stack| - 1]);
        assert Walk(from, stack) == below + [stack[|stack| - 1]];
        assert (below + [stack[|stack| - 1]])[..|below|] == below;
      }
    }
  }

  lemma {:induction false} KeptNames(parts: seq<string>, allowAbove: bool, i: nat)
    requires i < |NormalParts(parts, allowAbove)|
    ensures NormalParts(parts, allowAbove)[i] != "" && NormalParts(parts, allowAbove)[i] != "."
    ensures !allowAbove ==> NormalParts(parts, allowAbove)[i] != ".."
  {
    if parts != [] {
      var stack := NormalParts(parts[..|parts| - 1], allowAbove);
      if i < |stack| { KeptNames(parts[..|parts| - 1], allowAbove, i); }
    }
  }

  /** Names entered minus steps up. */
  function Level(parts: seq<string>): int {
    if parts == [] then 0
    else
      var part := parts[|parts| - 1];
      Level(parts[..|parts| - 1]) + (if part == "" || part == "." then 0 else if part == ".." then -1 else 1)
  }

  ghost predicate Leaves(parts: seq<string>) {
    exists k :: 0 <= k <= |parts| && Level(parts[..k]) < 0
  }

  /**
   * The normal form starts with a step up exactly when the path at some point leaves its start; otherwise only names
   * remain.
   */
  lemma {:induction false} LeavesIff(parts: seq<string>)
    ensures var stack := NormalParts(parts, true);
      && (Leaves(parts) <==> stack != [] && stack[0] == "..")
      && (!Leaves(parts) ==> ".." !in stack && |stack| == Level(parts))
  {
    if parts == [] {
      assert parts[..0] == [];
    } else {
      var n := |parts| - 1;
      var before := parts[..n];
      LeavesIff(before);
      LeavesStep(parts);
      var stack := NormalParts(before, true);
      if Leaves(before) {
        UpsStayFirst(before, parts[n]);
      } else if parts[n] == ".." {
        assert stack != [] ==> stack[|stack| - 1] in stack;
      }
    }
  }

  lemma LeavesStep(parts: seq<string>)
    requires parts != []
    ensures Leaves(parts) <==> Leaves(parts[..|parts| - 1]) || Level(parts) < 0
  {
    hide Level;
    var before := parts[..|parts| - 1];
    assert parts[..|parts|] == parts;
    forall k | 0 <= k <= |before|
      ensures before[..k] == parts[..k]
    {
    }
    assert forall k | 0 <= k <= |parts| :: k <= |before| || parts[..k] == parts;
    if Leaves(before) {
      var k :| 0 <= k <= |before| && Level(before[..k]) < 0;
      assert Level(parts[..k]) < 0;
    }
    if Leaves(parts) {
      var k :| 0 <= k <= |parts| && Level(parts[..k]) < 0;
      assert k <= |before| ==> Level(before[..k]) < 0;
    }
  }

  lemma UpsStayFirst(parts: seq<string>, part: string)
    requires NormalParts(parts, true) != [] && NormalParts(parts, true)[0] == ".."
    ensures var stack := NormalParts(parts + [part], true); stack != [] && stack[0] == ".."
  {
    assert (parts + [part])[..|parts|] == parts;
  }

  lemma {:induction false} WalkConcat(from: seq<string>, a: seq<string>, b: seq<string>)
    ensures Walk(from, a + b) == Walk(Walk(from, a), b)
  {
    if b == [] {
      assert a + b == a;
    } else {
      assert (a + b)[..|a + b| - 1] == a + b[..|b| - 1];
      WalkConcat(from, a, b[..|b| - 1]);
    }
  }

  /** The text starts with a step up. */
  predicate StepsUp(s: string) {
    s == ".." || "../" <= s
  }

  lemma StepsUpIff(s: string)
    ensures StepsUp(s) <==> Components(s)[0] == ".."
  {
    var slash := IndexOf(s, '/');
    if slash == -1 {
      SplitPlain(s);
      UpHasSlash(s);
    } else {
      var a, b := s[..slash], s[slash + 1..];
      assert s == a + "/" + b;
      SplitConcat(a, b);
      SplitPlain(a);
      UpPrefix(a, b);
    }
  }

  lemma UpHasSlash(s: string)
    ensures "../" <= s ==> '/' in s
  {
    if "../" <= s { assert s[2] == '/'; }
  }

  lemma UpPrefix(a: string, b: string)
    requires '/' !in a
    ensures StepsUp(a + "/" + b) <==> a == ".."
  {
    var s := a + "/" + b;
    assert s[|a|] == '/';
    if a == ".." { assert s[..3] == "../"; }
    if "../" <= s {
      assert s[0] == '.' && s[1] == '.' && s[2] == '/';
      assert |a| <= 2;
      assert forall i | 0 <= i < |a| :: s[i] == a[i];
      assert |a| == 2;
      assert a == "..";
    }
  }

  /** A rendered normal path consists of its parts and empty or dot components. */
  lemma RenderedSplit(parts: seq<string>, absolute: bool, trailing: bool)
    requires IsNormal(parts, !absolute)
    ensures var split := Components(Render(parts, absolute, trailing));
      && (forall c | c in split :: c in parts || c == "" || c == ".")
      && (!absolute && parts != [] ==> split[0] == parts[0])
      && (absolute || parts == [] ==> split[0] != "..")
  {
    hide Components, JoinParts;
    if parts == [] {
      DotSplits();
    } else {
      var body := JoinParts(parts);
      SplitOfJoin(parts);
      SplitConcat("", body);
      SplitConcat(body, "");
      SplitConcat("", body + "/");
      SplitPlain("");
      assert "" + "/" + body == "/" + body && body + "/" + "" == body + "/";
      assert "" + "/" + (body + "/") == "/" + body + "/";
      assert "" + body == body && body + "" == body && "/" + body + "" == "/" + body && "" + body + "/" == body + "/";
      assert forall c | c in parts + [""] :: c in parts || c == "";
    }
  }

  lemma DotSplits()
    ensures Components("/") == ["", ""] && Components(".") == ["."] && Components("./") == [".", ""]
  {
    hide Components;
    assert '/' !in "." && '/' !in "";
    SplitPlain(".");
    SplitPlain("");
    SplitConcat(".", "");
    SplitConcat("", "");
    assert "" + "/" + "" == "/" && "." + "/" + "" == "./";
  }
}
