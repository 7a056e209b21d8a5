/**
 * The code generator: renders an icon's `Vector` as the text of a Kotlin
 * source file holding a memoised `ImageVector` property.
 *
 * The functions give the text each piece renders to; the methods build the
 * same text step by step in a string builder, as the generator does, and are
 * proved to produce it.
 */
module ImageVectorGenerator {
  import opened Strings
  import opened IconTheme
  import opened Vector

  // ---------------------------------------------------------------------------
  // Specification of the emitted text

  /**
   * `getBackingProperty`: "_", then the icon name with only its first
   * character lower-cased by the platform; the rest is kept as it is.
   */
  function BackingProperty(iconName: string, pf: Platform): (r: string)
    ensures |r| >= 1 && r[0] == '_'
    ensures iconName == [] ==> r == "_"
    ensures iconName != [] ==>
      var low := pf.lowercase(iconName[0]);
      |r| == |low| + |iconName| && r[1..1 + |low|] == low && r[1 + |low|..] == iconName[1..]
  {
    "_" + (if iconName == [] then [] else pf.lowercase(iconName[0]) + iconName[1..])
  }

  function PackageLine(theme: IconTheme): string {
    "package " + PackageName(theme) + "\n\n"
  }

  function BackingDeclaration(backing: string): string {
    "\nprivate var " + backing + ": ImageVector? = null\n"
  }

  function FillAlphaParameter(p: Path, pf: Platform): string {
    "fillAlpha = " + pf.formatFloat(p.fillAlpha) + "f"
  }

  function StrokeAlphaParameter(p: Path, pf: Platform): string {
    "strokeAlpha = " + pf.formatFloat(p.strokeAlpha) + "f"
  }

  /** `listOfNotNull(…)`: the alpha parameters, fill alpha first. */
  function ParameterList(p: Path, pf: Platform): seq<string> {
    (if IsOne(pf, p.fillAlpha) then [] else [FillAlphaParameter(p, pf)]) +
    (if IsOne(pf, p.strokeAlpha) then [] else [StrokeAlphaParameter(p, pf)])
  }

  /** An alpha is passed exactly when it is not one, and fill alpha comes first. */
  lemma ParameterListContents(p: Path, pf: Platform)
    ensures FillAlphaParameter(p, pf) in ParameterList(p, pf) <==> !IsOne(pf, p.fillAlpha)
    ensures StrokeAlphaParameter(p, pf) in ParameterList(p, pf) <==> !IsOne(pf, p.strokeAlpha)
    ensures |ParameterList(p, pf)| == (if IsOne(pf, p.fillAlpha) then 0 else 1) + (if IsOne(pf, p.strokeAlpha) then 0 else 1)
    ensures !IsOne(pf, p.fillAlpha) ==> ParameterList(p, pf)[0] == FillAlphaParameter(p, pf)
  {
    assert FillAlphaParameter(p, pf)[0] != StrokeAlphaParameter(p, pf)[0];
  }

  /** The parenthesised, comma-separated parameters, or nothing when there are none. */
  function Parameters(p: Path, pf: Platform): (r: string)
    ensures r == "" <==> IsOne(pf, p.fillAlpha) && IsOne(pf, p.strokeAlpha)
    ensures r != "" ==> |r| >= 2 && r[0] == '(' && r[|r| - 1] == ')'
  {
    var ps := ParameterList(p, pf);
    ParameterListContents(p, pf);
    if |ps| > 0 then "(" + Join(ps, ", ") + ")" else ""
  }

  /** The opening line of a path block. */
  function PathHeader(p: Path, pf: Platform): string {
    "MaterialPath" + Parameters(p, pf) + " {\n"
  }

  /** The header is the bare `MaterialPath {` exactly when both alphas are one. */
  lemma BareHeaderIff(p: Path, pf: Platform)
    ensures PathHeader(p, pf) == "MaterialPath {\n" <==> IsOne(pf, p.fillAlpha) && IsOne(pf, p.strokeAlpha)
  {
    var r := PathHeader(p, pf);
    ParameterListContents(p, pf);
    assert Parameters(p, pf) != "" ==> r[12] == '(';
  }

  /** The path's drawing calls, one per node, separated by newlines. */
  function PathBody(p: Path, pf: Platform): string {
    Join(Calls(p.nodes, pf), "\n")
  }

  function Calls(nodes: seq<PathNode>, pf: Platform): (r: seq<string>)
    ensures |r| == |nodes| && forall i :: 0 <= i < |nodes| ==> r[i] == pf.asFunctionCall(nodes[i])
  {
    seq(|nodes|, i requires 0 <= i < |nodes| => pf.asFunctionCall(nodes[i]))
  }

  /** What `addPath` returns for a given body. */
  function PathText(p: Path, body: string, pf: Platform): (r: string)
    ensures var h := PathHeader(p, pf);
      |r| == |h| + |body| + 2 && r[..|h|] == h && r[|h|..|h| + |body|] == body && r[|r| - 2..] == "}\n"
  {
    PathHeader(p, pf) + body + "}\n"
  }

  function RenderPath(p: Path, pf: Platform): string {
    PathText(p, PathBody(p, pf), pf)
  }

  /** The paths' blocks one after another. */
  function RenderPaths(ps: seq<Path>, pf: Platform): string
    decreases |ps|
  {
    if ps == [] then "" else RenderPaths(ps[..|ps| - 1], pf) + RenderPath(ps[|ps| - 1], pf)
  }

  /** What `addRecursively` returns. */
  function RenderNode(n: VectorNode, pf: Platform): (r: string)
    ensures n.Group? ==> |r| >= 10 && r[..8] == "group (\n" && r[|r| - 2..] == ")\n"
    ensures n.PathLeaf? ==> |r| >= 17 && r[..12] == "MaterialPath" && r[|r| - 2..] == "}\n"
  {
    match n
    case Group(ps) => "group (\n" + RenderPaths(ps, pf) + ")\n"
    case PathLeaf(p) => RenderPath(p, pf)
  }

  /** The nodes' renderings one after another. */
  function RenderNodes(ns: seq<VectorNode>, pf: Platform): string
    decreases |ns|
  {
    if ns == [] then "" else RenderNodes(ns[..|ns| - 1], pf) + RenderNode(ns[|ns| - 1], pf)
  }

  /** The line that returns the memoised icon when there is one. */
  function GuardLine(backing: string): string {
    "if (" + backing + " != null) return " + backing + "!!\n"
  }

  /** The line that starts building the icon, named after the theme's enum constant and the icon. */
  function StartLine(backing: string, iconName: string, theme: IconTheme): string {
    backing + " = MaterialIcon(name = \"" + Name(theme) + "." + iconName + "\") {\n"
  }

  function ReturnLine(backing: string): string {
    "return " + backing + "!!\n"
  }

  /** What `iconGetter` returns, given the renderings of the root nodes. */
  function GetterText(backing: string, iconName: string, theme: IconTheme, body: string): (r: string)
    ensures var g := GuardLine(backing); |g| <= |r| && r[..|g|] == g
    ensures var t := ReturnLine(backing); |t| <= |r| && r[|r| - |t|..] == t
  {
    var guard := GuardLine(backing);
    var start := StartLine(backing, iconName, theme);
    var ret := ReturnLine(backing);
    Slices5(guard + start + body + "}\n" + ret, guard, start, body, "}\n", ret);
    guard + start + body + "}\n" + ret
  }

  /** The declaration of the public property and the opening of its getter. */
  function PropertyHead(iconName: string): string {
    "val " + iconName + ": ImageVector\n" + "    get() {\n"
  }

  /**
   * What `createFileSpec` returns: it opens with the package line, follows it with the
   * declaration of the public property and its getter, and closes with the backing declaration.
   */
  function FileSpec(iconName: string, theme: IconTheme, v: Vector, pf: Platform): (r: string)
    ensures var h := PackageLine(theme); |h| <= |r| && r[..|h|] == h
    ensures var h := PackageLine(theme); var p := PropertyHead(iconName);
      |h| + |p| <= |r| && r[|h|..|h| + |p|] == p
    ensures var d := BackingDeclaration(BackingProperty(iconName, pf)); |d| <= |r| && r[|r| - |d|..] == d
  {
    var backing := BackingProperty(iconName, pf);
    var h := PackageLine(theme);
    var p := PropertyHead(iconName);
    var getter := GetterText(backing, iconName, theme, RenderNodes(v.nodes, pf));
    var d := BackingDeclaration(backing);
    var m := getter + "    }\n";
    Slices4(h + p + m + d, h, p, m, d);
    h + p + m + d
  }

  lemma RenderPathsSnoc(ps: seq<Path>, i: nat, pf: Platform)
    requires i < |ps|
    ensures RenderPaths(ps[..i + 1], pf) == RenderPaths(ps[..i], pf) + RenderPath(ps[i], pf)
  {
    assert ps[..i + 1][..i] == ps[..i];
  }

  lemma RenderNodesSnoc(ns: seq<VectorNode>, i: nat, pf: Platform)
    requires i < |ns|
    ensures RenderNodes(ns[..i + 1], pf) == RenderNodes(ns[..i], pf) + RenderNode(ns[i], pf)
  {
    assert ns[..i + 1][..i] == ns[..i];
  }

  // ---------------------------------------------------------------------------
  // The generator as written: string builders

  /** `addPath`: header, the body the caller supplies, closing brace. */
  method AddPath(path: Path, pathBody: string, pf: Platform) returns (s: string)
    ensures s == PathText(path, pathBody, pf)
  {
    var builder := "";
    var parameterList := ParameterList(path, pf);
    var parameters := if |parameterList| > 0 then "(" + Join(parameterList, ", ") + ")" else "";
    builder := builder + ("MaterialPath" + parameters + " {\n");
    assert builder == PathHeader(path, pf);
    builder := builder + pathBody;
    builder := builder + "}\n";
    s := builder;
  }

  /** `addRecursively`: a group wraps its paths' blocks; a path becomes one block. */
  method AddRecursively(node: VectorNode, pf: Platform) returns (s: string)
    ensures s == RenderNode(node, pf)
    decreases if node.Group? then 1 else 0
  {
    var builder := "";
    match node {
      case Group(paths) =>
        builder := builder + "group (\n";
        assert builder == "group (\n";
        ghost var head := builder;
        var i := 0;
        while i < |paths|
          invariant 0 <= i <= |paths|
          invariant builder == head + RenderPaths(paths[..i], pf)
        {
          var t := AddRecursively(PathLeaf(paths[i]), pf);
          assert t == RenderPath(paths[i], pf);
          RenderPathsSnoc(paths, i, pf);
          AppendAssoc(head, RenderPaths(paths[..i], pf), t);
          builder := builder + t;
          i := i + 1;
        }
        assert paths[..|paths|] == paths;
        builder := builder + ")\n";
        s := builder;
      case PathLeaf(p) =>
        var t := AddPath(p, Join(Calls(p.nodes, pf), "\n"), pf);
        builder := builder + t;
        assert builder == t;
        s := builder;
    }
  }

  /** `iconGetter`: the memoising getter body around the root nodes' renderings. */
  method IconGetter(backingPropertyName: string, iconName: string, iconTheme: IconTheme, v: Vector, pf: Platform)
    returns (s: string)
    ensures s == GetterText(backingPropertyName, iconName, iconTheme, RenderNodes(v.nodes, pf))
  {
    var builder := "";
    builder := builder + ("if (" + backingPropertyName + " != null) return " + backingPropertyName + "!!\n");
    assert builder == GuardLine(backingPropertyName);
    builder := builder + (backingPropertyName + " = MaterialIcon(name = \"" + Name(iconTheme) + "." + iconName + "\") {\n");
    ghost var head := builder;
    var i := 0;
    while i < |v.nodes|
      invariant 0 <= i <= |v.nodes|
      invariant builder == head + RenderNodes(v.nodes[..i], pf)
    {
      var t := AddRecursively(v.nodes[i], pf);
      RenderNodesSnoc(v.nodes, i, pf);
      AppendAssoc(head, RenderNodes(v.nodes[..i], pf), t);
      builder := builder + t;
      i := i + 1;
    }
    assert v.nodes[..|v.nodes|] == v.nodes;
    builder := builder + "}\n";
    builder := builder + ("return " + backingPropertyName + "!!\n");
    s := builder;
  }

  /** `createFileSpec`: package line, public getter, private backing property. */
  method CreateFileSpec(iconName: string, iconTheme: IconTheme, v: Vector, pf: Platform) returns (s: string)
    ensures s == FileSpec(iconName, iconTheme, v, pf)
  {
    var builder := "";
    var packageName := PackageName(iconTheme);
    builder := builder + ("package " + packageName + "\n\n");
    ghost var packageLine := builder;
    assert packageLine == PackageLine(iconTheme);
    var backingPropertyString := BackingProperty(iconName, pf);
    var iconGetterString := IconGetter(backingPropertyString, iconName, iconTheme, v, pf);
    var valLine := "val " + iconName + ": ImageVector\n";
    builder := builder + valLine;
    builder := builder + "    get() {\n";
    AppendAssoc(packageLine, valLine, "    get() {\n");
    builder := builder + iconGetterString;
    builder := builder + "    }\n";
    AppendAssoc(packageLine + PropertyHead(iconName), iconGetterString, "    }\n");
    builder := builder + ("\nprivate var " + backingPropertyString + ": ImageVector? = null\n");
    s := builder;
  }

  // ---------------------------------------------------------------------------
  // Properties of the emitted text

  /** The getter is: the guard line, the line that starts the icon, the root nodes, `}`, the return line. */
  lemma GetterParts(backing: string, iconName: string, theme: IconTheme, body: string)
    ensures var r := GetterText(backing, iconName, theme, body);
      var guard := GuardLine(backing);
      var start := StartLine(backing, iconName, theme);
      var close := "}\n";
      var ret := ReturnLine(backing);
      var i1 := |guard|;
      var i2 := i1 + |start|;
      var i3 := i2 + |body|;
      var i4 := i3 + |close|;
      |r| == i4 + |ret| &&
      r[..i1] == guard && r[i1..i2] == start && r[i2..i3] == body && r[i3..i4] == close && r[|r| - |ret|..] == ret
  {
    var guard := GuardLine(backing);
    var start := StartLine(backing, iconName, theme);
    var ret := ReturnLine(backing);
    Slices5(GetterText(backing, iconName, theme, body), guard, start, body, "}\n", ret);
  }

  /** Where each of five concatenated pieces lies in the whole. */
  lemma Slices5(r: string, a: string, b: string, c: string, d: string, e: string)
    requires r == a + b + c + d + e
    ensures var i1 := |a|; var i2 := i1 + |b|; var i3 := i2 + |c|; var i4 := i3 + |d|;
      |r| == i4 + |e| && r[..i1] == a && r[i1..i2] == b && r[i2..i3] == c && r[i3..i4] == d && r[|r| - |e|..] == e
  {
  }

  /** Where the first two and the last of four concatenated pieces lie in the whole. */
  lemma Slices4(r: string, a: string, b: string, c: string, d: string)
    requires r == a + b + c + d
    ensures |a| + |b| <= |r| && |d| <= |r| && r[..|a|] == a && r[|a|..|a| + |b|] == b && r[|r| - |d|..] == d
  {
  }

  /** Where each of three concatenated pieces lies in the whole. */
  lemma Slices3(r: string, a: string, b: string, c: string)
    requires r == a + b + c
    ensures |r| == |a| + |b| + |c| && r[..|a|] == a && r[|a|..|r| - |c|] == b && r[|r| - |c|..] == c
  {
  }

  /** Rendering a list of root nodes is a homomorphism from list concatenation to text concatenation. */
  lemma {:induction false} RenderNodesAppend(ms: seq<VectorNode>, ns: seq<VectorNode>, pf: Platform)
    ensures RenderNodes(ms + ns, pf) == RenderNodes(ms, pf) + RenderNodes(ns, pf)
    decreases |ns|
  {
    if ns == [] {
      assert ms + ns == ms;
    } else {
      var k := |ns| - 1;
      assert (ms + ns)[..|ms + ns| - 1] == ms + ns[..k];
      RenderNodesAppend(ms, ns[..k], pf);
      AppendAssoc(RenderNodes(ms, pf), RenderNodes(ns[..k], pf), RenderNode(ns[k], pf));
    }
  }

  /** Each root node is rendered exactly once, at the position following the nodes before it. */
  lemma RenderNodesAt(ns: seq<VectorNode>, i: nat, pf: Platform)
    requires i < |ns|
    ensures var lo := |RenderNodes(ns[..i], pf)|;
      var hi := lo + |RenderNode(ns[i], pf)|;
      hi <= |RenderNodes(ns, pf)| && RenderNodes(ns, pf)[lo..hi] == RenderNode(ns[i], pf)
  {
    assert ns == ns[..i + 1] + ns[i + 1..];
    RenderNodesAppend(ns[..i + 1], ns[i + 1..], pf);
    RenderNodesSnoc(ns, i, pf);
  }

  /** The same for the paths of a group. */
  lemma {:induction false} RenderPathsAppend(ps: seq<Path>, qs: seq<Path>, pf: Platform)
    ensures RenderPaths(ps + qs, pf) == RenderPaths(ps, pf) + RenderPaths(qs, pf)
    decreases |qs|
  {
    if qs == [] {
      assert ps + qs == ps;
    } else {
      var k := |qs| - 1;
      assert (ps + qs)[..|ps + qs| - 1] == ps + qs[..k];
      RenderPathsAppend(ps, qs[..k], pf);
      AppendAssoc(RenderPaths(ps, pf), RenderPaths(qs[..k], pf), RenderPath(qs[k], pf));
    }
  }

  /** A group is `group (`, its paths' blocks in order, then `)`; an empty group is just the two lines. */
  lemma GroupRendering(ps: seq<Path>, pf: Platform)
    ensures var r := RenderNode(Group(ps), pf); var open := "group (\n"; var close := ")\n";
      |r| == |open| + |RenderPaths(ps, pf)| + |close| &&
      r[..|open|] == open && r[|open|..|r| - |close|] == RenderPaths(ps, pf) && r[|r| - |close|..] == close
    ensures ps == [] ==> RenderNode(Group(ps), pf) == "group (\n)\n"
    ensures forall i :: 0 <= i < |ps| ==> RenderPaths(ps[..i + 1], pf) == RenderPaths(ps[..i], pf) + RenderPath(ps[i], pf)
  {
    Slices3(RenderNode(Group(ps), pf), "group (\n", RenderPaths(ps, pf), ")\n");
    forall i | 0 <= i < |ps| ensures RenderPaths(ps[..i + 1], pf) == RenderPaths(ps[..i], pf) + RenderPath(ps[i], pf) {
      RenderPathsSnoc(ps, i, pf);
    }
  }

  /** A freshly made group renders as an empty group block. */
  lemma NewGroupRendering(pf: Platform)
    ensures RenderNode(NewGroup(), pf) == "group (\n)\n"
  {
    GroupRendering([], pf);
  }

  /**
   * The calls are separated, not terminated, by newlines: the closing brace follows the last call
   * directly, and a path without nodes is its header and the closing brace.
   */
  lemma PathEnding(p: Path, pf: Platform)
    ensures p.nodes == [] ==> RenderPath(p, pf) == PathHeader(p, pf) + "}\n"
    ensures p.nodes != [] ==>
      var r := RenderPath(p, pf);
      var tail := pf.asFunctionCall(p.nodes[|p.nodes| - 1]) + "}\n";
      |tail| <= |r| && r[|r| - |tail|..] == tail
    ensures p.nodes == [] && IsOne(pf, p.fillAlpha) && IsOne(pf, p.strokeAlpha) ==>
      RenderPath(p, pf) == "MaterialPath {\n}\n"
  {
    if p.nodes == [] {
      EmptyPathEnding(p, pf);
    } else {
      LastCallEnding(p, pf);
    }
  }

  /** A path without nodes is its header and the closing brace. */
  lemma EmptyPathEnding(p: Path, pf: Platform)
    requires p.nodes == []
    ensures RenderPath(p, pf) == PathHeader(p, pf) + "}\n"
    ensures IsOne(pf, p.fillAlpha) && IsOne(pf, p.strokeAlpha) ==> RenderPath(p, pf) == "MaterialPath {\n}\n"
  {
    BareHeaderIff(p, pf);
    assert Calls(p.nodes, pf) == [];
  }

  /** A path with nodes ends with its last call and the closing brace. */
  lemma LastCallEnding(p: Path, pf: Platform)
    requires p.nodes != []
    ensures var r := RenderPath(p, pf);
      var tail := pf.asFunctionCall(p.nodes[|p.nodes| - 1]) + "}\n";
      |tail| <= |r| && r[|r| - |tail|..] == tail
  {
    var calls := Calls(p.nodes, pf);
    JoinEndsWithLast(calls, "\n");
    var h := PathHeader(p, pf);
    var body := Join(calls, "\n");
    var x := calls[|calls| - 1];
    var front := body[..|body| - |x|];
    assert body == front + x;
    var r := RenderPath(p, pf);
    assert r == h + body + "}\n";
    AppendAssoc(h, front, x);
    AppendAssoc(h + front, x, "}\n");
    Slices3(r, h + front, x + "}\n", "");
  }

  /** Consecutive calls are joined by one newline. */
  lemma PathBodySnoc(p: Path, n: PathNode, pf: Platform)
    requires p.nodes != []
    ensures PathBody(p.(nodes := p.nodes + [n]), pf) == PathBody(p, pf) + "\n" + pf.asFunctionCall(n)
  {
    assert Calls(p.nodes + [n], pf) == Calls(p.nodes, pf) + [pf.asFunctionCall(n)];
    JoinSnoc(Calls(p.nodes, pf), pf.asFunctionCall(n), "\n");
  }

  /** Two paths that agree on everything except perhaps the fill type. */
  ghost predicate SameUpToFillType(p: Path, q: Path) {
    p.strokeAlpha == q.strokeAlpha && p.fillAlpha == q.fillAlpha && p.nodes == q.nodes
  }

  ghost predicate PathsUpToFillType(ps: seq<Path>, qs: seq<Path>) {
    |ps| == |qs| && forall i :: 0 <= i < |ps| ==> SameUpToFillType(ps[i], qs[i])
  }

  ghost predicate NodesUpToFillType(ms: seq<VectorNode>, ns: seq<VectorNode>) {
    |ms| == |ns| &&
    forall i :: 0 <= i < |ms| ==>
      match ms[i]
      case Group(ps) => ns[i].Group? && PathsUpToFillType(ps, ns[i].paths)
      case PathLeaf(p) => ns[i].PathLeaf? && SameUpToFillType(p, ns[i].path)
  }

  lemma {:induction false} RenderPathsIgnoreFillType(ps: seq<Path>, qs: seq<Path>, pf: Platform)
    requires PathsUpToFillType(ps, qs)
    ensures RenderPaths(ps, pf) == RenderPaths(qs, pf)
    decreases |ps|
  {
    if ps != [] {
      var k := |ps| - 1;
      assert SameUpToFillType(ps[k], qs[k]);
      assert PathsUpToFillType(ps[..k], qs[..k]);
      RenderPathsIgnoreFillType(ps[..k], qs[..k], pf);
    }
  }

  lemma {:induction false} RenderNodesIgnoreFillType(ms: seq<VectorNode>, ns: seq<VectorNode>, pf: Platform)
    requires NodesUpToFillType(ms, ns)
    ensures RenderNodes(ms, pf) == RenderNodes(ns, pf)
    decreases |ms|
  {
    if ms != [] {
      var k := |ms| - 1;
      assert NodesUpToFillType(ms[..k], ns[..k]);
      RenderNodesIgnoreFillType(ms[..k], ns[..k], pf);
      match ms[k]
      case Group(ps) => RenderPathsIgnoreFillType(ps, ns[k].paths, pf);
      case PathLeaf(p) =>
    }
  }

  /**
   * Neither the fill types of the paths nor the vector's auto-mirror flag reach the output:
   * two vectors whose nodes differ only in fill types give the same file.
   */
  lemma FileSpecIgnoresFillType(iconName: string, theme: IconTheme, v: Vector, w: Vector, pf: Platform)
    requires NodesUpToFillType(v.nodes, w.nodes)
    ensures FileSpec(iconName, theme, v, pf) == FileSpec(iconName, theme, w, pf)
  {
    RenderNodesIgnoreFillType(v.nodes, w.nodes, pf);
  }
}
