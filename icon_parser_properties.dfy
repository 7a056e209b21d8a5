/**
 * What the document walker promises, stated against independent reference
 * definitions: where the loop stops, which errors it reports, where each path
 * lands, and which tag sets the auto-mirror flag.
 */
module IconParserProperties {
  import opened Wrappers
  import opened Vector
  import opened IconParser
  import opened Strings

  /** The position at which the walk from `pos` stops. */
  function Stop(events: seq<Event>, pos: nat): nat
    decreases |events| - pos
  {
    if IsAtEnd(EventAt(events, pos)) then pos else Stop(events, pos + 1)
  }

  /** The loop advances one event at a time and stops at the first end position. */
  lemma {:induction false} StopIsFirst(events: seq<Event>, pos: nat)
    ensures Stop(events, pos) >= pos && IsAtEnd(EventAt(events, Stop(events, pos)))
    ensures forall k :: pos <= k < Stop(events, pos) ==> !IsAtEnd(EventAt(events, k))
    decreases |events| - pos
  {
    if !IsAtEnd(EventAt(events, pos)) {
      StopIsFirst(events, pos + 1);
    }
  }

  // ---------------------------------------------------------------------------
  // Errors

  /** Position `k` holds a `path` start tag that cannot be read. */
  predicate FailsAt(events: seq<Event>, k: nat, pf: Platform) {
    var e := EventAt(events, k);
    e.eventType == StartTag && e.name == PathTag && ReadPath(e, pf).Err?
  }

  /** The walk fails exactly when some `path` tag before the stop fails, and then with the first such error. */
  lemma {:induction false} RunFails(events: seq<Event>, pos: nat, st: WalkState, pf: Platform)
    requires ValidState(st)
    ensures Run(events, pos, st, pf).Err? <==>
      exists k :: pos <= k < Stop(events, pos) && FailsAt(events, k, pf)
    ensures Run(events, pos, st, pf).Err? ==>
      exists k :: pos <= k < Stop(events, pos) && FailsAt(events, k, pf) &&
        (forall j :: pos <= j < k ==> !FailsAt(events, j, pf)) &&
        Run(events, pos, st, pf).error == ReadPath(EventAt(events, k), pf).error
    decreases |events| - pos
  {
    var e := EventAt(events, pos);
    if !IsAtEnd(e) {
      StopIsFirst(events, pos + 1);
      match Step(st, e, pf)
      case Err(_) =>
        assert FailsAt(events, pos, pf);
      case Ok(st') =>
        assert !FailsAt(events, pos, pf);
        RunFails(events, pos + 1, st', pf);
        if Run(events, pos, st, pf).Err? {
          var k :| pos + 1 <= k < Stop(events, pos + 1) && FailsAt(events, k, pf) &&
            (forall j :: pos + 1 <= j < k ==> !FailsAt(events, j, pf)) &&
            Run(events, pos + 1, st', pf).error == ReadPath(EventAt(events, k), pf).error;
          assert forall j :: pos <= j < k ==> !FailsAt(events, j, pf);
        }
    }
  }

  /** The first-start-tag search stops at its first candidate, which decides the outcome. */
  lemma FirstStopUnique(events: seq<Event>, p: nat)
    requires p >= 1 && EventAt(events, p).eventType in {StartTag, EndDocument}
    requires forall k :: 1 <= k < p ==> EventAt(events, k).eventType !in {StartTag, EndDocument}
    ensures FirstStop(events, 1) == p
  {
    FirstStopIsFirst(events, 1);
  }

  /** The parse fails with "No start tag found" exactly when the document ends before any start tag. */
  lemma ParseNoStartTag(events: seq<Event>, pf: Platform)
    ensures ParseSpec(events, pf) == Err(NoStartTag) <==>
      exists p :: p >= 1 && EventAt(events, p).eventType == EndDocument &&
        forall k :: 1 <= k < p ==> EventAt(events, k).eventType != StartTag
  {
    var p := FirstStop(events, 1);
    FirstStopIsFirst(events, 1);
    if ParseSpec(events, pf) == Err(NoStartTag) {
      if EventAt(events, p).eventType == StartTag && EventAt(events, p).name == VectorTag {
        RunFails(events, p, InitialState, pf);
      }
      assert EventAt(events, p).eventType == EndDocument;
    }
    if exists q :: q >= 1 && EventAt(events, q).eventType == EndDocument &&
        forall k :: 1 <= k < q ==> EventAt(events, k).eventType != StartTag {
      var q :| q >= 1 && EventAt(events, q).eventType == EndDocument &&
        forall k :: 1 <= k < q ==> EventAt(events, k).eventType != StartTag;
      assert p <= q;
    }
  }

  /** The parse fails on a first start tag other than `vector`, and only then. */
  lemma ParseNotVector(events: seq<Event>, pf: Platform, name: string)
    ensures ParseSpec(events, pf) == Err(StartTagNotVector(name)) <==>
      var e := EventAt(events, FirstStop(events, 1));
      e.eventType == StartTag && e.name == name && name != VectorTag
  {
    var p := FirstStop(events, 1);
    if EventAt(events, p).eventType == StartTag && EventAt(events, p).name == VectorTag {
      RunFails(events, p, InitialState, pf);
    }
  }

  /**
   * Once the root tag is `vector`, the parse fails exactly when a `path` tag
   * before the stop lacks its path data or holds path data the path parser
   * rejects, and it reports the first such failure.
   */
  lemma ParsePathFailure(events: seq<Event>, pf: Platform)
    requires EventAt(events, FirstStop(events, 1)).eventType == StartTag
    requires EventAt(events, FirstStop(events, 1)).name == VectorTag
    ensures var p := FirstStop(events, 1);
      ParseSpec(events, pf).Err? <==> exists k :: p <= k < Stop(events, p) && FailsAt(events, k, pf)
    ensures var p := FirstStop(events, 1);
      ParseSpec(events, pf).Err? ==>
        exists k :: p <= k < Stop(events, p) && FailsAt(events, k, pf) &&
          (forall j :: p <= j < k ==> !FailsAt(events, j, pf)) &&
          ParseSpec(events, pf).error == ReadPath(EventAt(events, k), pf).error
  {
    RunFails(events, FirstStop(events, 1), InitialState, pf);
  }

  /** A `path` tag without `android:pathData` inside the walked range makes the whole parse fail. */
  lemma ParseMissingPathData(events: seq<Event>, pf: Platform, k: nat)
    requires EventAt(events, FirstStop(events, 1)).eventType == StartTag
    requires EventAt(events, FirstStop(events, 1)).name == VectorTag
    requires FirstStop(events, 1) <= k < Stop(events, FirstStop(events, 1))
    requires EventAt(events, k).eventType == StartTag && EventAt(events, k).name == PathTag
    requires PathDataAttr !in EventAt(events, k).attributes
    ensures ParseSpec(events, pf).Err?
    ensures ParseSpec(events, pf).error == MissingPathData || ParseSpec(events, pf).error.PathSyntax?
  {
    assert FailsAt(events, k, pf);
    ParsePathFailure(events, pf);
  }

  // ---------------------------------------------------------------------------
  // Where the paths go

  /** The tags that shape the tree: readable paths and group openings. */
  datatype Tag = PathTagged(path: Path) | GroupOpened

  function TagOf(e: Event, pf: Platform): seq<Tag> {
    if e.eventType == StartTag && e.name == PathTag && ReadPath(e, pf).Ok? then [PathTagged(ReadPath(e, pf).value)]
    else if e.eventType == StartTag && e.name == GroupTag then [GroupOpened]
    else []
  }

  /** The shaping tags of positions `i` up to `j`, in document order. */
  function Tags(events: seq<Event>, i: nat, j: nat, pf: Platform): seq<Tag>
    decreases j - i
  {
    if i >= j then [] else TagOf(EventAt(events, i), pf) + Tags(events, i + 1, j, pf)
  }

  /** The paths before the first group tag. */
  function Before(tags: seq<Tag>): seq<Path>
    decreases |tags|
  {
    if tags == [] || tags[0].GroupOpened? then [] else [tags[0].path] + Before(tags[1..])
  }

  /** The tags from the first group tag on. */
  function FromFirstGroup(tags: seq<Tag>): (r: seq<Tag>)
    ensures |r| <= |tags|
    ensures r == [] || r[0].GroupOpened?
    decreases |tags|
  {
    if tags == [] || tags[0].GroupOpened? then tags else FromFirstGroup(tags[1..])
  }

  /** For tags that start with a group tag: one group per group tag, holding the paths up to the next one. */
  function Groups(tags: seq<Tag>): seq<VectorNode>
    decreases |tags|
  {
    if tags == [] then [] else [Group(Before(tags[1..]))] + Groups(FromFirstGroup(tags[1..]))
  }

  function Leaves(ps: seq<Path>): seq<VectorNode>
    decreases |ps|
  {
    if ps == [] then [] else [PathLeaf(ps[0])] + Leaves(ps[1..])
  }

  /**
   * The reference layout: paths before the first group tag stand at the root;
   * each group tag opens a group holding the paths up to the next group tag.
   */
  function Layout(tags: seq<Tag>): seq<VectorNode> {
    Leaves(Before(tags)) + Groups(FromFirstGroup(tags))
  }

  /** The layout of `tags` continued from a walk state. */
  function Place(st: WalkState, tags: seq<Tag>): seq<VectorNode>
    requires ValidState(st)
  {
    if !st.inGroup then st.nodes + Layout(tags)
    else
      var n := |st.nodes|;
      st.nodes[..n - 1] + [Group(st.nodes[n - 1].paths + Before(tags))] + Groups(FromFirstGroup(tags))
  }

  lemma PlaceEnd(st: WalkState)
    requires ValidState(st)
    ensures Place(st, []) == st.nodes
  {
    assert Before([]) == [] && FromFirstGroup([]) == [] && Groups([]) == [];
    if st.inGroup {
      var n := |st.nodes|;
      assert Group(st.nodes[n - 1].paths + []) == st.nodes[n - 1];
      assert st.nodes[..n - 1] + [st.nodes[n - 1]] == st.nodes;
    } else {
      assert Layout([]) == [];
    }
  }

  lemma PlacePath(st: WalkState, p: Path, rest: seq<Tag>)
    requires ValidState(st)
    ensures Place(AppendPath(st, p), rest) == Place(st, [PathTagged(p)] + rest)
  {
    var tags := [PathTagged(p)] + rest;
    assert tags[1..] == rest;
    assert Before(tags) == [p] + Before(rest);
    assert FromFirstGroup(tags) == FromFirstGroup(rest);
    if st.inGroup {
      PlacePathInGroup(st, p, rest);
    } else {
      PlacePathAtRoot(st, p, rest);
    }
  }

  lemma PlacePathInGroup(st: WalkState, p: Path, rest: seq<Tag>)
    requires ValidState(st) && st.inGroup
    ensures Place(AppendPath(st, p), rest) ==
      var n := |st.nodes|;
      st.nodes[..n - 1] + [Group(st.nodes[n - 1].paths + ([p] + Before(rest)))] + Groups(FromFirstGroup(rest))
  {
    var n := |st.nodes|;
    var front := st.nodes[..n - 1];
    var g := st.nodes[n - 1];
    var nodes' := front + [AddToGroup(g, p)];
    assert AppendPath(st, p).nodes == nodes';
    assert nodes'[..n - 1] == front && nodes'[n - 1] == AddToGroup(g, p);
    AppendAssoc(g.paths, [p], Before(rest));
  }

  lemma PlacePathAtRoot(st: WalkState, p: Path, rest: seq<Tag>)
    requires ValidState(st) && !st.inGroup
    ensures Place(AppendPath(st, p), rest) ==
      st.nodes + (Leaves([p] + Before(rest)) + Groups(FromFirstGroup(rest)))
  {
    assert ([p] + Before(rest))[1..] == Before(rest);
    assert Leaves([p] + Before(rest)) == [PathLeaf(p)] + Leaves(Before(rest));
    var leaves := Leaves(Before(rest));
    var groups := Groups(FromFirstGroup(rest));
    AppendAssoc(st.nodes + [PathLeaf(p)], leaves, groups);
    AppendAssoc(st.nodes, [PathLeaf(p)], leaves);
    AppendAssoc(st.nodes, [PathLeaf(p)] + leaves, groups);
  }


  lemma PlaceGroup(st: WalkState, rest: seq<Tag>)
    requires ValidState(st)
    ensures Place(OpenGroup(st), rest) == Place(st, [GroupOpened] + rest)
  {
    var st' := OpenGroup(st);
    var n := |st.nodes|;
    var tags := [GroupOpened] + rest;
    assert tags[1..] == rest;
    assert Groups(FromFirstGroup(tags)) == [Group(Before(rest))] + Groups(FromFirstGroup(rest));
    assert st'.nodes[..n] == st.nodes;
    assert NewGroup().paths + Before(rest) == Before(rest);
    var groups := Groups(FromFirstGroup(rest));
    AppendAssoc(st.nodes, [Group(Before(rest))], groups);
    if st.inGroup {
      assert Group(st.nodes[n - 1].paths + Before(tags)) == st.nodes[n - 1];
      assert st.nodes[..n - 1] + [st.nodes[n - 1]] == st.nodes;
    } else {
      assert Leaves(Before(tags)) == [];
      assert Layout(tags) == [Group(Before(rest))] + groups;
    }
  }

  lemma PlaceStep(st: WalkState, e: Event, pf: Platform, rest: seq<Tag>)
    requires ValidState(st) && Step(st, e, pf).Ok?
    ensures Place(Step(st, e, pf).value, rest) == Place(st, TagOf(e, pf) + rest)
  {
    if e.eventType == StartTag && e.name == PathTag {
      PlacePath(st, ReadPath(e, pf).value, rest);
    } else if e.eventType == StartTag && e.name == GroupTag {
      PlaceGroup(st, rest);
    } else {
      assert TagOf(e, pf) + rest == rest;
    }
  }

  /** The walk from any state lays its tags out as the reference layout says. */
  lemma {:induction false} RunLayout(events: seq<Event>, pos: nat, st: WalkState, pf: Platform)
    requires ValidState(st)
    ensures Run(events, pos, st, pf).Ok? ==>
      Run(events, pos, st, pf).value.nodes == Place(st, Tags(events, pos, Stop(events, pos), pf))
    decreases |events| - pos
  {
    var e := EventAt(events, pos);
    if IsAtEnd(e) {
      PlaceEnd(st);
    } else {
      StopIsFirst(events, pos + 1);
      match Step(st, e, pf)
      case Err(_) =>
      case Ok(st') =>
        RunLayout(events, pos + 1, st', pf);
        PlaceStep(st, e, pf, Tags(events, pos + 1, Stop(events, pos), pf));
    }
  }

  /** `parse` builds exactly the reference layout of the tags between the root tag and the stop. */
  lemma ParseLayout(events: seq<Event>, pf: Platform)
    ensures var p := FirstStop(events, 1);
      ParseSpec(events, pf).Ok? ==>
        ParseSpec(events, pf).value.nodes == Layout(Tags(events, p, Stop(events, p), pf))
  {
    var p := FirstStop(events, 1);
    if ParseSpec(events, pf).Ok? {
      RunLayout(events, p, InitialState, pf);
      assert [] + Layout(Tags(events, p, Stop(events, p), pf)) == Layout(Tags(events, p, Stop(events, p), pf));
    }
  }

  lemma {:induction false} LeavesAt(ps: seq<Path>)
    ensures |Leaves(ps)| == |ps|
    ensures forall k :: 0 <= k < |ps| ==> Leaves(ps)[k] == PathLeaf(ps[k])
    decreases |ps|
  {
    if ps != [] {
      LeavesAt(ps[1..]);
    }
  }

  lemma {:induction false} GroupsAreGroups(tags: seq<Tag>)
    ensures forall k :: 0 <= k < |Groups(tags)| ==> Groups(tags)[k].Group?
    decreases |tags|
  {
    if tags != [] {
      GroupsAreGroups(FromFirstGroup(tags[1..]));
    }
  }

  /** In the reference layout every root path precedes every group. */
  lemma LayoutPathsFirst(tags: seq<Tag>)
    ensures var ns := Layout(tags);
      forall i, j :: 0 <= i < j < |ns| && ns[i].Group? ==> ns[j].Group?
  {
    LeavesAt(Before(tags));
    GroupsAreGroups(FromFirstGroup(tags));
  }

  /** The paths, read in order, of the path tags. */
  function PathsOf(tags: seq<Tag>): seq<Path>
    decreases |tags|
  {
    if tags == [] then []
    else (if tags[0].PathTagged? then [tags[0].path] else []) + PathsOf(tags[1..])
  }

  lemma {:induction false} PathsSplit(tags: seq<Tag>)
    ensures PathsOf(tags) == Before(tags) + PathsOf(FromFirstGroup(tags))
    decreases |tags|
  {
    if tags == [] {
    } else if tags[0].GroupOpened? {
      assert Before(tags) == [] && FromFirstGroup(tags) == tags;
    } else {
      var t := tags[1..];
      PathsSplit(t);
      assert PathsOf(tags) == [tags[0].path] + PathsOf(t);
      assert Before(tags) == [tags[0].path] + Before(t);
      assert FromFirstGroup(tags) == FromFirstGroup(t);
      AppendAssoc([tags[0].path], Before(t), PathsOf(FromFirstGroup(t)));
    }
  }

  lemma {:induction false} AllPathsLeaves(ps: seq<Path>)
    ensures AllPaths(Leaves(ps)) == ps
    decreases |ps|
  {
    if ps != [] {
      AllPathsAppend([PathLeaf(ps[0])], Leaves(ps[1..]));
      AllPathsLeaves(ps[1..]);
      assert AllPaths([PathLeaf(ps[0])]) == [ps[0]];
    }
  }

  lemma {:induction false} AllPathsGroups(tags: seq<Tag>)
    requires tags == [] || tags[0].GroupOpened?
    ensures AllPaths(Groups(tags)) == PathsOf(tags)
    decreases |tags|
  {
    if tags != [] {
      var rest := tags[1..];
      AllPathsAppend([Group(Before(rest))], Groups(FromFirstGroup(rest)));
      AllPathsGroups(FromFirstGroup(rest));
      PathsSplit(rest);
      assert AllPaths([Group(Before(rest))]) == Before(rest);
    }
  }

  /** Every readable path tag yields exactly one path in the tree, in document order. */
  lemma LayoutKeepsPaths(tags: seq<Tag>)
    ensures AllPaths(Layout(tags)) == PathsOf(tags)
  {
    AllPathsAppend(Leaves(Before(tags)), Groups(FromFirstGroup(tags)));
    AllPathsLeaves(Before(tags));
    AllPathsGroups(FromFirstGroup(tags));
    PathsSplit(tags);
  }

  /**
   * A successful parse puts every root path before the first group, and holds
   * every path tag's path once, in document order.
   */
  lemma ParseShape(events: seq<Event>, pf: Platform)
    ensures ParseSpec(events, pf).Ok? ==>
      var ns := ParseSpec(events, pf).value.nodes;
      forall i, j :: 0 <= i < j < |ns| && ns[i].Group? ==> ns[j].Group?
    ensures var p := FirstStop(events, 1);
      ParseSpec(events, pf).Ok? ==>
        AllPaths(ParseSpec(events, pf).value.nodes) == PathsOf(Tags(events, p, Stop(events, p), pf))
  {
    var p := FirstStop(events, 1);
    var tags := Tags(events, p, Stop(events, p), pf);
    ParseLayout(events, pf);
    LayoutPathsFirst(tags);
    LayoutKeepsPaths(tags);
  }

  // ---------------------------------------------------------------------------
  // The auto-mirror flag

  predicate IsVectorTag(e: Event) {
    e.eventType == StartTag && e.name == VectorTag
  }

  /** The flag of the last `vector` start tag among positions `i` up to `j`, else `acc`. */
  function LastMirror(events: seq<Event>, i: nat, j: nat, acc: bool): bool
    decreases j - i
  {
    if j <= i then acc
    else if IsVectorTag(EventAt(events, j - 1)) then GetValueAsBoolean(EventAt(events, j - 1), AutoMirroredAttr)
    else LastMirror(events, i, j - 1, acc)
  }

  lemma {:induction false} LastMirrorPrepend(events: seq<Event>, i: nat, j: nat, acc: bool)
    requires i < j
    ensures LastMirror(events, i, j, acc) ==
      LastMirror(events, i + 1, j,
        if IsVectorTag(EventAt(events, i)) then GetValueAsBoolean(EventAt(events, i), AutoMirroredAttr) else acc)
    decreases j - i
  {
    if j > i + 1 && !IsVectorTag(EventAt(events, j - 1)) {
      LastMirrorPrepend(events, i, j - 1, acc);
    }
  }

  lemma {:induction false} RunMirror(events: seq<Event>, pos: nat, st: WalkState, pf: Platform)
    requires ValidState(st)
    ensures Run(events, pos, st, pf).Ok? ==>
      Run(events, pos, st, pf).value.autoMirrored == LastMirror(events, pos, Stop(events, pos), st.autoMirrored)
    decreases |events| - pos
  {
    var e := EventAt(events, pos);
    if !IsAtEnd(e) {
      StopIsFirst(events, pos + 1);
      match Step(st, e, pf)
      case Err(_) =>
      case Ok(st') =>
        RunMirror(events, pos + 1, st', pf);
        LastMirrorPrepend(events, pos, Stop(events, pos), st.autoMirrored);
    }
  }

  lemma {:induction false} LastMirrorIsLast(events: seq<Event>, i: nat, j: nat, acc: bool, k: nat)
    requires i <= k < j && IsVectorTag(EventAt(events, k))
    requires forall m :: k < m < j ==> !IsVectorTag(EventAt(events, m))
    ensures LastMirror(events, i, j, acc) == GetValueAsBoolean(EventAt(events, k), AutoMirroredAttr)
    decreases j - i
  {
    if j - 1 != k {
      LastMirrorIsLast(events, i, j - 1, acc, k);
    }
  }

  /**
   * The flag comes from the last `vector` start tag before the stop (the root
   * tag, unless another `vector` tag follows it).
   */
  lemma ParseAutoMirrored(events: seq<Event>, pf: Platform, k: nat)
    requires ParseSpec(events, pf).Ok?
    requires FirstStop(events, 1) <= k < Stop(events, FirstStop(events, 1))
    requires IsVectorTag(EventAt(events, k))
    requires forall m :: k < m < Stop(events, FirstStop(events, 1)) ==> !IsVectorTag(EventAt(events, m))
    ensures ParseSpec(events, pf).value.autoMirrored == GetValueAsBoolean(EventAt(events, k), AutoMirroredAttr)
  {
    var p := FirstStop(events, 1);
    RunMirror(events, p, InitialState, pf);
    LastMirrorIsLast(events, p, Stop(events, p), false, k);
  }
}
