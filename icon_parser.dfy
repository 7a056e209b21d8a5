/**
 * The document walker: turns the event stream of a vector-drawable XML
 * document into a `Vector`.
 *
 * The XML pull parser is replaced by the sequence of events it would report.
 * `events[0]` is the state the parser is in when it is created (normally the
 * start of the document); every call of `next()` moves one event on, and past
 * the last event the parser keeps reporting the end of the document.
 */
module IconParser {
  import opened Wrappers
  import opened Strings
  import opened Vector

  datatype EventType = StartDocument | EndDocument | StartTag | EndTag | Text | Other

  /** What the pull parser reports at one position: event type, tag name, depth, attributes. */
  datatype Event = Event(eventType: EventType, name: string, depth: int, attributes: map<string, string>)

  // XML tag names
  const VectorTag := "vector"
  const ClipPathTag := "clip-path"
  const GroupTag := "group"
  const PathTag := "path"

  // XML attribute names
  const AutoMirroredAttr := "android:autoMirrored"
  const PathDataAttr := "android:pathData"
  const FillAlphaAttr := "android:fillAlpha"
  const StrokeAlphaAttr := "android:strokeAlpha"
  const FillTypeAttr := "android:fillType"

  // XML attribute values
  const EvenOddValue := "evenOdd"

  /**
   * The ways a parse fails: the document ends before any start tag, the first
   * start tag is not `vector`, a `path` has no path data (the `!!`), or the
   * path-data parser rejects it.
   */
  datatype ParseError = NoStartTag | StartTagNotVector(name: string) | MissingPathData | PathSyntax(message: string)

  const EndOfDocument := Event(EndDocument, "", 0, map[])

  /** The event the parser reports after `i` calls of `next()`. */
  function EventAt(events: seq<Event>, i: nat): Event {
    if i < |events| then events[i] else EndOfDocument
  }

  /** `getAttributeValue("", name)`, null when absent. */
  function AttributeValue(e: Event, name: string): Option<string> {
    if name in e.attributes then Some(e.attributes[name]) else None
  }

  /** Kotlin's `String?.toBoolean()`: true only for "true", ignoring case; false for null. */
  function ToBoolean(v: Option<string>): (r: bool)
    ensures r <==> v.Some? && Lower(v.value) == "true"
  {
    match v
    case None => false
    case Some(s) =>
      var r := |s| == 4 && forall i :: 0 <= i < 4 ==> LowerChar(s[i]) == "true"[i];
      assert r <==> Lower(s) == "true" by {
        if Lower(s) == "true" {
          forall i | 0 <= i < 4 ensures LowerChar(s[i]) == "true"[i] {
            assert Lower(s)[i] == LowerChar(s[i]);
          }
        }
      }
      r
  }

  /** `getValueAsBoolean`. */
  function GetValueAsBoolean(e: Event, name: string): (r: bool)
    ensures r <==> name in e.attributes && Lower(e.attributes[name]) == "true"
    ensures name !in e.attributes ==> !r
  {
    ToBoolean(AttributeValue(e, name))
  }

  /** `getValueAsFloat`: the parsed attribute, null when absent or not a float. */
  function GetValueAsFloat(e: Event, name: string, pf: Platform): (r: Option<Float>)
    ensures r.Some? <==> name in e.attributes && pf.parseFloat(e.attributes[name]).Some?
    ensures r.Some? ==> r == pf.parseFloat(e.attributes[name])
  {
    match AttributeValue(e, name)
    case Some(v) => pf.parseFloat(v)
    case None => None
  }

  /** `isAtEnd`: the end of the document, or an end tag above the root's depth. */
  predicate IsAtEnd(e: Event)
    ensures IsAtEnd(e) ==> e.eventType == EndDocument || e.eventType == EndTag
    ensures e.eventType == EndDocument ==> IsAtEnd(e)
    ensures e.eventType == EndTag ==> (IsAtEnd(e) <==> e.depth < 1)
  {
    e.eventType == EndDocument || (e.depth < 1 && e.eventType == EndTag)
  }

  /** The `Path` a `path` start tag describes, with the defaulting rules of the walker. */
  function ReadPath(e: Event, pf: Platform): (r: Result<Path, ParseError>)
    ensures r == Err(MissingPathData) <==> PathDataAttr !in e.attributes
    ensures PathDataAttr in e.attributes ==>
      (r.Err? <==> pf.parsePathString(e.attributes[PathDataAttr]).Err?)
    ensures r.Err? && PathDataAttr in e.attributes ==>
      r.error == PathSyntax(pf.parsePathString(e.attributes[PathDataAttr]).error)
    ensures r.Ok? ==>
      PathDataAttr in e.attributes && pf.parsePathString(e.attributes[PathDataAttr]) == Ok(r.value.nodes)
    ensures r.Ok? && (FillAlphaAttr !in e.attributes || pf.parseFloat(e.attributes[FillAlphaAttr]).None?) ==>
      r.value.fillAlpha == pf.one
    ensures r.Ok? && FillAlphaAttr in e.attributes && pf.parseFloat(e.attributes[FillAlphaAttr]).Some? ==>
      r.value.fillAlpha == pf.parseFloat(e.attributes[FillAlphaAttr]).value
    ensures r.Ok? && (StrokeAlphaAttr !in e.attributes || pf.parseFloat(e.attributes[StrokeAlphaAttr]).None?) ==>
      r.value.strokeAlpha == pf.one
    ensures r.Ok? && StrokeAlphaAttr in e.attributes && pf.parseFloat(e.attributes[StrokeAlphaAttr]).Some? ==>
      r.value.strokeAlpha == pf.parseFloat(e.attributes[StrokeAlphaAttr]).value
    ensures r.Ok? ==>
      (r.value.fillType == EvenOdd <==> FillTypeAttr in e.attributes && e.attributes[FillTypeAttr] == EvenOddValue)
  {
    var fillType := if AttributeValue(e, FillTypeAttr) == Some(EvenOddValue) then EvenOdd else NonZero;
    match AttributeValue(e, PathDataAttr)
    case None => Err(MissingPathData)
    case Some(data) =>
      match pf.parsePathString(data)
      case Err(m) => Err(PathSyntax(m))
      case Ok(ns) =>
        Ok(Path(GetValueAsFloat(e, StrokeAlphaAttr, pf).GetOr(pf.one),
                GetValueAsFloat(e, FillAlphaAttr, pf).GetOr(pf.one),
                fillType, ns))
  }

  /** The walker's local state: the root nodes so far, the flag, and whether a group is open. */
  datatype WalkState = WalkState(nodes: seq<VectorNode>, autoMirrored: bool, inGroup: bool)

  /** The open group is always the last root node. */
  predicate ValidState(st: WalkState) {
    st.inGroup ==> |st.nodes| > 0 && st.nodes[|st.nodes| - 1].Group?
  }

  const InitialState := WalkState([], false, false)

  /** How many root nodes are final: all of them, except an open group, which may still grow. */
  function Settled(st: WalkState): (k: nat)
    requires ValidState(st)
    ensures k <= |st.nodes| && (st.inGroup ==> k == |st.nodes| - 1)
  {
    if st.inGroup then |st.nodes| - 1 else |st.nodes|
  }

  /** What one loop iteration does with the current event. */
  function Step(st: WalkState, e: Event, pf: Platform): (r: Result<WalkState, ParseError>)
    requires ValidState(st)
    ensures r.Ok? ==> ValidState(r.value)
    ensures r.Err? ==> e.eventType == StartTag && e.name == PathTag && ReadPath(e, pf) == Err(r.error)
    ensures e.eventType != StartTag || e.name !in {VectorTag, PathTag, GroupTag} ==> r == Ok(st)
    ensures r.Ok? && !(e.eventType == StartTag && e.name == VectorTag) ==> r.value.autoMirrored == st.autoMirrored
    ensures r.Ok? ==> Settled(st) <= Settled(r.value) && r.value.nodes[..Settled(st)] == st.nodes[..Settled(st)]
  {
    if e.eventType != StartTag then Ok(st)
    else if e.name == VectorTag then Ok(st.(autoMirrored := GetValueAsBoolean(e, AutoMirroredAttr)))
    else if e.name == PathTag then
      match ReadPath(e, pf)
      case Err(err) => Err(err)
      case Ok(p) => Ok(AppendPath(st, p))
    else if e.name == GroupTag then Ok(OpenGroup(st))
    else Ok(st)
  }

  /** A path goes into the open group if there is one, else to the root list. */
  function AppendPath(st: WalkState, p: Path): (r: WalkState)
    requires ValidState(st)
    ensures ValidState(r) && r.inGroup == st.inGroup && r.autoMirrored == st.autoMirrored
    ensures Settled(r) >= Settled(st) && r.nodes[..Settled(st)] == st.nodes[..Settled(st)]
  {
    if st.inGroup then
      var n := |st.nodes|;
      st.(nodes := st.nodes[..n - 1] + [AddToGroup(st.nodes[n - 1], p)])
    else
      st.(nodes := st.nodes + [PathLeaf(p)])
  }

  /** A new, empty group is appended to the root list and becomes the open group. */
  function OpenGroup(st: WalkState): (r: WalkState)
    requires ValidState(st)
    ensures ValidState(r) && r.inGroup && r.autoMirrored == st.autoMirrored
    ensures Settled(r) == |st.nodes| && r.nodes[..|st.nodes|] == st.nodes
  {
    st.(nodes := st.nodes + [NewGroup()], inGroup := true)
  }

  /** The loop from position `pos` on, until `isAtEnd`. */
  function Run(events: seq<Event>, pos: nat, st: WalkState, pf: Platform): (r: Result<Vector, ParseError>)
    requires ValidState(st)
    ensures r.Err? ==> r.error == MissingPathData || r.error.PathSyntax?
    ensures r.Ok? ==>
      Settled(st) <= |r.value.nodes| && r.value.nodes[..Settled(st)] == st.nodes[..Settled(st)]
    decreases |events| - pos
  {
    if IsAtEnd(EventAt(events, pos)) then Ok(Vector(st.autoMirrored, st.nodes))
    else
      match Step(st, EventAt(events, pos), pf)
      case Err(err) => Err(err)
      case Ok(st') => Run(events, pos + 1, st', pf)
  }

  /** The first position from `i` on holding a start tag or the end of the document. */
  function FirstStop(events: seq<Event>, i: nat): nat
    decreases |events| - i
  {
    var t := EventAt(events, i).eventType;
    if t == StartTag || t == EndDocument then i else FirstStop(events, i + 1)
  }

  /** The whole of `IconParser.parse` on a stream of events. */
  function ParseSpec(events: seq<Event>, pf: Platform): (r: Result<Vector, ParseError>)
    ensures var e := EventAt(events, FirstStop(events, 1));
      r.Ok? ==> e.eventType == StartTag && e.name == VectorTag
    ensures r == Err(NoStartTag) <==> EventAt(events, FirstStop(events, 1)).eventType != StartTag
    ensures r.Err? && r.error.StartTagNotVector? ==> r.error.name != VectorTag
  {
    var p := FirstStop(events, 1);
    var e := EventAt(events, p);
    if e.eventType != StartTag then Err(NoStartTag)
    else if e.name != VectorTag then Err(StartTagNotVector(e.name))
    else Run(events, p, InitialState, pf)
  }

  lemma {:induction false} FirstStopIsFirst(events: seq<Event>, i: nat)
    ensures FirstStop(events, i) >= i
    ensures EventAt(events, FirstStop(events, i)).eventType in {StartTag, EndDocument}
    ensures forall k :: i <= k < FirstStop(events, i) ==> EventAt(events, k).eventType !in {StartTag, EndDocument}
    decreases |events| - i
  {
    var t := EventAt(events, i).eventType;
    if !(t == StartTag || t == EndDocument) {
      FirstStopIsFirst(events, i + 1);
    }
  }

  /** `seekToStartTag`: advances to the first start tag, or fails at the end of the document. */
  method SeekToStartTag(events: seq<Event>) returns (r: Result<nat, ParseError>)
    ensures r.Ok? ==> r.value >= 1 && EventAt(events, r.value).eventType == StartTag
    ensures r.Ok? ==> forall k :: 1 <= k < r.value ==> EventAt(events, k).eventType !in {StartTag, EndDocument}
    ensures r.Err? ==> r.error == NoStartTag && EventAt(events, FirstStop(events, 1)).eventType == EndDocument
    ensures r.Ok? ==> r.value == FirstStop(events, 1)
  {
    FirstStopIsFirst(events, 1);
    var pos := 1;
    var t := EventAt(events, pos).eventType;
    while t != StartTag && t != EndDocument
      invariant 1 <= pos <= FirstStop(events, 1)
      invariant t == EventAt(events, pos).eventType
      decreases |events| - pos
    {
      pos := pos + 1;
      t := EventAt(events, pos).eventType;
    }
    if t != StartTag {
      return Err(NoStartTag);
    }
    return Ok(pos);
  }

  /** `IconParser.parse`: the walk over the events, appending to the root list or the open group. */
  method Parse(events: seq<Event>, pf: Platform) returns (r: Result<Vector, ParseError>)
    ensures r == ParseSpec(events, pf)
  {
    var seek := SeekToStartTag(events);
    if seek.Err? {
      return Err(NoStartTag);
    }
    var pos := seek.value;
    if EventAt(events, pos).name != VectorTag {
      return Err(StartTagNotVector(EventAt(events, pos).name));
    }
    var nodes: seq<VectorNode> := [];
    var autoMirrored := false;
    var inGroup := false;
    while !IsAtEnd(EventAt(events, pos))
      invariant ValidState(WalkState(nodes, autoMirrored, inGroup))
      invariant Run(events, pos, WalkState(nodes, autoMirrored, inGroup), pf) == ParseSpec(events, pf)
      decreases |events| - pos
    {
      var e := EventAt(events, pos);
      if e.eventType == StartTag {
        if e.name == VectorTag {
          autoMirrored := GetValueAsBoolean(e, AutoMirroredAttr);
        } else if e.name == PathTag {
          var pathData := AttributeValue(e, PathDataAttr);
          var fillAlpha := GetValueAsFloat(e, FillAlphaAttr, pf);
          var strokeAlpha := GetValueAsFloat(e, StrokeAlphaAttr, pf);
          var fillType := if AttributeValue(e, FillTypeAttr) == Some(EvenOddValue) then EvenOdd else NonZero;
          if pathData.None? {
            return Err(MissingPathData);
          }
          var parsed := pf.parsePathString(pathData.value);
          if parsed.Err? {
            return Err(PathSyntax(parsed.error));
          }
          var path := Path(strokeAlpha.GetOr(pf.one), fillAlpha.GetOr(pf.one), fillType, parsed.value);
          if inGroup {
            var group := nodes[|nodes| - 1];
            nodes := nodes[..|nodes| - 1] + [Group(group.paths + [path])];
          } else {
            nodes := nodes + [PathLeaf(path)];
          }
        } else if e.name == GroupTag {
          nodes := nodes + [Group([])];
          inGroup := true;
        }
      }
      pos := pos + 1;
    }
    return Ok(Vector(autoMirrored, nodes));
  }
}
