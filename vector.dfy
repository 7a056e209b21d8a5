/**
 * The intermediate representation of a parsed icon, and the collaborators
 * outside this model that produce and print its leaves.
 */
module Vector {
  import opened Wrappers

  /** A platform floating-point value; its arithmetic is not modelled. */
  type Float(==)

  /** One drawing instruction produced by the path-data parser. */
  type PathNode

  /** The fill rule; `NonZero` is the default. */
  datatype FillType = NonZero | EvenOdd

  /**
   * The platform facilities the compiler calls but that are not part of this
   * model: the literal `1f`, `String.toFloatOrNull`, the `${f}` rendering of a
   * float, `PathParser.parsePathString` (an error carries its message),
   * `PathNode.asFunctionCall` and `Char.lowercase()` (which may give more
   * than one character).
   */
  datatype Platform = Platform(
    one: Float,
    parseFloat: string -> Option<Float>,
    formatFloat: Float -> string,
    parsePathString: string -> Result<seq<PathNode>, string>,
    asFunctionCall: PathNode -> string,
    lowercase: char -> string)

  /** `f != 1f` is false exactly for the value one. */
  predicate IsOne(pf: Platform, f: Float) {
    f == pf.one
  }

  /** `VectorNode.Path`: all fields are fixed at construction. */
  datatype Path = Path(strokeAlpha: Float, fillAlpha: Float, fillType: FillType, nodes: seq<PathNode>)

  /**
   * `VectorNode`: a group holds paths only, so groups cannot nest; a path may
   * also stand at the root.
   */
  datatype VectorNode = Group(paths: seq<Path>) | PathLeaf(path: Path)

  /** `Vector`: the auto-mirror flag and the root nodes in document order. */
  datatype Vector = Vector(autoMirrored: bool, nodes: seq<VectorNode>)

  /** `VectorNode.Group()`: a new group starts without paths. */
  function NewGroup(): (g: VectorNode)
    ensures g.Group? && |g.paths| == 0
  {
    Group([])
  }

  /** `group.paths.add(p)`: the path goes last, the earlier ones keep their order. */
  function AddToGroup(g: VectorNode, p: Path): (r: VectorNode)
    requires g.Group?
    ensures r.Group? && |r.paths| == |g.paths| + 1
    ensures r.paths[..|g.paths|] == g.paths && r.paths[|g.paths|] == p
  {
    Group(g.paths + [p])
  }

  /** All paths of `nodes` in document order, each group's in place. */
  function AllPaths(nodes: seq<VectorNode>): seq<Path>
    decreases |nodes|
  {
    if nodes == [] then []
    else
      (match nodes[0]
       case Group(ps) => ps
       case PathLeaf(p) => [p])
      + AllPaths(nodes[1..])
  }

  lemma {:induction false} AllPathsAppend(a: seq<VectorNode>, b: seq<VectorNode>)
    ensures AllPaths(a + b) == AllPaths(a) + AllPaths(b)
    decreases |a|
  {
    if a == [] {
      assert a + b == b;
    } else {
      assert (a + b)[1..] == a[1..] + b;
      AllPathsAppend(a[1..], b);
    }
  }
}
