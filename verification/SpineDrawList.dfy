/** The draw list and playback events of a bridge handle. What the animation runtime computes is taken as
    arbitrary values that the bridge then checks. */
module SpineDrawList {
  import opened Wrappers

  /** A floating-point value: a number, or an infinity or NaN. */
  datatype Float = Finite(value: real) | NotFinite

  datatype Vertex = Vertex(x: Float, y: Float, u: Float, v: Float, tint: Tint)

  datatype Tint = Tint(r: nat, g: nat, b: nat, a: nat)

  datatype Command = Command(vertices: seq<Vertex>, indices: seq<nat>, blendMode: nat, drawOrder: nat)

  /** The clipper's output, when it is clipping. */
  datatype Clip = Clip(vertices: seq<Float>, uvs: seq<Float>, triangles: seq<nat>)

  /** What the runtime gives for a region or mesh; `blendMode` is `None` for a mode the bridge does not know. */
  datatype Geometry = Geometry(
    worldVertices: seq<Float>,
    uvs: Option<seq<Float>>,
    triangles: seq<nat>,
    onTheOnlyPage: bool,
    clip: Option<Clip>,
    blendMode: Option<nat>,
    colour: (Float, Float, Float, Float))

  datatype Slot =
    | NullSlot
    | InactiveBone
    | NoAttachment
    | Clipping(worldVertexValues: int)
    | Region(geometry: Geometry)
    | Mesh(geometry: Geometry, worldVerticesLength: int)
    | OtherAttachment
    | RuntimeThrows

  datatype Built = Skip | Emit(command: Command) | Fail

  const INT32_MAX := 0x7fff_ffff
  const MAX_CLIPPED_VERTICES := 0x1_0000
  const REGION_TRIANGLES: seq<nat> := [0, 1, 2, 2, 3, 0]

  function ColourByte(f: Float): (b: nat)
    ensures b <= 255
  {
    if f.NotFinite? || f.value <= 0.0 then 0
    else if f.value >= 1.0 then 255
    else (f.value * 255.0).Floor
  }

  function TintOf(c: (Float, Float, Float, Float)): Tint {
    Tint(ColourByte(c.0), ColourByte(c.1), ColourByte(c.2), ColourByte(c.3))
  }

  // ----- One slot -----

  /** What is drawn: the clipped output if there is one. */
  function Drawn(g: Geometry, triangles: seq<nat>): Clip
    requires g.uvs.Some?
  {
    if g.clip.Some? then g.clip.value else Clip(g.worldVertices, g.uvs.value, triangles)
  }

  predicate SourceAcceptable(order: nat, g: Geometry, triangles: seq<nat>) {
    && g.onTheOnlyPage
    && g.uvs.Some? && |g.uvs.value| == |g.worldVertices| > 0
    && |triangles| > 0 && |triangles| % 3 == 0
    && order <= INT32_MAX
    && forall i :: 0 <= i < |triangles| ==> triangles[i] < |g.worldVertices| / 2
  }

  predicate ClipAcceptable(c: Clip) {
    |c.uvs| == |c.vertices| && |c.vertices| % 2 == 0 && |c.vertices| / 2 <= MAX_CLIPPED_VERTICES
  }

  predicate OutputShape(c: Clip) {
    |c.uvs| == |c.vertices| > 0 && |c.vertices| % 2 == 0 && |c.triangles| > 0 && |c.triangles| % 3 == 0
  }

  predicate AllFinite(c: Clip)
    requires |c.uvs| == |c.vertices|
  {
    forall i :: 0 <= i < |c.vertices| ==> c.vertices[i].Finite? && c.uvs[i].Finite?
  }

  predicate IndicesInRange(c: Clip) {
    forall i :: 0 <= i < |c.triangles| ==> c.triangles[i] < |c.vertices| / 2
  }

  function VertexAt(c: Clip, tint: Tint, k: nat): Vertex
    requires |c.uvs| == |c.vertices| && 2 * k + 1 < |c.vertices|
  {
    Vertex(c.vertices[2 * k], c.vertices[2 * k + 1], c.uvs[2 * k], c.uvs[2 * k + 1], tint)
  }

  function VerticesOf(c: Clip, tint: Tint): seq<Vertex>
    requires |c.uvs| == |c.vertices|
  {
    seq(|c.vertices| / 2, k requires 0 <= k < |c.vertices| / 2 => VertexAt(c, tint, k))
  }

  function GeometryResult(order: nat, g: Geometry, triangles: seq<nat>): Built {
    if !SourceAcceptable(order, g, triangles) then Fail
    else if g.clip.Some? && !ClipAcceptable(g.clip.value) then Fail
    else if g.clip.Some? && g.clip.value.vertices == [] && g.clip.value.triangles == [] then Skip
    else
      var c := Drawn(g, triangles);
      if !OutputShape(c) || g.blendMode.None? || !AllFinite(c) || !IndicesInRange(c) then Fail
      else Emit(Command(VerticesOf(c, TintOf(g.colour)), c.triangles, g.blendMode.value, order))
  }

  function SlotResult(order: nat, s: Slot): Built {
    match s
    case NullSlot => Fail
    case InactiveBone => Skip
    case NoAttachment => Skip
    case Clipping(n) => if n < 6 || n % 2 != 0 || n > MAX_CLIPPED_VERTICES * 2 then Fail else Skip
    case Region(g) => GeometryResult(order, g, REGION_TRIANGLES)
    case Mesh(g, n) => if n <= 0 || n % 2 != 0 then Fail else GeometryResult(order, g, g.triangles)
    case OtherAttachment => Fail
    case RuntimeThrows => Fail
  }

  // ----- When a slot is drawn -----

  /** A channel is scaled to 255 and cut off; what is not a number counts as zero. */
  lemma ColourByteMeaning(f: Float)
    ensures var b := ColourByte(f);
            && (f.NotFinite? ==> b == 0)
            && (f.Finite? && f.value <= 0.0 ==> b == 0)
            && (f.Finite? && f.value >= 1.0 ==> b == 255)
            && (f.Finite? && 0.0 < f.value < 1.0 ==> b as real <= 255.0 * f.value < b as real + 1.0)
  {}

  /** What the runtime gave is a non-empty triangle list over its own vertices, on the one page. */
  ghost predicate GoodSource(order: nat, g: Geometry, triangles: seq<nat>) {
    && g.onTheOnlyPage && order <= 2147483647
    && g.uvs.Some? && |g.uvs.value| == |g.worldVertices| && |g.worldVertices| != 0
    && |triangles| != 0 && |triangles| % 3 == 0
    && forall i :: 0 <= i < |triangles| ==> triangles[i] < |g.worldVertices| / 2
  }

  /** The clipper's output has a texture coordinate for each of at most 65536 vertices. */
  ghost predicate GoodClip(c: Clip) {
    |c.uvs| == |c.vertices| && |c.vertices| % 2 == 0 && |c.vertices| <= 131072
  }

  /** The output is a non-empty triangle list of numbers over its own vertices. */
  ghost predicate GoodOutput(vertices: seq<Float>, uvs: seq<Float>, triangles: seq<nat>) {
    && |vertices| != 0 && |vertices| % 2 == 0 && |uvs| == |vertices|
    && |triangles| != 0 && |triangles| % 3 == 0
    && (forall i :: 0 <= i < |vertices| ==> vertices[i].Finite?) && (forall i :: 0 <= i < |uvs| ==> uvs[i].Finite?)
    && forall i :: 0 <= i < |triangles| ==> triangles[i] < |vertices| / 2
  }

  /** The command holds the output unchanged, every vertex with the tint. */
  ghost predicate Holds(c: Command, order: nat, g: Geometry, vertices: seq<Float>, uvs: seq<Float>,
                        triangles: seq<nat>)
  {
    && c.drawOrder == order && g.blendMode == Some(c.blendMode) && c.indices == triangles
    && 2 * |c.vertices| == |vertices| == |uvs|
    && forall k :: 0 <= k < |c.vertices| ==>
         && c.vertices[k].x == vertices[2 * k] && c.vertices[k].y == vertices[2 * k + 1]
         && c.vertices[k].u == uvs[2 * k] && c.vertices[k].v == uvs[2 * k + 1]
         && c.vertices[k].tint.r == ColourByte(g.colour.0) && c.vertices[k].tint.g == ColourByte(g.colour.1)
         && c.vertices[k].tint.b == ColourByte(g.colour.2) && c.vertices[k].tint.a == ColourByte(g.colour.3)
  }

  lemma UnclippedMeaning(order: nat, g: Geometry, triangles: seq<nat>)
    requires g.clip.None?
    ensures var b := GeometryResult(order, g, triangles);
            && !b.Skip?
            && (b.Emit? <==> && GoodSource(order, g, triangles) && g.blendMode.Some?
                             && GoodOutput(g.worldVertices, g.uvs.value, triangles))
            && (b.Emit? ==> Holds(b.command, order, g, g.worldVertices, g.uvs.value, triangles))
  {}

  lemma ClippedMeaning(order: nat, g: Geometry, triangles: seq<nat>)
    requires g.clip.Some?
    ensures var b, c := GeometryResult(order, g, triangles), g.clip.value;
            && (b.Skip? <==> GoodSource(order, g, triangles) && c.vertices == [] && c.uvs == [] && c.triangles == [])
            && (b.Emit? <==> && GoodSource(order, g, triangles) && GoodClip(c) && g.blendMode.Some?
                             && GoodOutput(c.vertices, c.uvs, c.triangles))
            && (b.Emit? ==> Holds(b.command, order, g, c.vertices, c.uvs, c.triangles))
  {}

  /** Which slots fail or are passed over whatever they draw; a region is two triangles, a mesh its own. */
  lemma SlotMeaning(order: nat, s: Slot)
    ensures match s
            case NullSlot => SlotResult(order, s) == Fail
            case InactiveBone => SlotResult(order, s) == Skip
            case NoAttachment => SlotResult(order, s) == Skip
            case OtherAttachment => SlotResult(order, s) == Fail
            case RuntimeThrows => SlotResult(order, s) == Fail
            case Clipping(n) =>
              SlotResult(order, s) == if 6 <= n <= 131072 && n % 2 == 0 then Skip else Fail
            case Region(g) => SlotResult(order, s) == GeometryResult(order, g, [0, 1, 2, 2, 3, 0])
            case Mesh(g, n) =>
              SlotResult(order, s) == if n >= 2 && n % 2 == 0 then GeometryResult(order, g, g.triangles) else Fail
  {}

  // ----- The whole list -----

  /** A command that can be drawn without reading outside its own vertices. */
  ghost predicate Drawable(c: Command) {
    && |c.indices| > 0 && |c.indices| % 3 == 0
    && (forall i :: 0 <= i < |c.indices| ==> c.indices[i] < |c.vertices|)
    && (forall k :: 0 <= k < |c.vertices| ==>
          c.vertices[k].x.Finite? && c.vertices[k].y.Finite? && c.vertices[k].u.Finite? && c.vertices[k].v.Finite?)
    && c.drawOrder <= INT32_MAX
  }

  ghost predicate WellFormed(list: seq<Command>) {
    && (forall i :: 0 <= i < |list| ==> Drawable(list[i]))
    && (forall i, j :: 0 <= i < j < |list| ==> list[i].drawOrder < list[j].drawOrder)
  }

  /** A list that can be drawn in order. */
  type DrawList = list: seq<Command> | WellFormed(list) witness []

  /** The commands of the first `n` slots, or nothing if one of them fails. */
  function Commands(slots: seq<Slot>, n: nat): Option<seq<Command>>
    requires n <= |slots|
  {
    if n == 0 then Some([])
    else
      var before := Commands(slots, n - 1);
      match SlotResult(n - 1, slots[n - 1])
      case Fail => None
      case Skip => before
      case Emit(c) => if before.None? then None else Some(before.value + [c])
  }

  lemma EmittedIsDrawable(order: nat, s: Slot)
    ensures SlotResult(order, s).Emit? ==>
      Drawable(SlotResult(order, s).command) && SlotResult(order, s).command.drawOrder == order
  {}

  /** Whatever the runtime computes, a list that is built is well formed, and it has a command for exactly
      the slots that emit one. */
  lemma {:induction false} CommandsWellFormed(slots: seq<Slot>, n: nat)
    requires n <= |slots| && Commands(slots, n).Some?
    ensures var list := Commands(slots, n).value;
            && WellFormed(list)
            && (forall i :: 0 <= i < |list| ==>
                  && list[i].drawOrder < n
                  && SlotResult(list[i].drawOrder, slots[list[i].drawOrder]) == Emit(list[i]))
            && (forall k :: 0 <= k < n && SlotResult(k, slots[k]).Emit? ==> SlotResult(k, slots[k]).command in list)
  {
    if n > 0 {
      CommandsWellFormed(slots, n - 1);
      EmittedIsDrawable(n - 1, slots[n - 1]);
      var before, list := Commands(slots, n - 1).value, Commands(slots, n).value;
      var last := SlotResult(n - 1, slots[n - 1]);
      if last.Emit? {
        assert list == before + [last.command];
        forall k | 0 <= k < n && SlotResult(k, slots[k]).Emit? ensures SlotResult(k, slots[k]).command in list {
          assert k < n - 1 || SlotResult(k, slots[k]) == last;
        }
      }
    }
  }
}
