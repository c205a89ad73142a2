/** The bridge handle: the calls that clear and refill its draw list and event buffer. */
module SpineHandle {
  import opened Wrappers
  import opened SpineDrawList

  const MAX_TRACK := 255

  datatype Code = Ok | InvalidArgument | AnimationNotFound | RuntimeFailure

  datatype Event =
    | Complete(track: nat, animation: string)
    | LoopBoundary(track: nat, animation: string, ordinal: nat)

  /** A runtime callback: the event type is "complete" or not, and what its entry says. */
  datatype Callback = Callback(
    isComplete: bool,
    track: nat,
    isCurrentEntry: bool,
    animation: string,
    duration: Float,
    loop: bool)

  predicate Captured(c: Callback) {
    && c.isComplete && c.track == 0 && c.isCurrentEntry && c.animation != ""
    && c.duration.Finite? && c.duration.value > 0.0
  }

  /** The loop boundaries among the events. */
  function Boundaries(events: seq<Event>): seq<Event> {
    if events == [] then []
    else
      var last := events[|events| - 1];
      Boundaries(events[..|events| - 1]) + (if last.LoopBoundary? then [last] else [])
  }

  predicate EndsWith(whole: seq<Event>, part: seq<Event>) {
    |part| <= |whole| && whole[|whole| - |part|..] == part
  }

  /** Loop boundaries with ordinals 1, 2, 3 and so on. */
  ghost predicate Numbered(emitted: seq<Event>) {
    forall i :: 0 <= i < |emitted| ==> emitted[i].LoopBoundary? && emitted[i].ordinal == i + 1
  }

  ghost predicate Counted(ordinal: nat, emitted: seq<Event>) {
    ordinal == |emitted| && Numbered(emitted)
  }

  /** The buffer, the counter, and every boundary emitted since the last reset of track 0. */
  datatype Buffer = Buffer(events: seq<Event>, ordinal: nat, emitted: seq<Event>)

  /** The boundaries emitted since the reset are numbered by the counter, and those in the buffer are the
      latest of them. */
  ghost predicate InStep(b: Buffer) {
    Counted(b.ordinal, b.emitted) && EndsWith(b.emitted, Boundaries(b.events))
  }

  /** What a callback does to the buffer. */
  function Capture(b: Buffer, c: Callback): Buffer {
    if !Captured(c) then b
    else if c.loop then
      var e := LoopBoundary(0, c.animation, b.ordinal + 1);
      Buffer(b.events + [e], b.ordinal + 1, b.emitted + [e])
    else b.(events := b.events + [Complete(0, c.animation)])
  }

  lemma CaptureKeepsStep(b: Buffer, c: Callback, from: nat)
    requires InStep(b) && from <= |b.emitted| && Boundaries(b.events) == b.emitted[from..]
    ensures var n := Capture(b, c);
            InStep(n) && b.emitted <= n.emitted && Boundaries(n.events) == n.emitted[from..]
  {
    if Captured(c) {
      if c.loop {
        BoundaryKeepsStep(b, LoopBoundary(0, c.animation, b.ordinal + 1), from);
      } else {
        BoundariesAppend(b.events, Complete(0, c.animation));
      }
    }
  }

  lemma BoundaryKeepsStep(b: Buffer, e: Event, from: nat)
    requires InStep(b) && from <= |b.emitted| && Boundaries(b.events) == b.emitted[from..]
    requires e.LoopBoundary? && e.ordinal == b.ordinal + 1
    ensures InStep(Buffer(b.events + [e], b.ordinal + 1, b.emitted + [e]))
    ensures Boundaries(b.events + [e]) == (b.emitted + [e])[from..]
  {
    BoundariesAppend(b.events, e);
    assert (b.emitted + [e])[from..] == b.emitted[from..] + [e];
  }

  lemma BoundariesAppend(events: seq<Event>, e: Event)
    ensures Boundaries(events + [e]) == Boundaries(events) + (if e.LoopBoundary? then [e] else [])
  {
    assert (events + [e])[..|events|] == events;
  }

  // ----- Which callbacks become events -----

  /** How many of the callbacks are of looping entries. */
  function Loops(callbacks: seq<Callback>, from: seq<nat>): nat
    requires Indexes(callbacks, from)
  {
    if from == [] then 0
    else Loops(callbacks, from[..|from| - 1]) + if callbacks[from[|from| - 1]].loop then 1 else 0
  }

  /** `from` lists, in order, those of the first `n` callbacks that report that the current entry of track 0,
      with a name and a positive finite duration, has completed. */
  ghost predicate Completions(callbacks: seq<Callback>, n: nat, from: seq<nat>)
    requires n <= |callbacks|
  {
    && (forall i :: 0 <= i < |from| ==> from[i] < n)
    && (forall i, j :: 0 <= i < j < |from| ==> from[i] < from[j])
    && (forall k :: 0 <= k < n ==>
          var c := callbacks[k];
          k in from <==>
            && c.isComplete && c.isCurrentEntry && c.track == 0
            && |c.animation| > 0 && c.duration.Finite? && c.duration.value > 0.0)
  }

  predicate Indexes(callbacks: seq<Callback>, from: seq<nat>) {
    forall i :: 0 <= i < |from| ==> from[i] < |callbacks|
  }

  /** One event for each, in order: a loop boundary with the next ordinal exactly if the entry loops, and of its
      animation. `base` is the ordinal before the first. */
  function EventsFor(callbacks: seq<Callback>, from: seq<nat>, base: nat): seq<Event>
    requires Indexes(callbacks, from)
  {
    if from == [] then []
    else
      var n := |from| - 1;
      EventsFor(callbacks, from[..n], base) + [EventOf(callbacks[from[n]], base + Loops(callbacks, from[..n]))]
  }

  function EventOf(c: Callback, before: nat): Event {
    if c.loop then LoopBoundary(0, c.animation, before + 1) else Complete(0, c.animation)
  }

  lemma CaptureCompletes(callbacks: seq<Callback>, n: nat, from: seq<nat>)
    requires n < |callbacks| && Completions(callbacks, n, from)
    ensures Completions(callbacks, n + 1, if Captured(callbacks[n]) then from + [n] else from)
  {
    var now := if Captured(callbacks[n]) then from + [n] else from;
    forall k | 0 <= k < n ensures k in now <==> k in from {}
  }

  lemma EventsAppend(callbacks: seq<Callback>, from: seq<nat>, base: nat, n: nat)
    requires n < |callbacks| && Indexes(callbacks, from)
    ensures EventsFor(callbacks, from + [n], base)
         == EventsFor(callbacks, from, base) + [EventOf(callbacks[n], base + Loops(callbacks, from))]
    ensures Loops(callbacks, from + [n]) == Loops(callbacks, from) + if callbacks[n].loop then 1 else 0
  {
    assert (from + [n])[..|from|] == from;
  }

  lemma CaptureReports(b: Buffer, callbacks: seq<Callback>, n: nat, from: seq<nat>, base: nat)
    requires n < |callbacks| && Indexes(callbacks, from)
    requires b.events == EventsFor(callbacks, from, base) && b.ordinal == base + Loops(callbacks, from)
    ensures Captured(callbacks[n]) ==>
      && Capture(b, callbacks[n]).events == EventsFor(callbacks, from + [n], base)
      && Capture(b, callbacks[n]).ordinal == base + Loops(callbacks, from + [n])
    ensures !Captured(callbacks[n]) ==> Capture(b, callbacks[n]) == b
  {
    EventsAppend(callbacks, from, base, n);
  }

  /** The buffer after the first `n` callbacks of an update; `before` are the boundaries emitted earlier. */
  ghost predicate Reporting(b: Buffer, callbacks: seq<Callback>, n: nat, from: seq<nat>, before: seq<Event>)
    requires n <= |callbacks|
  {
    && InStep(b) && before <= b.emitted && Boundaries(b.events) == b.emitted[|before|..]
    && Completions(callbacks, n, from) && b.events == EventsFor(callbacks, from, |before|)
    && b.ordinal == |before| + Loops(callbacks, from)
  }

  lemma EmptyBufferInStep(ordinal: nat, emitted: seq<Event>)
    requires Counted(ordinal, emitted)
    ensures InStep(Buffer([], ordinal, emitted))
  {
    assert emitted[|emitted|..] == [];
  }

  lemma EmptiedBuffer(ordinal: nat, emitted: seq<Event>, track: nat) returns (b: Buffer)
    requires Counted(ordinal, emitted)
    ensures InStep(b) && b == if track == 0 then Buffer([], 0, []) else Buffer([], ordinal, emitted)
  {
    b := if track == 0 then Buffer([], 0, []) else Buffer([], ordinal, emitted);
    EmptyBufferInStep(b.ordinal, b.emitted);
  }

  lemma NothingReported(ordinal: nat, emitted: seq<Event>, callbacks: seq<Callback>)
    requires Counted(ordinal, emitted)
    ensures Reporting(Buffer([], ordinal, emitted), callbacks, 0, [], emitted)
  {
    assert emitted[|emitted|..] == [];
  }

  lemma ReportingStep(b: Buffer, callbacks: seq<Callback>, n: nat, from: seq<nat>, before: seq<Event>)
    requires n < |callbacks| && Reporting(b, callbacks, n, from, before)
    ensures Reporting(Capture(b, callbacks[n]), callbacks, n + 1, if Captured(callbacks[n]) then from + [n] else from,
                      before)
  {
    CaptureKeepsStep(b, callbacks[n], |before|);
    CaptureCompletes(callbacks, n, from);
    CaptureReports(b, callbacks, n, from, |before|);
  }

  lemma ReportingNext(b: Buffer, callbacks: seq<Callback>, n: nat, from: seq<nat>, before: seq<Event>)
    returns (next: Buffer, now: seq<nat>)
    requires n < |callbacks| && Reporting(b, callbacks, n, from, before)
    ensures next == Capture(b, callbacks[n]) && Reporting(next, callbacks, n + 1, now, before)
  {
    ReportingStep(b, callbacks, n, from, before);
    next, now := Capture(b, callbacks[n]), if Captured(callbacks[n]) then from + [n] else from;
  }

  class Handle {
    const catalog: seq<string>
    var drawCommands: DrawList
    var playbackEvents: seq<Event>
    var trackZeroLoopOrdinal: nat
    /** Every loop boundary emitted since the last reset of track 0. */
    ghost var emitted: seq<Event>

    /** The draw list can be drawn by its type; the boundaries since the reset are numbered 1, 2, 3 and so on, and those
        still in the buffer are the latest of them. */
    ghost predicate Valid()
      reads this
    {
      InStep(Events())
    }

    ghost function Events(): Buffer
      reads this
    {
      Buffer(playbackEvents, trackZeroLoopOrdinal, emitted)
    }

    constructor (catalog: seq<string>)
      ensures Valid() && drawCommands == [] && playbackEvents == [] && emitted == []
    {
      this.catalog := catalog;
      drawCommands, playbackEvents, trackZeroLoopOrdinal, emitted := [], [], 0, [];
    }

    /** A callback of the runtime during an update. */
    method CaptureAnimationEvent(c: Callback)
      modifies `playbackEvents, `trackZeroLoopOrdinal, `emitted
      ensures Events() == Capture(old(Events()), c)
    {
      if !c.isComplete || c.track != 0 { return; }
      if !c.isCurrentEntry || c.animation == "" || c.duration.NotFinite? || c.duration.value <= 0.0 { return; }
      var e := Complete(0, c.animation);
      if c.loop {
        trackZeroLoopOrdinal := trackZeroLoopOrdinal + 1;
        e := LoopBoundary(0, c.animation, trackZeroLoopOrdinal);
        emitted := emitted + [e];
      }
      playbackEvents := playbackEvents + [e];
    }

    /** The callbacks that the runtime makes while it is advanced. */
    method RunCallbacks(callbacks: seq<Callback>) returns (ghost from: seq<nat>)
      requires Reporting(Events(), callbacks, 0, [], emitted)
      modifies `playbackEvents, `trackZeroLoopOrdinal, `emitted
      ensures Reporting(Events(), callbacks, |callbacks|, from, old(emitted))
    {
      from := [];
      ghost var before, buffer := emitted, Events();
      for i := 0 to |callbacks|
        invariant Events() == buffer && Reporting(buffer, callbacks, i, from, before)
      {
        CaptureAnimationEvent(callbacks[i]);
        buffer, from := ReportingNext(buffer, callbacks, i, from, before);
      }
    }

    /** Advances the runtime, which calls back and may throw, and rebuilds the draw list from its slots. Valid
        arguments leave either the commands of the slots or an empty list; the events before the call are
        dropped but their ordinals are not reused. */
    method Update(delta: Float, callbacks: seq<Callback>, throws: bool, slots: seq<Slot>)
      returns (code: Code, ghost from: seq<nat>)
      requires Valid()
      modifies this
      ensures Valid()
      ensures (code == InvalidArgument) <==> delta.NotFinite? || delta.value < 0.0
      ensures code == InvalidArgument ==>
        drawCommands == old(drawCommands) && playbackEvents == old(playbackEvents) && emitted == old(emitted)
      ensures code in {Ok, InvalidArgument, RuntimeFailure}
      ensures code == RuntimeFailure ==> drawCommands == []
      ensures code == Ok ==> Commands(slots, |slots|) == Some(drawCommands)
      ensures code != InvalidArgument ==> (code == Ok <==> !throws && Commands(slots, |slots|).Some?)
      ensures old(emitted) <= emitted
      ensures code != InvalidArgument ==> Boundaries(playbackEvents) == emitted[|old(emitted)|..]
      ensures code != InvalidArgument ==> Completions(callbacks, |callbacks|, from)
      ensures code != InvalidArgument ==> playbackEvents == EventsFor(callbacks, from, |old(emitted)|)
    {
      from := [];
      if delta.NotFinite? || delta.value < 0.0 { return InvalidArgument, []; }
      drawCommands, playbackEvents := [], [];
      NothingReported(trackZeroLoopOrdinal, emitted, callbacks);
      from := RunCallbacks(callbacks);
      if throws { return RuntimeFailure, from; }
      var next := BuildList(slots);
      if next.None? { return RuntimeFailure, from; }
      CommandsWellFormed(slots, |slots|);
      drawCommands := next.value;
      code := Ok;
    }

    /** `installed` says whether the runtime accepted the animation. */
    method SetAnimation(track: nat, name: string, loop: nat, installed: bool) returns (code: Code)
      requires Valid()
      modifies this
      ensures Valid()
      ensures code == Ok ==> drawCommands == [] && playbackEvents == []
      ensures code == Ok && track == 0 ==> emitted == []
      ensures !(code == Ok && track == 0) ==> emitted == old(emitted)
      ensures code != Ok ==> drawCommands == old(drawCommands) && playbackEvents == old(playbackEvents)
      ensures code == Selected(track, name, loop, installed)
    {
      code := Selected(track, name, loop, installed);
      if code != Ok { return; }
      RestartEmpty(track);
    }

    /** Installs with a mix and updates at time zero. A rejected call changes nothing; an accepted one
        restarts the numbering on track 0 only. */
    method MixAnimation(track: nat, name: string, loop: nat, mix: Float, installed: bool, callbacks: seq<Callback>,
                        throws: bool, slots: seq<Slot>) returns (code: Code, ghost from: seq<nat>)
      requires Valid()
      modifies this
      ensures Valid()
      ensures code == Ok ==> Commands(slots, |slots|) == Some(drawCommands)
      ensures MixRejection(track, name, loop, mix, installed) != Ok ==>
        && code == MixRejection(track, name, loop, mix, installed)
        && drawCommands == old(drawCommands) && playbackEvents == old(playbackEvents) && emitted == old(emitted)
      ensures MixRejection(track, name, loop, mix, installed) == Ok ==>
        && (code == Ok <==> !throws && Commands(slots, |slots|).Some?)
        && (code != Ok ==> code == RuntimeFailure && drawCommands == [])
      ensures MixRejection(track, name, loop, mix, installed) == Ok ==>
        var base := if track == 0 then [] else old(emitted);
        && base <= emitted && Boundaries(playbackEvents) == emitted[|base|..]
        && Completions(callbacks, |callbacks|, from) && playbackEvents == EventsFor(callbacks, from, |base|)
    {
      from := [];
      code := MixRejection(track, name, loop, mix, installed);
      if code != Ok { return; }
      Restart(track);
      code, from := Update(Finite(0.0), callbacks, throws, slots);
    }

    /** `cleared` says whether the runtime cleared the track without throwing. */
    method ClearTrack(track: nat, cleared: bool) returns (code: Code)
      requires Valid()
      modifies this
      ensures Valid()
      ensures code == (if track > MAX_TRACK then InvalidArgument else if !cleared then RuntimeFailure else Ok)
      ensures code == Ok ==> drawCommands == [] && playbackEvents == [] && (track == 0 ==> emitted == [])
      ensures code != Ok ==> drawCommands == old(drawCommands) && playbackEvents == old(playbackEvents)
      ensures !(code == Ok && track == 0) ==> emitted == old(emitted)
    {
      if track > MAX_TRACK { return InvalidArgument; }
      if !cleared { return RuntimeFailure; }
      RestartEmpty(track);
      code := Ok;
    }

    /** Drops the buffered events; on track 0 the numbering starts again. */
    method Restart(track: nat)
      requires Counted(trackZeroLoopOrdinal, emitted)
      modifies `playbackEvents, `trackZeroLoopOrdinal, `emitted
      ensures Valid() && playbackEvents == []
      ensures emitted == if track == 0 then [] else old(emitted)
    {
      ghost var b := EmptiedBuffer(trackZeroLoopOrdinal, emitted, track);
      playbackEvents := [];
      if track == 0 {
        trackZeroLoopOrdinal, emitted := 0, [];
      }
      assert Events() == b;
    }

    /** The same, and empties the draw list. */
    method RestartEmpty(track: nat)
      requires Valid()
      modifies this
      ensures Valid() && playbackEvents == [] && drawCommands == []
      ensures emitted == if track == 0 then [] else old(emitted)
    {
      Restart(track);
      ghost var b := Events();
      drawCommands := [];
      assert Events() == b;
    }

    /** Why a mix is refused before the animation is installed. */
    function MixRejection(track: nat, name: string, loop: nat, mix: Float, installed: bool): Code {
      if mix.NotFinite? || mix.value < 0.0 then InvalidArgument else Selected(track, name, loop, installed)
    }

    function Selected(track: nat, name: string, loop: nat, installed: bool): Code {
      if name == "" || track > MAX_TRACK || loop > 1 || '\0' in name then InvalidArgument
      else if name !in catalog then AnimationNotFound
      else if !installed then RuntimeFailure
      else Ok
    }
  }

  /** When each code is given to a request for an animation. */
  lemma SelectedMeaning(h: Handle, track: nat, name: string, loop: nat, installed: bool, mix: Float)
    ensures var c := h.Selected(track, name, loop, installed);
            && (c == InvalidArgument <==> name == "" || track >= 256 || (loop != 0 && loop != 1) || '\0' in name)
            && (c != InvalidArgument ==>
                  && (c == AnimationNotFound <==> name !in h.catalog)
                  && (c == RuntimeFailure <==> name in h.catalog && !installed)
                  && (c == Ok <==> name in h.catalog && installed))
            && h.MixRejection(track, name, loop, mix, installed)
               == if mix.Finite? && mix.value >= 0.0 then c else InvalidArgument
  {}

  // ----- Building the list -----

  method BuildList(slots: seq<Slot>) returns (list: Option<seq<Command>>)
    ensures list == Commands(slots, |slots|)
  {
    var commands: seq<Command> := [];
    for order := 0 to |slots|
      invariant Commands(slots, order) == Some(commands)
    {
      var built := BuildSlot(order, slots[order]);
      if built.Fail? {
        FailureStays(slots, order + 1, |slots|);
        return None;
      }
      if built.Emit? { commands := commands + [built.command]; }
    }
    list := Some(commands);
  }

  lemma {:induction false} FailureStays(slots: seq<Slot>, k: nat, n: nat)
    requires k <= n <= |slots| && Commands(slots, k).None?
    ensures Commands(slots, n).None?
  {
    if k < n { FailureStays(slots, k, n - 1); }
  }

  method BuildSlot(order: nat, s: Slot) returns (built: Built)
    ensures built == SlotResult(order, s)
  {
    match s
    case NullSlot => built := Fail;
    case InactiveBone => built := Skip;
    case NoAttachment => built := Skip;
    case Clipping(n) => built := if n < 6 || n % 2 != 0 || n > MAX_CLIPPED_VERTICES * 2 then Fail else Skip;
    case OtherAttachment => built := Fail;
    case RuntimeThrows => built := Fail;
    case Region(g) => built := BuildGeometry(order, g, REGION_TRIANGLES);
    case Mesh(g, n) =>
      if n <= 0 || n % 2 != 0 {
        built := Fail;
      } else {
        built := BuildGeometry(order, g, g.triangles);
      }
  }

  method BuildGeometry(order: nat, g: Geometry, triangles: seq<nat>) returns (built: Built)
    ensures built == GeometryResult(order, g, triangles)
  {
    if !SourceAcceptable(order, g, triangles) { return Fail; }
    if g.clip.Some? {
      if !ClipAcceptable(g.clip.value) { return Fail; }
      if g.clip.value.vertices == [] && g.clip.value.triangles == [] { return Skip; }
    }
    var c := Drawn(g, triangles);
    if !OutputShape(c) || g.blendMode.None? { return Fail; }
    var vertices := CopyVertices(c, TintOf(g.colour));
    if vertices.None? { return Fail; }
    var indices := CopyIndices(c, |vertices.value|);
    if indices.None? { return Fail; }
    built := Emit(Command(vertices.value, indices.value, g.blendMode.value, order));
  }

  method CopyVertices(c: Clip, tint: Tint) returns (vertices: Option<seq<Vertex>>)
    requires OutputShape(c)
    ensures vertices == if AllFinite(c) then Some(VerticesOf(c, tint)) else None
  {
    var copied: seq<Vertex> := [];
    for k := 0 to |c.vertices| / 2
      invariant forall i :: 0 <= i < 2 * k ==> c.vertices[i].Finite? && c.uvs[i].Finite?
      invariant copied == VerticesOf(c, tint)[..k]
    {
      var at := 2 * k;
      if || c.vertices[at].NotFinite? || c.vertices[at + 1].NotFinite?
         || c.uvs[at].NotFinite? || c.uvs[at + 1].NotFinite?
      {
        return None;
      }
      copied := copied + [Vertex(c.vertices[at], c.vertices[at + 1], c.uvs[at], c.uvs[at + 1], tint)];
    }
    assert copied == VerticesOf(c, tint);
    vertices := Some(copied);
  }

  method CopyIndices(c: Clip, count: nat) returns (indices: Option<seq<nat>>)
    requires count == |c.vertices| / 2
    ensures indices == if IndicesInRange(c) then Some(c.triangles) else None
  {
    var copied: seq<nat> := [];
    for i := 0 to |c.triangles|
      invariant copied == c.triangles[..i]
      invariant forall j :: 0 <= j < i ==> c.triangles[j] < count
    {
      if c.triangles[i] >= count { return None; }
      copied := copied + [c.triangles[i]];
    }
    assert copied == c.triangles;
    indices := Some(copied);
  }
}
