/** The small world registry of the 3D engine wrapper and its mouse-look
    pitch clamp. A world is a record whose entries may be absent (a JavaScript
    object with missing keys); only the six keys the engine knows are kept. */
module Engine {

  datatype Option<T> = None | Some(value: T)

  datatype World = World(id: Option<int>, name: Option<string>, fog: Option<int>,
                         plate: Option<int>, title: Option<string>, color: Option<int>)

  datatype Outcome = Ok | Failed(message: string)

  function FullWorld(id: int, name: string, fog: int, plate: int, title: string, color: int): World {
    World(Some(id), Some(name), Some(fog), Some(plate), Some(title), Some(color))
  }

  const DefaultWorlds: seq<World> := [
    FullWorld(1, "WORLD 1", 0x050510, 0x333344, "Beginner", 0x00ffff),
    FullWorld(2, "WORLD 2", 0x220000, 0x552200, "World 2 Survivor", 0xff4400),
    FullWorld(3, "WORLD 3", 0x001100, 0x004411, "World 3 Survivor", 0x00ff44),
    FullWorld(4, "WORLD 4", 0x112222, 0x224466, "World 4 Survivor", 0x0088ff),
    FullWorld(5, "WORLD 5", 0x110011, 0x440044, "World 5 Survivor", 0xff00ff)
  ]

  /** The template a newly added world is completed from; it has no id. */
  const DefaultWorld: World :=
    World(None, Some("Unnamed World"), Some(0x000), Some(0x444), Some("New World"), Some(0xfff))

  const PitchLimit: real := 1.5
  const MouseSensitivity: real := 0.003

  function Pick<T>(over: Option<T>, base: Option<T>): (r: Option<T>)
    ensures over.Some? ==> r == over
    ensures over.None? ==> r == base
  {
    if over.Some? then over else base
  }

  /** The object spread { ...base, ...over }: every entry over has wins, the
      others come from base. */
  function Merge(base: World, over: World): (w: World)
    ensures over.id.Some? ==> w.id == over.id
    ensures over.name.Some? ==> w.name == over.name
    ensures w.fog == Pick(over.fog, base.fog) && w.plate == Pick(over.plate, base.plate)
    ensures w.title == Pick(over.title, base.title) && w.color == Pick(over.color, base.color)
    ensures over.id.None? ==> w.id == base.id
    ensures over.name.None? ==> w.name == base.name
  {
    World(Pick(over.id, base.id), Pick(over.name, base.name), Pick(over.fog, base.fog),
          Pick(over.plate, base.plate), Pick(over.title, base.title), Pick(over.color, base.color))
  }

  /** Merging onto a template changes nothing about a world that already has
      every entry. */
  lemma MergeComplete(base: World, w: World)
    requires w.id.Some? && w.name.Some? && w.fog.Some? && w.plate.Some? && w.title.Some? && w.color.Some?
    ensures Merge(base, w) == w
  {
  }

  /** The index of the first world whose id is `id`, as Array.prototype.find
      scans. */
  function Lookup(ws: seq<World>, id: Option<int>): (r: Option<nat>)
    ensures r.Some? ==> r.value < |ws| && ws[r.value].id == id &&
                        forall k :: 0 <= k < r.value ==> ws[k].id != id
    ensures r.None? ==> forall k :: 0 <= k < |ws| ==> ws[k].id != id
  {
    if ws == [] then None
    else if ws[0].id == id then Some(0)
    else
      var rest := Lookup(ws[1..], id);
      if rest.Some? then Some(rest.value + 1) else None
  }

  /** Appending a world leaves every earlier answer of Lookup alone, and
      makes a missing id found at the end. */
  lemma {:induction false} LookupAppend(ws: seq<World>, w: World, id: Option<int>)
    ensures Lookup(ws, id).Some? ==> Lookup(ws + [w], id) == Lookup(ws, id)
    ensures Lookup(ws, id).None? && w.id == id ==> Lookup(ws + [w], id) == Some(|ws|)
    ensures Lookup(ws, id).None? && w.id != id ==> Lookup(ws + [w], id).None?
  {
    if ws != [] {
      assert (ws + [w])[1..] == ws[1..] + [w];
      LookupAppend(ws[1..], w, id);
    }
  }

  /** Whether a world with this id is listed (Array.prototype.some). */
  predicate Listed(ws: seq<World>, id: Option<int>) {
    exists k :: 0 <= k < |ws| && ws[k].id == id
  }

  /** Clamps the pitch to [-1.5, 1.5]. */
  function ClampPitch(p: real): (r: real)
    ensures -PitchLimit <= r <= PitchLimit
    ensures -PitchLimit <= p <= PitchLimit ==> r == p
  {
    var upper := if PitchLimit < p then PitchLimit else p;
    if -PitchLimit < upper then upper else -PitchLimit
  }

  /** The clamped pitch is the allowed pitch nearest to the requested one. */
  lemma ClampIsNearest(p: real, q: real)
    requires -PitchLimit <= q <= PitchLimit
    ensures var r := ClampPitch(p);
      (if r <= p then p - r else r - p) <= (if q <= p then p - q else q - p)
  {
  }

  class JoshGameEngine {
    var worlds: seq<World>
    var debugMode: bool
    var yaw: real
    var pitch: real

    /** The five default worlds always head the list, and the pitch stays in
        range. */
    ghost predicate Valid() reads this {
      |worlds| >= |DefaultWorlds| && worlds[..|DefaultWorlds|] == DefaultWorlds &&
      -PitchLimit <= pitch <= PitchLimit
    }

    /** The default worlds followed by the configured ones, in order, with no
        de-duplication; an absent list is empty. */
    constructor (configWorlds: Option<seq<World>>, debugMode: bool)
      ensures Valid()
      ensures worlds == DefaultWorlds + (if configWorlds.Some? then configWorlds.value else [])
      ensures this.debugMode == debugMode && yaw == 0.0 && pitch == 0.0
    {
      worlds := DefaultWorlds + (if configWorlds.Some? then configWorlds.value else []);
      this.debugMode := debugMode;
      yaw := 0.0;
      pitch := 0.0;
    }

    /** addWorld: a missing world or one without an id is refused; an id
        already listed leaves the list alone; otherwise the world, completed
        from the template, is appended. */
    method AddWorld(world: Option<World>) returns (result: Outcome)
      requires Valid()
      modifies this`worlds
      ensures Valid()
      ensures (world.None? || world.value.id.None?) <==> result.Failed?
      ensures result.Failed? ==> worlds == old(worlds)
      ensures result.Ok? && Listed(old(worlds), world.value.id) ==> worlds == old(worlds)
      ensures result.Ok? && !Listed(old(worlds), world.value.id) ==>
                worlds == old(worlds) + [Merge(DefaultWorld, world.value)]
    {
      if world.None? || world.value.id.None? {
        return Failed("JoshGameEngine Error: World needs a unique \"id\"");
      }
      var isDuplicate := false;
      var k := 0;
      while k < |worlds|
        invariant 0 <= k <= |worlds|
        invariant isDuplicate <==> exists j :: 0 <= j < k && worlds[j].id == world.value.id
      {
        if worlds[k].id == world.value.id {
          isDuplicate := true;
        }
        k := k + 1;
      }
      if !isDuplicate {
        worlds := worlds + [Merge(DefaultWorld, world.value)];
      }
      result := Ok;
    }

    /** getWorld: the first world with this id, or the first world of all. */
    function GetWorld(id: Option<int>): (w: World)
      reads this
      requires Valid()
      ensures Listed(worlds, id) ==>
        exists k :: 0 <= k < |worlds| && worlds[k] == w && w.id == id &&
          forall j :: 0 <= j < k ==> worlds[j].id != id
      ensures !Listed(worlds, id) ==> w == DefaultWorlds[0]
    {
      var found := Lookup(worlds, id);
      if found.Some? then worlds[found.value] else worlds[0]
    }

    /** The mousemove handler: with the pointer locked, turn by the mouse
        movement and keep the pitch clamped; otherwise nothing changes. */
    method OnMouseMove(pointerLocked: bool, movementX: real, movementY: real)
      requires Valid()
      modifies this`yaw, this`pitch
      ensures Valid()
      ensures pointerLocked ==> yaw == old(yaw) - movementX * MouseSensitivity &&
                                pitch == ClampPitch(old(pitch) - movementY * MouseSensitivity)
      ensures !pointerLocked ==> yaw == old(yaw) && pitch == old(pitch)
    {
      if pointerLocked {
        yaw := yaw - movementX * MouseSensitivity;
        pitch := ClampPitch(pitch - movementY * MouseSensitivity);
      }
    }
  }

  /** Adding a fresh id makes getWorld find exactly the completed world;
      every id listed before is answered as before. */
  lemma AddedWorldIsFound(ws: seq<World>, w: World, id: Option<int>)
    requires |ws| >= |DefaultWorlds| && ws[..|DefaultWorlds|] == DefaultWorlds
    requires w.id.Some? && !Listed(ws, w.id)
    ensures var m := Merge(DefaultWorld, w);
      Lookup(ws + [m], w.id) == Some(|ws|) &&
      (Lookup(ws, id).Some? ==> Lookup(ws + [m], id) == Lookup(ws, id))
  {
    var m := Merge(DefaultWorld, w);
    LookupAppend(ws, m, w.id);
    LookupAppend(ws, m, id);
  }
}
