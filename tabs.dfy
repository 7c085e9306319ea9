/**
 * The data the tab module works on, with Blender's host objects reduced to
 * plain values: the evaluation context, Properties-editor spaces, tab
 * entries (the dicts of `NATIVE_ITEMS` and of the shared registry) and the
 * small pure rules of customtab.py that read them.
 */
module Tabs {
  import opened Options
  import opened TextOps

  /** The active object, reduced to what the data icon depends on. */
  datatype ObjectInfo = ObjectInfo(kind: string, dataIsImage: bool)

  /** The parts of `bpy.context` the tab rules read. */
  datatype Context = Context(activeObject: Option<ObjectInfo>, collectionIsScene: bool)

  /** What calling a user poll function does: return a truth value, or raise. */
  datatype PollOutcome = Returned(holds: bool) | Raised

  type PollFn = Context -> PollOutcome

  /** A tab icon is a named icon (string) or a custom icon id (integer). */
  datatype Icon = IconName(name: string) | IconValue(iconId: int)

  /**
   * One tab entry. `header` and `draw` stand for the user's drawing callbacks,
   * kept as opaque handles because drawing is not modelled.
   */
  datatype Tab = Tab(
    id: string,
    name: string,
    description: string,
    icon: Icon,
    poll: Option<PollFn>,
    header: Option<nat>,
    draw: Option<nat>,
    group: string)

  /** A UI space: its type, its memory address and its `context` enum, when it has one. */
  datatype Space = Space(kind: string, pointer: nat, context: Option<string>)

  const Properties := "PROPERTIES"
  const ToolTab := "TOOL"
  const DataIconMarker := "*DATAICON*"
  const PropPrefix := "TabCustv1" + "_enum"

  function NativeTab(id: string, group: string, icon: string, name: string, description: string): Tab
  {
    Tab(id, name, description, IconName(icon), None, None, None, group)
  }

  /** The tabs Blender's Properties editor offers natively, in editor order. */
  const NativeItems: seq<Tab> := [
    NativeTab("TOOL", "TOOLS", "TOOL_SETTINGS", "Tool", "Active Tool and Workspace settings"),
    NativeTab("RENDER", "SCENE", "SCENE", "Render", "Render Properties"),
    NativeTab("OUTPUT", "SCENE", "OUTPUT", "Output", "Output Properties"),
    NativeTab("VIEW_LAYER", "SCENE", "RENDERLAYERS", "View Layer", "View Layer Properties"),
    NativeTab("SCENE", "SCENE", "SCENE_DATA", "Scene", "Scene Properties"),
    NativeTab("WORLD", "SCENE", "WORLD", "World", "World Properties"),
    NativeTab("COLLECTION", "COLLECTION", "GROUP", "Collection", "Collection Properties"),
    NativeTab("OBJECT", "OBJECT", "OBJECT_DATA", "Object", "Object Properties"),
    NativeTab("MODIFIER", "OBJECT", "MODIFIER", "Modifiers", "Modifier Properties"),
    NativeTab("SHADERFX", "OBJECT", "SHADERFX", "Effects", "Visual Effects Properties"),
    NativeTab("PARTICLES", "OBJECT", "PARTICLES", "Particles", "Particle Properties"),
    NativeTab("PHYSICS", "OBJECT", "PHYSICS", "Physics", "Physics Properties"),
    NativeTab("CONSTRAINT", "OBJECT", "CONSTRAINT", "Constraints", "Object Constraint Properties"),
    NativeTab("DATA", "OBJECT", DataIconMarker, "Data", "Object Data Properties"),
    NativeTab("BONE", "OBJECT", "BONE_DATA", "Bone", "Bone Properties"),
    NativeTab("BONE_CONSTRAINT", "OBJECT", "CONSTRAINT_BONE", "Bone Constraints", "Bone Constraint Properties"),
    NativeTab("MATERIAL", "OBJECT", "MATERIAL", "Material", "Material Properties"),
    NativeTab("TEXTURE", "TEXTURE", "TEXTURE", "Texture", "Texture Properties")
  ]

  /** The ids of the native tabs, in table order, the Tool tab first. */
  function NativeIds(): (r: seq<string>)
    ensures |r| == |NativeItems|
    ensures r[0] == ToolTab
    ensures forall k :: 0 <= k < |r| ==> r[k] == NativeItems[k].id
  {
    seq(|NativeItems|, k requires 0 <= k < |NativeItems| => NativeItems[k].id)
  }

  /** No two native tabs share an id. */
  lemma NativeIdsDistinct()
    ensures forall i, j :: 0 <= i < j < |NativeIds()| ==> NativeIds()[i] != NativeIds()[j]
  {
  }

  /** `_poll_object`: there is an active object. */
  predicate PollObject(ctx: Context): (r: bool)
    ensures r <==> ctx.activeObject != None
  {
    ctx.activeObject.Some?
  }

  /** `_poll_collection`: the context collection is not the scene's master collection. */
  predicate PollCollection(ctx: Context): (r: bool)
    ensures r <==> !ctx.collectionIsScene
  {
    !ctx.collectionIsScene
  }

  /** Object type to the icon of its data, for the native "Data" tab. */
  const DataIcons: map<string, string> := map[
    "MESH" := "MESH_DATA",
    "CURVE" := "CURVE_DATA",
    "SURFACE" := "SURFACE_DATA",
    "META" := "META_DATA",
    "FONT" := "FONT_DATA",
    "VOLUME" := "VOLUME_DATA",
    "LIGHT" := "LIGHT_DATA",
    "GREASEPENCIL" := "OUTLINER_DATA_GREASEPENCIL",
    "CAMERA" := "CAMERA_DATA",
    "ARMATURE" := "ARMATURE_DATA",
    "LATTICE" := "LATTICE_DATA",
    "EMPTY" := "EMPTY_DATA",
    "LIGHT_PROBE" := "LIGHTPROBE_SPHERE",
    "SPEAKER" := "SPEAKER"
  ]

  /**
   * `_get_dataicon_fromcontext`: the data icon of an object type; an empty
   * holding an image shows the image icon, anything unknown a question mark.
   */
  function DataIcon(obj: Option<ObjectInfo>): (r: string)
    ensures r == "QUESTION" <==> obj.None? || obj.value.kind !in DataIcons
    ensures r == "IMAGE_DATA" <==> obj.Some? && obj.value.kind == "EMPTY" && obj.value.dataIsImage
    ensures obj.Some? && obj.value.kind in DataIcons && !(obj.value.kind == "EMPTY" && obj.value.dataIsImage) ==>
              r == DataIcons[obj.value.kind]
  {
    if obj.None? then "QUESTION"
    else if obj.value.kind !in DataIcons then "QUESTION"
    else
      var corresponding := DataIcons[obj.value.kind];
      if corresponding == "EMPTY_DATA" && obj.value.dataIsImage then "IMAGE_DATA"
      else corresponding
  }

  /**
   * `get_customtab_propname`: the name of the per-space tab property,
   * derived from the space's address; `None` for other space types.
   */
  function PropName(space: Space): (r: Option<string>)
    ensures r.Some? <==> space.kind == Properties
    ensures r.Some? ==> |r.value| > |PropPrefix| && r.value[..|PropPrefix|] == PropPrefix
  {
    if space.kind != Properties then None
    else Some(PropPrefix + Decimal(space.pointer))
  }

  /** Two Properties spaces share a property name only when they share an address. */
  lemma PropNameInjective(a: Space, b: Space)
    requires a.kind == Properties && b.kind == Properties
    ensures PropName(a) == PropName(b) <==> a.pointer == b.pointer
  {
    if PropName(a) == PropName(b) {
      var na, nb := PropName(a).value, PropName(b).value;
      assert na[|PropPrefix|..] == Decimal(a.pointer);
      assert nb[|PropPrefix|..] == Decimal(b.pointer);
      DecimalInjective(a.pointer, b.pointer);
    }
  }

  /**
   * `get_customtab_value`: the current value of the space's tab property,
   * read from the window manager's properties (`values`), or `None`.
   */
  function TabValue(values: map<string, string>, space: Space): (r: Option<string>)
    ensures space.kind != Properties ==> r.None?
    ensures r.Some? ==> PropName(space).value in values && r.value == values[PropName(space).value]
    ensures space.kind == Properties && PropName(space).value in values ==> r.Some?
  {
    if space.kind != Properties then None
    else
      var name := PropName(space).value;
      if name in values then Some(values[name]) else None
  }

  /** The space shows the Properties editor's Tool tab. */
  predicate InToolTab(space: Space)
  {
    space.kind == Properties && space.context == Some(ToolTab)
  }
}
