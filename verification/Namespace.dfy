/** The ACPI namespace as `core/ns.c` sees it: nodes with parent pointers, one table of children
    per node, and the name resolution rules. Nodes are numbered in the order of their creation;
    a node is never freed, it only leaves its parent's table. */
module Namespace {
  import opened Bits
  import opened Outcomes
  import opened Names

  /** What the contents of an object are not modelled of. */
  datatype Form = TextForm | BufferForm | PackageForm | LazyForm | ReferenceForm

  /** The objects: integers, handles to nodes, the zeroed variable, and strings, buffers, packages,
      unresolved names and references, of which only the form and the size are known. */
  datatype Object =
    | Uninit
    | Integer(n: u64)
    | Handle(node: nat)
    | Opaque(form: Form, size: nat)

  /** Nodes without children tables of their own that evaluate to a handle. */
  datatype Station = OpRegion | Mutex | Event | Processor | PowerResource | ThermalZone

  /** Where the bits of a field are. */
  datatype Register = InRegion(region: nat) | Indexed(index: nat, data: nat)

  datatype Kind =
    | Root
    | Device
    | NameObject(content: Object)
    | Method(flags: byte, code: seq<byte>, size: int)
    | Alias(target: nat)
    | Other(station: Station)
    | FieldUnit(register: Register, flags: byte, offset: nat, bits: nat)
    | BufferField(start: nat, length: nat)

  datatype Node = Node(name: Segment, parent: Option<nat>, kind: Kind)

  datatype Space = Space(nodes: map<nat, Node>, kids: map<(nat, Segment), nat>, next: nat)

  function KindOf(ns: Space, n: nat): Option<Kind> {
    if n in ns.nodes then Some(ns.nodes[n].kind) else None
  }

  /** The parent pointer. A parent is created before its children, so its number is smaller. */
  function ParentOf(ns: Space, n: nat): (p: Option<nat>)
    ensures p.Some? ==> p.value < n
  {
    if n in ns.nodes && ns.nodes[n].parent.Some? && ns.nodes[n].parent.value < n
    then ns.nodes[n].parent else None
  }

  /** `lai_ns_get_child`. */
  function GetChild(ns: Space, parent: nat, name: Segment): Option<nat> {
    if (parent, name) in ns.kids then Some(ns.kids[(parent, name)]) else None
  }

  /** An alias names its target, which must not be an alias itself. */
  function FollowAlias(ns: Space, n: nat): Res<nat> {
    match KindOf(ns, n)
    case Some(Alias(target)) =>
      if KindOf(ns, target).Some? && KindOf(ns, target).value.Alias? then Fail(Panic) else Ok(target)
    case _ => Ok(n)
  }

  function RootOf(ns: Space, n: nat): nat {
    match ParentOf(ns, n)
    case None => n
    case Some(p) => RootOf(ns, p)
  }

  function Ascend(ns: Space, n: nat, height: nat): Res<nat>
    decreases height
  {
    if height == 0 then Ok(n)
    else
      match ParentOf(ns, n)
      case None => if KindOf(ns, n) == Some(Root) then Ok(n) else Fail(Panic)
      case Some(p) => Ascend(ns, p, height - 1)
  }

  /** Where the segments of a relative or absolute name start. */
  function StartOf(ns: Space, ctx: nat, name: AmlName): Res<nat> {
    if name.isAbsolute && KindOf(ns, RootOf(ns, ctx)) != Some(Root) then Fail(Panic)
    else Ascend(ns, if name.isAbsolute then RootOf(ns, ctx) else ctx, name.height)
  }

  function Descend(ns: Space, n: nat, segments: seq<Segment>): Option<nat>
    decreases |segments|
  {
    if segments == [] then Some(n)
    else
      match GetChild(ns, n, segments[0])
      case None => None
      case Some(c) => Descend(ns, c, segments[1..])
  }

  function SearchUp(ns: Space, n: nat, segment: Segment): Res<Option<nat>> {
    match GetChild(ns, n, segment)
    case Some(c) =>
      var r :- FollowAlias(ns, c);
      Ok(Some(r))
    case None =>
      match ParentOf(ns, n)
      case None => Ok(None)
      case Some(p) => SearchUp(ns, p, segment)
  }

  /** `lai_do_resolve`: the node a parsed name denotes in a context, `None` if there is none. */
  function DoResolve(ns: Space, ctx: nat, name: AmlName): Res<Option<nat>> {
    if KindOf(ns, ctx).Some? && KindOf(ns, ctx).value.Alias? then Fail(Panic)
    else if name.SearchScopes() then SearchUp(ns, ctx, name.segments[0])
    else
      var start :- StartOf(ns, ctx, name);
      if name.segments == [] then Ok(Some(start))
      else
        match Descend(ns, start, name.segments)
        case None => Ok(None)
        case Some(c) =>
          var r :- FollowAlias(ns, c);
          Ok(Some(r))
  }

  /** The parent of a new node: every segment but the last is looked up, following aliases. */
  function DescendToParent(ns: Space, n: nat, segments: seq<Segment>): Res<nat>
    requires segments != []
    decreases |segments|
  {
    if |segments| == 1 then Ok(n)
    else
      match GetChild(ns, n, segments[0])
      case None => Fail(Panic)
      case Some(c) =>
        var r :- FollowAlias(ns, c);
        DescendToParent(ns, r, segments[1..])
  }

  /** `lai_do_resolve_new_node`: the parent and the name of the node to create. */
  function DoResolveNew(ns: Space, ctx: nat, name: AmlName): Res<(nat, Segment)> {
    if KindOf(ns, ctx).Some? && KindOf(ns, ctx).value.Alias? then Fail(Panic)
    else
      var start :- StartOf(ns, ctx, name);
      if name.segments == [] then Fail(Panic)
      else
        var parent :- DescendToParent(ns, start, name.segments);
        Ok((parent, name.segments[|name.segments| - 1]))
  }

  /** `lai_install_nsnode` on a fresh node; a duplicate name is reported and not installed. */
  function Install(ns: Space, parent: nat, name: Segment, kind: Kind): Res<Space> {
    if (parent, name) in ns.kids then Fail(Api(UnexpectedResult))
    else Ok(ns.(nodes := ns.nodes[ns.next := Node(name, Some(parent), kind)],
                kids := ns.kids[(parent, name) := ns.next],
                next := ns.next + 1))
  }

  /** `lai_uninstall_nsnode`: a node that is not in its parent's table is a panic. */
  function Uninstall(ns: Space, n: nat): Res<Space> {
    if n !in ns.nodes then Fail(Internal)
    else if ns.nodes[n].parent.None? then Ok(ns)
    else
      var key := (ns.nodes[n].parent.value, ns.nodes[n].name);
      if key in ns.kids && ns.kids[key] == n then Ok(ns.(kids := ns.kids - {key})) else Fail(Internal)
  }

  /** The clean-up loop at the end of a method: every node on the per-method list is uninstalled. */
  function UninstallAll(ns: Space, created: seq<nat>): Res<Space>
    decreases |created|
  {
    if created == [] then Ok(ns)
    else
      var ns' :- Uninstall(ns, created[0]);
      UninstallAll(ns', created[1..])
  }

  /** Replaces the objects of some `Name()` nodes. */
  function Refill(ns: Space, contents: map<nat, Object>): Space {
    ns.(nodes := map n | n in ns.nodes ::
      if n in contents && ns.nodes[n].kind.NameObject?
      then ns.nodes[n].(kind := NameObject(contents[n])) else ns.nodes[n])
  }

  /** Replaces the object of a `Name()` node. */
  function SetObject(ns: Space, n: nat, content: Object): Space
    requires n in ns.nodes
  {
    ns.(nodes := ns.nodes[n := ns.nodes[n].(kind := NameObject(content))])
  }

  /** The same tree of the same nodes, except for the contents of `Name()` objects. */
  predicate SameTree(ns: Space, ns': Space) {
    && ns'.kids == ns.kids && ns'.next == ns.next && ns'.nodes.Keys == ns.nodes.Keys
    && forall n :: n in ns.nodes ==>
         && ns'.nodes[n].name == ns.nodes[n].name && ns'.nodes[n].parent == ns.nodes[n].parent
         && (ns'.nodes[n].kind == ns.nodes[n].kind || (ns'.nodes[n].kind.NameObject? && ns.nodes[n].kind.NameObject?))
  }

  lemma RefillKeepsTree(ns: Space, contents: map<nat, Object>)
    ensures SameTree(ns, Refill(ns, contents))
  {
  }

  /** Nodes are numbered below the next fresh number. */
  predicate Numbered(ns: Space) {
    forall n :: n in ns.nodes ==> n < ns.next
  }
}
