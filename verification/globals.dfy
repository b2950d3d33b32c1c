/** The UI's mirror of one PipeWire object (`Global`), its type-specific
    data, its child list and the requests its panel sends. Children are
    ids rather than weak pointers; a child is alive when its id is a key of
    the store of globals. */
module Globals {
  import opened Base
  import opened Props
  import opened Protocol
  import opened KvEdit
  import opened Derive

  /** Type-specific data: clients carry their known permission list (none
      until fetched), staged permission rows and staged property rows. */
  datatype ObjectData =
    | ClientData(permissions: Option<seq<Permissions>>, userPermissions: seq<Permissions>,
                 userProperties: EditableKVList)
    | OtherData(otherType: ObjectType)

  /** `ObjectData::from(ObjectType)` */
  function DataFor(t: ObjectType): (d: ObjectData)
    ensures d.ClientData? <==> t.Client?
    ensures d.ClientData? ==>
              d.permissions.None? && |d.userPermissions| == 0 && |d.userProperties.list| == 0
  {
    match t
    case Client => ClientData(None, [], NewList())
    case _ => OtherData(t)
  }

  /** `ObjectData::pipewire_type` */
  function PipewireType(d: ObjectData): ObjectType {
    match d
    case ClientData(_, _, _) => Client
    case OtherData(t) => t
  }

  /** The type a global is built with is the type it reports. */
  lemma PipewireTypeRoundTrip(t: ObjectType)
    ensures PipewireType(DataFor(t)) == t
  {
  }

  datatype Global = Global(
    id: u32,
    name: Option<string>,
    parent: Option<u32>,
    subobjects: seq<u32>,
    info: Option<seq<Entry>>,
    props: PropMap,
    objectData: ObjectData)

  /** `Global::object_type` */
  function TypeOf(g: Global): ObjectType {
    PipewireType(g.objectData)
  }

  /** The mirror's invariant: name and parent are what the current
      properties derive. */
  predicate Derived(g: Global) {
    g.name == DeriveName(TypeOf(g), g.props) && g.parent == DeriveParent(TypeOf(g), g.props)
  }

  /** `Global::update`: recomputes parent and name, nothing else. */
  function Update(g: Global): (r: Global)
    ensures Derived(r)
    ensures r.(name := g.name, parent := g.parent) == g
  {
    g.(parent := DeriveParent(TypeOf(g), g.props), name := DeriveName(TypeOf(g), g.props))
  }

  /** `Global::new`: missing properties mean an empty map, and the
      derivation runs only when the map is not empty. */
  function NewGlobal(id: u32, t: ObjectType, props: Option<PropMap>): (g: Global)
    ensures g.id == id && TypeOf(g) == t && g.objectData == DataFor(t)
    ensures g.props == props.GetOr([])
    ensures |g.subobjects| == 0 && g.info.None?
    ensures Derived(g)
  {
    var g := Global(id, None, None, [], None, props.GetOr([]), DataFor(t));
    if |g.props| > 0 then Update(g)
    else
      EmptyDerivesNothing(t);
      g
  }

  /** `set_props`: replaces the properties wholesale and re-derives. */
  function SetProps(g: Global, p: PropMap): (r: Global)
    ensures r.props == p
    ensures Derived(r)
    ensures r.id == g.id && r.subobjects == g.subobjects && r.info == g.info
    ensures r.objectData == g.objectData
  {
    Update(g.(props := p))
  }

  /** After `set_props` name and parent depend on the new map alone: two
      globals of one type that receive the same map agree on both, and
      `Global::new` with that map agrees with creating bare and then
      setting it. */
  lemma SetPropsForgetsHistory(g1: Global, g2: Global, p: PropMap, id: u32, t: ObjectType)
    requires TypeOf(g1) == TypeOf(g2)
    ensures SetProps(g1, p).name == SetProps(g2, p).name
    ensures SetProps(g1, p).parent == SetProps(g2, p).parent
    ensures NewGlobal(id, t, Some(p)) == SetProps(NewGlobal(id, t, None), p)
  {
    if |p| == 0 {
      EmptyDerivesNothing(t);
    }
  }

  /** `set_info`: replaces the info list; nothing else changes. */
  function SetInfo(g: Global, info: Option<seq<Entry>>): (r: Global)
    ensures r.info == info
    ensures r.(info := g.info) == g
  {
    g.(info := info)
  }

  /** `add_subobject`: appends a child reference. */
  function AddSubobject(g: Global, child: u32): (r: Global)
    ensures |r.subobjects| == |g.subobjects| + 1
    ensures r.subobjects[..|g.subobjects|] == g.subobjects && r.subobjects[|g.subobjects|] == child
    ensures r.(subobjects := g.subobjects) == g
  {
    g.(subobjects := g.subobjects + [child])
  }

  /** The children in `s` that are still alive, in their original order. */
  function KeepLive(s: seq<u32>, live: set<u32>): seq<u32>
    decreases |s|
  {
    if |s| == 0 then []
    else
      var last := s[|s| - 1];
      KeepLive(s[..|s| - 1], live) + (if last in live then [last] else [])
  }

  /** `KeepLive` keeps each live child as often as it occurs and drops the
      rest. */
  lemma {:induction false} KeepLiveCounts(s: seq<u32>, live: set<u32>)
    ensures forall x :: multiset(KeepLive(s, live))[x] == if x in live then multiset(s)[x] else 0
    decreases |s|
  {
    if |s| > 0 {
      KeepLiveCounts(s[..|s| - 1], live);
      assert s == s[..|s| - 1] + [s[|s| - 1]];
    }
  }

  /** Pruning stale child references (`retain(upgrade().is_some())`): every
      live child is kept as often as it occurs, every dead one goes. */
  function PruneSubobjects(g: Global, live: set<u32>): (r: Global)
    ensures forall c :: c in r.subobjects <==> c in g.subobjects && c in live
    ensures forall c :: c in live ==> multiset(r.subobjects)[c] == multiset(g.subobjects)[c]
    ensures r.subobjects == KeepLive(g.subobjects, live)
    ensures r.(subobjects := g.subobjects) == g
  {
    var kept := KeepLive(g.subobjects, live);
    KeepLiveCounts(g.subobjects, live);
    g.(subobjects := kept)
  }

  /** `KeepLive` is an order-preserving filter: it works piecewise on a
      concatenation and keeps a single reference exactly when it is live. */
  lemma {:induction false} KeepLiveConcat(a: seq<u32>, b: seq<u32>, live: set<u32>)
    ensures KeepLive(a + b, live) == KeepLive(a, live) + KeepLive(b, live)
    ensures KeepLive([], live) == []
    ensures forall x :: KeepLive([x], live) == if x in live then [x] else []
    decreases |b|
  {
    forall x
      ensures KeepLive([x], live) == if x in live then [x] else []
    {
      assert [x][..0] == [];
    }
    if |b| == 0 {
      assert a + b == a;
    } else {
      var init := b[..|b| - 1];
      var last := b[|b| - 1];
      assert (a + b)[..|a + b| - 1] == a + init;
      assert (a + b)[|a + b| - 1] == last;
      KeepLiveConcat(a, init, live);
    }
  }

  /** Pruning twice is pruning once, and after a global is removed from the
      store one traversal leaves no reference to it. */
  lemma PruneSettles(g: Global, store: map<u32, Global>, removed: u32)
    ensures PruneSubobjects(PruneSubobjects(g, store.Keys), store.Keys) == PruneSubobjects(g, store.Keys)
    ensures removed !in PruneSubobjects(g, (store - {removed}).Keys).subobjects
  {
    KeepLiveIdempotent(g.subobjects, store.Keys);
    KeepLiveCounts(g.subobjects, (store - {removed}).Keys);
  }

  lemma {:induction false} KeepLiveIdempotent(s: seq<u32>, live: set<u32>)
    ensures KeepLive(KeepLive(s, live), live) == KeepLive(s, live)
    decreases |s|
  {
    if |s| > 0 {
      var init := s[..|s| - 1];
      var last := s[|s| - 1];
      KeepLiveIdempotent(init, live);
      KeepLiveAppend(KeepLive(init, live), if last in live then [last] else [], live);
    }
  }

  lemma {:induction false} KeepLiveAppend(a: seq<u32>, b: seq<u32>, live: set<u32>)
    requires forall x :: x in b ==> x in live
    ensures KeepLive(a + b, live) == KeepLive(a, live) + b
    decreases |b|
  {
    if |b| > 0 {
      var init := b[..|b| - 1];
      var last := b[|b| - 1];
      assert (a + b)[..|a + b| - 1] == a + init;
      assert (a + b)[|a + b| - 1] == last;
      assert b[|b| - 1] in b;
      assert forall x :: x in init ==> x in b;
      KeepLiveAppend(a, init, live);
      assert b == init + [last];
    } else {
      assert a + b == a;
    }
  }

  /** Which group a port is displayed in, from `port.direction`. */
  datatype Direction = Outputs | Inputs | UnknownDirection

  function DirectionOf(port: Global): Direction {
    var d := Get(port.props, "port.direction");
    if d == Some("in") then Inputs else if d == Some("out") then Outputs else UnknownDirection
  }

  /** The group a child is shown in, or none if it is no longer alive. */
  function GroupOf(store: map<u32, Global>, c: u32): Option<Direction> {
    if c in store then Some(DirectionOf(store[c])) else None
  }

  /** Reference definition of a group: the live children with direction
      `d`, in child-list order. */
  function GroupMembers(children: seq<u32>, store: map<u32, Global>, d: Direction): seq<u32>
    decreases |children|
  {
    if |children| == 0 then []
    else
      var last := children[|children| - 1];
      GroupMembers(children[..|children| - 1], store, d) + (if GroupOf(store, last) == Some(d) then [last] else [])
  }

  /** Port grouping of a node's panel: one pass over the children, each
      live port pushed onto the group of its direction. */
  method GroupPorts(children: seq<u32>, store: map<u32, Global>)
    returns (outs: seq<u32>, ins: seq<u32>, unknown: seq<u32>)
    ensures outs == GroupMembers(children, store, Outputs)
    ensures ins == GroupMembers(children, store, Inputs)
    ensures unknown == GroupMembers(children, store, UnknownDirection)
  {
    outs, ins, unknown := [], [], [];
    var i := 0;
    while i < |children|
      invariant 0 <= i <= |children|
      invariant outs == GroupMembers(children[..i], store, Outputs)
      invariant ins == GroupMembers(children[..i], store, Inputs)
      invariant unknown == GroupMembers(children[..i], store, UnknownDirection)
    {
      var c := children[i];
      SelectStep(children, i, store);
      var g := GroupOf(store, c);
      if g == Some(Inputs) {
        ins := ins + [c];
      } else if g == Some(Outputs) {
        outs := outs + [c];
      } else if g == Some(UnknownDirection) {
        unknown := unknown + [c];
      }
      i := i + 1;
    }
    assert children[..i] == children;
  }

  lemma SelectStep(children: seq<u32>, i: int, store: map<u32, Global>)
    requires 0 <= i < |children|
    ensures forall d :: GroupMembers(children[..i + 1], store, d) ==
              GroupMembers(children[..i], store, d) + (if GroupOf(store, children[i]) == Some(d) then [children[i]] else [])
  {
    assert children[..i + 1][..i] == children[..i];
  }

  /** The three groups partition the live children: every live child lands
      in exactly one group, as often as it occurs, and nothing else does. */
  lemma {:induction false} GroupsPartition(children: seq<u32>, store: map<u32, Global>)
    ensures multiset(GroupMembers(children, store, Outputs)) + multiset(GroupMembers(children, store, Inputs)) +
            multiset(GroupMembers(children, store, UnknownDirection)) == multiset(KeepLive(children, store.Keys))
    decreases |children|
  {
    if |children| > 0 {
      var n := |children|;
      var init := children[..n - 1];
      var c := children[n - 1];
      GroupsPartition(init, store);
      assert children[..n - 1 + 1] == children;
      SelectStep(children, n - 1, store);
      var g := GroupOf(store, c);
      assert KeepLive(children, store.Keys) == KeepLive(init, store.Keys) + (if g.Some? then [c] else []);
      PartitionStep(GroupMembers(init, store, Outputs), GroupMembers(init, store, Inputs),
                    GroupMembers(init, store, UnknownDirection), KeepLive(init, store.Keys), c, g);
    }
  }

  /** One child appended to a partitioned list lands in the group `g` names,
      or in none when it is dead. */
  lemma PartitionStep(o: seq<u32>, i: seq<u32>, u: seq<u32>, k: seq<u32>, c: u32, g: Option<Direction>)
    requires multiset(o) + multiset(i) + multiset(u) == multiset(k)
    ensures multiset(o + (if g == Some(Outputs) then [c] else [])) +
            multiset(i + (if g == Some(Inputs) then [c] else [])) +
            multiset(u + (if g == Some(UnknownDirection) then [c] else [])) ==
            multiset(k + (if g.Some? then [c] else []))
  {
    var one := multiset{c};
    match g
    case None =>
      assert o + [] == o && i + [] == i && u + [] == u && k + [] == k;
    case Some(Outputs) =>
      assert multiset(o + [c]) == multiset(o) + one && i + [] == i && u + [] == u;
      assert multiset(k + [c]) == multiset(k) + one;
    case Some(Inputs) =>
      assert multiset(i + [c]) == multiset(i) + one && o + [] == o && u + [] == u;
      assert multiset(k + [c]) == multiset(k) + one;
    case Some(UnknownDirection) =>
      assert multiset(u + [c]) == multiset(u) + one && o + [] == o && i + [] == i;
      assert multiset(k + [c]) == multiset(k) + one;
  }

  /** Every member of a group is a live child of that direction. */
  lemma {:induction false} SelectSound(children: seq<u32>, store: map<u32, Global>, d: Direction)
    ensures forall c :: c in GroupMembers(children, store, d) ==>
              c in children && GroupOf(store, c) == Some(d)
    decreases |children|
  {
    if |children| > 0 {
      SelectSound(children[..|children| - 1], store, d);
      assert forall c :: c in children[..|children| - 1] ==> c in children;
    }
  }

  /** The "Destroy" button. */
  function DestroyRequests(g: Global): (reqs: seq<Request>)
    ensures |reqs| == 1 && reqs[0].DestroyObject? && reqs[0].id == g.id
  {
    [DestroyObject(g.id)]
  }

  /** The full permission enumeration request (`index` 0, `num`
      `u32::MAX`), sent by "Get permissions" and after every update. */
  function RefreshPermissions(id: u32): (req: Request)
    ensures req.CallObjectMethod? && req.id == id
    ensures req.call.ClientGetPermissions? && req.call.index == 0 && req.call.num == U32_MAX
  {
    CallObjectMethod(id, ClientGetPermissions(0, U32_MAX))
  }

  /** "Get permissions": only client panels have the button. */
  function GetPermissions(g: Global): (reqs: seq<Request>)
    ensures g.objectData.ClientData? ==> reqs == [RefreshPermissions(g.id)]
    ensures !g.objectData.ClientData? ==> reqs == []
  {
    if g.objectData.ClientData? then [RefreshPermissions(g.id)] else []
  }

  /** The permission editor is shown once the known list has been fetched. */
  predicate PermissionsShown(g: Global) {
    g.objectData.ClientData? && g.objectData.permissions.Some?
  }

  /** "Add" under "Add permissions": a staged row for id 0 with no flags. */
  function AddPermissionRow(g: Global): (r: Global)
    ensures PermissionsShown(g) ==>
              r.objectData.ClientData? &&
              r.objectData.userPermissions == g.objectData.userPermissions + [Permissions(0, {})]
    ensures PermissionsShown(g) ==>
              r.objectData.ClientData? && r.(objectData := g.objectData) == g &&
              r.objectData.(userPermissions := g.objectData.userPermissions) == g.objectData
    ensures !PermissionsShown(g) ==> r == g
  {
    if PermissionsShown(g) then
      g.(objectData := g.objectData.(userPermissions := g.objectData.userPermissions + [Permissions(0, {})]))
    else g
  }

  /** "Update permissions": sends the known list followed by the staged
      rows (no de-duplication), drains the staged rows, then asks for the
      full list again. Without a fetched list there is no button. */
  function UpdatePermissions(g: Global): (r: (Global, seq<Request>))
    ensures !PermissionsShown(g) ==> r == (g, [])
    ensures PermissionsShown(g) ==>
              var known := g.objectData.permissions.value;
              var staged := g.objectData.userPermissions;
              && |r.1| == 2
              && r.1[0].CallObjectMethod? && r.1[0].id == g.id
              && r.1[0].call.ClientUpdatePermissions?
              && |r.1[0].call.permissions| == |known| + |staged|
              && r.1[0].call.permissions[..|known|] == known
              && r.1[0].call.permissions[|known|..] == staged
              && r.1[1] == RefreshPermissions(g.id)
              && r.0.objectData.ClientData?
              && r.0.objectData.permissions == g.objectData.permissions
              && |r.0.objectData.userPermissions| == 0
              && r.0.objectData.userProperties == g.objectData.userProperties
              && r.0.(objectData := g.objectData) == g
  {
    if PermissionsShown(g) then
      var all := g.objectData.permissions.value + g.objectData.userPermissions;
      (g.(objectData := g.objectData.(userPermissions := [])),
       [CallObjectMethod(g.id, ClientUpdatePermissions(all)), RefreshPermissions(g.id)])
    else (g, [])
  }

  /** The update payload keeps every known and every staged entry, even
      when two of them name the same object id. */
  lemma UpdatePermissionsKeepsDuplicates(g: Global)
    requires PermissionsShown(g)
    ensures multiset(UpdatePermissions(g).1[0].call.permissions) ==
            multiset(g.objectData.permissions.value) + multiset(g.objectData.userPermissions)
  {
    var known := g.objectData.permissions.value;
    var payload := UpdatePermissions(g).1[0].call.permissions;
    assert payload == known + g.objectData.userPermissions;
  }

  /** Two known entries and one staged entry for the same id give a payload
      of three entries. */
  lemma UpdatePermissionsExample(id: u32, pid: u32)
    ensures var g := Global(id, None, None, [], None, [],
                            ClientData(Some([Permissions(pid, {R}), Permissions(pid, {W})]),
                                       [Permissions(pid, {R, W})], NewList()));
            |UpdatePermissions(g).1[0].call.permissions| == 3
  {
  }

  /** "Update properties" on a client: the staged rows are folded into the
      properties (a staged row overrides, a later row an earlier one), the
      staged rows are drained, and the request carries exactly the merged
      map. Name and parent are not re-derived here; they follow when the
      daemon reports the new properties and `set_props` runs. */
  function UpdateProperties(g: Global): (r: (Global, seq<Request>))
    ensures !g.objectData.ClientData? ==> r == (g, [])
    ensures g.objectData.ClientData? ==>
              var staged := g.objectData.userProperties.list;
              && Keys(r.0.props) == Keys(g.props) + Keys(staged)
              && (forall k :: Get(r.0.props, k) ==
                    if LastValue(staged, k).Some? then LastValue(staged, k) else Get(g.props, k))
              && r.0.objectData.ClientData?
              && |r.0.objectData.userProperties.list| == 0
              && r.0.objectData.permissions == g.objectData.permissions
              && r.0.objectData.userPermissions == g.objectData.userPermissions
              && r.1 == [CallObjectMethod(g.id, ClientUpdateProperties(r.0.props))]
              && r.0.(props := g.props, objectData := g.objectData) == g
  {
    if g.objectData.ClientData? then
      var (staged, rows) := Take(g.objectData.userProperties);
      var merged := Extend(g.props, staged);
      forall k
        ensures Get(merged, k) ==
                  if LastValue(staged, k).Some? then LastValue(staged, k) else Get(g.props, k)
      {
        ExtendGet(g.props, staged, k);
      }
      (g.(props := merged, objectData := g.objectData.(userProperties := rows)),
       [CallObjectMethod(g.id, ClientUpdateProperties(merged))])
    else (g, [])
  }

  /** Because "Update properties" does not re-derive, a client whose staged
      rows add a `.name` key keeps its old name until the daemon echoes the
      properties back. */
  lemma UpdatePropertiesLeavesNameStale()
    ensures var g := NewGlobal(1, Client, None).(objectData :=
                       ClientData(None, [], EditableKVList([("application.name", "x")])));
            && Derived(g)
            && var g' := UpdateProperties(g).0;
            && g'.name == None
            && DeriveName(Client, g'.props) == Some("x")
            && Derived(SetProps(g', g'.props))
  {
    var g := NewGlobal(1, Client, None).(objectData :=
               ClientData(None, [], EditableKVList([("application.name", "x")])));
    EmptyDerivesNothing(Client);
    var g' := UpdateProperties(g).0;
    assert g'.props == [("application.name", "x")];
    assert NameKey(Client, "application.name");
  }

  /** The client panel's map editor deleting a stored property in place.
      Like "Update properties" this does not re-derive name or parent. */
  function DeleteClientProperty(g: Global, k: string): (r: Global)
    ensures g.objectData.ClientData? ==>
              && k !in Keys(r.props)
              && forall k' :: k' != k ==> Get(r.props, k') == Get(g.props, k')
    ensures !g.objectData.ClientData? ==> r == g
    ensures r.(props := g.props) == g
  {
    if g.objectData.ClientData? then g.(props := DeleteKey(g.props, k)) else g
  }

  /** The client panel's map editor editing a stored value in place; keys
      are neither added nor removed, and nothing is re-derived. */
  function EditClientProperty(g: Global, k: string, v: string): (r: Global)
    ensures g.objectData.ClientData? ==>
              && Keys(r.props) == Keys(g.props)
              && (k in Keys(g.props) ==> Get(r.props, k) == Some(v))
              && forall k' :: k' != k ==> Get(r.props, k') == Get(g.props, k')
    ensures !g.objectData.ClientData? ==> r == g
    ensures r.(props := g.props) == g
  {
    if g.objectData.ClientData? then g.(props := EditValue(g.props, k, v)) else g
  }

  /** Deleting the property a client's name came from leaves that name
      shown although the properties no longer derive it. */
  lemma DeleteLeavesNameStale()
    ensures var g := NewGlobal(1, Client, Some([("application.name", "x")]));
            && g.name == Some("x")
            && var g' := DeleteClientProperty(g, "application.name");
            && g'.name == Some("x")
            && DeriveName(Client, g'.props) == None
  {
    var g := NewGlobal(1, Client, Some([("application.name", "x")]));
    assert NameKey(Client, "application.name");
    assert g.props[0].0 == "application.name";
    var g' := DeleteClientProperty(g, "application.name");
    assert |g'.props| == 0;
  }

  /** The child list a panel shows, by the parent's type: devices and
      clients list nodes, nodes list ports, ports list links; other types
      show no children. */
  datatype ChildKind = Nodes | Ports | Links

  function ChildKindOf(t: ObjectType): (k: Option<ChildKind>)
    ensures k == Some(Nodes) <==> t.Device? || t.Client?
    ensures k == Some(Ports) <==> t.Node?
    ensures k == Some(Links) <==> t.Port?
  {
    match t
    case Device => Some(Nodes)
    case Client => Some(Nodes)
    case Node => Some(Ports)
    case Port => Some(Links)
    case _ => None
  }

  /** The child section of a panel: types without a child header return
      before the list is touched; the others drop dead references. */
  function PanelPrune(g: Global, live: set<u32>): (r: Global)
    ensures ChildKindOf(TypeOf(g)).None? ==> r == g
    ensures ChildKindOf(TypeOf(g)).Some? ==> r == PruneSubobjects(g, live)
    ensures r.(subobjects := g.subobjects) == g
  {
    if ChildKindOf(TypeOf(g)).Some? then PruneSubobjects(g, live) else g
  }

}
