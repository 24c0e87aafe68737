// The storage inventory: which block devices are offered for review. A device may
// appear under several parents, so protection is a closure over a graph.
module DiskInventory {
  import opened Common

  // One device as it is listed; an absent text is "", an absent mount point too.
  datatype Device = Device(name: string, mounts: seq<string>, readOnly: bool, kind: string, fstype: string,
                           uuid: string, serial: string, wwn: string, partuuid: string, children: seq<Device>)

  type Parents = map<string, set<string>>

  const DATA_MOUNT := "/srv/justverify/data"

  predicate Mounted(d: Device) { exists m :: m in d.mounts && m != "" }

  predicate SystemMount(m: string) {
    m == "/" || m == "/boot" || (|m| >= 6 && m[..6] == "/boot/")
  }

  predicate SystemDevice(d: Device) { exists m :: m in d.mounts && SystemMount(m) }

  // ------------------------------------------------------------------- the graph

  // Parent and child, for every place in the listing.
  function Edges(devices: seq<Device>, parent: Option<string>): set<(string, string)> {
    if devices == [] then {}
    else
      var d := devices[0];
      (if parent.Some? then {(parent.value, d.name)} else {})
      + Edges(d.children, Some(d.name)) + Edges(devices[1..], parent)
  }

  // Every place in the listing, in the order in which it is visited.
  function Visits(devices: seq<Device>): seq<Device> {
    if devices == [] then [] else [devices[0]] + Visits(devices[0].children) + Visits(devices[1..])
  }

  // A later place of the same device replaces an earlier one.
  function Latest(visited: seq<Device>): map<string, Device> {
    if visited == [] then map[]
    else
      var last := visited[|visited| - 1];
      Latest(visited[..|visited| - 1])[last.name := last]
  }

  // The names in the order in which they were first seen.
  function FirstSeen(visited: seq<Device>): seq<string> {
    if visited == [] then []
    else
      var before, name := FirstSeen(visited[..|visited| - 1]), visited[|visited| - 1].name;
      if name in before then before else before + [name]
  }

  function Up(parents: Parents, name: string): set<string> {
    if name in parents then parents[name] else {}
  }

  ghost predicate Chain(parents: Parents, path: seq<string>) {
    path != [] && forall i :: 0 <= i < |path| - 1 ==> path[i + 1] in Up(parents, path[i])
  }

  // `to` is `from` or one of its ancestors.
  ghost predicate Reaches(parents: Parents, from: string, to: string) {
    exists path :: Chain(parents, path) && path[0] == from && path[|path| - 1] == to
  }

  ghost predicate Ancestor(parents: Parents, from: string, to: string) {
    exists p :: p in Up(parents, from) && Reaches(parents, p, to)
  }

  // With every device also its parents.
  ghost predicate Closed(parents: Parents, found: set<string>) {
    forall a, p :: a in found && p in Up(parents, a) ==> p in found
  }

  lemma ReachesSelf(parents: Parents, a: string)
    ensures Reaches(parents, a, a)
  {
    assert Chain(parents, [a]);
  }

  lemma ReachesStep(parents: Parents, from: string, a: string, p: string)
    requires Reaches(parents, from, a) && p in Up(parents, a)
    ensures Reaches(parents, from, p)
  {
    var path :| Chain(parents, path) && path[0] == from && path[|path| - 1] == a;
    assert Chain(parents, path + [p]);
  }

  lemma {:induction false} ClosedHoldsChain(parents: Parents, found: set<string>, path: seq<string>)
    requires Closed(parents, found) && Chain(parents, path) && path[0] in found
    ensures path[|path| - 1] in found
    decreases |path|
  {
    if |path| > 1 {
      assert path[1] in Up(parents, path[0]);
      assert Chain(parents, path[1..]) by {
        forall i | 0 <= i < |path[1..]| - 1 ensures path[1..][i + 1] in Up(parents, path[1..][i]) {
          assert path[i + 2] in Up(parents, path[i + 1]);
        }
      }
      ClosedHoldsChain(parents, found, path[1..]);
    }
  }

  lemma ClosedHoldsReached(parents: Parents, found: set<string>, from: string, to: string)
    requires Closed(parents, found) && from in found && Reaches(parents, from, to)
    ensures to in found
  {
    var path :| Chain(parents, path) && path[0] == from && path[|path| - 1] == to;
    ClosedHoldsChain(parents, found, path);
  }

  // ------------------------------------------------------------------ the worklist

  ghost predicate FromStart(parents: Parents, start: seq<string>, a: string) {
    exists s :: s in start && Reaches(parents, s, a)
  }

  // Everything found was there before or is an ancestor of a start, everything stacked
  // is; what is found is closed but for the stack, and no start is lost.
  ghost predicate Working(parents: Parents, universe: set<string>, before: set<string>, start: seq<string>,
                          found: set<string>, stack: seq<string>) {
    && before <= found <= universe && (forall a :: a in stack ==> a in universe)
    && (forall a :: a in found && a !in before ==> FromStart(parents, start, a))
    && (forall a :: a in stack ==> FromStart(parents, start, a))
    && (forall a, p :: a in found && p in Up(parents, a) ==> p in found || p in stack)
    && (forall s :: s in start ==> s in found || s in stack)
  }

  lemma StartWorks(parents: Parents, universe: set<string>, before: set<string>, start: seq<string>)
    requires Closed(parents, before) && before <= universe && forall s :: s in start ==> s in universe
    ensures Working(parents, universe, before, start, before, start)
  {
    forall s | s in start ensures Reaches(parents, s, s) { ReachesSelf(parents, s); }
  }

  lemma SkipWorks(parents: Parents, universe: set<string>, before: set<string>, start: seq<string>,
                  found: set<string>, rest: seq<string>, current: string)
    requires Working(parents, universe, before, start, found, rest + [current]) && current in found
    ensures Working(parents, universe, before, start, found, rest)
  {
    assert forall a :: a in rest + [current] <==> a in rest || a == current;
    hide FromStart, Up;
  }

  lemma PushWorks(parents: Parents, universe: set<string>, before: set<string>, start: seq<string>,
                  found: set<string>, rest: seq<string>, current: string, above: seq<string>)
    requires Working(parents, universe, before, start, found, rest + [current]) && current !in found
    requires forall p :: p in above <==> p in Up(parents, current)
    requires Closed(parents, universe)
    ensures Working(parents, universe, before, start, found + {current}, rest + above)
    ensures |universe - (found + {current})| < |universe - found|
  {
    assert universe - (found + {current}) == (universe - found) - {current};
    assert forall a :: a in rest + [current] <==> a in rest || a == current;
    assert FromStart(parents, start, current);
    forall p | p in above ensures FromStart(parents, start, p) {
      var s :| s in start && Reaches(parents, s, current);
      ReachesStep(parents, s, current, p);
    }
    hide FromStart, Up;
  }

  lemma WorkDone(parents: Parents, universe: set<string>, before: set<string>, start: seq<string>, found: set<string>)
    requires Working(parents, universe, before, start, found, [])
    ensures Closed(parents, found) && before <= found <= universe
    ensures forall a :: a in found <==> a in before || FromStart(parents, start, a)
  {
    forall a | FromStart(parents, start, a) ensures a in found {
      var s :| s in start && Reaches(parents, s, a);
      ClosedHoldsReached(parents, found, s, a);
    }
  }

  // Some order of a finite set.
  method Listed(names: set<string>) returns (s: seq<string>)
    ensures forall n :: n in s <==> n in names
  {
    s := [];
    var rest := names;
    while rest != {}
      invariant rest <= names && forall n :: n in s <==> n in names - rest
    {
      var n :| n in rest;
      s := s + [n];
      rest := rest - {n};
    }
  }

  // The inner loop of `classify`: what these starts add to a closed set.
  method Grow(parents: Parents, ghost universe: set<string>, before: set<string>, start: seq<string>)
    returns (found: set<string>)
    requires Closed(parents, before) && (forall s :: s in start ==> s in universe) && before <= universe
    requires Closed(parents, universe)
    ensures Closed(parents, found) && before <= found <= universe
    ensures forall a :: a in found <==> a in before || FromStart(parents, start, a)
  {
    found := before;
    var stack := start;
    StartWorks(parents, universe, before, start);
    while stack != []
      invariant Working(parents, universe, before, start, found, stack)
      decreases |universe - found|, |stack|
    {
      hide Working, Up, FromStart, Closed;
      var current := stack[|stack| - 1];
      ghost var rest := stack[..|stack| - 1];
      assert stack == rest + [current];
      stack := stack[..|stack| - 1];
      if current in found {
        SkipWorks(parents, universe, before, start, found, rest, current);
      } else {
        var above := Listed(Up(parents, current));
        PushWorks(parents, universe, before, start, found, rest, current, above);
        found := found + {current};
        stack := stack + above;
      }
    }
    WorkDone(parents, universe, before, start, found);
  }

  // --------------------------------------------------------------------- listing

  lemma {:induction false} VisitsConcat(a: seq<Device>, b: seq<Device>)
    ensures Visits(a + b) == Visits(a) + Visits(b)
  {
    if a == [] {
      assert a + b == b;
    } else {
      assert (a + b)[1..] == a[1..] + b;
      VisitsConcat(a[1..], b);
    }
  }

  lemma {:induction false} EdgesConcat(a: seq<Device>, b: seq<Device>, parent: Option<string>)
    ensures Edges(a + b, parent) == Edges(a, parent) + Edges(b, parent)
  {
    if a == [] {
      assert a + b == b;
    } else {
      assert (a + b)[1..] == a[1..] + b;
      EdgesConcat(a[1..], b, parent);
    }
  }

  // The next place of a list.
  lemma NextPlace(devices: seq<Device>, i: nat, parent: Option<string>)
    requires i < |devices|
    ensures Visits(devices[..i + 1]) == Visits(devices[..i]) + ([devices[i]] + Visits(devices[i].children))
    ensures Edges(devices[..i + 1], parent) == Edges(devices[..i], parent) + EdgesAt(devices[i], parent)
  {
    var d := [devices[i]];
    assert devices[..i + 1] == devices[..i] + d;
    VisitsConcat(devices[..i], d);
    EdgesConcat(devices[..i], d, parent);
    assert Visits(d[1..]) == [] && Edges(d[1..], parent) == {};
    assert Visits(d) == [devices[i]] + Visits(devices[i].children) + [];
  }

  function EdgesAt(d: Device, parent: Option<string>): set<(string, string)> {
    (if parent.Some? then {(parent.value, d.name)} else {}) + Edges(d.children, Some(d.name))
  }

  ghost predicate Describes(parents: Parents, edges: set<(string, string)>) {
    forall c, p :: p in Up(parents, c) <==> (p, c) in edges
  }

  ghost predicate Named(nodes: map<string, Device>, order: seq<string>, visited: seq<Device>) {
    && nodes == Latest(visited) && order == FirstSeen(visited)
    && Distinct(order) && forall n :: n in order <==> n in nodes
  }

  lemma LatestNext(visited: seq<Device>, d: Device)
    ensures Latest(visited + [d]) == Latest(visited)[d.name := d]
    ensures FirstSeen(visited + [d]) ==
      if d.name in FirstSeen(visited) then FirstSeen(visited) else FirstSeen(visited) + [d.name]
  {
    assert (visited + [d])[..|visited|] == visited;
  }

  lemma NameEntered(nodes: map<string, Device>, order: seq<string>, visited: seq<Device>, d: Device)
    requires Named(nodes, order, visited)
    ensures Named(nodes[d.name := d], if d.name in nodes then order else order + [d.name], visited + [d])
  {
    LatestNext(visited, d);
    hide Latest, FirstSeen;
  }

  lemma EdgeDescribed(parents: Parents, edges: set<(string, string)>, c: string, p: string)
    requires Describes(parents, edges)
    ensures Describes(parents[c := Up(parents, c) + {p}], edges + {(p, c)})
  {
  }

  // The dictionaries `classify` fills, with the order in which names were first seen.
  class Index {
    var nodes: map<string, Device>
    var order: seq<string>
    var parents: Parents
    ghost var visited: seq<Device>
    ghost var edges: set<(string, string)>

    constructor ()
      ensures Valid() && visited == [] && edges == {}
    {
      nodes, order, parents, visited, edges := map[], [], map[], [], {};
    }

    ghost predicate Valid()
      reads this
    {
      Named(nodes, order, visited) && Describes(parents, edges)
    }

    method EnterName(d: Device)
      requires Named(nodes, order, visited)
      modifies this`nodes, this`order, this`visited
      ensures Named(nodes, order, visited) && visited == old(visited) + [d]
    {
      NameEntered(nodes, order, visited, d);
      hide Named;
      if d.name !in nodes { order := order + [d.name]; }
      nodes := nodes[d.name := d];
      visited := visited + [d];
    }

    method EnterParent(name: string, parent: string)
      requires Describes(parents, edges)
      modifies this`parents, this`edges
      ensures Describes(parents, edges) && edges == old(edges) + {(parent, name)}
    {
      EdgeDescribed(parents, edges, name, parent);
      hide Describes;
      parents := parents[name := Up(parents, name) + {parent}];
      edges := edges + {(parent, name)};
    }

    method Enter(d: Device, parent: Option<string>)
      requires Valid()
      modifies this
      ensures Valid() && visited == old(visited) + [d]
      ensures edges == old(edges) + if parent.Some? then {(parent.value, d.name)} else {}
    {
      hide Named, Describes;
      EnterName(d);
      if parent.Some? { EnterParent(d.name, parent.value); }
    }

    // `visit`.
    method Visit(d: Device, parent: Option<string>)
      requires Valid()
      modifies this
      decreases d, 1
      ensures Valid()
      ensures visited == old(visited) + ([d] + Visits(d.children))
      ensures edges == old(edges) + EdgesAt(d, parent)
    {
      hide Visits, Edges, Valid, EdgesAt;
      Enter(d, parent);
      VisitAll(d.children, Some(d.name), d);
      EdgesThere(d, parent);
    }

    method VisitAll(devices: seq<Device>, parent: Option<string>, ghost above: Device)
      requires Valid() && devices == above.children
      modifies this
      decreases above, 0
      ensures Valid()
      ensures visited == old(visited) + Visits(devices)
      ensures edges == old(edges) + Edges(devices, parent)
    {
      hide Visits, Edges, Valid, EdgesAt;
      NoPlace(devices, parent);
      for i := 0 to |devices|
        invariant Valid()
        invariant visited == old(visited) + Visits(devices[..i])
        invariant edges == old(edges) + Edges(devices[..i], parent)
      {
        NextPlace(devices, i, parent);
        Visit(devices[i], parent);
      }
      assert devices[..|devices|] == devices;
    }
  }

  lemma EdgesThere(d: Device, parent: Option<string>)
    ensures EdgesAt(d, parent) ==
      (if parent.Some? then {(parent.value, d.name)} else {}) + Edges(d.children, Some(d.name))
  {
  }

  lemma NoPlace(devices: seq<Device>, parent: Option<string>)
    ensures Visits(devices[..0]) == [] && Edges(devices[..0], parent) == {}
  {
  }

  // ----------------------------------------------------------------------- review

  datatype Action = NoAction | ReviewExisting | ReviewNew

  datatype Reason =
    | SystemDeviceHere | ReadOnlyDevice | CurrentDataMount | AlreadyMounted | UnsupportedType | ChildInUse
    | AmbiguousUuid | ExistingFilesystem | PartitionsPreserved | UnsupportedFilesystem | NeedsConfirmation
    | NoStableId

  datatype Row = Row(name: string, reason: Reason, action: Action)

  predicate Identified(d: Device) {
    (d.kind == "disk" && (d.serial != "" || d.wwn != "")) || (d.kind == "part" && d.partuuid != "")
  }

  function Decide(d: Device, protected_: bool, inUse: bool, ambiguous: bool, clean: string -> string): Row {
    if protected_ then Row(d.name, SystemDeviceHere, NoAction)
    else if d.readOnly then Row(d.name, ReadOnlyDevice, NoAction)
    else if exists m :: m in d.mounts && m != "" && clean(m) == DATA_MOUNT then Row(d.name, CurrentDataMount, NoAction)
    else if Mounted(d) then Row(d.name, AlreadyMounted, NoAction)
    else if d.kind != "disk" && d.kind != "part" then Row(d.name, UnsupportedType, NoAction)
    else if inUse then Row(d.name, ChildInUse, NoAction)
    else if d.uuid != "" && ambiguous then Row(d.name, AmbiguousUuid, NoAction)
    else if d.fstype == "ext4" && d.uuid != "" then Row(d.name, ExistingFilesystem, ReviewExisting)
    else if d.children != [] then Row(d.name, PartitionsPreserved, NoAction)
    else if d.fstype != "" then Row(d.name, UnsupportedFilesystem, NoAction)
    else if Identified(d) then Row(d.name, NeedsConfirmation, ReviewNew)
    else Row(d.name, NoStableId, NoAction)
  }

  // Mounted as part of the system, or above such a device.
  ghost predicate Protected(nodes: map<string, Device>, parents: Parents, name: string) {
    exists x :: x in nodes && SystemDevice(nodes[x]) && Reaches(parents, x, name)
  }

  // Strictly above a mounted device.
  ghost predicate InUse(nodes: map<string, Device>, parents: Parents, name: string) {
    exists x :: x in nodes && Mounted(nodes[x]) && Ancestor(parents, x, name)
  }

  // Another device carries the same filesystem UUID.
  ghost predicate Shared(nodes: map<string, Device>, name: string)
    requires name in nodes
  {
    exists n :: n in nodes && n != name && nodes[n].uuid == nodes[name].uuid
  }

  // ---------------------------------------------------------------- the closures

  // Every parent of a listed device is listed.
  lemma {:induction false} ParentsListed(devices: seq<Device>, parent: Option<string>, p: string, c: string)
    requires (p, c) in Edges(devices, parent)
    ensures parent == Some(p) || exists d :: d in Visits(devices) && d.name == p
    ensures exists d :: d in Visits(devices) && d.name == c
  {
    var d, rest := devices[0], devices[1..];
    assert d in Visits(devices);
    if (p, c) in Edges(d.children, Some(d.name)) {
      ParentsListed(d.children, Some(d.name), p, c);
      assert forall x :: x in Visits(d.children) ==> x in Visits(devices);
    } else if (p, c) in Edges(rest, parent) {
      ParentsListed(rest, parent, p, c);
      assert forall x :: x in Visits(rest) ==> x in Visits(devices);
    }
  }

  lemma {:induction false} LatestNames(visited: seq<Device>)
    ensures forall n :: n in Latest(visited) <==> exists d :: d in visited && d.name == n
    ensures forall n :: n in Latest(visited) ==> Latest(visited)[n].name == n && Latest(visited)[n] in visited
  {
    if visited != [] {
      var rest, last := visited[..|visited| - 1], visited[|visited| - 1];
      LatestNames(rest);
      assert visited == rest + [last];
    }
  }

  lemma UniverseClosed(devices: seq<Device>, parents: Parents)
    requires Describes(parents, Edges(devices, None))
    ensures Closed(parents, Latest(Visits(devices)).Keys)
    ensures forall c :: Up(parents, c) <= Latest(Visits(devices)).Keys
  {
    LatestNames(Visits(devices));
    forall c, p | p in Up(parents, c) ensures p in Latest(Visits(devices)).Keys {
      ParentsListed(devices, None, p, c);
    }
  }

  ghost predicate ProtectedBy(nodes: map<string, Device>, parents: Parents, names: seq<string>, a: string) {
    exists x :: x in names && x in nodes && SystemDevice(nodes[x]) && Reaches(parents, x, a)
  }

  ghost predicate UsedBy(nodes: map<string, Device>, parents: Parents, names: seq<string>, a: string) {
    exists x :: x in names && x in nodes && Mounted(nodes[x]) && Ancestor(parents, x, a)
  }

  // `protected`: the system devices and everything above them.
  method CollectProtected(nodes: map<string, Device>, order: seq<string>, parents: Parents)
    returns (found: set<string>)
    requires (forall n :: n in order ==> n in nodes) && Closed(parents, nodes.Keys)
    ensures forall a :: a in found <==> ProtectedBy(nodes, parents, order, a)
  {
    found := {};
    for i := 0 to |order|
      invariant Closed(parents, found) && found <= nodes.Keys
      invariant forall a :: a in found <==> ProtectedBy(nodes, parents, order[..i], a)
    {
      hide Reaches, SystemDevice, Closed;
      assert order[..i + 1] == order[..i] + [order[i]];
      if SystemDevice(nodes[order[i]]) {
        ghost var before := found;
        found := Grow(parents, nodes.Keys, found, [order[i]]);
        forall a ensures FromStart(parents, [order[i]], a) <==> Reaches(parents, order[i], a) {}
      }
    }
    assert order[..|order|] == order;
  }

  // `in_use`: everything strictly above a mounted device.
  method CollectUsed(nodes: map<string, Device>, order: seq<string>, parents: Parents)
    returns (found: set<string>)
    requires (forall n :: n in order ==> n in nodes) && Closed(parents, nodes.Keys)
    requires forall c :: Up(parents, c) <= nodes.Keys
    ensures forall a :: a in found <==> UsedBy(nodes, parents, order, a)
  {
    found := {};
    for i := 0 to |order|
      invariant Closed(parents, found) && found <= nodes.Keys
      invariant forall a :: a in found <==> UsedBy(nodes, parents, order[..i], a)
    {
      hide Reaches, Mounted, Closed, Up;
      assert order[..i + 1] == order[..i] + [order[i]];
      if Mounted(nodes[order[i]]) {
        var above := Listed(Up(parents, order[i]));
        found := Grow(parents, nodes.Keys, found, above);
        forall a ensures FromStart(parents, above, a) <==> Ancestor(parents, order[i], a) {}
      }
    }
    assert order[..|order|] == order;
  }

  // ----------------------------------------------------------- filesystem identity

  function Carriers(nodes: map<string, Device>, names: seq<string>, uuid: string): nat
    requires forall n :: n in names ==> n in nodes
  {
    if names == [] then 0
    else
      var last := names[|names| - 1];
      Carriers(nodes, names[..|names| - 1], uuid) + if nodes[last].uuid == uuid then 1 else 0
  }

  lemma {:induction false} NoCarrier(nodes: map<string, Device>, names: seq<string>, uuid: string)
    requires forall n :: n in names ==> n in nodes
    ensures Carriers(nodes, names, uuid) == 0 <==> forall n :: n in names ==> nodes[n].uuid != uuid
  {
    if names != [] {
      var rest, last := names[..|names| - 1], names[|names| - 1];
      NoCarrier(nodes, rest, uuid);
      assert names == rest + [last];
    }
  }

  // A carrier is the only one exactly when the count is one.
  lemma {:induction false} OneCarrier(nodes: map<string, Device>, names: seq<string>, name: string)
    requires Distinct(names) && name in names && forall n :: n in names ==> n in nodes
    ensures Carriers(nodes, names, nodes[name].uuid) != 1 <==>
      exists n :: n in names && n != name && nodes[n].uuid == nodes[name].uuid
  {
    var uuid := nodes[name].uuid;
    var rest, last := names[..|names| - 1], names[|names| - 1];
    assert names == rest + [last];
    NoCarrier(nodes, rest, uuid);
    if last == name {
      assert name !in rest;
    } else {
      OneCarrier(nodes, rest, name);
    }
  }

  // `uuid_counts`.
  method CountUuids(nodes: map<string, Device>, order: seq<string>) returns (counts: map<string, nat>)
    requires forall n :: n in order ==> n in nodes
    ensures forall u :: u != "" ==> (if u in counts then counts[u] else 0) == Carriers(nodes, order, u)
  {
    counts := map[];
    for i := 0 to |order|
      invariant forall u :: u != "" ==> (if u in counts then counts[u] else 0) == Carriers(nodes, order[..i], u)
    {
      var uuid := nodes[order[i]].uuid;
      assert order[..i + 1][..i] == order[..i];
      if uuid != "" {
        counts := counts[uuid := (if uuid in counts then counts[uuid] else 0) + 1];
      }
    }
    assert order[..|order|] == order;
  }

  // ------------------------------------------------------------------ the inventory

  // The row of one device, from the graph alone.
  ghost function RowOf(nodes: map<string, Device>, parents: Parents, name: string, clean: string -> string): Row
    requires name in nodes
  {
    Decide(nodes[name], Protected(nodes, parents, name), InUse(nodes, parents, name), Shared(nodes, name), clean)
  }

  // The parents of every device, over the whole listing.
  ghost function ParentsOf(devices: seq<Device>): Parents {
    var edges := Edges(devices, None);
    var below := set e | e in edges :: e.1;
    map c | c in below :: set e | e in edges && e.1 == c :: e.0
  }

  lemma ParentsDescribed(devices: seq<Device>)
    ensures Describes(ParentsOf(devices), Edges(devices, None))
  {
  }

  // The closures depend on nothing but the edges.
  lemma SameReach(a: Parents, b: Parents, from: string, to: string)
    requires forall c :: Up(a, c) == Up(b, c)
    ensures Reaches(a, from, to) <==> Reaches(b, from, to)
    ensures Ancestor(a, from, to) <==> Ancestor(b, from, to)
  {
    forall path ensures Chain(a, path) <==> Chain(b, path) {}
  }

  lemma SameRow(nodes: map<string, Device>, a: Parents, b: Parents, name: string, clean: string -> string)
    requires name in nodes && forall c :: Up(a, c) == Up(b, c)
    ensures RowOf(nodes, a, name, clean) == RowOf(nodes, b, name, clean)
  {
    forall x ensures Reaches(a, x, name) <==> Reaches(b, x, name) { SameReach(a, b, x, name); }
    forall x ensures Ancestor(a, x, name) <==> Ancestor(b, x, name) { SameReach(a, b, x, name); }
    hide Reaches, Ancestor, Up, Decide, SystemDevice, Mounted;
  }

  lemma FirstSeenAll(devices: seq<Device>, i: nat)
    requires i < |FirstSeen(Visits(devices))|
    ensures FirstSeen(Visits(devices))[i] in Latest(Visits(devices))
  {
    SeenIsLatest(Visits(devices));
    assert FirstSeen(Visits(devices))[i] in FirstSeen(Visits(devices));
  }

  lemma {:induction false} SeenIsLatest(visited: seq<Device>)
    ensures Distinct(FirstSeen(visited)) && forall n :: n in FirstSeen(visited) <==> n in Latest(visited)
  {
    if visited != [] { SeenIsLatest(visited[..|visited| - 1]); }
  }

  // The rows that `classify` owes: one for each device in the order of first sight,
  // decided by the true closures over the graph of the whole listing.
  ghost function RowsOf(devices: seq<Device>, clean: string -> string): seq<Row> {
    var seen := FirstSeen(Visits(devices));
    seq(|seen|, i requires 0 <= i < |seen| =>
      FirstSeenAll(devices, i);
      RowOf(Latest(Visits(devices)), ParentsOf(devices), seen[i], clean))
  }

  // `classify`.
  method Classify(devices: seq<Device>, clean: string -> string) returns (rows: seq<Row>)
    ensures rows == RowsOf(devices, clean)
  {
    var index := new Index();
    for i := 0 to |devices|
      invariant fresh(index) && index.Valid()
      invariant index.visited == Visits(devices[..i]) && index.edges == Edges(devices[..i], None)
    {
      NextPlace(devices, i, None);
      index.Visit(devices[i], None);
    }
    assert devices[..|devices|] == devices;
    rows := Rows(devices, index.nodes, index.order, index.parents, clean);
    RowsAreOwed(devices, index.parents, rows, clean);
  }

  lemma RowsAreOwed(devices: seq<Device>, parents: Parents, rows: seq<Row>, clean: string -> string)
    requires Describes(parents, Edges(devices, None)) && |rows| == |FirstSeen(Visits(devices))|
    requires forall i :: 0 <= i < |rows| ==> FirstSeen(Visits(devices))[i] in Latest(Visits(devices))
    requires forall i :: 0 <= i < |rows| ==>
      rows[i] == RowOf(Latest(Visits(devices)), parents, FirstSeen(Visits(devices))[i], clean)
    ensures rows == RowsOf(devices, clean)
  {
    var b := ParentsOf(devices);
    ParentsDescribed(devices);
    forall c ensures Up(parents, c) == Up(b, c) {
      assert forall p :: p in Up(parents, c) <==> p in Up(b, c);
    }
    hide RowOf, ParentsOf, Latest, FirstSeen, Visits;
    forall i | 0 <= i < |rows| ensures rows[i] == RowsOf(devices, clean)[i] {
      SameRow(Latest(Visits(devices)), parents, b, FirstSeen(Visits(devices))[i], clean);
    }
  }

  method Rows(ghost devices: seq<Device>, nodes: map<string, Device>, order: seq<string>, parents: Parents,
              clean: string -> string) returns (rows: seq<Row>)
    requires nodes == Latest(Visits(devices)) && Describes(parents, Edges(devices, None))
    requires Distinct(order) && forall n :: n in order <==> n in nodes
    ensures |rows| == |order|
    ensures forall i :: 0 <= i < |rows| ==> rows[i] == RowOf(nodes, parents, order[i], clean)
  {
    hide Reaches, SystemDevice, Mounted, Closed, Up, Latest, Visits, Edges, Describes, Distinct, Decide;
    UniverseClosed(devices, parents);
    var protected_ := CollectProtected(nodes, order, parents);
    var used := CollectUsed(nodes, order, parents);
    var counts := CountUuids(nodes, order);
    rows := [];
    for i := 0 to |order|
      invariant |rows| == i
      invariant forall j :: 0 <= j < i ==> rows[j] == RowOf(nodes, parents, order[j], clean)
    {
      hide RowOf, ProtectedBy, UsedBy;
      var row := MakeRow(nodes, order, parents, order[i], protected_, used, counts, clean);
      rows := rows + [row];
    }
  }

  method MakeRow(nodes: map<string, Device>, ghost order: seq<string>, ghost parents: Parents, name: string,
                 protected_: set<string>, used: set<string>, counts: map<string, nat>, clean: string -> string)
    returns (row: Row)
    requires Distinct(order) && name in order && forall n :: n in order <==> n in nodes
    requires forall a :: a in protected_ <==> ProtectedBy(nodes, parents, order, a)
    requires forall a :: a in used <==> UsedBy(nodes, parents, order, a)
    requires forall u :: u != "" ==> (if u in counts then counts[u] else 0) == Carriers(nodes, order, u)
    ensures row == RowOf(nodes, parents, name, clean)
  {
    hide Reaches, SystemDevice, Mounted, Decide, Ancestor, Distinct, Carriers;
    var d := nodes[name];
    OneCarrier(nodes, order, name);
    assert name in protected_ <==> Protected(nodes, parents, name);
    assert name in used <==> InUse(nodes, parents, name);
    var ambiguous := (if d.uuid in counts then counts[d.uuid] else 0) != 1;
    UnnamedIsNotAmbiguous(d, name in protected_, name in used, ambiguous, Shared(nodes, name), clean);
    return Decide(d, name in protected_, name in used, ambiguous, clean);
  }

  lemma UnnamedIsNotAmbiguous(d: Device, p: bool, u: bool, ambiguous: bool, shared: bool, clean: string -> string)
    requires d.uuid != "" ==> (ambiguous <==> shared)
    ensures Decide(d, p, u, ambiguous, clean) == Decide(d, p, u, shared, clean)
  {
  }

  // A device offered for review is no part of the system and above none, is not mounted
  // and above no mounted device, can be written, and shares its filesystem with no other.
  lemma OfferedIsSafe(nodes: map<string, Device>, parents: Parents, name: string, clean: string -> string)
    requires name in nodes && RowOf(nodes, parents, name, clean).action != NoAction
    ensures !Mounted(nodes[name]) && !SystemDevice(nodes[name]) && !nodes[name].readOnly
    ensures forall x :: x in nodes && (Mounted(nodes[x]) || SystemDevice(nodes[x])) ==> !Reaches(parents, x, name)
    ensures nodes[name].uuid != "" ==> !Shared(nodes, name)
    ensures RowOf(nodes, parents, name, clean).action == ReviewNew ==>
      nodes[name].children == [] && nodes[name].fstype == "" && Identified(nodes[name])
  {
    forall x | x in nodes && (Mounted(nodes[x]) || SystemDevice(nodes[x])) ensures !Reaches(parents, x, name) {
      if Reaches(parents, x, name) {
        SystemIsMounted(nodes[x]);
        ReachedIsAncestor(parents, x, name);
      }
    }
    SystemIsMounted(nodes[name]);
  }

  lemma SystemIsMounted(d: Device)
    ensures SystemDevice(d) ==> Mounted(d)
  {
  }

  lemma ReachedIsAncestor(parents: Parents, from: string, to: string)
    requires Reaches(parents, from, to)
    ensures from == to || Ancestor(parents, from, to)
  {
    var path :| Chain(parents, path) && path[0] == from && path[|path| - 1] == to;
    if |path| > 1 {
      assert path[1] in Up(parents, path[0]);
      assert Chain(parents, path[1..]) by {
        forall i | 0 <= i < |path[1..]| - 1 ensures path[1..][i + 1] in Up(parents, path[1..][i]) {
          assert path[i + 2] in Up(parents, path[i + 1]);
        }
      }
      assert Reaches(parents, path[1], to);
    }
  }

  lemma AncestorReaches(parents: Parents, from: string, to: string)
    requires Ancestor(parents, from, to)
    ensures Reaches(parents, from, to)
  {
    var p :| p in Up(parents, from) && Reaches(parents, p, to);
    var path :| Chain(parents, path) && path[0] == p && path[|path| - 1] == to;
    assert Chain(parents, [from] + path);
  }

  // Nothing is mounted on this device or on anything in it, and it can be written.
  ghost predicate Free(nodes: map<string, Device>, parents: Parents, name: string)
    requires name in nodes
  {
    && (forall x, m :: x in nodes && m in nodes[x].mounts && m != "" ==> !Reaches(parents, x, name))
    && !nodes[name].readOnly && nodes[name].kind in {"disk", "part"}
  }

  ghost predicate Alone(nodes: map<string, Device>, name: string)
    requires name in nodes
  {
    forall n :: n in nodes && n != name ==> nodes[n].uuid != nodes[name].uuid
  }

  lemma NothingBelow(nodes: map<string, Device>, parents: Parents, name: string)
    requires name in nodes
    ensures !Mounted(nodes[name]) && !InUse(nodes, parents, name) <==>
      forall x, m :: x in nodes && m in nodes[x].mounts && m != "" ==> !Reaches(parents, x, name)
  {
    ReachesSelf(parents, name);
    forall x | x in nodes && Mounted(nodes[x])
      ensures Reaches(parents, x, name) <==> x == name || Ancestor(parents, x, name)
    {
      if Reaches(parents, x, name) { ReachedIsAncestor(parents, x, name); }
      if Ancestor(parents, x, name) { AncestorReaches(parents, x, name); }
    }
    hide Reaches, Ancestor;
  }

  // An existing filesystem is offered exactly on a free device whose ext4 UUID no other
  // device has; a new one exactly on a free device that is empty and has a lasting
  // identity.
  lemma OfferedExactly(nodes: map<string, Device>, parents: Parents, name: string, clean: string -> string)
    requires name in nodes
    ensures RowOf(nodes, parents, name, clean).action == ReviewExisting <==>
      && Free(nodes, parents, name) && Alone(nodes, name)
      && nodes[name].fstype == "ext4" && nodes[name].uuid != ""
    ensures RowOf(nodes, parents, name, clean).action == ReviewNew <==>
      && Free(nodes, parents, name) && (nodes[name].uuid == "" || Alone(nodes, name))
      && nodes[name].children == [] && nodes[name].fstype == ""
      && (nodes[name].kind == "disk" ==> nodes[name].serial != "" || nodes[name].wwn != "")
      && (nodes[name].kind == "part" ==> nodes[name].partuuid != "")
  {
    NothingBelow(nodes, parents, name);
    if Protected(nodes, parents, name) {
      var x :| x in nodes && SystemDevice(nodes[x]) && Reaches(parents, x, name);
      var m :| m in nodes[x].mounts && SystemMount(m);
      assert m != "";
    }
    hide Reaches, InUse, Protected;
  }

  // The root or the boot filesystem is mounted on this device or on something in it.
  ghost predicate OnSystem(nodes: map<string, Device>, parents: Parents, name: string) {
    exists x, m :: x in nodes && m in nodes[x].mounts && Reaches(parents, x, name)
      && (m == "/" || m == "/boot" || (|m| >= 6 && m[..6] == "/boot/"))
  }

  lemma SystemExactly(nodes: map<string, Device>, parents: Parents, name: string)
    ensures Protected(nodes, parents, name) <==> OnSystem(nodes, parents, name)
  {
    hide Reaches;
    if OnSystem(nodes, parents, name) {
      var x, m :| x in nodes && m in nodes[x].mounts && Reaches(parents, x, name)
        && (m == "/" || m == "/boot" || (|m| >= 6 && m[..6] == "/boot/"));
      assert SystemMount(m) && SystemDevice(nodes[x]);
    }
    if Protected(nodes, parents, name) {
      var x :| x in nodes && SystemDevice(nodes[x]) && Reaches(parents, x, name);
      var m :| m in nodes[x].mounts && SystemMount(m);
    }
  }

  // A row says first whether the device holds a part of the running system, then whether
  // it is read-only, and then whether it is the mounted data volume.
  lemma ReasonsInOrder(nodes: map<string, Device>, parents: Parents, name: string, clean: string -> string)
    requires name in nodes
    ensures var d, row, system := nodes[name], RowOf(nodes, parents, name, clean), OnSystem(nodes, parents, name);
      && row.name == d.name
      && (row.reason == SystemDeviceHere <==> system)
      && (row.reason == ReadOnlyDevice <==> !system && d.readOnly)
      && (row.reason == CurrentDataMount <==>
            && !system && !d.readOnly && exists m :: m in d.mounts && m != "" && clean(m) == "/srv/justverify/data")
      && (row.reason in {SystemDeviceHere, ReadOnlyDevice, CurrentDataMount} ==> row.action == NoAction)
  {
    SystemExactly(nodes, parents, name);
    hide OnSystem, Protected, InUse, Shared;
  }
}
