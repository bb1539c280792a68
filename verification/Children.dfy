/** The children of a namespace node (`core/ns.c`): a hash table searched by name hash, then by name,
    which behaves like the finite map from names to nodes that `Namespace` uses. */
module Children {
  import opened Bits
  import opened Outcomes
  import opened Names
  import opened HashTables
  import N = Namespace

  const WORD := 0x1_0000_0000

  /** A character of a name, taken as a signed `char`. */
  function SignedChar(b: byte): int {
    if b < 128 then b else b - 256
  }

  function Djb2From(x: nat, s: seq<byte>): nat
    decreases |s|
  {
    if s == [] then x else Djb2From((33 * x + SignedChar(s[0])) % WORD, s[1..])
  }

  /** The hash of a name. */
  function NameHash(name: Segment): nat {
    Djb2From(5381, name)
  }

  /** The code adds the number of a probe to the hash as an `int`. The hashes of all names leave so much
      room that no probe overflows in a table of at most 2 to the 25 buckets. */
  lemma ProbesNeverOverflow(name: Segment, m: nat, i: nat)
    requires i < m <= 0x200_0000
    ensures NameHash(name) + i < 0x8000_0000
  {
    hide SignedChar;
    var a, b, c, d := SignedChar(name[0]), SignedChar(name[1]), SignedChar(name[2]), SignedChar(name[3]);
    SignedCharFits(name[0]);
    SignedCharFits(name[1]);
    SignedCharFits(name[2]);
    SignedCharFits(name[3]);
    var x0: nat := 33 * 5381 + a;
    var x1: nat := 33 * x0 + b;
    var x2: nat := 33 * x1 + c;
    assert Djb2From(5381, name) == Djb2From(x0, name[1..]);
    assert Djb2From(x0, name[1..]) == Djb2From(x1, name[2..]) by { assert name[1..][1..] == name[2..]; }
    assert Djb2From(x1, name[2..]) == Djb2From(x2, name[3..]) by { assert name[2..][1..] == name[3..]; }
    assert Djb2From(x2, name[3..]) == (33 * x2 + d) % WORD by { assert name[3..][1..] == []; }
  }

  lemma SignedCharFits(b: byte)
    ensures -128 <= SignedChar(b) <= 127
  {
  }

  /** `lai_hash_string`. */
  method HashString(name: Segment) returns (x: nat)
    ensures x == NameHash(name)
  {
    x := 5381;
    var i := 0;
    while i < 4
      invariant i <= 4 && Djb2From(x, name[i..]) == NameHash(name)
    {
      x := (33 * x + SignedChar(name[i])) % WORD;
      assert name[i..][1..] == name[i + 1..];
      i := i + 1;
    }
  }

  /** The entries are the children in `kids`, one entry each, under the hash of their name. */
  ghost predicate Represents(entries: map<nat, (nat, nat)>, names: map<nat, Segment>, kids: map<Segment, nat>) {
    && (forall k :: k in entries ==>
          && entries[k].1 in names && names[entries[k].1] in kids
          && kids[names[entries[k].1]] == entries[k].1 && entries[k].0 == NameHash(names[entries[k].1]))
    && (forall name :: name in kids ==>
          kids[name] in names && names[kids[name]] == name && HasEntry(entries, kids[name]))
    && (forall j, k :: j in entries && k in entries && entries[j].1 == entries[k].1 ==> j == k)
  }

  ghost predicate HasEntry(entries: map<nat, (nat, nat)>, node: nat) {
    exists k :: k in entries && entries[k].1 == node
  }

  /** A node that is a child has one name. */
  predicate OneName(kids: map<Segment, nat>, node: nat, name: Segment) {
    forall n :: n in kids && kids[n] == node ==> n == name
  }

  lemma RepresentsInsert(entries: map<nat, (nat, nat)>, names: map<nat, Segment>, kids: map<Segment, nat>,
                         slot: nat, node: nat, name: Segment)
    requires Represents(entries, names, kids) && slot !in entries && name !in kids
    requires OneName(kids, node, name)
    ensures Represents(entries[slot := (NameHash(name), node)], names[node := name], kids[name := node])
  {
    hide NameHash;
    var after := entries[slot := (NameHash(name), node)];
    assert after[slot].1 == node;
    forall n | n in kids ensures HasEntry(after, kids[n]) && kids[n] != node {
      var k :| k in entries && entries[k].1 == kids[n];
      assert after[k] == entries[k];
    }
    OldEntriesStay(entries, names, kids, slot, node, name);
  }

  lemma OldEntriesStay(entries: map<nat, (nat, nat)>, names: map<nat, Segment>, kids: map<Segment, nat>,
                       slot: nat, node: nat, name: Segment)
    requires Represents(entries, names, kids) && slot !in entries && name !in kids
    requires OneName(kids, node, name)
    ensures var after, names', kids' :=
              entries[slot := (NameHash(name), node)], names[node := name], kids[name := node];
            forall k :: k in after ==>
              && after[k].1 in names' && names'[after[k].1] in kids'
              && kids'[names'[after[k].1]] == after[k].1 && after[k].0 == NameHash(names'[after[k].1])
              && (k != slot ==> after[k] == entries[k] && after[k].1 != node)
  {
    hide NameHash;
    forall k | k in entries ensures entries[k].1 != node && names[entries[k].1] != name {
      assert names[entries[k].1] in kids;
    }
  }

  lemma RepresentsRename(entries: map<nat, (nat, nat)>, names: map<nat, Segment>, kids: map<Segment, nat>,
                         node: nat, name: Segment)
    requires Represents(entries, names, kids)
    requires OneName(kids, node, name)
    ensures Represents(entries, names[node := name], kids)
  {
    hide NameHash;
  }

  lemma RepresentsRemove(entries: map<nat, (nat, nat)>, names: map<nat, Segment>, kids: map<Segment, nat>, slot: nat)
    requires Represents(entries, names, kids) && slot in entries
    ensures var node := entries[slot].1;
            && node in names && !HasEntry(entries - {slot}, node)
            && Represents(entries - {slot}, names, kids - {names[node]})
  {
    hide NameHash;
    var node, after := entries[slot].1, entries - {slot};
    forall n | n in kids && n != names[node] ensures HasEntry(after, kids[n]) {
      var k :| k in entries && entries[k].1 == kids[n];
      assert k in after && after[k] == entries[k];
    }
  }

  /** The entry of a node is in the rest of the chain as long as it has not been visited. */
  ghost predicate Ahead(t: Table<nat>, h: nat, node: nat, cursor: int)
    requires Sound(t) && -1 <= cursor
  {
    forall k :: k in Entries(t) && Entries(t)[k].1 == node ==> k in Chain(t, h, cursor + 1)
  }

  /** The children table of one node, together with the names its children carry. */
  class ChildTable {
    const table: HashTable<nat>
    var names: map<nat, Segment>
    ghost var kids: map<Segment, nat>

    ghost predicate Valid()
      reads this, table, table.elems, table.hashes, table.buckets
    {
      table.Valid() && Represents(Entries(table.Contents()), names, kids)
    }

    constructor ()
      ensures Valid() && kids == map[]
      ensures fresh(table) && fresh(table.elems) && fresh(table.hashes) && fresh(table.buckets)
    {
      table := new HashTable<nat>();
      names, kids := map[], map[];
    }

    /** The search loop shared by all operations: the cursor of the child with this name. */
    method Find(name: Segment) returns (h: nat, cursor: int)
      requires Valid()
      ensures h == NameHash(name) && (cursor == -1 <==> name !in kids)
      ensures cursor != -1 ==>
                && 0 <= cursor < table.buckets.Length && Visit(table.Contents(), h, cursor).Some?
                && var k := Visit(table.Contents(), h, cursor).value;
                   k in Entries(table.Contents()) && Entries(table.Contents())[k].1 == kids[name]
    {
      hide Visit, Entries, Chain, NameHash, Sound;
      h := HashString(name);
      ChainIsExact(table.Contents(), h);
      cursor := -1;
      while true
        invariant -1 <= cursor < table.buckets.Length
        invariant name in kids ==> Ahead(table.Contents(), h, kids[name], cursor)
        decreases table.buckets.Length - cursor
      {
        var done, next := table.Advance(h, cursor);
        if done { return h, -1; }
        var child := table.Get(h, next);
        if names[child] == name { return h, next; }
        cursor := next;
      }
    }

    /** `lai_ns_get_child`. */
    method GetChild(name: Segment) returns (child: Option<nat>)
      requires Valid()
      ensures child == if name in kids then Some(kids[name]) else None
    {
      var h, cursor := Find(name);
      if cursor == -1 { return None; }
      var node := table.Get(h, cursor);
      return Some(node);
    }

    /** `lai_install_nsnode`: a second child with the same name is refused. */
    method Install(node: nat, name: Segment) returns (r: Res<()>)
      requires Valid() && OneName(kids, node, name)
      modifies this, table, table.elems, table.hashes, table.buckets
      ensures Valid() && names == old(names)[node := name]
      ensures r == if name in old(kids) then Fail(Api(UnexpectedResult)) else Ok(())
      ensures kids == if name in old(kids) then old(kids) else old(kids)[name := node]
      ensures table.elems == old(table.elems) || fresh(table.elems)
      ensures table.hashes == old(table.hashes) || fresh(table.hashes)
      ensures table.buckets == old(table.buckets) || fresh(table.buckets)
    {
      hide Visit, Entries, NameHash, BucketsUsed, SlotsFound, Represents;
      var h, cursor := Find(name);
      if cursor != -1 {
        RepresentsRename(Entries(table.Contents()), names, kids, node, name);
        names := names[node := name];
        return Fail(Api(UnexpectedResult));
      }
      ghost var before := Entries(table.Contents());
      var slot := table.Insert(h, node);
      RepresentsInsert(before, names, kids, slot, node, name);
      names, kids := names[node := name], kids[name := node];
      return Ok(());
    }

    /** `lai_uninstall_nsnode`: removes the node; it panics if and only if the node is not a child. The
        second loop of the code, which looks for the node again, never finds it. */
    method Uninstall(node: nat) returns (r: Res<()>)
      requires Valid() && node in names
      modifies this`kids, table`count, table.elems, table.buckets
      ensures Valid()
      ensures r == if names[node] in old(kids) && old(kids)[names[node]] == node then Ok(()) else Fail(Internal)
      ensures kids == if r.Ok? then old(kids) - {names[node]} else old(kids)
    {
      hide Visit, Entries, Chain, NameHash, BucketsUsed, SlotsFound;
      var h := HashString(names[node]);
      ghost var t := table.Contents();
      ChainIsExact(t, h);
      var cursor: int := -1;
      while true
        invariant -1 <= cursor < table.buckets.Length && Valid() && table.Contents() == t && kids == old(kids)
        invariant Ahead(t, h, node, cursor)
        decreases table.buckets.Length - cursor
      {
        var done, next := table.Advance(h, cursor);
        if done { return Fail(Internal); }
        cursor := next;
        var child := table.Get(h, cursor);
        if child == node { break; }
      }
      RepresentsRemove(Entries(t), names, kids, Visit(t, h, cursor).value);
      table.Remove(h, cursor);
      kids := kids - {names[node]};
      while true
        invariant -1 <= cursor < table.buckets.Length && Valid() && kids == old(kids) - {names[node]}
        invariant !HasEntry(Entries(table.Contents()), node)
        decreases table.buckets.Length - cursor
      {
        var done, next := table.Advance(h, cursor);
        if done { return Ok(()); }
        cursor := next;
        var child := table.Get(h, cursor);
        if child == node { return Fail(Internal); }
      }
    }
  }

  // ------------------------------------------------------------------------------------
  // The namespace as a family of such maps.
  // ------------------------------------------------------------------------------------

  /** The children of one node in the abstract namespace. */
  function KidsOf(ns: N.Space, parent: nat): map<Segment, nat> {
    map key | key in ns.kids && key.0 == parent :: key.1 := ns.kids[key]
  }

  lemma LookupAgrees(ns: N.Space, parent: nat, name: Segment)
    ensures N.GetChild(ns, parent, name) == if name in KidsOf(ns, parent) then Some(KidsOf(ns, parent)[name]) else None
  {
    if (parent, name) in ns.kids { assert KidsOf(ns, parent)[name] == ns.kids[(parent, name)]; }
  }

  lemma InstallAgrees(ns: N.Space, parent: nat, name: Segment, kind: N.Kind, other: nat)
    ensures N.Install(ns, parent, name, kind).Ok? <==> name !in KidsOf(ns, parent)
    ensures N.Install(ns, parent, name, kind).Ok? ==>
              KidsOf(N.Install(ns, parent, name, kind).value, other)
              == if other == parent then KidsOf(ns, parent)[name := ns.next] else KidsOf(ns, other)
  {
  }

  lemma UninstallAgrees(ns: N.Space, n: nat, other: nat)
    requires n in ns.nodes && ns.nodes[n].parent.Some?
    ensures var name, parent := ns.nodes[n].name, ns.nodes[n].parent.value;
            && (N.Uninstall(ns, n).Ok? <==> name in KidsOf(ns, parent) && KidsOf(ns, parent)[name] == n)
            && (N.Uninstall(ns, n).Ok? ==>
                  KidsOf(N.Uninstall(ns, n).value, other)
                  == if other == parent then KidsOf(ns, other) - {name} else KidsOf(ns, other))
  {
  }

  /** The table holds the children that the node `parent` has in the namespace, and knows the names of
      all nodes that were created under it. */
  ghost predicate Implements(t: ChildTable, ns: N.Space, parent: nat)
    reads t, t.table, t.table.elems, t.table.hashes, t.table.buckets
  {
    && t.Valid() && t.kids == KidsOf(ns, parent)
    && forall n :: n in ns.nodes && ns.nodes[n].parent == Some(parent) ==>
         n in t.names && t.names[n] == ns.nodes[n].name
  }

  /** The next node is new: it is neither among the nodes nor among their children. */
  predicate NextIsNew(ns: N.Space) {
    N.Numbered(ns) && forall key :: key in ns.kids ==> ns.kids[key] < ns.next
  }

  /** Looking a child up in the table of its parent is looking it up in the namespace. */
  method GetChildOf(t: ChildTable, parent: nat, name: Segment, ghost ns: N.Space) returns (child: Option<nat>)
    requires Implements(t, ns, parent)
    ensures child == N.GetChild(ns, parent, name)
  {
    child := t.GetChild(name);
    LookupAgrees(ns, parent, name);
  }

  lemma NewNodeHasOneName(ns: N.Space, parent: nat, name: Segment)
    requires NextIsNew(ns)
    ensures OneName(KidsOf(ns, parent), ns.next, name)
  {
  }

  /** Installing a new node in the table of its parent is installing it in the namespace. */
  method InstallUnder(t: ChildTable, parent: nat, node: nat, name: Segment, ghost ns: N.Space, ghost kind: N.Kind)
    returns (r: Res<()>)
    requires Implements(t, ns, parent) && NextIsNew(ns) && node == ns.next
    modifies t, t.table, t.table.elems, t.table.hashes, t.table.buckets
    ensures match N.Install(ns, parent, name, kind)
            case Ok(after) => r.Ok? && Implements(t, after, parent)
            case Fail(fault) => r == Fail(fault) && Implements(t, ns, parent)
  {
    hide Represents, Sound, Entries, BucketsUsed, SlotsFound, KidsOf, OneName;
    InstallAgrees(ns, parent, name, kind, parent);
    NewNodeHasOneName(ns, parent, name);
    r := t.Install(node, name);
  }

  /** Removing a node from the table of its parent is removing it from the namespace. */
  method UninstallFrom(t: ChildTable, parent: nat, node: nat, ghost ns: N.Space) returns (r: Res<()>)
    requires Implements(t, ns, parent) && node in ns.nodes && ns.nodes[node].parent == Some(parent)
    modifies t`kids, t.table`count, t.table.elems, t.table.buckets
    ensures match N.Uninstall(ns, node)
            case Ok(after) => r.Ok? && Implements(t, after, parent)
            case Fail(fault) => r == Fail(fault) && Implements(t, ns, parent)
  {
    hide Represents;
    UninstallAgrees(ns, node, parent);
    r := t.Uninstall(node);
  }

  /** What happens under one node does not concern the tables of the others. */
  lemma OthersImplement(t: ChildTable, ns: N.Space, other: nat, parent: nat, name: Segment, kind: N.Kind, node: nat)
    requires Implements(t, ns, other) && other != parent && NextIsNew(ns)
    ensures N.Install(ns, parent, name, kind).Ok? ==> Implements(t, N.Install(ns, parent, name, kind).value, other)
    ensures node in ns.nodes && ns.nodes[node].parent == Some(parent) && N.Uninstall(ns, node).Ok? ==>
              Implements(t, N.Uninstall(ns, node).value, other)
  {
    hide Represents, Sound, Entries, BucketsUsed, SlotsFound, KidsOf, NameHash;
    InstallAgrees(ns, parent, name, kind, other);
    if node in ns.nodes && ns.nodes[node].parent == Some(parent) { UninstallAgrees(ns, node, other); }
  }
}
