/** How a global's parent id and display name are derived from its object
    type and its current properties (`Global::update`). */
module Derive {
  import opened Base
  import opened Strings
  import opened Props
  import opened Protocol
  import ParseU32

  /** The property naming a global's parent, if its type has one: a node
      takes `device.id` when present and `client.id` otherwise, a port takes
      `node.id`. The first present key is chosen even if its value will not
      parse. */
  function ParentSource(t: ObjectType, p: PropMap): (r: Option<string>)
    ensures r.Some? ==> t.Node? || t.Port?
  {
    match t
    case Node => if Get(p, "device.id").Some? then Get(p, "device.id") else Get(p, "client.id")
    case Port => Get(p, "node.id")
    case _ => None
  }

  /** The parent id: the chosen property parsed as a `u32`; no parent when
      there is no such property or its value does not parse. */
  function DeriveParent(t: ObjectType, p: PropMap): (r: Option<u32>)
    ensures r.Some? ==> ParentSource(t, p).Some? && ParseU32.Parse(ParentSource(t, p).value) == r
  {
    var src := ParentSource(t, p);
    if src.Some? then ParseU32.Parse(src.value) else None
  }

  /** Only nodes and ports have parents. */
  lemma ParentOnlyForNodesAndPorts(t: ObjectType, p: PropMap)
    requires !t.Node? && !t.Port?
    ensures DeriveParent(t, p) == None
  {
  }

  /** A node's `device.id`, when present, decides the parent alone: a value
      that does not parse leaves the node without a parent rather than
      falling back to `client.id`. */
  lemma NodeParentFromDevice(p: PropMap, s: string)
    requires Get(p, "device.id") == Some(s)
    ensures DeriveParent(Node, p) == ParseU32.Parse(s)
  {
  }

  /** Without `device.id` a node's parent comes from `client.id`. */
  lemma NodeParentFromClient(p: PropMap)
    requires Get(p, "device.id") == None
    ensures Get(p, "client.id") == None ==> DeriveParent(Node, p) == None
    ensures Get(p, "client.id").Some? ==>
              DeriveParent(Node, p) == ParseU32.Parse(Get(p, "client.id").value)
  {
  }

  /** A port's parent is its `node.id` parsed as a `u32`: none without
      that property, none when it does not parse. */
  lemma PortParentFromNodeId(p: PropMap)
    ensures Get(p, "node.id") == None ==> DeriveParent(Port, p) == None
    ensures Get(p, "node.id").Some? ==> DeriveParent(Port, p) == ParseU32.Parse(Get(p, "node.id").value)
  {
  }

  /** Port parents from values that are not canonical decimals: a leading
      `+` and a leading zero are accepted, and a port without `node.id` has
      no parent whatever else it carries. */
  lemma PortParentExamples()
    ensures DeriveParent(Port, [("node.id", "+5")]) == Some(5)
    ensures DeriveParent(Port, [("node.id", "05")]) == Some(5)
    ensures DeriveParent(Port, [("a", "1")]) == None
  {
    ParseU32.ParseDecimal(5);
    assert ParseU32.Decimal(5) == "5";
    ParseU32.ParseLeadingZero("5");
    assert "0" + "5" == "05";
    assert Get([("a", "1")], "node.id") == None;
  }

  /** A port whose `node.id` is the decimal rendering of a `u32` gets that
      node as its parent. */
  lemma PortParentRoundTrip(p: PropMap, n: u32)
    requires Get(p, "node.id") == Some(ParseU32.Decimal(n))
    ensures DeriveParent(Port, p) == Some(n)
  {
    ParseU32.ParseDecimal(n);
  }

  /** Parent examples: `node.id` = "5" gives parent 5, `node.id` = "x" gives
      none, and a malformed `device.id` hides a valid `client.id`. */
  lemma ParentExamples()
    ensures DeriveParent(Port, [("node.id", "5")]) == Some(5)
    ensures DeriveParent(Port, [("node.id", "x")]) == None
    ensures DeriveParent(Node, [("client.id", "7"), ("device.id", "x")]) == None
    ensures DeriveParent(Node, [("client.id", "7")]) == Some(7)
  {
    assert Less("client.id", "device.id");
    PortParentRoundTrip([("node.id", "5")], 5);
    ParseU32.ParseDecimal(7);
    assert Get([("client.id", "7"), ("device.id", "x")], "device.id") == Some("x");
  }

  /** The value of the first of three keys present in `p`
      (`find_map` over a three-element array). */
  function FirstOf(p: PropMap, a: string, b: string, c: string): Option<string> {
    if Get(p, a).Some? then Get(p, a) else if Get(p, b).Some? then Get(p, b) else Get(p, c)
  }

  /** The type-specific name lookup: nick, description, name for devices
      and nodes; `port.name` for ports; `core.name` for cores; nothing for
      the other types. */
  function TypeSpecificName(t: ObjectType, p: PropMap): Option<string> {
    match t
    case Device => FirstOf(p, "device.nick", "device.description", "device.name")
    case Node => FirstOf(p, "node.nick", "node.description", "node.name")
    case Port => Get(p, "port.name")
    case Core => Get(p, "core.name")
    case _ => None
  }

  /** Keys the type-specific lookup reads. */
  predicate LookupKey(t: ObjectType, k: string) {
    match t
    case Device => k == "device.nick" || k == "device.description" || k == "device.name"
    case Node => k == "node.nick" || k == "node.description" || k == "node.name"
    case Port => k == "port.name"
    case Core => k == "core.name"
    case _ => false
  }

  /** Keys the fallback scan may take a name from: any key ending in
      `.name` except `library.name`, and `factory.name` only for factories. */
  predicate NameKey(t: ObjectType, k: string) {
    IsSuffix(".name", k) && k != "library.name" && (t.Factory? || k != "factory.name")
  }

  /** The fallback scan over the properties in key order: the value of the
      first key that qualifies. */
  function FallbackName(t: ObjectType, p: seq<Entry>): (r: Option<string>)
    ensures r.None? <==> forall i :: 0 <= i < |p| ==> !NameKey(t, p[i].0)
    ensures r.Some? ==> exists i :: 0 <= i < |p| && NameKey(t, p[i].0) && p[i].1 == r.value &&
                                    forall j :: 0 <= j < i ==> !NameKey(t, p[j].0)
    decreases |p|
  {
    if |p| == 0 then None
    else if NameKey(t, p[0].0) then Some(p[0].1)
    else
      var r := FallbackName(t, p[1..]);
      assert forall i :: 0 < i < |p| ==> p[1..][i - 1] == p[i];
      r
  }

  /** The name shown for a global: the type-specific lookup if it finds
      something, the fallback scan otherwise. */
  function DeriveName(t: ObjectType, p: PropMap): (r: Option<string>)
    ensures r.Some? ==> exists k :: k in Keys(p) && Get(p, k) == r
    ensures r.None? <==> TypeSpecificName(t, p).None? && forall k :: k in Keys(p) ==> !NameKey(t, k)
  {
    var n := TypeSpecificName(t, p);
    FallbackIsLeast(t, p);
    if n.Some? then n else FallbackName(t, p)
  }

  /** On a sorted map the fallback picks the smallest qualifying key: it
      returns a value exactly when some key qualifies, and then that value
      belongs to a qualifying key below every other qualifying key. */
  lemma FallbackIsLeast(t: ObjectType, p: PropMap)
    ensures FallbackName(t, p).Some? <==> exists k :: k in Keys(p) && NameKey(t, k)
    ensures FallbackName(t, p).Some? ==>
              exists k :: k in Keys(p) && NameKey(t, k) && Get(p, k) == FallbackName(t, p) &&
                          forall k' :: k' in Keys(p) && NameKey(t, k') && k' != k ==> Less(k, k')
  {
    if exists k :: k in Keys(p) && NameKey(t, k) {
      var k :| k in Keys(p) && NameKey(t, k);
      var i :| 0 <= i < |p| && p[i].0 == k;
    }
    if FallbackName(t, p).Some? {
      FallbackLeastKey(t, p);
    }
  }

  /** The key the fallback takes its value from is below every other
      qualifying key. */
  lemma FallbackLeastKey(t: ObjectType, p: PropMap)
    requires FallbackName(t, p).Some?
    ensures exists k :: k in Keys(p) && NameKey(t, k) && Get(p, k) == FallbackName(t, p) &&
                        forall k' :: k' in Keys(p) && NameKey(t, k') && k' != k ==> Less(k, k')
  {
    var r := FallbackName(t, p);
    var i :| 0 <= i < |p| && NameKey(t, p[i].0) && p[i].1 == r.value &&
             forall j :: 0 <= j < i ==> !NameKey(t, p[j].0);
    GetEntry(p, i);
    forall k' | k' in Keys(p) && NameKey(t, k') && k' != p[i].0
      ensures Less(p[i].0, k')
    {
      var j :| 0 <= j < |p| && p[j].0 == k';
    }
    assert p[i].0 in Keys(p);
  }

  /** Devices and nodes take the first present of their nick, description
      and name; ports take `port.name`, cores `core.name`. */
  lemma NamePriority(t: ObjectType, p: PropMap)
    ensures t.Device? && Get(p, "device.nick").Some? ==> DeriveName(t, p) == Get(p, "device.nick")
    ensures t.Device? && Get(p, "device.nick").None? && Get(p, "device.description").Some? ==>
              DeriveName(t, p) == Get(p, "device.description")
    ensures t.Device? && Get(p, "device.nick").None? && Get(p, "device.description").None? ==>
              DeriveName(t, p) == (if Get(p, "device.name").Some? then Get(p, "device.name")
                                   else FallbackName(t, p))
    ensures t.Node? && Get(p, "node.nick").Some? ==> DeriveName(t, p) == Get(p, "node.nick")
    ensures t.Node? && Get(p, "node.nick").None? && Get(p, "node.description").Some? ==>
              DeriveName(t, p) == Get(p, "node.description")
    ensures t.Node? && Get(p, "node.nick").None? && Get(p, "node.description").None? ==>
              DeriveName(t, p) == (if Get(p, "node.name").Some? then Get(p, "node.name")
                                   else FallbackName(t, p))
    ensures t.Port? && Get(p, "port.name").Some? ==> DeriveName(t, p) == Get(p, "port.name")
    ensures t.Core? && Get(p, "core.name").Some? ==> DeriveName(t, p) == Get(p, "core.name")
  {
  }

  /** When the type-specific keys are all absent (always, for types without
      any), the name is the value of the smallest qualifying key, and there
      is no name when no key qualifies. */
  lemma NameFallback(t: ObjectType, p: PropMap)
    requires TypeSpecificName(t, p).None?
    ensures DeriveName(t, p).None? <==> forall k :: k in Keys(p) ==> !NameKey(t, k)
    ensures DeriveName(t, p).Some? ==>
              exists k :: k in Keys(p) && NameKey(t, k) && Get(p, k) == DeriveName(t, p) &&
                          forall k' :: k' in Keys(p) && NameKey(t, k') && k' != k ==> Less(k, k')
  {
    FallbackIsLeast(t, p);
  }

  /** `library.name` never names anything, and `factory.name` names only
      factories: adding either key (where it does not qualify) to any map
      leaves the name as it was. */
  lemma ExcludedNameKeys(t: ObjectType, p: PropMap, v: string)
    ensures DeriveName(t, Insert(p, "library.name", v)) == DeriveName(t, p)
    ensures !t.Factory? ==> DeriveName(t, Insert(p, "factory.name", v)) == DeriveName(t, p)
  {
    assert !NameKey(t, "library.name");
    IgnoredKey(t, p, "library.name", v);
    if !t.Factory? {
      assert !NameKey(t, "factory.name");
      IgnoredKey(t, p, "factory.name", v);
    }
  }

  /** A factory whose only property is `factory.name` is named by it. */
  lemma FactoryNamedByFactoryName(v: string)
    ensures DeriveName(Factory, [("factory.name", v)]) == Some(v)
  {
    assert IsSuffix(".name", "factory.name");
  }

  /** Inserting a key that neither the type-specific lookup nor the
      fallback scan looks at does not change the derived name. */
  lemma IgnoredKey(t: ObjectType, p: PropMap, key: string, v: string)
    requires !LookupKey(t, key) && !NameKey(t, key)
    ensures DeriveName(t, Insert(p, key, v)) == DeriveName(t, p)
  {
    TypeSpecificIgnores(t, p, key, v);
    FallbackIgnores(t, p, key, v);
  }

  /** The type-specific lookup is blind to a key it does not read. */
  lemma TypeSpecificIgnores(t: ObjectType, p: PropMap, key: string, v: string)
    requires !LookupKey(t, key)
    ensures TypeSpecificName(t, Insert(p, key, v)) == TypeSpecificName(t, p)
  {
    match t
    case Device =>
      InsertGet(p, key, v, "device.nick");
      InsertGet(p, key, v, "device.description");
      InsertGet(p, key, v, "device.name");
    case Node =>
      InsertGet(p, key, v, "node.nick");
      InsertGet(p, key, v, "node.description");
      InsertGet(p, key, v, "node.name");
    case Port =>
      InsertGet(p, key, v, "port.name");
    case Core =>
      InsertGet(p, key, v, "core.name");
    case _ =>
  }

  /** The fallback scan is blind to a key that does not qualify. */
  lemma FallbackIgnores(t: ObjectType, p: PropMap, key: string, v: string)
    requires !NameKey(t, key)
    ensures FallbackName(t, Insert(p, key, v)) == FallbackName(t, p)
  {
    var q := Insert(p, key, v);
    InsertKeys(p, key, v);
    FallbackIsLeast(t, p);
    FallbackIsLeast(t, q);
    if FallbackName(t, q).Some? {
      var k :| k in Keys(q) && NameKey(t, k) && Get(q, k) == FallbackName(t, q) &&
               forall k' :: k' in Keys(q) && NameKey(t, k') && k' != k ==> Less(k, k');
      var k2 :| k2 in Keys(p) && NameKey(t, k2) && Get(p, k2) == FallbackName(t, p) &&
                forall k' :: k' in Keys(p) && NameKey(t, k') && k' != k2 ==> Less(k2, k');
      if k != k2 {
        LessAsymmetric(k, k2);
      }
      InsertGet(p, key, v, k);
    }
  }

  /** Name examples: a node with only `node.name` = "foo" is named "foo";
      one with `node.nick` = "a" and `node.name` = "b" is named "a". */
  lemma NameExamples()
    ensures DeriveName(Node, [("node.name", "foo")]) == Some("foo")
    ensures DeriveName(Node, [("node.name", "b"), ("node.nick", "a")]) == Some("a")
  {
    assert Less("node.name", "node.nick") by {
      assert "node.name" == "node.n" + "ame" && "node.nick" == "node.n" + "ick";
      LessPrefix("node.n", "ame", "ick");
    }
    var p: PropMap := [("node.name", "b"), ("node.nick", "a")];
    assert Get(p, "node.nick") == Some("a");
  }

  /** An empty property map yields neither a name nor a parent. */
  lemma EmptyDerivesNothing(t: ObjectType)
    ensures DeriveName(t, []) == None
    ensures DeriveParent(t, []) == None
  {
  }
}
