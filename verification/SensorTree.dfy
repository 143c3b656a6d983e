/** The hierarchical view of the flat sensor list (src/monitor/sensor_model.cpp): readings are filed under their
  * category and, inside it, under a group chosen by their unit; flattening walks the tree again. */
module SensorTree {
  import opened Grouping
  import opened Sequences

  datatype SensorReading = SensorReading(
    name: string, category: string, value: real, minValue: real, maxValue: real, unit: string, lastUpdate: real)

  datatype SensorGroup = SensorGroup(name: string, readings: seq<SensorReading>)

  datatype HardwareNode = HardwareNode(id: string, name: string, kind: string, groups: seq<SensorGroup>)

  /** The categories that come first, in this order. */
  const ORDER: seq<string> := ["CPU", "GPU", "Motherboard", "Storage"]

  function GroupNameForUnit(unit: string): string {
    if unit == "C" then "Temperatures"
    else if unit == "V" then "Voltages"
    else if unit == "W" then "Power"
    else if unit == "RPM" then "Fans"
    else if unit == "MHz" then "Clocks"
    else if unit == "%" then "Load"
    else "Other"
  }

  function CategoryOf(r: SensorReading): string {
    r.category
  }

  function GroupOf(r: SensorReading): string {
    GroupNameForUnit(r.unit)
  }

  function IdChar(c: char): char {
    if 'A' <= c <= 'Z' then c + 32 as char else if c == ' ' then '_' else c
  }

  /** Lower case, with spaces replaced by underscores. */
  function IdOf(category: string): string {
    seq(|category|, i requires 0 <= i < |category| => IdChar(category[i]))
  }

  /** The units that have a group of their own, and the names of these groups. */
  const UNITS: seq<string> := ["C", "V", "W", "RPM", "MHz", "%"]
  const UNIT_GROUPS: seq<string> := ["Temperatures", "Voltages", "Power", "Fans", "Clocks", "Load"]

  /** Known units are grouped each by itself, under the name in the same place of the list; all others are together. */
  lemma UnitGroups(unit: string, i: nat)
    requires i < 6
    ensures GroupNameForUnit(unit) == UNIT_GROUPS[i] <==> unit == UNITS[i]
    ensures GroupNameForUnit(unit) == "Other" <==> unit !in UNITS
  {
    assert unit !in UNITS <==> forall k :: 0 <= k < 6 ==> unit != UNITS[k];
  }

  /** An id has neither upper case letters nor spaces, each letter keeps its place in the alphabet, and folding an id
    * again changes nothing. */
  lemma IdIsFolded(category: string, i: nat)
    requires i < |category|
    ensures |IdOf(category)| == |category| && IdOf(IdOf(category)) == IdOf(category)
    ensures var c, d := category[i], IdOf(category)[i];
      if 'A' <= c <= 'Z' then 'a' <= d <= 'z' && d as int - 'a' as int == c as int - 'A' as int
      else if c == ' ' then d == '_' else d == c
  {
  }

  lemma NetworkId()
    ensures IdOf("Network Card") == "network_card"
  {
    assert |IdOf("Network Card")| == 12;
    var id := IdOf("Network Card");
    assert id[0] == 'n' && id[7] == '_' && id[8] == 'c';
    assert id[1..7] == "etwork" && id[9..] == "ard";
    assert id == [id[0]] + id[1..7] + [id[7]] + [id[8]] + id[9..];
  }

  // ---- The order of map keys -----------------------------------------------------------------------------

  /** Lexicographic order, the order in which the category map is walked. */
  predicate Before(a: string, b: string) {
    b != [] && (a == [] || a[0] < b[0] || (a[0] == b[0] && Before(a[1..], b[1..])))
  }

  lemma {:induction false} BeforeIsTotal(a: string, b: string)
    ensures a == b || Before(a, b) || Before(b, a)
  {
    if a != [] && b != [] && a[0] == b[0] {
      BeforeIsTotal(a[1..], b[1..]);
      assert a == [a[0]] + a[1..] && b == [b[0]] + b[1..];
    }
  }

  lemma {:induction false} BeforeIsTransitive(a: string, b: string, c: string)
    requires Before(a, b) && Before(b, c)
    ensures Before(a, c)
  {
    if a != [] && a[0] == b[0] && b[0] == c[0] {
      BeforeIsTransitive(a[1..], b[1..], c[1..]);
    }
  }

  lemma {:induction false} BeforeIsStrict(a: string, b: string)
    requires Before(a, b)
    ensures !Before(b, a) && a != b
  {
    if a != [] && a[0] == b[0] {
      BeforeIsStrict(a[1..], b[1..]);
    }
  }

  ghost predicate IsLeast(k: string, ks: set<string>) {
    k in ks && forall j :: j in ks && j != k ==> Before(k, j)
  }

  lemma {:induction false} LeastExists(ks: set<string>) returns (k: string)
    requires ks != {}
    ensures IsLeast(k, ks)
    decreases |ks|
  {
    k :| k in ks;
    if ks != {k} {
      assert ks - {k} != {};
      var m := LeastExists(ks - {k});
      BeforeIsTotal(k, m);
      if Before(m, k) {
        k := m;
      } else {
        forall j | j in ks && j != k ensures Before(k, j) {
          if j != m {
            BeforeIsTransitive(k, m, j);
          }
        }
      }
    }
  }

  lemma LeastIsUnique(k: string, m: string, ks: set<string>)
    requires IsLeast(k, ks) && IsLeast(m, ks)
    ensures k == m
  {
    if k != m {
      BeforeIsStrict(k, m);
    }
  }

  /** The keys of a map in the order its iterator visits them. */
  ghost function KeysInOrder(ks: set<string>): seq<string>
    decreases |ks|
  {
    if ks == {} then [] else
      var k := Least(ks);
      [k] + KeysInOrder(ks - {k})
  }

  ghost function Least(ks: set<string>): (k: string)
    requires ks != {}
    ensures IsLeast(k, ks)
  {
    assert exists k :: IsLeast(k, ks) by {
      var m := LeastExists(ks);
    }
    var k :| IsLeast(k, ks);
    k
  }

  lemma {:induction false} KeysInOrderMembers(ks: set<string>, k: string)
    ensures k in KeysInOrder(ks) <==> k in ks
    decreases |ks|
  {
    if ks != {} {
      KeysInOrderMembers(ks - {Least(ks)}, k);
    }
  }

  ghost predicate Ascending(ks: seq<string>) {
    forall i, j :: 0 <= i < j < |ks| ==> Before(ks[i], ks[j])
  }

  lemma {:induction false} KeysInOrderAscend(ks: set<string>)
    ensures Ascending(KeysInOrder(ks))
    decreases |ks|
  {
    if ks != {} {
      var k := Least(ks);
      var rest := KeysInOrder(ks - {k});
      KeysInOrderAscend(ks - {k});
      forall j | 0 <= j < |rest| ensures Before(k, rest[j]) {
        KeysInOrderMembers(ks - {k}, rest[j]);
      }
    }
  }

  // ---- What the tree is ----------------------------------------------------------------------------------

  ghost function CategorySet(s: seq<SensorReading>): set<string> {
    set r | r in s :: r.category
  }

  ghost function Present(order: seq<string>, ks: set<string>): seq<string> {
    if order == [] then [] else
      Present(order[..|order| - 1], ks) + (if order[|order| - 1] in ks then [order[|order| - 1]] else [])
  }

  /** The known categories first, in their fixed order, then the others in key order. */
  ghost function CategoryOrder(ks: set<string>): seq<string> {
    Present(ORDER, ks) + KeysInOrder(ks - Elements(ORDER))
  }

  /** One group for each group name, in order of first appearance, holding its readings in order. */
  ghost function GroupsOf(s: seq<SensorReading>): seq<SensorGroup> {
    var names := FirstSeen(GroupOf, s);
    seq(|names|, i requires 0 <= i < |names| => SensorGroup(names[i], Select(GroupOf, names[i], s)))
  }

  ghost function NodeOf(category: string, s: seq<SensorReading>): HardwareNode {
    HardwareNode(IdOf(category), category, category, GroupsOf(Select(CategoryOf, category, s)))
  }

  ghost function NodesOf(categories: seq<string>, s: seq<SensorReading>): seq<HardwareNode> {
    seq(|categories|, i requires 0 <= i < |categories| => NodeOf(categories[i], s))
  }

  ghost function Tree(s: seq<SensorReading>): seq<HardwareNode> {
    NodesOf(CategoryOrder(CategorySet(s)), s)
  }

  ghost function GroupParts(groups: seq<SensorGroup>): seq<seq<SensorReading>> {
    seq(|groups|, i requires 0 <= i < |groups| => groups[i].readings)
  }

  ghost function NodeParts(nodes: seq<HardwareNode>): seq<seq<SensorReading>> {
    seq(|nodes|, i requires 0 <= i < |nodes| => Concat(GroupParts(nodes[i].groups)))
  }

  ghost function Flat(nodes: seq<HardwareNode>): seq<SensorReading> {
    Concat(NodeParts(nodes))
  }

  // ---- The order of categories ---------------------------------------------------------------------------

  lemma {:induction false} PresentMembers(order: seq<string>, ks: set<string>, k: string)
    ensures k in Present(order, ks) <==> k in order && k in ks
  {
    if order == [] {
    } else {
      PresentMembers(order[..|order| - 1], ks, k);
      assert order == order[..|order| - 1] + [order[|order| - 1]];
    }
  }

  lemma {:induction false} PresentDistinct(order: seq<string>, ks: set<string>)
    requires Distinct(order)
    ensures Distinct(Present(order, ks))
  {
    if order == [] {
    } else {
      var n := |order| - 1;
      PresentDistinct(order[..n], ks);
      PresentMembers(order[..n], ks, order[n]);
    }
  }

  lemma AscendingDistinct(ks: seq<string>)
    requires Ascending(ks)
    ensures Distinct(ks)
  {
    forall i, j | 0 <= i < j < |ks| ensures ks[i] != ks[j] {
      BeforeIsStrict(ks[i], ks[j]);
    }
  }

  /** Every category gets exactly one place. */
  function IfIn(k: string, ks: set<string>): seq<string> {
    if k in ks then [k] else []
  }

  /** Processor, graphics, board and drives come first, in this order. */
  lemma KnownCategoriesFirst(ks: set<string>)
    ensures CategoryOrder(ks) == IfIn("CPU", ks) + IfIn("GPU", ks) + IfIn("Motherboard", ks) + IfIn("Storage", ks)
      + KeysInOrder(ks - {"CPU", "GPU", "Motherboard", "Storage"})
  {
    hide KeysInOrder, Present;
    PresentOne([], ks, "CPU");
    PresentOne(["CPU"], ks, "GPU");
    PresentOne(["CPU", "GPU"], ks, "Motherboard");
    PresentOne(["CPU", "GPU", "Motherboard"], ks, "Storage");
    NothingPresent(ks);
    assert ORDER == ["CPU", "GPU", "Motherboard"] + ["Storage"];
    assert ["CPU", "GPU", "Motherboard"] == ["CPU", "GPU"] + ["Motherboard"];
    assert ["CPU", "GPU"] == ["CPU"] + ["GPU"];
    assert ["CPU"] == [] + ["CPU"];
    assert Elements(ORDER) == {"CPU", "GPU", "Motherboard", "Storage"};
  }

  lemma PresentOne(order: seq<string>, ks: set<string>, k: string)
    ensures Present(order + [k], ks) == Present(order, ks) + IfIn(k, ks)
  {
    assert (order + [k])[..|order|] == order;
  }

  lemma NothingPresent(ks: set<string>)
    ensures Present([], ks) == []
  {
  }

  lemma CategoryOrderIsComplete(ks: set<string>)
    ensures Distinct(CategoryOrder(ks))
    ensures forall k :: k in CategoryOrder(ks) <==> k in ks
  {
    var known, others := Present(ORDER, ks), KeysInOrder(ks - Elements(ORDER));
    assert Distinct(ORDER);
    PresentDistinct(ORDER, ks);
    KeysInOrderAscend(ks - Elements(ORDER));
    AscendingDistinct(others);
    forall k: string ensures k in known <==> k in ORDER && k in ks {
      PresentMembers(ORDER, ks, k);
    }
    forall k: string ensures k in others <==> k in ks - Elements(ORDER) {
      KeysInOrderMembers(ks - Elements(ORDER), k);
    }
    forall i, j | 0 <= i < |known| && 0 <= j < |others| ensures known[i] != others[j] {
      assert known[i] in known && others[j] in others;
    }
  }

  // ---- Inside one category -------------------------------------------------------------------------------

  lemma GroupPartsKeyed(s: seq<SensorReading>)
    ensures PartsKeyed(GroupOf, FirstSeen(GroupOf, s), GroupParts(GroupsOf(s)))
    ensures forall i :: 0 <= i < |GroupsOf(s)| ==> GroupParts(GroupsOf(s))[i] != []
  {
    var names := FirstSeen(GroupOf, s);
    FirstSeenDistinct(GroupOf, s);
    forall i | 0 <= i < |names| ensures AllKeyed(GroupOf, names[i], GroupParts(GroupsOf(s))[i]) {
      SelectIsKeyed(GroupOf, names[i], s);
    }
  }

  /** Regrouping moves no reading within its group. */
  lemma GroupsKeepOrder(s: seq<SensorReading>, g: string)
    ensures Select(GroupOf, g, Concat(GroupParts(GroupsOf(s)))) == Select(GroupOf, g, s)
  {
    var names, parts := FirstSeen(GroupOf, s), GroupParts(GroupsOf(s));
    GroupPartsKeyed(s);
    FirstSeenDistinct(GroupOf, s);
    if g in names {
      var i :| 0 <= i < |names| && names[i] == g;
      SelectConcat(GroupOf, names, parts, i);
    } else {
      SelectMissing(GroupOf, names, parts, g);
      forall x | x in s ensures GroupOf(x) != g {
        FirstSeenMembers(GroupOf, s, x);
      }
      SelectNothing(GroupOf, g, s);
    }
  }

  lemma GroupsArePermutation(s: seq<SensorReading>)
    ensures multiset(Concat(GroupParts(GroupsOf(s)))) == multiset(s)
  {
    forall g ensures multiset(Select(GroupOf, g, Concat(GroupParts(GroupsOf(s))))) == multiset(Select(GroupOf, g, s)) {
      GroupsKeepOrder(s, g);
    }
    SameBuckets(GroupOf, Concat(GroupParts(GroupsOf(s))), s);
  }

  lemma RegroupingIsStable(s: seq<SensorReading>)
    ensures GroupsOf(Concat(GroupParts(GroupsOf(s)))) == GroupsOf(s)
  {
    var names, again := FirstSeen(GroupOf, s), Concat(GroupParts(GroupsOf(s)));
    GroupPartsKeyed(s);
    FirstSeenDistinct(GroupOf, s);
    FirstSeenConcat(GroupOf, names, GroupParts(GroupsOf(s)));
    forall i | 0 <= i < |names| ensures GroupsOf(again)[i] == GroupsOf(s)[i] {
      GroupsKeepOrder(s, names[i]);
    }
  }

  // ---- The whole tree ------------------------------------------------------------------------------------

  lemma NodePartsKeyed(s: seq<SensorReading>)
    ensures PartsKeyed(CategoryOf, CategoryOrder(CategorySet(s)), NodeParts(Tree(s)))
  {
    var cs := CategoryOrder(CategorySet(s));
    forall i | 0 <= i < |cs| ensures AllKeyed(CategoryOf, cs[i], NodeParts(Tree(s))[i]) {
      var own := Select(CategoryOf, cs[i], s);
      SelectIsKeyed(CategoryOf, cs[i], s);
      GroupsArePermutation(own);
      forall x | x in Concat(GroupParts(GroupsOf(own))) ensures CategoryOf(x) == cs[i] {
        assert x in multiset(Concat(GroupParts(GroupsOf(own))));
        assert x in multiset(own);
      }
    }
  }

  /** The readings of one category, flattened, are those of its groups one after the other. */
  lemma FlatCategory(s: seq<SensorReading>, c: string)
    ensures Select(CategoryOf, c, Flat(Tree(s))) == Concat(GroupParts(GroupsOf(Select(CategoryOf, c, s))))
  {
    var cs, parts := CategoryOrder(CategorySet(s)), NodeParts(Tree(s));
    NodePartsKeyed(s);
    CategoryOrderIsComplete(CategorySet(s));
    if c in cs {
      var i :| 0 <= i < |cs| && cs[i] == c;
      SelectConcat(CategoryOf, cs, parts, i);
    } else {
      SelectMissing(CategoryOf, cs, parts, c);
      assert forall x :: x in s ==> CategoryOf(x) != c;
      SelectNothing(CategoryOf, c, s);
    }
  }

  /** Flattening the tree loses no reading and adds none. */
  lemma FlattenIsPermutation(s: seq<SensorReading>)
    ensures multiset(Flat(Tree(s))) == multiset(s)
  {
    forall c ensures multiset(Select(CategoryOf, c, Flat(Tree(s)))) == multiset(Select(CategoryOf, c, s)) {
      FlatCategory(s, c);
      GroupsArePermutation(Select(CategoryOf, c, s));
    }
    SameBuckets(CategoryOf, Flat(Tree(s)), s);
  }

  /** Readings of one category and one unit group keep the order of the flat list. */
  lemma FlattenKeepsOrder(s: seq<SensorReading>, c: string, g: string)
    ensures Select(GroupOf, g, Select(CategoryOf, c, Flat(Tree(s)))) == Select(GroupOf, g, Select(CategoryOf, c, s))
  {
    FlatCategory(s, c);
    GroupsKeepOrder(Select(CategoryOf, c, s), g);
  }

  /** Building, flattening and building again gives the first tree. */
  lemma RebuildIsStable(s: seq<SensorReading>)
    ensures Tree(Flat(Tree(s))) == Tree(s)
  {
    var again := Flat(Tree(s));
    FlattenIsPermutation(s);
    assert CategorySet(again) == CategorySet(s) by {
      forall r ensures r in again <==> r in s {
        assert r in again <==> r in multiset(again);
      }
    }
    var cs := CategoryOrder(CategorySet(s));
    forall i | 0 <= i < |cs| ensures Tree(again)[i] == Tree(s)[i] {
      FlatCategory(s, cs[i]);
      RegroupingIsStable(Select(CategoryOf, cs[i], s));
    }
  }

  ghost predicate NodesDistinct(nodes: seq<HardwareNode>) {
    forall i, j :: 0 <= i < j < |nodes| ==> nodes[i].name != nodes[j].name
  }

  ghost predicate GroupsDistinct(groups: seq<SensorGroup>) {
    forall i, j :: 0 <= i < j < |groups| ==> groups[i].name != groups[j].name
  }

  /** Every category has one node and every node one group per unit group; none of them is empty. */
  lemma TreeIsWellFormed(s: seq<SensorReading>)
    ensures NodesDistinct(Tree(s))
    ensures forall n :: n in Tree(s) ==> n.groups != [] && GroupsDistinct(n.groups)
    ensures forall n, g :: n in Tree(s) && g in n.groups ==> g.readings != []
  {
    CategoryOrderIsComplete(CategorySet(s));
    var cs := CategoryOrder(CategorySet(s));
    forall n | n in Tree(s)
      ensures n.groups != [] && GroupsDistinct(n.groups)
      ensures forall g :: g in n.groups ==> g.readings != []
    {
      var own := Select(CategoryOf, n.name, s);
      FirstSeenDistinct(GroupOf, own);
      assert n.name in CategorySet(s);
      var r :| r in s && r.category == n.name;
      SelectMembers(CategoryOf, n.name, s, r);
      FirstSeenMembers(GroupOf, own, r);
    }
  }

  /** A reading sits under its own category and its own unit group, and nowhere else. */
  lemma ReadingsAreFiledByUnit(s: seq<SensorReading>, n: HardwareNode, g: SensorGroup, r: SensorReading)
    requires n in Tree(s) && g in n.groups
    ensures r in g.readings <==> r in s && r.category == n.name && GroupNameForUnit(r.unit) == g.name
  {
    SelectMembers(CategoryOf, n.name, s, r);
    SelectMembers(GroupOf, g.name, Select(CategoryOf, n.name, s), r);
  }

  ghost predicate IdsDistinct(nodes: seq<HardwareNode>) {
    forall i, j :: 0 <= i < j < |nodes| ==> nodes[i].id != nodes[j].id
  }

  /** Node ids are unique exactly when no two categories of the list fold to the same id. */
  lemma IdsDistinctExactly(s: seq<SensorReading>)
    ensures IdsDistinct(Tree(s)) <==>
      forall a, b :: a in CategorySet(s) && b in CategorySet(s) && IdOf(a) == IdOf(b) ==> a == b
  {
    hide CategoryOrder, GroupsOf, CategorySet, IdOf;
    var cs := CategoryOrder(CategorySet(s));
    CategoryOrderIsComplete(CategorySet(s));
    assert forall i :: 0 <= i < |cs| ==> cs[i] in cs && Tree(s)[i].id == IdOf(cs[i]);
    if IdsDistinct(Tree(s)) {
      forall a, b | a in CategorySet(s) && b in CategorySet(s) && IdOf(a) == IdOf(b) ensures a == b {
        var i :| 0 <= i < |cs| && cs[i] == a;
        var j :| 0 <= j < |cs| && cs[j] == b;
        assert Tree(s)[i].id == Tree(s)[j].id;
      }
    }
  }

  /** The tree of a single reading: its category, lower-cased without spaces as the id, and one group for its unit. */
  lemma SingleReading(r: SensorReading)
    ensures Tree([r]) == [HardwareNode(IdOf(r.category), r.category, r.category,
                                       [SensorGroup(GroupNameForUnit(r.unit), [r])])]
  {
    hide IdOf, GroupNameForUnit, CategoryOrder;
    SelectOne(CategoryOf, r);
    SelectOne(GroupOf, r);
    FirstSeenOne(GroupOf, r);
    assert CategorySet([r]) == {r.category};
    OnlyCategory(r.category);
    assert GroupsOf([r]) == [SensorGroup(GroupNameForUnit(r.unit), [r])];
    assert NodeOf(r.category, [r]).groups == GroupsOf([r]);
  }

  lemma SelectOne<K>(f: SensorReading -> K, r: SensorReading)
    ensures Select(f, f(r), [r]) == [r]
  {
    assert [r][..0] == [];
  }

  lemma FirstSeenOne<K>(f: SensorReading -> K, r: SensorReading)
    ensures FirstSeen(f, [r]) == [f(r)]
  {
    assert [r][..0] == [];
  }

  lemma OnlyCategory(k: string)
    ensures CategoryOrder({k}) == [k]
  {
    hide CategoryOrder;
    CategoryOrderIsComplete({k});
    OnlyElement(CategoryOrder({k}), k);
  }

  lemma OnlyElement(order: seq<string>, k: string)
    requires Distinct(order) && k in order && forall x :: x in order ==> x == k
    ensures order == [k]
  {
    assert |order| > 1 ==> order[0] != order[1];
    forall i | 0 <= i < |order| ensures order[i] == k { assert order[i] in order; }
  }

  /** Two categories that differ only in case share an id. */
  lemma IdsCanCollide(upper: SensorReading, lower: SensorReading)
    requires upper.category == "CPU" && lower.category == "cpu"
    ensures !IdsDistinct(Tree([upper, lower]))
  {
    IdsDistinctExactly([upper, lower]);
    assert upper in [upper, lower] && lower in [upper, lower];
    assert upper.category in CategorySet([upper, lower]) && lower.category in CategorySet([upper, lower]);
    assert IdOf("CPU") == "cpu" == IdOf("cpu");
  }

  // ---- Building ------------------------------------------------------------------------------------------

  /** A reading of a known group lengthens that group and leaves the others alone. */
  lemma GroupGrows(s: seq<SensorReading>, r: SensorReading, i: nat)
    requires i < |GroupsOf(s)| && GroupsOf(s)[i].name == GroupOf(r)
    ensures GroupsOf(s + [r]) == GroupsOf(s)[i := SensorGroup(GroupOf(r), GroupsOf(s)[i].readings + [r])]
  {
    hide Select, FirstSeen;
    var names := FirstSeen(GroupOf, s);
    FirstSeenSnoc(GroupOf, s, r);
    FirstSeenDistinct(GroupOf, s);
    assert names[i] in names;
    forall j | 0 <= j < |names|
      ensures GroupsOf(s + [r])[j] ==
        SensorGroup(names[j], if j == i then GroupsOf(s)[i].readings + [r] else GroupsOf(s)[j].readings)
    {
      SelectSnoc(GroupOf, names[j], s, r);
    }
    assert GroupsOf(s + [r]) == GroupsOf(s)[i := SensorGroup(GroupOf(r), GroupsOf(s)[i].readings + [r])];
  }

  /** A reading of a new kind opens a group of its own at the end. */
  lemma GroupOpens(s: seq<SensorReading>, r: SensorReading)
    requires GroupOf(r) !in FirstSeen(GroupOf, s)
    ensures GroupsOf(s + [r]) == GroupsOf(s) + [SensorGroup(GroupOf(r), [r])]
  {
    hide Select, FirstSeen;
    var names := FirstSeen(GroupOf, s);
    FirstSeenSnoc(GroupOf, s, r);
    forall x | x in s ensures GroupOf(x) != GroupOf(r) {
      FirstSeenMembers(GroupOf, s, x);
    }
    SelectNothing(GroupOf, GroupOf(r), s);
    SelectSnoc(GroupOf, GroupOf(r), s, r);
    forall j | 0 <= j < |names|
      ensures GroupsOf(s + [r])[j] == GroupsOf(s)[j]
    {
      assert names[j] in names;
      SelectSnoc(GroupOf, names[j], s, r);
    }
    assert [] + [r] == [r];
    assert GroupsOf(s + [r])[|names|] == SensorGroup(GroupOf(r), [r]);
    assert GroupsOf(s + [r]) == GroupsOf(s) + [SensorGroup(GroupOf(r), [r])];
  }

  /** Files one reading under its group, creating the group when it is the first of its kind. */
  method AddReading(groups: seq<SensorGroup>, r: SensorReading, ghost s: seq<SensorReading>)
    returns (grown: seq<SensorGroup>)
    requires groups == GroupsOf(s)
    ensures grown == GroupsOf(s + [r])
  {
    hide Select, FirstSeen;
    var name := GroupNameForUnit(r.unit);
    var i := 0;
    while i < |groups| && groups[i].name != name
      invariant 0 <= i <= |groups|
      invariant forall j :: 0 <= j < i ==> groups[j].name != name
    {
      i := i + 1;
    }
    if i < |groups| {
      GroupGrows(s, r, i);
      grown := groups[i := groups[i].(readings := groups[i].readings + [r])];
    } else {
      assert forall j :: 0 <= j < |groups| ==> FirstSeen(GroupOf, s)[j] == groups[j].name;
      GroupOpens(s, r);
      grown := groups + [SensorGroup(name, [r])];
    }
  }

  ghost predicate Files(nodes: map<string, HardwareNode>, s: seq<SensorReading>) {
    nodes.Keys == CategorySet(s) && forall c :: c in nodes ==> nodes[c] == NodeOf(c, s)
  }

  lemma FilesGrow(nodes: map<string, HardwareNode>, s: seq<SensorReading>, r: SensorReading, node: HardwareNode)
    requires Files(nodes, s) && node == NodeOf(r.category, s + [r])
    ensures Files(nodes[r.category := node], s + [r])
  {
    hide Select, GroupsOf, IdOf;
    assert CategorySet(s + [r]) == CategorySet(s) + {r.category} by {
      assert forall x :: x in s + [r] <==> x in s || x == r;
    }
    forall c | c in nodes && c != r.category ensures NodeOf(c, s + [r]) == NodeOf(c, s) {
      SelectSnoc(CategoryOf, c, s, r);
    }
  }

  /** One pass over the readings files each of them under its category. */
  method FileReadings(readings: seq<SensorReading>) returns (nodes: map<string, HardwareNode>)
    ensures Files(nodes, readings)
  {
    hide Select, GroupNameForUnit, IdOf;
    nodes := map[];
    for i := 0 to |readings|
      invariant Files(nodes, readings[..i])
    {
      var r := readings[i];
      ghost var s := readings[..i];
      assert readings[..i + 1] == s + [r];
      var node := HardwareNode(IdOf(r.category), r.category, r.category, []);
      if r.category in nodes {
        node := nodes[r.category];
        assert node.groups == GroupsOf(Select(CategoryOf, r.category, s));
      } else {
        assert forall x :: x in s ==> CategoryOf(x) != r.category;
        SelectNothing(CategoryOf, r.category, s);
        assert GroupsOf([]) == [];
        assert node.groups == GroupsOf(Select(CategoryOf, r.category, s));
      }
      ghost var own := Select(CategoryOf, r.category, s);
      var groups := AddReading(node.groups, r, own);
      SelectSnoc(CategoryOf, r.category, s, r);
      node := node.(groups := groups);
      FilesGrow(nodes, s, r, node);
      nodes := nodes[r.category := node];
    }
    assert readings[..|readings|] == readings;
  }

  /** One more of the known categories: take its node out of the map if it is there. */
  lemma PresentStep(order: seq<string>, i: nat, ks: set<string>)
    requires i < |order| && Distinct(order)
    ensures Present(order[..i + 1], ks) == Present(order[..i], ks) + (if order[i] in ks then [order[i]] else [])
    ensures Elements(order[..i + 1]) == Elements(order[..i]) + {order[i]}
    ensures order[i] !in Elements(order[..i])
  {
    PrefixStep(order, i);
  }

  lemma NodesOfAppend(a: seq<string>, b: seq<string>, s: seq<SensorReading>)
    ensures NodesOf(a + b, s) == NodesOf(a, s) + NodesOf(b, s)
  {
    hide NodeOf;
  }

  method BuildHardwareTree(readings: seq<SensorReading>) returns (tree: seq<HardwareNode>)
    ensures tree == Tree(readings)
  {
    hide NodeOf, Present, KeysInOrder, Elements, CategorySet;
    var nodes := FileReadings(readings);
    ghost var ks := nodes.Keys;
    tree := [];
    PresentNone(ks);
    assert Distinct(ORDER);
    for i := 0 to |ORDER|
      invariant tree == NodesOf(Present(ORDER[..i], ks), readings)
      invariant nodes.Keys == ks - Elements(ORDER[..i])
      invariant forall c :: c in nodes ==> nodes[c] == NodeOf(c, readings)
    {
      PresentStep(ORDER, i, ks);
      if ORDER[i] in nodes {
        NodesOfAppend(Present(ORDER[..i], ks), [ORDER[i]], readings);
        tree := tree + [nodes[ORDER[i]]];
        nodes := nodes - {ORDER[i]};
      }
    }
    assert ORDER[..|ORDER|] == ORDER;
    NodesOfAppend(Present(ORDER, ks), KeysInOrder(ks - Elements(ORDER)), readings);
    var others := ListInKeyOrder(nodes, readings);
    tree := tree + others;
  }

  lemma PresentNone(ks: set<string>)
    ensures Present(ORDER[..0], ks) == [] && Elements(ORDER[..0]) == {}
  {
  }

  lemma KeysInOrderStep(ks: set<string>, k: string)
    requires IsLeast(k, ks)
    ensures KeysInOrder(ks) == [k] + KeysInOrder(ks - {k})
  {
    LeastIsUnique(k, Least(ks), ks);
  }

  lemma NoKeys()
    ensures KeysInOrder({}) == []
  {
  }

  /** Walks what is left of the map in key order. */
  method ListInKeyOrder(nodes: map<string, HardwareNode>, ghost readings: seq<SensorReading>)
    returns (listed: seq<HardwareNode>)
    requires forall c :: c in nodes ==> nodes[c] == NodeOf(c, readings)
    ensures listed == NodesOf(KeysInOrder(nodes.Keys), readings)
  {
    hide NodeOf, Before, KeysInOrder, IsLeast;
    NoKeys();
    listed := [];
    var rest := nodes.Keys;
    ghost var done: seq<string> := [];
    while rest != {}
      invariant rest <= nodes.Keys
      invariant done + KeysInOrder(rest) == KeysInOrder(nodes.Keys)
      invariant listed == NodesOf(done, readings)
      decreases |rest|
    {
      var k := PickLeast(rest);
      KeysInOrderStep(rest, k);
      NodesOfAppend(done, [k], readings);
      listed := listed + [nodes[k]];
      rest := rest - {k};
      done := done + [k];
    }
  }

  method PickLeast(ks: set<string>) returns (k: string)
    requires ks != {}
    ensures IsLeast(k, ks)
  {
    ghost var least := Least(ks);
    k :| k in ks && forall j :: j in ks && j != k ==> Before(k, j);
  }

  // ---- Flattening ----------------------------------------------------------------------------------------

  lemma ConcatStep(parts: seq<seq<SensorReading>>, i: nat)
    requires i < |parts|
    ensures Concat(parts[..i + 1]) == Concat(parts[..i]) + parts[i]
  {
    assert parts[..i + 1][..i] == parts[..i];
  }

  lemma ConcatNothing()
    ensures Concat<SensorReading>([]) == []
  {
  }

  /** The three nested loops write out the readings node by node, group by group. */
  method FlattenHardwareTree(nodes: seq<HardwareNode>) returns (readings: seq<SensorReading>)
    ensures readings == Flat(nodes)
  {
    hide Concat;
    ConcatNothing();
    readings := [];
    for i := 0 to |nodes|
      invariant readings == Concat(NodeParts(nodes)[..i])
    {
      ghost var before := readings;
      var groups := nodes[i].groups;
      for j := 0 to |groups|
        invariant readings == before + Concat(GroupParts(groups)[..j])
      {
        ghost var start := readings;
        for k := 0 to |groups[j].readings|
          invariant readings == start + groups[j].readings[..k]
        {
          readings := readings + [groups[j].readings[k]];
        }
        ConcatStep(GroupParts(groups), j);
      }
      assert GroupParts(groups)[..|groups|] == GroupParts(groups);
      ConcatStep(NodeParts(nodes), i);
    }
    assert NodeParts(nodes)[..|nodes|] == NodeParts(nodes);
  }
}
