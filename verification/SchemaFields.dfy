/** The texts a schema has, said of its document and not of the walk: which nodes are reached at which path, what is
    shown there, and which texts that gives. The walk collects exactly those. */
module SchemaFields {
  import opened PropertyValues
  import opened PropertiesBundle
  import opened SchemaWalk
  import opened SchemaCalls
  import opened SchemaShown
  import opened SchemaTexts
  import opened Wrappers

  // ----- what is reached ------------------------------------------------------------------------

  /** A node, and the segments of its path. */
  datatype Place = Place(raw: Schema, path: seq<string>)

  predicate IsNameChar(c: char) { 'A' <= c <= 'Z' || 'a' <= c <= 'z' || '0' <= c <= '9' || c == '_' || c == '-' }

  /** A name that can be a segment of a key. */
  predicate IsName(name: string) { name != "" && name != "_entry" && forall c :: c in name ==> IsNameChar(c) }

  /** A value of a map node. */
  predicate IsEntry(n: Schema, v: Schema) { n.Object? && (v in n.patterns || (v == n.additional && v.Object?)) }

  /** From a node shown as `n` at `path`: to its properties, its map values, its items. */
  ghost predicate LeadsTo(n: Schema, path: seq<string>, q: Place)
  {
    n.Object? &&
    (|| (exists p :: p in n.properties && IsName(p.name) && q == Place(p.node, path + [p.name]))
     || (IsEntry(n, q.raw) && q.path == path + ["_entry"])
     || (q == Place(n.items, path + ["items"]) && !HasName(n.properties, "items")))
  }

  ghost predicate Leads(p: Place, q: Place, defs: Defs)
  {
    exists n :: Shows(p.raw, n, defs) && LeadsTo(n, p.path, q)
  }

  /** The `i`th place is an object, and no reference seen before. */
  predicate Opens(trail: seq<Place>, i: nat, seen: set<string>)
    requires i < |trail|
  {
    var raw := trail[i].raw;
    raw.Object? &&
    (raw.ref.Some? ==> raw.ref.value !in seen && forall j :: 0 <= j < i ==> trail[j].raw.Other? || trail[j].raw.ref != raw.ref)
  }

  /** Places that lead from one to the next, no reference met twice on the way, nor one of `seen`. */
  ghost predicate IsTrail(trail: seq<Place>, seen: set<string>, defs: Defs)
  {
    && trail != [] && (forall i :: 0 <= i < |trail| ==> Opens(trail, i, seen))
    && forall i :: 0 <= i < |trail| - 1 ==> Leads(trail[i], trail[i + 1], defs)
  }

  // ----- what is said there ---------------------------------------------------------------------

  /** The path in a key: the segments with dots between them. */
  function Dots(path: seq<string>): (s: string)
  {
    if path == [] then "" else if |path| == 1 then path[0] else path[0] + "." + Dots(path[1..])
  }

  ghost predicate IsDescription(node: Schema, english: string, defs: Defs)
  {
    english != "" && exists n :: Shows(node, n, defs) && n.Object? && n.description == english
  }

  /** A property's label, its title or else the derived name; its description; or that no key can hold its name. */
  ghost predicate OfProperty(p: Property, path: seq<string>, put: Put, defs: Defs, labelFor: string -> string)
  {
    match put
    case BadName => !IsName(p.name)
    case Text(key, english) =>
      IsName(p.name) &&
      (|| (&& key == "schema." + Dots(path + [p.name]) + ".label"
           && english == if p.node.Object? && p.node.title != "" then p.node.title else labelFor(p.name))
       || (key == "schema." + Dots(path + [p.name]) + ".description" && IsDescription(p.node, english, defs)))
  }

  /** A map value's description. */
  ghost predicate OfEntry(v: Schema, path: seq<string>, put: Put, defs: Defs)
  {
    put.Text? && put.key == "schema." + Dots(path + ["_entry"]) + ".description" && IsDescription(v, put.english, defs)
  }

  /** What a node shown as `n` at `path` gives: the texts of its properties and map values, and an exception for a name
      no key can hold or for items beside a property of that name. */
  ghost predicate Says(n: Schema, path: seq<string>, put: Put, defs: Defs, labelFor: string -> string)
  {
    n.Object? &&
    (|| (exists p :: p in n.properties && OfProperty(p, path, put, defs, labelFor))
     || (exists v :: IsEntry(n, v) && OfEntry(v, path, put, defs))
     || (put == BadName && n.items.Object? && HasName(n.properties, "items")))
  }

  ghost predicate SaysAt(at: Place, put: Put, defs: Defs, labelFor: string -> string)
  {
    exists n :: Shows(at.raw, n, defs) && Says(n, at.path, put, defs, labelFor)
  }

  ghost predicate IsSaidBy(trail: seq<Place>, seen: set<string>, put: Put, defs: Defs, labelFor: string -> string)
  {
    IsTrail(trail, seen, defs) && SaysAt(trail[|trail| - 1], put, defs, labelFor)
  }

  /** Some place reached from `start` says so. */
  ghost predicate IsSaid(start: Schema, put: Put, defs: Defs, labelFor: string -> string)
  {
    exists trail :: IsSaidBy(trail, {}, put, defs, labelFor) && trail != [] && trail[0] == Place(start, [])
  }

  // ----- paths ----------------------------------------------------------------------------------

  predicate AreFilled(path: seq<string>) { forall i :: 0 <= i < |path| ==> path[i] != "" }

  lemma {:induction false} DotsGrow(path: seq<string>, segment: string)
    requires AreFilled(path) && segment != ""
    ensures Dots(path + [segment]) == Child(Dots(path), segment)
    ensures path != [] ==> Dots(path) != ""
  {
    if |path| == 1 {
      assert (path + [segment])[1..] == [segment];
    } else if path != [] {
      assert (path + [segment])[1..] == path[1..] + [segment];
      DotsGrow(path[1..], segment);
      var rest := Dots(path[1..]);
      assert path[0] + "." + (rest + "." + segment) == (path[0] + "." + rest) + "." + segment;
    }
  }

  lemma NamesAreSegments(name: string)
    ensures IsName(name) <==> IsSegment(name)
  {
    forall c: char ensures IsNameChar(c) <==> IsSegmentChar(c) {}
    if IsSegment(name) {
      forall c | c in name ensures IsNameChar(c) {
        var i :| 0 <= i < |name| && name[i] == c;
      }
    }
  }

  // ----- trails ---------------------------------------------------------------------------------

  lemma OpensAlone(p: Place, seen: set<string>)
    ensures Opens([p], 0, seen) <==> !Stops(p.raw, seen)
  {
  }

  lemma TrailOfOne(p: Place, seen: set<string>, defs: Defs)
    ensures IsTrail([p], seen, defs) <==> !Stops(p.raw, seen)
  {
    hide Leads, Opens;
    OpensAlone(p, seen);
  }

  /** A place in front: its own reference is seen from there on. */
  lemma OpensBelow(p: Place, trail: seq<Place>, i: nat, seen: set<string>)
    requires i < |trail| && !Stops(p.raw, seen)
    ensures Opens([p] + trail, i + 1, seen) <==> Opens(trail, i, SeenBelow(p.raw, seen))
  {
    var (all, raw) := ([p] + trail, trail[i].raw);
    assert all[i + 1] == trail[i] && all[0] == p;
    if raw.Object? && raw.ref.Some? {
      if Opens(trail, i, SeenBelow(p.raw, seen)) {
        forall j | 0 <= j < i + 1 ensures all[j].raw.Other? || all[j].raw.ref != raw.ref {
          assert j > 0 ==> all[j] == trail[j - 1];
        }
      }
      if Opens(all, i + 1, seen) {
        forall j | 0 <= j < i ensures trail[j].raw.Other? || trail[j].raw.ref != raw.ref {
          assert trail[j] == all[j + 1];
        }
      }
    }
  }

  lemma TrailInFront(p: Place, trail: seq<Place>, seen: set<string>, defs: Defs)
    requires trail != []
    ensures IsTrail([p] + trail, seen, defs)
            <==> !Stops(p.raw, seen) && Leads(p, trail[0], defs) && IsTrail(trail, SeenBelow(p.raw, seen), defs)
  {
    hide Leads, Opens, Stops, SeenBelow;
    var all := [p] + trail;
    OpensAlone(p, seen);
    FirstOpens(p, trail, seen);
    if !Stops(p.raw, seen) {
      forall i | 0 <= i < |trail| ensures Opens(all, i + 1, seen) <==> Opens(trail, i, SeenBelow(p.raw, seen)) {
        OpensBelow(p, trail, i, seen);
      }
    }
    if IsTrail(all, seen, defs) {
      assert all[0] == p && all[1] == trail[0] && Leads(all[0], all[1], defs);
      forall i | 0 <= i < |trail| ensures Opens(trail, i, SeenBelow(p.raw, seen)) { assert Opens(all, i + 1, seen); }
      forall i | 0 <= i < |trail| - 1 ensures Leads(trail[i], trail[i + 1], defs) { assert Leads(all[i + 1], all[i + 2], defs); }
    }
    if !Stops(p.raw, seen) && Leads(p, trail[0], defs) && IsTrail(trail, SeenBelow(p.raw, seen), defs) {
      forall i | 0 <= i < |all| ensures Opens(all, i, seen) { if i > 0 { assert Opens(trail, i - 1, SeenBelow(p.raw, seen)); } }
      forall i | 0 <= i < |all| - 1 ensures Leads(all[i], all[i + 1], defs) {
        if i > 0 { assert Leads(trail[i - 1], trail[i], defs); }
      }
    }
  }

  lemma FirstOpens(p: Place, trail: seq<Place>, seen: set<string>)
    ensures Opens([p] + trail, 0, seen) <==> Opens([p], 0, seen)
  {
  }

  /** What is said behind a place is said from it. */
  lemma SaidInFront(p: Place, trail: seq<Place>, seen: set<string>, put: Put, defs: Defs, labelFor: string -> string)
    requires IsSaidBy(trail, SeenBelow(p.raw, seen), put, defs, labelFor) && !Stops(p.raw, seen) && Leads(p, trail[0], defs)
    ensures IsSaidBy([p] + trail, seen, put, defs, labelFor)
  {
    hide IsTrail, Leads, Stops, SeenBelow, SaysAt;
    TrailIsNotEmpty(trail, SeenBelow(p.raw, seen), defs);
    TrailInFront(p, trail, seen, defs);
    assert ([p] + trail)[|trail|] == trail[|trail| - 1];
  }

  lemma TrailIsNotEmpty(trail: seq<Place>, seen: set<string>, defs: Defs)
    requires IsTrail(trail, seen, defs)
    ensures trail != []
  {
  }

  // ----- what the walk puts is said -------------------------------------------------------------

  lemma FilledMore(path: seq<string>, segment: string)
    requires AreFilled(path) && segment != ""
    ensures AreFilled(path + [segment]) && Dots(path + [segment]) == Child(Dots(path), segment)
  {
    DotsGrow(path, segment);
  }

  lemma ShownDescription(node: Schema, defs: Defs, depth: nat)
    requires ShownEnds(node, defs, depth)
    ensures forall english :: IsDescription(node, english, defs) <==> english != "" && english == DescriptionOf(Shown(node, defs, depth))
  {
    hide ShownEnds, Shown;
    var n := Shown(node, defs, depth);
    assert Shows(node, n, defs);
    forall english | IsDescription(node, english, defs) ensures english == DescriptionOf(n) {
      var m :| Shows(node, m, defs) && m.Object? && m.description == english;
      OneShown(node, m, defs, depth);
    }
  }

  /** What is put of a property itself. */
  function OwnPuts(p: Property, path: string, labelFor: string -> string, defs: Defs, ghost depth: nat): (puts: seq<Put>)
    requires ShownEnds(p.node, defs, depth)
  {
    [Text(Label(path), TitleOr(p.node, labelFor(p.name)))] + DescriptionPuts(path, DescriptionOf(Shown(p.node, defs, depth)))
  }

  lemma OwnPutsAre(p: Property, path: seq<string>, put: Put, defs: Defs, labelFor: string -> string, depth: nat)
    requires IsName(p.name) && AreFilled(path) && ShownEnds(p.node, defs, depth)
    ensures put in OwnPuts(p, Child(Dots(path), p.name), labelFor, defs, depth) <==> OfProperty(p, path, put, defs, labelFor)
  {
    hide IsName, ShownEnds, Shown, IsDescription;
    FilledMore(path, p.name) by { assert p.name != "" by { NameIsFilled(p.name); } }
    ShownDescription(p.node, defs, depth);
  }

  lemma NameIsFilled(name: string)
    requires IsName(name)
    ensures name != ""
  {
  }

  lemma EntryPutsAre(v: Schema, path: seq<string>, put: Put, defs: Defs, depth: nat)
    requires AreFilled(path) && ShownEnds(v, defs, depth)
    ensures put in DescriptionPuts(Child(Dots(path), EntrySegment()), DescriptionOf(Shown(v, defs, depth))) <==> OfEntry(v, path, put, defs)
  {
    hide ShownEnds, Shown, IsDescription;
    FilledMore(path, "_entry");
    ShownDescription(v, defs, depth);
  }

  lemma FirstPropertyPuts(properties: seq<Property>, at: string, below: set<string>, defs: Defs, labelFor: string -> string, depth: nat)
    requires NodesEnd(PropertyNodes(properties), below, defs, depth) && properties != [] && IsName(properties[0].name)
    ensures var p := properties[0];
      && PropertyNodes(properties) == [p.node] + PropertyNodes(properties[1..])
      && ShownEnds(p.node, defs, depth) && WalkEnds(p.node, below, defs, depth)
      && NodesEnd(PropertyNodes(properties[1..]), below, defs, depth)
      && PropertyPuts(properties, at, below, defs, labelFor, depth)
         == OwnPuts(p, Child(at, p.name), labelFor, defs, depth)
            + Walk(p.node, Child(at, p.name), below, defs, labelFor, depth)
            + PropertyPuts(properties[1..], at, below, defs, labelFor, depth)
  {
    hide WalkEnds, ShownEnds, Shown, Walk, IsName, IsSegment, Label, DescriptionPuts;
    NamesAreSegments(properties[0].name);
    assert properties[0].node in PropertyNodes(properties);
  }

  lemma BadPropertyPuts(properties: seq<Property>, at: string, below: set<string>, defs: Defs, labelFor: string -> string, depth: nat)
    requires NodesEnd(PropertyNodes(properties), below, defs, depth) && properties != [] && !IsName(properties[0].name)
    ensures PropertyPuts(properties, at, below, defs, labelFor, depth) == [BadName]
  {
    hide WalkEnds, ShownEnds, IsName, IsSegment;
    NamesAreSegments(properties[0].name);
  }

  /** Of a property: it says so, or a trail from its node does. */
  ghost predicate IsFromProperty(p: Property, path: seq<string>, trail: seq<Place>, below: set<string>, put: Put, defs: Defs,
                                 labelFor: string -> string)
  {
    if trail == [] then OfProperty(p, path, put, defs, labelFor)
    else IsName(p.name) && trail[0] == Place(p.node, path + [p.name]) && IsSaidBy(trail, below, put, defs, labelFor)
  }

  ghost predicate IsFromEntry(v: Schema, path: seq<string>, trail: seq<Place>, below: set<string>, put: Put, defs: Defs,
                              labelFor: string -> string)
  {
    if trail == [] then OfEntry(v, path, put, defs)
    else trail[0] == Place(v, path + ["_entry"]) && IsSaidBy(trail, below, put, defs, labelFor)
  }

  lemma {:induction false} PropertyPutIsSaid(properties: seq<Property>, path: seq<string>, below: set<string>, defs: Defs,
                                             labelFor: string -> string, depth: nat, put: Put)
    returns (p: Property, trail: seq<Place>)
    requires NodesEnd(PropertyNodes(properties), below, defs, depth) && AreFilled(path)
    requires put in PropertyPuts(properties, Dots(path), below, defs, labelFor, depth)
    ensures p in properties && IsFromProperty(p, path, trail, below, put, defs, labelFor)
    decreases depth, |properties| + 1
  {
    hide NodesEnd, WalkEnds, ShownEnds, Shown, Walk, PropertyPuts, PropertyNodes, IsName, OwnPuts, OfProperty, IsSaidBy;
    var at := Dots(path);
    NoPuts(path, below, defs, labelFor, depth);
    p, trail := properties[0], [];
    if !IsName(p.name) {
      BadPropertyPuts(properties, at, below, defs, labelFor, depth);
      BadNameIsSaid(p, path, defs, labelFor);
    } else {
      FirstPropertyPuts(properties, at, below, defs, labelFor, depth);
      NameIsFilled(p.name);
      FilledMore(path, p.name);
      OwnPutsAre(p, path, put, defs, labelFor, depth);
      if put !in OwnPuts(p, Child(at, p.name), labelFor, defs, depth) {
        if put in Walk(p.node, Child(at, p.name), below, defs, labelFor, depth) {
          trail := PutIsSaid(p.node, path + [p.name], below, defs, labelFor, depth, put);
        } else {
          p, trail := PropertyPutIsSaid(properties[1..], path, below, defs, labelFor, depth, put);
        }
      }
    }
  }

  lemma NoPuts(path: seq<string>, below: set<string>, defs: Defs, labelFor: string -> string, depth: nat)
    ensures NodesEnd([], below, defs, depth) && PropertyNodes([]) == []
    ensures PropertyPuts([], Dots(path), below, defs, labelFor, depth) == []
    ensures EntryPuts([], Dots(path), below, defs, labelFor, depth) == []
  {
  }

  lemma BadNameIsSaid(p: Property, path: seq<string>, defs: Defs, labelFor: string -> string)
    ensures OfProperty(p, path, BadName, defs, labelFor) <==> !IsName(p.name)
  {
    hide IsName;
  }

  lemma FirstEntryPuts(values: seq<Schema>, at: string, below: set<string>, defs: Defs, labelFor: string -> string, depth: nat)
    requires NodesEnd(values, below, defs, depth) && values != []
    ensures var (v, path) := (values[0], Child(at, EntrySegment()));
      && ShownEnds(v, defs, depth) && WalkEnds(v, below, defs, depth) && NodesEnd(values[1..], below, defs, depth)
      && EntryPuts(values, at, below, defs, labelFor, depth)
         == DescriptionPuts(path, DescriptionOf(Shown(v, defs, depth))) + Walk(v, path, below, defs, labelFor, depth)
            + EntryPuts(values[1..], at, below, defs, labelFor, depth)
  {
    hide WalkEnds, ShownEnds, Shown, Walk, DescriptionPuts, EntrySegment;
    assert values[0] in values;
  }

  lemma {:induction false} EntryPutIsSaid(values: seq<Schema>, path: seq<string>, below: set<string>, defs: Defs,
                                          labelFor: string -> string, depth: nat, put: Put)
    returns (v: Schema, trail: seq<Place>)
    requires NodesEnd(values, below, defs, depth) && AreFilled(path)
    requires put in EntryPuts(values, Dots(path), below, defs, labelFor, depth)
    ensures v in values && IsFromEntry(v, path, trail, below, put, defs, labelFor)
    decreases depth, |values| + 1
  {
    hide NodesEnd, WalkEnds, ShownEnds, Shown, Walk, EntryPuts, OfEntry, IsSaidBy, DescriptionPuts;
    NoPuts(path, below, defs, labelFor, depth);
    v, trail := values[0], [];
    var at := Child(Dots(path), EntrySegment());
    FirstEntryPuts(values, Dots(path), below, defs, labelFor, depth);
    FilledMore(path, "_entry");
    EntryPutsAre(v, path, put, defs, depth);
    if put !in DescriptionPuts(at, DescriptionOf(Shown(v, defs, depth))) {
      if put in Walk(v, at, below, defs, labelFor, depth) {
        trail := PutIsSaid(v, path + ["_entry"], below, defs, labelFor, depth, put);
      } else {
        v, trail := EntryPutIsSaid(values[1..], path, below, defs, labelFor, depth, put);
      }
    }
  }

  /** Three parts of a walk: of the properties, of the map values, and of the items. */
  lemma WalkParts(raw: Schema, at: string, seen: set<string>, defs: Defs, labelFor: string -> string, depth: nat)
    requires WalkEnds(raw, seen, defs, depth)
    ensures depth > 0
    ensures Stops(raw, seen) ==> Walk(raw, at, seen, defs, labelFor, depth) == []
    ensures !Stops(raw, seen) ==>
      && ShownEnds(raw, defs, depth - 1)
      && var (n, below) := (Shown(raw, defs, depth - 1), SeenBelow(raw, seen));
      && Shows(raw, n, defs) && (n.Other? ==> Walk(raw, at, seen, defs, labelFor, depth) == [])
      && (n.Object? ==>
        && NodesEnd(PropertyNodes(n.properties), below, defs, depth - 1) && NodesEnd(EntrySchemas(n), below, defs, depth - 1)
        && (!HasName(n.properties, "items") ==> WalkEnds(n.items, below, defs, depth - 1))
        && Walk(raw, at, seen, defs, labelFor, depth)
           == PropertyPuts(n.properties, at, below, defs, labelFor, depth - 1)
              + EntryPuts(EntrySchemas(n), at, below, defs, labelFor, depth - 1)
              + ItemPuts(n, at, below, defs, labelFor, depth - 1))
  {
    hide ComposeEnds, Compose, Stops, HasName, NodesEnd, PropertyPuts, EntryPuts, ShownEnds, Shown, SeenBelow;
    if !Stops(raw, seen) && Shown(raw, defs, depth - 1).Object? { WalkedEnd(raw, seen, defs, depth); }
  }

  ghost function ItemPuts(n: Schema, at: string, below: set<string>, defs: Defs, labelFor: string -> string, depth: nat): (puts: seq<Put>)
    requires n.Object? && (!HasName(n.properties, "items") ==> WalkEnds(n.items, below, defs, depth))
  {
    if n.items.Other? then [] else if HasName(n.properties, "items") then [BadName]
    else Walk(n.items, Child(at, "items"), below, defs, labelFor, depth)
  }

  lemma EntriesAre(n: Schema)
    requires n.Object?
    ensures forall v :: v in EntrySchemas(n) ==> IsEntry(n, v) || v in n.patterns
    ensures forall v :: IsEntry(n, v) <==> v in EntrySchemas(n)
  {
  }

  /** A property, a map value or the items of a shown node is where a place leads to. */
  lemma LeadsOn(raw: Schema, n: Schema, path: seq<string>, defs: Defs)
    requires Shows(raw, n, defs) && n.Object?
    ensures forall p :: p in n.properties && IsName(p.name) ==> Leads(Place(raw, path), Place(p.node, path + [p.name]), defs)
    ensures forall v :: IsEntry(n, v) ==> Leads(Place(raw, path), Place(v, path + ["_entry"]), defs)
    ensures !HasName(n.properties, "items") ==> Leads(Place(raw, path), Place(n.items, path + ["items"]), defs)
  {
    hide Shows, IsName, HasName, IsEntry;
    forall p | p in n.properties && IsName(p.name) ensures Leads(Place(raw, path), Place(p.node, path + [p.name]), defs) {
      assert LeadsTo(n, path, Place(p.node, path + [p.name]));
    }
    forall v | IsEntry(n, v) ensures Leads(Place(raw, path), Place(v, path + ["_entry"]), defs) {
      assert LeadsTo(n, path, Place(v, path + ["_entry"]));
    }
    if !HasName(n.properties, "items") { assert LeadsTo(n, path, Place(n.items, path + ["items"])); }
  }

  lemma SaidHere(raw: Schema, n: Schema, path: seq<string>, seen: set<string>, put: Put, defs: Defs, labelFor: string -> string)
    requires !Stops(raw, seen) && Shows(raw, n, defs) && Says(n, path, put, defs, labelFor)
    ensures IsSaidBy([Place(raw, path)], seen, put, defs, labelFor)
  {
    hide Stops, Shows, Says, IsTrail;
    TrailOfOne(Place(raw, path), seen, defs);
  }

  lemma {:induction false} PutIsSaid(raw: Schema, path: seq<string>, seen: set<string>, defs: Defs, labelFor: string -> string,
                                     depth: nat, put: Put) returns (trail: seq<Place>)
    requires WalkEnds(raw, seen, defs, depth) && AreFilled(path) && put in Walk(raw, Dots(path), seen, defs, labelFor, depth)
    ensures trail != [] && trail[0] == Place(raw, path) && IsSaidBy(trail, seen, put, defs, labelFor)
    decreases depth, 0
  {
    hide WalkEnds, ShownEnds, Shown, Walk, PropertyPuts, EntryPuts, NodesEnd, Stops, SeenBelow, IsSaidBy, OfProperty, OfEntry, Says,
      Leads, HasName, Shows, IsName, PropertyNodes, EntrySchemas, IsEntry;
    WalkParts(raw, Dots(path), seen, defs, labelFor, depth);
    var (n, below, p) := (Shown(raw, defs, depth - 1), SeenBelow(raw, seen), Place(raw, path));
    EntriesAre(n);
    LeadsOn(raw, n, path, defs);
    var more := [];
    if put in PropertyPuts(n.properties, Dots(path), below, defs, labelFor, depth - 1) {
      var property, t := PropertyPutIsSaid(n.properties, path, below, defs, labelFor, depth - 1, put);
      more := t;
      if t == [] { PropertySays(n, property, path, put, defs, labelFor); }
    } else if put in EntryPuts(EntrySchemas(n), Dots(path), below, defs, labelFor, depth - 1) {
      var v, t := EntryPutIsSaid(EntrySchemas(n), path, below, defs, labelFor, depth - 1, put);
      more := t;
      if t == [] { EntrySays(n, v, path, put, defs, labelFor); }
    } else if HasName(n.properties, "items") {
      ItemsSay(n, path, defs, labelFor);
    } else {
      FilledMore(path, "items");
      more := PutIsSaid(n.items, path + ["items"], below, defs, labelFor, depth - 1, put);
    }
    if more == [] {
      SaidHere(raw, n, path, seen, put, defs, labelFor);
      trail := [p];
    } else {
      SaidInFront(p, more, seen, put, defs, labelFor);
      trail := [p] + more;
    }
  }

  lemma PropertySays(n: Schema, p: Property, path: seq<string>, put: Put, defs: Defs, labelFor: string -> string)
    requires n.Object? && p in n.properties && OfProperty(p, path, put, defs, labelFor)
    ensures Says(n, path, put, defs, labelFor)
  {
    hide OfProperty;
  }

  lemma EntrySays(n: Schema, v: Schema, path: seq<string>, put: Put, defs: Defs, labelFor: string -> string)
    requires IsEntry(n, v) && OfEntry(v, path, put, defs)
    ensures Says(n, path, put, defs, labelFor)
  {
    hide OfEntry;
  }

  lemma ItemsSay(n: Schema, path: seq<string>, defs: Defs, labelFor: string -> string)
    ensures n.Object? && n.items.Object? && HasName(n.properties, "items") ==> Says(n, path, BadName, defs, labelFor)
  {
    hide HasName;
  }

  // ----- what is said is put --------------------------------------------------------------------

  /** Every property is put and walked, unless a name before it is refused. */
  lemma {:induction false} PropertyPutsHold(properties: seq<Property>, p: Property, at: string, below: set<string>, defs: Defs,
                                            labelFor: string -> string, depth: nat)
    requires NodesEnd(PropertyNodes(properties), below, defs, depth) && p in properties
    ensures var puts := PropertyPuts(properties, at, below, defs, labelFor, depth);
      BadName in puts ||
      (&& IsName(p.name) && ShownEnds(p.node, defs, depth) && WalkEnds(p.node, below, defs, depth)
       && (forall put :: put in OwnPuts(p, Child(at, p.name), labelFor, defs, depth) ==> put in puts)
       && (forall put :: put in Walk(p.node, Child(at, p.name), below, defs, labelFor, depth) ==> put in puts))
    decreases |properties|
  {
    hide NodesEnd, WalkEnds, ShownEnds, Walk, PropertyPuts, PropertyNodes, IsName, OwnPuts;
    if !IsName(properties[0].name) {
      BadPropertyPuts(properties, at, below, defs, labelFor, depth);
    } else {
      FirstPropertyPuts(properties, at, below, defs, labelFor, depth);
      if p != properties[0] { PropertyPutsHold(properties[1..], p, at, below, defs, labelFor, depth); }
    }
  }

  lemma {:induction false} EntryPutsHold(values: seq<Schema>, v: Schema, at: string, below: set<string>, defs: Defs,
                                         labelFor: string -> string, depth: nat)
    requires NodesEnd(values, below, defs, depth) && v in values
    ensures var (puts, path) := (EntryPuts(values, at, below, defs, labelFor, depth), Child(at, EntrySegment()));
      && ShownEnds(v, defs, depth) && WalkEnds(v, below, defs, depth)
      && (forall put :: put in DescriptionPuts(path, DescriptionOf(Shown(v, defs, depth))) ==> put in puts)
      && (forall put :: put in Walk(v, path, below, defs, labelFor, depth) ==> put in puts)
    decreases |values|
  {
    hide NodesEnd, WalkEnds, ShownEnds, Shown, Walk, EntryPuts, EntrySegment, DescriptionPuts;
    FirstEntryPuts(values, at, below, defs, labelFor, depth);
    if v != values[0] { EntryPutsHold(values[1..], v, at, below, defs, labelFor, depth); }
  }

  lemma PropertyIsPut(n: Schema, p: Property, path: seq<string>, below: set<string>, defs: Defs, labelFor: string -> string,
                      depth: nat, put: Put)
    requires n.Object? && NodesEnd(PropertyNodes(n.properties), below, defs, depth) && AreFilled(path)
    requires p in n.properties && OfProperty(p, path, put, defs, labelFor)
    ensures var puts := PropertyPuts(n.properties, Dots(path), below, defs, labelFor, depth); put in puts || BadName in puts
  {
    hide NodesEnd, WalkEnds, ShownEnds, Walk, PropertyPuts, PropertyNodes, IsName, OwnPuts, OfProperty;
    PropertyPutsHold(n.properties, p, Dots(path), below, defs, labelFor, depth);
    if BadName !in PropertyPuts(n.properties, Dots(path), below, defs, labelFor, depth) {
      OwnPutsAre(p, path, put, defs, labelFor, depth);
    }
  }

  lemma EntryIsPut(n: Schema, v: Schema, path: seq<string>, below: set<string>, defs: Defs, labelFor: string -> string,
                   depth: nat, put: Put)
    requires n.Object? && IsEntry(n, v) && NodesEnd(EntrySchemas(n), below, defs, depth) && AreFilled(path) && OfEntry(v, path, put, defs)
    ensures put in EntryPuts(EntrySchemas(n), Dots(path), below, defs, labelFor, depth)
  {
    hide NodesEnd, WalkEnds, ShownEnds, Shown, Walk, EntryPuts, OfEntry, EntrySchemas, IsEntry, DescriptionPuts;
    EntriesAre(n);
    EntryPutsHold(EntrySchemas(n), v, Dots(path), below, defs, labelFor, depth);
    EntryPutsAre(v, path, put, defs, depth);
  }

  /** What is said at a place the walk comes to is put there, or the walk is refused. */
  lemma HereIsPut(p: Place, n: Schema, seen: set<string>, defs: Defs, labelFor: string -> string, depth: nat, put: Put)
    requires WalkEnds(p.raw, seen, defs, depth) && AreFilled(p.path) && !Stops(p.raw, seen)
    requires Shows(p.raw, n, defs) && Says(n, p.path, put, defs, labelFor)
    ensures var puts := Walk(p.raw, Dots(p.path), seen, defs, labelFor, depth); put in puts || BadName in puts
  {
    hide WalkEnds, ShownEnds, Shown, Walk, PropertyPuts, EntryPuts, NodesEnd, Stops, SeenBelow, OfProperty, OfEntry, HasName, Shows,
      PropertyNodes, EntrySchemas, IsEntry;
    WalkParts(p.raw, Dots(p.path), seen, defs, labelFor, depth);
    OneShown(p.raw, n, defs, depth - 1);
    var below := SeenBelow(p.raw, seen);
    if q :| q in n.properties && OfProperty(q, p.path, put, defs, labelFor) {
      PropertyIsPut(n, q, p.path, below, defs, labelFor, depth - 1, put);
    } else if v :| IsEntry(n, v) && OfEntry(v, p.path, put, defs) {
      EntryIsPut(n, v, p.path, below, defs, labelFor, depth - 1, put);
    }
  }

  /** Where a place leads is walked, or the walk is refused. */
  lemma NextIsWalked(p: Place, n: Schema, q: Place, seen: set<string>, defs: Defs, labelFor: string -> string, depth: nat)
    requires WalkEnds(p.raw, seen, defs, depth) && AreFilled(p.path) && !Stops(p.raw, seen)
    requires Shows(p.raw, n, defs) && LeadsTo(n, p.path, q) && q.raw.Object?
    ensures var (puts, below) := (Walk(p.raw, Dots(p.path), seen, defs, labelFor, depth), SeenBelow(p.raw, seen));
      BadName in puts ||
      (&& depth > 0 && AreFilled(q.path) && WalkEnds(q.raw, below, defs, depth - 1)
       && forall put :: put in Walk(q.raw, Dots(q.path), below, defs, labelFor, depth - 1) ==> put in puts)
  {
    hide WalkEnds, ShownEnds, Shown, Walk, PropertyPuts, EntryPuts, NodesEnd, Stops, SeenBelow, HasName, Shows, PropertyNodes,
      EntrySchemas, IsEntry, IsName, OwnPuts, DescriptionPuts;
    WalkParts(p.raw, Dots(p.path), seen, defs, labelFor, depth);
    OneShown(p.raw, n, defs, depth - 1);
    var (at, below) := (Dots(p.path), SeenBelow(p.raw, seen));
    if t :| t in n.properties && IsName(t.name) && q == Place(t.node, p.path + [t.name]) {
      PropertyPutsHold(n.properties, t, at, below, defs, labelFor, depth - 1);
      NameIsFilled(t.name);
      FilledMore(p.path, t.name);
    } else if IsEntry(n, q.raw) && q.path == p.path + ["_entry"] {
      EntriesAre(n);
      EntryPutsHold(EntrySchemas(n), q.raw, at, below, defs, labelFor, depth - 1);
      FilledMore(p.path, "_entry");
    } else {
      FilledMore(p.path, "items");
    }
  }

  /** What is said at the end of a trail is put by the walk from its start, or the walk is refused. */
  lemma {:induction false} SaidIsPut(trail: seq<Place>, seen: set<string>, defs: Defs, labelFor: string -> string, depth: nat,
                                     put: Put)
    requires IsSaidBy(trail, seen, put, defs, labelFor) && AreFilled(trail[0].path) && WalkEnds(trail[0].raw, seen, defs, depth)
    ensures var puts := Walk(trail[0].raw, Dots(trail[0].path), seen, defs, labelFor, depth); put in puts || BadName in puts
    decreases |trail|
  {
    hide WalkEnds, Walk, Stops, SeenBelow, Says, LeadsTo, IsTrail, Shows;
    TrailIsNotEmpty(trail, seen, defs);
    var p, rest := trail[0], trail[1..];
    if rest == [] {
      assert trail == [p];
      TrailOfOne(p, seen, defs);
      var n :| Shows(p.raw, n, defs) && Says(n, p.path, put, defs, labelFor);
      HereIsPut(p, n, seen, defs, labelFor, depth, put);
    } else {
      assert trail == [p] + rest;
      TrailInFront(p, rest, seen, defs);
      NextOpens(rest, SeenBelow(p.raw, seen), defs);
      var n :| Shows(p.raw, n, defs) && LeadsTo(n, p.path, rest[0]);
      NextIsWalked(p, n, rest[0], seen, defs, labelFor, depth);
      if BadName !in Walk(p.raw, Dots(p.path), seen, defs, labelFor, depth) {
        SaidIsPut(rest, SeenBelow(p.raw, seen), defs, labelFor, depth - 1, put);
      }
    }
  }

  lemma NextOpens(trail: seq<Place>, seen: set<string>, defs: Defs)
    requires IsTrail(trail, seen, defs)
    ensures trail[0].raw.Object?
  {
    hide Leads;
    assert Opens(trail, 0, seen);
  }

  /** The walk from `start` puts an exception exactly when one is said, and without one exactly the texts that are said. */
  lemma PutsAreSaid(start: Schema, defs: Defs, labelFor: string -> string, depth: nat)
    requires WalkEnds(start, {}, defs, depth)
    ensures var puts := Walk(start, "", {}, defs, labelFor, depth);
      && (BadName in puts <==> IsSaid(start, BadName, defs, labelFor))
      && (BadName !in puts ==> forall put :: put in puts <==> IsSaid(start, put, defs, labelFor))
  {
    hide WalkEnds, Walk, IsSaidBy;
    var puts := Walk(start, "", {}, defs, labelFor, depth);
    assert Dots([]) == "";
    forall put | put in puts ensures IsSaid(start, put, defs, labelFor) {
      var trail := PutIsSaid(start, [], {}, defs, labelFor, depth, put);
    }
    forall put | IsSaid(start, put, defs, labelFor) ensures put in puts || BadName in puts {
      var trail :| IsSaidBy(trail, {}, put, defs, labelFor) && trail != [] && trail[0] == Place(start, []);
      SaidIsPut(trail, {}, defs, labelFor, depth, put);
    }
  }

  // ----- collecting -----------------------------------------------------------------------------

  datatype Collected = Threw | Texts(entries: Pairs)

  /** Two texts said under one key. */
  ghost predicate HasConflict(start: Schema, defs: Defs, labelFor: string -> string)
  {
    exists key, a, b :: a != b && IsSaid(start, Text(key, a), defs, labelFor) && IsSaid(start, Text(key, b), defs, labelFor)
  }

  /** Every field text of a schema with its key, or an exception: exactly when a name cannot be a key, or a key would
      carry two texts. `start` is what the walk starts from. */
  method CollectSchemaTexts(start: Schema, defs: Defs, labelFor: string -> string) returns (r: Collected)
    requires !ComesBack(Walking(start, {}), defs)
    ensures r.Threw? <==> IsSaid(start, BadName, defs, labelFor) || HasConflict(start, defs, labelFor)
    ensures r.Texts? ==> AreKeys(r.entries) && Distinct(r.entries)
    ensures r.Texts? ==> forall key, english :: (key, english) in r.entries <==> IsSaid(start, Text(key, english), defs, labelFor)
  {
    hide ComesBack, WalkEnds, Walk, IsKey, DepthOf, IsSaid;
    ghost var depth := DepthOf(start, defs);
    var puts := Walk(start, "", {}, defs, labelFor, depth);
    WalkIsGood(start, "", {}, defs, labelFor, depth);
    PutsAreSaid(start, defs, labelFor, depth);
    var texts: map<string, string> := map[];
    var entries: Pairs := [];
    var i := 0;
    while i < |puts|
      invariant 0 <= i <= |puts| && Distinct(entries) && BadName !in puts[..i]
      invariant forall key, english :: (key, english) in entries <==> key in texts && texts[key] == english
      invariant forall key, english :: (key, english) in entries <==> Text(key, english) in puts[..i]
    {
      assert puts[..i + 1] == puts[..i] + [puts[i]];
      if puts[i] == BadName { return Threw; }
      var Text(key, english) := puts[i];
      if key in texts && texts[key] != english {
        assert (key, texts[key]) in entries && Text(key, texts[key]) in puts[..i];
        return Threw;
      }
      if key !in texts {
        entries := entries + [(key, english)];
        texts := texts[key := english];
      }
      i := i + 1;
    }
    assert puts[..i] == puts;
    forall k | 0 <= k < |entries| ensures IsKey(entries[k].0) {
      assert (entries[k].0, entries[k].1) in entries;
    }
    r := Texts(entries);
  }
}
