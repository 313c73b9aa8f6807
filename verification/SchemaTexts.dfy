/** The walk over a schema: which texts it puts under which keys, in order. */
module SchemaTexts {
  import opened PropertyValues
  import opened PropertiesBundle
  import opened SchemaWalk
  import opened SchemaCalls
  import opened Wrappers

  /** What the walk does with a field: a text put under a key, or an exception for a name no key can hold. */
  datatype Put = Text(key: string, english: string) | BadName

  /** A document path: key characters only. */
  predicate IsPath(path: string) { forall i :: 0 <= i < |path| ==> IsKeyChar(path[i]) }

  function Child(base: string, segment: string): (path: string)
  {
    if base == "" then segment else base + "." + segment
  }

  function Label(path: string): (key: string) { "schema." + path + ".label" }

  function Description(path: string): (key: string) { "schema." + path + ".description" }

  // ----- the walk -------------------------------------------------------------------------------

  function DescriptionPuts(path: string, english: string): (puts: seq<Put>)
  {
    if english == "" then [] else [Text(Description(path), english)]
  }

  function DescriptionOf(n: Schema): (english: string) { if n.Object? then n.description else "" }

  function TitleOr(n: Schema, otherwise: string): (english: string)
  {
    if n.Object? && n.title != "" then n.title else otherwise
  }

  /** Composing and walking these nodes ends. */
  predicate NodesEnd(nodes: seq<Schema>, below: set<string>, defs: Defs, depth: nat)
  {
    forall c :: c in nodes ==> ShownEnds(c, defs, depth) && WalkEnds(c, below, defs, depth)
  }

  lemma WalkedEnd(raw: Schema, seen: set<string>, defs: Defs, depth: nat)
    requires WalkEnds(raw, seen, defs, depth) && !Stops(raw, seen) && Shown(raw, defs, depth - 1).Object?
    ensures var (n, below) := (Shown(raw, defs, depth - 1), SeenBelow(raw, seen));
      && NodesEnd(PropertyNodes(n.properties), below, defs, depth - 1)
      && NodesEnd(EntrySchemas(n), below, defs, depth - 1)
      && (!HasName(n.properties, "items") ==> WalkEnds(n.items, below, defs, depth - 1))
  {
    hide ComposeEnds, Shown, Stops, SeenBelow, HasName, PropertyNodes, EntrySchemas, ShownEnds;
    var n := Shown(raw, defs, depth - 1);
    assert forall c :: c in PropertyNodes(n.properties) || c in EntrySchemas(n) ==> c in Described(n);
    assert forall c :: c in Described(n) ==> c in Walked(n);
    assert !HasName(n.properties, "items") ==> n.items in Walked(n);
  }

  /** What walking `raw` at `at` puts, in order. `labelFor` derives a label from a property's name. */
  function Walk(raw: Schema, at: string, seen: set<string>, defs: Defs, labelFor: string -> string, ghost depth: nat)
    : (puts: seq<Put>)
    requires WalkEnds(raw, seen, defs, depth)
    decreases depth, 0
  {
    hide ComposeEnds, Label, Description, Stops, HasName, NodesEnd, Walked, Described;
    if Stops(raw, seen) then []
    else
      var n := Shown(raw, defs, depth - 1);
      if n.Other? then []
      else
        var below := SeenBelow(raw, seen);
        WalkedEnd(raw, seen, defs, depth);
        PropertyPuts(n.properties, at, below, defs, labelFor, depth - 1)
        + EntryPuts(EntrySchemas(n), at, below, defs, labelFor, depth - 1)
        + (if n.items.Other? then []
           else if HasName(n.properties, "items") then [BadName]
           else Walk(n.items, Child(at, "items"), below, defs, labelFor, depth - 1))
  }

  function PropertyPuts(properties: seq<Property>, at: string, below: set<string>, defs: Defs, labelFor: string -> string,
                        ghost depth: nat): (puts: seq<Put>)
    requires NodesEnd(PropertyNodes(properties), below, defs, depth)
    decreases depth, |properties| + 1
  {
    hide WalkEnds, ComposeEnds, Shown, Label, Description, IsSegment;
    if properties == [] then []
    else
      var p := properties[0];
      if !IsSegment(p.name) then [BadName]
      else
        var path := Child(at, p.name);
        assert p.node in PropertyNodes(properties);
        [Text(Label(path), TitleOr(p.node, labelFor(p.name)))]
        + DescriptionPuts(path, DescriptionOf(Shown(p.node, defs, depth)))
        + Walk(p.node, path, below, defs, labelFor, depth)
        + PropertyPuts(properties[1..], at, below, defs, labelFor, depth)
  }

  function EntryPuts(values: seq<Schema>, at: string, below: set<string>, defs: Defs, labelFor: string -> string,
                     ghost depth: nat): (puts: seq<Put>)
    requires NodesEnd(values, below, defs, depth)
    decreases depth, |values| + 1
  {
    hide WalkEnds, ComposeEnds, Shown, Label, Description, EntrySegment;
    if values == [] then []
    else
      var path := Child(at, EntrySegment());
      DescriptionPuts(path, DescriptionOf(Shown(values[0], defs, depth)))
      + Walk(values[0], path, below, defs, labelFor, depth)
      + EntryPuts(values[1..], at, below, defs, labelFor, depth)
  }

  /** What a walk puts does not depend on how deep its calls may nest. */
  lemma {:induction false} SameWalk(raw: Schema, at: string, seen: set<string>, defs: Defs, labelFor: string -> string,
                                    depth: nat, other: nat)
    requires WalkEnds(raw, seen, defs, depth) && WalkEnds(raw, seen, defs, other)
    ensures Walk(raw, at, seen, defs, labelFor, depth) == Walk(raw, at, seen, defs, labelFor, other)
    decreases depth, 0
  {
    hide ComposeEnds, Compose, Stops, HasName, NodesEnd, Walked, Described, PropertyPuts, EntryPuts;
    if !Stops(raw, seen) {
      SameComposed(Resolve(raw, defs, {}), defs, depth - 1, other - 1);
      var n, below := Shown(raw, defs, depth - 1), SeenBelow(raw, seen);
      if n.Object? {
        WalkedEnd(raw, seen, defs, depth);
        WalkedEnd(raw, seen, defs, other);
        SamePropertyPuts(n.properties, at, below, defs, labelFor, depth - 1, other - 1);
        SameEntryPuts(EntrySchemas(n), at, below, defs, labelFor, depth - 1, other - 1);
        if !HasName(n.properties, "items") {
          SameWalk(n.items, Child(at, "items"), below, defs, labelFor, depth - 1, other - 1);
        }
      }
    }
  }

  lemma {:induction false} SamePropertyPuts(properties: seq<Property>, at: string, below: set<string>, defs: Defs,
                                            labelFor: string -> string, depth: nat, other: nat)
    requires NodesEnd(PropertyNodes(properties), below, defs, depth) && NodesEnd(PropertyNodes(properties), below, defs, other)
    ensures PropertyPuts(properties, at, below, defs, labelFor, depth) == PropertyPuts(properties, at, below, defs, labelFor, other)
    decreases depth, |properties| + 1
  {
    hide WalkEnds, ComposeEnds, Compose, Label, Walk, IsSegment, DescriptionPuts;
    if properties != [] && IsSegment(properties[0].name) {
      var p := properties[0];
      assert p.node in PropertyNodes(properties);
      SameComposed(Resolve(p.node, defs, {}), defs, depth, other);
      SameWalk(p.node, Child(at, p.name), below, defs, labelFor, depth, other);
      SamePropertyPuts(properties[1..], at, below, defs, labelFor, depth, other);
    }
  }

  lemma {:induction false} SameEntryPuts(values: seq<Schema>, at: string, below: set<string>, defs: Defs,
                                         labelFor: string -> string, depth: nat, other: nat)
    requires NodesEnd(values, below, defs, depth) && NodesEnd(values, below, defs, other)
    ensures EntryPuts(values, at, below, defs, labelFor, depth) == EntryPuts(values, at, below, defs, labelFor, other)
    decreases depth, |values| + 1
  {
    hide WalkEnds, ComposeEnds, Compose, Walk, DescriptionPuts, EntrySegment;
    if values != [] {
      assert values[0] in values;
      SameComposed(Resolve(values[0], defs, {}), defs, depth, other);
      SameWalk(values[0], Child(at, EntrySegment()), below, defs, labelFor, depth, other);
      SameEntryPuts(values[1..], at, below, defs, labelFor, depth, other);
    }
  }

  /** How deep the calls of a walk nest that does not come back to a node with nothing more seen. */
  ghost function DepthOf(start: Schema, defs: Defs): (depth: nat)
    requires !ComesBack(Walking(start, {}), defs)
    ensures WalkEnds(start, {}, defs, depth)
  {
    hide ComesBack, WalkEnds;
    EndsExactlyWhen(Walking(start, {}), defs);
    var depth: nat :| Ends(Walking(start, {}), defs, depth);
    depth
  }

  // ----- the keys -------------------------------------------------------------------------------

  predicate AreGood(puts: seq<Put>) { forall put :: put in puts && put.Text? ==> IsKey(put.key) }

  lemma LabelIsKey(path: string)
    requires IsPath(path)
    ensures IsKey(Label(path))
  {
    var key := Label(path);
    assert key[..7] == "schema.";
    forall i | 7 <= i < |key| ensures IsKeyChar(key[i]) {
      if i < 7 + |path| { assert key[i] == path[i - 7]; } else { assert key[i] == ".label"[i - 7 - |path|]; }
    }
  }

  lemma DescriptionIsKey(path: string)
    requires IsPath(path)
    ensures IsKey(Description(path))
  {
    var key := Description(path);
    assert key[..7] == "schema.";
    forall i | 7 <= i < |key| ensures IsKeyChar(key[i]) {
      if i < 7 + |path| { assert key[i] == path[i - 7]; } else { assert key[i] == ".description"[i - 7 - |path|]; }
    }
  }

  lemma ChildIsPath(base: string, segment: string)
    requires IsPath(base) && IsPath(segment)
    ensures IsPath(Child(base, segment))
  {
  }

  lemma FixedSegments()
    ensures IsPath("items") && IsPath(EntrySegment())
  {
  }

  lemma SegmentIsPath(name: string)
    requires IsSegment(name)
    ensures IsPath(name)
  {
  }

  lemma DescriptionPutsAreGood(path: string, english: string)
    requires IsPath(path)
    ensures AreGood(DescriptionPuts(path, english))
  {
    hide IsKey, Description;
    DescriptionIsKey(path);
  }

  /** Every key the walk puts is a key of the bundles. */
  lemma {:induction false} WalkIsGood(raw: Schema, at: string, seen: set<string>, defs: Defs, labelFor: string -> string,
                                      depth: nat)
    requires WalkEnds(raw, seen, defs, depth) && IsPath(at)
    ensures AreGood(Walk(raw, at, seen, defs, labelFor, depth))
    decreases depth, 0
  {
    hide ComposeEnds, Stops, HasName, IsKey, IsPath, PropertyPuts, EntryPuts, NodesEnd, Walked, Described;
    if !Stops(raw, seen) && Shown(raw, defs, depth - 1).Object? {
      var n, below := Shown(raw, defs, depth - 1), SeenBelow(raw, seen);
      WalkedEnd(raw, seen, defs, depth);
      PropertiesAreGood(n.properties, at, below, defs, labelFor, depth - 1);
      EntriesAreGood(EntrySchemas(n), at, below, defs, labelFor, depth - 1);
      FixedSegments();
      ChildIsPath(at, "items");
      if !HasName(n.properties, "items") {
        WalkIsGood(n.items, Child(at, "items"), below, defs, labelFor, depth - 1);
      }
    }
  }

  lemma {:induction false} PropertiesAreGood(properties: seq<Property>, at: string, below: set<string>, defs: Defs,
                                             labelFor: string -> string, depth: nat)
    requires NodesEnd(PropertyNodes(properties), below, defs, depth) && IsPath(at)
    ensures AreGood(PropertyPuts(properties, at, below, defs, labelFor, depth))
    decreases depth, |properties| + 1
  {
    hide WalkEnds, ComposeEnds, Shown, Label, Walk, IsSegment, IsKey, IsPath, DescriptionPuts;
    if properties != [] && IsSegment(properties[0].name) {
      var p := properties[0];
      var path := Child(at, p.name);
      assert p.node in PropertyNodes(properties);
      SegmentIsPath(p.name);
      ChildIsPath(at, p.name);
      LabelIsKey(path);
      DescriptionPutsAreGood(path, DescriptionOf(Shown(p.node, defs, depth)));
      WalkIsGood(p.node, path, below, defs, labelFor, depth);
      PropertiesAreGood(properties[1..], at, below, defs, labelFor, depth);
    }
  }

  lemma {:induction false} EntriesAreGood(values: seq<Schema>, at: string, below: set<string>, defs: Defs,
                                          labelFor: string -> string, depth: nat)
    requires NodesEnd(values, below, defs, depth) && IsPath(at)
    ensures AreGood(EntryPuts(values, at, below, defs, labelFor, depth))
    decreases depth, |values| + 1
  {
    hide WalkEnds, ComposeEnds, Shown, Walk, IsKey, IsPath, DescriptionPuts, EntrySegment;
    if values != [] {
      var v, path := values[0], Child(at, EntrySegment());
      FixedSegments();
      ChildIsPath(at, EntrySegment());
      DescriptionPutsAreGood(path, DescriptionOf(Shown(v, defs, depth)));
      WalkIsGood(v, path, below, defs, labelFor, depth);
      EntriesAreGood(values[1..], at, below, defs, labelFor, depth);
    }
  }
}
