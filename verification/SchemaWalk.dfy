/** A JSON schema that may refer to itself: resolving references, composing `allOf`, and the nodes the walk over it
    visits. Neither composing nor walking need end; `depth` bounds how deep their calls nest. */
module SchemaWalk {
  import opened PropertyValues
  import opened PropertiesBundle
  import opened Wrappers

  /** A schema node; `Other` is anything but an object. No title or description is the empty text. */
  datatype Schema =
    | Other
    | Object(ref: Option<string>, title: string, description: string, properties: seq<Property>,
             patterns: seq<Schema>, additional: Schema, items: Schema, allOf: seq<Schema>, conditional: bool)

  datatype Property = Property(name: string, node: Schema)

  /** What every `$ref` string of the document points to; dangling ones are missing. */
  type Defs = map<string, Schema>

  // ----- references -----------------------------------------------------------------------------

  predicate Refers(n: Schema, defs: Defs) { n.Object? && n.ref.Some? && n.ref.value in defs }

  /** Follows a chain of references, stopping at a repeat or a dangling one. */
  function Resolve(n: Schema, defs: Defs, seen: set<string>): (r: Schema)
    ensures !Refers(n, defs) || n.ref.value in seen ==> r == n
    decreases defs.Keys - seen
  {
    if !Refers(n, defs) || n.ref.value in seen then n
    else
      var ref := n.ref.value;
      assert ref in defs.Keys - seen && ref !in defs.Keys - (seen + {ref});
      Resolve(defs[ref], defs, seen + {ref})
  }

  // ----- composing ------------------------------------------------------------------------------

  /** A branch of `allOf` that composing folds in. */
  predicate IsComposing(b: Schema) { b.Object? && !b.conditional }

  predicate HasName(properties: seq<Property>, name: string)
  {
    exists i :: 0 <= i < |properties| && properties[i].name == name
  }

  /** `properties`, and those of `more` whose names it lacks. */
  function Merge(properties: seq<Property>, more: seq<Property>): (r: seq<Property>)
    decreases |more|
  {
    if more == [] then properties
    else Merge(if HasName(properties, more[0].name) then properties else properties + [more[0]], more[1..])
  }

  function PropertiesOf(n: Schema): (properties: seq<Property>)
  {
    if n.Object? then n.properties else []
  }

  /** Composing `n` ends, its calls nested at most `depth` deep. */
  predicate ComposeEnds(n: Schema, defs: Defs, depth: nat)
    decreases depth, 0
  {
    depth > 0 && (n.Object? ==> BranchesEnd(n.allOf, defs, depth - 1))
  }

  predicate BranchesEnd(branches: seq<Schema>, defs: Defs, depth: nat)
    decreases depth, 1
  {
    forall b :: b in branches && IsComposing(b) ==> ComposeEnds(Resolve(b, defs, {}), defs, depth)
  }

  /** The node as the form shows it: with the properties of its composing `allOf` branches folded in. */
  function Compose(n: Schema, defs: Defs, ghost depth: nat): (r: Schema)
    requires ComposeEnds(n, defs, depth)
    ensures n.Object? ==> r == n.(properties := PropertiesOf(r))
    ensures n.Other? ==> r == n
    decreases depth, 0
  {
    if n.Other? || forall b :: b in n.allOf ==> !IsComposing(b) then n
    else n.(properties := FoldBranches(n.properties, n.allOf, defs, depth - 1))
  }

  function FoldBranches(properties: seq<Property>, branches: seq<Schema>, defs: Defs, ghost depth: nat): (r: seq<Property>)
    requires BranchesEnd(branches, defs, depth)
    decreases depth, |branches| + 1
  {
    if branches == [] then properties
    else
      var b := branches[0];
      if !IsComposing(b) then FoldBranches(properties, branches[1..], defs, depth)
      else
        var resolved := Resolve(b, defs, {});
        FoldBranches(Merge(properties, PropertiesOf(Compose(resolved, defs, depth))), branches[1..], defs, depth)
  }

  lemma {:induction false} DeeperEnds(n: Schema, defs: Defs, depth: nat, deeper: nat)
    requires ComposeEnds(n, defs, depth) && depth <= deeper
    ensures ComposeEnds(n, defs, deeper)
    decreases depth
  {
    if n.Object? {
      forall b | b in n.allOf && IsComposing(b) ensures ComposeEnds(Resolve(b, defs, {}), defs, deeper - 1) {
        DeeperEnds(Resolve(b, defs, {}), defs, depth - 1, deeper - 1);
      }
    }
  }

  /** What a node composes to does not depend on how deep the calls may nest. */
  lemma {:induction false} SameComposed(n: Schema, defs: Defs, depth: nat, other: nat)
    requires ComposeEnds(n, defs, depth) && ComposeEnds(n, defs, other)
    ensures Compose(n, defs, depth) == Compose(n, defs, other)
    decreases depth, 0
  {
    if n.Object? { SameFolded(n.properties, n.allOf, defs, depth - 1, other - 1); }
  }

  lemma {:induction false} SameFolded(properties: seq<Property>, branches: seq<Schema>, defs: Defs, depth: nat, other: nat)
    requires BranchesEnd(branches, defs, depth) && BranchesEnd(branches, defs, other)
    ensures FoldBranches(properties, branches, defs, depth) == FoldBranches(properties, branches, defs, other)
    decreases depth, |branches| + 1
  {
    hide Compose, ComposeEnds;
    if branches != [] {
      var b := branches[0];
      if !IsComposing(b) {
        SameFolded(properties, branches[1..], defs, depth, other);
      } else {
        SameComposed(Resolve(b, defs, {}), defs, depth, other);
        var more := PropertiesOf(Compose(Resolve(b, defs, {}), defs, depth));
        SameFolded(Merge(properties, more), branches[1..], defs, depth, other);
      }
    }
  }

  // ----- walking --------------------------------------------------------------------------------

  function EntrySegment(): (segment: string) { "_entry" }

  predicate IsSegmentChar(c: char) { IsKeyChar(c) && c != '.' }

  /** A property name that can be a segment of a key. */
  predicate IsSegment(name: string)
  {
    name != "" && name != EntrySegment() && forall i :: 0 <= i < |name| ==> IsSegmentChar(name[i])
  }

  /** The references seen on the way below `raw`. */
  function SeenBelow(raw: Schema, seen: set<string>): (r: set<string>)
  {
    if raw.Object? && raw.ref.Some? then seen + {raw.ref.value} else seen
  }

  /** The walk stops here: not an object, or a reference seen before. */
  predicate Stops(raw: Schema, seen: set<string>)
  {
    raw.Other? || (raw.ref.Some? && raw.ref.value in seen)
  }

  predicate ShownEnds(raw: Schema, defs: Defs, depth: nat) { ComposeEnds(Resolve(raw, defs, {}), defs, depth) }

  /** The node the walk shows for `raw`. */
  function Shown(raw: Schema, defs: Defs, ghost depth: nat): (n: Schema)
    requires ShownEnds(raw, defs, depth)
  {
    Compose(Resolve(raw, defs, {}), defs, depth)
  }

  /** The value schemas of a map node. */
  function EntrySchemas(n: Schema): (values: seq<Schema>)
    requires n.Object?
  {
    n.patterns + if n.additional.Object? then [n.additional] else []
  }

  /** The properties' nodes, up to the first name that cannot be a segment: there the source throws. */
  function PropertyNodes(properties: seq<Property>): (nodes: seq<Schema>)
  {
    if properties == [] || !IsSegment(properties[0].name) then []
    else [properties[0].node] + PropertyNodes(properties[1..])
  }

  /** The nodes whose descriptions are read off, and which are walked. */
  function Described(n: Schema): (nodes: seq<Schema>)
    requires n.Object?
  {
    PropertyNodes(n.properties) + EntrySchemas(n)
  }

  /** The nodes that walking what is shown as `n` walks. */
  function Walked(n: Schema): (nodes: seq<Schema>)
    requires n.Object?
  {
    Described(n) + if HasName(n.properties, "items") then [] else [n.items]
  }

  /** Walking `raw` ends, its calls nested at most `depth` deep. */
  predicate WalkEnds(raw: Schema, seen: set<string>, defs: Defs, depth: nat)
    decreases depth
  {
    depth > 0 &&
    (!Stops(raw, seen) ==>
       && ShownEnds(raw, defs, depth - 1)
       && var n := Shown(raw, defs, depth - 1);
          n.Object? ==>
            && (forall c :: c in Described(n) ==> ShownEnds(c, defs, depth - 1))
            && (forall c :: c in Walked(n) ==> WalkEnds(c, SeenBelow(raw, seen), defs, depth - 1)))
  }

  lemma {:induction false} DeeperWalkEnds(raw: Schema, seen: set<string>, defs: Defs, depth: nat, deeper: nat)
    requires WalkEnds(raw, seen, defs, depth) && depth <= deeper
    ensures WalkEnds(raw, seen, defs, deeper)
    decreases depth
  {
    hide ComposeEnds, Compose, Described, Walked, Resolve;
    if !Stops(raw, seen) {
      var n, below := Shown(raw, defs, depth - 1), SeenBelow(raw, seen);
      DeeperEnds(Resolve(raw, defs, {}), defs, depth - 1, deeper - 1);
      SameComposed(Resolve(raw, defs, {}), defs, depth - 1, deeper - 1);
      if n.Object? {
        forall c | c in Described(n) ensures ShownEnds(c, defs, deeper - 1) {
          DeeperEnds(Resolve(c, defs, {}), defs, depth - 1, deeper - 1);
        }
        forall c | c in Walked(n) ensures WalkEnds(c, below, defs, deeper - 1) {
          DeeperWalkEnds(c, below, defs, depth - 1, deeper - 1);
        }
      }
    }
  }
}
