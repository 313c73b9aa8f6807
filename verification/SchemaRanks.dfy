/** A ranking of the references that composing follows is enough for the walk to end, however the other references may
    cycle; and a definition that is walked for ever, although composing it runs into no cycle. */
module SchemaRanks {
  import opened SchemaWalk
  import opened SchemaCalls
  import opened Wrappers

  /** What a reference is resolved to. */
  function Target(ref: string, defs: Defs): (r: Schema)
    requires ref in defs
  {
    Resolve(defs[ref], defs, {ref})
  }

  /** A rank for every reference that can be resolved. */
  type Ranks = map<string, nat>

  function Max(a: nat, b: nat): (m: nat)
    ensures a <= m && b <= m && (m == a || m == b)
  {
    if a < b then b else a
  }

  /** One more than the rank of the reference, for a node that refers. */
  function RefRank(n: Schema, ranks: Ranks): (r: nat)
  {
    if n.Object? && n.ref.Some? && n.ref.value in ranks then ranks[n.ref.value] + 1 else 0
  }

  /** Above the references that composing `n` alone follows. */
  function ComposeRank(n: Schema, ranks: Ranks): (r: nat)
  {
    if n.Other? then 0 else BranchRank(n.allOf, ranks)
  }

  function BranchRank(branches: seq<Schema>, ranks: Ranks): (r: nat)
  {
    if branches == [] then 0
    else
      var b := branches[0];
      Max(if IsComposing(b) then Max(RefRank(b, ranks), ComposeRank(b, ranks)) else 0, BranchRank(branches[1..], ranks))
  }

  /** Above every reference in a composing branch of an `allOf` anywhere inside `n`. */
  function NodeRank(n: Schema, ranks: Ranks): (r: nat)
  {
    if n.Other? then 0
    else
      Max(Max(PairsRank(n.properties, ranks), NodesRank(n.patterns, ranks)),
          Max(Max(NodeRank(n.additional, ranks), NodeRank(n.items, ranks)), AllOfRank(n.allOf, ranks)))
  }

  function PairsRank(pairs: seq<Property>, ranks: Ranks): (r: nat)
  {
    if pairs == [] then 0 else Max(NodeRank(pairs[0].node, ranks), PairsRank(pairs[1..], ranks))
  }

  function NodesRank(nodes: seq<Schema>, ranks: Ranks): (r: nat)
  {
    if nodes == [] then 0 else Max(NodeRank(nodes[0], ranks), NodesRank(nodes[1..], ranks))
  }

  function AllOfRank(branches: seq<Schema>, ranks: Ranks): (r: nat)
  {
    if branches == [] then 0
    else
      var b := branches[0];
      Max(if IsComposing(b) then Max(RefRank(b, ranks), NodeRank(b, ranks)) else 0, AllOfRank(branches[1..], ranks))
  }

  /** The references in the `allOf`s anywhere inside a target run into no cycle. */
  predicate WalksDown(defs: Defs, ranks: Ranks)
  {
    ranks.Keys == defs.Keys && forall ref :: ref in defs ==> NodeRank(Target(ref, defs), ranks) <= ranks[ref]
  }

  lemma {:induction false} ComposeRankIsLess(n: Schema, ranks: Ranks)
    ensures ComposeRank(n, ranks) <= NodeRank(n, ranks)
    decreases n, 1
  {
    if n.Object? { BranchRankIsLess(n.allOf, ranks); }
  }

  lemma {:induction false} BranchRankIsLess(branches: seq<Schema>, ranks: Ranks)
    ensures BranchRank(branches, ranks) <= AllOfRank(branches, ranks)
    decreases branches, 0
  {
    if branches != [] {
      ComposeRankIsLess(branches[0], ranks);
      BranchRankIsLess(branches[1..], ranks);
    }
  }

  // ----- sizes ----------------------------------------------------------------------------------

  function Size(n: Schema): (s: nat)
  {
    if n.Other? then 0
    else 1 + PropertiesSize(n.properties) + NodesSize(n.patterns) + Size(n.additional) + Size(n.items) + NodesSize(n.allOf)
  }

  function PropertiesSize(properties: seq<Property>): (s: nat)
  {
    if properties == [] then 0 else Size(properties[0].node) + PropertiesSize(properties[1..])
  }

  function NodesSize(nodes: seq<Schema>): (s: nat)
  {
    if nodes == [] then 0 else Size(nodes[0]) + NodesSize(nodes[1..])
  }

  /** A node of lower rank, or of no higher rank and smaller. */
  predicate IsUnder(n: Schema, rank: nat, size: nat, ranks: Ranks)
  {
    NodeRank(n, ranks) < rank || (NodeRank(n, ranks) == rank && Size(n) < size)
  }

  predicate AreUnder(properties: seq<Property>, rank: nat, size: nat, ranks: Ranks)
  {
    forall p :: p in properties ==> IsUnder(p.node, rank, size, ranks)
  }

  lemma {:induction false} OwnProperty(properties: seq<Property>, p: Property, ranks: Ranks)
    requires p in properties
    ensures NodeRank(p.node, ranks) <= PairsRank(properties, ranks) && Size(p.node) <= PropertiesSize(properties)
  {
    if p != properties[0] { OwnProperty(properties[1..], p, ranks); }
  }

  lemma {:induction false} OwnNode(nodes: seq<Schema>, n: Schema, ranks: Ranks)
    requires n in nodes
    ensures NodeRank(n, ranks) <= NodesRank(nodes, ranks) && Size(n) <= NodesSize(nodes)
  {
    if n != nodes[0] { OwnNode(nodes[1..], n, ranks); }
  }

  lemma OwnPropertiesAreUnder(n: Schema, ranks: Ranks)
    requires n.Object?
    ensures AreUnder(n.properties, NodeRank(n, ranks), Size(n), ranks)
  {
    forall p | p in n.properties ensures IsUnder(p.node, NodeRank(n, ranks), Size(n), ranks) {
      OwnProperty(n.properties, p, ranks);
    }
  }

  lemma {:induction false} MergedAre(properties: seq<Property>, more: seq<Property>, rank: nat, size: nat, ranks: Ranks)
    requires AreUnder(properties, rank, size, ranks) && AreUnder(more, rank, size, ranks)
    ensures AreUnder(Merge(properties, more), rank, size, ranks)
    decreases |more|
  {
    hide IsUnder, HasName;
    if more != [] {
      MergedAre(if HasName(properties, more[0].name) then properties else properties + [more[0]], more[1..], rank, size, ranks);
    }
  }

  /** Everything a composed node shows as a property is under the node itself: composing never climbs. */
  lemma {:induction false} ComposedAreUnder(n: Schema, defs: Defs, ranks: Ranks, depth: nat)
    requires WalksDown(defs, ranks) && ComposeEnds(n, defs, depth)
    ensures AreUnder(PropertiesOf(Compose(n, defs, depth)), NodeRank(n, ranks), Size(n), ranks)
    decreases depth, 0
  {
    hide WalksDown, AreUnder, NodeRank, Size;
    if n.Other? {
      NothingUnder(NodeRank(n, ranks), Size(n), ranks);
    } else {
      OwnPropertiesAreUnder(n, ranks);
      AllOfFits(n, ranks);
      FoldedAreUnder(n.properties, n.allOf, NodeRank(n, ranks), Size(n), defs, ranks, depth - 1);
    }
  }

  lemma NothingUnder(rank: nat, size: nat, ranks: Ranks)
    ensures AreUnder([], rank, size, ranks)
  {
  }

  lemma AllOfFits(n: Schema, ranks: Ranks)
    requires n.Object?
    ensures AllOfRank(n.allOf, ranks) <= NodeRank(n, ranks) && NodesSize(n.allOf) < Size(n)
  {
  }

  lemma {:induction false} FoldedAreUnder(properties: seq<Property>, branches: seq<Schema>, rank: nat, size: nat, defs: Defs,
                                          ranks: Ranks, depth: nat)
    requires WalksDown(defs, ranks) && BranchesEnd(branches, defs, depth)
    requires AreUnder(properties, rank, size, ranks) && AllOfRank(branches, ranks) <= rank && NodesSize(branches) < size
    ensures AreUnder(FoldBranches(properties, branches, defs, depth), rank, size, ranks)
    decreases depth, |branches| + 1
  {
    hide WalksDown, AreUnder, NodeRank, Size, Compose, ComposeEnds;
    if branches != [] {
      var b := branches[0];
      if !IsComposing(b) {
        FoldedAreUnder(properties, branches[1..], rank, size, defs, ranks, depth);
      } else {
        var resolved := Resolve(b, defs, {});
        ComposedAreUnder(resolved, defs, ranks, depth);
        ResolvedFits(b, defs, ranks);
        var more := PropertiesOf(Compose(resolved, defs, depth));
        UnderToo(more, NodeRank(resolved, ranks), Size(resolved), rank, size, ranks);
        MergedAre(properties, more, rank, size, ranks);
        FoldedAreUnder(Merge(properties, more), branches[1..], rank, size, defs, ranks, depth);
      }
    }
  }

  /** What a branch is resolved to: itself, or a target of lower rank than the reference. */
  lemma ResolvedFits(b: Schema, defs: Defs, ranks: Ranks)
    requires WalksDown(defs, ranks)
    ensures var r := Resolve(b, defs, {}); r == b || NodeRank(r, ranks) < RefRank(b, ranks)
  {
    hide NodeRank;
    if Refers(b, defs) {
      assert {} + {b.ref.value} == {b.ref.value};
      assert Resolve(b, defs, {}) == Target(b.ref.value, defs);
    }
  }

  lemma UnderToo(properties: seq<Property>, lower: nat, less: nat, rank: nat, size: nat, ranks: Ranks)
    requires AreUnder(properties, lower, less, ranks) && (lower < rank || (lower <= rank && less <= size))
    ensures AreUnder(properties, rank, size, ranks)
  {
    hide NodeRank, Size;
  }

  // ----- calls ----------------------------------------------------------------------------------

  /** How many references are left to be seen. */
  function Unseen(defs: Defs, seen: set<string>): (n: nat) { |defs.Keys - seen| }

  /** Of two walks, one with fewer references unseen, or as many and a node under the other's. */
  predicate Descends(c: Call, d: Call, defs: Defs, ranks: Ranks)
  {
    match (c, d)
    case (Walking(_, _), Composing(_)) => true
    case (Composing(_), Walking(_, _)) => false
    case (Composing(n), Composing(m)) =>
      ComposeRank(m, ranks) < ComposeRank(n, ranks) || (ComposeRank(m, ranks) == ComposeRank(n, ranks) && Size(m) < Size(n))
    case (Walking(raw, seen), Walking(child, below)) =>
      || Unseen(defs, below) < Unseen(defs, seen)
      || (Unseen(defs, below) == Unseen(defs, seen) && IsUnder(child, NodeRank(raw, ranks), Size(raw), ranks))
  }

  lemma FewerUnseen(defs: Defs, seen: set<string>, ref: string)
    requires ref in defs && ref !in seen
    ensures Unseen(defs, seen + {ref}) < Unseen(defs, seen)
  {
    assert defs.Keys - seen == (defs.Keys - (seen + {ref})) + {ref};
  }

  lemma SameUnseen(defs: Defs, seen: set<string>, ref: string)
    requires ref !in defs
    ensures Unseen(defs, seen + {ref}) == Unseen(defs, seen)
  {
    assert defs.Keys - seen == defs.Keys - (seen + {ref});
  }

  lemma {:induction false} OwnBranch(branches: seq<Schema>, b: Schema, ranks: Ranks)
    requires b in branches && IsComposing(b)
    ensures RefRank(b, ranks) <= BranchRank(branches, ranks) && ComposeRank(b, ranks) <= BranchRank(branches, ranks)
    ensures Size(b) <= NodesSize(branches)
  {
    hide Size;
    if b != branches[0] { OwnBranch(branches[1..], b, ranks); }
  }

  lemma ComposingDescends(n: Schema, b: Schema, defs: Defs, ranks: Ranks)
    requires WalksDown(defs, ranks) && n.Object? && b in n.allOf && IsComposing(b)
    ensures Descends(Composing(n), ComposingOf(b, defs), defs, ranks)
  {
    OwnBranch(n.allOf, b, ranks);
    AllOfFits(n, ranks);
    hide WalksDown, NodeRank, Size, BranchRank;
    ResolvedFits(b, defs, ranks);
    ComposeRankIsLess(Resolve(b, defs, {}), ranks);
  }

  /** Every call descends: in a walk, either a reference is seen for the first time, or the node is under the one above. */
  lemma CallDescends(c: Call, d: Call, defs: Defs, ranks: Ranks)
    requires WalksDown(defs, ranks) && d in Made(c, defs)
    ensures Descends(c, d, defs, ranks)
  {
    hide WalksDown, NodeRank, Size, IsUnder, Unseen, Resolve, Walked, Described, Compose, ComposeEnds, ComposeRank;
    match c
    case Composing(n) =>
      var b :| b in n.allOf && IsComposing(b) && d == ComposingOf(b, defs);
      ComposingDescends(n, b, defs, ranks);
    case Walking(raw, seen) =>
      if d.Walking? {
        var depth: nat :| ShownEnds(raw, defs, depth);
        MadeShownAt(raw, seen, defs, depth);
        if Refers(raw, defs) {
          FewerUnseen(defs, seen, raw.ref.value);
        } else {
          if raw.ref.Some? { SameUnseen(defs, seen, raw.ref.value); }
          WalkedIsUnder(raw, d.raw, defs, ranks, depth);
        }
      }
  }

  lemma WalkedIsUnder(raw: Schema, child: Schema, defs: Defs, ranks: Ranks, depth: nat)
    requires WalksDown(defs, ranks) && raw.Object? && !Refers(raw, defs) && ShownEnds(raw, defs, depth)
    requires var n := Shown(raw, defs, depth); n.Object? && child in Walked(n)
    ensures IsUnder(child, NodeRank(raw, ranks), Size(raw), ranks)
  {
    hide WalksDown, NodeRank, Size, IsUnder, Compose, ComposeEnds, PropertyNodes, HasName;
    var n := Shown(raw, defs, depth);
    ComposedAreUnder(raw, defs, ranks, depth);
    if child == n.items || child == n.additional {
      OwnParts(raw, ranks);
    } else if child in n.patterns {
      OwnNode(raw.patterns, child, ranks);
      OwnParts(raw, ranks);
      PatternIsUnder(raw, child, ranks);
    } else {
      NodesOfProperties(n.properties, child);
    }
  }

  lemma {:induction false} NodesOfProperties(properties: seq<Property>, child: Schema)
    requires child in PropertyNodes(properties)
    ensures exists p :: p in properties && p.node == child
  {
    if child == properties[0].node {
      assert properties[0] in properties;
    } else {
      NodesOfProperties(properties[1..], child);
      var p :| p in properties[1..] && p.node == child;
    }
  }

  lemma OwnParts(raw: Schema, ranks: Ranks)
    requires raw.Object?
    ensures IsUnder(raw.items, NodeRank(raw, ranks), Size(raw), ranks)
    ensures IsUnder(raw.additional, NodeRank(raw, ranks), Size(raw), ranks)
    ensures NodesRank(raw.patterns, ranks) <= NodeRank(raw, ranks) && NodesSize(raw.patterns) < Size(raw)
  {
  }

  lemma PatternIsUnder(raw: Schema, child: Schema, ranks: Ranks)
    requires NodeRank(child, ranks) <= NodeRank(raw, ranks) && Size(child) < Size(raw)
    ensures IsUnder(child, NodeRank(raw, ranks), Size(raw), ranks)
  {
    hide NodeRank, Size;
  }

  lemma {:induction false} ChainDescends(chain: seq<Call>, i: nat, j: nat, defs: Defs, ranks: Ranks)
    requires WalksDown(defs, ranks) && IsChain(chain, defs) && i < j < |chain|
    ensures Descends(chain[i], chain[j], defs, ranks)
    decreases j - i
  {
    hide WalksDown, Made, Descends;
    CallDescends(chain[i], chain[i + 1], defs, ranks);
    if i + 1 < j {
      ChainDescends(chain, i + 1, j, defs, ranks);
      DescendsOn(chain[i], chain[i + 1], chain[j], defs, ranks);
    }
  }

  lemma DescendsOn(c: Call, d: Call, e: Call, defs: Defs, ranks: Ranks)
    requires Descends(c, d, defs, ranks) && Descends(d, e, defs, ranks)
    ensures Descends(c, e, defs, ranks)
  {
    hide NodeRank, Size, Unseen, ComposeRank;
  }

  /** Where the references in `allOf`s can be ranked, composing and walking end, wherever they start and however the
      other references may cycle. */
  lemma RankedEnds(c: Call, defs: Defs, ranks: Ranks)
    requires WalksDown(defs, ranks)
    ensures exists depth: nat :: Ends(c, defs, depth)
  {
    hide WalksDown, IsChain, Ends;
    EndsExactlyWhen(c, defs);
    if ComesBack(c, defs) {
      var chain, i: nat :| ComesBackBy(c, chain, i, defs);
      ChainDescends(chain, i, |chain| - 1, defs, ranks);
      NeverItself(chain[i], defs, ranks);
    }
  }

  lemma NeverItself(c: Call, defs: Defs, ranks: Ranks)
    ensures !Descends(c, c, defs, ranks)
  {
    hide NodeRank, Size, Unseen, ComposeRank;
  }

  // ----- a walk that does not end ---------------------------------------------------------------

  /** A node that has nothing but an `allOf` branch with this reference. */
  function Including(ref: string): (n: Schema)
  {
    var branch := Object(Some(ref), "", "", [], [], Other, Other, [], false);
    Object(None, "", "", [], [], Other, Other, [branch], false)
  }

  /** A definition with one property, which includes the definition. */
  function Nested(ref: string): (n: Schema)
  {
    Object(None, "", "", [Property("x", Including(ref))], [], Other, Other, [], false)
  }

  /** It is not enough that composing runs into no cycle: references in `allOf` are not marked as seen, so where a
      definition's property includes the definition, walking the property walks the property again, with nothing more
      seen than before. */
  lemma IncludedPropertyNeverEnds(ref: string, seen: set<string>)
    ensures var (defs, n) := (map[ref := Nested(ref)], Including(ref));
      && ComposeEnds(n, defs, 2) && ComposeEnds(Nested(ref), defs, 1)
      && Walking(n, seen) in Made(Walking(n, seen), defs)
      && forall depth: nat :: !WalkEnds(n, seen, defs, depth)
  {
    hide WalkEnds, Made, ComposeEnds;
    var (defs, n) := (map[ref := Nested(ref)], Including(ref));
    ComposeOfIncluding(ref);
    WalksItself(ref, seen);
    var c := Walking(n, seen);
    assert ComesBackBy(c, [c, c], 0, defs);
    forall depth: nat ensures !WalkEnds(n, seen, defs, depth) { WhatComesBackNeverEnds(c, defs, depth); }
  }

  lemma WalksItself(ref: string, seen: set<string>)
    ensures Walking(Including(ref), seen) in Made(Walking(Including(ref), seen), map[ref := Nested(ref)])
  {
    hide ComposeEnds, Compose, MadeWalking;
    var (defs, n) := (map[ref := Nested(ref)], Including(ref));
    ComposeOfIncluding(ref);
    MadeShownAt(n, seen, defs, 2);
    assert PropertyNodes([Property("x", n)]) == [n] by { assert [Property("x", n)][1..] == []; }
    assert n in Walked(Shown(n, defs, 2));
  }

  lemma TargetIsNested(ref: string)
    ensures Resolve(Including(ref).allOf[0], map[ref := Nested(ref)], {}) == Nested(ref)
  {
    assert {} + {ref} == {ref};
  }

  lemma ComposeOfIncluding(ref: string)
    ensures ComposeEnds(Including(ref), map[ref := Nested(ref)], 2) && ComposeEnds(Nested(ref), map[ref := Nested(ref)], 1)
    ensures Compose(Including(ref), map[ref := Nested(ref)], 2).properties == [Property("x", Including(ref))]
  {
    var (defs, n) := (map[ref := Nested(ref)], Including(ref));
    TargetIsNested(ref);
    var b := n.allOf[0];
    assert b in n.allOf && IsComposing(b);
    assert BranchesEnd([], defs, 0);
    assert ComposeEnds(Nested(ref), defs, 1);
    assert BranchesEnd(n.allOf, defs, 1);
    var more := PropertiesOf(Compose(Nested(ref), defs, 1));
    assert more == [Property("x", n)];
    assert more[1..] == [] && n.allOf[1..] == [];
    assert Merge([], more) == Merge([Property("x", n)], []);
    assert FoldBranches([], n.allOf, defs, 1) == FoldBranches(Merge([], more), [], defs, 1);
  }
}
