/** The calls that composing and walking make, and when they end: exactly when no call comes back to itself. */
module SchemaCalls {
  import opened SchemaWalk
  import opened Wrappers

  /** Composing a node, or walking one with these references seen. */
  datatype Call = Composing(n: Schema) | Walking(raw: Schema, seen: set<string>)

  predicate Ends(c: Call, defs: Defs, depth: nat)
  {
    match c
    case Composing(n) => ComposeEnds(n, defs, depth)
    case Walking(raw, seen) => WalkEnds(raw, seen, defs, depth)
  }

  function ComposingOf(raw: Schema, defs: Defs): (c: Call) { Composing(Resolve(raw, defs, {})) }

  /** The calls of composing a node. */
  ghost function MadeComposing(n: Schema, defs: Defs): (calls: set<Call>)
  {
    if n.Other? then {} else set b | b in n.allOf && IsComposing(b) :: ComposingOf(b, defs)
  }

  /** The calls of a walk that shows `n`, once it does. */
  ghost function MadeShowing(n: Schema, below: set<string>, defs: Defs): (calls: set<Call>)
  {
    if n.Other? then {} else (set c | c in Described(n) :: ComposingOf(c, defs)) + (set c | c in Walked(n) :: Walking(c, below))
  }

  /** The calls of walking a node: what it shows is composed first, and if that ends, its nodes are composed and walked. */
  ghost function MadeWalking(raw: Schema, seen: set<string>, defs: Defs): (calls: set<Call>)
  {
    if Stops(raw, seen) then {}
    else
      {ComposingOf(raw, defs)}
      + if depth: nat :| ShownEnds(raw, defs, depth) then MadeShowing(Shown(raw, defs, depth), SeenBelow(raw, seen), defs) else {}
  }

  ghost function Made(c: Call, defs: Defs): (calls: set<Call>)
  {
    match c
    case Composing(n) => MadeComposing(n, defs)
    case Walking(raw, seen) => MadeWalking(raw, seen, defs)
  }

  /** Each call of the chain is made by the one before. */
  ghost predicate IsChain(chain: seq<Call>, defs: Defs)
  {
    chain != [] && forall i :: 0 <= i < |chain| - 1 ==> chain[i + 1] in Made(chain[i], defs)
  }

  /** A chain of calls from `c` on ends in a call it holds already: the same node, with nothing more seen. */
  ghost predicate ComesBackBy(c: Call, chain: seq<Call>, i: nat, defs: Defs)
  {
    IsChain(chain, defs) && chain[0] == c && i < |chain| - 1 && chain[i] == chain[|chain| - 1]
  }

  ghost predicate ComesBack(c: Call, defs: Defs)
  {
    exists chain, i: nat :: ComesBackBy(c, chain, i, defs)
  }

  // ----- what comes back does not end -----------------------------------------------------------

  lemma MadeShownAt(raw: Schema, seen: set<string>, defs: Defs, depth: nat)
    requires !Stops(raw, seen) && ShownEnds(raw, defs, depth)
    ensures MadeWalking(raw, seen, defs)
            == {ComposingOf(raw, defs)} + MadeShowing(Shown(raw, defs, depth), SeenBelow(raw, seen), defs)
  {
    hide Compose, ComposeEnds, Resolve, MadeShowing;
    forall other: nat | ShownEnds(raw, defs, other) ensures Shown(raw, defs, other) == Shown(raw, defs, depth) {
      SameComposed(Resolve(raw, defs, {}), defs, depth, other);
    }
  }

  /** The calls of a call that ends within a depth end within one less. */
  lemma MadeEnd(c: Call, defs: Defs, depth: nat, d: Call)
    requires Ends(c, defs, depth) && d in Made(c, defs)
    ensures depth > 0 && Ends(d, defs, depth - 1)
  {
    hide Resolve, Compose, Described, Walked, SeenBelow;
    match c
    case Composing(n) =>
      hide WalkEnds;
      assert BranchesEnd(n.allOf, defs, depth - 1);
    case Walking(raw, seen) =>
      hide ComposeEnds;
      MadeShownAt(raw, seen, defs, depth - 1);
  }

  lemma {:induction false} ChainEnds(chain: seq<Call>, i: nat, j: nat, defs: Defs, depth: nat)
    requires IsChain(chain, defs) && i <= j < |chain| && Ends(chain[i], defs, depth)
    ensures depth >= j - i && Ends(chain[j], defs, depth - (j - i))
    decreases j - i
  {
    hide Ends, Made;
    if i < j {
      MadeEnd(chain[i], defs, depth, chain[i + 1]);
      ChainEnds(chain, i + 1, j, defs, depth - 1);
    }
  }

  lemma {:induction false} LoopNeverEnds(chain: seq<Call>, i: nat, defs: Defs, depth: nat)
    requires IsChain(chain, defs) && i < |chain| - 1 && chain[i] == chain[|chain| - 1]
    ensures !Ends(chain[i], defs, depth)
    decreases depth
  {
    hide Ends, Made;
    if Ends(chain[i], defs, depth) {
      ChainEnds(chain, i, |chain| - 1, defs, depth);
      LoopNeverEnds(chain, i, defs, depth - (|chain| - 1 - i));
    }
  }

  lemma WhatComesBackNeverEnds(c: Call, defs: Defs, depth: nat)
    requires ComesBack(c, defs)
    ensures !Ends(c, defs, depth)
  {
    hide Ends, Made, IsChain;
    var chain, i: nat :| ComesBackBy(c, chain, i, defs);
    if Ends(c, defs, depth) {
      ChainEnds(chain, 0, i, defs, depth);
      LoopNeverEnds(chain, i, defs, depth - i);
    }
  }

  // ----- what does not come back ends -----------------------------------------------------------

  lemma DeeperCallEnds(c: Call, defs: Defs, depth: nat, deeper: nat)
    requires Ends(c, defs, depth) && depth <= deeper
    ensures Ends(c, defs, deeper)
  {
    hide ComposeEnds, WalkEnds;
    match c
    case Composing(n) => DeeperEnds(n, defs, depth, deeper);
    case Walking(raw, seen) => DeeperWalkEnds(raw, seen, defs, depth, deeper);
  }

  ghost predicate EndsSomehow(c: Call, defs: Defs) { exists depth: nat :: Ends(c, defs, depth) }

  ghost predicate AllEnd(calls: set<Call>, defs: Defs, depth: nat) { forall c :: c in calls ==> Ends(c, defs, depth) }

  lemma {:induction false} CommonDepth(calls: set<Call>, defs: Defs) returns (depth: nat)
    requires forall c :: c in calls ==> EndsSomehow(c, defs)
    ensures AllEnd(calls, defs, depth)
    decreases calls
  {
    hide Ends;
    depth := 0;
    if calls != {} {
      var c :| c in calls;
      var own: nat :| Ends(c, defs, own);
      var others := CommonDepth(calls - {c}, defs);
      depth := if own < others then others else own;
      forall d | d in calls ensures Ends(d, defs, depth) {
        DeeperCallEnds(d, defs, if d == c then own else others, depth);
      }
    }
  }

  lemma EndsWhenMadeDo(c: Call, defs: Defs)
    requires forall d :: d in Made(c, defs) ==> EndsSomehow(d, defs)
    ensures EndsSomehow(c, defs)
  {
    hide Resolve, Compose, Described, Walked, SeenBelow, Ends;
    var depth := CommonDepth(Made(c, defs), defs);
    MadeAllEnd(c, defs, depth);
    assert Ends(c, defs, depth + 1);
  }

  lemma MadeAllEnd(c: Call, defs: Defs, depth: nat)
    requires AllEnd(Made(c, defs), defs, depth)
    ensures Ends(c, defs, depth + 1)
  {
    hide Resolve, Compose, Described, Walked, SeenBelow;
    match c
    case Composing(n) =>
      if n.Object? {
        forall b | b in n.allOf && IsComposing(b) ensures ComposeEnds(Resolve(b, defs, {}), defs, depth) {
          assert ComposingOf(b, defs) in Made(c, defs);
        }
        assert BranchesEnd(n.allOf, defs, depth);
      }
    case Walking(raw, seen) =>
      if !Stops(raw, seen) {
        hide ComposeEnds;
        assert ComposingOf(raw, defs) in Made(c, defs);
        MadeShownAt(raw, seen, defs, depth);
        var n, below := Shown(raw, defs, depth), SeenBelow(raw, seen);
        if n.Object? {
          forall k | k in Described(n) ensures ShownEnds(k, defs, depth) {
            assert ComposingOf(k, defs) in Made(c, defs);
          }
          forall k | k in Walked(n) ensures WalkEnds(k, below, defs, depth) {
            assert Walking(k, below) in Made(c, defs);
          }
        }
      }
  }

  ghost predicate IsClosed(calls: set<Call>, defs: Defs) { forall c :: c in calls ==> Made(c, defs) <= calls }

  /** In a finite set of calls, a chain can only go on to a call it does not hold. `left` are those. */
  lemma {:induction false} ChainEndsOrComesBack(chain: seq<Call>, calls: set<Call>, left: set<Call>, defs: Defs)
    requires IsClosed(calls, defs) && IsChain(chain, defs) && !ComesBack(chain[0], defs)
    requires chain[|chain| - 1] in calls && forall c :: c in calls && c !in chain ==> c in left
    ensures EndsSomehow(chain[|chain| - 1], defs)
    decreases left
  {
    hide Made, EndsSomehow;
    var last := chain[|chain| - 1];
    forall d | d in Made(last, defs) ensures EndsSomehow(d, defs) {
      var longer := chain + [d];
      LongerChain(chain, d, defs);
      NotHeld(chain, d, defs);
      ChainEndsOrComesBack(longer, calls, left - {d}, defs);
    }
    EndsWhenMadeDo(last, defs);
  }

  lemma NotHeld(chain: seq<Call>, d: Call, defs: Defs)
    requires IsChain(chain + [d], defs) && chain != [] && !ComesBack(chain[0], defs)
    ensures d !in chain
  {
    hide Made, IsChain;
    forall i: nat | i < |chain| ensures chain[i] != d {
      assert !ComesBackBy(chain[0], chain + [d], i, defs);
    }
  }

  lemma LongerChain(chain: seq<Call>, d: Call, defs: Defs)
    requires IsChain(chain, defs) && d in Made(chain[|chain| - 1], defs)
    ensures IsChain(chain + [d], defs)
  {
    hide Made;
  }

  // ----- the nodes of a document ----------------------------------------------------------------

  /** The nodes right inside a node. */
  ghost function Parts(n: Schema): (parts: set<Schema>)
    ensures forall p :: p in parts ==> p < n
  {
    if n.Other? then {}
    else
      (set p | p in n.properties :: p.node) + (set m | m in n.patterns) + {n.additional, n.items} + (set b | b in n.allOf)
  }

  /** A node and every node inside it. */
  ghost function Inside(n: Schema): (nodes: set<Schema>)
  {
    {n} + set p, m | p in Parts(n) && m in Inside(p) :: m
  }

  lemma {:induction false} PartsAreInside(n: Schema, m: Schema)
    requires m in Inside(n)
    ensures Parts(m) <= Inside(n)
  {
    hide Parts;
    if m == n {
      forall p | p in Parts(n) ensures p in Inside(n) { assert p in Inside(p); }
    } else {
      var p :| p in Parts(n) && m in Inside(p);
      PartsAreInside(p, m);
    }
  }

  /** Every node of `nodes` with its parts, and every target. */
  ghost predicate IsDocument(nodes: set<Schema>, defs: Defs)
  {
    (forall n :: n in nodes ==> Parts(n) <= nodes) && forall ref :: ref in defs ==> defs[ref] in nodes
  }

  /** The finite set of the nodes a walk from `start` can come to. */
  ghost function DocumentOf(start: Schema, defs: Defs): (nodes: set<Schema>)
  {
    Inside(start) + set ref, m | ref in defs && m in Inside(defs[ref]) :: m
  }

  lemma DocumentIs(start: Schema, defs: Defs)
    ensures start in DocumentOf(start, defs) && IsDocument(DocumentOf(start, defs), defs)
  {
    hide Parts;
    var nodes := DocumentOf(start, defs);
    forall n | n in nodes ensures Parts(n) <= nodes {
      if n in Inside(start) {
        PartsAreInside(start, n);
      } else {
        var ref :| ref in defs && n in Inside(defs[ref]);
        PartsAreInside(defs[ref], n);
      }
    }
    forall ref | ref in defs ensures defs[ref] in nodes { assert defs[ref] in Inside(defs[ref]); }
  }

  lemma {:induction false} ResolvedStays(n: Schema, defs: Defs, seen: set<string>, nodes: set<Schema>)
    requires IsDocument(nodes, defs) && n in nodes
    ensures Resolve(n, defs, seen) in nodes
    decreases defs.Keys - seen
  {
    hide Parts;
    if Refers(n, defs) && n.ref.value !in seen {
      ResolvedStays(defs[n.ref.value], defs, seen + {n.ref.value}, nodes);
    }
  }

  predicate AreIn(properties: seq<Property>, nodes: set<Schema>) { forall p :: p in properties ==> p.node in nodes }

  lemma {:induction false} MergedStay(properties: seq<Property>, more: seq<Property>, nodes: set<Schema>)
    requires AreIn(properties, nodes) && AreIn(more, nodes)
    ensures AreIn(Merge(properties, more), nodes)
    decreases |more|
  {
    hide HasName;
    if more != [] {
      MergedStay(if HasName(properties, more[0].name) then properties else properties + [more[0]], more[1..], nodes);
    }
  }

  lemma {:induction false} ComposedStays(n: Schema, defs: Defs, depth: nat, nodes: set<Schema>)
    requires ComposeEnds(n, defs, depth) && IsDocument(nodes, defs) && n in nodes
    ensures AreIn(PropertiesOf(Compose(n, defs, depth)), nodes)
    decreases depth, 0
  {
    hide IsDocument, Resolve;
    OwnStay(n, defs, nodes);
    if n.Object? { FoldedStay(n.properties, n.allOf, defs, depth - 1, nodes); }
  }

  lemma OwnStay(n: Schema, defs: Defs, nodes: set<Schema>)
    requires IsDocument(nodes, defs) && n in nodes
    ensures AreIn(PropertiesOf(n), nodes)
    ensures n.Object? ==> forall b :: b in n.allOf || b in n.patterns || b == n.additional || b == n.items ==> b in nodes
  {
    var parts := Parts(n);
    if n.Object? {
      forall b | b in n.allOf || b in n.patterns || b == n.additional || b == n.items ensures b in nodes { assert b in parts; }
      forall p | p in n.properties ensures p.node in nodes { assert p.node in parts; }
    }
  }

  lemma {:induction false} FoldedStay(properties: seq<Property>, branches: seq<Schema>, defs: Defs, depth: nat, nodes: set<Schema>)
    requires BranchesEnd(branches, defs, depth) && IsDocument(nodes, defs)
    requires AreIn(properties, nodes) && forall b :: b in branches ==> b in nodes
    ensures AreIn(FoldBranches(properties, branches, defs, depth), nodes)
    decreases depth, |branches| + 1
  {
    hide IsDocument, Compose, ComposeEnds, Resolve, AreIn;
    if branches != [] {
      var b := branches[0];
      if !IsComposing(b) {
        FoldedStay(properties, branches[1..], defs, depth, nodes);
      } else {
        ResolvedStays(b, defs, {}, nodes);
        ComposedStays(Resolve(b, defs, {}), defs, depth, nodes);
        var more := PropertiesOf(Compose(Resolve(b, defs, {}), defs, depth));
        MergedStay(properties, more, nodes);
        FoldedStay(Merge(properties, more), branches[1..], defs, depth, nodes);
      }
    }
  }

  lemma {:induction false} PropertyNodesStay(properties: seq<Property>, nodes: set<Schema>)
    requires AreIn(properties, nodes)
    ensures forall c :: c in PropertyNodes(properties) ==> c in nodes
  {
    if properties != [] { PropertyNodesStay(properties[1..], nodes); }
  }

  lemma WalkedStay(raw: Schema, defs: Defs, depth: nat, nodes: set<Schema>)
    requires ShownEnds(raw, defs, depth) && IsDocument(nodes, defs) && raw in nodes
    ensures var n := Shown(raw, defs, depth); n.Object? ==> forall c :: c in Walked(n) ==> c in nodes
  {
    hide IsDocument, Compose, ComposeEnds, Resolve, AreIn, PropertyNodes, HasName;
    ResolvedStays(raw, defs, {}, nodes);
    var resolved, n := Resolve(raw, defs, {}), Shown(raw, defs, depth);
    ComposedStays(resolved, defs, depth, nodes);
    OwnStay(resolved, defs, nodes);
    PropertyNodesStay(PropertiesOf(n), nodes);
  }

  /** Every call about these nodes and references. */
  ghost function CallsOn(nodes: set<Schema>, refs: set<string>): (calls: set<Call>)
  {
    (set n | n in nodes :: Composing(n)) + set raw, seen | raw in nodes && seen <= refs :: Walking(raw, seen)
  }

  ghost function RefsOf(nodes: set<Schema>): (refs: set<string>)
  {
    set n | n in nodes && n.Object? && n.ref.Some? :: n.ref.value
  }

  lemma MadeStay(c: Call, nodes: set<Schema>, refs: set<string>, defs: Defs)
    requires IsDocument(nodes, defs) && RefsOf(nodes) <= refs && c in CallsOn(nodes, refs)
    ensures Made(c, defs) <= CallsOn(nodes, refs)
  {
    hide IsDocument, MadeWalking, CallsOn;
    forall d | d in Made(c, defs) ensures d in CallsOn(nodes, refs) {
      AreOn(c, nodes, refs);
      match c
      case Composing(n) =>
        OwnStay(n, defs, nodes);
        var b :| b in n.allOf && d == ComposingOf(b, defs);
        ResolvedIsOn(b, nodes, refs, defs);
      case Walking(raw, seen) =>
        MadeWalkingStay(raw, seen, nodes, refs, defs, d);
    }
  }

  lemma AreOn(c: Call, nodes: set<Schema>, refs: set<string>)
    requires c in CallsOn(nodes, refs)
    ensures c.Composing? ==> c.n in nodes
    ensures c.Walking? ==> c.raw in nodes && c.seen <= refs
  {
  }

  lemma ResolvedIsOn(n: Schema, nodes: set<Schema>, refs: set<string>, defs: Defs)
    requires IsDocument(nodes, defs) && n in nodes
    ensures ComposingOf(n, defs) in CallsOn(nodes, refs)
  {
    hide IsDocument;
    ResolvedStays(n, defs, {}, nodes);
  }

  lemma BelowStays(raw: Schema, seen: set<string>, nodes: set<Schema>, refs: set<string>)
    requires RefsOf(nodes) <= refs && raw in nodes && seen <= refs
    ensures SeenBelow(raw, seen) <= refs
  {
    if raw.Object? && raw.ref.Some? { assert raw.ref.value in RefsOf(nodes); }
  }

  lemma MadeWalkingStay(raw: Schema, seen: set<string>, nodes: set<Schema>, refs: set<string>, defs: Defs, d: Call)
    requires IsDocument(nodes, defs) && RefsOf(nodes) <= refs && raw in nodes && seen <= refs
    requires d in MadeWalking(raw, seen, defs)
    ensures d in CallsOn(nodes, refs)
  {
    hide IsDocument, Compose, ComposeEnds, Resolve, Walked, Described, Shown, CallsOn, RefsOf;
    ResolvedIsOn(raw, nodes, refs, defs);
    if d != ComposingOf(raw, defs) {
      var depth: nat :| ShownEnds(raw, defs, depth);
      MadeShownAt(raw, seen, defs, depth);
      WalkedStay(raw, defs, depth, nodes);
      BelowStays(raw, seen, nodes, refs);
      ShowingStays(Shown(raw, defs, depth), SeenBelow(raw, seen), nodes, refs, defs, d);
    }
  }

  lemma ShowingStays(n: Schema, below: set<string>, nodes: set<Schema>, refs: set<string>, defs: Defs, d: Call)
    requires IsDocument(nodes, defs) && below <= refs && (n.Object? ==> forall c :: c in Walked(n) ==> c in nodes)
    requires d in MadeShowing(n, below, defs)
    ensures d in CallsOn(nodes, refs)
  {
    hide IsDocument, Resolve, Described;
    if c :| c in Described(n) && d == ComposingOf(c, defs) {
      assert c in Walked(n);
      ResolvedIsOn(c, nodes, refs, defs);
    }
  }

  /** Composing and walking end exactly when no call comes back to itself: to the same node, with nothing more seen. */
  lemma EndsExactlyWhen(c: Call, defs: Defs)
    ensures (exists depth: nat :: Ends(c, defs, depth)) <==> !ComesBack(c, defs)
  {
    hide Ends, Made, ComesBack, IsDocument, DocumentOf, CallsOn, RefsOf;
    if ComesBack(c, defs) {
      forall depth: nat ensures !Ends(c, defs, depth) { WhatComesBackNeverEnds(c, defs, depth); }
    } else {
      var start, seen := if c.Composing? then c.n else c.raw, if c.Composing? then {} else c.seen;
      var nodes := DocumentOf(start, defs);
      var refs := RefsOf(nodes) + seen;
      var calls := CallsOn(nodes, refs);
      DocumentIs(start, defs);
      IsOn(c, nodes, refs);
      forall d | d in calls ensures Made(d, defs) <= calls { MadeStay(d, nodes, refs, defs); }
      ChainEndsOrComesBack([c], calls, calls, defs);
    }
  }

  lemma IsOn(c: Call, nodes: set<Schema>, refs: set<string>)
    requires c.Composing? ==> c.n in nodes
    requires c.Walking? ==> c.raw in nodes && c.seen <= refs
    ensures c in CallsOn(nodes, refs)
  {
  }
}
