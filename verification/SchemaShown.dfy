/** What is shown for a node: where its references lead, and whose properties it has. */
module SchemaShown {
  import opened SchemaWalk
  import opened Wrappers

  /** `n` is what is shown for `raw`: it resolved and composed. */
  ghost predicate Shows(raw: Schema, n: Schema, defs: Defs)
  {
    exists depth: nat :: ShownEnds(raw, defs, depth) && Shown(raw, defs, depth) == n
  }

  lemma OneShown(raw: Schema, n: Schema, defs: Defs, depth: nat)
    requires ShownEnds(raw, defs, depth) && Shows(raw, n, defs)
    ensures n == Shown(raw, defs, depth)
  {
    hide ComposeEnds, Compose, Resolve;
    var other: nat :| ShownEnds(raw, defs, other) && Shown(raw, defs, other) == n;
    SameComposed(Resolve(raw, defs, {}), defs, depth, other);
  }

  // ----- where references lead ------------------------------------------------------------------

  predicate IsFollowed(chain: seq<Schema>, defs: Defs)
  {
    chain != [] && forall i :: 0 <= i < |chain| - 1 ==> Refers(chain[i], defs) && chain[i + 1] == defs[chain[i].ref.value]
  }

  /** No reference of the chain before its end is in `seen` or there twice. */
  predicate AreNew(chain: seq<Schema>, seen: set<string>, defs: Defs)
    requires IsFollowed(chain, defs)
  {
    forall i :: 0 <= i < |chain| - 1 ==>
      chain[i].ref.value !in seen && forall j :: 0 <= j < i ==> chain[j].ref.value != chain[i].ref.value
  }

  /** Resolving follows the references from one target to the next, as far as there is a target and the reference is new. */
  lemma {:induction false} ResolveFollows(n: Schema, defs: Defs, seen: set<string>) returns (chain: seq<Schema>)
    ensures IsFollowed(chain, defs) && AreNew(chain, seen, defs)
    ensures chain[0] == n && chain[|chain| - 1] == Resolve(n, defs, seen)
    ensures var last := chain[|chain| - 1];
      Refers(last, defs) ==> last.ref.value in seen || exists j :: 0 <= j < |chain| - 1 && chain[j].ref == last.ref
    decreases defs.Keys - seen
  {
    if !Refers(n, defs) || n.ref.value in seen {
      chain := [n];
    } else {
      var ref := n.ref.value;
      var rest := ResolveFollows(defs[ref], defs, seen + {ref});
      chain := [n] + rest;
      forall i | 0 <= i < |chain| - 1 ensures Refers(chain[i], defs) && chain[i + 1] == defs[chain[i].ref.value] {
        if i > 0 { assert chain[i] == rest[i - 1]; }
      }
      forall i | 0 <= i < |chain| - 1
        ensures chain[i].ref.value !in seen && forall j :: 0 <= j < i ==> chain[j].ref.value != chain[i].ref.value
      {
        if i > 0 {
          assert chain[i] == rest[i - 1];
          forall j | 0 <= j < i ensures chain[j].ref.value != chain[i].ref.value { if j > 0 { assert chain[j] == rest[j - 1]; } }
        }
      }
      var last := rest[|rest| - 1];
      if Refers(last, defs) && last.ref.value !in seen {
        if last.ref.value == ref {
          assert chain[0].ref == last.ref;
        } else {
          var j :| 0 <= j < |rest| - 1 && rest[j].ref == last.ref;
          assert chain[j + 1].ref == last.ref;
        }
      }
    }
  }

  // ----- whose properties -----------------------------------------------------------------------

  /** The first property of that name. */
  function Find(properties: seq<Property>, name: string): (node: Option<Schema>)
  {
    if properties == [] then None
    else if properties[0].name == name then Some(properties[0].node)
    else Find(properties[1..], name)
  }

  /** A composing branch shows a property of that name. */
  ghost predicate Gives(b: Schema, name: string, node: Schema, defs: Defs)
  {
    b.Object? && !b.conditional && exists n :: Shows(b, n, defs) && Find(PropertiesOf(n), name) == Some(node)
  }

  /** The first branch that shows a property of that name. */
  ghost predicate GivesFirst(branches: seq<Schema>, i: nat, name: string, node: Schema, defs: Defs)
  {
    && i < |branches| && Gives(branches[i], name, node, defs)
    && forall j, other :: 0 <= j < i ==> !Gives(branches[j], name, other, defs)
  }

  ghost predicate NoneGives(branches: seq<Schema>, name: string, defs: Defs)
  {
    forall b, node :: b in branches ==> !Gives(b, name, node, defs)
  }

  lemma {:induction false} FindConcat(a: seq<Property>, b: seq<Property>, name: string)
    ensures Find(a + b, name) == if Find(a, name).Some? then Find(a, name) else Find(b, name)
  {
    if a == [] {
      assert a + b == b;
    } else {
      assert (a + b)[1..] == a[1..] + b;
      FindConcat(a[1..], b, name);
    }
  }

  lemma {:induction false} FindsNamed(properties: seq<Property>, name: string)
    ensures Find(properties, name).Some? <==> HasName(properties, name)
  {
    if properties != [] {
      FindsNamed(properties[1..], name);
      if HasName(properties, name) && properties[0].name != name {
        var i :| 0 <= i < |properties| && properties[i].name == name;
        assert properties[1..][i - 1].name == name;
      }
      if HasName(properties[1..], name) {
        var i :| 0 <= i < |properties[1..]| && properties[1..][i].name == name;
        assert properties[i + 1].name == name;
      }
    }
  }

  lemma {:induction false} MergeFinds(properties: seq<Property>, more: seq<Property>, name: string)
    ensures Find(Merge(properties, more), name)
         == if Find(properties, name).Some? then Find(properties, name) else Find(more, name)
    decreases |more|
  {
    hide HasName;
    if more != [] {
      FindsNamed(properties, more[0].name);
      FindConcat(properties, [more[0]], name);
      MergeFinds(if HasName(properties, more[0].name) then properties else properties + [more[0]], more[1..], name);
    }
  }

  lemma ShowsWhatIsShown(b: Schema, defs: Defs, depth: nat, name: string)
    requires ShownEnds(b, defs, depth) && IsComposing(b)
    ensures forall node :: Gives(b, name, node, defs) <==> Find(PropertiesOf(Shown(b, defs, depth)), name) == Some(node)
  {
    hide ShownEnds, Shown, Find;
    assert Shows(b, Shown(b, defs, depth), defs);
    forall node | Gives(b, name, node, defs) ensures Find(PropertiesOf(Shown(b, defs, depth)), name) == Some(node) {
      var n :| Shows(b, n, defs) && Find(PropertiesOf(n), name) == Some(node);
      OneShown(b, n, defs, depth);
    }
  }

  /** What folding the branches in finds: what was there, or else what the first branch gives that gives anything. */
  lemma {:induction false} FoldFinds(properties: seq<Property>, branches: seq<Schema>, defs: Defs, depth: nat, name: string)
    requires BranchesEnd(branches, defs, depth)
    ensures var found := Find(FoldBranches(properties, branches, defs, depth), name);
      && (Find(properties, name).Some? ==> found == Find(properties, name))
      && (Find(properties, name).None? && found.Some? ==> exists i: nat :: GivesFirst(branches, i, name, found.value, defs))
      && (found.None? ==> NoneGives(branches, name, defs))
    decreases |branches|
  {
    hide Find, Gives, IsComposing, Compose, ComposeEnds, Resolve;
    if branches != [] {
      var (b, rest) := (branches[0], branches[1..]);
      if !IsComposing(b) {
        NotComposing(b, name, defs);
        FoldFinds(properties, rest, defs, depth, name);
        FirstOfRest(branches, name, defs, Find(FoldBranches(properties, rest, defs, depth), name));
      } else {
        var shown := Compose(Resolve(b, defs, {}), defs, depth);
        assert shown == Shown(b, defs, depth);
        var merged := Merge(properties, PropertiesOf(shown));
        MergeFinds(properties, PropertiesOf(shown), name);
        ShowsWhatIsShown(b, defs, depth, name);
        FoldFinds(merged, rest, defs, depth, name);
        var own := Find(PropertiesOf(shown), name);
        if Find(properties, name).None? && own.Some? {
          assert GivesFirst(branches, 0, name, own.value, defs);
        } else if own.None? {
          FirstOfRest(branches, name, defs, Find(FoldBranches(merged, rest, defs, depth), name));
        }
      }
    }
  }

  lemma NotComposing(b: Schema, name: string, defs: Defs)
    requires !IsComposing(b)
    ensures forall node :: !Gives(b, name, node, defs)
  {
  }

  lemma FirstOfRest(branches: seq<Schema>, name: string, defs: Defs, found: Option<Schema>)
    requires branches != [] && forall node :: !Gives(branches[0], name, node, defs)
    ensures found.Some? && (exists i: nat :: GivesFirst(branches[1..], i, name, found.value, defs)) ==>
              exists i: nat :: GivesFirst(branches, i, name, found.value, defs)
    ensures NoneGives(branches[1..], name, defs) ==> NoneGives(branches, name, defs)
  {
    hide Gives;
    if found.Some? && exists i: nat :: GivesFirst(branches[1..], i, name, found.value, defs) {
      var i: nat :| GivesFirst(branches[1..], i, name, found.value, defs);
      forall j, other | 0 <= j < i + 1 ensures !Gives(branches[j], name, other, defs) {
        if j > 0 { assert branches[j] == branches[1..][j - 1]; }
      }
      assert GivesFirst(branches, i + 1, name, found.value, defs);
    }
    if NoneGives(branches[1..], name, defs) {
      forall b, node | b in branches ensures !Gives(b, name, node, defs) {
        if b != branches[0] { assert b in branches[1..]; }
      }
    }
  }

  /** Whose property a composed node shows under a name: its own before all others, else that of the first composing
      branch that shows one, and none only where none does. */
  lemma ComposeFinds(n: Schema, defs: Defs, depth: nat, name: string)
    requires n.Object? && ComposeEnds(n, defs, depth)
    ensures var found := Find(PropertiesOf(Compose(n, defs, depth)), name);
      && (Find(n.properties, name).Some? ==> found == Find(n.properties, name))
      && (Find(n.properties, name).None? && found.Some? ==> exists i: nat :: GivesFirst(n.allOf, i, name, found.value, defs))
      && (found.None? ==> NoneGives(n.allOf, name, defs))
  {
    hide Find, Gives, Resolve;
    if forall b :: b in n.allOf ==> !IsComposing(b) {
      forall b, node | b in n.allOf ensures !Gives(b, name, node, defs) { NotComposing(b, name, defs); }
    } else {
      FoldFinds(n.properties, n.allOf, defs, depth - 1, name);
    }
  }

  // ----- each name once -------------------------------------------------------------------------

  predicate AreNamedApart(properties: seq<Property>)
  {
    forall i, j :: 0 <= i < j < |properties| ==> properties[i].name != properties[j].name
  }

  lemma {:induction false} MergedApart(properties: seq<Property>, more: seq<Property>)
    requires AreNamedApart(properties)
    ensures AreNamedApart(Merge(properties, more))
    decreases |more|
  {
    if more != [] {
      MergedApart(if HasName(properties, more[0].name) then properties else properties + [more[0]], more[1..]);
    }
  }

  lemma {:induction false} FoldedApart(properties: seq<Property>, branches: seq<Schema>, defs: Defs, depth: nat)
    requires BranchesEnd(branches, defs, depth) && AreNamedApart(properties)
    ensures AreNamedApart(FoldBranches(properties, branches, defs, depth))
    decreases |branches|
  {
    hide AreNamedApart, IsComposing, Compose, ComposeEnds, Resolve;
    if branches != [] {
      var (b, rest) := (branches[0], branches[1..]);
      if !IsComposing(b) {
        FoldedApart(properties, rest, defs, depth);
      } else {
        var more := PropertiesOf(Compose(Resolve(b, defs, {}), defs, depth));
        MergedApart(properties, more);
        FoldedApart(Merge(properties, more), rest, defs, depth);
      }
    }
  }

  /** A node whose properties have different names shows properties of different names. */
  lemma ComposedApart(n: Schema, defs: Defs, depth: nat)
    requires n.Object? && ComposeEnds(n, defs, depth) && AreNamedApart(n.properties)
    ensures AreNamedApart(PropertiesOf(Compose(n, defs, depth)))
  {
    hide AreNamedApart, Resolve;
    if exists b :: b in n.allOf && IsComposing(b) { FoldedApart(n.properties, n.allOf, defs, depth - 1); }
  }
}
