/** The bracket matcher of the text scanner: it counts one kind of bracket, and finds the true partner all the same. */
module Brackets {
  import opened JsTokens

  datatype Bracket = Round | Square | Curly

  function Opening(b: Bracket): (text: string) { match b case Round => "(" case Square => "[" case Curly => "{" }
  function Closing(b: Bracket): (text: string) { match b case Round => ")" case Square => "]" case Curly => "}" }

  predicate Opens(t: Token, b: Bracket) { t.kind == Punc && t.text == Opening(b) }
  predicate Closes(t: Token, b: Bracket) { t.kind == Punc && t.text == Closing(b) }

  /** Opening minus closing brackets of one kind. */
  function Net(tokens: seq<Token>, b: Bracket): (n: int)
  {
    if tokens == [] then 0
    else
      var last := tokens[|tokens| - 1];
      Net(tokens[..|tokens| - 1], b) + if Opens(last, b) then 1 else if Closes(last, b) then -1 else 0
  }

  /** A closing bracket at `i` that evens the count from `start` on. */
  predicate Evens(tokens: seq<Token>, start: nat, i: nat, b: Bracket)
    requires start <= i < |tokens|
  {
    Closes(tokens[i], b) && Net(tokens[start..i + 1], b) == 0
  }

  /** The first closing bracket that evens the count from `start` on, or the last token if there is none. */
  method Matching(tokens: seq<Token>, start: nat, b: Bracket) returns (r: nat)
    requires start < |tokens| && Opens(tokens[start], b)
    ensures IsMatch(tokens, start, b, r)
  {
    hide Opens, Closes;
    var depth := 0;
    var i := start;
    OpenNotClose(b);
    while i < |tokens|
      invariant start <= i <= |tokens| && depth == Net(tokens[start..i], b)
      invariant forall k :: start <= k < i ==> !Evens(tokens, start, k, b)
    {
      var t := tokens[i];
      assert tokens[start..i + 1][..i - start] == tokens[start..i];
      if Opens(t, b) {
        depth := depth + 1;
      } else if Closes(t, b) {
        depth := depth - 1;
        if depth == 0 { return i; }
      }
      i := i + 1;
    }
    r := |tokens| - 1;
  }

  lemma OpenNotClose(b: Bracket)
    ensures forall t :: Opens(t, b) ==> !Closes(t, b)
  {
  }

  // ----- properly nested tokens -----------------------------------------------------------------

  /** Properly nested code: plain tokens, and groups in brackets of three kinds. */
  datatype Item = Plain(token: Token) | Group(bracket: Bracket, opening: Token, inside: seq<Item>, closing: Token)

  predicate IsPlain(t: Token) { forall b :: !Opens(t, b) && !Closes(t, b) }

  predicate IsNested(item: Item)
  {
    match item
    case Plain(t) => IsPlain(t)
    case Group(b, o, inside, c) => Opens(o, b) && Closes(c, b) && AreNested(inside)
  }

  predicate AreNested(items: seq<Item>) { items == [] || (IsNested(items[0]) && AreNested(items[1..])) }

  function Flat(item: Item): (tokens: seq<Token>)
    ensures tokens != []
  {
    match item
    case Plain(t) => [t]
    case Group(_, o, inside, c) => [o] + FlatAll(inside) + [c]
  }

  function FlatAll(items: seq<Item>): (tokens: seq<Token>)
  {
    if items == [] then [] else Flat(items[0]) + FlatAll(items[1..])
  }

  /** The count never drops below zero inside, and is even at the end. */
  predicate IsNeutral(tokens: seq<Token>, b: Bracket)
  {
    Net(tokens, b) == 0 && forall i :: 0 <= i <= |tokens| ==> Net(tokens[..i], b) >= 0
  }

  lemma {:induction false} NetConcat(s: seq<Token>, t: seq<Token>, b: Bracket)
    ensures Net(s + t, b) == Net(s, b) + Net(t, b)
    decreases |t|
  {
    hide Opens, Closes;
    if t == [] {
      assert s + t == s;
    } else {
      assert (s + t)[..|s + t| - 1] == s + t[..|t| - 1];
      NetConcat(s, t[..|t| - 1], b);
    }
  }

  lemma NeutralConcat(s: seq<Token>, t: seq<Token>, b: Bracket)
    requires IsNeutral(s, b) && IsNeutral(t, b)
    ensures IsNeutral(s + t, b)
  {
    hide Net;
    NetConcat(s, t, b);
    var st := s + t;
    forall i | 0 <= i <= |st| ensures Net(st[..i], b) >= 0 {
      if i <= |s| {
        assert st[..i] == s[..i];
      } else {
        assert st[..i] == s + t[..i - |s|];
        NetConcat(s, t[..i - |s|], b);
      }
    }
  }

  lemma NetOfOne(t: Token, b: Bracket)
    ensures Net([t], b) == if Opens(t, b) then 1 else if Closes(t, b) then -1 else 0
  {
    assert [t][..0] == [];
  }

  lemma OneKind(t: Token, b: Bracket, other: Bracket)
    requires b != other && (Opens(t, b) || Closes(t, b))
    ensures !Opens(t, other) && !Closes(t, other)
  {
  }

  /** Brackets around a neutral inside, of any kind, are neutral for every kind. */
  lemma GroupIsNeutral(o: Token, inside: seq<Token>, c: Token, kind: Bracket, b: Bracket)
    requires Opens(o, kind) && Closes(c, kind) && IsNeutral(inside, b)
    ensures IsNeutral([o] + inside + [c], b)
    ensures kind == b ==> forall i :: 0 < i <= |inside| + 1 ==> Net(([o] + inside + [c])[..i], b) > 0
  {
    hide Opens, Closes, Net;
    NetOfOne(o, b);
    NetOfOne(c, b);
    OpenNotClose(b);
    if kind != b {
      OneKind(o, kind, b);
      OneKind(c, kind, b);
    }
    var all := [o] + inside + [c];
    NetConcat([o], inside, b);
    NetConcat([o] + inside, [c], b);
    forall i | 0 <= i <= |all| ensures Net(all[..i], b) >= (if kind == b && 0 < i <= |inside| + 1 then 1 else 0) {
      if i == 0 {
        NetOfNone(b);
        assert all[..i] == [];
      } else if i <= |inside| + 1 {
        assert all[..i] == [o] + inside[..i - 1];
        NetConcat([o], inside[..i - 1], b);
      } else {
        assert all[..i] == all;
      }
    }
  }

  lemma NetOfNone(b: Bracket)
    ensures Net([], b) == 0
  {
  }

  lemma {:induction false} NestedIsNeutral(item: Item, b: Bracket)
    requires IsNested(item)
    ensures IsNeutral(Flat(item), b)
    decreases item, 1
  {
    hide Opens, Closes;
    match item
    case Plain(t) =>
      NetOfOne(t, b);
      var one := [t];
      assert one[..0] == [] && one[..1] == one;
    case Group(kind, o, inside, c) =>
      AllNestedIsNeutral(inside, b);
      GroupIsNeutral(o, FlatAll(inside), c, kind, b);
  }

  lemma {:induction false} AllNestedIsNeutral(items: seq<Item>, b: Bracket)
    requires AreNested(items)
    ensures IsNeutral(FlatAll(items), b)
    decreases items, 0
  {
    hide IsNested, Flat;
    if items == [] {
      var none: seq<Token> := [];
      assert none[..0] == none;
    } else {
      NestedIsNeutral(items[0], b);
      AllNestedIsNeutral(items[1..], b);
      NeutralConcat(Flat(items[0]), FlatAll(items[1..]), b);
    }
  }

  /** In any token list, at the opening bracket of a properly nested group, its own closing bracket is the first to even
      the count. */
  lemma PartnerEvensFirst(before: seq<Token>, group: Item, after: seq<Token>)
    requires group.Group? && IsNested(group)
    ensures var tokens := before + Flat(group) + after;
            var (start, partner) := (|before|, |before| + |Flat(group)| - 1);
      && Opens(tokens[start], group.bracket) && tokens[partner] == group.closing
      && Evens(tokens, start, partner, group.bracket)
      && forall i :: start <= i < partner ==> !Evens(tokens, start, i, group.bracket)
  {
    hide Opens, Closes, Net;
    var b, flat := group.bracket, Flat(group);
    var tokens, start := before + flat + after, |before|;
    AllNestedIsNeutral(group.inside, b);
    GroupIsNeutral(group.opening, FlatAll(group.inside), group.closing, b, b);
    assert tokens[start..start + |flat|] == flat;
    forall i | start <= i < start + |flat| - 1 ensures !Evens(tokens, start, i, b) {
      assert tokens[start..i + 1] == flat[..i + 1 - start];
    }
  }

  /** What the matcher promises of its result. */
  predicate IsMatch(tokens: seq<Token>, start: nat, b: Bracket, r: nat)
  {
    && start <= r < |tokens| && (Evens(tokens, start, r, b) || r == |tokens| - 1)
    && forall i :: start <= i < r ==> !Evens(tokens, start, i, b)
  }

  /** So whatever stands around a properly nested group, the matcher's result at its opening bracket is its partner. */
  lemma MatchIsPartner(before: seq<Token>, group: Item, after: seq<Token>, r: nat)
    requires group.Group? && IsNested(group) && IsMatch(before + Flat(group) + after, |before|, group.bracket, r)
    ensures r == |before| + |Flat(group)| - 1 && (before + Flat(group) + after)[r] == group.closing
  {
    hide Opens, Evens, IsNested;
    PartnerEvensFirst(before, group, after);
  }
}
