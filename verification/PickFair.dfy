/** Round-robin selection over files, so that a trimmed kind keeps every file represented. */
module PickFair {
  import opened Wrappers

  /** An accepted question. */
  datatype Item = Item(kind: string, file: string, question: string, quotes: seq<string>)

  /** The items of one file, in order. */
  function OfFile(items: seq<Item>, file: string): (r: seq<Item>)
  {
    if items == [] then []
    else
      var last := items[|items| - 1];
      OfFile(items[..|items| - 1], file) + if last.file == file then [last] else []
  }

  lemma OfFileGrows(items: seq<Item>, x: Item, file: string)
    ensures OfFile(items + [x], file) == OfFile(items, file) + if x.file == file then [x] else []
  {
    assert (items + [x])[..|items|] == items;
  }

  /** The items of all queues together. */
  function All(queues: seq<seq<Item>>): (m: multiset<Item>)
  {
    if queues == [] then multiset{} else All(queues[..|queues| - 1]) + multiset(queues[|queues| - 1])
  }

  lemma {:induction false} AllUpdate(queues: seq<seq<Item>>, i: nat, q: seq<Item>)
    requires i < |queues|
    ensures All(queues[i := q]) + multiset(queues[i]) == All(queues) + multiset(q)
    decreases |queues|
  {
    var n := |queues| - 1;
    if i == n {
      assert queues[i := q][..n] == queues[..n];
    } else {
      assert queues[i := q][..n] == queues[..n][i := q] && queues[i := q][n] == queues[n];
      AllUpdate(queues[..n], i, q);
      var before, after, last := All(queues[..n]), All(queues[..n][i := q]), multiset(queues[n]);
      assert (after + last) + multiset(queues[i]) == (after + multiset(queues[i])) + last;
      assert (before + multiset(q)) + last == (before + last) + multiset(q);
    }
  }

  lemma AllGrows(queues: seq<seq<Item>>, q: seq<Item>)
    ensures All(queues + [q]) == All(queues) + multiset(q)
  {
    assert (queues + [q])[..|queues|] == queues;
  }

  lemma {:induction false} AllEmpty(queues: seq<seq<Item>>)
    requires forall i :: 0 <= i < |queues| ==> queues[i] == []
    ensures All(queues) == multiset{}
  {
    if queues != [] { AllEmpty(queues[..|queues| - 1]); }
  }

  predicate AreDistinct(files: seq<string>) { forall i, j :: 0 <= i < j < |files| ==> files[i] != files[j] }

  /** The files in the order of their first item, and one queue for each: `byFile` of the code. */
  predicate IsGrouping(items: seq<Item>, files: seq<string>, queues: seq<seq<Item>>)
  {
    && |files| == |queues|
    && AreDistinct(files)
    && (forall i :: 0 <= i < |files| ==> queues[i] == OfFile(items, files[i]) && queues[i] != [])
    && (forall k :: 0 <= k < |items| ==> items[k].file in files)
    && All(queues) == multiset(items)
  }

  lemma CancelMultiset(a: multiset<Item>, b: multiset<Item>, c: multiset<Item>)
    requires a + c == b + c
    ensures a == b
  {
    assert a == (a + c) - c && b == (b + c) - c;
  }

  lemma AppendToQueue(items: seq<Item>, files: seq<string>, queues: seq<seq<Item>>, x: Item, at: nat)
    requires IsGrouping(items, files, queues) && at < |files| && files[at] == x.file
    ensures IsGrouping(items + [x], files, queues[at := queues[at] + [x]])
  {
    hide OfFile, All;
    var more := queues[at := queues[at] + [x]];
    forall i | 0 <= i < |files| ensures more[i] == OfFile(items + [x], files[i]) {
      OfFileGrows(items, x, files[i]);
    }
    AllUpdate(queues, at, queues[at] + [x]);
    var all, mine := All(more), multiset(queues[at]);
    assert multiset(queues[at] + [x]) == mine + multiset{x};
    assert all + mine == All(queues) + (mine + multiset{x}) == (All(queues) + multiset{x}) + mine;
    CancelMultiset(all, All(queues) + multiset{x}, mine);
    assert multiset(items + [x]) == multiset(items) + multiset{x};
  }

  lemma {:induction false} OfFileIsEmpty(items: seq<Item>, file: string)
    requires forall k :: 0 <= k < |items| ==> items[k].file != file
    ensures OfFile(items, file) == []
  {
    if items != [] { OfFileIsEmpty(items[..|items| - 1], file); }
  }

  lemma AddQueue(items: seq<Item>, files: seq<string>, queues: seq<seq<Item>>, x: Item)
    requires IsGrouping(items, files, queues) && x.file !in files
    ensures IsGrouping(items + [x], files + [x.file], queues + [[x]])
  {
    hide OfFile, All;
    var names, more := files + [x.file], queues + [[x]];
    forall k | 0 <= k < |items| ensures items[k].file != x.file {
      assert items[k].file in files;
    }
    OfFileIsEmpty(items, x.file);
    forall i | 0 <= i < |names| ensures more[i] == OfFile(items + [x], names[i]) {
      OfFileGrows(items, x, names[i]);
    }
    AllGrows(queues, [x]);
    assert multiset(items + [x]) == multiset(items) + multiset{x};
  }

  method GroupByFile(items: seq<Item>) returns (files: seq<string>, queues: seq<seq<Item>>)
    ensures IsGrouping(items, files, queues)
  {
    files, queues := [], [];
    for k := 0 to |items|
      invariant IsGrouping(items[..k], files, queues)
    {
      var x := items[k];
      assert items[..k + 1] == items[..k] + [x];
      if x.file in files {
        var at :| 0 <= at < |files| && files[at] == x.file;
        AppendToQueue(items[..k], files, queues, x, at);
        hide IsGrouping;
        queues := queues[at := queues[at] + [x]];
      } else {
        AddQueue(items[..k], files, queues, x);
        hide IsGrouping;
        files, queues := files + [x.file], queues + [[x]];
      }
    }
    assert items[..|items|] == items;
  }

  /** `out` is a fair pick: as many as asked for, whole prefixes of each file's items, and no file ahead of
      another by more than one unless that other has nothing left. */
  predicate IsFairPick(items: seq<Item>, quota: nat, out: seq<Item>)
  {
    && |out| == Min(quota, |items|)
    && multiset(out) <= multiset(items)
    && (forall k :: 0 <= k < |items| ==> OfFile(out, items[k].file) <= OfFile(items, items[k].file))
    && (forall k, l :: 0 <= k < |items| && 0 <= l < |items| ==>
          |OfFile(out, items[k].file)| <= |OfFile(out, items[l].file)| + 1
          || OfFile(out, items[l].file) == OfFile(items, items[l].file))
  }

  /** After `r` whole turns and `i` files of the next: every file has given its items of those turns. */
  predicate IsTurn(items: seq<Item>, files: seq<string>, queues: seq<seq<Item>>, out: seq<Item>, r: nat, i: nat)
  {
    && |queues| == |files|
    && forall j :: 0 <= j < |files| ==>
         HasGiven(OfFile(out, files[j]), queues[j], OfFile(items, files[j]), if j < i then r + 1 else r)
  }

  /** A file gave its first `turns` items, or all of them, and the others wait. */
  predicate HasGiven(given: seq<Item>, waiting: seq<Item>, all: seq<Item>, turns: nat)
  {
    given + waiting == all && |given| == Min(turns, |all|)
  }

  lemma GiveOne(given: seq<Item>, waiting: seq<Item>, all: seq<Item>, turns: nat)
    requires HasGiven(given, waiting, all, turns)
    ensures if waiting == [] then HasGiven(given, waiting, all, turns + 1)
            else HasGiven(given + [waiting[0]], waiting[1..], all, turns + 1)
  {
    if waiting != [] {
      assert waiting == [waiting[0]] + waiting[1..];
      assert (given + [waiting[0]]) + waiting[1..] == given + waiting;
    }
  }

  lemma TakeFirst(items: seq<Item>, files: seq<string>, queues: seq<seq<Item>>, out: seq<Item>, r: nat, i: nat)
    requires IsTurn(items, files, queues, out, r, i) && i < |files|
    requires AreDistinct(files)
    requires queues[i] != [] ==> queues[i][0].file == files[i]
    ensures queues[i] == [] ==> IsTurn(items, files, queues, out, r, i + 1)
    ensures queues[i] != [] ==> IsTurn(items, files, queues[i := queues[i][1..]], out + [queues[i][0]], r, i + 1)
  {
    hide OfFile, HasGiven;
    GiveOne(OfFile(out, files[i]), queues[i], OfFile(items, files[i]), r);
    if queues[i] != [] {
      var x := queues[i][0];
      var left := queues[i := queues[i][1..]];
      forall j | 0 <= j < |files|
        ensures HasGiven(OfFile(out + [x], files[j]), left[j], OfFile(items, files[j]), if j < i + 1 then r + 1 else r)
      {
        OfFileGrows(out, x, files[j]);
        assert OfFile(out, files[j]) + [] == OfFile(out, files[j]);
      }
    }
  }

  lemma {:induction false} OfFileMembers(items: seq<Item>, file: string)
    ensures forall k :: 0 <= k < |OfFile(items, file)| ==> OfFile(items, file)[k].file == file
    ensures |OfFile(items, file)| <= |items|
  {
    if items != [] { OfFileMembers(items[..|items| - 1], file); }
  }

  lemma HeadOfQueue(items: seq<Item>, files: seq<string>, queues: seq<seq<Item>>, out: seq<Item>, r: nat, i: nat, j: nat)
    requires IsTurn(items, files, queues, out, r, i) && j < |files|
    ensures queues[j] != [] ==> queues[j][0].file == files[j] && r < |items|
  {
    hide OfFile;
    OfFileMembers(items, files[j]);
    if queues[j] != [] {
      var n := |OfFile(out, files[j])|;
      assert OfFile(items, files[j])[n] == (OfFile(out, files[j]) + queues[j])[n] == queues[j][0];
    }
  }

  lemma MoveItem(queues: seq<seq<Item>>, out: seq<Item>, i: nat, items: seq<Item>)
    requires i < |queues| && queues[i] != [] && multiset(out) + All(queues) == multiset(items)
    ensures multiset(out + [queues[i][0]]) + All(queues[i := queues[i][1..]]) == multiset(items)
  {
    hide All;
    var x, rest := queues[i][0], multiset(queues[i][1..]);
    var more := queues[i := queues[i][1..]];
    AllUpdate(queues, i, queues[i][1..]);
    assert queues[i] == [x] + queues[i][1..];
    assert multiset(queues[i]) == multiset{x} + rest;
    assert All(more) + multiset{x} + rest == All(more) + (multiset{x} + rest) == All(queues) + rest;
    CancelMultiset(All(more) + multiset{x}, All(queues), rest);
    assert multiset(out + [x]) == multiset(out) + multiset{x};
  }

  lemma FairFiles(items: seq<Item>, files: seq<string>, queues: seq<seq<Item>>, out: seq<Item>, r: nat, i: nat, f: string, g: string)
    requires IsTurn(items, files, queues, out, r, i) && f in files && g in files
    ensures OfFile(out, f) <= OfFile(items, f)
    ensures |OfFile(out, f)| <= |OfFile(out, g)| + 1 || OfFile(out, g) == OfFile(items, g)
  {
    hide OfFile;
    var a :| 0 <= a < |files| && files[a] == f;
    var b :| 0 <= b < |files| && files[b] == g;
    assert OfFile(out, f) + queues[a] == OfFile(items, f) && OfFile(out, g) + queues[b] == OfFile(items, g);
  }

  lemma FinalTurn(items: seq<Item>, files: seq<string>, queues: seq<seq<Item>>, out: seq<Item>, r: nat, i: nat, quota: nat)
    requires IsTurn(items, files, queues, out, r, i)
    requires forall k :: 0 <= k < |items| ==> items[k].file in files
    requires |out| <= quota && multiset(out) + All(queues) == multiset(items)
    requires |out| == quota || forall j :: 0 <= j < |queues| ==> queues[j] == []
    ensures IsFairPick(items, quota, out)
  {
    if |out| < quota { AllEmpty(queues); }
    hide OfFile, All, IsTurn;
    assert |multiset(out)| <= |multiset(items)|;
    forall k, l | 0 <= k < |items| && 0 <= l < |items|
      ensures OfFile(out, items[k].file) <= OfFile(items, items[k].file)
      ensures |OfFile(out, items[k].file)| <= |OfFile(out, items[l].file)| + 1
              || OfFile(out, items[l].file) == OfFile(items, items[l].file)
    {
      FairFiles(items, files, queues, out, r, i, items[k].file, items[l].file);
    }
    forall k | 0 <= k < |items|
      ensures OfFile(out, items[k].file) <= OfFile(items, items[k].file)
    {
      FairFiles(items, files, queues, out, r, i, items[k].file, items[k].file);
    }
  }

  /** The pick of the code: one item of each file in turn, until there are `quota` or nothing is left. */
  method PickFair(accepted: seq<Item>, quota: nat) returns (out: seq<Item>)
    ensures IsFairPick(accepted, quota, out)
  {
    hide OfFile, All;
    var files, queues := GroupByFile(accepted);
    out := [];
    var i := 0;
    ghost var r := 0;
    StartTurn(accepted, files, queues);
    while |out| < quota && exists q :: q in queues && q != []
      invariant IsTurn(accepted, files, queues, out, r, i) && (i < |files| || files == [])
      invariant |out| <= quota && multiset(out) + All(queues) == multiset(accepted)
      decreases |accepted| - r, |files| - i
    {
      ghost var j :| 0 <= j < |queues| && queues[j] != [];
      HeadOfQueue(accepted, files, queues, out, r, i, j);
      HeadOfQueue(accepted, files, queues, out, r, i, i);
      TakeFirst(accepted, files, queues, out, r, i);
      if queues[i] != [] {
        MoveItem(queues, out, i, accepted);
        out, queues := out + [queues[i][0]], queues[i := queues[i][1..]];
      }
      i := if i + 1 == |files| then 0 else i + 1;
      if i == 0 { r := r + 1; }
    }
    assert forall k :: 0 <= k < |queues| ==> queues[k] in queues;
    FinalTurn(accepted, files, queues, out, r, i, quota);
  }

  lemma StartTurn(items: seq<Item>, files: seq<string>, queues: seq<seq<Item>>)
    requires IsGrouping(items, files, queues)
    ensures IsTurn(items, files, queues, [], 0, 0)
  {
  }
}
