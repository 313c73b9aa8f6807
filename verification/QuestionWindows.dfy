/** Planning: the windows of text the model is asked about, and their shares. */
module QuestionWindows {
  import opened Text
  import opened QuestionSchema
  import opened QuestionLog
  import opened Wrappers
  import Apportionment

  const PARAGRAPH := "\n\n"
  const WINDOW_CHARS_SINGLE := 12000
  const WINDOW_CHARS_MULTIHOP := 40000

  datatype Window = Window(kind: string, file: string, text: string, share: real, accepted: nat, asked: seq<string>)

  function NotBlank(pieces: seq<string>): (r: seq<string>)
  {
    if pieces == [] then []
    else
      var last := pieces[|pieces| - 1];
      NotBlank(pieces[..|pieces| - 1]) + if Trim(last) != "" then [last] else []
  }

  /** The last occurrence of `t` in `s` at or before `from`, or -1. */
  function LastIndexOf(s: string, t: string, from: int): (r: int)
    ensures r >= 0 ==> r <= from && OccursAt(s, t, r)
    ensures forall i :: r < i <= from ==> !OccursAt(s, t, i)
    ensures r >= -1
    decreases if from < 0 then 0 else from + 1
  {
    if from < 0 then -1 else if OccursAt(s, t, from) then from else LastIndexOf(s, t, from - 1)
  }

  /** A cut at `start + length` that is not the end of the text: at the last paragraph break of the window's
      second half, or after a full window when there is none. */
  predicate IsCut(text: string, start: nat, length: nat, size: nat)
  {
    && start + size < |text| && 2 * length > size && length <= size
    && (forall i :: start + length < i <= start + size ==> !OccursAt(text, PARAGRAPH, i))
    && (OccursAt(text, PARAGRAPH, start + length) ||
        (length == size && forall i :: start <= i <= start + size && 2 * (i - start) > size ==> !OccursAt(text, PARAGRAPH, i)))
  }

  predicate IsPiece(text: string, size: nat, start: nat, length: nat)
  {
    0 < length <= size && (start + length == |text| || IsCut(text, start, length, size))
  }

  /** `pieces` is `text` cut into parts of at most `size` characters, at paragraph breaks where it can. */
  predicate IsSplit(text: string, size: nat, pieces: seq<string>)
  {
    Concat(pieces) == text && ArePieces(text, size, pieces)
  }

  predicate ArePieces(text: string, size: nat, pieces: seq<string>)
  {
    forall k :: 0 <= k < |pieces| ==> IsPiece(text, size, |Concat(pieces[..k])|, |pieces[k]|)
  }

  lemma ConcatGrows(pieces: seq<string>, p: string)
    ensures Concat(pieces + [p]) == Concat(pieces) + p
    ensures NotBlank(pieces + [p]) == NotBlank(pieces) + if Trim(p) != "" then [p] else []
  {
    assert (pieces + [p])[..|pieces|] == pieces;
  }

  /** Where the window that starts at `start` ends. */
  function CutEnd(text: string, start: nat, size: nat): (end: nat)
    requires size > 0 && start < |text|
    ensures start < end <= |text| && IsPiece(text, size, start, end - start)
  {
    if start + size >= |text| then |text|
    else
      var para := LastIndexOf(text, PARAGRAPH, start + size);
      if 2 * (para - start) > size then para else start + size
  }

  lemma PiecesGrow(text: string, size: nat, pieces: seq<string>, w: string)
    requires size > 0 && IsPiece(text, size, |Concat(pieces)|, |w|) && ArePieces(text, size, pieces)
    ensures ArePieces(text, size, pieces + [w])
  {
    hide IsPiece;
    var more := pieces + [w];
    forall k | 0 <= k < |more| ensures IsPiece(text, size, |Concat(more[..k])|, |more[k]|) {
      assert more[..k] == if k < |pieces| then pieces[..k] else pieces;
    }
  }

  /** The parts of the text from `start` on. */
  function Pieces(text: string, size: nat, start: nat): (pieces: seq<string>)
    requires size > 0
    decreases |text| - start
  {
    if start >= |text| then []
    else
      var end := CutEnd(text, start, size);
      [text[start..end]] + Pieces(text, size, end)
  }

  lemma {:induction false} PiecesFrom(text: string, size: nat, start: nat, before: seq<string>)
    requires size > 0 && start <= |text| && Concat(before) == text[..start] && ArePieces(text, size, before)
    ensures IsSplit(text, size, before + Pieces(text, size, start))
    decreases |text| - start
  {
    hide IsPiece, CutEnd, Concat, ArePieces, NotBlank;
    if start == |text| {
      assert before + [] == before && text[..start] == text;
    } else {
      var end := CutEnd(text, start, size);
      var w := text[start..end];
      ConcatGrows(before, w);
      PiecesGrow(text, size, before, w);
      assert text[..end] == text[..start] + w;
      PiecesFrom(text, size, end, before + [w]);
      assert before + ([w] + Pieces(text, size, end)) == (before + [w]) + Pieces(text, size, end);
    }
  }

  /** The parts are the whole text, each cut where the code cuts. */
  lemma PiecesAreSplit(text: string, size: nat)
    requires size > 0
    ensures IsSplit(text, size, Pieces(text, size, 0))
  {
    EmptyConcat();
    PiecesFrom(text, size, 0, []);
    assert [] + Pieces(text, size, 0) == Pieces(text, size, 0);
  }

  lemma {:induction false} NotBlankFirst(p: string, pieces: seq<string>)
    ensures NotBlank([p] + pieces) == (if Trim(p) != "" then [p] else []) + NotBlank(pieces)
    decreases |pieces|
  {
    hide Trim;
    var all := [p] + pieces;
    if pieces == [] {
      assert all[..0] == [] && all == [p];
    } else {
      assert all[..|all| - 1] == [p] + pieces[..|pieces| - 1];
      NotBlankFirst(p, pieces[..|pieces| - 1]);
    }
  }

  /** Splits a text into windows; the blank parts are dropped, nothing else is lost or repeated. */
  method SplitWindows(text: string, size: nat) returns (windows: seq<string>)
    requires size > 0
    ensures windows == NotBlank(Pieces(text, size, 0)) && IsSplit(text, size, Pieces(text, size, 0))
  {
    hide Trim, IsPiece, CutEnd, Concat, NotBlank, IsSplit;
    windows := [];
    var start := 0;
    PiecesAreSplit(text, size);
    while start < |text|
      invariant start <= |text| && windows + NotBlank(Pieces(text, size, start)) == NotBlank(Pieces(text, size, 0))
    {
      var end := CutEnd(text, start, size);
      var w := text[start..end];
      NotBlankFirst(w, Pieces(text, size, end));
      if Trim(w) != "" {
        windows := windows + [w];
      }
      start := end;
    }
    NothingLeft(windows);
  }

  lemma NothingLeft(windows: seq<string>)
    ensures windows + NotBlank([]) == windows
  {
  }

  lemma EmptyConcat()
    ensures Concat([]) == ""
  {
  }

  // ----- shares ---------------------------------------------------------------------------------

  lemma {:induction false} NotBlankHasText(pieces: seq<string>)
    ensures forall k :: 0 <= k < |NotBlank(pieces)| ==> NotBlank(pieces)[k] != ""
  {
    if pieces != [] { NotBlankHasText(pieces[..|pieces| - 1]); }
  }

  function Texts(windows: seq<Window>): (total: nat)
  {
    if windows == [] then 0 else Texts(windows[..|windows| - 1]) + |windows[|windows| - 1].text|
  }

  predicate IsFresh(docs: seq<Doc>, kind: string, w: Window)
  {
    && w.kind == kind && w.text != "" && w.accepted == 0 && w.asked == []
    && exists d :: d in docs && d.file == w.file && CanSupply(d, kind)
  }

  /** What the plan of one kind guarantees: each window is text of a file that can supply the kind. */
  ghost predicate IsPlan(docs: seq<Doc>, kind: string, windows: seq<Window>)
  {
    forall i :: 0 <= i < |windows| ==>
      && windows[i].kind == kind && windows[i].share > 0.0 && Supplies(docs, kind, windows[i].file)
  }

  function SizeFor(kind: string): (size: nat)
    ensures size > 0
  {
    if kind == "multihop" then WINDOW_CHARS_MULTIHOP else WINDOW_CHARS_SINGLE
  }

  /** The windows of one file: every part of its text that is not blank, in order. */
  function WindowsOf(d: Doc, kind: string): (windows: seq<Window>)
  {
    var texts := NotBlank(Pieces(d.text, SizeFor(kind), 0));
    seq(|texts|, i requires 0 <= i < |texts| => Window(kind, d.file, texts[i], 0.0, 0, []))
  }

  /** The windows of every file that can supply the kind, in order. */
  function PoolOf(docs: seq<Doc>, kind: string): (windows: seq<Window>)
  {
    if docs == [] then []
    else
      var last := docs[|docs| - 1];
      PoolOf(docs[..|docs| - 1], kind) + if CanSupply(last, kind) then WindowsOf(last, kind) else []
  }

  /** Some file can supply the kind. */
  predicate HasSource(docs: seq<Doc>, kind: string) { exists d :: d in docs && CanSupply(d, kind) }

  lemma {:induction false} PoolIsFresh(docs: seq<Doc>, kind: string)
    ensures forall w :: w in PoolOf(docs, kind) ==> IsFresh(docs, kind, w)
  {
    hide CanSupply, NotBlank, Pieces;
    if docs != [] {
      var (before, last) := (docs[..|docs| - 1], docs[|docs| - 1]);
      assert docs == before + [last];
      PoolIsFresh(before, kind);
      NotBlankHasText(Pieces(last.text, SizeFor(kind), 0));
    }
  }

  lemma {:induction false} NoSourceNoPool(docs: seq<Doc>, kind: string)
    ensures !HasSource(docs, kind) ==> PoolOf(docs, kind) == []
  {
    hide CanSupply, WindowsOf;
    if docs != [] {
      assert docs == docs[..|docs| - 1] + [docs[|docs| - 1]];
      NoSourceNoPool(docs[..|docs| - 1], kind);
    }
  }

  lemma BlankParts(a: string, b: string)
    ensures IsBlank(a + b) <==> IsBlank(a) && IsBlank(b)
  {
    hide IsSpace;
    assert forall i :: 0 <= i < |a| ==> (a + b)[i] == a[i];
    assert forall i :: 0 <= i < |b| ==> (a + b)[|a| + i] == b[i];
  }

  /** No part of a text is kept exactly when the whole is blank. */
  lemma {:induction false} NothingKept(pieces: seq<string>)
    ensures NotBlank(pieces) == [] <==> IsBlank(Concat(pieces))
  {
    hide Trim, IsBlank;
    if pieces == [] {
      NothingIsBlank();
    } else {
      NothingKept(pieces[..|pieces| - 1]);
      TrimBlank(pieces[|pieces| - 1]);
      BlankParts(Concat(pieces[..|pieces| - 1]), pieces[|pieces| - 1]);
    }
  }

  /** Every file that can supply the kind has only white space in it. */
  predicate HasOnlyBlanks(docs: seq<Doc>, kind: string) { forall d :: d in docs && CanSupply(d, kind) ==> IsBlank(d.text) }

  /** There is nothing to ask about exactly when all the text is blank. */
  lemma {:induction false} PoolIsEmpty(docs: seq<Doc>, kind: string)
    ensures PoolOf(docs, kind) == [] <==> HasOnlyBlanks(docs, kind)
  {
    hide CanSupply, NotBlank, Pieces, IsBlank, IsPiece, Concat;
    if docs != [] {
      var (before, last) := (docs[..|docs| - 1], docs[|docs| - 1]);
      assert docs == before + [last];
      PoolIsEmpty(before, kind);
      PiecesAreSplit(last.text, SizeFor(kind));
      NothingKept(Pieces(last.text, SizeFor(kind), 0));
    }
  }

  /** The planned windows of one kind, with their shares of all the text. */
  function PlanOf(docs: seq<Doc>, kind: string): (windows: seq<Window>)
  {
    PoolHasText(docs, kind);
    WithShares(PoolOf(docs, kind))
  }

  lemma PoolHasText(docs: seq<Doc>, kind: string)
    ensures PoolOf(docs, kind) != [] ==> Texts(PoolOf(docs, kind)) > 0
  {
    hide Texts, PoolOf;
    var pool := PoolOf(docs, kind);
    PoolIsFresh(docs, kind);
    forall i | 0 <= i < |pool| ensures pool[i].text != "" { assert IsFresh(docs, kind, pool[i]); }
    TextsArePositive(pool);
  }

  /** The plan is text of files that can supply the kind, nothing of it accepted yet, and the shares are the whole. */
  lemma PlanIsPlan(docs: seq<Doc>, kind: string)
    ensures var windows := PlanOf(docs, kind);
      && IsPlan(docs, kind, windows) && (forall w :: w in windows ==> w.accepted == 0 && w.asked == [])
      && (windows != [] ==> Apportionment.Total(Shares(windows)) == 1.0)
  {
    hide CanSupply, Texts, PoolOf;
    var pool := PoolOf(docs, kind);
    PoolIsFresh(docs, kind);
    PoolHasText(docs, kind);
    forall i | 0 <= i < |pool| ensures IsFresh(docs, kind, pool[i]) { assert pool[i] in pool; }
    if pool != [] { AllShares(pool); }
  }

  /** The windows of every file that can supply the kind, in order, before their shares are known. */
  method Pool(docs: seq<Doc>, kind: string) returns (pool: bool, windows: seq<Window>)
    ensures pool <==> HasSource(docs, kind)
    ensures windows == PoolOf(docs, kind)
  {
    hide CanSupply, NotBlank, Pieces;
    pool, windows := false, [];
    for k := 0 to |docs|
      invariant pool <==> HasSource(docs[..k], kind)
      invariant windows == PoolOf(docs[..k], kind)
    {
      var d := docs[k];
      assert docs[..k + 1] == docs[..k] + [d] && docs[..k + 1][..k] == docs[..k];
      if CanSupply(d, kind) {
        pool := true;
        var texts := SplitWindows(d.text, SizeFor(kind));
        windows := windows + seq(|texts|, i requires 0 <= i < |texts| => Window(kind, d.file, texts[i], 0.0, 0, []));
      }
    }
    assert docs[..|docs|] == docs;
  }

  /** The windows of one kind; `None` when no file can supply it (the code throws). */
  method PlanKind(docs: seq<Doc>, kind: string) returns (r: Option<seq<Window>>)
    ensures r == if HasSource(docs, kind) then Some(PlanOf(docs, kind)) else None
    ensures r.Some? ==> IsPlan(docs, kind, r.value)
    ensures r.Some? && r.value != [] ==> Apportionment.Total(Shares(r.value)) == 1.0
  {
    hide CanSupply, Texts, PoolOf, IsPlan;
    var pool, windows := Pool(docs, kind);
    if !pool {
      return None;
    }
    PoolHasText(docs, kind);
    PlanIsPlan(docs, kind);
    r := Some(WithShares(windows));
  }

  lemma AllShares(windows: seq<Window>)
    requires Texts(windows) > 0
    ensures Apportionment.Total(Shares(WithShares(windows))) == 1.0
  {
    var s, n := Shares(WithShares(windows)), |windows|;
    assert s[..n] == s && windows[..n] == windows;
    SharesAddUp(windows, n);
    OneWhole(Texts(windows));
  }

  lemma OneWhole(n: nat)
    requires n > 0
    ensures n as real / n as real == 1.0
  {
  }

  function WithShares(windows: seq<Window>): (r: seq<Window>)
    requires windows == [] || Texts(windows) > 0
  {
    var total := Texts(windows);
    seq(|windows|, i requires 0 <= i < |windows| => windows[i].(share := |windows[i].text| as real / total as real))
  }

  function Shares(windows: seq<Window>): (s: seq<real>)
  {
    seq(|windows|, i requires 0 <= i < |windows| => windows[i].share)
  }

  lemma {:induction false} SharesAddUp(windows: seq<Window>, k: nat)
    requires Texts(windows) > 0 && k <= |windows|
    ensures Apportionment.Total(Shares(WithShares(windows))[..k]) == Texts(windows[..k]) as real / Texts(windows) as real
    decreases k
  {
    if k > 0 {
      SharesAddUp(windows, k - 1);
      var s := Shares(WithShares(windows));
      assert s[..k][..k - 1] == s[..k - 1] && windows[..k][..k - 1] == windows[..k - 1];
      AddFractions(Texts(windows[..k - 1]), |windows[k - 1].text|, Texts(windows));
    }
  }

  lemma AddFractions(a: nat, b: nat, total: nat)
    requires total > 0
    ensures a as real / total as real + b as real / total as real == (a + b) as real / total as real
  {
  }

  lemma {:induction false} TextsArePositive(windows: seq<Window>)
    requires forall i :: 0 <= i < |windows| ==> windows[i].text != ""
    ensures windows != [] ==> Texts(windows) > 0
  {
    if |windows| > 1 { TextsArePositive(windows[..|windows| - 1]); }
  }

  /** The weights a request is split by: fresh windows first. */
  function Weights(windows: seq<Window>): (w: seq<real>)
    ensures |w| == |windows|
  {
    seq(|windows|, i requires 0 <= i < |windows| => windows[i].share / (1 + windows[i].accepted) as real)
  }

  lemma {:induction false} PositiveTotal(w: seq<real>)
    requires forall i :: 0 <= i < |w| ==> w[i] > 0.0
    ensures w != [] ==> Apportionment.Total(w) > 0.0
  {
    if |w| > 1 {
      PositiveTotal(w[..|w| - 1]);
    } else if |w| == 1 {
      assert w[..0] == [];
    }
  }

  lemma WeightsAreWeights(docs: seq<Doc>, kind: string, windows: seq<Window>)
    requires IsPlan(docs, kind, windows) && windows != []
    ensures Apportionment.AreWeights(Weights(windows))
  {
    PositiveTotal(Weights(windows));
  }

  // ----- what the windows of a plan are ---------------------------------------------------------

  lemma {:induction false} NotBlankAre(pieces: seq<string>)
    ensures forall p :: p in NotBlank(pieces) <==> p in pieces && !IsBlank(p)
  {
    hide Trim, IsBlank;
    if pieces != [] {
      var (before, last) := (pieces[..|pieces| - 1], pieces[|pieces| - 1]);
      NotBlankAre(before);
      TrimBlank(last);
      assert pieces == before + [last];
    }
  }

  /** Fresh windows of a file, with these texts. */
  predicate AreWindowsOf(windows: seq<Window>, file: string, kind: string, texts: seq<string>)
  {
    |windows| == |texts| && forall i :: 0 <= i < |windows| ==> windows[i] == Window(kind, file, texts[i], 0.0, 0, [])
  }

  /** A file's windows are the parts that are not blank of a split of its text, into at most 40000 characters for multihop
      questions and 12000 for others. */
  lemma FileWindows(d: Doc, kind: string) returns (pieces: seq<string>)
    ensures IsSplit(d.text, if kind == "multihop" then 40000 else 12000, pieces)
    ensures AreWindowsOf(WindowsOf(d, kind), d.file, kind, NotBlank(pieces))
    ensures forall p :: p in NotBlank(pieces) <==> p in pieces && !IsBlank(p)
  {
    hide NotBlank, Pieces, IsSplit, IsBlank;
    pieces := Pieces(d.text, SizeFor(kind), 0);
    PiecesAreSplit(d.text, SizeFor(kind));
    NotBlankAre(pieces);
  }

  /** The windows of a kind are those of the files that can supply it, one file after another. */
  lemma PoolGrows(docs: seq<Doc>, d: Doc, kind: string)
    ensures PoolOf(docs + [d], kind)
         == PoolOf(docs, kind)
            + if (if kind == "multihop" then d.kind in ["markdown", "pdf"] else d.kind == kind) then WindowsOf(d, kind) else []
    ensures PoolOf([], kind) == []
  {
    hide WindowsOf;
    assert (docs + [d])[..|docs|] == docs;
  }

  /** A window's share is the part its text is of all. */
  lemma SharesAreParts(windows: seq<Window>)
    requires windows == [] || Texts(windows) > 0
    ensures |WithShares(windows)| == |windows|
    ensures forall i :: 0 <= i < |windows| ==>
      var w := WithShares(windows)[i];
      w == windows[i].(share := w.share) && w.share * Texts(windows) as real == |w.text| as real
  {
    hide Texts;
    forall i | 0 <= i < |windows|
      ensures WithShares(windows)[i].share * Texts(windows) as real == |windows[i].text| as real
    {
      PartOf(|windows[i].text| as real, Texts(windows) as real);
    }
  }

  lemma PartOf(x: real, y: real)
    requires y > 0.0
    ensures x / y * y == x
  {
  }
}
