/** The checks a candidate question passes before it is accepted, and what they remember. */
module QuestionVerifier {
  import opened Text
  import opened QuestionSchema
  import opened Wrappers

  const MIN_QUOTE_CHARS := 20
  const MULTIHOP_MIN_GAP := 400

  /** Unicode normalisation, and the step from a normalised text to its bare words. Both are fixed,
      deterministic functions; nothing more is known of them. */
  datatype Words = Words(normalise: Normalise, bare: string -> string)

  function BareWords(ops: Words, text: string): (r: string) { ops.bare(ops.normalise(text)) }

  /** The bare words of three characters or more. */
  function QuestionTokens(ops: Words, question: string): (tokens: set<string>)
  {
    set w | w in Split(BareWords(ops, question), ' ') && |w| >= 3
  }

  /** A question's words, which its similarity counts, are what stands between spaces in its bare text and is longer than
      two characters. */
  lemma TokensStand(ops: Words, question: string, w: string)
    ensures w in QuestionTokens(ops, question) <==> |w| > 2 && exists i: nat :: StandsAt(BareWords(ops, question), ' ', w, i)
  {
    hide StandsAt;
    var text := BareWords(ops, question);
    SplitStands(text, ' ', w);
    var parts := Split(text, ' ');
    assert parts == [parts[0]] + parts[1..];
  }

  /** At least four of five words of either question are words of both. */
  predicate AreSimilar(a: set<string>, b: set<string>) { |a * b| * 5 >= |a + b| * 4 }

  lemma OneMore(a: set<string>, b: set<string>, rest: set<string>, t: string)
    requires rest <= a && t in rest
    ensures |(a - (rest - {t})) * b| == |(a - rest) * b| + if t in b then 1 else 0
  {
    assert (a - (rest - {t})) * b == (a - rest) * b + if t in b then {t} else {};
    assert t !in (a - rest) * b;
  }

  /** How many words of `a` are in `b`. */
  method Common(a: set<string>, b: set<string>) returns (common: nat)
    ensures common == |a * b|
  {
    common := 0;
    var rest := a;
    while rest != {}
      invariant rest <= a && common == |(a - rest) * b|
      decreases |rest|
    {
      var t :| t in rest;
      OneMore(a, b, rest, t);
      if t in b { common := common + 1; }
      rest := rest - {t};
    }
    assert (a - rest) * b == a * b;
  }

  /** `similarity(a, b)`: the shared words over all words. */
  method Similarity(a: set<string>, b: set<string>) returns (s: real)
    ensures s >= 0.8 <==> AreSimilar(a, b)
  {
    var common := Common(a, b);
    SharedWords(a, b);
    var union := |a| + |b| - common;
    s := if union == 0 then 1.0 else common as real / union as real;
    if union > 0 { FourFifths(common, union); }
  }

  lemma FourFifths(common: nat, union: nat)
    requires union > 0
    ensures common as real / union as real >= 0.8 <==> common * 5 >= union * 4
  {
    QuotientIsAtLeast(common as real, union as real);
    assert (common * 5) as real == common as real * 5.0 && (union * 4) as real == union as real * 4.0;
  }

  lemma SharedWords(a: set<string>, b: set<string>)
    ensures |a + b| == |a| + |b| - |a * b| && |a * b| <= |a + b|
  {
    assert a + b == a * b + (a + b - a * b);
  }

  lemma QuotientIsAtLeast(x: real, y: real)
    requires y > 0.0
    ensures x / y >= 0.8 <==> x * 5.0 >= y * 4.0
  {
    var q := x / y;
    assert x == q * y;
    if q >= 0.8 { ScaleUp(q, 0.8, y); } else { ScaleUp(0.8, q, y); StrictlyLess(q, 0.8, y); }
  }

  lemma ScaleUp(p: real, q: real, y: real)
    requires p >= q && y >= 0.0
    ensures p * y >= q * y
  {
  }

  lemma StrictlyLess(p: real, q: real, y: real)
    requires p < q && y > 0.0
    ensures p * y < q * y
  {
  }

  /** What identifies the quotes of a question: their file and their normalised texts, in any order. */
  datatype QuoteKey = QuoteKey(file: string, quotes: multiset<string>)

  datatype Seen = Seen(tokens: set<string>, quoteKey: QuoteKey)

  datatype Reason =
    | Malformed | QuoteCount | QuoteTooLong | QuoteTooShort | MarkupInScannedQuote | QuoteNotFound
    | QuoteInOtherFile | QuestionContainsQuote | QuotesSamePassage | DuplicateQuotes | DuplicateQuestion
    | CallFailed | UnparseableResponse

  datatype Verdict = Accepted(question: string, quotes: seq<string>) | Rejected(reason: Reason)

  /** `t` occurs somewhere in `s`. */
  ghost predicate Stands(s: string, t: string) { exists at :: OccursAt(s, t, at) }

  /** `t` occurs in `s` at `at` for the first time. */
  ghost predicate IsFirst(s: string, t: string, at: nat)
  {
    OccursAt(s, t, at) && forall i :: 0 <= i < at ==> !OccursAt(s, t, i)
  }

  /** A quote a question may have: of moderate length, without markup where its file is a scan, in the text of its file
      and of no other, and not given away by the question. */
  ghost predicate IsQuotable(ops: Words, norm: map<string, string>, kind: string, file: string, question: string, quote: string)
    requires file in norm
  {
    var q := ops.normalise(quote);
    && |quote| <= 300 && 20 <= |q|
    && (kind == "scanned" ==> forall c :: c in "*`[]|#<>" ==> c !in quote)
    && Stands(norm[file], q) && (forall other :: other in norm && other != file ==> !Stands(norm[other], q))
    && !Stands(BareWords(ops, question), BareWords(ops, quote))
  }

  /** Two texts whose first occurrences are at least 400 characters apart. */
  ghost predicate AreFarApart(s: string, t: string, u: string)
  {
    exists a: nat, b: nat :: IsFirst(s, t, a) && IsFirst(s, u, b) && (a + |t| + 400 <= b || b + |u| + 400 <= a)
  }

  /** `SCANNED_MARKUP.test(quote)`. */
  predicate HasMarkup(quote: string) { exists i :: 0 <= i < |quote| && quote[i] in "*`[]|#<>" }

  datatype Span = Span(start: int, end: int)

  /** The strings of an array of strings; `None` for any other value. */
  function Strings(j: Json): (r: Option<seq<string>>)
  {
    if j.Array? && (forall i :: 0 <= i < |j.items| ==> j.items[i].Str?)
    then Some(seq(|j.items|, i requires 0 <= i < |j.items| => j.items[i].s))
    else None
  }

  function Trimmed(quotes: seq<string>): (r: seq<string>)
    ensures |r| == |quotes| && forall i :: 0 <= i < |r| ==> IsTrimmed(r[i]) && r[i] == Trim(quotes[i])
  {
    assert forall i :: 0 <= i < |quotes| ==> IsTrimmed(Trim(quotes[i])) by {
      forall i | 0 <= i < |quotes| ensures IsTrimmed(Trim(quotes[i])) { TrimParts(quotes[i]); }
    }
    seq(|quotes|, i requires 0 <= i < |quotes| => Trim(quotes[i]))
  }

  function CleanQuestion(question: string): (r: string) { Collapse(Trim(question)) }

  function QuoteTotal(kind: string): (n: nat) { if kind == "multihop" then 2 else 1 }

  /** Why one quote is rejected, if it is. */
  function QuoteFault(ops: Words, norm: map<string, string>, kind: string, file: string, question: string, quote: string):
      (r: Option<Reason>)
    requires file in norm
    ensures r.None? <==> IsQuotable(ops, norm, kind, file, question, quote)
    ensures r == Some(QuoteNotFound) ==> !Stands(norm[file], ops.normalise(quote))
    ensures r.None? ==> SpanOf(ops, norm, file, quote).start >= 0
  {
    hide BareWords;
    var q := ops.normalise(quote);
    if |quote| > MAX_QUOTE_CHARS then Some(Reason.QuoteTooLong)
    else if |q| < MIN_QUOTE_CHARS then Some(QuoteTooShort)
    else if kind == "scanned" && HasMarkup(quote) then Some(MarkupInScannedQuote)
    else if !Includes(norm[file], q) then Some(QuoteNotFound)
    else if exists other :: other in norm && other != file && Includes(norm[other], q) then Some(QuoteInOtherFile)
    else if Includes(BareWords(ops, question), BareWords(ops, quote)) then Some(QuestionContainsQuote)
    else None
  }

  function SpanOf(ops: Words, norm: map<string, string>, file: string, quote: string): (s: Span)
    requires file in norm
  {
    var at := IndexOf(norm[file], ops.normalise(quote));
    Span(at, at + |ops.normalise(quote)|)
  }

  /** The two spans of a multihop question lie too close together. */
  predicate SamePassage(a: Span, b: Span)
  {
    if b.start < a.start then a.start - b.end < MULTIHOP_MIN_GAP else b.start - a.end < MULTIHOP_MIN_GAP
  }

  lemma FarApartSpans(ops: Words, norm: map<string, string>, file: string, a: string, b: string)
    requires file in norm && SpanOf(ops, norm, file, a).start >= 0 && SpanOf(ops, norm, file, b).start >= 0
    ensures !SamePassage(SpanOf(ops, norm, file, a), SpanOf(ops, norm, file, b))
            <==> AreFarApart(norm[file], ops.normalise(a), ops.normalise(b))
  {
    var (s, t, u) := (norm[file], ops.normalise(a), ops.normalise(b));
    var (i, j) := (IndexOf(s, t), IndexOf(s, u));
    assert IsFirst(s, t, i) && IsFirst(s, u, j);
    forall k: nat, l: nat | IsFirst(s, t, k) && IsFirst(s, u, l) ensures k == i && l == j {
      assert !(k < i) && !(i < k) && !(l < j) && !(j < l);
    }
  }

  function KeyOf(ops: Words, file: string, quotes: seq<string>): (k: QuoteKey)
  {
    QuoteKey(file, multiset(seq(|quotes|, i requires 0 <= i < |quotes| => ops.normalise(quotes[i]))))
  }

  /** Whether a candidate clashes with one accepted before. */
  predicate Clashes(earlier: Seen, later: Seen)
  {
    earlier.quoteKey == later.quoteKey || AreSimilar(earlier.tokens, later.tokens)
  }

  function SeenOf(ops: Words, file: string, question: string, quotes: seq<string>): (s: Seen)
  {
    Seen(QuestionTokens(ops, question), KeyOf(ops, file, quotes))
  }

  // ----- what acceptance means ------------------------------------------------------------------

  /** The candidate is an object with a question string and an array of quote strings. */
  predicate IsWellFormed(candidate: Json)
  {
    GetString(candidate, "question").Some? && Get(candidate, "quotes").Some? && Strings(Get(candidate, "quotes").value).Some?
  }

  /** Everything a question needs by itself, whatever was accepted before it. */
  ghost predicate IsGrounded(ops: Words, norm: map<string, string>, kind: string, file: string, question: string, quotes: seq<string>)
    requires file in norm
  {
    && |question| >= 10 && |quotes| == QuoteTotal(kind)
    && (forall i :: 0 <= i < |quotes| ==> IsQuotable(ops, norm, kind, file, question, quotes[i]))
    && (kind == "multihop" ==> AreFarApart(norm[file], ops.normalise(quotes[0]), ops.normalise(quotes[1])))
  }

  ghost predicate IsNew(seen: seq<Seen>, s: Seen)
  {
    forall i :: 0 <= i < |seen| ==> !Clashes(seen[i], s)
  }

  /** The verifier: the normalised texts by file, and what was accepted so far. */
  class Verifier {
    const ops: Words
    const norm: map<string, string>
    var seen: seq<Seen>

    constructor (ops: Words, texts: map<string, string>)
      ensures this.ops == ops && seen == []
      ensures norm.Keys == texts.Keys && forall f :: f in texts ==> norm[f] == ops.normalise(texts[f])
    {
      this.ops := ops;
      norm := map f | f in texts :: ops.normalise(texts[f]);
      seen := [];
    }

    /** Why an entry clashes with one accepted before, if it does. */
    method FindClash(entry: Seen) returns (clash: Option<Reason>)
      ensures clash.None? <==> IsNew(seen, entry)
      ensures clash.Some? ==> clash.value == DuplicateQuotes || clash.value == Reason.DuplicateQuestion
    {
      hide AreSimilar;
      for i := 0 to |seen|
        invariant forall k :: 0 <= k < i ==> !Clashes(seen[k], entry)
      {
        if seen[i].quoteKey == entry.quoteKey {
          assert Clashes(seen[i], entry);
          return Some(DuplicateQuotes);
        }
        var similarity := Similarity(seen[i].tokens, entry.tokens);
        if similarity >= 0.8 {
          assert Clashes(seen[i], entry);
          return Some(Reason.DuplicateQuestion);
        }
      }
      clash := None;
    }

    /** Accepts exactly the well-formed, grounded and new candidates; only an acceptance is remembered. */
    method Verify(candidate: Json, kind: string, file: string) returns (v: Verdict)
      requires file in norm
      modifies this`seen
      ensures v.Accepted? <==>
              && IsWellFormed(candidate)
              && var question := CleanQuestion(GetString(candidate, "question").value);
                 var quotes := Trimmed(Strings(Get(candidate, "quotes").value).value);
              && IsGrounded(ops, norm, kind, file, question, quotes)
              && IsNew(old(seen), SeenOf(ops, file, question, quotes))
      ensures v.Accepted? ==>
              && v.question == CleanQuestion(GetString(candidate, "question").value)
              && v.quotes == Trimmed(Strings(Get(candidate, "quotes").value).value)
              && seen == old(seen) + [SeenOf(ops, file, v.question, v.quotes)]
      ensures v.Rejected? ==> seen == old(seen) && v.reason != CallFailed && v.reason != UnparseableResponse
    {
      hide Trim, Collapse, BareWords, QuestionTokens, IsNew, IsQuotable, AreFarApart, SamePassage, Stands, SpanOf;
      if GetString(candidate, "question").None? || Get(candidate, "quotes").None? || !Get(candidate, "quotes").value.Array? {
        return Rejected(Malformed);
      }
      var strings := Strings(Get(candidate, "quotes").value);
      if strings.None? {
        return Rejected(Malformed);
      }
      var question := CleanQuestion(GetString(candidate, "question").value);
      var quotes := Trimmed(strings.value);
      if |question| < 10 {
        return Rejected(Malformed);
      }
      if |quotes| != QuoteTotal(kind) {
        return Rejected(QuoteCount);
      }
      var spans := [];
      for i := 0 to |quotes|
        invariant |spans| == i
        invariant forall k :: 0 <= k < i ==>
                    && IsQuotable(ops, norm, kind, file, question, quotes[k])
                    && spans[k] == SpanOf(ops, norm, file, quotes[k]) && spans[k].start >= 0
      {
        var fault := QuoteFault(ops, norm, kind, file, question, quotes[i]);
        if fault.Some? {
          return Rejected(fault.value);
        }
        spans := spans + [SpanOf(ops, norm, file, quotes[i])];
      }
      if kind == "multihop" { FarApartSpans(ops, norm, file, quotes[0], quotes[1]); }
      if kind == "multihop" && SamePassage(spans[0], spans[1]) {
        return Rejected(QuotesSamePassage);
      }
      var entry := SeenOf(ops, file, question, quotes);
      var clash := FindClash(entry);
      if clash.Some? {
        return Rejected(clash.value);
      }
      seen := seen + [entry];
      v := Accepted(question, quotes);
    }
  }
}
