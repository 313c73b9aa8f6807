/** The ids of a question set: `q` and the position, at least three digits. */
module QuestionIds {
  import opened QuestionSchema
  import opened Wrappers

  /** `s.padStart(3, '0')`. */
  function PadThree(s: string): (r: string)
    ensures |r| >= 3
    decreases 3 - |s|
  {
    if |s| >= 3 then s else PadThree("0" + s)
  }

  function IdAt(i: nat): (id: string) { "q" + PadThree(Decimal(i + 1)) }

  lemma {:induction false} LeadingZero(s: string)
    requires AreDigits(s)
    ensures AreDigits("0" + s) && NumberOf("0" + s) == NumberOf(s)
    decreases |s|
  {
    if s != "" {
      var n := |s| - 1;
      assert ("0" + s)[..n + 1] == "0" + s[..n] && ("0" + s)[n + 1] == s[n];
      LeadingZero(s[..n]);
    }
  }

  lemma {:induction false} PaddingKeepsValue(s: string)
    requires AreDigits(s)
    ensures AreDigits(PadThree(s)) && NumberOf(PadThree(s)) == NumberOf(s)
    decreases 3 - |s|
  {
    if |s| < 3 {
      LeadingZero(s);
      PaddingKeepsValue("0" + s);
    }
  }

  /** Every id is well-formed and says its position, so no two are the same. */
  lemma IdsSayPositions(i: nat)
    ensures IsId(IdAt(i)) && NumberOf(IdAt(i)[1..]) == i + 1
  {
    DecimalReadsBack(i + 1);
    PaddingKeepsValue(Decimal(i + 1));
    assert IdAt(i)[1..] == PadThree(Decimal(i + 1));
  }
}
