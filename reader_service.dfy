/**
 * Reader id generation (`DG001`, then one past the last id) and the gender
 * check of `updateReader`. The gender enumeration's values are a parameter:
 * its file is not part of this model.
 */
module ReaderService {
  import opened Wrappers
  import opened IdFormat
  import BorrowModel

  /** `getNextReaderId` as written: strips `DG` but prefixes `NV`. */
  function NextReaderIdFromLastAsWritten(last: Option<string>): (r: string)
    ensures last.None? ==> r == "DG001"
    ensures last.Some? ==> |r| >= 5 && r[..2] == "NV"
  {
    NextFromLast(last, "DG", "NV", "DG001")
  }

  /** `getNextReaderId` as evidently intended: the `DG` prefix on both sides. */
  function NextReaderIdFromLast(last: Option<string>): (r: string)
    ensures last.None? ==> r == "DG001"
    ensures last.Some? ==> |r| >= 5 && r[..2] == "DG"
  {
    NextFromLast(last, "DG", "DG", "DG001")
  }

  /** As written over the whole collection: the last id is the greatest in string order. */
  function NextReaderIdAsWritten(ids: seq<string>): (r: string)
    ensures ids == [] ==> r == "DG001"
    ensures ids != [] ==> !WellFormedId("DG", r)
  {
    var r := NextReaderIdFromLastAsWritten(GreatestId(ids));
    assert ids != [] ==> r[..2] == "NV";
    r
  }

  /** The reader id generator as intended: one past the numerically largest `DG` id. */
  function NextReaderId(ids: seq<string>): (r: string)
    ensures r !in ids
    ensures WellFormedId("DG", r)
  {
    NextFreshIsFresh("DG", ids);
    NextFresh("DG", ids)
  }

  /** The prefix bug: the id after `DG001` is `NV002`. */
  lemma SecondReaderIdIsNV()
    ensures NextReaderIdFromLastAsWritten(None) == "DG001"
    ensures NextReaderIdFromLastAsWritten(Some("DG001")) == "NV002"
  {
    SecondAfter("DG001");
  }

  lemma SecondAfter(last: string)
    requires last == "DG001"
    ensures NextReaderIdFromLastAsWritten(Some(last)) == "NV002"
  {
    StepAfterDG001(last);
    FormatTwo();
  }

  lemma ParseAfterDG001(s: string)
    requires s == "DG001"
    ensures ParseInt(ReplaceFirst(s, "DG")) == Some(1)
  {
    assert ReplaceFirst(s, "DG") == "001" by {
      assert s == "DG" + "001";
      ReplaceFirstAtStart("DG", "001");
    }
    assert DigitsValue("001") == 1 by {
      assert "001"[..2] == "00" && "00"[..1] == "0" && "0"[..0] == "";
    }
    assert AllDigits("001");
  }

  lemma FormatTwo()
    ensures "NV" + Format3(Some(2)) == "NV002"
  {
    assert IntToString(2) == "2";
    assert PadStart("2", 3, '0') == "002";
  }

  lemma StepAfterDG001(last: string)
    requires last == "DG001"
    ensures NextReaderIdFromLastAsWritten(Some(last)) == "NV" + Format3(Some(2))
  {
    ParseAfterDG001(last);
    NextFromLastStep(last, "DG", "NV", "DG001", Some(1));
  }

  /** And since `NV002` has no `DG` to strip, the id after it is `NVNaN`. */
  lemma ThirdReaderIdIsNaN()
    ensures NextReaderIdFromLastAsWritten(Some("NV002")) == "NVNaN"
  {
    NaNAfter("NV002");
  }

  lemma NaNAfter(last: string)
    requires last == "NV002"
    ensures NextReaderIdFromLastAsWritten(Some(last)) == "NVNaN"
  {
    NoDGInside(last);
    NaNStaysNaN(last, "DG", "NV", "DG001");
  }

  lemma NoDGInside(s: string)
    requires s == "NV002"
    ensures ParseInt(ReplaceFirst(s, "DG")).None?
  {
    forall i
      ensures !OccursAt(s, "DG", i)
    {
      if 0 <= i && i + 2 <= |s| {
        assert s[i..i + 2][0] == s[i];
      }
    }
    assert ReplaceFirst(s, "DG") == s;
    assert !IsDigit(s[0]) && !IsJsSpace(s[0]);
  }

  /** Every id the as-written generator derives from a well-formed `DG` id is not itself a `DG` id. */
  lemma AsWrittenReaderIdIsNotDG(last: string)
    requires WellFormedId("DG", last)
    ensures !WellFormedId("DG", NextReaderIdFromLastAsWritten(Some(last)))
  {
    var r := NextReaderIdFromLastAsWritten(Some(last));
    assert r[..2] == "NV";
  }

  /** The corrected generator keeps the `DG` format and counts up by one. */
  lemma NextReaderIdIncrements(last: string)
    requires WellFormedId("DG", last)
    ensures WellFormedId("DG", NextReaderIdFromLast(Some(last)))
    ensures IdNumber("DG", NextReaderIdFromLast(Some(last))) == IdNumber("DG", last) + 1
  {
    NextFromLastIncrements("DG", last);
  }

  /** The part of an update request the gender check reads. */
  datatype ReaderUpdate = ReaderUpdate(gender: Option<string>)

  datatype ReaderError = InvalidGender  // 400 "Gender must be one of: ..."

  /**
   * The gender check as written: `validGenders.includes(updateData)` looks for
   * the whole update object among the strings, which never succeeds.
   */
  function CheckGenderAsWritten(update: ReaderUpdate, validGenders: seq<string>): (r: Option<ReaderError>)
    ensures r.Some? <==> Truthy(update.gender)
  {
    if Truthy(update.gender) then Some(InvalidGender) else None
  }

  /** The gender check as evidently intended: the gender must be one of the valid values. */
  function CheckGender(update: ReaderUpdate, validGenders: seq<string>): (r: Option<ReaderError>)
    ensures r.Some? <==> Truthy(update.gender) && update.gender.value !in validGenders
  {
    if Truthy(update.gender) && update.gender.value !in validGenders then Some(InvalidGender) else None
  }

  /** A valid gender is rejected by the code as written and accepted by the intended check. */
  lemma ValidGenderRejected(g: string, validGenders: seq<string>)
    requires g != "" && g in validGenders
    ensures CheckGenderAsWritten(ReaderUpdate(Some(g)), validGenders) == Some(InvalidGender)
    ensures CheckGender(ReaderUpdate(Some(g)), validGenders) == None
  {
  }

  /** Without a (truthy) gender neither check runs. */
  lemma NoGenderSkipsCheck(update: ReaderUpdate, validGenders: seq<string>)
    requires !Truthy(update.gender)
    ensures CheckGenderAsWritten(update, validGenders) == None && CheckGender(update, validGenders) == None
  {
  }
}
