/** Staff id generation: `NV001` for the first staff member, then one past the last id. */
module StaffService {
  import opened Wrappers
  import opened IdFormat

  /** `getNextStaffId`, given the staff id the descending sort returns (none for an empty collection). */
  function NextStaffIdFromLast(last: Option<string>): (r: string)
    ensures last.None? ==> r == "NV001"
    ensures last.Some? ==> |r| >= 5 && r[..2] == "NV"
  {
    NextFromLast(last, "NV", "NV", "NV001")
  }

  /** `getNextStaffId` as written: the last id is the greatest in string order. */
  function NextStaffIdAsWritten(ids: seq<string>): (r: string)
    ensures ids == [] ==> r == "NV001"
    ensures ids != [] && WellFormedId("NV", GreatestId(ids).value) ==>
              WellFormedId("NV", r) && IdNumber("NV", r) == IdNumber("NV", GreatestId(ids).value) + 1
  {
    var r := NextStaffIdFromLast(GreatestId(ids));
    assert ids != [] && WellFormedId("NV", GreatestId(ids).value) ==>
             WellFormedId("NV", r) && IdNumber("NV", r) == IdNumber("NV", GreatestId(ids).value) + 1 by {
      if ids != [] && WellFormedId("NV", GreatestId(ids).value) {
        NextFromLastIncrements("NV", GreatestId(ids).value);
      }
    }
    r
  }

  /** The staff id generator as intended: one past the numerically largest id. */
  function NextStaffId(ids: seq<string>): (r: string)
    ensures r !in ids
    ensures WellFormedId("NV", r)
  {
    NextFreshIsFresh("NV", ids);
    NextFresh("NV", ids)
  }

  lemma NextStaffIdOfNone()
    ensures NextStaffIdFromLast(None) == "NV001"
  {
  }

  /** `NV` + (number of the last id + 1), zero-padded: the new number strictly exceeds the last one. */
  lemma NextStaffIdIncrements(last: string)
    requires WellFormedId("NV", last)
    ensures WellFormedId("NV", NextStaffIdFromLast(Some(last)))
    ensures IdNumber("NV", NextStaffIdFromLast(Some(last))) == IdNumber("NV", last) + 1
  {
    NextFromLastIncrements("NV", last);
  }

  /** Generating twice in a row never yields the same id. */
  lemma ConsecutiveStaffIdsDiffer(last: string)
    requires WellFormedId("NV", last)
    ensures NextStaffIdFromLast(Some(NextStaffIdFromLast(Some(last)))) != NextStaffIdFromLast(Some(last))
    ensures NextStaffIdFromLast(Some(last)) != last
  {
    NextStaffIdIncrements(last);
    NextStaffIdIncrements(NextStaffIdFromLast(Some(last)));
  }
}
