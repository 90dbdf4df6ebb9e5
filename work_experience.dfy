/** The empty job row the wizard appends when the user adds a job, and what
    the validator makes of it. */
module WorkExperienceUtils {
  import opened Wrappers
  import opened Types
  import opened Constants
  import opened IndexedDB
  import opened Validation

  /** `createEmptyJob()`: a fresh identifier and every text field empty. */
  function CreateEmptyJob(draws: seq<real>): (j: JobEntry)
    requires ValidDraws(draws)
    ensures j.id == IdFromDraws(draws)
    ensures forall f :: GetJob(j, f) == ""
  {
    JobEntry(IdFromDraws(draws), "", "", "", "", "", "")
  }

  /** The new row's id is eight lower-case hexadecimal digits, and its empty
      type is none of the offered job types. */
  lemma EmptyJobShape(draws: seq<real>)
    requires ValidDraws(draws)
    ensures var j := CreateEmptyJob(draws);
      && |j.id| == 8 && (forall i :: 0 <= i < 8 ==> IsLowerHex(j.id[i]))
      && j.jobType !in JOB_TYPE_OPTIONS
  {
  }

  /** The error record of a fresh row: "required" for both dates, the
      designation, the type and the description, and no ordering error,
      whatever the date comparison does. */
  lemma EmptyJobErrors(draws: seq<real>, dateGe: (string, string) -> bool)
    requires ValidDraws(draws)
    ensures ValidateJobEntry(CreateEmptyJob(draws), dateGe) ==
              map[StartDate := START_DATE_REQUIRED, EndDate := END_DATE_REQUIRED,
                  Designation := DESIGNATION_REQUIRED, JobType := JOB_TYPE_REQUIRED,
                  Description := DESCRIPTION_REQUIRED]
  {
    var j := CreateEmptyJob(draws);
    BlankJobErrors(j, dateGe);
  }

  /** Any job whose five checked fields are empty gets all five "required"
      messages. */
  lemma BlankJobErrors(j: JobEntry, dateGe: (string, string) -> bool)
    requires j.startDate == "" && j.endDate == "" && j.designation == "" && j.jobType == "" && j.description == ""
    ensures ValidateJobEntry(j, dateGe) ==
              map[StartDate := START_DATE_REQUIRED, EndDate := END_DATE_REQUIRED,
                  Designation := DESIGNATION_REQUIRED, JobType := JOB_TYPE_REQUIRED,
                  Description := DESCRIPTION_REQUIRED]
  {
    var r := ValidateJobEntry(j, dateGe);
    var expected := map[StartDate := START_DATE_REQUIRED, EndDate := END_DATE_REQUIRED,
                        Designation := DESIGNATION_REQUIRED, JobType := JOB_TYPE_REQUIRED,
                        Description := DESCRIPTION_REQUIRED];
    assert Lookup(r, StartDate) == Lookup(expected, StartDate) by {
      assert JobEntryFieldError(j, StartDate, dateGe) == Some(START_DATE_REQUIRED);
    }
    assert Lookup(r, EndDate) == Lookup(expected, EndDate) by {
      assert JobEntryFieldError(j, EndDate, dateGe) == Some(END_DATE_REQUIRED);
    }
    assert Lookup(r, Designation) == Lookup(expected, Designation) by {
      assert JobEntryFieldError(j, Designation, dateGe) == Some(DESIGNATION_REQUIRED);
    }
    assert Lookup(r, JobType) == Lookup(expected, JobType) by {
      assert JobEntryFieldError(j, JobType, dateGe) == Some(JOB_TYPE_REQUIRED);
    }
    assert Lookup(r, Description) == Lookup(expected, Description) by {
      assert JobEntryFieldError(j, Description, dateGe) == Some(DESCRIPTION_REQUIRED);
    }
    assert Lookup(r, JobOrganization) == Lookup(expected, JobOrganization);
    forall f ensures Lookup(r, f) == Lookup(expected, f) {
      match f
      case StartDate =>
      case EndDate =>
      case Designation =>
      case JobType =>
      case Description =>
      case JobOrganization =>
    }
    LookupExtensional(r, expected);
  }

  /** A fresh row always counts as a failing job. */
  lemma EmptyJobFails(draws: seq<real>, dateGe: (string, string) -> bool)
    requires ValidDraws(draws)
    ensures JobFails(CreateEmptyJob(draws), dateGe)
  {
    var r := ValidateJobEntry(CreateEmptyJob(draws), dateGe);
    assert Lookup(r, StartDate).Some?;
  }
}
