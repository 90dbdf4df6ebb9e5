/** The wizard's constant tables and the year lists of the education step.
    The current calendar year, read once from the clock when the module loads,
    is a parameter. */
module Constants {
  import opened Wrappers
  import opened JsString

  /** The wizard's step labels; their indices are the step numbers. */
  const STEPS: seq<string> := ["Personal Information", "Education Details", "Work Experience"]

  /** The index of the last step, `STEPS.length - 1`. */
  const LAST_STEP: int := |STEPS| - 1

  const JOB_TYPE_OPTIONS: seq<string> := ["Full Time", "Part Time", "Internship"]

  /** The first year of `YEAR_OPTIONS`. */
  const FIRST_YEAR: int := 1947

  lemma StepsShape()
    ensures |STEPS| == 3 && LAST_STEP == 2
    ensures STEPS[0] == "Personal Information" && STEPS[1] == "Education Details"
    ensures STEPS[2] == "Work Experience"
  {
  }

  /** `Array.from({ length: n }, ...)` coerces a negative length to zero. */
  function ToLength(n: int): nat {
    if n < 0 then 0 else n
  }

  /** `Array.from({ length: n }, (_, i) => (start + i).toString())`. */
  function Ascending(start: int, n: nat): (r: seq<string>)
    ensures |r| == n
    ensures forall i :: 0 <= i < n ==> r[i] == IntToString(start + i)
  {
    seq(n, i requires 0 <= i < n => IntToString(start + i))
  }

  /** `Array.prototype.reverse`. */
  function Reverse<T>(s: seq<T>): (r: seq<T>)
    ensures |r| == |s|
    ensures forall k :: 0 <= k < |s| ==> r[k] == s[|s| - 1 - k]
  {
    seq(|s|, k requires 0 <= k < |s| => s[|s| - 1 - k])
  }

  function YearOptions(currentYear: int): seq<string> {
    Reverse(Ascending(FIRST_YEAR, ToLength(currentYear - FIRST_YEAR + 10)))
  }

  /** `YEAR_OPTIONS` holds `currentYear - 1947 + 10` years, from
      `currentYear + 9` down to 1947. */
  lemma YearOptionsShape(currentYear: int)
    requires currentYear >= FIRST_YEAR - 9
    ensures var r := YearOptions(currentYear);
      && |r| == currentYear - FIRST_YEAR + 10
      && r[0] == IntToString(currentYear + 9)
      && r[|r| - 1] == IntToString(FIRST_YEAR)
      && forall k :: 0 <= k < |r| ==> r[k] == IntToString(currentYear + 9 - k)
  {
  }

  /** The years from `currentYear + 30` down to `birth`, at least one entry. */
  function YearsFrom(birth: int, currentYear: int): (r: seq<string>)
    ensures |r| == if currentYear + 30 - birth + 1 < 1 then 1 else currentYear + 30 - birth + 1
    ensures r[|r| - 1] == IntToString(birth)
    ensures forall k :: 0 <= k < |r| ==> r[k] == IntToString(birth + |r| - 1 - k)
  {
    var startYear := birth;
    var endYear := currentYear + 30;
    var length := if 1 < endYear - startYear + 1 then endYear - startYear + 1 else 1;
    Reverse(Ascending(startYear, length))
  }

  /** `generateYearOptions(birthYear)`: the full list when no birth year is
      given or it does not parse, otherwise the years from `currentYear + 30`
      down to the birth year itself (the comment about "+10" in the source
      does not match the code). */
  function GenerateYearOptions(birthYear: Option<string>, currentYear: int): (r: seq<string>)
    ensures birthYear.None? || birthYear == Some("") ==> r == YearOptions(currentYear)
    ensures birthYear.Some? && ParseInt(birthYear.value).None? ==> r == YearOptions(currentYear)
    ensures birthYear.Some? && birthYear.value != "" && ParseInt(birthYear.value).Some? ==>
              r == YearsFrom(ParseInt(birthYear.value).value, currentYear)
  {
    if birthYear.None? || birthYear.value == "" then YearOptions(currentYear)
    else
      match ParseInt(birthYear.value)
      case None => YearOptions(currentYear)
      case Some(birth) => YearsFrom(birth, currentYear)
  }

  /** The generated options read back, through `parseInt`, as consecutive
      years in descending order that end at the birth year. */
  lemma YearsFromDescend(birth: int, currentYear: int)
    ensures var r := YearsFrom(birth, currentYear);
      forall k :: 0 <= k < |r| ==> ParseInt(r[k]) == Some(birth + |r| - 1 - k)
  {
    forall k | 0 <= k < |YearsFrom(birth, currentYear)| {
      YearReadBack(birth, currentYear, k);
    }
  }

  lemma YearReadBack(birth: int, currentYear: int, k: int)
    requires 0 <= k < |YearsFrom(birth, currentYear)|
    ensures var r := YearsFrom(birth, currentYear); ParseInt(r[k]) == Some(birth + |r| - 1 - k)
  {
    var r := YearsFrom(birth, currentYear);
    ParseIntOfIntToString(birth + |r| - 1 - k);
  }
}
