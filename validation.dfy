/** The form's validation rules: one function per section, each returning an
    error record whose keys are exactly the section's invalid fields, and the
    step dispatcher the wizard calls. Every rule is stated twice: as the
    computation the validators perform, and as a predicate on the data that
    says what a valid section is; the lemmas connect the two. */
module Validation {
  import opened Wrappers
  import opened JsString
  import opened Dates
  import opened Types

  /** What the rules read from outside the form: the current calendar day
      (`dayjs()` at day granularity), and `new Date(a) >= new Date(b)` on two
      job date strings, whose parse depends on the JavaScript engine. */
  datatype Env = Env(today: CalendarDay, dateGe: (string, string) -> bool)

  // ---------------------------------------------------------------------------
  // Messages

  const FIRST_NAME_REQUIRED := "First name is required"
  const FIRST_NAME_ALPHA := "First name should contain only alphabets"
  const MIDDLE_NAME_ALPHA := "Middle name should contain only alphabets"
  const LAST_NAME_REQUIRED := "Last name is required"
  const LAST_NAME_ALPHA := "Last name should contain only alphabets"
  const COUNTRY_CODE_REQUIRED := "Country code is required"
  const PHONE_REQUIRED := "Phone number is required"
  const PHONE_DIGITS := "Phone number should contain only digits"
  const PHONE_LENGTH := "Phone number should be 10 digits"
  const EMAIL_REQUIRED := "Email is required"
  const EMAIL_INVALID := "Please enter a valid email address"
  const DOB_REQUIRED := "Date of birth is required"
  const DOB_INVALID := "Invalid date of birth"
  const DOB_FUTURE := "Date of birth cannot be in the future"
  const ABOUT_REQUIRED := "About is required"
  const ABOUT_TOO_LONG := "About section cannot exceed 500 characters"
  const ABOUT_MAX_LENGTH := 500

  const TENTH_PASS_YEAR_REQUIRED := "10th pass year is required"
  const TENTH_BOARD_REQUIRED := "10th board is required"
  const TWELFTH_PASS_YEAR_REQUIRED := "12th pass year is required"
  const TWELFTH_BOARD_REQUIRED := "12th board is required"
  const DIPLOMA_PASS_YEAR_REQUIRED := "Diploma pass year is required"
  const ORGANIZATION_REQUIRED := "Organization is required"
  const MAJOR_REQUIRED := "Major is required"
  const GRADUATION_YEAR_REQUIRED := "Graduation year is required"
  const DEGREE_REQUIRED := "Degree is required"

  const START_DATE_REQUIRED := "Start date is required"
  const END_DATE_REQUIRED := "End date is required"
  const END_BEFORE_START := "End date must be after start date"
  const DESIGNATION_REQUIRED := "Designation is required"
  const JOB_TYPE_REQUIRED := "Job type is required"
  const DESCRIPTION_REQUIRED := "Description is required"

  const EXPERIENCE_REQUIRED := "Total experience is required"
  const EXPERIENCE_NOT_NUMBER := "Experience should be a number"
  const EXPERIENCE_NEGATIVE := "Experience cannot be negative"
  const CURRENT_CTC_REQUIRED := "Current CTC is required"
  const EXPECTED_CTC_REQUIRED := "Expected CTC is required"
  const CTC_NOT_NUMERIC := "CTC should be numeric"
  const AVAILABLE_REQUIRED := "Available from date is required"
  const AVAILABLE_INVALID := "Invalid date"
  const AVAILABLE_NOT_FUTURE := "Available date must be in the future"

  // ---------------------------------------------------------------------------
  // Error records as maps

  /** The value stored under `k`, if any. */
  function Lookup<K(!new), V>(m: map<K, V>, k: K): Option<V> {
    if k in m then Some(m[k]) else None
  }

  /** `if (error) { errors.k = error }`: records `k` when `e` holds a message
      and leaves every other key alone. */
  function PutIfSome<K(!new), V>(m: map<K, V>, k: K, e: Option<V>): (r: map<K, V>)
    ensures Lookup(r, k) == if e.Some? then e else Lookup(m, k)
    ensures forall j :: j != k ==> Lookup(r, j) == Lookup(m, j)
  {
    if e.Some? then m[k := e.value] else m
  }

  /** A map without keys is one in which every lookup fails. */
  lemma EmptyIffNoLookup<K(!new), V>(m: map<K, V>)
    ensures |m| == 0 <==> forall k :: Lookup(m, k).None?
  {
    if |m| != 0 {
      var k :| k in m;
      assert Lookup(m, k).Some?;
    }
  }

  /** Two maps that agree on every lookup are equal. */
  lemma LookupExtensional<K(!new), V>(a: map<K, V>, b: map<K, V>)
    requires forall k :: Lookup(a, k) == Lookup(b, k)
    ensures a == b
  {
    assert forall k :: k in a <==> Lookup(a, k).Some?;
    assert a.Keys == b.Keys;
  }

  // ---------------------------------------------------------------------------
  // Patterns

  /** `/^[a-zA-Z\s]*$/.test(s)`. */
  predicate AlphaOnly(s: string) {
    forall i :: 0 <= i < |s| ==> IsAsciiLetter(s[i]) || IsJsWhitespace(s[i])
  }

  predicate IsLocalChar(c: char) {
    IsAsciiLower(c) || IsAsciiDigit(c) || c == '.' || c == '_' || c == '%' || c == '+' || c == '-'
  }

  predicate IsDomainChar(c: char) {
    IsAsciiLower(c) || IsAsciiDigit(c) || c == '.' || c == '-'
  }

  /** `[a-z0-9._%+-]+` */
  predicate LocalRun(s: string) {
    |s| >= 1 && forall i :: 0 <= i < |s| ==> IsLocalChar(s[i])
  }

  /** `[a-z0-9.-]+` */
  predicate DomainRun(s: string) {
    |s| >= 1 && forall i :: 0 <= i < |s| ==> IsDomainChar(s[i])
  }

  /** `[a-z]{2,}` */
  predicate TopLevelRun(s: string) {
    |s| >= 2 && forall i :: 0 <= i < |s| ==> IsAsciiLower(s[i])
  }

  /** `/^[a-z0-9._%+-]+@[a-z0-9.-]+\.[a-z]{2,}$/.test(s)`: some split of the
      whole string into a local part, `@`, a domain, `.` and a final run of at
      least two lower-case letters. */
  predicate EmailPattern(s: string) {
    exists at, dot | 0 < at < dot < |s| ::
      && s[at] == '@' && s[dot] == '.'
      && LocalRun(s[..at]) && DomainRun(s[at + 1..dot]) && TopLevelRun(s[dot + 1..])
  }

  /** `/^\d*\.?\d*$/.test(s)`: digits, at most one dot, digits. */
  predicate DecimalPattern(s: string) {
    exists p | 0 <= p <= |s| ::
      && AllDigits(s[..p])
      && (AllDigits(s[p..]) || (p < |s| && s[p] == '.' && AllDigits(s[p + 1..])))
  }

  /** Every character is a digit or a dot. */
  predicate DigitsAndDots(s: string) {
    forall i :: 0 <= i < |s| ==> IsAsciiDigit(s[i]) || s[i] == '.'
  }

  /** No two positions of `s` both hold a dot. */
  predicate AtMostOneDot(s: string) {
    forall i, j :: 0 <= i < |s| && 0 <= j < |s| && s[i] == '.' && s[j] == '.' ==> i == j
  }

  /** The only way `parseFloat(s)` can be negative: after leading white space
      the text starts with a minus sign. */
  predicate LeadsWithMinus(s: string) {
    var t := TrimStart(s);
    |t| > 0 && t[0] == '-'
  }

  // ---------------------------------------------------------------------------
  // Field rules

  /** `if (!value)`: the empty string is missing. */
  function Required(s: string, message: string): (r: Option<string>)
    ensures r.None? <==> s != ""
    ensures r.Some? ==> r == Some(message)
  {
    if s == "" then Some(message) else None
  }

  /** `if (!value.trim())`: a white-space-only string is missing. */
  function RequiredTrimmed(s: string, message: string): (r: Option<string>)
    ensures r.None? <==> !Blank(s)
    ensures r.Some? ==> r == Some(message)
  {
    if Trim(s) == "" then Some(message) else None
  }

  /** First and last name: required after trimming, then ASCII letters and
      white space only. */
  function NameError(s: string, required: string, format: string): Option<string> {
    if Trim(s) == "" then Some(required)
    else if !AlphaOnly(s) then Some(format)
    else None
  }

  lemma NameErrorSpec(s: string, required: string, format: string)
    ensures NameError(s, required, format).None? <==> !Blank(s) && AlphaOnly(s)
    ensures Blank(s) ==> NameError(s, required, format) == Some(required)
    ensures !Blank(s) && !AlphaOnly(s) ==> NameError(s, required, format) == Some(format)
  {
  }

  /** The middle name is optional: only a non-empty value is checked. */
  function MiddleNameError(s: string): Option<string> {
    if s != "" && !AlphaOnly(s) then Some(MIDDLE_NAME_ALPHA) else None
  }

  lemma MiddleNameErrorSpec(s: string)
    ensures MiddleNameError(s).None? <==> AlphaOnly(s)
    ensures MiddleNameError("") == None
  {
  }

  /** Phone number: required, then digits only, then exactly ten UTF-16 code
      units. */
  function PhoneError(p: string): Option<string> {
    if Trim(p) == "" then Some(PHONE_REQUIRED)
    else if !AllDigits(p) then Some(PHONE_DIGITS)
    else if Utf16Length(p) < 10 || Utf16Length(p) > 10 then Some(PHONE_LENGTH)
    else None
  }

  /** The checks run in order, and a number passes exactly when it is ten
      ASCII digits. */
  lemma PhoneErrorSpec(p: string)
    ensures PhoneError(p).None? <==> |p| == 10 && AllDigits(p)
    ensures PhoneError(p) == Some(PHONE_REQUIRED) <==> Blank(p)
    ensures PhoneError(p) == Some(PHONE_DIGITS) <==> !Blank(p) && !AllDigits(p)
    ensures PhoneError(p) == Some(PHONE_LENGTH) <==> !Blank(p) && AllDigits(p) && |p| != 10
  {
    if AllDigits(p) {
      assert forall i :: 0 <= i < |p| ==> p[i] as int <= 0xFFFF;
      if |p| > 0 {
        assert !IsJsWhitespace(p[0]);
      }
    }
  }

  /** Email: required after trimming, then the lower-case address pattern. */
  function EmailError(s: string): Option<string> {
    if Trim(s) == "" then Some(EMAIL_REQUIRED)
    else if !EmailPattern(s) then Some(EMAIL_INVALID)
    else None
  }

  lemma EmailErrorSpec(s: string)
    ensures EmailError(s).None? <==> EmailPattern(s)
    ensures Blank(s) ==> EmailError(s) == Some(EMAIL_REQUIRED)
    ensures !Blank(s) && !EmailPattern(s) ==> EmailError(s) == Some(EMAIL_INVALID)
  {
    EmailPatternNotBlank(s);
  }

  /** Date of birth: required, a strict `DD/MM/YYYY` calendar date, and not
      after the current instant. A parsed date stands for the start of its
      day, which is after the current instant exactly when it is a later day
      than today. */
  function DateOfBirthError(s: string, today: CalendarDay): Option<string> {
    if s == "" then Some(DOB_REQUIRED)
    else
      match ParseStrict(s)
      case None => Some(DOB_INVALID)
      case Some(dob) => if Before(today, dob) then Some(DOB_FUTURE) else None
  }

  lemma DateOfBirthErrorSpec(s: string, today: CalendarDay)
    ensures DateOfBirthError(s, today).None? <==>
              ParseStrict(s).Some? && !Before(today, ParseStrict(s).value)
    ensures s == "" ==> DateOfBirthError(s, today) == Some(DOB_REQUIRED)
    ensures s != "" && ParseStrict(s).None? ==> DateOfBirthError(s, today) == Some(DOB_INVALID)
    ensures ParseStrict(s).Some? && Before(today, ParseStrict(s).value) ==>
              DateOfBirthError(s, today) == Some(DOB_FUTURE)
  {
  }

  /** About: required after trimming, and at most 500 UTF-16 code units. */
  function AboutError(s: string): Option<string> {
    if Trim(s) == "" then Some(ABOUT_REQUIRED)
    else if Utf16Length(s) > ABOUT_MAX_LENGTH then Some(ABOUT_TOO_LONG)
    else None
  }

  lemma AboutErrorSpec(s: string)
    ensures AboutError(s).None? <==> !Blank(s) && Utf16Length(s) <= ABOUT_MAX_LENGTH
    ensures Blank(s) ==> AboutError(s) == Some(ABOUT_REQUIRED)
    ensures !Blank(s) && Utf16Length(s) > ABOUT_MAX_LENGTH ==> AboutError(s) == Some(ABOUT_TOO_LONG)
  {
  }

  /** Total experience: required, then the decimal pattern, then a check for a
      negative value. */
  function TotalExperienceError(s: string): Option<string> {
    if s == "" then Some(EXPERIENCE_REQUIRED)
    else if !DecimalPattern(s) then Some(EXPERIENCE_NOT_NUMBER)
    else if LeadsWithMinus(s) then Some(EXPERIENCE_NEGATIVE)
    else None
  }

  /** The value passes exactly when it is non-empty and matches the pattern;
      the check for a negative value can never fire, because the pattern
      admits no sign. */
  lemma TotalExperienceErrorSpec(s: string)
    ensures TotalExperienceError(s).None? <==> s != "" && DecimalPattern(s)
    ensures s == "" ==> TotalExperienceError(s) == Some(EXPERIENCE_REQUIRED)
    ensures s != "" && !DecimalPattern(s) ==> TotalExperienceError(s) == Some(EXPERIENCE_NOT_NUMBER)
    ensures TotalExperienceError(s) != Some(EXPERIENCE_NEGATIVE)
  {
    if s != "" && DecimalPattern(s) {
      DecimalPatternHasNoSign(s);
    }
  }

  /** A CTC amount: required, then digits once every dot is removed. */
  function CtcError(s: string, required: string): Option<string> {
    if s == "" then Some(required)
    else if !AllDigits(RemoveAll(s, '.')) then Some(CTC_NOT_NUMERIC)
    else None
  }

  /** Any number of dots is accepted: the amount passes exactly when it is
      non-empty and made of digits and dots. */
  lemma CtcErrorSpec(s: string, required: string)
    ensures CtcError(s, required).None? <==> s != "" && DigitsAndDots(s)
    ensures s == "" ==> CtcError(s, required) == Some(required)
    ensures s != "" && !DigitsAndDots(s) ==> CtcError(s, required) == Some(CTC_NOT_NUMERIC)
  {
    DigitsAfterRemovingDots(s);
  }

  /** Available from: required, a strict `DD/MM/YYYY` calendar date, and not a
      day before tomorrow. */
  function AvailableFromError(s: string, today: CalendarDay): Option<string> {
    if s == "" then Some(AVAILABLE_REQUIRED)
    else
      match ParseStrict(s)
      case None => Some(AVAILABLE_INVALID)
      case Some(d) => if Before(d, NextDay(today)) then Some(AVAILABLE_NOT_FUTURE) else None
  }

  /** The date passes exactly when it is a later day than today. */
  lemma AvailableFromErrorSpec(s: string, today: CalendarDay)
    ensures AvailableFromError(s, today).None? <==>
              ParseStrict(s).Some? && Before(today, ParseStrict(s).value)
    ensures s == "" ==> AvailableFromError(s, today) == Some(AVAILABLE_REQUIRED)
    ensures s != "" && ParseStrict(s).None? ==> AvailableFromError(s, today) == Some(AVAILABLE_INVALID)
    ensures ParseStrict(s).Some? && !Before(today, ParseStrict(s).value) ==>
              AvailableFromError(s, today) == Some(AVAILABLE_NOT_FUTURE)
  {
    if ParseStrict(s).Some? {
      BeforeNextDayIff(ParseStrict(s).value, today);
    }
  }

  // ---------------------------------------------------------------------------
  // Personal information

  /** The check `validatePersonalInfo` runs on one field. */
  function PersonalFieldError(p: PersonalInfo, f: PersonalField, today: CalendarDay): Option<string> {
    match f
    case FirstName => NameError(p.firstName, FIRST_NAME_REQUIRED, FIRST_NAME_ALPHA)
    case MiddleName => MiddleNameError(p.middleName)
    case LastName => NameError(p.lastName, LAST_NAME_REQUIRED, LAST_NAME_ALPHA)
    case CountryCode => Required(p.countryCode, COUNTRY_CODE_REQUIRED)
    case PhoneNumber => PhoneError(p.phoneNumber)
    case Email => EmailError(p.email)
    case DateOfBirth => DateOfBirthError(p.dateOfBirth, today)
    case About => AboutError(p.about)
  }

  /** `validatePersonalInfo`: each field's check in turn. The successive
      assignments write distinct keys, so the record holds exactly the failing
      fields, each with its own message. */
  function ValidatePersonalInfo(p: PersonalInfo, today: CalendarDay): (r: PersonalErrors)
    ensures forall f :: Lookup(r, f) == PersonalFieldError(p, f, today)
  {
    map f: PersonalField | PersonalFieldError(p, f, today).Some? :: PersonalFieldError(p, f, today).value
  }

  /** What a complete personal section is. */
  predicate PersonalInfoRules(p: PersonalInfo, today: CalendarDay) {
    && !Blank(p.firstName) && AlphaOnly(p.firstName)
    && AlphaOnly(p.middleName)
    && !Blank(p.lastName) && AlphaOnly(p.lastName)
    && p.countryCode != ""
    && |p.phoneNumber| == 10 && AllDigits(p.phoneNumber)
    && EmailPattern(p.email)
    && ParseStrict(p.dateOfBirth).Some? && !Before(today, ParseStrict(p.dateOfBirth).value)
    && !Blank(p.about) && Utf16Length(p.about) <= ABOUT_MAX_LENGTH
  }

  /** `isPersonalInfoValid`: the record has no keys. */
  predicate IsPersonalInfoValid(e: PersonalErrors) {
    |e| == 0
  }

  /** Every field of the section passes its check. */
  predicate AllPersonalFieldsPass(p: PersonalInfo, today: CalendarDay) {
    forall f :: PersonalFieldError(p, f, today).None?
  }

  /** The eight checks pass exactly when each field's own check does. */
  lemma AllPersonalFieldsPassIff(p: PersonalInfo, today: CalendarDay)
    ensures AllPersonalFieldsPass(p, today) <==>
      && NameError(p.firstName, FIRST_NAME_REQUIRED, FIRST_NAME_ALPHA).None?
      && MiddleNameError(p.middleName).None?
      && NameError(p.lastName, LAST_NAME_REQUIRED, LAST_NAME_ALPHA).None?
      && Required(p.countryCode, COUNTRY_CODE_REQUIRED).None?
      && PhoneError(p.phoneNumber).None?
      && EmailError(p.email).None?
      && DateOfBirthError(p.dateOfBirth, today).None?
      && AboutError(p.about).None?
  {
    if AllPersonalFieldsPass(p, today) {
      assert PersonalFieldError(p, FirstName, today).None?;
      assert PersonalFieldError(p, MiddleName, today).None?;
      assert PersonalFieldError(p, LastName, today).None?;
      assert PersonalFieldError(p, CountryCode, today).None?;
      assert PersonalFieldError(p, PhoneNumber, today).None?;
      assert PersonalFieldError(p, Email, today).None?;
      assert PersonalFieldError(p, DateOfBirth, today).None?;
      assert PersonalFieldError(p, About, today).None?;
    } else {
      var f :| PersonalFieldError(p, f, today).Some?;
      match f
      case FirstName =>
      case MiddleName =>
      case LastName =>
      case CountryCode =>
      case PhoneNumber =>
      case Email =>
      case DateOfBirth =>
      case About =>
    }
  }

  lemma PersonalInfoValidIff(p: PersonalInfo, today: CalendarDay)
    ensures IsPersonalInfoValid(ValidatePersonalInfo(p, today)) <==> PersonalInfoRules(p, today)
  {
    var r := ValidatePersonalInfo(p, today);
    EmptyIffNoLookup(r);
    assert |r| == 0 <==> AllPersonalFieldsPass(p, today);
    AllPersonalFieldsPassIff(p, today);
    NameErrorSpec(p.firstName, FIRST_NAME_REQUIRED, FIRST_NAME_ALPHA);
    MiddleNameErrorSpec(p.middleName);
    NameErrorSpec(p.lastName, LAST_NAME_REQUIRED, LAST_NAME_ALPHA);
    PhoneErrorSpec(p.phoneNumber);
    EmailErrorSpec(p.email);
    DateOfBirthErrorSpec(p.dateOfBirth, today);
    AboutErrorSpec(p.about);
  }

  // ---------------------------------------------------------------------------
  // Education

  /** The check `validateEducationInfo` runs on one field of one section; the
      twelfth and diploma sections are checked only for their exact education
      type, and a field a section does not have is never checked. */
  function EduFieldCheck(e: EducationInfo, s: EduSection, f: EduField): (r: Option<string>)
    ensures r.Some? ==> InSection(s, f)
  {
    match s
    case Tenth =>
      if f == PassYear then Required(e.tenth.passYear, TENTH_PASS_YEAR_REQUIRED)
      else if f == Board then Required(e.tenth.board, TENTH_BOARD_REQUIRED)
      else None
    case Twelfth =>
      if e.educationType != "12th" then None
      else if f == PassYear then Required(e.twelfth.passYear, TWELFTH_PASS_YEAR_REQUIRED)
      else if f == Board then Required(e.twelfth.board, TWELFTH_BOARD_REQUIRED)
      else None
    case Diploma =>
      if e.educationType != "Diploma" then None
      else if f == PassYear then Required(e.diploma.passYear, DIPLOMA_PASS_YEAR_REQUIRED)
      else if f == Organization then RequiredTrimmed(e.diploma.organization, ORGANIZATION_REQUIRED)
      else if f == Major then RequiredTrimmed(e.diploma.major, MAJOR_REQUIRED)
      else None
    case Graduation =>
      if f == CompletionYear then Required(e.graduation.completionYear, GRADUATION_YEAR_REQUIRED)
      else if f == Organization then RequiredTrimmed(e.graduation.organization, ORGANIZATION_REQUIRED)
      else if f == Degree then Required(e.graduation.degree, DEGREE_REQUIRED)
      else if f == Major then RequiredTrimmed(e.graduation.major, MAJOR_REQUIRED)
      else None
  }

  /** The errors `validateEducationInfo` collects for one section. */
  function SectionErrors(e: EducationInfo, s: EduSection): (r: map<EduField, string>)
    ensures forall f :: Lookup(r, f) == EduFieldCheck(e, s, f)
    ensures forall f :: f in r ==> InSection(s, f)
  {
    map f: EduField | EduFieldCheck(e, s, f).Some? :: EduFieldCheck(e, s, f).value
  }

  /** A section's record, present only when it holds at least one error. */
  function NonEmpty<K(!new), V>(m: map<K, V>): (r: Option<map<K, V>>)
    ensures r.None? <==> |m| == 0
    ensures r.Some? ==> r.value == m
  {
    if |m| == 0 then None else Some(m)
  }

  /** `validateEducationInfo`: a section key is present exactly when that
      section has a failing field, and the twelfth and diploma sections appear
      only under their own education type. */
  function ValidateEducationInfo(e: EducationInfo): (r: EducationErrors)
    ensures forall s :: Lookup(r, s) == NonEmpty(SectionErrors(e, s))
    ensures e.educationType != "12th" ==> Twelfth !in r
    ensures e.educationType != "Diploma" ==> Diploma !in r
  {
    EmptyIffNoLookup(SectionErrors(e, Twelfth));
    EmptyIffNoLookup(SectionErrors(e, Diploma));
    map s: EduSection | |SectionErrors(e, s)| > 0 :: SectionErrors(e, s)
  }

  /** What a complete education section is. */
  predicate EducationRules(e: EducationInfo) {
    && e.tenth.passYear != "" && e.tenth.board != ""
    && (e.educationType == "12th" ==> e.twelfth.passYear != "" && e.twelfth.board != "")
    && (e.educationType == "Diploma" ==>
          e.diploma.passYear != "" && !Blank(e.diploma.organization) && !Blank(e.diploma.major))
    && e.graduation.completionYear != "" && !Blank(e.graduation.organization)
    && e.graduation.degree != "" && !Blank(e.graduation.major)
  }

  /** `isEducationInfoValid`: the record has no keys. */
  predicate IsEducationInfoValid(e: EducationErrors) {
    |e| == 0
  }

  /** A section validates clean exactly when each of its checked fields is. */
  lemma SectionErrorsEmptyIff(e: EducationInfo, s: EduSection)
    ensures |SectionErrors(e, s)| == 0 <==> match s
      case Tenth => e.tenth.passYear != "" && e.tenth.board != ""
      case Twelfth => e.educationType == "12th" ==> e.twelfth.passYear != "" && e.twelfth.board != ""
      case Diploma => e.educationType == "Diploma" ==>
        e.diploma.passYear != "" && !Blank(e.diploma.organization) && !Blank(e.diploma.major)
      case Graduation =>
        && e.graduation.completionYear != "" && !Blank(e.graduation.organization)
        && e.graduation.degree != "" && !Blank(e.graduation.major)
  {
    match s
    case Tenth => TenthClean(e);
    case Twelfth => TwelfthClean(e);
    case Diploma => DiplomaClean(e);
    case Graduation => GraduationClean(e);
  }

  lemma TenthClean(e: EducationInfo)
    ensures |SectionErrors(e, Tenth)| == 0 <==> e.tenth.passYear != "" && e.tenth.board != ""
  {
    var r := SectionErrors(e, Tenth);
    EmptyIffNoLookup(r);
    if e.tenth.passYear != "" && e.tenth.board != "" {
      forall f ensures Lookup(r, f).None? {
      }
    } else {
      assert Lookup(r, PassYear).Some? || Lookup(r, Board).Some?;
    }
  }

  lemma TwelfthClean(e: EducationInfo)
    ensures |SectionErrors(e, Twelfth)| == 0 <==>
              (e.educationType == "12th" ==> e.twelfth.passYear != "" && e.twelfth.board != "")
  {
    var r := SectionErrors(e, Twelfth);
    EmptyIffNoLookup(r);
    if e.educationType == "12th" ==> e.twelfth.passYear != "" && e.twelfth.board != "" {
      forall f ensures Lookup(r, f).None? {
      }
    } else {
      assert Lookup(r, PassYear).Some? || Lookup(r, Board).Some?;
    }
  }

  lemma DiplomaClean(e: EducationInfo)
    ensures |SectionErrors(e, Diploma)| == 0 <==>
              (e.educationType == "Diploma" ==>
                 e.diploma.passYear != "" && !Blank(e.diploma.organization) && !Blank(e.diploma.major))
  {
    var r := SectionErrors(e, Diploma);
    EmptyIffNoLookup(r);
    if e.educationType == "Diploma" ==>
         e.diploma.passYear != "" && !Blank(e.diploma.organization) && !Blank(e.diploma.major) {
      forall f ensures Lookup(r, f).None? {
      }
    } else {
      if e.diploma.passYear == "" {
        assert Lookup(r, PassYear).Some?;
      } else if Blank(e.diploma.organization) {
        assert Lookup(r, Organization).Some?;
      } else {
        assert Lookup(r, Major).Some?;
      }
    }
  }

  lemma GraduationClean(e: EducationInfo)
    ensures |SectionErrors(e, Graduation)| == 0 <==>
              && e.graduation.completionYear != "" && !Blank(e.graduation.organization)
              && e.graduation.degree != "" && !Blank(e.graduation.major)
  {
    var r := SectionErrors(e, Graduation);
    EmptyIffNoLookup(r);
    if && e.graduation.completionYear != "" && !Blank(e.graduation.organization)
       && e.graduation.degree != "" && !Blank(e.graduation.major) {
      forall f ensures Lookup(r, f).None? {
      }
    } else {
      if e.graduation.completionYear == "" {
        assert Lookup(r, CompletionYear).Some?;
      } else if Blank(e.graduation.organization) {
        assert Lookup(r, Organization).Some?;
      } else if e.graduation.degree == "" {
        assert Lookup(r, Degree).Some?;
      } else {
        assert Lookup(r, Major).Some?;
      }
    }
  }

  lemma EducationInfoValidIff(e: EducationInfo)
    ensures IsEducationInfoValid(ValidateEducationInfo(e)) <==> EducationRules(e)
  {
    var r := ValidateEducationInfo(e);
    EmptyIffNoLookup(r);
    SectionErrorsEmptyIff(e, Tenth);
    SectionErrorsEmptyIff(e, Twelfth);
    SectionErrorsEmptyIff(e, Diploma);
    SectionErrorsEmptyIff(e, Graduation);
    assert (Lookup(r, Tenth).None? && Lookup(r, Twelfth).None? && Lookup(r, Diploma).None?
            && Lookup(r, Graduation).None?) ==> forall s :: Lookup(r, s).None?;
  }

  /** The checks key on the exact strings `"12th"` and `"Diploma"`; any other
      type, such as the `"diploma"` the education step's radio button stores,
      leaves both the twelfth and the diploma details unchecked, and the
      section is then valid on its tenth and graduation details alone. */
  lemma OtherTypeChecksNeither(e: EducationInfo)
    requires e.educationType != "12th" && e.educationType != "Diploma"
    ensures IsEducationInfoValid(ValidateEducationInfo(e)) <==>
              && e.tenth.passYear != "" && e.tenth.board != ""
              && e.graduation.completionYear != "" && !Blank(e.graduation.organization)
              && e.graduation.degree != "" && !Blank(e.graduation.major)
  {
    EducationInfoValidIff(e);
  }

  // ---------------------------------------------------------------------------
  // Job entries

  /** The end date's entry after both of its assignments: "required" when it
      is empty, replaced by the ordering error when both dates are present and
      the start is not before the end. */
  function EndDateError(j: JobEntry, dateGe: (string, string) -> bool): (r: Option<string>)
    ensures j.endDate == "" ==> r == Some(END_DATE_REQUIRED)
    ensures j.startDate != "" && j.endDate != "" ==>
              (r.Some? <==> dateGe(j.startDate, j.endDate)) && (r.Some? ==> r == Some(END_BEFORE_START))
    ensures j.startDate == "" && j.endDate != "" ==> r.None?
  {
    var required := Required(j.endDate, END_DATE_REQUIRED);
    if j.startDate != "" && j.endDate != "" && dateGe(j.startDate, j.endDate) then Some(END_BEFORE_START)
    else required
  }

  /** The check `validateJobEntry` runs on one field; the organization is never
      checked. */
  function JobEntryFieldError(j: JobEntry, f: JobField, dateGe: (string, string) -> bool): Option<string> {
    match f
    case StartDate => Required(j.startDate, START_DATE_REQUIRED)
    case EndDate => EndDateError(j, dateGe)
    case Designation => RequiredTrimmed(j.designation, DESIGNATION_REQUIRED)
    case JobType => Required(j.jobType, JOB_TYPE_REQUIRED)
    case Description => RequiredTrimmed(j.description, DESCRIPTION_REQUIRED)
    case JobOrganization => None
  }

  /** `validateJobEntry`: the record holds exactly the failing fields. */
  function ValidateJobEntry(j: JobEntry, dateGe: (string, string) -> bool): (r: JobErrors)
    ensures forall f :: Lookup(r, f) == JobEntryFieldError(j, f, dateGe)
  {
    map f: JobField | JobEntryFieldError(j, f, dateGe).Some? :: JobEntryFieldError(j, f, dateGe).value
  }

  /** Field by field: the organization never has an error, the ordering error
      replaces the end date's message only when both dates are present, and a
      blank designation or description is missing. */
  lemma ValidateJobEntrySpec(j: JobEntry, dateGe: (string, string) -> bool)
    ensures var r := ValidateJobEntry(j, dateGe);
      && JobOrganization !in r
      && (StartDate in r <==> j.startDate == "")
      && (StartDate in r ==> r[StartDate] == START_DATE_REQUIRED)
      && (j.endDate == "" ==> EndDate in r && r[EndDate] == END_DATE_REQUIRED)
      && (j.startDate != "" && j.endDate != "" ==>
            (EndDate in r <==> dateGe(j.startDate, j.endDate)) &&
            (EndDate in r ==> r[EndDate] == END_BEFORE_START))
      && (j.startDate == "" && j.endDate != "" ==> EndDate !in r)
      && (Designation in r <==> Blank(j.designation))
      && (JobType in r <==> j.jobType == "")
      && (Description in r <==> Blank(j.description))
  {
    var r := ValidateJobEntry(j, dateGe);
    assert Lookup(r, JobOrganization) == None;
    assert Lookup(r, StartDate) == Required(j.startDate, START_DATE_REQUIRED);
    assert Lookup(r, EndDate) == EndDateError(j, dateGe);
    assert Lookup(r, Designation) == RequiredTrimmed(j.designation, DESIGNATION_REQUIRED);
    assert Lookup(r, JobType) == Required(j.jobType, JOB_TYPE_REQUIRED);
    assert Lookup(r, Description) == RequiredTrimmed(j.description, DESCRIPTION_REQUIRED);
  }

  /** What a complete job entry is. */
  predicate JobRules(j: JobEntry, dateGe: (string, string) -> bool) {
    && j.startDate != "" && j.endDate != "" && !dateGe(j.startDate, j.endDate)
    && !Blank(j.designation) && j.jobType != "" && !Blank(j.description)
  }

  lemma JobEntryValidIff(j: JobEntry, dateGe: (string, string) -> bool)
    ensures |ValidateJobEntry(j, dateGe)| == 0 <==> JobRules(j, dateGe)
  {
    var r := ValidateJobEntry(j, dateGe);
    EmptyIffNoLookup(r);
    ValidateJobEntrySpec(j, dateGe);
    if JobRules(j, dateGe) {
      forall f ensures Lookup(r, f).None? {
        match f
        case StartDate =>
        case EndDate =>
        case Designation =>
        case JobType =>
        case Description =>
        case JobOrganization =>
      }
    }
  }

  /** Whether a job has at least one error. */
  predicate JobFails(j: JobEntry, dateGe: (string, string) -> bool) {
    |ValidateJobEntry(j, dateGe)| > 0
  }

  /** Each job's id paired with its error record, in list order. */
  function JobChecks(jobs: seq<JobEntry>, dateGe: (string, string) -> bool): (r: seq<(string, JobErrors)>)
    ensures |r| == |jobs|
    ensures forall i :: 0 <= i < |jobs| ==> r[i] == (jobs[i].id, ValidateJobEntry(jobs[i], dateGe))
  {
    seq(|jobs|, i requires 0 <= i < |jobs| => (jobs[i].id, ValidateJobEntry(jobs[i], dateGe)))
  }

  /** `if (Object.keys(entryErrors).length > 0) jobErrors[id] = entryErrors`
      over the pairs in order. */
  function RecordFailing(checks: seq<(string, JobErrors)>): map<string, JobErrors> {
    if checks == [] then map[]
    else
      var last := checks[|checks| - 1];
      var m := RecordFailing(checks[..|checks| - 1]);
      if |last.1| > 0 then m[last.0 := last.1] else m
  }

  /** No later pair with the same id as `checks[i]` records an error. */
  predicate LastWithId(checks: seq<(string, JobErrors)>, i: int)
    requires 0 <= i < |checks|
  {
    forall k :: i < k < |checks| && checks[k].0 == checks[i].0 ==> |checks[k].1| == 0
  }

  /** Every failing id is recorded, and nothing else. */
  lemma {:induction false} RecordFailingKeys(checks: seq<(string, JobErrors)>)
    ensures forall id :: id in RecordFailing(checks) <==>
              exists i :: 0 <= i < |checks| && checks[i].0 == id && |checks[i].1| > 0
  {
    if checks != [] {
      var n := |checks| - 1;
      var init, last := checks[..n], checks[n];
      RecordFailingKeys(init);
      var m := RecordFailing(checks);
      assert m == if |last.1| > 0 then RecordFailing(init)[last.0 := last.1] else RecordFailing(init);
      forall id ensures id in m <==> exists i :: 0 <= i < |checks| && checks[i].0 == id && |checks[i].1| > 0 {
        if id in m {
          if |last.1| > 0 && id == last.0 {
            assert checks[n].0 == id && |checks[n].1| > 0;
          } else {
            var i :| 0 <= i < |init| && init[i].0 == id && |init[i].1| > 0;
            assert checks[i] == init[i];
          }
        }
        if exists i :: 0 <= i < |checks| && checks[i].0 == id && |checks[i].1| > 0 {
          var i :| 0 <= i < |checks| && checks[i].0 == id && |checks[i].1| > 0;
          if i < n {
            assert init[i] == checks[i];
          }
        }
      }
    }
  }

  /** A failing id carries the errors of the last pair that records one. */
  lemma {:induction false} RecordFailingValues(checks: seq<(string, JobErrors)>)
    ensures forall i :: 0 <= i < |checks| && |checks[i].1| > 0 && LastWithId(checks, i)
              ==> checks[i].0 in RecordFailing(checks) && RecordFailing(checks)[checks[i].0] == checks[i].1
  {
    if checks != [] {
      var n := |checks| - 1;
      var init, last := checks[..n], checks[n];
      RecordFailingValues(init);
      var m := RecordFailing(checks);
      assert m == if |last.1| > 0 then RecordFailing(init)[last.0 := last.1] else RecordFailing(init);
      forall i | 0 <= i < |checks| && |checks[i].1| > 0 && LastWithId(checks, i)
        ensures checks[i].0 in m && m[checks[i].0] == checks[i].1
      {
        if i < n {
          assert init[i] == checks[i];
          forall k | i < k < |init| && init[k].0 == init[i].0 ensures |init[k].1| == 0 {
            assert init[k] == checks[k];
          }
          assert LastWithId(init, i);
          if |last.1| > 0 {
            assert last.0 != checks[i].0;
          }
        }
      }
    }
  }

  /** One more pair extends the fold by at most one entry. */
  lemma RecordFailingStep(checks: seq<(string, JobErrors)>, i: int)
    requires 0 <= i < |checks|
    ensures RecordFailing(checks[..i + 1]) ==
              if |checks[i].1| > 0 then RecordFailing(checks[..i])[checks[i].0 := checks[i].1]
              else RecordFailing(checks[..i])
  {
    assert checks[..i + 1][..i] == checks[..i];
  }

  /** The job errors of `validateWorkExperience`'s loop. */
  function JobErrorMap(jobs: seq<JobEntry>, dateGe: (string, string) -> bool): map<string, JobErrors> {
    RecordFailing(JobChecks(jobs, dateGe))
  }

  /** The loop records exactly the ids of failing jobs, each with the errors of
      the last failing job that carries it. */
  lemma JobErrorMapContents(jobs: seq<JobEntry>, dateGe: (string, string) -> bool)
    ensures forall id :: id in JobErrorMap(jobs, dateGe) <==>
              exists i :: 0 <= i < |jobs| && jobs[i].id == id && JobFails(jobs[i], dateGe)
    ensures forall i :: 0 <= i < |jobs| && JobFails(jobs[i], dateGe) &&
              (forall k :: i < k < |jobs| && jobs[k].id == jobs[i].id ==> !JobFails(jobs[k], dateGe))
              ==> jobs[i].id in JobErrorMap(jobs, dateGe) &&
                  JobErrorMap(jobs, dateGe)[jobs[i].id] == ValidateJobEntry(jobs[i], dateGe)
  {
    JobErrorMapKeys(jobs, dateGe);
    JobErrorMapValues(jobs, dateGe);
  }

  lemma JobErrorMapKeys(jobs: seq<JobEntry>, dateGe: (string, string) -> bool)
    ensures forall id :: id in JobErrorMap(jobs, dateGe) <==>
              exists i :: 0 <= i < |jobs| && jobs[i].id == id && JobFails(jobs[i], dateGe)
  {
    var checks := JobChecks(jobs, dateGe);
    RecordFailingKeys(checks);
    forall id ensures id in JobErrorMap(jobs, dateGe) <==>
              exists i :: 0 <= i < |jobs| && jobs[i].id == id && JobFails(jobs[i], dateGe)
    {
      if id in JobErrorMap(jobs, dateGe) {
        var i :| 0 <= i < |checks| && checks[i].0 == id && |checks[i].1| > 0;
        assert jobs[i].id == id && JobFails(jobs[i], dateGe);
      }
      if exists i :: 0 <= i < |jobs| && jobs[i].id == id && JobFails(jobs[i], dateGe) {
        var i :| 0 <= i < |jobs| && jobs[i].id == id && JobFails(jobs[i], dateGe);
        assert checks[i].0 == id && |checks[i].1| > 0;
      }
    }
  }

  lemma JobErrorMapValues(jobs: seq<JobEntry>, dateGe: (string, string) -> bool)
    ensures forall i :: 0 <= i < |jobs| && JobFails(jobs[i], dateGe) &&
              (forall k :: i < k < |jobs| && jobs[k].id == jobs[i].id ==> !JobFails(jobs[k], dateGe))
              ==> jobs[i].id in JobErrorMap(jobs, dateGe) &&
                  JobErrorMap(jobs, dateGe)[jobs[i].id] == ValidateJobEntry(jobs[i], dateGe)
  {
    var checks := JobChecks(jobs, dateGe);
    RecordFailingValues(checks);
    forall i | 0 <= i < |jobs| && JobFails(jobs[i], dateGe) &&
              (forall k :: i < k < |jobs| && jobs[k].id == jobs[i].id ==> !JobFails(jobs[k], dateGe))
      ensures jobs[i].id in JobErrorMap(jobs, dateGe) &&
              JobErrorMap(jobs, dateGe)[jobs[i].id] == ValidateJobEntry(jobs[i], dateGe)
    {
      assert checks[i] == (jobs[i].id, ValidateJobEntry(jobs[i], dateGe));
      forall k | i < k < |checks| && checks[k].0 == checks[i].0 ensures |checks[k].1| == 0 {
        assert checks[k] == (jobs[k].id, ValidateJobEntry(jobs[k], dateGe));
      }
      assert LastWithId(checks, i);
    }
  }

  /** The `forEach` loop of `validateWorkExperience`, run in order over the
      jobs. */
  method CollectJobErrors(jobs: seq<JobEntry>, dateGe: (string, string) -> bool)
    returns (m: map<string, JobErrors>)
    ensures m == JobErrorMap(jobs, dateGe)
  {
    ghost var checks := JobChecks(jobs, dateGe);
    m := map[];
    var i := 0;
    while i < |jobs|
      invariant 0 <= i <= |jobs|
      invariant m == RecordFailing(checks[..i])
    {
      var entryErrors := ValidateJobEntry(jobs[i], dateGe);
      RecordFailingStep(checks, i);
      assert checks[i] == (jobs[i].id, entryErrors);
      if |entryErrors| > 0 {
        m := m[jobs[i].id := entryErrors];
      }
      i := i + 1;
    }
    assert checks[..i] == checks;
  }

  // ---------------------------------------------------------------------------
  // Work experience

  /** Some job of the list has an error. */
  predicate SomeJobFails(jobs: seq<JobEntry>, dateGe: (string, string) -> bool) {
    exists i :: 0 <= i < |jobs| && JobFails(jobs[i], dateGe)
  }

  /** `errors.jobs`: set only when the loop recorded something, which is
      exactly when some job fails. */
  function JobsEntry(jobs: seq<JobEntry>, dateGe: (string, string) -> bool): (r: Option<map<string, JobErrors>>)
    ensures r.Some? <==> SomeJobFails(jobs, dateGe)
    ensures r.Some? ==> r.value == JobErrorMap(jobs, dateGe)
  {
    if |jobs| > 0 then
      var jobErrors := JobErrorMap(jobs, dateGe);
      JobErrorMapEmptyIff(jobs, dateGe);
      if |jobErrors| > 0 then Some(jobErrors) else None
    else None
  }

  /** The loop records something exactly when some job fails. */
  lemma JobErrorMapEmptyIff(jobs: seq<JobEntry>, dateGe: (string, string) -> bool)
    ensures |JobErrorMap(jobs, dateGe)| > 0 <==> SomeJobFails(jobs, dateGe)
  {
    JobErrorMapContents(jobs, dateGe);
    var m := JobErrorMap(jobs, dateGe);
    if SomeJobFails(jobs, dateGe) {
      var i :| 0 <= i < |jobs| && JobFails(jobs[i], dateGe);
      assert jobs[i].id in m;
    }
    if |m| > 0 {
      var id :| id in m;
    }
  }

  /** The check `validateWorkExperience` runs on one string field. */
  function WorkFieldError(w: WorkExperience, f: WorkField, env: Env): Option<string> {
    match f
    case TotalExperience => TotalExperienceError(w.totalExperience)
    case CurrentCTC => CtcError(w.currentCTC, CURRENT_CTC_REQUIRED)
    case ExpectedCTC => CtcError(w.expectedCTC, EXPECTED_CTC_REQUIRED)
    case AvailableFrom => AvailableFromError(w.availableFrom, env.today)
  }

  /** `validateWorkExperience`: each string field's check in turn, and a
      `jobs` record that is present exactly when some job fails. */
  function ValidateWorkExperience(w: WorkExperience, env: Env): (r: WorkErrors)
    ensures forall f :: Lookup(r.fields, f) == WorkFieldError(w, f, env)
    ensures r.jobs.Some? <==> SomeJobFails(w.jobs, env.dateGe)
    ensures r.jobs.Some? ==> r.jobs.value == JobErrorMap(w.jobs, env.dateGe)
  {
    WorkErrors(
      map f: WorkField | WorkFieldError(w, f, env).Some? :: WorkFieldError(w, f, env).value,
      JobsEntry(w.jobs, env.dateGe))
  }

  /** What a complete work section is. */
  predicate WorkRules(w: WorkExperience, env: Env) {
    && w.totalExperience != "" && DecimalPattern(w.totalExperience)
    && w.currentCTC != "" && DigitsAndDots(w.currentCTC)
    && w.expectedCTC != "" && DigitsAndDots(w.expectedCTC)
    && ParseStrict(w.availableFrom).Some? && Before(env.today, ParseStrict(w.availableFrom).value)
    && forall i :: 0 <= i < |w.jobs| ==> JobRules(w.jobs[i], env.dateGe)
  }

  /** `isWorkExperienceValid`: the record has no keys. */
  predicate IsWorkExperienceValid(e: WorkErrors) {
    WorkKeyCount(e) == 0
  }

  /** The four string fields pass exactly when each field's own check does. */
  lemma WorkFieldsCleanIff(w: WorkExperience, env: Env)
    ensures |ValidateWorkExperience(w, env).fields| == 0 <==>
      && TotalExperienceError(w.totalExperience).None?
      && CtcError(w.currentCTC, CURRENT_CTC_REQUIRED).None?
      && CtcError(w.expectedCTC, EXPECTED_CTC_REQUIRED).None?
      && AvailableFromError(w.availableFrom, env.today).None?
  {
    var r := ValidateWorkExperience(w, env).fields;
    EmptyIffNoLookup(r);
    if && TotalExperienceError(w.totalExperience).None?
       && CtcError(w.currentCTC, CURRENT_CTC_REQUIRED).None?
       && CtcError(w.expectedCTC, EXPECTED_CTC_REQUIRED).None?
       && AvailableFromError(w.availableFrom, env.today).None? {
      forall f ensures Lookup(r, f).None? {
        match f
        case TotalExperience =>
        case CurrentCTC =>
        case ExpectedCTC =>
        case AvailableFrom =>
      }
    } else {
      assert || Lookup(r, TotalExperience).Some? || Lookup(r, CurrentCTC).Some?
             || Lookup(r, ExpectedCTC).Some? || Lookup(r, AvailableFrom).Some?;
    }
  }

  /** No job fails exactly when every job satisfies its rules. */
  lemma NoJobFailsIff(jobs: seq<JobEntry>, dateGe: (string, string) -> bool)
    ensures !SomeJobFails(jobs, dateGe) <==> forall i :: 0 <= i < |jobs| ==> JobRules(jobs[i], dateGe)
  {
    forall i | 0 <= i < |jobs| ensures JobFails(jobs[i], dateGe) <==> !JobRules(jobs[i], dateGe) {
      JobEntryValidIff(jobs[i], dateGe);
    }
  }

  lemma WorkExperienceValidIff(w: WorkExperience, env: Env)
    ensures IsWorkExperienceValid(ValidateWorkExperience(w, env)) <==> WorkRules(w, env)
  {
    WorkFieldsCleanIff(w, env);
    NoJobFailsIff(w.jobs, env.dateGe);
    TotalExperienceErrorSpec(w.totalExperience);
    CtcErrorSpec(w.currentCTC, CURRENT_CTC_REQUIRED);
    CtcErrorSpec(w.expectedCTC, EXPECTED_CTC_REQUIRED);
    AvailableFromErrorSpec(w.availableFrom, env.today);
  }

  // ---------------------------------------------------------------------------
  // The whole form and the step dispatcher

  /** `validateForm`: the three section results side by side. */
  function ValidateForm(d: FormData, env: Env): (r: FormErrors)
    ensures r.personalInfo == ValidatePersonalInfo(d.personalInfo, env.today)
    ensures r.educationInfo == ValidateEducationInfo(d.educationInfo)
    ensures r.workExperience == ValidateWorkExperience(d.workExperience, env)
  {
    FormErrors(
      ValidatePersonalInfo(d.personalInfo, env.today),
      ValidateEducationInfo(d.educationInfo),
      ValidateWorkExperience(d.workExperience, env))
  }

  /** The condition `handleSubmit` tests: some section has a key. */
  predicate HasErrors(e: FormErrors) {
    |e.personalInfo| > 0 || |e.educationInfo| > 0 || WorkKeyCount(e.workExperience) > 0
  }

  /** The whole form validates clean exactly when every section's rules hold. */
  lemma FormValidIff(d: FormData, env: Env)
    ensures !HasErrors(ValidateForm(d, env)) <==>
              PersonalInfoRules(d.personalInfo, env.today) && EducationRules(d.educationInfo)
              && WorkRules(d.workExperience, env)
  {
    PersonalInfoValidIff(d.personalInfo, env.today);
    EducationInfoValidIff(d.educationInfo);
    WorkExperienceValidIff(d.workExperience, env);
  }

  /** The result of `validateStep`, one of the three section records. */
  datatype StepErrors =
    | PersonalStep(personal: PersonalErrors)
    | EducationStep(education: EducationErrors)
    | WorkStep(work: WorkErrors)
    | NoStep

  /** `Object.keys(stepErrors).length`. */
  function KeyCount(e: StepErrors): nat {
    match e
    case PersonalStep(m) => |m|
    case EducationStep(m) => |m|
    case WorkStep(w) => WorkKeyCount(w)
    case NoStep => 0
  }

  /** The section of a form's errors that belongs to a step, and no keys for
      any other index. */
  function StepOf(e: FormErrors, step: int): StepErrors {
    if step == 0 then PersonalStep(e.personalInfo)
    else if step == 1 then EducationStep(e.educationInfo)
    else if step == 2 then WorkStep(e.workExperience)
    else NoStep
  }

  /** `validateStep`: the step's section of `validateForm`, and `{}` for any
      other index. */
  function ValidateStep(step: int, d: FormData, env: Env): (r: StepErrors)
    ensures r == StepOf(ValidateForm(d, env), step)
    ensures !(0 <= step <= 2) ==> KeyCount(r) == 0
  {
    if step == 0 then PersonalStep(ValidatePersonalInfo(d.personalInfo, env.today))
    else if step == 1 then EducationStep(ValidateEducationInfo(d.educationInfo))
    else if step == 2 then WorkStep(ValidateWorkExperience(d.workExperience, env))
    else NoStep
  }

  /** What a complete step is: the rules of its section, and nothing for an
      index outside the three steps. */
  predicate StepRules(step: int, d: FormData, env: Env) {
    if step == 0 then PersonalInfoRules(d.personalInfo, env.today)
    else if step == 1 then EducationRules(d.educationInfo)
    else if step == 2 then WorkRules(d.workExperience, env)
    else true
  }

  /** `validateStep` reports no keys exactly when the step's rules hold. */
  lemma StepValidIff(step: int, d: FormData, env: Env)
    ensures KeyCount(ValidateStep(step, d, env)) == 0 <==> StepRules(step, d, env)
  {
    if step == 0 {
      PersonalInfoValidIff(d.personalInfo, env.today);
    } else if step == 1 {
      EducationInfoValidIff(d.educationInfo);
    } else if step == 2 {
      WorkExperienceValidIff(d.workExperience, env);
    }
  }

  /** A form's errors are empty exactly when each of its three steps is. */
  lemma NoErrorsIffStepsEmpty(e: FormErrors)
    ensures !HasErrors(e) <==> forall step :: 0 <= step <= 2 ==> KeyCount(StepOf(e, step)) == 0
  {
    assert KeyCount(StepOf(e, 0)) == |e.personalInfo|;
    assert KeyCount(StepOf(e, 1)) == |e.educationInfo|;
    assert KeyCount(StepOf(e, 2)) == WorkKeyCount(e.workExperience);
  }

  /** The form has no errors exactly when none of the three steps has any. */
  lemma FormCleanIffStepsClean(d: FormData, env: Env)
    ensures !HasErrors(ValidateForm(d, env)) <==>
              forall step :: 0 <= step <= 2 ==> KeyCount(ValidateStep(step, d, env)) == 0
  {
    var e := ValidateForm(d, env);
    NoErrorsIffStepsEmpty(e);
    assert ValidateStep(0, d, env) == StepOf(e, 0);
    assert ValidateStep(1, d, env) == StepOf(e, 1);
    assert ValidateStep(2, d, env) == StepOf(e, 2);
    assert forall step :: 0 <= step <= 2 ==> ValidateStep(step, d, env) == StepOf(e, step);
  }

  // ---------------------------------------------------------------------------
  // Lemmas about the patterns

  /** An address is not white space: it holds an `@`. */
  lemma EmailPatternNotBlank(s: string)
    ensures EmailPattern(s) ==> !Blank(s)
  {
    if EmailPattern(s) {
      var at, dot :| 0 < at < dot < |s| && s[at] == '@' && s[dot] == '.'
        && LocalRun(s[..at]) && DomainRun(s[at + 1..dot]) && TopLevelRun(s[dot + 1..]);
      assert !IsJsWhitespace(s[at]);
    }
  }

  /** Every local part, domain and top-level run form an accepted address. */
  lemma EmailOfParts(local: string, domain: string, tld: string)
    requires LocalRun(local) && DomainRun(domain) && TopLevelRun(tld)
    ensures EmailPattern(local + "@" + domain + "." + tld)
  {
    var s := local + "@" + domain + "." + tld;
    var at, dot := |local|, |local| + 1 + |domain|;
    assert s[..at] == local;
    assert s[at + 1..dot] == domain;
    assert s[dot + 1..] == tld;
    assert s[at] == '@' && s[dot] == '.';
    assert LocalRun(s[..at]) && DomainRun(s[at + 1..dot]) && TopLevelRun(s[dot + 1..]);
  }

  /** The pattern is lower case only: an upper-case letter anywhere rejects the
      address. */
  lemma EmailRejectsUpperCase(s: string, i: int)
    requires 0 <= i < |s| && IsAsciiUpper(s[i])
    ensures !EmailPattern(s)
  {
    forall at, dot | 0 < at < dot < |s|
      ensures !(s[at] == '@' && s[dot] == '.'
               && LocalRun(s[..at]) && DomainRun(s[at + 1..dot]) && TopLevelRun(s[dot + 1..]))
    {
      if i < at {
        assert s[..at][i] == s[i];
      } else if at < i < dot {
        assert s[at + 1..dot][i - at - 1] == s[i];
      } else if dot < i {
        assert s[dot + 1..][i - dot - 1] == s[i];
      }
    }
  }

  /** An accepted address holds exactly one `@`. */
  lemma EmailHasOneAt(s: string, i: int, j: int)
    requires EmailPattern(s)
    requires 0 <= i < |s| && 0 <= j < |s| && s[i] == '@' && s[j] == '@'
    ensures i == j
  {
    var at, dot :| 0 < at < dot < |s| && s[at] == '@' && s[dot] == '.'
      && LocalRun(s[..at]) && DomainRun(s[at + 1..dot]) && TopLevelRun(s[dot + 1..]);
    if i != at { NoOtherAt(s, at, dot, i); }
    if j != at { NoOtherAt(s, at, dot, j); }
  }

  /** In a split of an accepted address, the `@` separator is the only one. */
  lemma NoOtherAt(s: string, at: int, dot: int, i: int)
    requires 0 < at < dot < |s| && s[at] == '@' && s[dot] == '.'
    requires LocalRun(s[..at]) && DomainRun(s[at + 1..dot]) && TopLevelRun(s[dot + 1..])
    requires 0 <= i < |s| && i != at
    ensures s[i] != '@'
  {
    if i < at {
      assert s[..at][i] == s[i];
    } else if at < i < dot {
      assert s[at + 1..dot][i - at - 1] == s[i];
    } else if dot < i {
      assert s[dot + 1..][i - dot - 1] == s[i];
    }
  }

  /** The decimal pattern is exactly: digits and dots, with at most one dot. */
  lemma DecimalPatternIff(s: string)
    ensures DecimalPattern(s) <==> DigitsAndDots(s) && AtMostOneDot(s)
  {
    if DecimalPattern(s) {
      var p :| 0 <= p <= |s| && AllDigits(s[..p])
        && (AllDigits(s[p..]) || (p < |s| && s[p] == '.' && AllDigits(s[p + 1..])));
      forall i | 0 <= i < |s| ensures (IsAsciiDigit(s[i]) || s[i] == '.') && (s[i] == '.' ==> i == p) {
        if i < p {
          assert s[..p][i] == s[i];
        } else if AllDigits(s[p..]) {
          assert s[p..][i - p] == s[i];
        } else if i > p {
          assert s[p + 1..][i - p - 1] == s[i];
        }
      }
    }
    if DigitsAndDots(s) && AtMostOneDot(s) {
      if k :| 0 <= k < |s| && s[k] == '.' {
        forall i | 0 <= i < k ensures IsAsciiDigit(s[..k][i]) {
          assert s[..k][i] == s[i];
        }
        var rest := s[k + 1..];
        forall i | 0 <= i < |rest| ensures IsAsciiDigit(rest[i]) {
          assert rest[i] == s[k + 1 + i];
        }
        assert AllDigits(s[..k]) && s[k] == '.' && AllDigits(s[k + 1..]);
      } else {
        assert s[..|s|] == s;
        assert AllDigits(s[..|s|]) && AllDigits(s[|s|..]);
      }
    }
  }

  /** A string that matches the decimal pattern carries no sign, so the
      experience check for a negative value never fires. */
  lemma DecimalPatternHasNoSign(s: string)
    requires DecimalPattern(s)
    ensures !LeadsWithMinus(s)
  {
    DecimalPatternIff(s);
    if |s| > 0 {
      assert !IsJsWhitespace(s[0]);
      assert TrimStart(s) == s;
    }
  }

  /** Removing every dot leaves only digits exactly when the string is made of
      digits and dots. */
  lemma {:induction false} DigitsAfterRemovingDots(s: string)
    ensures AllDigits(RemoveAll(s, '.')) <==> DigitsAndDots(s)
  {
    if s != [] {
      DigitsAfterRemovingDots(s[1..]);
      var head := if s[0] == '.' then [] else [s[0]];
      assert RemoveAll(s, '.') == head + RemoveAll(s[1..], '.');
      if DigitsAndDots(s) {
        assert forall i :: 0 <= i < |s[1..]| ==> s[1..][i] == s[i + 1];
      }
      if AllDigits(RemoveAll(s, '.')) {
        assert forall i :: 0 <= i < |RemoveAll(s[1..], '.')| ==>
          RemoveAll(s[1..], '.')[i] == RemoveAll(s, '.')[i + |head|];
        forall i | 0 <= i < |s| ensures IsAsciiDigit(s[i]) || s[i] == '.' {
          if i > 0 {
            assert s[1..][i - 1] == s[i];
          } else if s[0] != '.' {
            assert RemoveAll(s, '.')[0] == s[0];
          }
        }
      }
    }
  }

  /** Total experience takes at most one dot, while a CTC takes any number. */
  lemma CtcAcceptsRepeatedDots()
    ensures CtcError("1.2.3", CURRENT_CTC_REQUIRED) == None
    ensures TotalExperienceError("1.2.3") == Some(EXPERIENCE_NOT_NUMBER)
  {
    var s := "1.2.3";
    assert DigitsAndDots(s);
    CtcErrorSpec(s, CURRENT_CTC_REQUIRED);
    TotalExperienceErrorSpec(s);
    DecimalPatternIff(s);
    assert s[1] == '.' && s[3] == '.';
  }

  // ---------------------------------------------------------------------------
  // Date boundaries

  /** A date of birth of today is accepted and one of tomorrow is rejected. */
  lemma DateOfBirthBoundary(today: CalendarDay)
    requires Representable(today) && Representable(NextDay(today))
    ensures DateOfBirthError(Format(today), today) == None
    ensures DateOfBirthError(Format(NextDay(today)), today) == Some(DOB_FUTURE)
  {
    ParseStrictOfFormat(today);
    ParseStrictOfFormat(NextDay(today));
    DateOfBirthErrorSpec(Format(today), today);
    DateOfBirthErrorSpec(Format(NextDay(today)), today);
  }

  /** An availability date of today is rejected and one of tomorrow is
      accepted. */
  lemma AvailableFromBoundary(today: CalendarDay)
    requires Representable(today) && Representable(NextDay(today))
    ensures AvailableFromError(Format(today), today) == Some(AVAILABLE_NOT_FUTURE)
    ensures AvailableFromError(Format(NextDay(today)), today) == None
  {
    ParseStrictOfFormat(today);
    ParseStrictOfFormat(NextDay(today));
    AvailableFromErrorSpec(Format(today), today);
    AvailableFromErrorSpec(Format(NextDay(today)), today);
  }

  /** A well-shaped date in a year before 100 is no date at all to the strict
      parse: both date fields report it as invalid, not as a date in the
      past or the future. */
  lemma EarlyYearIsInvalid(s: string, today: CalendarDay)
    requires DateShape(s) && Fields(s).year < MIN_STRICT_YEAR
    ensures DateOfBirthError(s, today) == Some(DOB_INVALID)
    ensures AvailableFromError(s, today) == Some(AVAILABLE_INVALID)
  {
    assert s != "" by {
      assert |s| == 10;
    }
  }

  /** The year 0050 in either date field. */
  lemma YearFiftyIsInvalid(today: CalendarDay)
    ensures DateOfBirthError("15/06/0050", today) == Some(DOB_INVALID)
    ensures AvailableFromError("01/01/0050", today) == Some(AVAILABLE_INVALID)
  {
    assert DateShape("15/06/0050") && Fields("15/06/0050").year == 50;
    assert DateShape("01/01/0050") && Fields("01/01/0050").year == 50;
    EarlyYearIsInvalid("15/06/0050", today);
    EarlyYearIsInvalid("01/01/0050", today);
  }
}
