/** The form's records: the shapes of `src/types/index.ts`, widened with the
    fields the live code reads and writes although that file lacks them
    (`about`, a job's `organization`, `skills`), and the error records the
    validators return. A missing key in an error map means the field is valid. */
module Types {
  import opened Wrappers

  // ---------------------------------------------------------------------------
  // Form data

  datatype PersonalInfo = PersonalInfo(
    firstName: string,
    middleName: string,
    lastName: string,
    countryCode: string,
    phoneNumber: string,
    email: string,
    dateOfBirth: string,
    about: string)

  /** Tenth and twelfth details share one shape. */
  datatype SchoolDetails = SchoolDetails(passYear: string, board: string)

  datatype DiplomaDetails = DiplomaDetails(passYear: string, organization: string, major: string)

  datatype GraduationDetails = GraduationDetails(
    completionYear: string, organization: string, degree: string, major: string)

  /** `educationType` stays a string: the radio button emits `"diploma"` and
      `"12th"`, the type change handler stores any string it is given. */
  datatype EducationInfo = EducationInfo(
    tenth: SchoolDetails,
    educationType: string,
    twelfth: SchoolDetails,
    diploma: DiplomaDetails,
    graduation: GraduationDetails)

  datatype JobEntry = JobEntry(
    id: string,
    startDate: string,
    endDate: string,
    designation: string,
    jobType: string,
    description: string,
    organization: string)

  datatype WorkExperience = WorkExperience(
    totalExperience: string,
    jobs: seq<JobEntry>,
    skills: seq<string>,
    currentCTC: string,
    expectedCTC: string,
    availableFrom: string)

  /** A draft (no `id`, no timestamps) or a stored submission. */
  datatype FormData = FormData(
    id: Option<string>,
    personalInfo: PersonalInfo,
    educationInfo: EducationInfo,
    workExperience: WorkExperience,
    createdAt: Option<string>,
    updatedAt: Option<string>)

  // ---------------------------------------------------------------------------
  // Field names, as the step components pass them to the wizard's handlers

  datatype PersonalField =
    FirstName | MiddleName | LastName | CountryCode | PhoneNumber | Email | DateOfBirth | About

  datatype EduSection = Tenth | Twelfth | Diploma | Graduation

  datatype EduField = PassYear | Board | Organization | Major | CompletionYear | Degree

  /** The string fields of the work section (`jobs` and `skills` have their own handlers). */
  datatype WorkField = TotalExperience | CurrentCTC | ExpectedCTC | AvailableFrom

  datatype JobField =
    StartDate | EndDate | Designation | JobType | Description | JobOrganization

  // ---------------------------------------------------------------------------
  // Error records

  type PersonalErrors = map<PersonalField, string>

  /** A section key is present when some field of that section has an error. */
  type EducationErrors = map<EduSection, map<EduField, string>>

  type JobErrors = map<JobField, string>

  /** `jobs` is absent or maps job ids to their error records. */
  datatype WorkErrors = WorkErrors(fields: map<WorkField, string>, jobs: Option<map<string, JobErrors>>)

  datatype FormErrors = FormErrors(
    personalInfo: PersonalErrors,
    educationInfo: EducationErrors,
    workExperience: WorkErrors)

  /** `Object.keys(errors).length` of a work error record. */
  function WorkKeyCount(e: WorkErrors): nat {
    |e.fields| + (if e.jobs.Some? then 1 else 0)
  }

  // ---------------------------------------------------------------------------
  // Reading and writing one field by name (`{ ...data, [field]: value }`)

  function GetPersonal(p: PersonalInfo, f: PersonalField): string {
    match f
    case FirstName => p.firstName
    case MiddleName => p.middleName
    case LastName => p.lastName
    case CountryCode => p.countryCode
    case PhoneNumber => p.phoneNumber
    case Email => p.email
    case DateOfBirth => p.dateOfBirth
    case About => p.about
  }

  function SetPersonal(p: PersonalInfo, f: PersonalField, v: string): (r: PersonalInfo)
    ensures forall g :: GetPersonal(r, g) == if g == f then v else GetPersonal(p, g)
  {
    match f
    case FirstName => p.(firstName := v)
    case MiddleName => p.(middleName := v)
    case LastName => p.(lastName := v)
    case CountryCode => p.(countryCode := v)
    case PhoneNumber => p.(phoneNumber := v)
    case Email => p.(email := v)
    case DateOfBirth => p.(dateOfBirth := v)
    case About => p.(about := v)
  }

  /** Whether `section.field` exists in the education record. */
  predicate InSection(s: EduSection, f: EduField) {
    match s
    case Tenth => f == PassYear || f == Board
    case Twelfth => f == PassYear || f == Board
    case Diploma => f == PassYear || f == Organization || f == Major
    case Graduation => f == CompletionYear || f == Organization || f == Degree || f == Major
  }

  function GetSchool(d: SchoolDetails, f: EduField): string
    requires f == PassYear || f == Board
  {
    if f == PassYear then d.passYear else d.board
  }

  function GetEducation(e: EducationInfo, s: EduSection, f: EduField): string
    requires InSection(s, f)
  {
    match s
    case Tenth => GetSchool(e.tenth, f)
    case Twelfth => GetSchool(e.twelfth, f)
    case Diploma =>
      if f == PassYear then e.diploma.passYear
      else if f == Organization then e.diploma.organization
      else e.diploma.major
    case Graduation =>
      if f == CompletionYear then e.graduation.completionYear
      else if f == Organization then e.graduation.organization
      else if f == Degree then e.graduation.degree
      else e.graduation.major
  }

  function SetSchool(d: SchoolDetails, f: EduField, v: string): SchoolDetails {
    if f == PassYear then d.(passYear := v)
    else if f == Board then d.(board := v)
    else d
  }

  /** `handleEducationChange`'s update of `section.field`; a pair outside the
      schema leaves every modelled field as it was. */
  function SetEducation(e: EducationInfo, s: EduSection, f: EduField, v: string): (r: EducationInfo)
    ensures r.educationType == e.educationType
    ensures InSection(s, f) ==> GetEducation(r, s, f) == v
    ensures forall s', f' :: InSection(s', f') && (s', f') != (s, f) ==>
              GetEducation(r, s', f') == GetEducation(e, s', f')
  {
    match s
    case Tenth => e.(tenth := SetSchool(e.tenth, f, v))
    case Twelfth => e.(twelfth := SetSchool(e.twelfth, f, v))
    case Diploma =>
      if f == PassYear then e.(diploma := e.diploma.(passYear := v))
      else if f == Organization then e.(diploma := e.diploma.(organization := v))
      else if f == Major then e.(diploma := e.diploma.(major := v))
      else e
    case Graduation =>
      if f == CompletionYear then e.(graduation := e.graduation.(completionYear := v))
      else if f == Organization then e.(graduation := e.graduation.(organization := v))
      else if f == Degree then e.(graduation := e.graduation.(degree := v))
      else if f == Major then e.(graduation := e.graduation.(major := v))
      else e
  }

  function GetWork(w: WorkExperience, f: WorkField): string {
    match f
    case TotalExperience => w.totalExperience
    case CurrentCTC => w.currentCTC
    case ExpectedCTC => w.expectedCTC
    case AvailableFrom => w.availableFrom
  }

  function SetWork(w: WorkExperience, f: WorkField, v: string): (r: WorkExperience)
    ensures r.jobs == w.jobs && r.skills == w.skills
    ensures forall g :: GetWork(r, g) == if g == f then v else GetWork(w, g)
  {
    match f
    case TotalExperience => w.(totalExperience := v)
    case CurrentCTC => w.(currentCTC := v)
    case ExpectedCTC => w.(expectedCTC := v)
    case AvailableFrom => w.(availableFrom := v)
  }

  function GetJob(j: JobEntry, f: JobField): string {
    match f
    case StartDate => j.startDate
    case EndDate => j.endDate
    case Designation => j.designation
    case JobType => j.jobType
    case Description => j.description
    case JobOrganization => j.organization
  }

  function SetJob(j: JobEntry, f: JobField, v: string): (r: JobEntry)
    ensures r.id == j.id
    ensures forall g :: GetJob(r, g) == if g == f then v else GetJob(j, g)
  {
    match f
    case StartDate => j.(startDate := v)
    case EndDate => j.(endDate := v)
    case Designation => j.(designation := v)
    case JobType => j.(jobType := v)
    case Description => j.(description := v)
    case JobOrganization => j.(organization := v)
  }
}
