# Multi-step wizard form: a verified model of its core

The Multi_Step_Wizard_React application collects a job application in a
three-step wizard: personal information, education details and work
experience. Each step is checked by a validator before the user may move on.
A submission that passes every check is stored in the browser's IndexedDB
object store `submissions`.

This project models in Dafny the part of the application that decides what
is valid and what is stored:

- `validation.dfy`: the field rules and the validators of
  `src/utils/validation.ts`. It covers `validatePersonalInfo`,
  `validateEducationInfo`, `validateJobEntry`, `validateWorkExperience`, the
  three `is…Valid` tests, `validateForm` and `validateStep`.
  - Every validator is a function returning an error record. A map keyed by
    the field names holds exactly the failing fields, each with the source's
    message.
  - Each section also has a predicate saying what a complete section is. An
    all-inputs lemma proves the validator reports nothing exactly when that
    predicate holds.
  - The job loop of `validateWorkExperience` is also a method with its loop
    invariant, proved against the fold that specifies it.
- `wizard.dfy`: the `Wizard` component of
  `src/components/Wizard/Wizard.tsx` as a class.
  - It has four fields: `activeStep`, `formData`, `errors` and `touched`.
  - There is one method per event handler: next, back, submit, and change and
    blur for each section, for jobs and skills. It also has `isStepValid`,
    the Back button's guard and the submission gate.
  - A handler that validates `formData` reads the data as it was when the
    handler began, as the React closure does. So the change handlers of the
    education and work sections report the error of the value before the
    change.
- `indexeddb.dfy`: `src/services/indexedDB.ts`.
  - The object store is a class over a map keyed by `id`. The table follows
    the semantics of the W3C Indexed Database API: `add` refuses a taken key,
    `put` overwrites, and `delete` of a missing key succeeds.
  - It also models `generateId` and the five submission operations.
- `constants.dfy`: `STEPS`, `JOB_TYPE_OPTIONS`, `YEAR_OPTIONS` and
  `generateYearOptions` of `src/utils/constants.ts`.
- `work_experience.dfy`: `createEmptyJob` of `src/utils/workExperience.ts`.
- `types.dfy`: the form records, from `src/types/index.ts`. They are widened
  with the fields the live code uses although that file lacks them:
  `about`, a job's `organization`, and `skills`.
- `jsstring.dfy`: the JavaScript primitives the rules depend on.
  - The white-space set of `trim` and `\s`, and `length` in UTF-16 code units.
  - `replace` with a string and with a global pattern.
  - `toLowerCase` on ASCII text, `toString` on integers, and `parseInt`.
- `dates.dfy`: the strict `DD/MM/YYYY` parse of dayjs, which accepts the
  years 100 to 9999, the Gregorian calendar, and day-granularity comparison.
- `scenarios.dfy`: forms run through the rules.
  - A completely filled-in form validates clean on every step and is stored.
  - Any form with a blank `about`, which is every form the screens can
    produce, is stopped on the first step and at submission.
  - Any form with a five-digit phone number is stopped the same way.

Outside inputs become parameters:

- **The current day.** It is a `CalendarDay`, the `today` field of `Env`.
- **`new Date(a) >= new Date(b)`.** The job date comparison is the function
  `dateGe` of `Env`, because its parse depends on the JavaScript engine.
- **Random draws.** The eight `Math.random()` draws of `generateId` are a
  sequence of reals in `[0, 1)`. Multiplying by 16 is exact in binary
  floating point, so the model is exact.
- **Clock readings.** The two readings for `createdAt` and `updatedAt` are
  strings.
- **The object store.** It is an `ObjectStore` object.

Where the code disagrees with itself, the model follows the validator:

- **The Diploma path.** The type `EducationType` is `'diploma' | '12th'`
  (`src/types/index.ts:14`), and the education step's radio button stores
  `"diploma"` (`src/components/Wizard/Steps/EducationInfoStep.tsx:114`). The
  validator tests `"12th"` and `"Diploma"` (`src/utils/validation.ts:91-118`).
  So choosing Diploma in the form leaves both the twelfth-grade and the
  diploma details unchecked. `Validation.OtherTypeChecksNeither` states this.
- **The year list.** A comment in `generateYearOptions` speaks of starting
  at birth year + 10. The code starts at the birth year itself, and the model
  does the same.

Facts that verifying the model brings out:

- **The negative-experience check never fires.** The decimal pattern admits
  no sign, so this check cannot fire (`Validation.TotalExperienceErrorSpec`).
- **CTC amounts accept any number of dots.** Total experience accepts at most
  one (`Validation.CtcAcceptsRepeatedDots`).
- **`handleNext` writes under step labels.** It stores step errors under the
  keys `"personalinformation"`, `"educationdetails"` and `"workexperience"`.
  These sit beside the three section records and never replace them
  (`WizardController.StepKeys`).
- **The live wizard cannot leave the first step.** The initial data sets
  `about` to `""` (`src/components/Wizard/Wizard.tsx:40`). The first-step
  component renders no input for it and passes only the other seven fields
  to the change handler
  (`src/components/Wizard/Steps/PersonalInfoStep.tsx:44-158`). So "About is
  required" always holds on step 0, the Next button stays disabled
  (`src/components/Wizard/Wizard.tsx:605`), and `handleNext` would stay put
  (`Scenarios.AboutStaysBlank`, `Scenarios.BlankAboutIsBlocked`,
  `Scenarios.NextWithBlankAbout`). The filled-in form of `scenarios.dfy`
  sets `about` by hand: it shows what the validators accept, in a state the
  screens cannot reach.
- **Years before 100 are no dates.** The strict parse builds the date with
  `new Date(y, M, d)`, which reads a year from 0 to 99 as 1900 + y, so the
  re-formatted date never equals the input. Such a date of birth is
  "Invalid date of birth" and such an availability date is "Invalid date"
  (`Validation.EarlyYearIsInvalid`).

## Model

| member | source | states |
|---|---|---|
| JsString.Trim | src/utils/validation.ts:24-24 | `trim()` is empty exactly when the text is all JavaScript white space; otherwise it neither starts nor ends with white space |
| JsString.Utf16Length | src/utils/validation.ts:71-71 | `length` counts UTF-16 code units: at least one and at most two per character, exactly one when every character is in the basic plane |
| JsString.RemoveFirstAfter | src/components/Wizard/Wizard.tsx:139-139 | `replace(" ", "")` removes exactly the first occurrence: the text before it, then the text after it |
| JsString.RemoveFirst | src/components/Wizard/Wizard.tsx:139-139 | `replace(" ", "")` without a space returns the text unchanged; with one, the text is one character shorter |
| JsString.RemoveAll | src/utils/validation.ts:204-204 | `replace(/\./g, "")` leaves no dot and keeps every other character with its count |
| JsString.AsciiLower | src/components/Wizard/Wizard.tsx:139-139 | `toLowerCase()` keeps the length, leaves no upper-case ASCII letter and keeps every other character |
| JsString.AsciiLowerAppend | src/components/Wizard/Wizard.tsx:139-139 | lower-casing works piece by piece over a concatenation |
| JsString.ParseIntOfIntToString | src/utils/constants.ts:55-64 | `parseInt` (`ParseInt`) reads back every integer `toString` (`IntToString`) writes, negative ones included |
| Dates.ParseStrict | src/utils/validation.ts:61-62 | a strict `DD/MM/YYYY` parse yields only a calendar day from the year 100 to 9999 whose own formatting is the input; a year before 100 is rejected, as `new Date(y, M, d)` reads it as 1900 + y |
| Dates.ParseStrictOfFormat | src/utils/validation.ts:61-62 | every valid day from the year 100 to 9999 is accepted back from its formatting, as the same day |
| Dates.NextDay | src/utils/validation.ts:220-220 | `dayjs().add(1, "day")` is a valid day strictly after today |
| Dates.BeforeNextDayIff | src/utils/validation.ts:220-220 | a day is before tomorrow exactly when it is not after today |
| Types.SetPersonal | src/components/Wizard/Wizard.tsx:193-196 | `{ ...personalInfo, [field]: value }` changes the named field and no other |
| Types.SetEducation | src/components/Wizard/Wizard.tsx:246-273 | the section update changes the named field of the named section and no other field of any section |
| Types.SetWork | src/components/Wizard/Wizard.tsx:344-350 | `{ ...workExperience, [field]: value }` changes the named field only and keeps jobs and skills |
| Types.SetJob | src/components/Wizard/Wizard.tsx:399-399 | `{ ...job, [field]: value }` changes the named field only and keeps the id |
| Constants.StepsShape | src/utils/constants.ts:100-104 | three steps with their labels, the last at index 2 |
| Constants.YearOptionsShape | src/utils/constants.ts:44-48 | `YEAR_OPTIONS` (`YearOptions`) has `currentYear - 1947 + 10` entries, from `currentYear + 9` down to 1947 one year at a time |
| Constants.YearsFrom | src/utils/constants.ts:60-64 | at least one year, consecutive and descending, ending at the birth year, from `currentYear + 30` when that is not earlier |
| Constants.GenerateYearOptions | src/utils/constants.ts:50-65 | no birth year, an empty one or one `parseInt` rejects gives `YEAR_OPTIONS`; a parsed one gives the years from the birth year |
| Constants.YearsFromDescend | src/utils/constants.ts:55-64 | every generated option reads back through `parseInt` as its year, descending to the birth year |
| Constants.YearReadBack | src/utils/constants.ts:55-64 | the option at position k reads back through `parseInt` as the birth year plus its distance from the end of the list |
| Validation.Required | src/utils/validation.ts:40-42 | `if (!value)`: a message exactly when the value is empty |
| Validation.RequiredTrimmed | src/utils/validation.ts:161-163 | `if (!value.trim())`: a message exactly when the value is all white space |
| Validation.NameErrorSpec | src/utils/validation.ts:24-38 | `NameError` (first and last name): a name passes exactly when it is not blank and only letters and white space; blank gives "required", anything else the format message |
| Validation.MiddleNameErrorSpec | src/utils/validation.ts:30-32 | `MiddleNameError`: the middle name passes exactly when it is letters and white space; empty always passes |
| Validation.PhoneErrorSpec | src/utils/validation.ts:44-50 | `PhoneError`: a phone number passes exactly when it is ten ASCII digits; each of the three messages exactly for its own failure, in order |
| Validation.EmailErrorSpec | src/utils/validation.ts:52-56 | `EmailError`: an email passes exactly when it matches the address pattern; blank gives "required", otherwise "invalid" |
| Validation.DateOfBirthErrorSpec | src/utils/validation.ts:58-67 | `DateOfBirthError`: a birth date passes exactly when it parses strictly (a year from 100 to 9999) and is not after today; empty is "required", unparsable "invalid", a later day "in the future" |
| Validation.AboutErrorSpec | src/utils/validation.ts:69-73 | `AboutError`: "about" passes exactly when it is not blank and at most 500 UTF-16 units; blank is "required", longer "cannot exceed 500 characters" |
| Validation.ValidatePersonalInfo | src/utils/validation.ts:19-76 | the record holds each field's own check, and no key for a field that passes |
| Validation.AllPersonalFieldsPassIff | src/utils/validation.ts:19-76 | all eight field checks pass exactly when each named check passes |
| Validation.PersonalInfoValidIff | src/utils/validation.ts:19-76 | `isPersonalInfoValid` (`IsPersonalInfoValid`) of `validatePersonalInfo(p)` holds exactly when every rule of the personal section holds |
| Validation.EduFieldCheck | src/utils/validation.ts:83-137 | a field of a section is checked only when the section has it; twelfth only for "12th", diploma only for "Diploma" |
| Validation.SectionErrors | src/utils/validation.ts:83-137 | a section's record holds exactly its failing fields, all of them fields of that section |
| Validation.NonEmpty | src/utils/validation.ts:84-136 | a section's entry comes into being only with its first error |
| Validation.ValidateEducationInfo | src/utils/validation.ts:78-140 | a section key exactly when that section has a failing field, with those errors; no twelfth or diploma key off their type |
| Validation.SectionErrorsEmptyIff | src/utils/validation.ts:83-137 | each section validates clean exactly when its required fields are filled |
| Validation.TenthClean | src/utils/validation.ts:83-89 | the tenth section is clean exactly when pass year and board are set |
| Validation.TwelfthClean | src/utils/validation.ts:91-101 | the twelfth section is clean exactly when the type is not "12th" or both its fields are set |
| Validation.DiplomaClean | src/utils/validation.ts:102-117 | the diploma section is clean exactly when the type is not "Diploma" or its three fields are filled |
| Validation.GraduationClean | src/utils/validation.ts:120-137 | the graduation section is clean exactly when its four fields are filled |
| Validation.EducationInfoValidIff | src/utils/validation.ts:78-140 | `isEducationInfoValid` (`IsEducationInfoValid`) of `validateEducationInfo(e)` holds exactly when every rule of the education section holds |
| Validation.OtherTypeChecksNeither | src/utils/validation.ts:91-118 | under any type other than "12th" and "Diploma" (the radio button's "diploma" included) only tenth and graduation are checked |
| Validation.EndDateError | src/utils/validation.ts:149-159 | an empty end date is "required"; with both dates the ordering error exactly when start >= end; otherwise none |
| Validation.ValidateJobEntry | src/utils/validation.ts:142-174 | the record holds each job field's own check |
| Validation.ValidateJobEntrySpec | src/utils/validation.ts:142-174 | field by field: which keys are present and with which message; the organization never has one |
| Validation.JobEntryValidIff | src/utils/validation.ts:142-174 | a job has no errors exactly when both dates are set in order and designation, type and description are filled |
| Validation.JobChecks | src/utils/validation.ts:191-192 | one (id, errors) pair per job, in list order |
| Validation.RecordFailingKeys | src/utils/validation.ts:190-196 | the loop records exactly the ids of pairs with errors |
| Validation.RecordFailingValues | src/utils/validation.ts:190-196 | a recorded id carries the errors of the last pair with that id that has errors |
| Validation.RecordFailingStep | src/utils/validation.ts:191-195 | one more iteration adds the job's entry only when it has errors |
| Validation.JobErrorMapContents | src/utils/validation.ts:189-200 | exactly the failing jobs' ids, each with the errors of the last failing job under that id |
| Validation.JobErrorMapKeys | src/utils/validation.ts:189-200 | an id is in `jobErrors` exactly when some job with that id fails |
| Validation.JobErrorMapValues | src/utils/validation.ts:189-200 | a failing job with no later failing namesake has its own errors recorded |
| Validation.CollectJobErrors | src/utils/validation.ts:190-196 | the `forEach` loop computes the specified job error map |
| Validation.JobsEntry | src/utils/validation.ts:189-200 | `errors.jobs` is set exactly when some job fails, and then holds the job error map |
| Validation.JobErrorMapEmptyIff | src/utils/validation.ts:197-199 | `jobErrors` has keys exactly when some job fails |
| Validation.TotalExperienceErrorSpec | src/utils/validation.ts:181-187 | `TotalExperienceError`: experience passes exactly when non-empty and decimal; the negative message is never produced |
| Validation.CtcErrorSpec | src/utils/validation.ts:202-212 | `CtcError` (current and expected CTC): a CTC passes exactly when non-empty and made of digits and dots |
| Validation.AvailableFromErrorSpec | src/utils/validation.ts:214-223 | `AvailableFromError`: the availability date passes exactly when it parses strictly (a year from 100 to 9999) to a day after today; empty is "required", unparsable "invalid", any other day "must be in the future" |
| Validation.ValidateWorkExperience | src/utils/validation.ts:176-226 | each string field's own check, and a jobs entry exactly when some job fails |
| Validation.WorkFieldsCleanIff | src/utils/validation.ts:176-226 | the string fields are clean exactly when each of the four checks passes |
| Validation.NoJobFailsIff | src/utils/validation.ts:189-200 | no job fails exactly when every job obeys the job rules |
| Validation.WorkExperienceValidIff | src/utils/validation.ts:176-226 | `isWorkExperienceValid` (`IsWorkExperienceValid`) of `validateWorkExperience(w)` holds exactly when every rule of the work section and of every job holds |
| Validation.ValidateForm | src/utils/validation.ts:242-248 | the three section validators side by side |
| Validation.FormValidIff | src/utils/validation.ts:242-248 | the whole form has no errors exactly when all three sections obey their rules |
| Validation.ValidateStep | src/utils/validation.ts:250-264 | step i gives section i of `validateForm`; any other index gives no keys |
| Validation.StepValidIff | src/utils/validation.ts:250-264 | a step reports no keys exactly when its section's rules hold |
| Validation.NoErrorsIffStepsEmpty | src/components/Wizard/Wizard.tsx:157-161 | the submit guard fires exactly when some step's section has keys |
| Validation.FormCleanIffStepsClean | src/utils/validation.ts:242-264 | the form is clean exactly when each of the three steps is |
| Validation.EmailPatternNotBlank | src/utils/validation.ts:52-56 | an accepted address is never blank, so the "required" branch and the pattern agree |
| Validation.EmailOfParts | src/utils/validation.ts:16-16 | any local part, domain and top-level run joined by `@` and `.` are accepted |
| Validation.EmailRejectsUpperCase | src/utils/validation.ts:16-16 | an upper-case letter anywhere rejects the address |
| Validation.EmailHasOneAt | src/utils/validation.ts:16-16 | an accepted address holds exactly one `@` |
| Validation.NoOtherAt | src/utils/validation.ts:16-16 | in any accepted split, the separating `@` is the only one |
| Validation.DecimalPatternIff | src/utils/validation.ts:183-183 | `/^\d*\.?\d*$/` matches exactly the digits-and-dots strings with at most one dot |
| Validation.DecimalPatternHasNoSign | src/utils/validation.ts:183-186 | a matching value parses as no negative number |
| Validation.DigitsAfterRemovingDots | src/utils/validation.ts:204-204 | removing all dots leaves digits exactly when the value is digits and dots |
| Validation.CtcAcceptsRepeatedDots | src/utils/validation.ts:183-211 | "1.2.3" passes as a CTC but not as total experience |
| Validation.DateOfBirthBoundary | src/utils/validation.ts:61-66 | today's date is accepted as a birth date and tomorrow's is "in the future" |
| Validation.AvailableFromBoundary | src/utils/validation.ts:217-221 | today's date is refused as availability, "must be in the future", and tomorrow's is accepted |
| Validation.EarlyYearIsInvalid | src/utils/validation.ts:58-63 | a well-shaped date in a year before 100 is "Invalid date of birth" as a birth date and "Invalid date" as availability |
| Validation.YearFiftyIsInvalid | src/utils/validation.ts:217-218 | "15/06/0050" as a birth date and "01/01/0050" as availability are both invalid dates |
| IndexedDB.AddSpec | src/services/indexedDB.ts:44-46 | `add` (`TableAdd`) fails exactly on a missing or taken key; on success `get` (`TableGet`) reads the value under its key, no other key changes, and records stay under their ids |
| IndexedDB.PutSpec | src/services/indexedDB.ts:87-89 | `put` (`TablePut`) fails only on a missing key; on success `get` reads the value under its key, new or not, and nothing else changes |
| IndexedDB.DeleteSpec | src/services/indexedDB.ts:98-101 | `delete` (`TableDelete`) makes `get` miss its key, changes no other, succeeds on a missing key and is idempotent |
| IndexedDB.ObjectStore.constructor | src/services/indexedDB.ts:20-25 | a new store is empty |
| IndexedDB.ObjectStore.Add | src/services/indexedDB.ts:44-46 | the store's `add` request, keeping records under their own ids |
| IndexedDB.ObjectStore.Put | src/services/indexedDB.ts:87-89 | the store's `put` request |
| IndexedDB.ObjectStore.Get | src/services/indexedDB.ts:69-71 | `get` yields the record or `undefined`, as `TableGet` reads the table |
| IndexedDB.ObjectStore.GetAll | src/services/indexedDB.ts:55-57 | `getAll` lists every record exactly once, each the one stored under its id |
| IndexedDB.ObjectStore.Delete | src/services/indexedDB.ts:98-100 | the store's `delete` request |
| IndexedDB.Nibble | src/services/indexedDB.ts:9-9 | `Math.floor(x * 16).toString(16)` is one lower-case hex digit whose value is the floor |
| IndexedDB.IdFromDraws | src/services/indexedDB.ts:7-11 | eight lower-case hexadecimal digits |
| IndexedDB.GenerateId | src/services/indexedDB.ts:7-11 | the loop builds the identifier the draws spell |
| IndexedDB.EveryIdReachable | src/services/indexedDB.ts:7-11 | every eight-digit lower-case hex string is produced by some draws |
| IndexedDB.NibbleOfDraw | src/services/indexedDB.ts:9-9 | the draw chosen for a digit yields that digit |
| IndexedDB.NewSubmission | src/services/indexedDB.ts:37-42 | the new record keeps the sections and carries the id and both timestamps |
| IndexedDB.CreateSubmission | src/services/indexedDB.ts:29-48 | stores the new record under a fresh id, or fails with the table unchanged when the id is taken |
| IndexedDB.GetAllSubmissions | src/services/indexedDB.ts:50-60 | lists every stored submission |
| IndexedDB.GetSubmissionById | src/services/indexedDB.ts:62-74 | the record under the id, absent for an unknown id |
| IndexedDB.UpdatedRecord | src/services/indexedDB.ts:82-85 | everything as supplied but a new `updatedAt` |
| IndexedDB.UpdateSubmission | src/services/indexedDB.ts:76-91 | overwrites or inserts the record under its id; a record without id is refused |
| IndexedDB.DeleteSubmission | src/services/indexedDB.ts:93-103 | removes the id, present or not |
| IndexedDB.CreateThenGet | src/services/indexedDB.ts:37-45 | a created record reads back unchanged under its id |
| IndexedDB.UpdateThenGet | src/services/indexedDB.ts:82-88 | an updated record reads back with the new `updatedAt` and its old `createdAt` |
| WorkExperienceUtils.CreateEmptyJob | src/utils/workExperience.ts:4-12 | a fresh id and every field empty |
| WorkExperienceUtils.EmptyJobShape | src/utils/workExperience.ts:4-12 | the id is eight hex digits and the empty type is none of the job types |
| WorkExperienceUtils.EmptyJobErrors | src/utils/workExperience.ts:4-12 | a fresh row's record is the five "required" messages, whatever the date comparison |
| WorkExperienceUtils.BlankJobErrors | src/utils/validation.ts:142-174 | any job with the five checked fields empty gets exactly the five "required" messages |
| WorkExperienceUtils.EmptyJobFails | src/utils/workExperience.ts:4-12 | a fresh row always fails validation |
| WizardController.FromFormErrors | src/components/Wizard/Wizard.tsx:162-162 | `setErrors(allErrors)` replaces all three sections and drops the step-label entries |
| WizardController.StepKeys | src/components/Wizard/Wizard.tsx:137-140 | `StepKey`: the three step labels become "personalinformation", "educationdetails", "workexperience" |
| WizardController.PersonalKey | src/components/Wizard/Wizard.tsx:139-139 | the first label's key |
| WizardController.EducationKey | src/components/Wizard/Wizard.tsx:139-139 | the second label's key |
| WizardController.WorkKey | src/components/Wizard/Wizard.tsx:139-139 | the third label's key |
| WizardController.SplitLabel | src/components/Wizard/Wizard.tsx:139-139 | a two-word label lower-cases word by word and loses the one space |
| WizardController.SetOpt | src/components/Wizard/Wizard.tsx:204-218 | set or delete one key, every other key unchanged |
| WizardController.WithEduFieldError | src/components/Wizard/Wizard.tsx:281-295 | sets one section field's error, creates the section entry, changes nothing else |
| WizardController.WithJobFieldError | src/components/Wizard/Wizard.tsx:405-417 | sets one job field's error, creates the jobs and job entries, changes nothing else |
| WizardController.UpdateJobs | src/components/Wizard/Wizard.tsx:398-400 | every job with the id takes the value in the field; all else unchanged, order kept |
| WizardController.RemoveJobsContents | src/components/Wizard/Wizard.tsx:509-509 | `RemoveJobs`: the filter keeps exactly the jobs with another id, and no more than there were |
| WizardController.RemoveJobsAppend | src/components/Wizard/Wizard.tsx:509-509 | the filter preserves order, piece by piece |
| WizardController.RemoveJobsAbsent | src/components/Wizard/Wizard.tsx:509-509 | a list without the id is unchanged |
| WizardController.AddThenRemove | src/components/Wizard/Wizard.tsx:494-512 | removing a just-added row with a fresh id restores the job list |
| WizardController.SubmissionGate | src/components/Wizard/Wizard.tsx:155-190 | `Submission`: blocked exactly when the form has errors, which become the error state; otherwise stored under the new id, or refused with the table unchanged |
| WizardController.SavedFormsAreValid | src/components/Wizard/Wizard.tsx:155-172 | only a form obeying every section's rules is ever stored |
| WizardController.Wizard.constructor | src/components/Wizard/Wizard.tsx:119-126 | step 0, the initial data, no errors, nothing touched |
| WizardController.Wizard.Next | src/components/Wizard/Wizard.tsx:134-149 | errors stay on the step under its label; a clean last step submits; any other clean step advances; the step stays in range |
| WizardController.Wizard.Back | src/components/Wizard/Wizard.tsx:151-153 | one step back; with the button enabled the step stays in range |
| WizardController.Wizard.Submit | src/components/Wizard/Wizard.tsx:155-190 | the submission gate's effect on the errors and the store |
| WizardController.Wizard.PersonalInfoChange | src/components/Wizard/Wizard.tsx:192-220 | the field takes the value; its error is the updated data's, or cleared |
| WizardController.Wizard.PersonalInfoBlur | src/components/Wizard/Wizard.tsx:222-239 | marks the field touched and shows its current error |
| WizardController.Wizard.EducationChange | src/components/Wizard/Wizard.tsx:241-297 | the field takes the value; the error of the data before the change is added, and none is ever cleared |
| WizardController.Wizard.EducationBlur | src/components/Wizard/Wizard.tsx:299-331 | marks the field touched and shows its current error |
| WizardController.Wizard.EducationTypeChange | src/components/Wizard/Wizard.tsx:333-341 | stores the type as given |
| WizardController.Wizard.WorkExperienceChange | src/components/Wizard/Wizard.tsx:343-362 | the field takes the value; an error of the data before the change is added, none is removed |
| WizardController.Wizard.SkillsChange | src/components/Wizard/Wizard.tsx:364-372 | replaces the skills only |
| WizardController.Wizard.WorkExperienceBlur | src/components/Wizard/Wizard.tsx:374-391 | marks the field touched and shows its current error |
| WizardController.Wizard.JobChange | src/components/Wizard/Wizard.tsx:393-456 | every job with the id takes the value; a date's error is cleared, another field's error comes from the data before the change |
| WizardController.Wizard.JobBlur | src/components/Wizard/Wizard.tsx:458-492 | marks the job's field touched and shows its current error |
| WizardController.Wizard.AddJob | src/components/Wizard/Wizard.tsx:494-502 | appends one empty row |
| WizardController.Wizard.RemoveJob | src/components/Wizard/Wizard.tsx:504-512 | drops every row with the id, the rest in order |
| Scenarios.FilledFormIsClean | src/utils/validation.ts:242-264 | a completely filled-in form has no errors on any step and is stored with its sections |
| Scenarios.ShortPhoneStep | src/utils/validation.ts:44-50 | a five-digit phone number is "should be 10 digits" and the first step has errors |
| Scenarios.ShortPhoneIsBlocked | src/components/Wizard/Wizard.tsx:155-169 | such a form is blocked at submission with nothing stored |
| Scenarios.AboutStaysBlank | src/components/Wizard/Wizard.tsx:40-40 | the initial `about` is blank, and a change to any field the first step renders leaves a blank `about` blank |
| Scenarios.BlankAboutStep | src/utils/validation.ts:69-73 | a blank `about` is "About is required" and the first step has errors |
| Scenarios.BlankAboutIsBlocked | src/components/Wizard/Wizard.tsx:155-169 | any form with a blank `about` is blocked at submission with nothing stored |
| Scenarios.NextWithBlankAbout | src/components/Wizard/Wizard.tsx:134-149 | on step 0 with a blank `about` the Next button is disabled and `handleNext` stays on step 0, storing nothing |

## Left out

- The rendering: the stepper, dialogs, the snackbar and its messages, navigation after saving, `console.log`, and the 500 ms timer. They have no effect on the data.
- `Wizard.IsStepValid` and `Wizard.BackEnabled` are predicates (the disabled states of the two buttons, `Wizard.tsx:564-567`, `596`, `605`). What they mean is stated by `Validation.StepValidIff` and `Wizard.Back`.
- Opening the database (`openDB`, version upgrade, `createObjectStore`) and the request callbacks are browser I/O. The store is a fresh object. Quota and transaction failures, which the browser can raise for any request, are not modelled.
- IndexedDB.ObjectStore.GetAll: it does not state the key order in which `getAll` returns records, because the map has none.
- `print.ts`, the view, list and edit pages, and the older copies `src/components/Wizard.tsx` and `src/components/steps/*` are not part of this model.
- The dayjs internals: the current instant is a calendar day, and `isAfter` against the current instant is compared at day granularity.
- Validation.EndDateError: `new Date(...)` parsing of job dates is the parameter `dateGe`, so only the branch structure is modelled, not the engine's date grammar.
- Validation.TotalExperienceError: `parseFloat` is modelled only by the necessary condition for a negative result, a leading minus sign after white space. That is enough to show the branch is unreachable.
- A key set to `undefined` by the blur and job handlers is modelled as an absent key. Nothing in the core counts the keys of the error state, and display reads both alike.
- An education section or field name outside the schema, and a work field name outside the four string fields, cannot be passed. The step components never pass them.
- JsString.AsciiLower: `toLowerCase` is modelled on ASCII letters only, which is all the step labels contain.
- JsString.ParseInt: integers are unbounded; the loss of precision beyond 2^53 is not modelled.
- JsString.RemoveFirst: its own contract states only the unchanged text and the length; `RemoveFirstAfter` states which character goes.
- The asynchronous order of `handleSubmit` is collapsed into one step. The store's answer arrives before the next event.
- The order of keys in JavaScript objects is not modelled. Error records are maps.
