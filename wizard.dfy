/** The live wizard component: its four pieces of state and one method per
    event handler. Each React `set…` call is an assignment made in the order
    the handler issues it; a handler that validates `formData` reads the
    state as it was when the handler began, as the component's closure does.
    The clock, the random draws and the submission store are parameters. */
module WizardController {
  import opened Wrappers
  import opened JsString
  import opened Types
  import opened Constants
  import opened Validation
  import opened IndexedDB
  import opened WorkExperienceUtils

  // ---------------------------------------------------------------------------
  // State

  /** `initialFormData`: every field empty, on the twelfth-grade path. */
  const INITIAL_FORM_DATA: FormData := FormData(
    None,
    PersonalInfo("", "", "", "", "", "", "", ""),
    EducationInfo(
      SchoolDetails("", ""), "12th", SchoolDetails("", ""),
      DiplomaDetails("", "", ""), GraduationDetails("", "", "", "")),
    WorkExperience("", [], [], "", "", ""),
    None, None)

  /** The `errors` state: the three section records, and the records
      `handleNext` stores under step labels (`"personalinformation"`, ...),
      which are keys of their own beside the three sections. */
  datatype ErrorState = ErrorState(
    personalInfo: PersonalErrors,
    educationInfo: EducationErrors,
    workExperience: WorkErrors,
    byStepLabel: map<string, StepErrors>)

  const NO_ERRORS: ErrorState := ErrorState(map[], map[], WorkErrors(map[], None), map[])

  /** `setErrors(allErrors)`: the whole state replaced by a form result. */
  function FromFormErrors(e: FormErrors): (r: ErrorState)
    ensures r.byStepLabel == map[]
    ensures r.personalInfo == e.personalInfo && r.educationInfo == e.educationInfo
    ensures r.workExperience == e.workExperience
  {
    ErrorState(e.personalInfo, e.educationInfo, e.workExperience, map[])
  }

  /** The `touched` state; a flag is only ever set to `true`, so each record
      is the set of fields that have been blurred. */
  datatype TouchedState = TouchedState(
    personalInfo: set<PersonalField>,
    educationInfo: map<EduSection, set<EduField>>,
    workExperience: set<WorkField>,
    jobs: map<string, set<JobField>>)

  /** `initialTouchedState`. */
  const INITIAL_TOUCHED: TouchedState :=
    TouchedState({}, map[Tenth := {}, Twelfth := {}, Diploma := {}, Graduation := {}], {}, map[])

  /** `STEPS[i].toLowerCase().replace(" ", "")`: only the first space goes. */
  function StepKey(i: int): string
    requires 0 <= i < |STEPS|
  {
    RemoveFirst(AsciiLower(STEPS[i]), ' ')
  }

  /** The three step labels, as `handleNext` spells them; none is the name of
      a section record, so the sections are never overwritten by them. */
  lemma StepKeys()
    ensures StepKey(0) == "personalinformation"
    ensures StepKey(1) == "educationdetails"
    ensures StepKey(2) == "workexperience"
  {
    PersonalKey();
    EducationKey();
    WorkKey();
  }

  lemma PersonalKey()
    ensures StepKey(0) == "personalinformation"
  {
    assert STEPS[0] == "Personal" + " " + "Information" by {}
    assert AsciiLower("Personal") == "personal" by {}
    assert AsciiLower("Information") == "information" by {}
    assert "personalinformation" == "personal" + "information" by {}
    SplitLabel(STEPS[0], "Personal", "Information", "personal", "information", "personalinformation");
  }

  lemma EducationKey()
    ensures StepKey(1) == "educationdetails"
  {
    assert STEPS[1] == "Education" + " " + "Details" by {}
    assert AsciiLower("Education") == "education" by {}
    assert AsciiLower("Details") == "details" by {}
    assert "educationdetails" == "education" + "details" by {}
    SplitLabel(STEPS[1], "Education", "Details", "education", "details", "educationdetails");
  }

  lemma WorkKey()
    ensures StepKey(2) == "workexperience"
  {
    assert STEPS[2] == "Work" + " " + "Experience" by {}
    assert AsciiLower("Work") == "work" by {}
    assert AsciiLower("Experience") == "experience" by {}
    assert "workexperience" == "work" + "experience" by {}
    SplitLabel(STEPS[2], "Work", "Experience", "work", "experience", "workexperience");
  }

  /** A two-word label lower-cases word by word and loses the space between
      the words. */
  lemma SplitLabel(text: string, first: string, second: string, lowFirst: string, lowSecond: string, key: string)
    requires text == first + " " + second
    requires AsciiLower(first) == lowFirst && AsciiLower(second) == lowSecond && ' ' !in lowFirst
    requires key == lowFirst + lowSecond
    ensures RemoveFirst(AsciiLower(text), ' ') == key
  {
    AsciiLowerAppend(first + " ", second);
    AsciiLowerAppend(first, " ");
    assert AsciiLower(" ") == " ";
    RemoveFirstAfter(lowFirst, ' ', lowSecond);
  }

  // ---------------------------------------------------------------------------
  // Updates of the error records

  /** `{ ...m, [k]: e }`, where an `undefined` value is no entry at all. */
  function SetOpt<K(!new), V>(m: map<K, V>, k: K, e: Option<V>): (r: map<K, V>)
    ensures Lookup(r, k) == e
    ensures forall j :: j != k ==> Lookup(r, j) == Lookup(m, j)
  {
    if e.Some? then m[k := e.value] else m - {k}
  }

  /** `errors?.[section]?.[field]`. */
  function EduFieldError(e: EducationErrors, s: EduSection, f: EduField): Option<string> {
    match Lookup(e, s)
    case None => None
    case Some(m) => Lookup(m, f)
  }

  /** `{ ...prev, [section]: { ...prev[section], [field]: err } }`: the
      section entry exists afterwards, even when it is left without errors. */
  function WithEduFieldError(e: EducationErrors, s: EduSection, f: EduField, err: Option<string>): (r: EducationErrors)
    ensures s in r
    ensures EduFieldError(r, s, f) == err
    ensures forall s', f' :: (s', f') != (s, f) ==> EduFieldError(r, s', f') == EduFieldError(e, s', f')
  {
    e[s := SetOpt(Lookup(e, s).GetOr(map[]), f, err)]
  }

  /** `errors.jobs?.[jobId]?.[field]`. */
  function JobFieldError(w: WorkErrors, id: string, f: JobField): Option<string> {
    match w.jobs
    case None => None
    case Some(m) =>
      match Lookup(m, id)
      case None => None
      case Some(je) => Lookup(je, f)
  }

  /** `{ ...prev, jobs: { ...prev.jobs, [jobId]: { ...prev.jobs?.[jobId], [field]: err } } }`:
      the `jobs` record and the job's entry exist afterwards. */
  function WithJobFieldError(w: WorkErrors, id: string, f: JobField, err: Option<string>): (r: WorkErrors)
    ensures r.fields == w.fields
    ensures r.jobs.Some? && id in r.jobs.value
    ensures JobFieldError(r, id, f) == err
    ensures forall id', f' :: (id', f') != (id, f) ==> JobFieldError(r, id', f') == JobFieldError(w, id', f')
  {
    var jobs := w.jobs.GetOr(map[]);
    w.(jobs := Some(jobs[id := SetOpt(Lookup(jobs, id).GetOr(map[]), f, err)]))
  }

  // ---------------------------------------------------------------------------
  // Updates of the job list

  /** `jobs.map(job => job.id === jobId ? { ...job, [field]: value } : job)`. */
  function UpdateJobs(jobs: seq<JobEntry>, id: string, f: JobField, v: string): (r: seq<JobEntry>)
    ensures |r| == |jobs|
    ensures forall i :: 0 <= i < |jobs| ==> r[i].id == jobs[i].id
    ensures forall i :: 0 <= i < |jobs| && jobs[i].id != id ==> r[i] == jobs[i]
    ensures forall i, g :: 0 <= i < |jobs| && jobs[i].id == id ==>
              GetJob(r[i], g) == if g == f then v else GetJob(jobs[i], g)
  {
    seq(|jobs|, i requires 0 <= i < |jobs| => if jobs[i].id == id then SetJob(jobs[i], f, v) else jobs[i])
  }

  /** `jobs.filter(job => job.id !== jobId)`. */
  function RemoveJobs(jobs: seq<JobEntry>, id: string): seq<JobEntry> {
    if jobs == [] then []
    else (if jobs[0].id == id then [] else [jobs[0]]) + RemoveJobs(jobs[1..], id)
  }

  /** The filter keeps exactly the jobs with another id, and no more of them. */
  lemma {:induction false} RemoveJobsContents(jobs: seq<JobEntry>, id: string)
    ensures forall j :: j in RemoveJobs(jobs, id) <==> j in jobs && j.id != id
    ensures |RemoveJobs(jobs, id)| <= |jobs|
  {
    if jobs != [] {
      RemoveJobsContents(jobs[1..], id);
      assert jobs == [jobs[0]] + jobs[1..];
    }
  }

  /** The filter works piece by piece, so the kept jobs stay in their order. */
  lemma {:induction false} RemoveJobsAppend(a: seq<JobEntry>, b: seq<JobEntry>, id: string)
    ensures RemoveJobs(a + b, id) == RemoveJobs(a, id) + RemoveJobs(b, id)
  {
    if a != [] {
      assert (a + b)[1..] == a[1..] + b;
      RemoveJobsAppend(a[1..], b, id);
    } else {
      assert a + b == b;
    }
  }

  /** A list without the id passes the filter unchanged. */
  lemma {:induction false} RemoveJobsAbsent(jobs: seq<JobEntry>, id: string)
    requires forall i :: 0 <= i < |jobs| ==> jobs[i].id != id
    ensures RemoveJobs(jobs, id) == jobs
  {
    if jobs != [] {
      RemoveJobsAbsent(jobs[1..], id);
      assert jobs == [jobs[0]] + jobs[1..];
    }
  }

  /** Removing a row just added under a fresh id gives the old list back. */
  lemma AddThenRemove(jobs: seq<JobEntry>, draws: seq<real>)
    requires ValidDraws(draws)
    requires forall i :: 0 <= i < |jobs| ==> jobs[i].id != IdFromDraws(draws)
    ensures RemoveJobs(jobs + [CreateEmptyJob(draws)], IdFromDraws(draws)) == jobs
  {
    var id := IdFromDraws(draws);
    RemoveJobsAppend(jobs, [CreateEmptyJob(draws)], id);
    RemoveJobsAbsent(jobs, id);
    assert RemoveJobs([CreateEmptyJob(draws)], id) == [] + RemoveJobs([], id);
  }

  // ---------------------------------------------------------------------------
  // Submission

  /** How `handleSubmit` ends: stopped by validation, saved, or refused by
      the store. */
  datatype SubmitOutcome = Blocked | Saved(record: FormData) | Failed(error: StoreError)

  /** The effect of `handleSubmit` on the outcome, the error state and the
      table, given the state it starts from. */
  datatype SubmitEffect = SubmitEffect(outcome: SubmitOutcome, errors: ErrorState, table: map<string, FormData>)

  function Submission(d: FormData, errs: ErrorState, t: map<string, FormData>, env: Env,
                      draws: seq<real>, createdAt: string, updatedAt: string): SubmitEffect
    requires ValidDraws(draws)
  {
    var allErrors := ValidateForm(d, env);
    if HasErrors(allErrors) then SubmitEffect(Blocked, FromFormErrors(allErrors), t)
    else
      var v := NewSubmission(d, IdFromDraws(draws), createdAt, updatedAt);
      match TableAdd(t, v)
      case Success(t') => SubmitEffect(Saved(v), errs, t')
      case Failure(e) => SubmitEffect(Failed(e), errs, t)
  }

  /** A form with any error is stopped: nothing is stored and the errors
      become that form's errors. A form without errors keeps the error state,
      and is either stored under the new id with its sections intact, or,
      when the id is taken, refused with the table unchanged. */
  lemma SubmissionGate(d: FormData, errs: ErrorState, t: map<string, FormData>, env: Env,
                       draws: seq<real>, createdAt: string, updatedAt: string)
    requires ValidDraws(draws)
    ensures var r := Submission(d, errs, t, env, draws, createdAt, updatedAt);
      && (r.outcome.Blocked? <==> HasErrors(ValidateForm(d, env)))
      && (r.outcome.Blocked? ==> r.table == t && r.errors == FromFormErrors(ValidateForm(d, env)))
      && (r.outcome.Saved? ==>
            && r.errors == errs
            && r.table == t[IdFromDraws(draws) := r.outcome.record]
            && IdFromDraws(draws) !in t
            && r.outcome.record.id == Some(IdFromDraws(draws))
            && r.outcome.record.personalInfo == d.personalInfo
            && r.outcome.record.educationInfo == d.educationInfo
            && r.outcome.record.workExperience == d.workExperience)
      && (r.outcome.Failed? ==>
            r.errors == errs && r.table == t && r.outcome.error == ConstraintError && IdFromDraws(draws) in t)
  {
  }

  /** Only a form whose every section obeys its rules is ever stored. */
  lemma SavedFormsAreValid(d: FormData, errs: ErrorState, t: map<string, FormData>, env: Env,
                           draws: seq<real>, createdAt: string, updatedAt: string)
    requires ValidDraws(draws)
    requires Submission(d, errs, t, env, draws, createdAt, updatedAt).outcome.Saved?
    ensures PersonalInfoRules(d.personalInfo, env.today)
    ensures EducationRules(d.educationInfo)
    ensures WorkRules(d.workExperience, env)
  {
    FormValidIff(d, env);
  }

  // ---------------------------------------------------------------------------
  // The component

  class Wizard {
    var activeStep: int
    var formData: FormData
    var errors: ErrorState
    var touched: TouchedState

    constructor ()
      ensures activeStep == 0 && formData == INITIAL_FORM_DATA
      ensures errors == NO_ERRORS && touched == INITIAL_TOUCHED
    {
      activeStep := 0;
      formData := INITIAL_FORM_DATA;
      errors := NO_ERRORS;
      touched := INITIAL_TOUCHED;
    }

    /** `isStepValid()`; the Next button is enabled exactly when it holds. */
    predicate IsStepValid(env: Env)
      reads this
    {
      KeyCount(ValidateStep(activeStep, formData, env)) == 0
    }

    /** The Back button is disabled on the first step only. */
    predicate BackEnabled()
      reads this
    {
      activeStep != 0
    }

    /** `handleNext`: a step with errors records them under its label and
        stays; a clean last step submits; any other clean step advances. */
    method Next(env: Env, store: ObjectStore, draws: seq<real>, createdAt: string, updatedAt: string)
      returns (outcome: Option<SubmitOutcome>)
      requires store.Valid() && ValidDraws(draws)
      modifies this, store
      ensures store.Valid()
      ensures formData == old(formData) && touched == old(touched)
      ensures var stepErrors := ValidateStep(old(activeStep), old(formData), env);
        if KeyCount(stepErrors) > 0 then
          && 0 <= old(activeStep) <= LAST_STEP
          && activeStep == old(activeStep) && outcome.None? && store.records == old(store.records)
          && errors == old(errors).(byStepLabel := old(errors.byStepLabel)[StepKey(old(activeStep)) := stepErrors])
        else if old(activeStep) == LAST_STEP then
          var r := Submission(old(formData), old(errors), old(store.records), env, draws, createdAt, updatedAt);
          && activeStep == old(activeStep) && outcome == Some(r.outcome)
          && errors == r.errors && store.records == r.table
        else
          && activeStep == old(activeStep) + 1 && outcome.None?
          && errors == old(errors) && store.records == old(store.records)
      ensures 0 <= old(activeStep) <= LAST_STEP ==> 0 <= activeStep <= LAST_STEP
    {
      var stepErrors := ValidateStep(activeStep, formData, env);
      if KeyCount(stepErrors) > 0 {
        errors := errors.(byStepLabel := errors.byStepLabel[StepKey(activeStep) := stepErrors]);
        return None;
      }
      if activeStep == LAST_STEP {
        var r := Submit(env, store, draws, createdAt, updatedAt);
        outcome := Some(r);
      } else {
        activeStep := activeStep + 1;
        outcome := None;
      }
    }

    /** `handleBack`: one step back; the button guards the first step. */
    method Back()
      modifies this
      ensures activeStep == old(activeStep) - 1
      ensures formData == old(formData) && errors == old(errors) && touched == old(touched)
      ensures old(BackEnabled()) && 0 <= old(activeStep) <= LAST_STEP ==> 0 <= activeStep < LAST_STEP
    {
      activeStep := activeStep - 1;
    }

    /** `handleSubmit`, through its validation gate and `createSubmission`. */
    method Submit(env: Env, store: ObjectStore, draws: seq<real>, createdAt: string, updatedAt: string)
      returns (outcome: SubmitOutcome)
      requires store.Valid() && ValidDraws(draws)
      modifies this, store
      ensures store.Valid()
      ensures activeStep == old(activeStep) && formData == old(formData) && touched == old(touched)
      ensures var r := Submission(old(formData), old(errors), old(store.records), env, draws, createdAt, updatedAt);
        outcome == r.outcome && errors == r.errors && store.records == r.table
    {
      var allErrors := ValidateForm(formData, env);
      if HasErrors(allErrors) {
        errors := FromFormErrors(allErrors);
        return Blocked;
      }
      var created := CreateSubmission(store, formData, draws, createdAt, updatedAt);
      match created
      case Success(v) => outcome := Saved(v);
      case Failure(e) => outcome := Failed(e);
    }

    /** `handlePersonalInfoChange`: the field takes the value, and its error
        is the one the updated data produces, or none. */
    method PersonalInfoChange(f: PersonalField, v: string, env: Env)
      modifies this
      ensures formData == old(formData).(personalInfo := SetPersonal(old(formData.personalInfo), f, v))
      ensures errors == old(errors).(personalInfo :=
                SetOpt(old(errors.personalInfo), f, Lookup(ValidatePersonalInfo(formData.personalInfo, env.today), f)))
      ensures activeStep == old(activeStep) && touched == old(touched)
    {
      var updatedPersonalInfo := SetPersonal(formData.personalInfo, f, v);
      var fieldErrors := ValidatePersonalInfo(updatedPersonalInfo, env.today);
      formData := formData.(personalInfo := updatedPersonalInfo);
      errors := errors.(personalInfo := SetOpt(errors.personalInfo, f, Lookup(fieldErrors, f)));
    }

    /** `handlePersonalInfoBlur`: marks the field touched and shows its
        current error. */
    method PersonalInfoBlur(f: PersonalField, env: Env)
      modifies this
      ensures touched == old(touched).(personalInfo := old(touched.personalInfo) + {f})
      ensures errors == old(errors).(personalInfo :=
                SetOpt(old(errors.personalInfo), f, Lookup(ValidatePersonalInfo(formData.personalInfo, env.today), f)))
      ensures activeStep == old(activeStep) && formData == old(formData)
    {
      touched := touched.(personalInfo := touched.personalInfo + {f});
      var fieldErrors := ValidatePersonalInfo(formData.personalInfo, env.today);
      errors := errors.(personalInfo := SetOpt(errors.personalInfo, f, Lookup(fieldErrors, f)));
    }

    /** `handleEducationChange`: the field takes the value; the error comes
        from the data as it was before the change and is recorded only when
        there is one, so an error is never cleared here. */
    method EducationChange(s: EduSection, f: EduField, v: string)
      modifies this
      ensures formData == old(formData).(educationInfo := SetEducation(old(formData.educationInfo), s, f, v))
      ensures var err := EduFieldError(ValidateEducationInfo(old(formData.educationInfo)), s, f);
        errors == old(errors).(educationInfo :=
          if err.Some? then WithEduFieldError(old(errors.educationInfo), s, f, err) else old(errors.educationInfo))
      ensures forall s', f' :: EduFieldError(old(errors.educationInfo), s', f').Some? ==>
                EduFieldError(errors.educationInfo, s', f').Some?
      ensures activeStep == old(activeStep) && touched == old(touched)
    {
      var fieldErrors := ValidateEducationInfo(formData.educationInfo);
      formData := formData.(educationInfo := SetEducation(formData.educationInfo, s, f, v));
      var sectionFieldError := EduFieldError(fieldErrors, s, f);
      if sectionFieldError.Some? {
        errors := errors.(educationInfo := WithEduFieldError(errors.educationInfo, s, f, sectionFieldError));
      }
    }

    /** `handleEducationBlur`: marks the field touched and shows its current
        error, creating the section's entry. */
    method EducationBlur(s: EduSection, f: EduField)
      modifies this
      ensures touched == old(touched).(educationInfo :=
                old(touched.educationInfo)[s := Lookup(old(touched.educationInfo), s).GetOr({}) + {f}])
      ensures errors == old(errors).(educationInfo := WithEduFieldError(old(errors.educationInfo), s, f,
                EduFieldError(ValidateEducationInfo(formData.educationInfo), s, f)))
      ensures activeStep == old(activeStep) && formData == old(formData)
    {
      touched := touched.(educationInfo := touched.educationInfo[s := Lookup(touched.educationInfo, s).GetOr({}) + {f}]);
      var fieldErrors := ValidateEducationInfo(formData.educationInfo);
      errors := errors.(educationInfo := WithEduFieldError(errors.educationInfo, s, f, EduFieldError(fieldErrors, s, f)));
    }

    /** `handleEducationTypeChange`: stores the type as given. */
    method EducationTypeChange(t: string)
      modifies this
      ensures formData == old(formData).(educationInfo := old(formData.educationInfo).(educationType := t))
      ensures activeStep == old(activeStep) && errors == old(errors) && touched == old(touched)
    {
      formData := formData.(educationInfo := formData.educationInfo.(educationType := t));
    }

    /** `handleWorkExperienceChange`: the field takes the value; the error
        comes from the data before the change and is only ever added. */
    method WorkExperienceChange(f: WorkField, v: string, env: Env)
      modifies this
      ensures formData == old(formData).(workExperience := SetWork(old(formData.workExperience), f, v))
      ensures errors == old(errors).(workExperience := old(errors.workExperience).(fields :=
                PutIfSome(old(errors.workExperience.fields), f,
                          Lookup(ValidateWorkExperience(old(formData.workExperience), env).fields, f))))
      ensures old(errors.workExperience.fields).Keys <= errors.workExperience.fields.Keys
      ensures activeStep == old(activeStep) && touched == old(touched)
    {
      var fieldErrors := ValidateWorkExperience(formData.workExperience, env);
      formData := formData.(workExperience := SetWork(formData.workExperience, f, v));
      var err := Lookup(fieldErrors.fields, f);
      errors := errors.(workExperience := errors.workExperience.(fields := PutIfSome(errors.workExperience.fields, f, err)));
    }

    /** `handleSkillsChange`. */
    method SkillsChange(skills: seq<string>)
      modifies this
      ensures formData == old(formData).(workExperience := old(formData.workExperience).(skills := skills))
      ensures activeStep == old(activeStep) && errors == old(errors) && touched == old(touched)
    {
      formData := formData.(workExperience := formData.workExperience.(skills := skills));
    }

    /** `handleWorkExperienceBlur`: marks the field touched and shows its
        current error. */
    method WorkExperienceBlur(f: WorkField, env: Env)
      modifies this
      ensures touched == old(touched).(workExperience := old(touched.workExperience) + {f})
      ensures errors == old(errors).(workExperience := old(errors.workExperience).(fields :=
                SetOpt(old(errors.workExperience.fields), f,
                       Lookup(ValidateWorkExperience(formData.workExperience, env).fields, f))))
      ensures activeStep == old(activeStep) && formData == old(formData)
    {
      touched := touched.(workExperience := touched.workExperience + {f});
      var fieldErrors := ValidateWorkExperience(formData.workExperience, env);
      errors := errors.(workExperience := errors.workExperience.(fields :=
        SetOpt(errors.workExperience.fields, f, Lookup(fieldErrors.fields, f))));
    }

    /** `handleJobChange`: every job with the id takes the value. A date
        field's error is cleared; any other field's error is set from the
        data before the change, or cleared. */
    method JobChange(id: string, f: JobField, v: string, env: Env)
      modifies this
      ensures formData == old(formData).(workExperience := old(formData.workExperience).(jobs :=
                UpdateJobs(old(formData.workExperience.jobs), id, f, v)))
      ensures f == StartDate || f == EndDate ==>
                errors == old(errors).(workExperience := WithJobFieldError(old(errors.workExperience), id, f, None))
      ensures f != StartDate && f != EndDate ==>
                errors == old(errors).(workExperience := WithJobFieldError(old(errors.workExperience), id, f,
                  JobFieldError(ValidateWorkExperience(old(formData.workExperience), env), id, f)))
      ensures activeStep == old(activeStep) && touched == old(touched)
    {
      var staleData := formData.workExperience;
      formData := formData.(workExperience := formData.workExperience.(jobs := UpdateJobs(formData.workExperience.jobs, id, f, v)));
      if f == StartDate || f == EndDate {
        errors := errors.(workExperience := WithJobFieldError(errors.workExperience, id, f, None));
        return;
      }
      var fieldErrors := ValidateWorkExperience(staleData, env);
      var jobFieldError := JobFieldError(fieldErrors, id, f);
      errors := errors.(workExperience := WithJobFieldError(errors.workExperience, id, f, jobFieldError));
    }

    /** `handleJobBlur`: marks the job's field touched and shows its current
        error. */
    method JobBlur(id: string, f: JobField, env: Env)
      modifies this
      ensures touched == old(touched).(jobs := old(touched.jobs)[id := Lookup(old(touched.jobs), id).GetOr({}) + {f}])
      ensures errors == old(errors).(workExperience := WithJobFieldError(old(errors.workExperience), id, f,
                JobFieldError(ValidateWorkExperience(formData.workExperience, env), id, f)))
      ensures activeStep == old(activeStep) && formData == old(formData)
    {
      touched := touched.(jobs := touched.jobs[id := Lookup(touched.jobs, id).GetOr({}) + {f}]);
      var fieldErrors := ValidateWorkExperience(formData.workExperience, env);
      errors := errors.(workExperience := WithJobFieldError(errors.workExperience, id, f, JobFieldError(fieldErrors, id, f)));
    }

    /** `handleAddJob`: one empty row at the end. */
    method AddJob(draws: seq<real>)
      requires ValidDraws(draws)
      modifies this
      ensures formData == old(formData).(workExperience := old(formData.workExperience).(jobs :=
                old(formData.workExperience.jobs) + [CreateEmptyJob(draws)]))
      ensures activeStep == old(activeStep) && errors == old(errors) && touched == old(touched)
    {
      formData := formData.(workExperience := formData.workExperience.(jobs :=
        formData.workExperience.jobs + [CreateEmptyJob(draws)]));
    }

    /** `handleRemoveJob`: every row with the id goes, the rest keep their
        order. */
    method RemoveJob(id: string)
      modifies this
      ensures formData == old(formData).(workExperience := old(formData.workExperience).(jobs :=
                RemoveJobs(old(formData.workExperience.jobs), id)))
      ensures activeStep == old(activeStep) && errors == old(errors) && touched == old(touched)
    {
      formData := formData.(workExperience := formData.workExperience.(jobs :=
        RemoveJobs(formData.workExperience.jobs, id)));
    }
  }
}
