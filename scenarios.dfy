/** Forms run through the rules. The first-step component renders no input
    for `about` and never passes it to the change handler, so in the running
    wizard `about` stays as the initial data left it, blank, and the first
    step never validates: the Next button stays disabled and `handleNext`
    stays on step 0. A completely filled form, with `about` set, is a state
    the screens cannot reach; it shows what the validators accept. A form
    with a five-digit phone number is stopped by the first step and the
    submission gate alike. */
module Scenarios {
  import opened Wrappers
  import opened JsString
  import opened Dates
  import opened Types
  import opened Validation
  import opened IndexedDB
  import opened WizardController

  const TODAY: CalendarDay := Date(2024, 6, 1)

  const FILLED_PERSONAL: PersonalInfo :=
    PersonalInfo("Jane", "", "Doe", "+91", "9876543210", "jane@example.com", "01/01/1990", "Backend developer")

  const FILLED_EDUCATION: EducationInfo :=
    EducationInfo(
      SchoolDetails("2006", "CBSE"), "12th", SchoolDetails("2008", "CBSE"),
      DiplomaDetails("", "", ""), GraduationDetails("2012", "Anna University", "B.E.", "Computer Science"))

  const FILLED_WORK: WorkExperience :=
    WorkExperience("5", [], ["TypeScript"], "1200000", "1500000.50", "01/07/2024")

  const FILLED_FORM: FormData :=
    FormData(None, FILLED_PERSONAL, FILLED_EDUCATION, FILLED_WORK, None, None)

  lemma FilledPersonalPasses()
    ensures PersonalInfoRules(FILLED_PERSONAL, TODAY)
  {
    FilledNames();
    FilledPhone();
    FilledEmail();
    FilledDateOfBirth();
    FilledAbout();
  }

  lemma FilledNames()
    ensures !Blank(FILLED_PERSONAL.firstName) && AlphaOnly(FILLED_PERSONAL.firstName)
    ensures AlphaOnly(FILLED_PERSONAL.middleName)
    ensures !Blank(FILLED_PERSONAL.lastName) && AlphaOnly(FILLED_PERSONAL.lastName)
  {
    assert !IsJsWhitespace(FILLED_PERSONAL.firstName[0]);
    assert !IsJsWhitespace(FILLED_PERSONAL.lastName[0]);
  }

  lemma FilledPhone()
    ensures |FILLED_PERSONAL.phoneNumber| == 10 && AllDigits(FILLED_PERSONAL.phoneNumber)
  {
  }

  lemma FilledEmail()
    ensures EmailPattern(FILLED_PERSONAL.email)
  {
    assert FILLED_PERSONAL.email == "jane" + "@" + "example" + "." + "com";
    EmailOfParts("jane", "example", "com");
  }

  lemma FilledDateOfBirth()
    ensures ParseStrict(FILLED_PERSONAL.dateOfBirth) == Some(Date(1990, 1, 1))
  {
    assert Format(Date(1990, 1, 1)) == "01/01/1990";
    ParseStrictOfFormat(Date(1990, 1, 1));
  }

  lemma FilledAbout()
    ensures !Blank(FILLED_PERSONAL.about) && Utf16Length(FILLED_PERSONAL.about) <= ABOUT_MAX_LENGTH
  {
    assert !IsJsWhitespace(FILLED_PERSONAL.about[0]);
  }

  lemma FilledEducationPasses()
    ensures EducationRules(FILLED_EDUCATION)
  {
    var g := FILLED_EDUCATION.graduation;
    assert !Blank(g.organization) by {
      assert !IsJsWhitespace(g.organization[0]);
    }
    assert !Blank(g.major) by {
      assert !IsJsWhitespace(g.major[0]);
    }
  }

  lemma FilledWorkPasses(env: Env)
    requires env.today == TODAY
    ensures WorkRules(FILLED_WORK, env)
  {
    var w := FILLED_WORK;
    assert DecimalPattern(w.totalExperience) by {
      assert w.totalExperience[..1] == "5" && w.totalExperience[1..] == "";
    }
    assert DigitsAndDots(w.currentCTC) by {}
    assert DigitsAndDots(w.expectedCTC) by {}
    assert ParseStrict(w.availableFrom) == Some(Date(2024, 7, 1)) by {
      assert Format(Date(2024, 7, 1)) == "01/07/2024";
      ParseStrictOfFormat(Date(2024, 7, 1));
    }
  }

  /** The filled-in form has no error in any section, so no step's validation
      would hold the wizard back, and submitting it into a store without its
      id saves it with its sections unchanged. */
  lemma FilledFormIsClean(env: Env, errs: ErrorState, t: map<string, FormData>,
                          draws: seq<real>, createdAt: string, updatedAt: string)
    requires env.today == TODAY && ValidDraws(draws) && IdFromDraws(draws) !in t
    ensures !HasErrors(ValidateForm(FILLED_FORM, env))
    ensures forall step :: 0 <= step <= 2 ==> KeyCount(ValidateStep(step, FILLED_FORM, env)) == 0
    ensures var r := Submission(FILLED_FORM, errs, t, env, draws, createdAt, updatedAt);
      r.outcome.Saved? && r.outcome.record.personalInfo == FILLED_PERSONAL
      && r.table == t[IdFromDraws(draws) := r.outcome.record]
  {
    FilledPersonalPasses();
    FilledEducationPasses();
    FilledWorkPasses(env);
    FormValidIff(FILLED_FORM, env);
    FormCleanIffStepsClean(FILLED_FORM, env);
    SubmissionGate(FILLED_FORM, errs, t, env, draws, createdAt, updatedAt);
  }

  lemma ShortPhoneError()
    ensures PhoneError("12345") == Some(PHONE_LENGTH)
  {
    var n := "12345";
    assert AllDigits(n) && |n| == 5;
    assert !Blank(n) by {
      assert !IsJsWhitespace(n[0]);
    }
    PhoneErrorSpec(n);
  }

  /** Whatever else a form holds, a five-digit phone number is reported as
      the wrong length, the first step then has errors, and a submission is
      stopped with nothing stored. */
  lemma ShortPhoneIsBlocked(d: FormData, env: Env, errs: ErrorState, t: map<string, FormData>,
                            draws: seq<real>, createdAt: string, updatedAt: string)
    requires d.personalInfo.phoneNumber == "12345" && ValidDraws(draws)
    ensures Lookup(ValidatePersonalInfo(d.personalInfo, env.today), PhoneNumber) == Some(PHONE_LENGTH)
    ensures KeyCount(ValidateStep(0, d, env)) > 0
    ensures var r := Submission(d, errs, t, env, draws, createdAt, updatedAt);
      r.outcome.Blocked? && r.table == t
  {
    ShortPhoneStep(d, env);
    var allErrors := ValidateForm(d, env);
    assert HasErrors(allErrors) by {
      assert PhoneNumber in allErrors.personalInfo;
    }
    SubmissionGate(d, errs, t, env, draws, createdAt, updatedAt);
  }

  lemma ShortPhoneStep(d: FormData, env: Env)
    requires d.personalInfo.phoneNumber == "12345"
    ensures Lookup(ValidatePersonalInfo(d.personalInfo, env.today), PhoneNumber) == Some(PHONE_LENGTH)
    ensures KeyCount(ValidateStep(0, d, env)) > 0
  {
    ShortPhoneError();
    var e := ValidatePersonalInfo(d.personalInfo, env.today);
    assert PhoneNumber in e;
  }

  // ---------------------------------------------------------------------------
  // The `about` field the first step does not render

  /** The personal fields the first-step component passes to the change
      handler: every one but `about`. */
  predicate RenderedPersonalField(f: PersonalField) {
    f != About
  }

  /** The initial data leaves `about` blank, and no change the first step
      can raise sets it. */
  lemma AboutStaysBlank(p: PersonalInfo, f: PersonalField, v: string)
    requires Blank(p.about) && RenderedPersonalField(f)
    ensures Blank(INITIAL_FORM_DATA.personalInfo.about)
    ensures Blank(SetPersonal(p, f, v).about)
  {
    assert GetPersonal(SetPersonal(p, f, v), About) == GetPersonal(p, About);
  }

  /** Whatever else a form holds, a blank `about` is reported as required,
      so the first step has errors and a submission is stopped with nothing
      stored. */
  lemma BlankAboutIsBlocked(d: FormData, env: Env, errs: ErrorState, t: map<string, FormData>,
                            draws: seq<real>, createdAt: string, updatedAt: string)
    requires Blank(d.personalInfo.about) && ValidDraws(draws)
    ensures Lookup(ValidatePersonalInfo(d.personalInfo, env.today), About) == Some(ABOUT_REQUIRED)
    ensures KeyCount(ValidateStep(0, d, env)) > 0
    ensures var r := Submission(d, errs, t, env, draws, createdAt, updatedAt);
      r.outcome.Blocked? && r.table == t
  {
    BlankAboutStep(d, env);
    var allErrors := ValidateForm(d, env);
    assert HasErrors(allErrors) by {
      assert About in allErrors.personalInfo;
    }
    SubmissionGate(d, errs, t, env, draws, createdAt, updatedAt);
  }

  lemma BlankAboutStep(d: FormData, env: Env)
    requires Blank(d.personalInfo.about)
    ensures Lookup(ValidatePersonalInfo(d.personalInfo, env.today), About) == Some(ABOUT_REQUIRED)
    ensures KeyCount(ValidateStep(0, d, env)) > 0
  {
    AboutErrorSpec(d.personalInfo.about);
    var e := ValidatePersonalInfo(d.personalInfo, env.today);
    assert About in e;
  }

  /** On the first step with `about` blank, the Next button is disabled and
      `handleNext` records the step's errors and stays where it is. */
  method NextWithBlankAbout(w: Wizard, env: Env, store: ObjectStore,
                            draws: seq<real>, createdAt: string, updatedAt: string)
    returns (outcome: Option<SubmitOutcome>)
    requires w.activeStep == 0 && Blank(w.formData.personalInfo.about)
    requires store.Valid() && ValidDraws(draws)
    modifies w, store
    ensures !old(w.IsStepValid(env))
    ensures w.activeStep == 0 && w.formData == old(w.formData)
    ensures outcome.None? && store.records == old(store.records)
  {
    BlankAboutStep(w.formData, env);
    outcome := w.Next(env, store, draws, createdAt, updatedAt);
  }
}
