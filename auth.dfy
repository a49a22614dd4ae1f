/** The Auth container: the sign-in form's initial controls, its validator
    with all five rules, the change handler, the arguments of the submit,
    the sign-up/sign-in toggle, the redirect-path reset on mount and the
    `isAuthenticated` flag read from the store. */
module AuthForm {
  import opened JsRuntime
  import opened FormSchema
  import opened EmailPattern

  const EmailRules := NoRules.(required := Some(true), isEmail := Some(true))

  const PasswordRules := NoRules.(required := Some(true), minLength := Some(6))

  /** The `controls` state before any input. */
  function InitialControls(): Form {
    [ ("email", Field(Input, InputConfig("email", "Mail Address"), "", Some(EmailRules), false, false)),
      ("password", Field(Input, InputConfig("password", "Password"), "", Some(PasswordRules), false, false)) ]
  }

  /** What `checkValidity` computes: no rules accept everything; otherwise
      every truthy rule must hold. */
  predicate RulesHold(value: string, rules: Option<RuleSet>) {
    match rules
    case None => true
    case Some(r) =>
      && (TruthyFlag(r.required) ==> NotBlank(value))
      && (TruthyNumber(r.minLength) ==> AtLeast(StringProperty(value, "length"), r.minLength.value))
      && (TruthyNumber(r.maxLength) ==> AtMost(StringProperty(value, "length"), r.maxLength.value))
      && (TruthyFlag(r.isEmail) ==> EmailTest(value))
      && (TruthyFlag(r.isNumeric) ==> IsDigits(value))
  }

  /** `checkValidity(value, rules)`: the `isValid` accumulator threaded through
      one `if` per rule, after the early return for missing rules. */
  method CheckValidity(value: string, rules: Option<RuleSet>) returns (isValid: bool)
    ensures rules.None? ==> isValid
    ensures isValid == RulesHold(value, rules)
  {
    isValid := true;
    if rules.None? {
      return true;
    }
    var r := rules.value;
    if TruthyFlag(r.required) {
      isValid := Trim(value) != "" && isValid;
    }
    if TruthyNumber(r.minLength) {
      isValid := AtLeast(StringProperty(value, "length"), r.minLength.value) && isValid;
    }
    if TruthyNumber(r.maxLength) {
      isValid := AtMost(StringProperty(value, "length"), r.maxLength.value) && isValid;
    }
    if TruthyFlag(r.isEmail) {
      isValid := EmailTest(value) && isValid;
    }
    if TruthyFlag(r.isNumeric) {
      isValid := IsDigits(value) && isValid;
    }
  }

  /** The validator stated without JavaScript: each truthy rule holds, with
      `required` meaning some character is not whitespace, the length rules
      comparing the number of UTF-16 code units, and `isEmail` meaning some substring matches the
      e-mail pattern. A threshold of 0 is not a rule. */
  lemma RulesHoldMeaning(value: string, r: RuleSet)
    ensures RulesHold(value, Some(r)) <==>
      && (TruthyFlag(r.required) ==> !AllWhitespace(value))
      && (r.minLength.Some? && r.minLength.value != 0 ==> Utf16Length(value) >= r.minLength.value)
      && (r.maxLength.Some? && r.maxLength.value != 0 ==> Utf16Length(value) <= r.maxLength.value)
      && (TruthyFlag(r.isEmail) ==> PatternMatches(value))
      && (TruthyFlag(r.isNumeric) ==> |value| > 0 && forall i :: 0 <= i < |value| ==> '0' <= value[i] <= '9')
  {
    TrimEmptyIffAllWhitespace(value);
    assert NotBlank(value) <==> !AllWhitespace(value);
    EmailTestIsPatternMatch(value);
  }

  /** A failing `required` makes the whole result false, whatever else the rules say. */
  lemma RequiredRejectsBlank(value: string, r: RuleSet)
    requires TruthyFlag(r.required) && AllWhitespace(value)
    ensures !RulesHold(value, Some(r))
  {
    TrimEmptyIffAllWhitespace(value);
  }

  /** An e-mail match is never blank: its `@` is not whitespace. */
  lemma EmailIsNotBlank(value: string)
    requires EmailTest(value)
    ensures NotBlank(value)
  {
    var p :| 1 <= p < |value| && IsLocalChar(value[p - 1]) && value[p] == '@' && DomainStartsAt(value, p + 1);
    assert !IsWhitespace(value[p]);
    TrimEmptyIffAllWhitespace(value);
  }

  /** The e-mail control is valid exactly when the pattern matches somewhere
      in the value; its `required` rule never decides on its own. */
  lemma EmailControlRules(value: string)
    ensures RulesHold(value, Some(EmailRules)) <==> PatternMatches(value)
  {
    EmailTestIsPatternMatch(value);
    if EmailTest(value) {
      EmailIsNotBlank(value);
    }
  }

  /** The password control is valid exactly when it has at least six UTF-16
      code units, not all of them whitespace. */
  lemma PasswordControlRules(value: string)
    ensures RulesHold(value, Some(PasswordRules)) <==> Utf16Length(value) >= 6 && !AllWhitespace(value)
  {
    RulesHoldMeaning(value, PasswordRules);
  }

  /** Characters outside the Basic Multilingual Plane count twice: two letters
      and two emoji make a long enough password, two letters and one emoji do not. */
  lemma PasswordCountsCodeUnits()
    ensures RulesHold("ab\U{1F600}\U{1F600}", Some(PasswordRules))
    ensures !RulesHold("ab\U{1F600}", Some(PasswordRules))
  {
    Utf16LengthCountsSurrogatePairs();
    PasswordControlRules("ab\U{1F600}\U{1F600}");
    PasswordControlRules("ab\U{1F600}");
    assert !IsWhitespace("ab\U{1F600}\U{1F600}"[0]);
  }

  lemma EmailRuleExamples()
    ensures RulesHold("a@b.co", Some(NoRules.(isEmail := Some(true))))
    ensures !RulesHold("not-an-email", Some(NoRules.(isEmail := Some(true))))
  {
    EmailTestAcceptsPlain();
    EmailTestRejectsNoAt();
  }

  lemma NumericRuleExamples()
    ensures RulesHold("12345", Some(NoRules.(isNumeric := Some(true))))
    ensures !RulesHold("12a45", Some(NoRules.(isNumeric := Some(true))))
  {
    assert !IsDigit("12a45"[2]);
  }

  /** Every control's `valid` flag agrees with its rules applied to its value. */
  predicate FlagsCurrent(controls: Form) {
    forall i :: 0 <= i < |controls| ==>
      controls[i].1.valid == RulesHold(controls[i].1.value, controls[i].1.validation)
  }

  /** `inputChangedHandler(event, controlName)`: the spread
      `{...controls, [controlName]: {...controls[controlName], value, valid, touched: true}}`.
      Reading `.validation` of a missing control throws. */
  function InputChanged(controls: Form, controlName: string, value: string): (r: Result<Form>)
    requires DistinctKeys(controls)
    ensures r.Failure? <==> Lookup(controls, controlName).None?
    ensures r.Success? ==> SameSchema(r.value, controls) && DistinctKeys(r.value)
    ensures r.Success? ==>
      var f := Lookup(controls, controlName).value;
      Lookup(r.value, controlName) == Some(Touched(f, value, RulesHold(value, f.validation)))
    ensures r.Success? ==> forall k :: k != controlName ==> Lookup(r.value, k) == Lookup(controls, k)
  {
    match IndexOf(controls, controlName)
    case None => Failure(TypeError)
    case Some(i) =>
      var f := controls[i].1;
      var g := Touched(f, value, RulesHold(value, f.validation));
      ReplaceChangesOnlyItsKey(controls, i, g);
      ReplaceKeepsSchema(controls, i, value, RulesHold(value, f.validation));
      Success(Replace(controls, i, g))
  }

  /** A change keeps every `valid` flag in agreement with its control's rules. */
  lemma InputChangedKeepsFlagsCurrent(controls: Form, controlName: string, value: string)
    requires DistinctKeys(controls) && FlagsCurrent(controls)
    requires InputChanged(controls, controlName, value).Success?
    ensures FlagsCurrent(InputChanged(controls, controlName, value).value)
  {
    var i := IndexOf(controls, controlName).value;
    var r := InputChanged(controls, controlName, value).value;
    assert r == controls[i := (controlName, Touched(controls[i].1, value, RulesHold(value, controls[i].1.validation)))];
  }

  /** Repeating a change with the same value gives the same controls. */
  lemma InputChangedIdempotent(controls: Form, controlName: string, value: string)
    requires DistinctKeys(controls) && InputChanged(controls, controlName, value).Success?
    ensures InputChanged(InputChanged(controls, controlName, value).value, controlName, value)
         == InputChanged(controls, controlName, value)
  {
    var r := InputChanged(controls, controlName, value).value;
    IndexOfSameKeys(r, controls, controlName);
    var i := IndexOf(controls, controlName).value;
    assert r[i].1 == Touched(r[i].1, value, RulesHold(value, r[i].1.validation));
    assert r[i := (controlName, r[i].1)] == r;
  }

  /** The initial controls: the e-mail and password fields, empty, invalid and
      untouched, with flags that agree with their rules. */
  lemma InitialControlsKeys()
    ensures Keys(InitialControls()) == ["email", "password"] && DistinctKeys(InitialControls())
  {
    assert Keys(InitialControls()) == ["email", "password"];
  }

  lemma InitialControlsFacts()
    ensures forall i :: 0 <= i < 2 ==>
      var f := InitialControls()[i].1;
      f.value == "" && !f.valid && !f.touched
    ensures FlagsCurrent(InitialControls())
  {
    RequiredRejectsBlank("", EmailRules);
    RequiredRejectsBlank("", PasswordRules);
  }

  /** The arguments `submitHandler` passes to `onAuth`. */
  datatype AuthRequest = AuthRequest(email: string, password: string, isSignUp: bool)

  /** `submitHandler`: the current e-mail and password values and the mode,
      with no check of the `valid` flags. */
  function SubmitArguments(controls: Form, isSignUp: bool): (r: Result<AuthRequest>)
    ensures r.Success? <==> Lookup(controls, "email").Some? && Lookup(controls, "password").Some?
    ensures r.Success? ==> r.value == AuthRequest(Lookup(controls, "email").value.value,
                                                  Lookup(controls, "password").value.value, isSignUp)
  {
    match (Lookup(controls, "email"), Lookup(controls, "password"))
    case (Some(email), Some(password)) => Success(AuthRequest(email.value, password.value, isSignUp))
    case _ => Failure(TypeError)
  }

  /** Submission is never refused for invalid input: every form with the
      sign-in schema submits its values as they are. */
  lemma SubmitIgnoresValidity(controls: Form, isSignUp: bool)
    requires SameSchema(controls, InitialControls())
    ensures SubmitArguments(controls, isSignUp) ==
      Success(AuthRequest(controls[0].1.value, controls[1].1.value, isSignUp))
  {
    InitialControlsKeys();
    DistinctKeysSameKeys(controls, InitialControls());
    assert controls[0].0 == Keys(controls)[0] == "email";
    assert controls[1].0 == Keys(controls)[1] == "password";
    IndexOfDistinct(controls, 0);
    IndexOfDistinct(controls, 1);
  }

  /** The mode the form starts in: sign up. */
  const InitialIsSignUp := true

  /** `switchAuthModeHandler`. */
  function SwitchAuthMode(isSignUp: bool): bool {
    !isSignUp
  }

  lemma SwitchTwiceRestores(isSignUp: bool)
    ensures SwitchAuthMode(isSignUp) != isSignUp
    ensures SwitchAuthMode(SwitchAuthMode(isSignUp)) == isSignUp
  {
  }

  /** The first caption offers to switch to sign-in. */
  lemma InitialCaption()
    ensures SwitchButtonCaption(InitialIsSignUp) == "SWITCH TO SIGN IN"
    ensures SwitchButtonCaption(SwitchAuthMode(InitialIsSignUp)) == "SWITCH TO SIGN UP"
  {
  }

  /** The caption of the mode button. */
  function SwitchButtonCaption(isSignUp: bool): (caption: string)
    ensures caption == "SWITCH TO SIGN IN" <==> isSignUp
    ensures caption == "SWITCH TO SIGN UP" <==> !isSignUp
  {
    var caption := "SWITCH TO " + if isSignUp then "SIGN IN" else "SIGN UP";
    assert caption[15] == if isSignUp then 'I' else 'U';
    caption
  }

  /** The store's redirect path after the mount effect: reset to "/" when a
      burger is being built and the path is not already "/". */
  function RedirectPathAfterMount(buildingBurger: bool, authRedirectPath: string): (path: string)
    ensures path == "/" || path == authRedirectPath
    ensures path != authRedirectPath <==> buildingBurger && authRedirectPath != "/"
  {
    if buildingBurger && authRedirectPath != "/" then "/" else authRedirectPath
  }

  /** Running the mount effect again changes nothing. */
  lemma RedirectResetIdempotent(buildingBurger: bool, authRedirectPath: string)
    ensures var p := RedirectPathAfterMount(buildingBurger, authRedirectPath);
      RedirectPathAfterMount(buildingBurger, p) == p
  {
  }

  /** `isAuthenticated: state.auth.token !== null`, with `None` for a null token. */
  function IsAuthenticated(token: Option<string>): bool {
    token.Some?
  }

  /** The `<Redirect>` target rendered for an authenticated user. */
  function AuthRedirect(token: Option<string>, authRedirectPath: string): Option<string> {
    if IsAuthenticated(token) then Some(authRedirectPath) else None
  }

  /** After the mount effect, a signed-in user is sent to "/" while a burger is
      being built, and to the stored path otherwise; a user without a token is
      not redirected. */
  lemma RedirectAfterMount(token: Option<string>, buildingBurger: bool, authRedirectPath: string)
    ensures token.None? ==> AuthRedirect(token, RedirectPathAfterMount(buildingBurger, authRedirectPath)) == None
    ensures token.Some? && buildingBurger ==>
      AuthRedirect(token, RedirectPathAfterMount(buildingBurger, authRedirectPath)) == Some("/")
    ensures token.Some? && !buildingBurger ==>
      AuthRedirect(token, RedirectPathAfterMount(buildingBurger, authRedirectPath)) == Some(authRedirectPath)
  {
  }
}
