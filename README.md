# Burger shop declarative forms, in Dafny

The burger shop front end has two forms that share one declarative engine:

- The contact-data form, filled in before an order is placed.
- The sign-in / sign-up form.

Each form is a JavaScript object from field id to a descriptor. A descriptor holds:

- the element type and its configuration;
- the current `value`;
- a `validation` rule object;
- a `valid` flag;
- a `touched` flag.

On every keystroke the change handler copies the form, replaces the edited field with the new value, its freshly computed validity and `touched: true`, and stores the copy. The contact-data form also folds the `valid` flags into a `formIsValid` flag, which enables its ORDER button. Both containers render from `formElementsArray`, the list of `{id, config}` pairs in key order. On submit the contact-data form sends an `orderData` payload mapping each field to its value. The auth form passes the e-mail, the password and the sign-up mode to the store.

This project models that engine:

- `js_runtime.dfy` (module `JsRuntime`): the JavaScript behaviour the validators rely on.
  - A thrown `TypeError` is a `Result` failure.
  - Reading a property of a string primitive: only `length` exists, counting UTF-16 code units; everything else is `undefined`.
  - Comparisons with `undefined` are always false.
  - Rule values count only when truthy.
  - `String.prototype.trim` over the ECMAScript whitespace and line-terminator set.
  - The `^\d+$` digit test.
- `email_pattern.dfy` (module `EmailPattern`): the unanchored `isEmail` regular expression.
  - Its language is written as ghost predicates that follow the pattern's structure.
  - `EmailTest` is an executable recognizer, proved to accept exactly the strings that have a matching substring.
- `form_schema.dfy` (module `FormSchema`), the engine both containers share:
  - rule objects, field descriptors, and forms as ordered key/descriptor sequences;
  - key lookup and single-key replacement;
  - the `formElementsArray` loop.
- `contact_data.dfy` (module `ContactDataForm`):
  - the initial order form;
  - `checkValidity` and the change handler;
  - the `formIsValid` fold and the `formData` loop;
  - the `loading` flag.
  The component state is the class `ContactData`, with fields `orderForm`, `loading` and `formIsValid` and the invariant `Valid()`. The invariant says the schema never changes, every `valid` flag agrees with its rules, and `formIsValid` is the conjunction of the flags.
- `auth.dfy` (module `AuthForm`):
  - the initial controls;
  - `checkValidity` with all five rules;
  - the change handler, written as the functional update it is in the source;
  - the `onAuth` arguments, the mode toggle and its caption;
  - the redirect-path reset on mount, `isAuthenticated` and the redirect target.

Two defects in the contact-data container are logged under "## Findings". For each one, the model contains the code as written and the corrected version. The change handler's pure form, `Changed`, takes the validator reading (`AsWritten` or `Intended`) as a parameter, so its lemmas state both behaviours. The `ContactData` class uses the corrected versions.

## Model

| member | source | states |
|---|---|---|
| JsRuntime.TrimStart | src/containers/Auth/Auth.js:62-63 | The result is a suffix of the input; everything dropped is whitespace; the result does not start with whitespace |
| JsRuntime.TrimEnd | src/containers/Auth/Auth.js:62-63 | The result is a prefix of the input; everything dropped is whitespace; the result does not end with whitespace |
| JsRuntime.TrimEmptyIffAllWhitespace | src/containers/Checkout/ContactData/ContactData.js:135-136 | `value.trim() !== ''` fails exactly when every character is whitespace, the empty string included |
| JsRuntime.TrimIsInfix | src/containers/Auth/Auth.js:62-63 | `trim` returns a contiguous infix of its input, with only whitespace removed on each side |
| JsRuntime.Utf16LengthBounds | src/containers/Auth/Auth.js:66-72 | `value.length` counts UTF-16 code units: between the number of code points and twice that |
| JsRuntime.Utf16LengthOfBmp | src/containers/Auth/Auth.js:66-72 | For text inside the Basic Multilingual Plane, `length` is the number of characters |
| JsRuntime.Utf16LengthCountsSurrogatePairs | src/containers/Auth/Auth.js:66-72 | A character outside the Basic Multilingual Plane counts as two: "ab" plus one emoji has length 4, plus two emoji length 6 |
| EmailPattern.EmailTestSound | src/containers/Auth/Auth.js:74-77 | Every string the recognizer accepts has a substring in the language of the e-mail pattern |
| EmailPattern.EmailTestComplete | src/containers/Auth/Auth.js:74-77 | Every string with a substring in the pattern's language is accepted by the recognizer |
| EmailPattern.EmailTestIsPatternMatch | src/containers/Auth/Auth.js:75-76 | `pattern.test(value)`: the recognizer accepts a string if and only if some substring matches the pattern |
| EmailPattern.DomainHasFirstLabel | src/containers/Auth/Auth.js:75 | Every domain in the pattern begins with a label, a dot, and a lower-case letter or digit |
| EmailPattern.DomainStartIsDomain | src/containers/Auth/Auth.js:75 | The text the recognizer finds after the `@` (first label, dot, one letter or digit) is itself a domain of the pattern |
| EmailPattern.EmailTestInfix | src/containers/Auth/Auth.js:75-76 | A string that contains an accepted string at any offset is accepted |
| EmailPattern.EmailTestUnanchored | src/containers/Auth/Auth.js:75-76 | The pattern has no anchors: adding text before and after an accepted string keeps it accepted |
| EmailPattern.EmailTestNeedsAtAndDot | src/containers/Auth/Auth.js:75 | An accepted string contains an `@` with a `.` somewhere after it |
| EmailPattern.EmailTestAcceptsPlain | src/containers/Auth/Auth.js:75-76 | "a@b.co" passes the e-mail test |
| EmailPattern.EmailTestRejectsNoAt | src/containers/Auth/Auth.js:75-76 | "not-an-email" fails the e-mail test |
| EmailPattern.EmailTestRejectsNoDot | src/containers/Auth/Auth.js:75-76 | "a@localhost" fails the e-mail test: the domain needs at least one dot |
| FormSchema.IndexOf | src/containers/Checkout/ContactData/ContactData.js:156 | `form[key]`: the position found holds the key and no earlier position does; if nothing is found, the key is absent |
| FormSchema.IndexOfDistinct | src/containers/Auth/Auth.js:92 | With distinct keys, the key at position i is found at i |
| FormSchema.IndexOfSameKeys | src/containers/Checkout/ContactData/ContactData.js:152-154 | Two records with the same key order find every key at the same position |
| FormSchema.ReplaceChangesOnlyItsKey | src/containers/Checkout/ContactData/ContactData.js:161 | `updated[key] = element` keeps the keys, their order and their distinctness; the key now holds the new element; every other key reads as before |
| FormSchema.ReplaceKeepsSchema | src/containers/Auth/Auth.js:89-97 | Replacing one descriptor by its touched copy keeps the form's schema: keys, element types, configurations and rules |
| FormSchema.FormElementsArray | src/containers/Checkout/ContactData/ContactData.js:172-178 | One `{id, config}` element per field, in key order, with the field's id and descriptor; the same loop appears in Auth.js at lines 103-109 |
| ContactDataForm.InitialOrderForm | src/containers/Checkout/ContactData/ContactData.js:17-102 | The initial order form has distinct keys |
| ContactDataForm.InitialOrderFormKeys | src/containers/Checkout/ContactData/ContactData.js:17-102 | The fields are name, street, zipCode, country, email and deliveryMethod, in that order |
| ContactDataForm.InitialOrderFormFields | src/containers/Checkout/ContactData/ContactData.js:17-102 | The five text fields start empty, invalid, untouched and required; deliveryMethod starts at "fastest" and valid |
| ContactDataForm.InitialOrderFormFlagsCurrent | src/containers/Checkout/ContactData/ContactData.js:17-104 | Under either validator reading, every initial `valid` flag agrees with the validator, and the initial form is not all valid, matching `formIsValid: false` |
| ContactDataForm.RulesHoldAsWritten | src/containers/Checkout/ContactData/ContactData.js:132-149 | The validator as written: it holds exactly when `required` (if truthy) sees a non-blank value and neither length rule is truthy |
| ContactDataForm.LengthRulesRejectAllAsWritten | src/containers/Checkout/ContactData/ContactData.js:139-145 | As written, any truthy `minLength` or `maxLength` rule rejects every value |
| ContactDataForm.ZipCodeNeverValidAsWritten | src/containers/Checkout/ContactData/ContactData.js:139-145 | As written, no value makes the ZIP code field valid |
| ContactDataForm.RulesHoldMeaning | src/containers/Checkout/ContactData/ContactData.js:132-149 | Intended validator: `required` means not all whitespace, and the length rules bound the value's UTF-16 length; a threshold of 0 is not a rule |
| ContactDataForm.RequiredRejectsBlank | src/containers/Checkout/ContactData/ContactData.js:135-137 | A blank value fails `required`, whatever the other rules are, under both readings |
| ContactDataForm.NoRulesAcceptEverything | src/containers/Checkout/ContactData/ContactData.js:99 | deliveryMethod's empty rule object accepts every value |
| ContactDataForm.ZipCodeRulesMeaning | src/containers/Checkout/ContactData/ContactData.js:53-57 | Intended reading: the ZIP code rules hold exactly for values of UTF-16 length 5 that are not all whitespace |
| ContactDataForm.ZipCodeDigits | src/containers/Checkout/ContactData/ContactData.js:53-57 | For a string of digits, the intended ZIP code rules hold exactly when it has five digits; the as-written rules never hold |
| ContactDataForm.CheckValidity | src/containers/Checkout/ContactData/ContactData.js:132-149 | The accumulator loop returns `RulesHold` of the value; missing rules throw a TypeError |
| ContactDataForm.Changed | src/containers/Checkout/ContactData/ContactData.js:151-161 | Under either validator reading: a missing field, or one without rules, throws. Otherwise the edited key holds the touched descriptor with the new value and that reading's validity, every other key is unchanged, and the schema is kept |
| ContactDataForm.ChangedKeepsFlagsCurrent | src/containers/Checkout/ContactData/ContactData.js:158-161 | After a change, every `valid` flag still agrees with its field's rules under the reading the change used |
| ContactDataForm.ChangedKeepsOrderFormShape | src/containers/Checkout/ContactData/ContactData.js:151-169 | A change keeps the order form's schema, its distinct keys and current flags |
| ContactDataForm.ChangedIdempotent | src/containers/Checkout/ContactData/ContactData.js:151-161 | The same input event applied twice gives the same form as applying it once |
| ContactDataForm.ChangedZipCode | src/containers/Checkout/ContactData/ContactData.js:151-161 | Typing into the ZIP code of the initial form replaces the third field with its touched copy, valid per the ZIP code rules under the chosen reading; the other five fields are unchanged |
| ContactDataForm.ZipCodeScenario | src/containers/Checkout/ContactData/ContactData.js:151-161 | Typing digits into the ZIP code marks it touched. It becomes valid exactly under the intended reading with five digits; as written it stays invalid, "12345" included |
| ContactDataForm.FormIsValidAsWritten | src/containers/Checkout/ContactData/ContactData.js:163-166 | As written, the fold is truthy exactly when the form is empty or has a key named "undefined" |
| ContactDataForm.OrderButtonNeverEnabledAsWritten | src/containers/Checkout/ContactData/ContactData.js:163-169 | As written, no form with the order form's schema ever enables the ORDER button |
| ContactDataForm.FormIsValid | src/containers/Checkout/ContactData/ContactData.js:163-166 | Intended fold: the result is true exactly when every field's `valid` flag is set |
| ContactDataForm.OrderFormValidIff | src/containers/Checkout/ContactData/ContactData.js:163-169 | Intended reading, with current flags: all flags are set, which would enable ORDER, exactly when the five text fields are not blank and the ZIP code has UTF-16 length 5 |
| ContactDataForm.OrderFormNeverValidAsWritten | src/containers/Checkout/ContactData/ContactData.js:139-145 | As written, with flags current under the as-written validator, the ZIP code flag is never set, so the form is never all valid |
| ContactDataForm.OrderFormData | src/containers/Checkout/ContactData/ContactData.js:110-113 | `formData` has the form's keys in order, each mapped to that field's current value |
| ContactDataForm.FormDataLookup | src/containers/Checkout/ContactData/ContactData.js:110-113 | A key is in the payload exactly when it is in the form, and it maps to that field's value |
| ContactDataForm.ContactData.constructor | src/containers/Checkout/ContactData/ContactData.js:17-104 | Initial state: the initial order form, not loading, `formIsValid` false, invariant established |
| ContactDataForm.ContactData.InputChanged | src/containers/Checkout/ContactData/ContactData.js:151-170 | The new form is `Changed` of the old one, and `formIsValid` is its conjunction of flags (invariant kept). A throwing event leaves the state as it was. `loading` is untouched |
| ContactDataForm.ContactData.OrderHandler | src/containers/Checkout/ContactData/ContactData.js:106-113 | Raises `loading` and returns the payload of the current field values; the form and invariant are unchanged |
| ContactDataForm.ContactData.OrderSettled | src/containers/Checkout/ContactData/ContactData.js:121-129 | The request's success or failure clears `loading` and keeps the invariant |
| AuthForm.CheckValidity | src/containers/Auth/Auth.js:55-86 | Missing rules accept; otherwise the accumulator equals `RulesHold` over the five rules |
| AuthForm.RulesHoldMeaning | src/containers/Auth/Auth.js:55-86 | Each truthy rule holds: `required` means not all whitespace, the length rules bound the UTF-16 length, `isEmail` means a substring matches the pattern, and `isNumeric` means one or more ASCII digits |
| AuthForm.RequiredRejectsBlank | src/containers/Auth/Auth.js:62-64 | A blank value fails `required`, whatever the other rules say |
| AuthForm.EmailIsNotBlank | src/containers/Auth/Auth.js:62-77 | A value that passes the e-mail test is never blank |
| AuthForm.EmailControlRules | src/containers/Auth/Auth.js:23-26 | The e-mail control is valid exactly when its value contains a match of the pattern; `required` never decides alone |
| AuthForm.PasswordControlRules | src/containers/Auth/Auth.js:38-41 | The password control is valid exactly when the value has UTF-16 length at least 6 and is not all whitespace |
| AuthForm.PasswordCountsCodeUnits | src/containers/Auth/Auth.js:66-67 | "ab" plus two emoji is a valid password (length 6); "ab" plus one emoji is not (length 4) |
| AuthForm.EmailRuleExamples | src/containers/Auth/Auth.js:74-77 | Under an `isEmail` rule, "a@b.co" is valid and "not-an-email" is not |
| AuthForm.NumericRuleExamples | src/containers/Auth/Auth.js:79-82 | Under an `isNumeric` rule, "12345" is valid and "12a45" is not |
| AuthForm.InputChanged | src/containers/Auth/Auth.js:88-100 | A missing control throws. Otherwise the control holds the new value, its validity and `touched`, every other control is unchanged, and the schema is kept |
| AuthForm.InputChangedKeepsFlagsCurrent | src/containers/Auth/Auth.js:88-97 | After a change, every `valid` flag still agrees with its control's rules |
| AuthForm.InputChangedIdempotent | src/containers/Auth/Auth.js:88-97 | The same input event applied twice gives the same controls as applying it once |
| AuthForm.InitialControlsFacts | src/containers/Auth/Auth.js:15-45 | Both controls start empty, invalid and untouched, and their flags agree with their rules |
| AuthForm.InitialControlsKeys | src/containers/Auth/Auth.js:15-45 | The controls are email then password, with distinct keys |
| AuthForm.SubmitArguments | src/containers/Auth/Auth.js:135-141 | `onAuth` receives the e-mail value, the password value and the mode; a missing control throws |
| AuthForm.SubmitIgnoresValidity | src/containers/Auth/Auth.js:135-141 | Every form with the sign-in schema submits its current values, whether they are valid or not |
| AuthForm.SwitchTwiceRestores | src/containers/Auth/Auth.js:143-145 | The toggle always changes the mode, and toggling twice restores it |
| AuthForm.SwitchButtonCaption | src/containers/Auth/Auth.js:164 | The caption is "SWITCH TO SIGN IN" exactly in sign-up mode, and "SWITCH TO SIGN UP" exactly in sign-in mode |
| AuthForm.InitialCaption | src/containers/Auth/Auth.js:47 | The form starts in sign-up mode, so the first caption is "SWITCH TO SIGN IN"; after one toggle it is "SWITCH TO SIGN UP" |
| AuthForm.RedirectPathAfterMount | src/containers/Auth/Auth.js:49-53 | The path becomes "/" exactly when a burger is being built and the path is not already "/"; otherwise it is unchanged |
| AuthForm.RedirectResetIdempotent | src/containers/Auth/Auth.js:49-53 | Applying the mount reset a second time changes nothing |
| AuthForm.RedirectAfterMount | src/containers/Auth/Auth.js:147-150 | Combined with the mount reset: no token means no redirect; a signed-in user is sent to "/" while a burger is being built, and to the stored path otherwise |

## Left out

- JSX rendering, the `Input`, `Button` and `Spinner` components, and CSS. These are presentation only. `formElementsArray` is modelled; the markup built from it is not. So is the `key={formElement.key}` prop at src/containers/Checkout/ContactData/ContactData.js:184, which is `undefined` for every element and only affects React's reconciliation warnings.
- The `axios.post` request, its promise, `console.log`/`console.error` and `props.history.push('/')`. These are network and navigation I/O. Only their effect on `loading` is modelled, as the two events `OrderHandler` and `OrderSettled`.
- The order payload's `ingredients` and `price` come from props that this model does not include. Only `orderData` is modelled.
- The unused `name`, `email` and `address` state hooks of ContactData (lines 11-16). They are never read or written after initialisation.
- react-redux `connect`, `mapDispatchToProps` and the `useEffect` scheduling. Only the pure conditions are modelled: the redirect reset, `isAuthenticated` and the `onAuth` arguments.
- Rendering of the store's error message and of the spinner while the store is loading (Auth.js lines 124-133). These are display only.
- React state batching and stale closures are not modelled. Each handler runs on the state the previous one left.
- ContactDataForm.ContactData.InputChanged does not refuse input while `loading` is set. The source does not either: during loading it only hides the form.
- JavaScript's ordering of integer-like object keys first is not modelled. Keys keep insertion order, which is what every key in these forms is subject to.
- A store token of `undefined` is not modelled. The token is either a string or `null`.
- The regular-expression engine is not modelled. `isEmail` uses a recognizer proved equal to the pattern's language on strings.
- The lower-case-only character classes of the pattern are kept as they are. A mixed-case address matches only through a lower-case infix, as in the source.
- src/store/actions/burgerBuilder.js and src/components/Navigation/NavigationItems/NavigationItems.js are not part of this model. One holds plain action object factories, the other conditional markup.
- ContactDataForm.ContactData.InputChanged, ContactDataForm.OrderFormValidIff: follow the corrected validator and the corrected fold. As written, `zipCode.valid` stays false after every change (`ZipCodeScenario`, `OrderFormNeverValidAsWritten`), and `formIsValid` is falsy after every change (`OrderButtonNeverEnabledAsWritten`).
- JsRuntime.StringProperty, AuthForm.RulesHoldMeaning, AuthForm.PasswordControlRules, ContactDataForm.RulesHoldMeaning, ContactDataForm.ZipCodeRulesMeaning: lengths count UTF-16 code units, computed from code points. A string holding an unpaired surrogate cannot be represented, because Dafny characters are Unicode scalar values.
- ContactDataForm.FormIsValidAsWritten: tracks only the truthiness of the as-written fold. The actual JavaScript value (`undefined` or `true`) is not modelled.

## Findings

| source | as written | input that shows it | evidently intended | confidence | as-written member | corrected member |
|---|---|---|---|---|---|---|
| src/containers/Checkout/ContactData/ContactData.js:139-145 | The length rules compare `value.minLength` and `value.maxLength`. A string has neither, so `undefined >= 5` and `undefined <= 5` are both false | Typing "12345" into the ZIP code field leaves it invalid | Compare `value.length`, as Auth.js does at lines 66-72 | high, not executed | ContactDataForm.ZipCodeNeverValidAsWritten | ContactDataForm.CheckValidity |
| src/containers/Checkout/ContactData/ContactData.js:164-166 | The fold reads `updatedOrderForm[inputIdentifier.valid]`, i.e. the key "undefined", so `formIsValid` becomes `undefined` | Every input event on the order form, even with all six fields valid, leaves the ORDER button disabled | Read `updatedOrderForm[inputIdentifier].valid` | high, not executed | ContactDataForm.OrderButtonNeverEnabledAsWritten | ContactDataForm.FormIsValid |
