# Binding and validation wrappers, modelled in Dafny

The repository wraps a flat, string-valued record in two observers.

- **Validator** (`src/js/validate.js`) intercepts writes. For a field with a rule list, it runs every rule token in order against the incoming value and joins their messages. It stores the joined message in a results map and then commits the value. A rule that throws rejects the write.
- **Binder** (`src/js/bind.js`) keeps the record in step with a form. At attach time every field shows its value on the same-named control, and the binder registers a listener for the control's kind. A programmatic write cancels the field's debounce timer and updates the record, the label `idprefix + field` and the control. It then calls the change callback. Keystrokes, checkbox toggles and select changes write back into the raw record. Keystrokes are optionally debounced.

## Layout

- `js_values.dfy`, module `JsValues`: the JavaScript value semantics the rules rely on. It covers truthiness, `+s` on a string, lexicographic string order, and the relational operators with their NaN behaviour.
- `rule_tokens.dfy`, module `RuleTokens`: `split`/`join` on one character. It also has `ParseToken`, which takes `name^a1^...^ak:dt` apart, and `FormatToken`, which puts it back together.
- `validate.dfy`, module `Validate`:
  - the rule catalogue;
  - `RunTokens`, the specification of `validate`, defined token by token and giving either the joined message or an exception, plus the results map;
  - the lemmas that describe `RunTokens`;
  - class `Validator`. Its `Validate` method runs the loop over the tokens in place on `results`. Its `Set` method is the `set` trap.
- `bind.dfy`, module `Bind`: class `Binder`. Its fields are:
  - `obj`, the record;
  - `controls`, the form's named controls;
  - `labels`, element text by id;
  - `pending`, the `durationHndl` timers as a flag per field;
  - `calls`, the log of callback calls.

  The class has one method per event, plus short event sequences proved from the method contracts.

## Where the code and its documented intent differ

The model follows the code.

- **Rolled-back clears.** A cross-field rule clears the other field's result before a later token throws. That clear is not rolled back (`Validate.RunThrew`, `Validate.ClearSurvivesThrow`).
- **`date` never reports.** `parseDate` is a placeholder that always returns a date, so the `date` rule never reports (`Validate.DateNeverReports`).
- **Raw string comparison.** Without a datatype, the cross-field rules compare raw strings. So `"lower^end"` with `start = "10"` and `end = "5"` reports nothing, because `"10" < "5"` as strings. With `:number` it reports `Input Lower.` (`Validate.LowerRawExample`, `Validate.LowerNumberExample`).
- **Callback tokens.** A function-valued rule token never runs. `validate` calls the name `rule` there, which is not bound in that branch, so every write to such a field is rejected (`Validate.CallbackRejectsWrite`).
- **Missing rule argument.** A cross-field token without an argument, such as `"lower"`, uses the property key `"undefined"` for the other field (`Validate.OtherField`).
- **UI writes bypass the trap.** Keystrokes, toggles and select changes write into the raw record (src/js/bind.js:100-103). They skip the binder's own trap, so they update no label and cancel no timer. Only programmatic writes take the full path (`Bind.Binder.SetValue`, `Bind.Binder.Write`).
- **Checkbox writes.** A programmatic write to a checkbox field sets the checkbox's `value`, not its `checked` flag (`Bind.Binder.Write`).

## Model

| member | source | states |
|---|---|---|
| `JsValues.Truthy` | src/js/validate.js:37 | JavaScript truthiness of `pv`: the empty string, 0, NaN, `undefined` and `null` are falsy, and every Date is truthy. `Validate.ParseValue` and `Validate.ParseDate` carry the consequences |
| `JsValues.ToNumber` | src/js/validate.js:28 | the unary `+` of a string, for decimal integers with an optional sign. Its promise is carried by `JsValues.NumberRoundTrip` and `JsValues.NotANumber` |
| `JsValues.Holds` | src/js/validate.js:37-58 | the operators `>=`, `<=`, `>`, `<`: strings compare lexicographically; otherwise both sides become numbers, and NaN makes every comparison false. Carried by `JsValues.StrLessTotal`, `JsValues.NonStrictOnStrings` and `JsValues.UndefinedNeverCompares` |
| `JsValues.NumberRoundTrip` | src/js/validate.js:28-29 | `+` applied to the decimal spelling of any integer gives that integer back |
| `JsValues.NotANumber` | src/js/validate.js:28-29 | a string with a character that is neither a digit nor a leading sign converts to NaN |
| `JsValues.StrLessIrreflexive` | src/js/validate.js:37 | no string is below itself in the raw string order |
| `JsValues.StrLessTotal` | src/js/validate.js:37 | two distinct strings are ordered one way, and never both ways |
| `JsValues.StrLessTransitive` | src/js/validate.js:37 | the raw string order is transitive |
| `JsValues.NonStrictOnStrings` | src/js/validate.js:37-58 | on two strings, `>=` is `>` or equality, and `<=` is `<` or equality |
| `JsValues.UndefinedNeverCompares` | src/js/validate.js:36-37 | every comparison against `undefined` (a missing other field) is false |
| `RuleTokens.Split` | src/js/validate.js:78-79 | `split` yields at least one piece, and no piece contains the separator |
| `RuleTokens.SplitJoin` | src/js/validate.js:78-79 | splitting a join of separator-free pieces gives the pieces back |
| `RuleTokens.JoinSplit` | src/js/validate.js:78-79 | joining the pieces of a split gives the string back |
| `RuleTokens.ParseToken` | src/js/validate.js:78-80 | name, arguments and datatype hold no separator; the datatype is absent exactly when the token has no `:` |
| `RuleTokens.ParseFormat` | src/js/validate.js:78-80 | `"name^a1^...^ak:dt"` parses to `name`, `[a1..ak]` and `dt`; without `:` the datatype is absent |
| `RuleTokens.FormatParse` | src/js/validate.js:78-80 | a token with at most one `:` is rebuilt exactly from its parse |
| `Validate.RuleMessage` | src/js/validate.js:23-60 | a built-in rule's message is '', "Required." (only from `required`), "Invalid Format." (only from `number`) or the rule's cross-field message. A non-empty message comes from `required` exactly when the value is empty, since no other rule reports on an empty value. Per-rule lemmas: `Validate.RequiredReportsEmpty`, `Validate.DateNeverReports`, `Validate.NumberReportsNaN`, `Validate.RawCrossField`, `Validate.NumericCrossField`, `Validate.DateCrossField`, `Validate.UnknownDatatypeNeverReports` |
| `Validate.ParseValue` | src/js/validate.js:89-93 | only a non-empty incoming string can parse to a truthy value, and the raw string comes back only when the datatype is absent or empty |
| `Validate.ParseDate` | src/js/validate.js:95-98 | the placeholder always returns a Date, which is truthy, so the `date` rule cannot report |
| `Validate.Throws` | src/js/validate.js:83-84 | a token throws if it is a function token, or if it is a cross-field rule (whose clear at line 34 needs a results map) and there is no results map; with a results map, only function tokens throw |
| `Validate.RunTokens` | src/js/validate.js:75-87 | `validate` over a token list: the results map stays present or absent, and a throw comes from some throwing token. `Validate.RunCompleted`, `Validate.RunThrew` and `Validate.RunThrowsIff` relate it to the independent `Messages` and `ClearAll` |
| `Validate.ClearAll` | src/js/validate.js:34 | clearing fields keeps a results map present and an absent one absent |
| `Validate.ClearedFieldsNamed` | src/js/validate.js:32-34 | a field is cleared exactly when some cross-field token of the list names it |
| `Validate.RunCompleted` | src/js/validate.js:76-86 | if no token throws, the message is every token's message joined in order, and every named other field's result is set to '' |
| `Validate.RunThrew` | src/js/validate.js:76-86 | if token k is the first to throw, validation throws, and the clears made by tokens before k remain |
| `Validate.RunThrowsIff` | src/js/validate.js:76-86 | validation throws exactly when some token throws: a function token, or a cross-field rule with no results map |
| `Validate.SingleToken` | src/js/validate.js:76-86 | a list of one token that does not throw yields that token's message and its clear alone |
| `Validate.UnknownContributesNothing` | src/js/validate.js:81-82 | an unknown rule name or a non-string, non-function token contributes '', does not throw and clears nothing |
| `Validate.RequiredReportsEmpty` | src/js/validate.js:24 | `required` gives "Required." exactly for the empty value, else '' |
| `Validate.DateNeverReports` | src/js/validate.js:25 | `date` contributes '' for every value |
| `Validate.NumberReportsNaN` | src/js/validate.js:26-31 | `number` gives "Invalid Format." exactly for a non-empty value that converts to NaN; empty input contributes '' |
| `Validate.NumberExamples` | src/js/validate.js:26-31 | `number` reports on "abc" and not on "" or "42" |
| `Validate.RawCrossField` | src/js/validate.js:89-90 | without a datatype, or with an empty one such as in "lower^end:", a message appears exactly when the value is non-empty, the other field exists and the raw string comparison holds |
| `Validate.NumericCrossField` | src/js/validate.js:91 | with `number`, an empty or missing other field counts as 0, and a value of 0 or NaN never reports |
| `Validate.DateCrossField` | src/js/validate.js:92 | with `date`, an empty or missing other field becomes `null` and counts as 0. The incoming Date is always truthy, so the rule reports exactly when the value is non-empty, both times are valid and the comparison holds on them. The other field's result is cleared either way |
| `Validate.LowerDateAgainstEmpty` | src/js/validate.js:32-38 | "lower^end:date" against an empty or missing `end` reports "Input Lower." for every non-empty value whose time is at or after the epoch, and for no other value |
| `Validate.UnknownDatatypeNeverReports` | src/js/validate.js:89-93 | a cross-field rule with a datatype other than `number` and `date` never reports, because the value becomes `undefined`; it still clears the other field's result |
| `Validate.LowerRawExample` | src/js/validate.js:32-38 | the token text "lower^end", writing "10" against "5", reports nothing and clears `end` |
| `Validate.LowerNumberExample` | src/js/validate.js:32-38 | the token text "lower^end:number", writing "10" against "5", reports "Input Lower." and clears `end` |
| `Validate.ClearSurvivesThrow` | src/js/validate.js:83-84 | a function token after a cross-field rule rejects the write, and the other field's result stays cleared |
| `Validate.Validator.constructor` | src/js/validate.js:1-2 | the wrapper starts from the given object, rule table and results map |
| `Validate.Validator.Validate` | src/js/validate.js:75-87 | the loop over the tokens yields the message and results map of `RunTokens`, or the exception and the results map at the throw |
| `Validate.Validator.Set` | src/js/validate.js:3-16 | without rules, only `obj[p]` changes. Otherwise, when nothing throws, `obj[p] := v`, the message is stored under `p` and the trap returns true, whatever the message. On a throw it returns false and `obj` is unchanged |
| `Validate.RequiredDoesNotBlock` | src/js/validate.js:3-10 | with the rule list ["required"], writing "" through the trap succeeds, commits "" and stores "Required." as the field's result |
| `Validate.CallbackRejectsWrite` | src/js/validate.js:4-15 | a field whose rules hold a function token keeps its old value, and its result is not written |
| `Bind.Shown` | src/js/bind.js:58-72 | how attaching shows a field on its control: a checkbox is checked iff its value equals the field, a text input, textarea or select takes the value, and any other element is left alone. Carried by `Bind.ShownThenCommitted` and `Bind.Binder.Attach` |
| `Bind.Committed` | src/js/bind.js:84-97 | the value a listener writes back: a checkbox's value if checked, else ''; any other control's value. Carried by `Bind.ShownThenCommitted` and `Bind.Binder.Toggle` |
| `Bind.ShownThenCommitted` | src/js/bind.js:58-93 | showing a value on a control and reading it back with the listener's rule gives the value again, except on a checkbox whose own value differs, which reads back '' |
| `Bind.Binder.Attach` | src/js/bind.js:48-72 | each field with a same-named control shows its value there: a checkbox is checked iff its value equals the field. The field gets the listener of its control's kind. Fields without a control are skipped, and no timer is pending |
| `Bind.Binder.SetValue` | src/js/bind.js:100-103 | a UI-originated write changes only `obj[key]` and calls the callback once |
| `Bind.Binder.Write` | src/js/bind.js:110-130 | cancels the field's timer and stores the value. It sets label `idprefix + p` only if the prefix is non-empty and the label exists. It sets the control's validity message in validator mode and its value otherwise. It calls the callback once and returns true |
| `Bind.Binder.Input` | src/js/bind.js:74-88 | with a duration, a keystroke marks the field's single timer pending and writes nothing. Without one, it writes the text at once. Labels are untouched |
| `Bind.Binder.Fire` | src/js/bind.js:77-87 | a pending timer writes the control's value as it is when the timer fires, then is no longer pending. A timer that is not pending does nothing |
| `Bind.Binder.Toggle` | src/js/bind.js:90-93 | a checkbox change writes the checkbox's value if checked, else '' |
| `Bind.Binder.Choose` | src/js/bind.js:95-98 | a select change writes the chosen value at once |
| `Bind.DebounceCoalesces` | src/js/bind.js:74-88 | on any binder whose field has the text listener and a non-zero duration, one or more keystrokes leave the record and the callback log unchanged until the timer fires. The timer then writes exactly once, with the last text, and is no longer pending. Labels and the other timers are unchanged, and the control holds the last text |
| `Bind.WriteSupersedesTyping` | src/js/bind.js:111 | a programmatic write after a keystroke cancels its timer, so the typed text is never written |
| `Bind.WriteReachesSinks` | src/js/bind.js:113-126 | a programmatic write reaches the label and the control once each and calls the callback once. In validator mode, the control keeps its value and gets the text as its validity message |

## Left out

- JsValues.ToNumber: models `+s` only for decimal integers with an optional sign. Whitespace, fractions, exponents, hexadecimal and `Infinity` are NaN here. The source uses IEEE floats. `JsValues.NotANumber`, `Validate.NumberReportsNaN`, `Validate.NumericCrossField` and `Validate.NumberExamples` inherit this restriction: for example, "1.5", " 7" and "1e3" are NaN here but numbers in JavaScript.
- JsValues.NumberRoundTrip: holds for every integer here. In JavaScript it holds only up to 2^53 in magnitude, because larger integers lose precision as floats.
- JsValues.StrLess: orders strings by Unicode code point. JavaScript compares UTF-16 code units, and the two orders differ only for characters outside the Basic Multilingual Plane.
- The `date` datatype: `new Date(value)` is a host library parse. It is the `Host.parseTime` parameter, which gives a time value or NaN. The clock read by `new Date()` in `parseDate` is the `Host.now` parameter.
- `console.log` in the catch handler is not modelled. The `Proxy`/`Reflect` machinery is replaced by explicit `Set` and `Write` methods, and the `get` side is plain field access.
- Only strings are written. Non-string values written through the traps are not modelled, nor a `rules[p]` entry that is not a list.
- Rule names that resolve through the JavaScript object prototype, such as `toString`, are not modelled. Neither are field names that do so. For a field named like an `Object.prototype` member, `rules[p]` is truthy even without an entry, so validation calls a function as a token list and the write is rejected (src/js/validate.js:5-6). In the model, such a field has no rules.
- DOM typing (`instanceof`, `el.type`), `addEventListener` and `getElementById` are replaced by a control kind per field and by maps. A select's normalisation of a value that is not one of its options is not modelled, nor radio-button groups.
- Real timers are replaced by a pending flag per field and an explicit `Fire` event, so elapsed time is not modelled.
- Bind.Binder.Attach: `duration` is a `nat`, so negative durations are not modelled. JavaScript treats a negative duration as truthy and debounces with it (src/js/bind.js:75).
- Bind.Binder.Write: one `controls` map stands for two different lookups. Attaching reads `form.elements[key]` (src/js/bind.js:55). The trap reads `form[p]` (src/js/bind.js:118), which also reaches the form's own properties, such as `method` or `length`. The model does not capture writes to those properties.
- What the change callback itself does is not modelled, for example reading the record. The model records each call in order in `calls`.
- Composing the binder over the validator is not modelled. The two classes share no state.
