# Style-class resolver

A Dafny model of the `styles` template helper of an Ember application that uses
CSS modules. A component or controller imports its compiled stylesheet, whose
default export is a map from semantic class names to the emitted (hashed or
readable) class names, and assigns it to its `styles` attribute. Templates call
`{{styles this "name1 name2"}}`. The helper turns the semantic names into the
emitted ones:

- no `styles` attribute on the owner: one diagnostic, result `''`;
- otherwise: split the string on single spaces, look every token up (a missing
  token, or one whose value is falsy, reports a diagnostic naming it and
  contributes `''`), and join the contributions with single spaces in order.

Files:

- `text.dfy` (module `Text`): JavaScript's `split(' ')` and `join(' ')` on
  strings, their round trips, and how the number of pieces relates to the
  number of spaces.
- `styles.dfy` (module `StylesHelper`): the owner's `styles` attribute, the
  diagnostics, the per-token lookup, `Compute` itself, reference definitions
  stated per position and the properties proved against them.

The console is modelled as the sequence of `Diagnostic` values a call returns,
in the order `console.error` would have been called; `Message` gives the text
of each. `Compute` is a Dafny function, so it cannot change the owner or its
map; that property holds by construction and has no separate member.

Two behaviours of the code that one might not expect are kept as written:

- One might expect class names to be separated by any whitespace, with empty
  tokens dropped. The code splits on the single character `' '` only, so a
  tab or newline is part of a token, and two consecutive spaces (or a leading
  or trailing space, or the empty string) yield an empty token, which is
  reported as missing (`ComputeDoubleSpace`, `ExampleEmptyClassNames`).
- One might expect every owner without a usable map to get the single
  "no styles" diagnostic. The code's guard is
  `typeof context?.styles === 'undefined'`, so a `styles` attribute set to
  `null` or another falsy value (`false`, `0`, `''`) passes the guard; the
  lookup's `context?.styles && ...` test then fails for every token, so each
  token is reported separately. The model keeps this as the `Falsy` case
  (`ComputeFalsyStyles`).

## Model

| member | source | states |
|---|---|---|
| `Text.Split` | app/helpers/styles.js:14-15 | `split(' ')` always yields at least one piece, and no piece contains a space |
| `Text.JoinSplit` | app/helpers/styles.js:15-25 | joining the pieces of a split with single spaces gives back the original string |
| `Text.SplitJoin` | app/helpers/styles.js:15-25 | splitting the join of a non-empty sequence of space-free pieces gives back exactly those pieces |
| `Text.SplitCount` | app/helpers/styles.js:15 | the number of tokens is the number of spaces in the input plus one |
| `Text.JoinCount` | app/helpers/styles.js:25 | a join of n pieces holds n - 1 separators on top of the spaces inside the pieces |
| `Text.SplitWord` | app/helpers/styles.js:15 | a string without spaces is a single token |
| `Text.SplitAtSpace` | app/helpers/styles.js:15 | a space splits a string into the tokens of its left side followed by those of its right side |
| `Text.SplitThreeWords` | app/helpers/styles.js:15 | three space-free words separated by single spaces split into exactly those three tokens |
| `Text.SplitDoubleSpace` | app/helpers/styles.js:15 | two consecutive spaces produce an empty token between the tokens of the two sides |
| `StylesHelper.Message` | app/helpers/styles.js:8-21 | a missing-class message holds the token's name verbatim at a fixed offset between fixed prefix and suffix |
| `StylesHelper.MessageIdentifiesDiagnostic` | app/helpers/styles.js:21 | two diagnostics with the same console text are the same diagnostic, so a message identifies the token it names |
| `StylesHelper.ResolveName` | app/helpers/styles.js:16-24 | a token's contribution is non-empty exactly when the map holds it with a non-empty value, is then that value, and a diagnostic naming the token is reported exactly when the contribution is empty |
| `StylesHelper.ResolveEach` | app/helpers/styles.js:14-24 | mapping the tokens yields one slot per token and at most one diagnostic per token, all of them missing-class diagnostics |
| `StylesHelper.Compute` | app/helpers/styles.js:4-28 | without a styles attribute the result is `''` with exactly one no-styles diagnostic whatever the input; with one, that diagnostic never appears and there are at most as many diagnostics as tokens |
| `StylesHelper.ResolveEachMeetsReference` | app/helpers/styles.js:16-24 | the slots are, position by position, the token's emitted name or `''`, and the diagnostics are the unresolved tokens in order |
| `StylesHelper.UnresolvedCounts` | app/helpers/styles.js:17-23 | an unresolved token occurs among the unresolved as often as in the input; a resolving token never occurs there |
| `StylesHelper.ComputeResolvesTokens` | app/helpers/styles.js:14-27 | with a styles attribute the result is the per-position slots joined with single spaces in token order, and the diagnostics name the unresolved tokens in token order |
| `StylesHelper.ComputeReportsEachMissingToken` | app/helpers/styles.js:17-23 | each occurrence of a missing (or empty-valued) token yields exactly one diagnostic naming it; a resolving token yields none |
| `StylesHelper.ComputeSingleToken` | app/helpers/styles.js:14-27 | a single token with a non-empty value resolves to exactly that value with no diagnostics; otherwise to `''` with one diagnostic naming it |
| `StylesHelper.ComputeSeparators` | app/helpers/styles.js:15-25 | the output has exactly the input's separators plus the spaces inside the emitted names: missing tokens leave stray spaces rather than being removed |
| `StylesHelper.ComputeKeepsSlots` | app/helpers/styles.js:14-25 | with space-free emitted names, splitting the output gives back one slot per input token in order, and the output has as many spaces as the input |
| `StylesHelper.ComputeDoubleSpace` | app/helpers/styles.js:15-23 | a double space yields an empty token that is reported as missing, unless the map has a non-empty value for `""`, which then fills that slot |
| `StylesHelper.ComputeFalsyStyles` | app/helpers/styles.js:7-17 | a styles attribute that is set but falsy passes the guard and behaves as an empty map: one diagnostic per token and an output made only of separators |
| `StylesHelper.MiddleTokenMissing` | app/helpers/styles.js:14-25 | resolving `a b c` with only `b` missing gives the two emitted names around a double space, and one diagnostic for `b` |
| `StylesHelper.TrailingTokenMissing` | app/helpers/styles.js:14-25 | a resolving token followed by a missing one gives the emitted name and a trailing space, and one diagnostic for the missing token |
| `StylesHelper.ExampleEmptyClassNames` | app/helpers/styles.js:14-25 | an empty class-name string against a map without `""` gives `''` and one diagnostic for the empty token |

## Left out

- `console.error`: modelled as the returned diagnostic sequence, not as output.
- The Ember `Helper` base class, the `params` array and template invocation: `Compute` takes the owner's `styles` attribute and the class-name string directly; a context that is absent folds into `Undefined`, as `context?.styles` does.
- A class-name argument that is not a string (the code would throw at `split`): the model's argument is always a string.
- A truthy `styles` attribute that is not an object, such as a string or a number: the code would index it, so a string's index and `length` properties would resolve (`"abc"["0"]` is `"a"`); the model has no such case, only `Undefined`, `Falsy` and a map.
- Map values that are not strings: values are modelled as strings, so `""` is the only falsy value; a non-string falsy value (`0`, `null`, `false`) would behave as `""` does.
- Properties a JavaScript object inherits from its prototype (`constructor`, `toString`, ...): the lookup in the code would find them; the model's map has only its own keys.
- The stylesheet compiler (the css-loader options in `ember-cli-build.js` selecting the hashed `[sha512:hash:base64:5]` or readable `[path][name]__[local]` naming): the names are generated inside css-loader and webpack, which are not part of this model, and the hash is a foreign computation.
- `app/app.js`, `app/router.js`, `tailwind.config.js` and the test files: framework wiring, configuration data and rendering smoke tests with no logic of the helper.
