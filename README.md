# RegexToolbox for Kotlin: a verified model of the builder core

RegexToolbox builds regular expressions one piece at a time. A
`RegexBuilder` collects pattern text in a string buffer and counts the groups
that are still open. Each builder call adds one fragment: literal text (escaped
first), raw regex text, a character class, an anchor, a set of alternatives,
or a group opening or closing. A fragment may be followed by a quantifier.
`buildRegex` compiles the buffer and clears it, or fails when some group is
still open. A quantifier is a `RegexQuantifier` object that holds its suffix
text (`*`, `{2,5}`, ...). Greedy quantifiers (`RegexGreedyQuantifier`) can
be made lazy by `butAsFewAsPossible()`, which appends `?` to the object itself
and does not make a copy.

The model has six modules:

- `Wrappers`: `Option`, and `Outcome` for an operation that either passes or
  fails with an error value.
- `Decimal`: Kotlin's decimal rendering of an `Int` (`IntToString`) and a
  parser that inverts it. The quantifier texts and the "n groups" message are
  built with it.
- `Escaping`: the two escaping routines of `RegexBuilder.kt`, word for word.
  `makeSafeForRegex` is a chain of 14 `String.replace` calls.
  `makeSafeForCharacterClass` escapes `]` and a leading `^`. The module also
  has the `|`-joining that `anyOf` uses. Each escaper's contract equates it
  with a per-character map (`EscapeWith`). Two independent definitions stand
  beside the chain:
  - `EscapeLiteral`, a per-character map: every character of
    `\?.+*^$()[]{}|` gets one backslash.
  - `ReadAlternatives`, a reader that undoes escaping and splits at unescaped
    `|`.
- `Quantifiers`: `RegexQuantifier` is a class with a mutable `regexString`. A
  `greedyKind` flag records that the object was made as a
  `RegexGreedyQuantifier`. The module also has the companion factories, and
  `ParseQuantifier`, which reads a suffix as a `Repetition` (min, max, lazy).
  It reads the suffix as java.util.regex, the engine behind Kotlin's `Regex`
  on the JVM, reads a quantifier. Bounds are unsigned numerals, and in
  `{n,m}` n may not exceed m. Any other text after `{` is an illegal
  repetition, so the reader gives `None`.
- `Builder`: `RegexBuilder` is a class with the buffer `buf` and the
  open-group counter `open`. Every builder method states the whole new state.
- `Scenarios`: concrete call sequences taken from the library's documented
  behaviour.

Escaping details that the model keeps exactly as `RegexBuilder.kt` has them,
even where the tests of the library's DSL layer or its documentation suggest
otherwise:

- `makeSafeForRegex` replaces the backslash first, so the backslashes added
  by later steps are not doubled (`ReplaceExtendsEscape`).
- `makeSafeForCharacterClass` escapes neither `-` nor `\`, nor `[` and `&&`,
  which java.util.regex reads as a nested class and an intersection. Inside a
  class, `"a-f"` therefore stays a range. A backslash in the text is copied as
  it is, so it can turn the backslash added before a `]` into an escaped
  backslash. For example, `\]` becomes `\\]`, in which the `]` closes the
  class (`CharacterClassKeepsBackslash`). A trailing backslash escapes the
  class's own closing `]`.
- `letter()` is `[a-zA-Z]` and `wordCharacter()` is `\w`.
- `anyOf` with one string does not wrap it in a group.
- `anyOf` with several strings and a quantifier applies the quantifier twice.
  `regexText` wraps the joined alternatives in `(?:…)` plus the quantifier,
  and `endGroup` adds the quantifier again after the outer group.
- `regexText` with a quantifier always wraps the text in `(?:…)`, even a
  single character.
- The counted quantifiers do not validate their numbers. Negative counts, and
  a minimum above the maximum, are rendered as given. The contracts of
  `ExactlyText`, `AtLeastText`, `NoMoreThanText` and `BetweenText` state that
  such texts are not quantifiers at all.

## Model

| member | source | states |
|---|---|---|
| Decimal.NatToString | src/main/kotlin/RegexQuantifier.kt:47 | The rendering of a natural number is a nonempty string of digits, with a leading `0` exactly for zero. |
| Decimal.IntToString | src/main/kotlin/RegexQuantifier.kt:57 | An `Int` rendered by a string template is nonempty and made of digits and `-`, with a leading `-` exactly when it is negative. |
| Decimal.ParseIntToString | src/main/kotlin/RegexQuantifier.kt:78 | Reading back the rendering of any integer gives that integer. |
| Decimal.ParseNatOfIntToString | src/main/kotlin/RegexQuantifier.kt:47 | A rendered `Int` reads as an unsigned bound exactly when it is not negative, and then as that number. |
| Decimal.IntToStringInjective | src/main/kotlin/RegexBuilder.kt:48 | Different integers render as different strings. |
| Escaping.ReplaceEvery | src/main/kotlin/RegexBuilder.kt:402-417 | `String.replace` with a one-character target leaves text without the target unchanged, and leaves no target behind unless the replacement contains one. |
| Escaping.ReplaceExtendsEscape | src/main/kotlin/RegexBuilder.kt:402-403 | Because the backslash is replaced first, each later single-character replace escapes one more character and does not disturb the backslashes added earlier. |
| Escaping.MakeSafeForRegex | src/main/kotlin/RegexBuilder.kt:401-418 | The 14-step replace chain equals the per-character escape of every metacharacter `\?.+*^$()[]{}\|`, for every input string. |
| Escaping.EscapeWithUnchanged | src/main/kotlin/RegexBuilder.kt:401-418 | Text with none of the escaped characters passes through escaping unchanged. |
| Escaping.MakeSafeForRegexReadsBack | src/main/kotlin/RegexBuilder.kt:401-418 | Reading an escaped literal as regex syntax gives back exactly one alternative, the original string: escaping neither loses nor adds a character, and leaves no bare metacharacter. |
| Escaping.MakeSafeForCharacterClass | src/main/kotlin/RegexBuilder.kt:389-399 | Escaping for a character class equals a backslash before every `]`, plus one more backslash in front when the text starts with `^`. |
| Escaping.CharacterClassEscapesBrackets | src/main/kotlin/RegexBuilder.kt:389-399 | In the escaped class text, every `]` directly follows a backslash, and a leading `^` becomes `\^`. When the text holds no backslash, no `]` follows two backslashes, so none can close the class early. |
| Escaping.CharacterClassKeepsBackslash | src/main/kotlin/RegexBuilder.kt:389-399 | The backslash is not escaped: the text `\]` becomes `\\]`, whose `]` follows an escaped backslash and closes the class. |
| Escaping.JoinEnds | src/main/kotlin/RegexBuilder.kt:271 | `joinToString` output starts with the first part and ends with the last one. |
| Escaping.EscapeAll | src/main/kotlin/RegexBuilder.kt:271-273 | Mapping the strings through makeSafeForRegex keeps their number and escapes each one. |
| Escaping.JoinedAlternativesReadBack | src/main/kotlin/RegexBuilder.kt:271-273 | Joining the escaped strings with `\|` reads back as exactly the original list of alternatives, for any nonempty list, empty strings included. |
| Quantifiers.RegexQuantifier.Plain | src/main/kotlin/RegexQuantifier.kt:6-8 | A base-class quantifier stores the given text and cannot be made lazy. |
| Quantifiers.RegexQuantifier.Greedy | src/main/kotlin/RegexGreedyQuantifier.kt:7-9 | A greedy quantifier passes its text unchanged to the base class. |
| Quantifiers.RegexQuantifier.ToString | src/main/kotlin/RegexQuantifier.kt:14-16 | toString returns the text stored now, including any `?` added since construction. |
| Quantifiers.RegexQuantifier.MakeNonGreedy | src/main/kotlin/RegexQuantifier.kt:9-12 | Appends exactly one `?` in place and returns the same object. |
| Quantifiers.RegexQuantifier.ButAsFewAsPossible | src/main/kotlin/RegexGreedyQuantifier.kt:16-18 | Available only on greedy quantifiers. It returns this same object with one `?` appended, so every holder of the object sees the change. |
| Quantifiers.ZeroOrMore | src/main/kotlin/RegexQuantifier.kt:24 | A fresh greedy quantifier with text `*`. |
| Quantifiers.OneOrMore | src/main/kotlin/RegexQuantifier.kt:31 | A fresh greedy quantifier with text `+`. |
| Quantifiers.NoneOrOne | src/main/kotlin/RegexQuantifier.kt:38 | A fresh greedy quantifier with text `?`. |
| Quantifiers.Exactly | src/main/kotlin/RegexQuantifier.kt:46-48 | A fresh plain quantifier with text `{n}`; it has no lazy form. |
| Quantifiers.AtLeast | src/main/kotlin/RegexQuantifier.kt:56-58 | A fresh greedy quantifier with text `{n,}`. |
| Quantifiers.NoMoreThan | src/main/kotlin/RegexQuantifier.kt:66-68 | A fresh greedy quantifier with text `{0,n}`. |
| Quantifiers.Between | src/main/kotlin/RegexQuantifier.kt:77-79 | A fresh greedy quantifier with text `{a,b}`. |
| Quantifiers.ShorthandMeanings | src/main/kotlin/RegexQuantifier.kt:24-38 | `*`, `+` and `?` mean zero-or-more, one-or-more and zero-or-one, and with the added `?` they mean the same repetitions lazily. |
| Quantifiers.ExactlyText | src/main/kotlin/RegexQuantifier.kt:47 | The text `{n}` reads as exactly n repetitions when n ≥ 0. A negative n gives a text that is not a quantifier. |
| Quantifiers.AtLeastText | src/main/kotlin/RegexQuantifier.kt:57 | The text `{n,}` reads as n or more repetitions when n ≥ 0, and is not a quantifier otherwise. |
| Quantifiers.NoMoreThanText | src/main/kotlin/RegexQuantifier.kt:67 | The text `{0,n}` reads as zero to n repetitions when n ≥ 0, and is not a quantifier otherwise. |
| Quantifiers.BetweenText | src/main/kotlin/RegexQuantifier.kt:78 | The text `{a,b}` reads as a to b repetitions exactly when 0 ≤ a ≤ b, and is not a quantifier otherwise. |
| Quantifiers.LazyMeaning | src/main/kotlin/RegexGreedyQuantifier.kt:16-18 | Appending the one `?` to any greedy quantifier text gives the same repetition, read lazily. |
| Quantifiers.RepeatedLazyUnreadable | src/main/kotlin/RegexQuantifier.kt:9-12 | Nothing stops a second `?`. A greedy text with two appended `?` no longer reads as a quantifier. |
| Builder.UnterminatedMessage | src/main/kotlin/RegexBuilder.kt:44-49 | The one-group sentence appears exactly for one open group. For n > 1 the message is a numeral followed by " groups have been started but not ended", and the numeral reads back as n. |
| Builder.UnterminatedMessageGivesCount | src/main/kotlin/RegexBuilder.kt:44-49 | The unterminated-group message determines the number of open groups: equal messages mean equal counts. |
| Builder.RegexBuilder.constructor | src/main/kotlin/RegexBuilder.kt:17-19 | A new builder has an empty buffer and no open group. |
| Builder.RegexBuilder.BuildRegex | src/main/kotlin/RegexBuilder.kt:29-50 | With no open group, the buffer is compiled. On success it is returned and then cleared; a rejected pattern leaves the buffer as it was. With 1 or n open groups, it fails with "A group has been started but not ended" or "n groups have been started but not ended". The failure carries a copy of the buffer and changes nothing. The counter never changes. |
| Builder.RegexBuilder.Text | src/main/kotlin/RegexBuilder.kt:67 | Adds the escaped text, wrapped and quantified as regexText does. Its escape reads back as the original text (MakeSafeForRegexReadsBack). |
| Builder.RegexBuilder.RegexText | src/main/kotlin/RegexBuilder.kt:85-92 | Without a quantifier, adds the text unchanged. With one, adds `(?:` text `)` followed by the quantifier, whatever the text's length. The group counter ends as it began. |
| Builder.RegexBuilder.AnyCharacter | src/main/kotlin/RegexBuilder.kt:100 | Adds `.` and the quantifier text. |
| Builder.RegexBuilder.Whitespace | src/main/kotlin/RegexBuilder.kt:108 | Adds `\s` and the quantifier text. |
| Builder.RegexBuilder.NonWhitespace | src/main/kotlin/RegexBuilder.kt:116 | Adds `\S` and the quantifier text. |
| Builder.RegexBuilder.Digit | src/main/kotlin/RegexBuilder.kt:124 | Adds `\d` and the quantifier text. |
| Builder.RegexBuilder.NonDigit | src/main/kotlin/RegexBuilder.kt:132 | Adds `\D` and the quantifier text. |
| Builder.RegexBuilder.Letter | src/main/kotlin/RegexBuilder.kt:140 | Adds `[a-zA-Z]` and the quantifier text. |
| Builder.RegexBuilder.NonLetter | src/main/kotlin/RegexBuilder.kt:148 | Adds `[^a-zA-Z]` and the quantifier text. |
| Builder.RegexBuilder.UppercaseLetter | src/main/kotlin/RegexBuilder.kt:156 | Adds `[A-Z]` and the quantifier text. |
| Builder.RegexBuilder.LowercaseLetter | src/main/kotlin/RegexBuilder.kt:164 | Adds `[a-z]` and the quantifier text. |
| Builder.RegexBuilder.LetterOrDigit | src/main/kotlin/RegexBuilder.kt:172 | Adds `[a-zA-Z0-9]` and the quantifier text. |
| Builder.RegexBuilder.NonLetterOrDigit | src/main/kotlin/RegexBuilder.kt:180 | Adds `[^a-zA-Z0-9]` and the quantifier text. |
| Builder.RegexBuilder.HexDigit | src/main/kotlin/RegexBuilder.kt:188 | Adds `[0-9A-Fa-f]` and the quantifier text. |
| Builder.RegexBuilder.UppercaseHexDigit | src/main/kotlin/RegexBuilder.kt:196 | Adds `[0-9A-F]` and the quantifier text. |
| Builder.RegexBuilder.LowercaseHexDigit | src/main/kotlin/RegexBuilder.kt:204 | Adds `[0-9a-f]` and the quantifier text. |
| Builder.RegexBuilder.NonHexDigit | src/main/kotlin/RegexBuilder.kt:212 | Adds `[^0-9A-Fa-f]` and the quantifier text. |
| Builder.RegexBuilder.WordCharacter | src/main/kotlin/RegexBuilder.kt:220 | Adds `\w` and the quantifier text. |
| Builder.RegexBuilder.NonWordCharacter | src/main/kotlin/RegexBuilder.kt:229 | Adds `\W` and the quantifier text. |
| Builder.RegexBuilder.AnyCharacterFrom | src/main/kotlin/RegexBuilder.kt:238-242 | Adds a class `[`…`]` of the characters, escaped for a class, and then the quantifier text. |
| Builder.RegexBuilder.AnyCharacterExcept | src/main/kotlin/RegexBuilder.kt:251-255 | Adds a negated class `[^`…`]` of the characters, escaped for a class, and then the quantifier text. |
| Builder.RegexBuilder.AnyOf | src/main/kotlin/RegexBuilder.kt:264-279 | No strings: nothing changes. One string: adds it escaped, not wrapped, then the quantifier. Several strings: adds `(?:`, the escaped strings joined by `\|` as regexText adds them with the quantifier, `)`, and the quantifier again. The counter ends as it began. |
| Builder.RegexBuilder.StartOfString | src/main/kotlin/RegexBuilder.kt:288 | Adds `^`, with no quantifier. |
| Builder.RegexBuilder.EndOfString | src/main/kotlin/RegexBuilder.kt:295 | Adds `$`, with no quantifier. |
| Builder.RegexBuilder.WordBoundary | src/main/kotlin/RegexBuilder.kt:303 | Adds `\b`, with no quantifier. |
| Builder.RegexBuilder.StartGroup | src/main/kotlin/RegexBuilder.kt:318-321 | Adds `(` and counts one more open group. |
| Builder.RegexBuilder.StartNonCapturingGroup | src/main/kotlin/RegexBuilder.kt:334-337 | Adds `(?:` and counts one more open group. |
| Builder.RegexBuilder.StartNamedGroup | src/main/kotlin/RegexBuilder.kt:352-355 | Adds `(?<name>` and counts one more open group. |
| Builder.RegexBuilder.EndGroup | src/main/kotlin/RegexBuilder.kt:366-376 | With no open group, fails with the "Cannot call endGroup()" message and a copy of the buffer, changing nothing. Otherwise adds `)` and the quantifier text, and counts one group fewer. |
| Builder.RegexBuilder.Append | src/main/kotlin/RegexBuilder.kt:380-384 | Adds the text, then the quantifier's current text; the counter is unchanged. |
| Builder.RegexBuilder.AddQuantifier | src/main/kotlin/RegexBuilder.kt:386-387 | Adds the quantifier's current text, or nothing when there is none. |
| Scenarios.ClassCaretExample | src/main/kotlin/RegexBuilder.kt:389-399 | Class escaping turns `^a` into `\^a`. |
| Scenarios.ClassRangeExample | src/main/kotlin/RegexBuilder.kt:389-399 | Class escaping leaves the range `a-f` as it is. |
| Scenarios.ClassBracketExample | src/main/kotlin/RegexBuilder.kt:389-399 | Class escaping turns `^]` into `\^\]`. |

## Left out

- Regex options: `RegexOptions` and their mapping to Kotlin's `RegexOption`
  set do not change the pattern text, so they are left out.
- Compiling the pattern: `Regex(...)` is the platform's regex compiler.
  `BuildRegex` takes its verdict as the parameter `compiles`, and a rejected
  pattern is the result `PatternSyntaxFailure`. The compiled `Regex` object is
  represented by its pattern text.
- Exceptions: thrown exceptions become results. `BuildRegex` returns a
  `BuildResult`, and `EndGroup` returns an `Outcome`.
- The fluent style: methods that return `this` for chaining are statements on
  the builder object.
- The Kotlin DSL layer (`regex { … }` and its extension functions), the
  logging builder, and the build scripts are not part of this model.
- Builder.RegexBuilder.StartGroup: the counter is an unbounded `nat`.
  Kotlin's 32-bit `openGroupCount` would wrap after 2^31 starts, which is not
  modelled.
- Quantifiers.RegexQuantifier.MakeNonGreedy: Kotlin's `protected` visibility
  is not modelled. Only `ButAsFewAsPossible` calls it.
- Quantifiers.RegexQuantifier.Greedy: the subclass `RegexGreedyQuantifier`
  is represented by the `greedyKind` flag of one class. The compile-time rule
  that only greedy quantifiers offer `butAsFewAsPossible` becomes a
  precondition.
- Builder.RegexBuilder.Text: the escape is stated through
  `MakeSafeForRegex`. Its meaning is proved about the function (its own
  contract and `MakeSafeForRegexReadsBack`), not repeated in the method's
  contract.
- Escaping.CharacterClassEscapesBrackets: the guarantee that no `]` can close
  the class early holds only for text without a backslash. The source does
  not escape `\`, so for text containing one the class can close early
  (`CharacterClassKeepsBackslash`). The model keeps the code's behaviour.
- Characters: a Dafny `string` is a sequence of Unicode scalar values, while a
  Kotlin `String` is a sequence of UTF-16 code units. A character outside the
  Basic Multilingual Plane is therefore one element here and two in Kotlin,
  and lone surrogates cannot be represented. This changes no result of the
  model: every character that escaping or the builder inspects or inserts is
  ASCII, never a surrogate, and the other characters are copied unchanged.
  Only lengths measured in characters differ.
