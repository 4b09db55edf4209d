# Action Reflect — a Dafny model

This project models the Victor Engine "Action Reflect" script for RPG Maker VX Ace
(`victor-engine/gameplay/ve-action-reflect.rb`). The script gives battlers an extra
chance to reflect specific skills or items, and skills or items of specific types.
The chance comes from note tags:

- `<skill reflect x: +y%>` and `<item reflect x: -y%>`;
- `<skill type reflect x: y>` and `<item type reflect x: +y%>`.

Tags can be written in any letter case. The sign and the `%` are optional.

The model covers five pieces:

- **Tag lookup** (`get_action_reflect`). `GameBattler.MatchTag`, with `GameBattler.MatchNumeral`,
  is an exact recogniser for `/<TYPE REFLECT id: ([+-]?\d+)%?>/i` at one position.
  `GameBattler.Scan` is the scanner built on it: it runs the recogniser over the notes left
  to right and keeps only non-overlapping matches. `GameBattler.GetActionReflect` is the `inject` fold over those
  matches.
- **Resolver.** `GameBattler.ItemReflect`, `GameBattler.ItemTypeReflect` and
  `GameBattler.ActionReflect` model `item_reflect`, `item_type_reflect` and
  `action_reflect`. The category is chosen by whether the action is a skill, and the
  type lookups are folded over the action's type ids.
- **`item_mrf`.** `GameBattler.Battler.ItemMrf` is a method on a `Battler` class with a
  `notes` field and an `actionReflected` field. It returns the base rate plus the extra
  chance. It sets the flag to whether the extra chance is strictly greater than the base.
- **`Victor_Engine.script_name`.** `VictorEngine.ScriptName` is a method. It splits the
  upcased name into an array of tokens and rewrites them in place as `collect!` does,
  then joins them. It is proved equal to the reference function
  `VictorEngine.ScriptTitle`.
- **Ruby 1.9 behaviour.** `Ascii` holds the ASCII-only character rules Ruby 1.9 applies:
  `upcase`, `capitalize`, `split`'s whitespace, `\d`, and `Integer#to_s` and `String#to_i`.

`ReflectProperties` describes well-formed notes as free text without `<`, mixed with
rendered tags. Over such notes it proves that the scan finds exactly the queried tags,
in order. It also proves, over any notes, that the lookup ignores letter case and that
each query can match only its own category and id. `ResolverProperties` and
`ScriptNameProperties` prove the properties of the resolver and of `script_name`.

Chances are modelled as exact `real` numbers: a tag's value is an integer percentage
over 100.

## The lookup is not a sum

The script's own instructions describe tags as rates to set up. A natural reading is
that two tags for the same action add up. The code does not do this. Line 154 folds the
matches with `inject(0.0) {|r| r += ($1.to_i / 100.0) }`:

- the block ignores the element it is given;
- it reads `$1`, which after `scan` holds the capture of the last match.

So k matching tags give k times the last tag's value, over 100. The model follows the
code:

- `ReflectProperties.LookupCountTimesLast` and `ReflectProperties.LookupNotes` state the
  rule.
- `ReflectProperties.TwentyAndFifteen` shows that `<SKILL REFLECT 5: +20%>` together with
  `<SKILL REFLECT 5: +15%>` gives 0.30, not 0.35.
- `ReflectProperties.LookupSumWhenEqual` shows that, for any number of tags, the lookup is
  the sum of the values over 100 when every value is equal.
- `ReflectProperties.TwoTags` shows that for two tags the lookup is their sum exactly when
  the two values are equal.
- With three or more tags, different values can still give their sum by coincidence:
  `ReflectProperties.TenThirtyTwenty` shows that 10, 30 and 20 give three times 20, which
  is 0.60, the same as (10 + 30 + 20) / 100.

The script's header also says that the action reflect chance is added to the magic
reflect chance (lines 49-50). The code does something else:

- line 123 binds the alias that `item_mrf` calls to `item_cnt`, the counter-attack rate;
- so the base `item_mrf` adds to is whatever that method returns.

The model follows the code: `base` is an input to `ItemMrf`, and nothing is assumed
about what it is.

## Model

| member | source | states |
|---|---|---|
| Ascii.IntTextRoundTrip | victor-engine/gameplay/ve-action-reflect.rb:153 | `IntText` (`#{id}`, `Integer#to_s`) writes a signed decimal, and `ToI` (`String#to_i`) reads it back as the id itself. |
| Ascii.IntTextInjective | victor-engine/gameplay/ve-action-reflect.rb:153 | Different ids are written as different texts, so the pattern for one id is not the pattern for another. |
| Ascii.ParseNatText | victor-engine/gameplay/ve-action-reflect.rb:154 | Reading back the decimal text of a natural number gives that number. |
| GameBattler.DigitsEnd | victor-engine/gameplay/ve-action-reflect.rb:153 | `\d+` takes the maximal run of digits: everything up to the end is a digit, and the next character, if any, is not. |
| GameBattler.MatchNumeral | victor-engine/gameplay/ve-action-reflect.rb:153 | A match of `([+-]?\d+)%?>` at `q` captures the signed decimal that starts at `q` in the text. The match then ends after `>`, with either nothing or a single `%` between the capture and the `>`. |
| GameBattler.MatchTag | victor-engine/gameplay/ve-action-reflect.rb:153 | A match of the whole tag pattern begins with its literal head, up to case. Right after the head it captures a signed decimal taken from the text, and then it ends with `>` or `%>`. |
| GameBattler.Scan | victor-engine/gameplay/ve-action-reflect.rb:154 | `scan` returns at most one capture per character of the notes, and every capture is a signed decimal (so `to_i` reads all of it). |
| GameBattler.Battler.ItemMrf | victor-engine/gameplay/ve-action-reflect.rb:124-129 | Returns the base plus the action's extra chance, and overwrites the flag with whether the extra chance strictly exceeds the base (a tie clears it). Only the flag changes. |
| ReflectProperties.NumeralValue | victor-engine/gameplay/ve-action-reflect.rb:153-154 | The part of a tag the pattern captures reads back through `to_i` as the tag's signed value. |
| ReflectProperties.DigitsEndAt | victor-engine/gameplay/ve-action-reflect.rb:153 | `\d+` stops exactly at the first non-digit at or after where it starts. |
| ReflectProperties.MatchNumeralRendered | victor-engine/gameplay/ve-action-reflect.rb:153 | After the head, the numeral, optional `%` and `>` of a tag are matched as a whole, with the numeral as the capture, whatever follows. |
| ReflectProperties.MatchRendered | victor-engine/gameplay/ve-action-reflect.rb:153 | A written tag is matched, as a whole, by the query for its own category and id, whatever follows it. |
| ReflectProperties.MatchCovers | victor-engine/gameplay/ve-action-reflect.rb:153 | What a match covers is, up to case, the head, the capture, an optional `%` and `>`, and nothing else. |
| ReflectProperties.MatchIsRendered | victor-engine/gameplay/ve-action-reflect.rb:153 | Every match of the query for a category and id reads, up to case, a well-formed tag of that category and id whose numeral is the capture. This is the converse of `MatchRendered`. |
| ReflectProperties.CategoryHeadsDiffer | victor-engine/gameplay/ve-action-reflect.rb:139-153 | The patterns of different categories (`SKILL`, `ITEM`, `SKILL TYPE`, `ITEM TYPE`) disagree, up to case, at some position both have. |
| ReflectProperties.ColonDelimited | victor-engine/gameplay/ve-action-reflect.rb:153 | Two letter-free, colon-free id texts that agree up to case once `: ` follows each are the same text. |
| ReflectProperties.IdHeadsDiffer | victor-engine/gameplay/ve-action-reflect.rb:153 | Patterns of one category that agree up to case are for the same id, so the `:` after the id keeps 5 apart from 15 or 50. |
| ReflectProperties.MatchExclusive | victor-engine/gameplay/ve-action-reflect.rb:153 | At any position of any notes at most one (category, id) query matches. |
| ReflectProperties.RenderedOpensOnce | victor-engine/gameplay/ve-action-reflect.rb:153 | A written tag holds no `<` after its first character, so no match can begin inside it. |
| ReflectProperties.ScanSkipsText | victor-engine/gameplay/ve-action-reflect.rb:154 | Text without `<` ahead of the notes adds no capture and does not change the scan of the rest. |
| ReflectProperties.ScanRenderedTag | victor-engine/gameplay/ve-action-reflect.rb:154 | A tag for the queried category and id at the front yields its numeral, and the scan then resumes right after the tag. |
| ReflectProperties.ScanRenderedOtherTag | victor-engine/gameplay/ve-action-reflect.rb:154 | A tag of another category or id at the front yields nothing, and the rest is scanned as if it were absent. |
| ReflectProperties.ScanPiece | victor-engine/gameplay/ve-action-reflect.rb:154 | A piece of well-formed notes (text or tag) at the front is scanned on its own. |
| ReflectProperties.ScanNotes | victor-engine/gameplay/ve-action-reflect.rb:154 | Over well-formed notes the scan captures the numerals of exactly the tags of the queried category and id, in order. |
| ReflectProperties.ScanEmptyIff | victor-engine/gameplay/ve-action-reflect.rb:154 | The scan finds nothing exactly when the pattern matches at no position of the notes (both directions). |
| ReflectProperties.NonLetterAt | victor-engine/gameplay/ve-action-reflect.rb:153 | Strings equal up to case hold a given non-letter (`+`, `-`, `%`, `>`) at the same positions. |
| ReflectProperties.MatchNumeralFolded | victor-engine/gameplay/ve-action-reflect.rb:153 | `([+-]?\d+)%?>` holds no letter, so it matches the same way, with the same capture, in strings equal up to case. |
| ReflectProperties.MatchFolded | victor-engine/gameplay/ve-action-reflect.rb:153 | Under the `/i` flag the tag pattern matches strings equal up to case in the same way. |
| ReflectProperties.ScanFolded | victor-engine/gameplay/ve-action-reflect.rb:153-154 | The scan of notes equal up to case gives the same captures. |
| ReflectProperties.TimesIsProduct | victor-engine/gameplay/ve-action-reflect.rb:154 | Adding the same amount n times is n times that amount. |
| ReflectProperties.InjectCountsLast | victor-engine/gameplay/ve-action-reflect.rb:154 | `InjectLastCapture`, the `inject` whose block reads `$1`, adds the same value once per element: the accumulator plus the count times `$1` over 100. |
| ReflectProperties.InjectOfCaptures | victor-engine/gameplay/ve-action-reflect.rb:154 | For any captures, the fold that reads `$1` gives their count times the last capture's value over 100. |
| ReflectProperties.LookupCountTimesLast | victor-engine/gameplay/ve-action-reflect.rb:152-155 | `GetActionReflect` (`get_action_reflect`) over any notes is the number of matches times the last capture's value over 100, so it is zero without a match. `TwentyAndFifteen` shows that this differs from the sum of the values. |
| ReflectProperties.LookupWithoutMatch | victor-engine/gameplay/ve-action-reflect.rb:152-155 | Notes in which the pattern matches nowhere contribute 0. |
| ReflectProperties.LookupFolded | victor-engine/gameplay/ve-action-reflect.rb:153-154 | The lookup ignores ASCII letter case. |
| ReflectProperties.LastOfNumerals | victor-engine/gameplay/ve-action-reflect.rb:154 | When the captures are the numerals of a list of tags, they are as many as the tags, and `LastCaptureValue` (`$1.to_i`) is the last tag's value. |
| ReflectProperties.InjectOfNumerals | victor-engine/gameplay/ve-action-reflect.rb:154 | Folding captures that are the numerals of a list of tags, reading `$1` as the last, gives the count times the last tag's value over 100. |
| ReflectProperties.LookupOfNumerals | victor-engine/gameplay/ve-action-reflect.rb:152-155 | When the captures are the numerals of a list of tags, the lookup is their count times the last tag's value over 100. |
| ReflectProperties.LookupNotes | victor-engine/gameplay/ve-action-reflect.rb:152-155 | Over well-formed notes the lookup is the number of matching tags times the last matching tag's value over 100, and 0 when no tag matches. |
| ReflectProperties.MatchingWellFormed | victor-engine/gameplay/ve-action-reflect.rb:153 | The tags that match a query are well formed and are all of the queried category and id. |
| ReflectProperties.LookupIsolated | victor-engine/gameplay/ve-action-reflect.rb:139-153 | Tags of another category, or of another id, never count toward a query. |
| ReflectProperties.NoneMatching | victor-engine/gameplay/ve-action-reflect.rb:153 | Notes holding no tag of the queried category and id have no matching tags. |
| ReflectProperties.LookupSingleTag | victor-engine/gameplay/ve-action-reflect.rb:152-155 | One matching tag among free text contributes its own signed value over 100, with nothing clamped. |
| ReflectProperties.ScanSingleTag | victor-engine/gameplay/ve-action-reflect.rb:154 | Text without `<` on both sides of one tag leaves the tag's numeral as the only capture of its query. |
| ReflectProperties.SumOfEqual | victor-engine/gameplay/ve-action-reflect.rb:154 | The sum of equal values over 100 is their count times the value over 100. |
| ReflectProperties.CountTimesLastOfEqual | victor-engine/gameplay/ve-action-reflect.rb:154 | When every matched tag states the same value, count times last value equals the sum of the values. |
| ReflectProperties.LookupSumWhenEqual | victor-engine/gameplay/ve-action-reflect.rb:152-155 | When all matching tags state the same value, the lookup is the sum of their values over 100. |
| ReflectProperties.MatchingValues | victor-engine/gameplay/ve-action-reflect.rb:153 | When every tag of the queried category and id states value v, so does every matched tag. |
| ReflectProperties.TwoTags | victor-engine/gameplay/ve-action-reflect.rb:152-155 | Two tags for the same action give twice the second value, which is their sum exactly when the two values are equal. |
| ReflectProperties.CountTimesLastPair | victor-engine/gameplay/ve-action-reflect.rb:154 | The reference value `CountTimesLast([t1, t2])` is twice the second tag's value over 100. `TwoTags` states the same for the lookup itself. |
| ReflectProperties.TwentyAndFifteen | victor-engine/gameplay/ve-action-reflect.rb:154 | `<SKILL REFLECT 5: +20%><SKILL REFLECT 5: +15%>` gives 0.30 for skill 5, not 0.35. |
| ReflectProperties.ThreeTags | victor-engine/gameplay/ve-action-reflect.rb:152-155 | Three tags for the same action give three times the last value over 100, whatever the first two values are. |
| ReflectProperties.TenThirtyTwenty | victor-engine/gameplay/ve-action-reflect.rb:154 | `+10%`, `+30%` and `+20%` for skill 5 give 0.60. That equals (10 + 30 + 20) / 100 although the values differ, so with three tags equal values are not needed for the sum. |
| ReflectProperties.LookupTagAlone | victor-engine/gameplay/ve-action-reflect.rb:152-155 | A tag on its own gives its signed value over 100. |
| ReflectProperties.LowerCaseTag | victor-engine/gameplay/ve-action-reflect.rb:153-154 | `<skill reflect 5: -30%>` gives -0.30 for skill 5: lower case and a negative value both count. |
| ResolverProperties.ItemReflectNotes | victor-engine/gameplay/ve-action-reflect.rb:139-141 | `ItemReflect` (`item_reflect`) uses `SKILL` for a skill and `ITEM` otherwise. Over well-formed notes it is the number of tags for that category and the action's id times the last one's value, over 100. |
| ResolverProperties.ItemTypeReflectSum | victor-engine/gameplay/ve-action-reflect.rb:145-148 | `ItemTypeReflect` (`item_type_reflect`) is the sum of the `SKILL TYPE` (for a skill) or `ITEM TYPE` lookups over the action's type ids, each id as often as it is listed. |
| ResolverProperties.InjectTypesIsSum | victor-engine/gameplay/ve-action-reflect.rb:147 | `InjectTypes`, the left fold over the type ids, is the accumulator plus the sum of the lookups for those ids. |
| ResolverProperties.TypeSumRepeated | victor-engine/gameplay/ve-action-reflect.rb:147 | A type id listed twice is counted twice. |
| ResolverProperties.TypeSumZero | victor-engine/gameplay/ve-action-reflect.rb:147 | Type ids whose lookups are all zero add nothing, and an empty type set adds 0. |
| ResolverProperties.ActionReflectSplit | victor-engine/gameplay/ve-action-reflect.rb:133-135 | `ActionReflect` (`action_reflect`) is the `SKILL`/`ITEM` lookup for the action's id plus the sum of the `SKILL TYPE`/`ITEM TYPE` lookups for its type ids. The categories are chosen by whether the action is a skill. |
| ResolverProperties.ActionWithoutOwnTags | victor-engine/gameplay/ve-action-reflect.rb:133-148 | Notes with no tag for the action's own category and id, nor for any of its type ids, give the action 0. |
| ResolverProperties.SkillIgnoresItemTags | victor-engine/gameplay/ve-action-reflect.rb:139-147 | A skill gains nothing from `ITEM` and `ITEM TYPE` tags. |
| ResolverProperties.ExampleLookups | victor-engine/gameplay/ve-action-reflect.rb:152-155 | In notes holding a tag for skill 10, flavour text and a tag for skill type 1, the two lookups give 0.25 and 0.05. |
| ResolverProperties.ExampleAction | victor-engine/gameplay/ve-action-reflect.rb:133-148 | Skill 10 of skill type 1 gets 0.25 + 0.05 = 0.30 from those notes. |
| VictorEngine.WordEnd | victor-engine/gameplay/ve-action-reflect.rb:84 | A word runs to the first whitespace or to the end of the string. |
| VictorEngine.Words | victor-engine/gameplay/ve-action-reflect.rb:84 | `split` yields only non-empty tokens free of whitespace. |
| VictorEngine.ScriptName | victor-engine/gameplay/ve-action-reflect.rb:83-87 | Rewriting the token array in place and joining it gives the reference title `ScriptTitle(name, ext)`, which is `Join` of `Titles` of `Tokens`. |
| ScriptNameProperties.WordsOfWordThen | victor-engine/gameplay/ve-action-reflect.rb:84 | A word followed by the end or by whitespace is split off whole. |
| ScriptNameProperties.WordEndAt | victor-engine/gameplay/ve-action-reflect.rb:84 | A word ends exactly at the first whitespace. |
| ScriptNameProperties.WordsJoin | victor-engine/gameplay/ve-action-reflect.rb:84-86 | `Words` (`split`) after `Join` (`join(" ")`) gives back the words, for any list of non-empty, whitespace-free words. |
| ScriptNameProperties.TokensOfJoin | victor-engine/gameplay/ve-action-reflect.rb:84 | `Tokens` (the upcased, split name) of a name whose upcased, space-separated form is a single-spaced join of words are exactly those words. |
| ScriptNameProperties.NonSpaceAppend | victor-engine/gameplay/ve-action-reflect.rb:84 | Dropping whitespace from joined strings gives the joined results. |
| ScriptNameProperties.NonSpaceOfWord | victor-engine/gameplay/ve-action-reflect.rb:84 | Dropping whitespace from a word leaves it unchanged. |
| ScriptNameProperties.WordsDropOnlySpace | victor-engine/gameplay/ve-action-reflect.rb:84 | `split` drops exactly the whitespace: its tokens, run together, are the other characters in order. |
| ScriptNameProperties.WordsKeep | victor-engine/gameplay/ve-action-reflect.rb:84 | Any property of every character of the string holds of every character of every token. |
| ScriptNameProperties.CapitalizeShape | victor-engine/gameplay/ve-action-reflect.rb:85 | `Capitalize` (`capitalize`) upcases the first character and downcases the rest. |
| ScriptNameProperties.CapitalizeIgnoresCase | victor-engine/gameplay/ve-action-reflect.rb:84-85 | Capitalising the upcased token gives what capitalising the original gives, so `upcase` matters only for the comparison with `ext`. |
| ScriptNameProperties.TitleChangesOnlyCase | victor-engine/gameplay/ve-action-reflect.rb:85 | The `collect!` block (`Title`) changes only letter case, except that the token equal to `ext` gets ` -` after it. |
| ScriptNameProperties.TitlesChangeOnlyCase | victor-engine/gameplay/ve-action-reflect.rb:85 | Every entry of the rewritten array (`Titles`) is its token with only letter case changed, with ` -` after the token equal to `ext`. |
| ScriptNameProperties.LowerExtNeverMatches | victor-engine/gameplay/ve-action-reflect.rb:84-85 | The tokens are upcased, so an `ext` holding a lower-case letter matches no token and every token is capitalised. |
| ScriptNameProperties.JoinNoUnderscore | victor-engine/gameplay/ve-action-reflect.rb:86 | Joining tokens with spaces adds no underscore. |
| ScriptNameProperties.TitleNoUnderscore | victor-engine/gameplay/ve-action-reflect.rb:83-87 | No underscore of the name survives into the title: `gsub("_", " ")` removes them all, and `split`, `capitalize` and `join` add none. |
| ScriptNameProperties.ActionReflectTitle | victor-engine/gameplay/ve-action-reflect.rb:83-87 | `script_name(:ve_action_reflect)` is `VE - Action Reflect`. |

## Left out

- `Victor_Engine.required` (lines 68-78) is left out. It reads the global `$imported`, shows a message box, exits the program, and calls `required_script`. `required_script` lives in the Basic Module, which is not part of this model.
- The `$imported` registration (lines 90-92) is left out. It is global host state.
- `Window_BattleLog#display_reflection` (lines 169-178) is left out. It is user-interface work: sound, log text, `wait` and `back_one`. It only branches on `action_reflected`, the flag `ItemMrf` sets, to choose between its own message and the host's.
- The host methods `get_all_notes`, `item.skill?`, `item.id` and `item.type_set`, and the aliased `item_cnt`, are not part of this model. They become inputs: the battler's `notes` field, the `isSkill`, `id` and `typeSet` parameters, and `base`.
- `ItemMrf`'s `user` argument is dropped. The script only passes it on to the aliased method, whose result is `base`.
- Floating-point rounding is not modelled. `/ 100.0` and `inject(0.0)` are exact `real` arithmetic.
- The `/i` flag folds ASCII letters only. Ruby's regular expressions also fold Unicode letters in UTF-8 notes: the Kelvin sign U+212A matches `k`, and the long s U+017F matches `s`. Such notes match in Ruby but not in the model. `upcase`, `capitalize`, `\d` and `split`'s whitespace are ASCII only in Ruby 1.9, as modelled.
- `script_name` takes its name as a string. The `to_s` of a symbol is not modelled.
- `ScriptName` takes `ext` as a required argument. The default `ext = "VE"` of line 83 is not modelled: a caller passes `"VE"`, as `ActionReflectTitle` does.
- The statements about well-formed notes cover notes built from `<`-free text and tags as the script documents them. Arbitrary notes are covered only by the facts that hold for any string: letter case, the count times last rule, no match meaning 0, and exclusive queries.
