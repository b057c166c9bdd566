# QW-intros answer matching and scoring, in Dafny

QW-intros is a music-intro quiz. A player hears the opening of a track and
types the title and the artist. `src/utils/stringMatch.ts` decides whether
a typed answer is close enough to the real name. `src/utils/scoring.ts`
turns the two verdicts and the elapsed seconds into points.

This project models those two files and proves what they promise:

- `edit_distance.dfy` (module `EditDistance`) covers `levenshteinDistance`.
  `Distance` is a recursive definition over prefixes. `LevenshteinDistance`
  is the dynamic-programming method. It allocates the `(|b|+1) x (|a|+1)`
  table as an `array2<int>`, initialises row 0 and column 0 in loops, and
  fills the rest row by row. It is proved to return `Distance`. Lemmas give
  the distance's base cases, bounds, symmetry, and the fact that it is 0
  exactly for equal strings.
- `title_cleaning.dfy` (module `TitleCleaning`) covers `cleanTitle`. It is
  written as one function per step of the `replace`/`trim` chain:
  - `ToLower`;
  - `StripBrackets`, the lazy, global, single-pass `/\(.*?\)|\[.*?\]|{.*?}/g`;
  - `RemoveSpecial`, which is `[^\w\s]`;
  - `CollapseWhitespace`, which is `\s+` → `' '`;
  - `Trim`.

  Lemmas prove three things:
  - the shape of every result: lower-case ASCII letters, digits, `_` and single spaces, with no space at either end;
  - idempotence;
  - how bracketed annotations are removed.
- `string_match.dfy` (module `StringMatch`) covers `calculateSimilarity` and
  `areSimilar`. A JavaScript number is modelled as `NaN` or an exact real.
  Lemmas prove the following:
  - the range of the similarity;
  - when it equals 1;
  - its symmetry;
  - the integer form of the 0.8 threshold;
  - case insensitivity;
  - the behaviour for answers that clean to nothing.
- `scoring.dfy` (module `Scoring`) covers `calculateScore`. The method
  keeps the source's mutable accumulator. It is proved equal to
  `DocumentedPoints`, the scoring table shown in the game's "How to play"
  screen. Lemmas prove the range, the time bands, the artist bonus,
  monotonicity in time, and that time does not matter when the title is wrong.
- `game_round.dfy` (module `GameRound`) covers how the game controller
  combines the two matches with the score when an answer is submitted. As
  written, the submit handler throws before it scores anything (see
  "## Findings"). `SubmitAsWritten` models that. `SubmitAnswer` and
  `RoundPoints` model the composition the handler evidently intends, and
  the lemmas about them describe that intended behaviour.

## Behaviour that follows the code

When both strings clean to the empty string, `maxLength` is 0. The source
then computes `1 - 0/0`, which is `NaN`, and `NaN >= 0.8` is false. The model
keeps exactly this: `CalculateSimilarity` yields `NaN` and `AreSimilar` is
false (`StringMatch.SimilarityRange`, `StringMatch.EmptyCleanNeverSimilar`).
A natural alternative would treat two empty strings as identical, with
similarity 1.0. The code does not do this, and the model follows the code. One consequence is
worth knowing. A track whose name cleans to nothing, such as a title
written wholly in a non-Latin script, can never be guessed
(`GameRound.UnmatchableTitle`).

The in-game table gives 1 point for a title guessed "within 30 seconds".
`calculateScore` gives that point for any time over 10 seconds, with no
upper limit. `TitlePoints` and `DocumentedPoints` follow the code.

## Model

| member | source | states |
|---|---|---|
| `EditDistance.Min3` | src/utils/stringMatch.ts:11-15 | the result is no larger than any of the three candidates and is one of them, as `Math.min` |
| `EditDistance.LevenshteinDistance` | src/utils/stringMatch.ts:2-20 | the value read from the filled table at `[|b|][|a|]` equals the recursive Levenshtein distance `Distance(a, b)` |
| `EditDistance.FillRow` | src/utils/stringMatch.ts:9-16 | after one pass of the inner loop, every cell `i` of row `j` holds the distance of `a[..i]` and `b[..j]`, and every other row is unchanged |
| `EditDistance.DistanceOfPrefixes` | src/utils/stringMatch.ts:10-15 | the distance of two prefixes obeys the cell recurrence: the minimum of left + 1, up + 1 and diagonal + indicator, with the first column equal to `j` |
| `EditDistance.DistanceToSelf` | src/utils/stringMatch.ts:8-19 | every string is at distance 0 from itself |
| `EditDistance.DistanceZeroIff` | src/utils/stringMatch.ts:8-19 | the distance is 0 if and only if the strings are equal |
| `EditDistance.DistanceSymmetric` | src/utils/stringMatch.ts:2-20 | swapping the arguments does not change the distance |
| `EditDistance.DistanceBounds` | src/utils/stringMatch.ts:5-6 | the distance is at least the difference of the lengths and at most the larger length; it is `|b|` from the empty string and `|a|` to it (the first row and column) |
| `TitleCleaning.LowerChar` | src/utils/stringMatch.ts:25 | the lower case of one character holds no ASCII capital letter |
| `TitleCleaning.ToLower` | src/utils/stringMatch.ts:25 | the lower-cased string holds no ASCII capital letter |
| `TitleCleaning.ToLowerKeepsLower` | src/utils/stringMatch.ts:25 | lower-casing leaves a string without capitals unchanged |
| `TitleCleaning.FindCloser` | src/utils/stringMatch.ts:26 | the lazy `.*?` stops at the first matching closer and crosses no line terminator; when it finds none, every closer lies beyond a line terminator |
| `TitleCleaning.StripBrackets` | src/utils/stringMatch.ts:26 | bracket removal never lengthens the string |
| `TitleCleaning.StripBracketsChars` | src/utils/stringMatch.ts:26 | bracket removal only deletes characters: the result's multiset is contained in the input's |
| `TitleCleaning.StripBracketsPrefix` | src/utils/stringMatch.ts:26 | text before the first opener passes through bracket removal unchanged |
| `TitleCleaning.StripBracketsNoOpener` | src/utils/stringMatch.ts:26 | a string without `(`, `[` or `{` is unchanged by bracket removal |
| `TitleCleaning.StripBracketsGroup` | src/utils/stringMatch.ts:26 | non-greedy and single-pass: an opener is deleted with its first matching closer and everything between, and the scan resumes after that closer |
| `TitleCleaning.StripBracketsUnmatched` | src/utils/stringMatch.ts:26-27 | an opener without a reachable matching closer survives bracket removal |
| `TitleCleaning.RemoveSpecial` | src/utils/stringMatch.ts:27 | every character left is a `\w` or a `\s` character |
| `TitleCleaning.RemoveSpecialChars` | src/utils/stringMatch.ts:27 | every occurrence of a word or white-space character is kept and every other character is deleted, brackets that survived step 2 included |
| `TitleCleaning.RemoveSpecialAppend` | src/utils/stringMatch.ts:27 | the character filter distributes over concatenation: `RemoveSpecial(x + y) == RemoveSpecial(x) + RemoveSpecial(y)` |
| `TitleCleaning.RemoveSpecialKeeps` | src/utils/stringMatch.ts:27 | a string of word and white-space characters is unchanged |
| `TitleCleaning.SkipWhitespace` | src/utils/stringMatch.ts:28 | the result is the suffix of the input after its leading white space, and does not start with white space |
| `TitleCleaning.CollapseWhitespace` | src/utils/stringMatch.ts:28 | the only white space left is single spaces, never two in a row, and a leading run becomes one space |
| `TitleCleaning.CollapseWhitespaceChars` | src/utils/stringMatch.ts:28 | every occurrence of every non-white-space character is kept |
| `TitleCleaning.CollapseRun` | src/utils/stringMatch.ts:28 | a non-empty white-space run between a part that does not end in white space and a part that does not start with it becomes exactly one space, and the two parts are collapsed on their own |
| `TitleCleaning.CollapseAppendSpace` | src/utils/stringMatch.ts:28 | one more space at the end either joins a final white-space run or becomes one space of its own |
| `TitleCleaning.CollapseKeepsSingleSpaces` | src/utils/stringMatch.ts:28 | a string whose only white space is single spaces is unchanged |
| `TitleCleaning.TrimStart` | src/utils/stringMatch.ts:29 | the first half of `trim`: the result is a suffix of the input; what was cut is white space, and the result does not start with white space |
| `TitleCleaning.TrimEnd` | src/utils/stringMatch.ts:29 | the result is a prefix of the input; what was cut is white space, and the result does not end with white space |
| `TitleCleaning.Trim` | src/utils/stringMatch.ts:29 | the result is a slice of the input with only white space outside it, and it neither starts nor ends with white space |
| `TitleCleaning.TrimAppendSpace` | src/utils/stringMatch.ts:29 | a space added at the end makes no difference to `trim` |
| `TitleCleaning.TrimKeeps` | src/utils/stringMatch.ts:29 | a string that neither starts nor ends with white space is unchanged by `trim` |
| `TitleCleaning.CleanTitle` | src/utils/stringMatch.ts:23-30 | the result neither starts nor ends with a space |
| `TitleCleaning.CleanTitleShape` | src/utils/stringMatch.ts:23-30 | every result of `cleanTitle` holds only lower-case ASCII letters, digits, `_` and spaces, with no space at either end and no two spaces in a row |
| `TitleCleaning.CleanIsFixpoint` | src/utils/stringMatch.ts:23-30 | every string of that clean shape is left unchanged by `cleanTitle` |
| `TitleCleaning.CleanTitleIdempotent` | src/utils/stringMatch.ts:23-30 | cleaning twice gives the same string as cleaning once |
| `TitleCleaning.CleanOfLowered` | src/utils/stringMatch.ts:24-29 | a title whose lower case is already clean cleans to its lower case |
| `TitleCleaning.TrailingSpaceIgnored` | src/utils/stringMatch.ts:27-29 | steps 3 to 5 give the same result with or without one more space at the end |
| `TitleCleaning.AnnotationDropped` | src/utils/stringMatch.ts:24-29 | a trailing ` (y)`, ` [y]` or ` {y}` annotation is deleted: `x` plus the annotation cleans to what `x` cleans to, whenever the lower case of `x` holds no opener and `y` holds neither the matching closer nor a line terminator |
| `TitleCleaning.LiveAnnotationExample` | src/utils/stringMatch.ts:24-29 | `Song (Live)` and `Song` both clean to `song` |
| `StringMatch.AtLeast` | src/utils/stringMatch.ts:43 | a `NaN` value never reaches a bound, as with JavaScript's `>=` |
| `StringMatch.OneMinusRatio` | src/utils/stringMatch.ts:38 | `1 - distance / maxLength` is `NaN` exactly when `maxLength` is 0, and otherwise at most 1 |
| `StringMatch.CalculateSimilarity` | src/utils/stringMatch.ts:33-39 | the similarity is `NaN` exactly when both arguments clean to the empty string |
| `StringMatch.AreSimilar` | src/utils/stringMatch.ts:42-44 | two strings that both clean to the empty string are never similar |
| `StringMatch.SimilarityRange` | src/utils/stringMatch.ts:33-39 | the similarity is `NaN` exactly when both arguments clean to the empty string, and otherwise lies in [0, 1] |
| `StringMatch.SimilarityOneIffSameClean` | src/utils/stringMatch.ts:33-39 | the similarity is 1 if and only if both arguments clean to the same non-empty string |
| `StringMatch.RatioOneIffEqual` | src/utils/stringMatch.ts:36-38 | `1 - distance / maxLength` on two cleaned strings is 1 if and only if they are equal and not empty |
| `StringMatch.SimilaritySymmetric` | src/utils/stringMatch.ts:33-39 | swapping the arguments does not change the similarity |
| `StringMatch.AreSimilarSymmetric` | src/utils/stringMatch.ts:42-44 | swapping the arguments does not change the verdict |
| `StringMatch.AreSimilarIff` | src/utils/stringMatch.ts:36-43 | the verdict holds if and only if the longer cleaned length is positive and five times the distance is at most that length |
| `StringMatch.RatioAtLeastThreshold` | src/utils/stringMatch.ts:38-43 | for a positive length, `1 - d/m >= 0.8` holds exactly when `5 * d <= m` |
| `StringMatch.RatioInUnitInterval` | src/utils/stringMatch.ts:38 | for `0 <= d <= m` and `m > 0`, `1 - d/m` lies in [0, 1] |
| `StringMatch.RatioIsOne` | src/utils/stringMatch.ts:38 | for `m > 0`, `1 - d/m` is 1 exactly when `d` is 0 |
| `StringMatch.EmptyCleanNeverSimilar` | src/utils/stringMatch.ts:36-43 | an answer that cleans to the empty string is not similar to anything, in either argument position |
| `StringMatch.CaseInsensitive` | src/utils/stringMatch.ts:33-44 | an answer that differs from the reference only in letter case has similarity 1 and is accepted, unless the reference cleans to nothing |
| `StringMatch.LiveAnnotationMatchExample` | src/utils/stringMatch.ts:33-44 | `song` has similarity 1 with `Song (Live)` and is accepted |
| `Scoring.TitlePoints` | src/utils/scoring.ts:4-11 | a right title earns 1 to 3 points, and 3 exactly within 3 seconds |
| `Scoring.DocumentedPoints` | src/components/HowToPlay.tsx:70-85 | the table's award is at most 4, and at least 1 exactly when the title or the artist is right |
| `Scoring.CalculateScore` | src/utils/scoring.ts:1-19 | the accumulated score equals the documented table, `DocumentedPoints`, and lies in 0..4 |
| `Scoring.PointsRange` | src/utils/scoring.ts:1-19 | every award lies in 0..4, and 4 is earned exactly for both answers right within 3 seconds |
| `Scoring.NothingCorrectScoresZero` | src/utils/scoring.ts:2-18 | with neither answer right the award is 0 at every time |
| `Scoring.TitleOnlyBands` | src/utils/scoring.ts:4-11 | a right title alone earns 3 up to 3 seconds, 2 up to 10 seconds and 1 after that; both band ends are inclusive |
| `Scoring.ArtistBonus` | src/utils/scoring.ts:13-16 | a right artist adds exactly one point, whatever the title and the time |
| `Scoring.NonIncreasingInTime` | src/utils/scoring.ts:9-10 | answering later never earns more |
| `Scoring.TitleWrongIgnoresTime` | src/utils/scoring.ts:4-11 | with a wrong title the time has no effect, and the award is the artist point alone |
| `GameRound.IsCorrectTitle` | src/components/GameRoom.tsx:194-197 | the title verdict holds only with a current track, and never when both the answer and the track name clean to the empty string |
| `GameRound.IsCorrectArtist` | src/components/GameRoom.tsx:199-202 | the artist verdict holds only with a current track, and never when both the artist answer and the first artist's name clean to the empty string |
| `GameRound.RoundPoints` | src/components/GameRoom.tsx:180-191 | the points the handler is meant to add: at most 4, and at least 1 exactly when the title or the artist verdict holds |
| `GameRound.SubmitAnswer` | src/components/GameRoom.tsx:180-191 | the intended submission reveals the round and raises the score by 0 to 4 points, and raises it exactly when one of the two verdicts holds |
| `GameRound.AsWrittenNeverScores` | src/components/GameRoom.tsx:184 | as written, no submission reveals a round or changes the score |
| `GameRound.AsWrittenLosesPoints` | src/components/GameRoom.tsx:180-191 | typing the exact track name earns at least one point in the intended handler, while the handler as written throws |
| `GameRound.NoTrackScoresZero` | src/components/GameRoom.tsx:194-202 | without a current track both matches fail and the round earns nothing |
| `GameRound.BlankAnswersScoreZero` | src/components/GameRoom.tsx:180-202 | answers that clean to the empty string earn no points |
| `GameRound.UnmatchableTitle` | src/components/GameRoom.tsx:180-197 | when the track name cleans to the empty string, the round earns at most the artist point |
| `GameRound.RightTitleEarnsBand` | src/components/GameRoom.tsx:180-197 | in the intended composition, typing the track name in any letter case earns at least the title points of the time band |

## Findings

| source | as written | input that shows it | evidently intended | confidence | as-written member | corrected member |
|---|---|---|---|---|---|---|
| src/components/GameRoom.tsx:184 | `const isCorrectArtist = isCorrectArtist();` inside `handleAnswerSubmit`: the new constant shadows the helper of the same name, and reading it in its own initialiser throws a ReferenceError (temporal dead zone), so the handler never reaches `calculateScore` or the score update | any submission, for example typing the exact track name and pressing Enter (or letting the 30-second timer at line 94 submit) | the artist verdict of the `isCorrectArtist` helper under another name, then `calculateScore` and the score update | high; not executed | `GameRound.SubmitAsWritten` | `GameRound.SubmitAnswer` |

## Left out

- `toLowerCase` is modelled for ASCII capitals and for the two non-ASCII capitals whose lower case is ASCII (KELVIN SIGN → `k`, and DOTTED CAPITAL I → `i` and a combining dot). Every other character is kept as it is. Its real lower case is never a word character, white space or a bracket, so steps 2 to 5 treat it the same way.
- `\s` and `trim` use the exact JavaScript white-space and line-terminator set. `.` excludes the four line terminators. The model does not include Unicode normalisation or locale-dependent case mapping.
- The threshold comparison is exact rational arithmetic. IEEE-754 rounding of `distance / maxLength` near 0.8 is not modelled. Whether `1 - d/m` rounds just below 0.8 when `5 * d == m` is outside the model.
- Elapsed time is a `real` input. The controller's `setInterval` clock, which adds `0.01` floats, is not modelled, and neither is a `NaN` time.
- EditDistance.LevenshteinDistance: counts the elements of a `seq<char>`, where JavaScript's `length` and indexing count UTF-16 code units. A character outside the Basic Multilingual Plane (an emoji, say) is one element here but two code units there, so the distance of raw strings containing such characters can differ. `calculateSimilarity` only compares cleaned strings, which are ASCII, so the similarity and the verdict are not affected.
- `LevenshteinDistance` keeps the source's nested loops over one table. The inner loop is written as the separate method `FillRow`, with the same order of cell updates.
- `GameRound.Track` keeps only the track name and the name of the first artist. A track with an empty artist list makes the source throw when it reads `artists[0].name`, and that case is not modelled. The submission is modelled by its effect on the running score only: the playback flags it clears first, the rest of the React state, timers, routing and UI in `src/components/GameRoom.tsx` are left out.
- The "+N points" text of the reveal screen (`src/components/RevealScreen.tsx:103`) uses a different, older formula. It is not modelled. Only `src/utils/scoring.ts` is.
- Concrete examples longer than a word are not stated as lemmas. Evaluating `CleanTitle` on literal strings is expensive for the verifier. This covers `kitten`/`sitting` at distance 3, `Bohemian Rhapsody` against its lower case, `Yesterday`/`Tomorrow`, and `the final countdown ` against `The Final Countdown`. The general lemmas that bear on these cases are `StringMatch.CaseInsensitive`, `StringMatch.AreSimilarIff`, `TitleCleaning.AnnotationDropped` and `TitleCleaning.TrimKeeps`.
- Network access, authentication, playback widgets, speech input and static data are left out. These are `src/utils/spotify.ts`, the player components, `useSpeechRecognition.ts` and `src/data/*`.
