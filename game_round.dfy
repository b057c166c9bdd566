/** How the game controller awards a round: the typed title and artist are
    each matched with `areSimilar` against the current track, and the two
    verdicts and the elapsed time go to `calculateScore`. The handler as
    written never gets that far (see `SubmitAsWritten`); `SubmitAnswer` and
    `RoundPoints` model the composition it evidently intends. */
module GameRound {
  import opened TitleCleaning
  import opened StringMatch
  import opened Scoring

  /** The fields of the current track the controller reads: its name and the
      name of its first listed artist. */
  datatype Track = Track(name: seq<char>, firstArtist: seq<char>)

  /** `isCorrectAnswer`: false without a current track. */
  predicate IsCorrectTitle(answer: seq<char>, current: Option<Track>)
    ensures IsCorrectTitle(answer, current) ==> current.Some? && CleanTitle(current.value.name) + CleanTitle(answer) != []
  {
    current.Some? && AreSimilar(answer, current.value.name)
  }

  /** `isCorrectArtist`: false without a current track. */
  predicate IsCorrectArtist(artistAnswer: seq<char>, current: Option<Track>)
    ensures IsCorrectArtist(artistAnswer, current) ==> current.Some? && CleanTitle(current.value.firstArtist) + CleanTitle(artistAnswer) != []
  {
    current.Some? && AreSimilar(artistAnswer, current.value.firstArtist)
  }

  /** What a submission does to the running score: either the handler stops
      with a JavaScript ReferenceError before it scores, or the round is
      revealed with the new score. */
  datatype Submission = ReferenceError | Revealed(score: nat)

  /** `handleAnswerSubmit` as written. Its fourth line declares a constant
      `isCorrectArtist` whose initialiser calls `isCorrectArtist()`; inside
      the handler that name already denotes the constant itself, which is
      still in its temporal dead zone, so the call throws a ReferenceError
      on every run. The button, the Enter key and the 30-second timer all
      reach this handler, so no answer is ever scored or revealed. */
  function SubmitAsWritten(score: nat, answer: seq<char>, artistAnswer: seq<char>,
                           current: Option<Track>, elapsed: real): Submission
  {
    ReferenceError
  }

  /** `handleAnswerSubmit` as evidently intended: the title verdict, the
      artist verdict of the `isCorrectArtist` helper and the elapsed time go
      to `calculateScore`, and the round is revealed with the points added. */
  function SubmitAnswer(score: nat, answer: seq<char>, artistAnswer: seq<char>,
                        current: Option<Track>, elapsed: real): (r: Submission)
    ensures r.Revealed? && score <= r.score <= score + 4
    ensures r.score > score <==> IsCorrectTitle(answer, current) || IsCorrectArtist(artistAnswer, current)
  {
    Revealed(score + RoundPoints(answer, artistAnswer, current, elapsed))
  }

  /** The points `handleAnswerSubmit` is meant to add to the running score. */
  function RoundPoints(answer: seq<char>, artistAnswer: seq<char>, current: Option<Track>, elapsed: real): (r: nat)
    ensures r <= 4
    ensures r >= 1 <==> IsCorrectTitle(answer, current) || IsCorrectArtist(artistAnswer, current)
  {
    DocumentedPoints(IsCorrectTitle(answer, current), IsCorrectArtist(artistAnswer, current), elapsed)
  }

  /** Without a current track a submission earns nothing. */
  lemma NoTrackScoresZero(answer: seq<char>, artistAnswer: seq<char>, elapsed: real)
    ensures RoundPoints(answer, artistAnswer, None, elapsed) == 0
  {
  }

  /** Answers that clean to the empty string (left blank, or only brackets,
      punctuation and non-ASCII text) earn nothing. */
  lemma BlankAnswersScoreZero(answer: seq<char>, artistAnswer: seq<char>, current: Option<Track>, elapsed: real)
    requires CleanTitle(answer) == [] && CleanTitle(artistAnswer) == []
    ensures RoundPoints(answer, artistAnswer, current, elapsed) == 0
  {
    if current.Some? {
      EmptyCleanNeverSimilar(answer, current.value.name);
      EmptyCleanNeverSimilar(artistAnswer, current.value.firstArtist);
    }
  }

  /** A track whose name cleans to the empty string (a title written wholly
      in non-Latin script, say) can never be guessed: its title point is
      lost whatever the player types. */
  lemma UnmatchableTitle(answer: seq<char>, artistAnswer: seq<char>, track: Track, elapsed: real)
    requires CleanTitle(track.name) == []
    ensures RoundPoints(answer, artistAnswer, Some(track), elapsed) <= 1
  {
    EmptyCleanNeverSimilar(track.name, answer);
  }

  /** In the intended composition, typing the title in any letter case earns
      the title points of the time band, provided the title does not clean
      to the empty string. */
  lemma RightTitleEarnsBand(answer: seq<char>, artistAnswer: seq<char>, track: Track, elapsed: real)
    requires ToLower(answer) == ToLower(track.name)
    requires CleanTitle(track.name) != []
    ensures RoundPoints(answer, artistAnswer, Some(track), elapsed) >= TitlePoints(elapsed)
  {
    CaseInsensitive(answer, track.name);
  }

  /** As written, no submission is ever scored: every one ends in the
      ReferenceError. */
  lemma AsWrittenNeverScores(score: nat, answer: seq<char>, artistAnswer: seq<char>,
                             current: Option<Track>, elapsed: real)
    ensures !SubmitAsWritten(score, answer, artistAnswer, current, elapsed).Revealed?
  {
  }

  /** The discrepancy on a concrete kind of input: typing the exact track
      name earns at least one point as intended, but the handler as written
      throws instead. */
  lemma AsWrittenLosesPoints(score: nat, answer: seq<char>, artistAnswer: seq<char>,
                             track: Track, elapsed: real)
    requires ToLower(answer) == ToLower(track.name)
    requires CleanTitle(track.name) != []
    ensures SubmitAsWritten(score, answer, artistAnswer, Some(track), elapsed) == ReferenceError
    ensures SubmitAnswer(score, answer, artistAnswer, Some(track), elapsed).score >= score + 1
  {
    RightTitleEarnsBand(answer, artistAnswer, track, elapsed);
  }
}
