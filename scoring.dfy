/** `calculateScore`: the points a round earns from whether the title and the
    artist were guessed and how many seconds had elapsed. */
module Scoring {

  /** Points for a correct title, as the in-game scoring table lists them:
      3 within 3 seconds, 2 within 10 seconds, 1 otherwise. */
  function TitlePoints(elapsed: real): (r: nat)
    ensures 1 <= r <= 3
    ensures r == 3 <==> elapsed <= 3.0
  {
    if elapsed <= 3.0 then 3 else if elapsed <= 10.0 then 2 else 1
  }

  /** The scoring table: the title points when the title is right, plus a
      bonus point for the right artist. */
  function DocumentedPoints(isCorrectTitle: bool, isCorrectArtist: bool, elapsed: real): (r: nat)
    ensures r <= 4
    ensures r >= 1 <==> isCorrectTitle || isCorrectArtist
  {
    (if isCorrectTitle then TitlePoints(elapsed) else 0) + (if isCorrectArtist then 1 else 0)
  }

  /** The accumulator of `calculateScore`: a base point and a time bonus for
      the title, then a point for the artist. It awards what the table lists. */
  method CalculateScore(isCorrectTitle: bool, isCorrectArtist: bool, timeElapsed: real)
    returns (score: int)
    ensures score == DocumentedPoints(isCorrectTitle, isCorrectArtist, timeElapsed)
    ensures 0 <= score <= 4
  {
    score := 0;

    if isCorrectTitle {
      score := score + 1;

      if timeElapsed <= 3.0 {
        score := score + 2;
      } else if timeElapsed <= 10.0 {
        score := score + 1;
      }
    }

    if isCorrectArtist {
      score := score + 1;
    }
  }

  /** Every award lies between 0 and 4 points, and 4 needs both answers right
      within 3 seconds. */
  lemma PointsRange(isCorrectTitle: bool, isCorrectArtist: bool, elapsed: real)
    ensures 0 <= DocumentedPoints(isCorrectTitle, isCorrectArtist, elapsed) <= 4
    ensures DocumentedPoints(isCorrectTitle, isCorrectArtist, elapsed) == 4 <==>
              isCorrectTitle && isCorrectArtist && elapsed <= 3.0
  {
  }

  /** A round with both answers wrong earns nothing, whatever the time. */
  lemma NothingCorrectScoresZero(elapsed: real)
    ensures DocumentedPoints(false, false, elapsed) == 0
  {
  }

  /** A right title alone earns 3, 2 or 1 points by time band; the band ends
      at 3 and at 10 seconds belong to the faster band. */
  lemma TitleOnlyBands(elapsed: real)
    ensures elapsed <= 3.0 ==> DocumentedPoints(true, false, elapsed) == 3
    ensures 3.0 < elapsed <= 10.0 ==> DocumentedPoints(true, false, elapsed) == 2
    ensures 10.0 < elapsed ==> DocumentedPoints(true, false, elapsed) == 1
    ensures DocumentedPoints(true, false, 3.0) == 3 && DocumentedPoints(true, false, 10.0) == 2
  {
  }

  /** A right artist adds exactly one point, whatever the title and the time. */
  lemma ArtistBonus(isCorrectTitle: bool, elapsed: real)
    ensures DocumentedPoints(isCorrectTitle, true, elapsed) ==
            DocumentedPoints(isCorrectTitle, false, elapsed) + 1
  {
  }

  /** Answering later never earns more. */
  lemma NonIncreasingInTime(isCorrectTitle: bool, isCorrectArtist: bool, t1: real, t2: real)
    requires t1 <= t2
    ensures DocumentedPoints(isCorrectTitle, isCorrectArtist, t1) >=
            DocumentedPoints(isCorrectTitle, isCorrectArtist, t2)
  {
  }

  /** With a wrong title the time has no effect: the award is the artist point
      alone. */
  lemma TitleWrongIgnoresTime(isCorrectArtist: bool, t1: real, t2: real)
    ensures DocumentedPoints(false, isCorrectArtist, t1) == DocumentedPoints(false, isCorrectArtist, t2)
    ensures DocumentedPoints(false, isCorrectArtist, t1) == if isCorrectArtist then 1 else 0
  {
  }
}
