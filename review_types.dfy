/**
 * The review record the collector extracts, exports and filters. Scores are
 * JavaScript numbers; they are modelled as reals and only compared, stored
 * and handed to a number-to-text function.
 */
module ReviewTypes {

  /** The five sub-scores of a review. */
  datatype Scores = Scores(girl: real, play: real, price: real, staff: real, photo: real)

  const ZeroScores: Scores := Scores(0.0, 0.0, 0.0, 0.0, 0.0)

  /** The name of one of the five sub-scores. */
  datatype ScoreField = Girl | Play | Price | Staff | Photo

  function FieldValue(s: Scores, f: ScoreField): real {
    match f
    case Girl => s.girl
    case Play => s.play
    case Price => s.price
    case Staff => s.staff
    case Photo => s.photo
  }

  datatype ReviewData = ReviewData(
    reviewId: string,
    visitDate: string,
    girlName: string,
    totalScore: real,
    scores: Scores,
    title: string,
    body: string,
    postDate: string
  )
}
