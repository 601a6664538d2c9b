/** The game-mechanics constants of the portfolio snake. */
module Constants {
  /** Head advance per frame on wide screens; a frame takes it or the mobile one as its `speed`. */
  const SNAKE_SPEED: real := 4.0
  /** Head advance per frame on screens narrower than 1024 pixels, passed as a frame's `speed` there. */
  const MOBILE_SNAKE_SPEED: real := 2.5
  /** Largest gap allowed between two consecutive segments after a move. */
  const SEGMENT_DISTANCE: real := 12.0
  const SNAKE_SIZE: real := 10.0
  const FOOD_SIZE: real := 8.0
  const SPECIAL_FOOD_SIZE: real := 16.0
  /** Number of segments of a fresh snake. */
  const INITIAL_LENGTH: nat := 10
  /** Every FOOD_TO_TRIGGER_SPECIAL-th normal food is replaced by a special orb. */
  const FOOD_TO_TRIGGER_SPECIAL: nat := 5
  /** The number of portfolio sections; only the length of the content list matters. */
  const SECTION_COUNT: nat := 5
}
