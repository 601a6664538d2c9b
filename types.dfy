/** Value types shared by the game: points, the screen state and food items. */
module Types {

  /** A position on the canvas, or an axis-aligned velocity when used as a direction. */
  datatype Point = Point(x: real, y: real)

  /** The four screens of the session state machine. */
  datatype GameState = MENU | PLAYING | POPUP | GAME_OVER

  /** NORMAL food makes the snake grow; a SPECIAL orb opens a portfolio section. */
  datatype FoodType = NORMAL | SPECIAL

  /** A food item on the board; `id` is drawn from the clock plus a random fraction. */
  datatype Food = Food(position: Point, kind: FoodType, id: real)
}
