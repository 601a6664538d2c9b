/**
 * The application shell around the canvas: the screen state machine
 * (MENU, PLAYING, POPUP, GAME_OVER), the score, the eaten-food count, the
 * portfolio section on show and the game id whose change remounts the
 * canvas with a fresh session.
 */
module Shell {
  import opened Types
  import opened Constants
  import opened GameUtils
  import opened Canvas

  /** Points for one NORMAL food. */
  const FOOD_SCORE: nat := 10

  /** The section shown after a popup is closed: the next one, wrapping after the last. */
  function NextSection(i: nat): (j: nat)
    ensures j < SECTION_COUNT
    ensures i < SECTION_COUNT - 1 ==> j == i + 1
    ensures i == SECTION_COUNT - 1 ==> j == 0
  {
    (i + 1) % SECTION_COUNT
  }

  /** The section on show after `n` popups have been closed, starting from `i`. */
  function SectionAfter(i: nat, n: nat): nat {
    if n == 0 then i else NextSection(SectionAfter(i, n - 1))
  }

  /**
   * Closing popups walks the sections in order and starts again from the
   * first: after `n` closes the index is `(i + n) mod SECTION_COUNT`, so
   * every section comes round again and none ends the game.
   */
  lemma {:induction false} SectionsCycle(i: nat, n: nat)
    requires i < SECTION_COUNT
    ensures SectionAfter(i, n) == (i + n) % SECTION_COUNT
  {
    if n > 0 {
      SectionsCycle(i, n - 1);
      var q, r := (i + n - 1) / SECTION_COUNT, (i + n - 1) % SECTION_COUNT;
      assert i + n - 1 == SECTION_COUNT * q + r && r < SECTION_COUNT;
      if r == SECTION_COUNT - 1 {
        assert i + n == SECTION_COUNT * (q + 1);
      } else {
        assert i + n == SECTION_COUNT * q + (r + 1) && r + 1 < SECTION_COUNT;
      }
    }
  }

  /** The state of the application component. */
  class App {
    var gameState: GameState
    var score: nat
    var foodsEaten: nat
    var sectionIndex: nat
    var gameId: nat
    var canvas: SnakeCanvas

    /**
     * The shell and its canvas agree: the section index is in range, the
     * score is FOOD_SCORE per eaten food, the canvas counter equals the
     * eaten-food count, and nothing has been eaten while on the menu.
     */
    ghost predicate Valid()
      reads this, canvas
    {
      canvas.Valid() &&
      sectionIndex < SECTION_COUNT &&
      score == FOOD_SCORE * foodsEaten &&
      canvas.foodCounter == foodsEaten &&
      (gameState == MENU ==> foodsEaten == 0)
    }

    /** isLastOrb and isLastSection: the section on show is the last one. */
    predicate IsLastSection()
      reads this
      ensures IsLastSection() ==> NextSection(sectionIndex) == 0
    {
      sectionIndex == SECTION_COUNT - 1
    }

    /** The first render: the menu, with a canvas mounted for game id 0. */
    constructor (width: nat, height: nat, roll: Roll)
      requires roll.Valid()
      ensures Valid()
      ensures gameState == MENU && score == 0 && foodsEaten == 0 && sectionIndex == 0 && gameId == 0
      ensures fresh(canvas) && canvas.Current() == InitialSession(width, height, roll)
    {
      gameState := MENU;
      score, foodsEaten, sectionIndex, gameId := 0, 0, 0, 0;
      canvas := new SnakeCanvas(width, height, MENU, roll);
    }

    /**
     * startGame: a new game id, which replaces the canvas by a freshly
     * mounted one, the PLAYING state and zeroed counters.
     */
    method StartGame(width: nat, height: nat, roll: Roll)
      requires roll.Valid()
      modifies this
      ensures Valid()
      ensures gameState == PLAYING && score == 0 && foodsEaten == 0 && sectionIndex == 0
      ensures gameId == old(gameId) + 1
      ensures fresh(canvas) && canvas.Current() == InitialSession(width, height, roll)
    {
      gameId := gameId + 1;
      gameState := PLAYING;
      score := 0;
      foodsEaten := 0;
      sectionIndex := 0;
      canvas := new SnakeCanvas(width, height, PLAYING, roll);
    }

    /** resumeGame: back to PLAYING, nothing else. */
    method ResumeGame()
      requires Valid()
      modifies this`gameState
      ensures Valid() && gameState == PLAYING
    {
      gameState := PLAYING;
    }

    /** handleSpecialFood: open the popup, nothing else. */
    method HandleSpecialFood()
      requires Valid()
      modifies this`gameState
      ensures Valid() && gameState == POPUP
    {
      gameState := POPUP;
    }

    /**
     * handlePopupClose: resume PLAYING on the next section. The index wraps
     * to 0 exactly when the closed popup showed the last section; the game
     * goes on either way.
     */
    method HandlePopupClose()
      requires Valid()
      modifies this`gameState, this`sectionIndex
      ensures Valid() && gameState == PLAYING
      ensures sectionIndex == NextSection(old(sectionIndex))
      ensures old(IsLastSection()) <==> sectionIndex == 0
    {
      gameState := PLAYING;
      sectionIndex := (sectionIndex + 1) % SECTION_COUNT;
    }

    /**
     * One animation frame of the canvas with the callbacks it calls: game
     * over, a NORMAL pickup (score and eaten count), a SPECIAL pickup (the
     * popup). Outside PLAYING the screen state does not change, so a frame
     * never leaves GAME_OVER.
     */
    method Frame(speed: real, root: real -> real, roll: Roll) returns (signal: Signal)
      requires Valid() && IsSqrt(root) && roll.Valid()
      modifies this, canvas
      ensures Valid() && canvas == old(canvas)
      ensures canvas.width == old(canvas.width) && canvas.height == old(canvas.height)
      ensures sectionIndex == old(sectionIndex) && gameId == old(gameId)
      ensures (canvas.Current(), signal)
           == Update(old(canvas.Current()), old(gameState), old(canvas.width), old(canvas.height), speed, root, roll)
      ensures gameState == match signal
                           case GameOver => GAME_OVER
                           case AteSpecial => POPUP
                           case _ => old(gameState)
      ensures score == old(score) + (if signal == AteNormal then FOOD_SCORE else 0)
      ensures foodsEaten == old(foodsEaten) + (if signal == AteNormal then 1 else 0)
      ensures old(gameState) != PLAYING ==> gameState == old(gameState)
    {
      ghost var before := canvas.Current();
      signal := canvas.Tick(gameState, speed, root, roll);
      UpdateCounts(before, gameState, canvas.width, canvas.height, speed, root, roll);
      match signal {
        case GameOver =>
          gameState := GAME_OVER;
        case AteNormal =>
          score := score + FOOD_SCORE;
          foodsEaten := foodsEaten + 1;
        case AteSpecial =>
          HandleSpecialFood();
        case Quiet =>
      }
    }

    /** A key press, handed to the canvas with the current screen state. */
    method PressKey(key: Key)
      requires Valid()
      modifies canvas`pending
      ensures Valid()
      ensures canvas.pending == if gameState == PLAYING
                                then Steer(canvas.direction, old(canvas.pending), KeyVector(key).x, KeyVector(key).y)
                                else old(canvas.pending)
    {
      canvas.HandleKey(gameState, key);
    }

    /** A window resize, handed to the canvas with the current screen state. */
    method Resize(width: nat, height: nat, roll: Roll)
      requires Valid() && roll.Valid()
      modifies canvas
      ensures Valid() && canvas.width == width && canvas.height == height
      ensures gameState == MENU ==> canvas.Current() == InitialSession(width, height, roll)
      ensures gameState != MENU ==> canvas.Current() == old(canvas.Current())
    {
      canvas.Resize(width, height, gameState, roll);
    }
  }
}
