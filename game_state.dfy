/** The game mode and the fade levels of the overlays drawn for it. The
    fade levels are Java `float`s; they are modelled as exact reals, so
    float rounding is not part of this model. */
module GameStates {

  datatype GameMode = Title | Playing | Paused | Transition | Win | GameOver | Rules

  predicate IsTitle(m: GameMode) { m == Title }
  predicate IsPlaying(m: GameMode) { m == Playing }
  predicate IsPaused(m: GameMode) { m == Paused }
  predicate IsWin(m: GameMode) { m == Win }
  predicate IsGameOver(m: GameMode) { m == GameOver }

  /** The number of the five mode queries that hold in mode m. */
  function QueriesHolding(m: GameMode): nat
  {
    (if IsTitle(m) then 1 else 0) + (if IsPlaying(m) then 1 else 0) + (if IsPaused(m) then 1 else 0)
    + (if IsWin(m) then 1 else 0) + (if IsGameOver(m) then 1 else 0)
  }

  /** At most one of the mode queries holds, and none does exactly in the
      transition and rules modes. */
  lemma ModeQueriesExclusive(m: GameMode)
    ensures QueriesHolding(m) <= 1
    ensures QueriesHolding(m) == 0 <==> m == Transition || m == Rules
  {
  }

  const TITLE_FADE: real := 0.02
  const PAUSE_FADE: real := 0.05
  const END_FADE: real := 0.01
  const HIGH_SCORE_FADE: real := 0.02

  predicate InUnit(a: real) { 0.0 <= a <= 1.0 }

  /** The title fade out: once the mode has left the title screen a
      positive level drops by `step`, stopping at 0. */
  function FadeOut(leaving: bool, a: real, step: real): real
  {
    if leaving && a > 0.0 then
      var b := a - step;
      if b < 0.0 then 0.0 else b
    else a
  }

  /** An overlay fade in: while its mode is active a level below 1 rises
      by `step`, stopping at 1; when the mode is inactive the level is 0. */
  function FadeIn(active: bool, a: real, step: real): real
  {
    if active then
      if a < 1.0 then
        var b := a + step;
        if b > 1.0 then 1.0 else b
      else a
    else 0.0
  }

  /** The fade out never raises a level and keeps it in [0, 1]. */
  lemma FadeOutMeaning(leaving: bool, a: real, step: real)
    requires step > 0.0
    ensures FadeOut(leaving, a, step) <= a
    ensures InUnit(a) ==> InUnit(FadeOut(leaving, a, step))
    ensures !leaving ==> FadeOut(leaving, a, step) == a
    ensures leaving && a > 0.0 ==> FadeOut(leaving, a, step) < a
  {
  }

  /** The fade in keeps a level in [0, 1], is 0 for an inactive mode, and
      never lowers the level of an active one. */
  lemma FadeInMeaning(active: bool, a: real, step: real)
    requires step > 0.0
    ensures InUnit(a) ==> InUnit(FadeIn(active, a, step))
    ensures !active ==> FadeIn(active, a, step) == 0.0
    ensures active && InUnit(a) ==> a <= FadeIn(active, a, step)
    ensures active && 0.0 <= a < 1.0 ==> a < FadeIn(active, a, step)
  {
  }

  /** The title's fade-out step of `updateFades`. */
  method FadeOutStep(leaving: bool, a: real, step: real) returns (b: real)
    requires step > 0.0
    ensures b == FadeOut(leaving, a, step)
    ensures b <= a && (InUnit(a) ==> InUnit(b))
  {
    FadeOutMeaning(leaving, a, step);
    b := a;
    if leaving && b > 0.0 {
      b := b - step;
      if b < 0.0 {
        b := 0.0;
      }
    }
  }

  /** An overlay's fade-in step of `updateFades`. */
  method FadeInStep(active: bool, a: real, step: real) returns (b: real)
    requires step > 0.0
    ensures b == FadeIn(active, a, step)
    ensures InUnit(a) ==> InUnit(b)
  {
    FadeInMeaning(active, a, step);
    b := a;
    if active {
      if b < 1.0 {
        b := b + step;
        if b > 1.0 {
          b := 1.0;
        }
      }
    } else {
      b := 0.0;
    }
  }

  class GameStateManager {
    var mode: GameMode
    var titleAlpha: real
    var pauseAlpha: real
    var winAlpha: real
    var gameOverAlpha: real
    var newHighScore: bool
    var highScoreAlpha: real

    /** Every fade level lies in [0, 1]. */
    ghost predicate Valid()
      reads this
    {
      InUnit(titleAlpha) && InUnit(pauseAlpha) && InUnit(winAlpha) && InUnit(gameOverAlpha) && InUnit(highScoreAlpha)
    }

    /** The state at start-up and after `reset`: the title screen shown in
        full, every other overlay hidden, no new high score. */
    ghost predicate Initial()
      reads this
    {
      && mode == Title
      && titleAlpha == 1.0 && pauseAlpha == 0.0 && winAlpha == 0.0 && gameOverAlpha == 0.0
      && !newHighScore && highScoreAlpha == 0.0
    }

    constructor ()
      ensures Initial() && Valid()
    {
      mode := Title;
      titleAlpha := 1.0;
      pauseAlpha := 0.0;
      winAlpha := 0.0;
      gameOverAlpha := 0.0;
      newHighScore := false;
      highScoreAlpha := 0.0;
    }

    function GetMode(): GameMode reads this { mode }

    /** Any mode is accepted: there are no transition guards. */
    method SetMode(mode: GameMode)
      modifies this`mode
      ensures this.mode == mode
    {
      this.mode := mode;
    }

    predicate IsTitlePred() reads this { IsTitle(mode) }
    predicate IsPlayingPred() reads this { IsPlaying(mode) }
    predicate IsPausedPred() reads this { IsPaused(mode) }
    predicate IsWinPred() reads this { IsWin(mode) }
    predicate IsGameOverPred() reads this { IsGameOver(mode) }

    predicate IsNewHighScore() reads this { newHighScore }

    /** Records whether the score is a new high score and restarts the
        high-score banner's fade from 0. */
    method SetNewHighScore(value: bool)
      requires Valid()
      modifies this`newHighScore, this`highScoreAlpha
      ensures Valid()
      ensures newHighScore == value && highScoreAlpha == 0.0
    {
      newHighScore := value;
      highScoreAlpha := 0.0;
    }

    /** One frame of fading: the title fades out once left, the pause,
        win and game-over overlays fade in while their mode is active and
        are hidden otherwise, and the high-score banner fades in while the
        flag is set and is otherwise left alone. The mode and the flag are
        untouched. */
    method UpdateFades()
      requires Valid()
      modifies this`titleAlpha, this`pauseAlpha, this`winAlpha, this`gameOverAlpha, this`highScoreAlpha
      ensures Valid()
      ensures titleAlpha == FadeOut(!IsTitle(mode), old(titleAlpha), TITLE_FADE)
      ensures pauseAlpha == FadeIn(IsPaused(mode), old(pauseAlpha), PAUSE_FADE)
      ensures winAlpha == FadeIn(IsWin(mode), old(winAlpha), END_FADE)
      ensures gameOverAlpha == FadeIn(IsGameOver(mode), old(gameOverAlpha), END_FADE)
      ensures highScoreAlpha == if newHighScore then FadeIn(true, old(highScoreAlpha), HIGH_SCORE_FADE) else old(highScoreAlpha)
      ensures titleAlpha <= old(titleAlpha)
    {
      titleAlpha := FadeOutStep(!IsTitlePred(), titleAlpha, TITLE_FADE);
      pauseAlpha := FadeInStep(IsPausedPred(), pauseAlpha, PAUSE_FADE);
      winAlpha := FadeInStep(IsWinPred(), winAlpha, END_FADE);
      gameOverAlpha := FadeInStep(IsGameOverPred(), gameOverAlpha, END_FADE);
      if newHighScore {
        highScoreAlpha := FadeInStep(true, highScoreAlpha, HIGH_SCORE_FADE);
      }
    }

    /** Back to the start-up state. */
    method Reset()
      modifies this
      ensures Initial() && Valid()
    {
      mode := Title;
      titleAlpha := 1.0;
      pauseAlpha := 0.0;
      winAlpha := 0.0;
      gameOverAlpha := 0.0;
      newHighScore := false;
      highScoreAlpha := 0.0;
    }
  }
}
