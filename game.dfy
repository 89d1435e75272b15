/** The game session: the ArithmeticGame object whose event handlers change the score,
    the time left, the active flag and the current problem, and two plays of a session
    that follow from the handlers' contracts. */
module Game {
  import opened Wrappers
  import opened Problems
  import opened Setup

  class ArithmeticGame {
    var currentProblem: Option<Problem>
    var score: int
    var timeLeft: int
    /** Whether the one-second interval (`this.timer`) is registered. */
    var ticking: bool
    var gameActive: bool
    var settings: Settings

    /** The score never goes below zero, the interval runs exactly while the game is
        active, and an active game always shows a problem. */
    ghost predicate Valid()
      reads this
    {
      score >= 0 && ticking == gameActive && (gameActive ==> currentProblem.Some?)
    }

    /** The object as the page creates it, before any game (the saved settings are
        applied to the form, not to these fields). */
    constructor ()
      ensures Valid()
      ensures currentProblem == None && score == 0 && timeLeft == 0
      ensures !ticking && !gameActive && settings == Settings(0, [], None)
    {
      currentProblem := None;
      score := 0;
      timeLeft := 0;
      ticking := false;
      gameActive := false;
      settings := Settings(0, [], None);
    }

    /** collectSettings: times-table mode replaces the operation list with the marker;
        otherwise each checked regular box pushes its entry in form order. */
    method CollectSettings(f: Form)
      modifies this`settings
      ensures settings == Collected(f)
    {
      if TimesTableBox in f.checked {
        settings := Settings(f.duration, [TimesTableMarker],
                             Some(TimesTable(f.tableNumber, f.tableRange, f.directions)));
      } else {
        settings := Settings(f.duration, [], None);
        var i := 0;
        while i < |f.checked|
          invariant 0 <= i <= |f.checked|
          invariant settings == Settings(f.duration, RegularOps(f, f.checked[..i]), None)
        {
          var box := f.checked[i];
          assert f.checked[..i + 1][..i] == f.checked[..i];
          if box != TimesTableBox {
            settings := settings.(operations := settings.operations + [EntryFor(box, f)]);
          }
          i := i + 1;
        }
        assert f.checked[..i] == f.checked;
      }
    }

    /** generateNewProblem: nothing changes once the game is inactive; otherwise the
        problem generated from the settings and the draws is installed. */
    method GenerateNewProblem(d: Draws)
      requires gameActive ==> Fits(settings, d)
      modifies this`currentProblem
      ensures !gameActive ==> currentProblem == old(currentProblem)
      ensures gameActive ==> currentProblem == Some(Generate(settings, d))
    {
      if !gameActive {
        return;
      }
      currentProblem := Some(Generate(settings, d));
    }

    /** startGame: a form that fails validateSettings changes nothing; otherwise the
        settings are collected, the score and time reset, the game activated, the first
        problem installed and the interval started. */
    method StartGame(f: Form, d: Draws) returns (started: bool)
      requires Valid()
      requires ValidateSettings(f) ==> Fits(Collected(f), d)
      modifies this
      ensures Valid()
      ensures started == ValidateSettings(f)
      ensures !started ==> unchanged(this)
      ensures started ==>
                settings == Collected(f) && score == 0 && timeLeft == f.duration &&
                gameActive && ticking && currentProblem == Some(Generate(settings, d))
    {
      started := ValidateSettings(f);
      if !started {
        return;
      }
      CollectSettings(f);
      assert settings.duration == f.duration && Fits(settings, d);
      score := 0;
      timeLeft := settings.duration;
      gameActive := true;
      GenerateNewProblem(d);
      ticking := true;
    }

    /** checkAnswerLive: an exact match with the current problem's answer, while the
        game is active, adds one to the score and schedules the deferred advance;
        unparsable input, an inactive game, no problem or any other number change
        nothing. The problem itself is not replaced here. */
    method CheckAnswerLive(input: Option<int>) returns (advance: bool)
      requires Valid()
      modifies this`score
      ensures Valid()
      ensures advance <==> input.Some? && gameActive && currentProblem.Some? &&
                           input.value == currentProblem.value.answer
      ensures score == old(score) + (if advance then 1 else 0)
    {
      if input.None? || !gameActive || currentProblem.None? {
        return false;
      }
      advance := input.value == currentProblem.value.answer;
      if advance {
        score := score + 1;
      }
    }

    /** The deferred step that checkAnswerLive schedules: clear the input (not modelled)
        and generate the next problem, which does nothing once the game is over. */
    method AdvanceAfterCorrect(d: Draws)
      requires Valid()
      requires gameActive ==> Fits(settings, d)
      modifies this`currentProblem
      ensures Valid()
      ensures !gameActive ==> currentProblem == old(currentProblem)
      ensures gameActive ==> currentProblem == Some(Generate(settings, d))
    {
      GenerateNewProblem(d);
    }

    /** The one-second tick of the registered interval: one second less, and the game
        ends when no time is left. The score is untouched. */
    method Tick()
      requires Valid() && ticking
      modifies this`timeLeft, this`gameActive, this`ticking
      ensures Valid()
      ensures timeLeft == old(timeLeft) - 1
      ensures gameActive <==> timeLeft > 0
    {
      timeLeft := timeLeft - 1;
      if timeLeft <= 0 {
        EndGame();
      }
    }

    /** endGame: the game becomes inactive and the interval is cleared; the final
        score is the score as it stands. */
    method EndGame()
      requires Valid()
      modifies this`gameActive, this`ticking
      ensures Valid()
      ensures !gameActive && !ticking
    {
      gameActive := false;
      ticking := false;
    }

    /** exitToMenu: the game becomes inactive and the interval, if any, is cleared
        before the page reloads. */
    method ExitToMenu()
      requires Valid()
      modifies this`gameActive, this`ticking
      ensures Valid()
      ensures !gameActive && !ticking
    {
      gameActive := false;
      if ticking {
        ticking := false;
      }
    }
  }

  /** A session left alone from a valid start: the interval fires exactly `duration`
      times before the game ends, the score stays zero, and an answer typed after the
      end (even the right one) scores nothing. */
  method PlayUntilTimeUp(f: Form, d: Draws) returns (ticks: int, finalScore: int, lateAdvance: bool)
    requires ValidateSettings(f) && Fits(Collected(f), d) && f.duration >= 1
    ensures ticks == f.duration && finalScore == 0 && !lateAdvance
  {
    var g := new ArithmeticGame();
    var started := g.StartGame(f, d);
    ticks := 0;
    while g.ticking
      invariant g.Valid()
      invariant g.timeLeft == f.duration - ticks
      invariant g.ticking <==> g.timeLeft > 0
      invariant g.timeLeft >= 0
      invariant g.score == 0 && g.currentProblem.Some?
      decreases g.timeLeft
    {
      g.Tick();
      ticks := ticks + 1;
    }
    lateAdvance := g.CheckAnswerLive(Some(g.currentProblem.value.answer));
    finalScore := g.score;
  }

  /** Entering the right answer twice before the deferred advance runs (the input
      event followed by Enter) scores twice: the problem is still the same one. */
  method AnswerTwiceBeforeAdvance(f: Form, d: Draws) returns (first: int, second: int)
    requires ValidateSettings(f) && Fits(Collected(f), d)
    ensures first == 1 && second == 2
  {
    var g := new ArithmeticGame();
    var started := g.StartGame(f, d);
    var answer := Generate(Collected(f), d).answer;
    var advance := g.CheckAnswerLive(Some(answer));
    first := g.score;
    advance := g.CheckAnswerLive(Some(answer));
    second := g.score;
  }
}
