/**
  The game session of App.tsx. React keeps three pieces of state: the
  `gameState` record (types.ts) and the two flags `apiKeyAvailable` and
  `showApiKeyWarning`. Every `setGameState(prev => ({ ...prev, ... }))`
  becomes an assignment of an updated record. Each `async` handler is split
  at its `await`s: a method runs up to the call into the oracle service and
  another resumes with what the service returned, so no field update is
  lost. The composed methods `InitializeGame` and `SubmitGuess` run the
  phases back to back with the service functions of module GeminiService in
  between.
 */
module App {
  import opened Wrappers
  import opened Text
  import Json
  import GeminiService

  /** The record `gameState` (types.ts). `isCorrectGuess` is optional there
      but every write gives it a value; `guessCount` is never negative. */
  datatype GameState = GameState(
    regions: seq<Json.Value>,
    secretCountry: string,
    aiQuestion: string,
    currentGuess: string,
    feedbackMessage: string,
    statusMessage: string,
    guessCount: nat,
    gameOver: bool,
    isLoadingAI: bool,
    isCorrectGuess: bool)

  const LoadingMessage: string := "Loading regions and mystery nation..."
  const EmptyGuessMessage: string := "Please enter your guess for the country."

  /** The status lines the handlers write. */
  predicate KnownStatus(status: string) {
    status == "" || status == "Correct!" || status == "Incorrect" || status == "Close!" ||
    status == "Empty guess"
  }

  /** What every reachable state satisfies: a known status line, and a
      correct guess only in a finished, settled game. */
  predicate Valid(s: GameState) {
    KnownStatus(s.statusMessage) && (s.isCorrectGuess ==> s.gameOver && !s.isLoadingAI)
  }

  /** `isDisabled` passed to the guess input. */
  predicate InputDisabled(s: GameState) {
    s.isLoadingAI || s.gameOver
  }

  /** `isVisible` passed to the restart button. */
  predicate RestartVisible(s: GameState) {
    s.gameOver || (s.guessCount > 0 && !s.isLoadingAI)
  }

  /** The guess input is rendered only while the game is not over. */
  predicate GuessInputShown(s: GameState) {
    !s.gameOver
  }

  /** The arguments the correct branch of `handleSubmitGuess` passes to
      `getWinMessage`. */
  datatype WinRequest = WinRequest(guessCount: nat, secretCountry: string)

  class GameSession {
    var gameState: GameState
    var apiKeyAvailable: bool
    var showApiKeyWarning: bool

    /** The warning banner is shown when it was requested and no key is
        available. */
    predicate ApiKeyWarningShown()
      reads this
    {
      showApiKeyWarning && !apiKeyAvailable
    }

    /** The initial values of the three `useState` hooks. */
    constructor()
      ensures gameState == GameState([], "", LoadingMessage, "", "", "", 0, false, true, false)
      ensures !apiKeyAvailable && !showApiKeyWarning
      ensures Valid(gameState) && InputDisabled(gameState) && !RestartVisible(gameState)
    {
      gameState := GameState([], "", LoadingMessage, "", "", "", 0, false, true, false);
      apiKeyAvailable := false;
      showApiKeyWarning := false;
    }

    /** `initializeGame(isRestart)` up to its `await`: the loading state,
        then the key check. The count, the game-over flag, the secret country
        and the current guess are left as they were. */
    method BeginInitialize(isRestart: bool, keyAvailable: bool)
      modifies this
      ensures gameState == old(gameState).(
        isLoadingAI := true,
        statusMessage := "",
        feedbackMessage := if isRestart then "Fetching new regions..." else LoadingMessage,
        aiQuestion := if isRestart then "One moment..." else LoadingMessage,
        regions := [],
        isCorrectGuess := false)
      ensures apiKeyAvailable == keyAvailable
      ensures showApiKeyWarning == (old(showApiKeyWarning) || (!keyAvailable && !isRestart))
      ensures Valid(gameState) && InputDisabled(gameState)
      ensures RestartVisible(gameState) <==> gameState.gameOver
    {
      gameState := gameState.(
        isLoadingAI := true,
        statusMessage := "",
        feedbackMessage := if isRestart then "Fetching new regions..." else LoadingMessage,
        aiQuestion := if isRestart then "One moment..." else LoadingMessage,
        regions := [],
        isCorrectGuess := false);
      apiKeyAvailable := keyAvailable;
      if !keyAvailable && !isRestart {
        showApiKeyWarning := true;
      }
    }

    /** `initializeGame` resumed with the challenge: every field of the record
        is written, giving a fresh game with input enabled. */
    method ResolveInitialize(challenge: GeminiService.RegionChallenge)
      modifies this`gameState
      ensures gameState == GameState(challenge.regions, challenge.country, challenge.playerQuestion,
                                     "", "", "", 0, false, false, false)
      ensures Valid(gameState) && !InputDisabled(gameState) && !RestartVisible(gameState)
      ensures GuessInputShown(gameState)
    {
      gameState := gameState.(
        regions := challenge.regions,
        secretCountry := challenge.country,
        aiQuestion := challenge.playerQuestion,
        feedbackMessage := "",
        statusMessage := "",
        currentGuess := "",
        guessCount := 0,
        gameOver := false,
        isLoadingAI := false,
        isCorrectGuess := false);
    }

    /** Both phases of `initializeGame`, with `getRegionChallengeDetails` in
        between. The new game always has three regions, and without a key it
        is the default one. */
    method InitializeGame(isRestart: bool, keyAvailable: bool, aiChallenge: Option<Json.Value>)
      modifies this
      ensures var c := GeminiService.GetRegionChallengeDetails(keyAvailable, aiChallenge);
        gameState == GameState(c.regions, c.country, c.playerQuestion, "", "", "", 0, false, false, false)
      ensures |gameState.regions| == 3
      ensures !keyAvailable ==> gameState.secretCountry == "Nigeria" &&
                                gameState.regions == [Json.Str("Oyo"), Json.Str("Lagos"), Json.Str("Borno")]
      ensures apiKeyAvailable == keyAvailable
      ensures showApiKeyWarning == (old(showApiKeyWarning) || (!keyAvailable && !isRestart))
      ensures ApiKeyWarningShown() <==> !keyAvailable && (old(showApiKeyWarning) || !isRestart)
      ensures Valid(gameState)
    {
      BeginInitialize(isRestart, keyAvailable);
      var challenge := GeminiService.GetRegionChallengeDetails(keyAvailable, aiChallenge);
      ResolveInitialize(challenge);
    }

    /** `handleGuessChange`: only the current guess changes. */
    method GuessChange(value: string)
      modifies this`gameState
      requires Valid(gameState)
      ensures gameState == old(gameState).(currentGuess := value)
      ensures Valid(gameState)
    {
      gameState := gameState.(currentGuess := value);
    }

    /** `handleSubmitGuess` up to its first `await`. A guess that trims to
        nothing only sets the two messages and asks for no evaluation.
        Otherwise the attempt is counted, the view goes into loading, and the
        state the handler's closure reads from is handed back for the
        resume. */
    method BeginSubmitGuess() returns (captured: Option<GameState>)
      modifies this`gameState
      requires Valid(gameState)
      ensures Trim(old(gameState).currentGuess) == "" ==>
        captured.None? &&
        gameState == old(gameState).(feedbackMessage := EmptyGuessMessage, statusMessage := "Empty guess")
      ensures Trim(old(gameState).currentGuess) != "" ==>
        captured == Some(old(gameState)) &&
        gameState == old(gameState).(
          isLoadingAI := true,
          guessCount := old(gameState).guessCount + 1,
          statusMessage := "",
          feedbackMessage := "",
          isCorrectGuess := false)
      ensures Valid(gameState)
      ensures captured.Some? ==> InputDisabled(gameState) && (RestartVisible(gameState) <==> gameState.gameOver)
    {
      if Trim(gameState.currentGuess) == "" {
        gameState := gameState.(feedbackMessage := EmptyGuessMessage, statusMessage := "Empty guess");
        return None;
      }
      captured := Some(gameState);
      gameState := gameState.(
        isLoadingAI := true,
        guessCount := gameState.guessCount + 1,
        statusMessage := "",
        feedbackMessage := "",
        isCorrectGuess := false);
    }

    /** `handleSubmitGuess` resumed with the evaluation. A correct guess asks
        for the win message with the captured count plus one, the guess just
        counted, and changes nothing yet; a wrong one shows the feedback,
        clears the input and ends the loading. */
    method ResumeSubmitGuess(captured: GameState, evaluation: GeminiService.GuessEvaluation)
      returns (win: Option<WinRequest>)
      modifies this`gameState
      requires Valid(gameState)
      ensures evaluation.isCorrect ==>
        win == Some(WinRequest(captured.guessCount + 1, captured.secretCountry)) &&
        gameState == old(gameState)
      ensures !evaluation.isCorrect ==>
        win.None? &&
        gameState == old(gameState).(
          feedbackMessage := evaluation.feedback,
          statusMessage := if evaluation.isClose then "Close!" else "Incorrect",
          currentGuess := "",
          isLoadingAI := false,
          isCorrectGuess := false)
      ensures Valid(gameState)
    {
      if evaluation.isCorrect {
        return Some(WinRequest(captured.guessCount + 1, captured.secretCountry));
      }
      var status := "Incorrect";
      if evaluation.isClose {
        status := "Close!";
      }
      gameState := gameState.(
        feedbackMessage := evaluation.feedback,
        statusMessage := status,
        currentGuess := "",
        isLoadingAI := false,
        isCorrectGuess := false);
      win := None;
    }

    /** `handleSubmitGuess` resumed with the win message: the game is over
        and won, and the guess stays in the input. */
    method CompleteWin(congratsMessage: string)
      modifies this`gameState
      ensures gameState == old(gameState).(
        feedbackMessage := congratsMessage,
        statusMessage := "Correct!",
        gameOver := true,
        isLoadingAI := false,
        isCorrectGuess := true)
      ensures Valid(gameState) && InputDisabled(gameState) && RestartVisible(gameState)
      ensures !GuessInputShown(gameState)
    {
      gameState := gameState.(
        feedbackMessage := congratsMessage,
        statusMessage := "Correct!",
        gameOver := true,
        isLoadingAI := false,
        isCorrectGuess := true);
    }

    /** The whole of `handleSubmitGuess` with `evaluateCountryGuess` and
        `getWinMessage` in between, the guess read from the state at the
        start. A win is announced with the count that includes the winning
        guess. */
    method SubmitGuess(keyAvailable: bool, aiEvaluation: Option<Json.Value>, aiMessage: Option<string>)
      modifies this`gameState
      requires Valid(gameState)
      ensures Trim(old(gameState).currentGuess) == "" ==>
        gameState == old(gameState).(feedbackMessage := EmptyGuessMessage, statusMessage := "Empty guess")
      ensures var s := old(gameState);
        var e := GeminiService.EvaluateCountryGuess(keyAvailable, s.regions, s.secretCountry, s.currentGuess, aiEvaluation);
        Trim(s.currentGuess) != "" && e.isCorrect ==>
          gameState == s.(
            guessCount := s.guessCount + 1,
            feedbackMessage := GeminiService.GetWinMessage(keyAvailable, s.guessCount + 1, s.secretCountry, aiMessage),
            statusMessage := "Correct!",
            gameOver := true,
            isLoadingAI := false,
            isCorrectGuess := true)
      ensures var s := old(gameState);
        var e := GeminiService.EvaluateCountryGuess(keyAvailable, s.regions, s.secretCountry, s.currentGuess, aiEvaluation);
        Trim(s.currentGuess) != "" && !e.isCorrect ==>
          gameState == s.(
            guessCount := s.guessCount + 1,
            feedbackMessage := e.feedback,
            statusMessage := if e.isClose then "Close!" else "Incorrect",
            currentGuess := "",
            isLoadingAI := false,
            isCorrectGuess := false)
      ensures Trim(old(gameState).currentGuess) != "" && gameState.isCorrectGuess && !keyAvailable ==>
        gameState.feedbackMessage == GeminiService.WinTemplate(gameState.guessCount, gameState.secretCountry)
      ensures Valid(gameState)
    {
      var captured := BeginSubmitGuess();
      if captured.None? {
        return;
      }
      var s := captured.value;
      assert s == old(gameState) && Trim(s.currentGuess) != "";
      var evaluation := GeminiService.EvaluateCountryGuess(keyAvailable, s.regions, s.secretCountry,
                                                           s.currentGuess, aiEvaluation);
      var win := ResumeSubmitGuess(s, evaluation);
      if win.Some? {
        var message := GeminiService.GetWinMessage(keyAvailable, win.value.guessCount,
                                                   win.value.secretCountry, aiMessage);
        assert !keyAvailable ==> message == GeminiService.WinTemplate(s.guessCount + 1, s.secretCountry);
        CompleteWin(message);
      }
    }

    /** `handleRestartGame`: the loading phase of `initializeGame(true)`,
        which neither raises the key warning nor resets the count or the
        game-over flag. */
    method HandleRestartGame(keyAvailable: bool)
      modifies this
      ensures gameState == old(gameState).(
        isLoadingAI := true,
        statusMessage := "",
        feedbackMessage := "Fetching new regions...",
        aiQuestion := "One moment...",
        regions := [],
        isCorrectGuess := false)
      ensures apiKeyAvailable == keyAvailable && showApiKeyWarning == old(showApiKeyWarning)
      ensures Valid(gameState) && InputDisabled(gameState)
    {
      BeginInitialize(true, keyAvailable);
    }
  }

  lemma BlankGuessTrims()
    ensures Trim("  ") == ""
  {
    assert LeadingSpaceCount("  ") == 2;
  }

  lemma ExampleGuessesTrimmed()
    ensures Trim("brazil") == "brazil" && Trim("Ghana") == "Ghana" && Trim("nigeria") == "nigeria"
  {
    NoSpaceAtEnds("brazil");
    NoSpaceAtEnds("Ghana");
    NoSpaceAtEnds("nigeria");
  }

  lemma NoSpaceAtEnds(s: string)
    requires 0 < |s| && IsWordChar(s[0]) && IsWordChar(s[|s| - 1])
    ensures Trim(s) == s
  {
    TrimOfTrimmed(s);
  }

  lemma ExampleGuessesJudged()
    ensures !GeminiService.NoKeyEvaluation("brazil", "Nigeria").isCorrect
    ensures !GeminiService.NoKeyEvaluation("Ghana", "Nigeria").isCorrect
    ensures GeminiService.NoKeyEvaluation("nigeria", "Nigeria").isCorrect
  {
    GeminiService.CaseExamples();
  }

  /** A session without a key: a blank submission, two wrong countries and
      the right one in lower case. The blank one is not counted, so the game
      is won on the third counted guess and the default congratulation says
      so. */
  method NoKeySession() returns (statuses: seq<string>, final: GameState)
    ensures statuses == ["Empty guess", "Incorrect", "Incorrect", "Correct!"]
    ensures final.guessCount == 3 && final.gameOver && final.isCorrectGuess
    ensures final.feedbackMessage == GeminiService.WinTemplate(3, "Nigeria")
    ensures final.currentGuess == "nigeria"
  {
    BlankGuessTrims();
    ExampleGuessesTrimmed();
    ExampleGuessesJudged();
    var g := new GameSession();
    g.InitializeGame(false, false, None);
    assert g.gameState.secretCountry == "Nigeria" && g.gameState.guessCount == 0 && !g.gameState.gameOver;
    g.GuessChange("  ");
    g.SubmitGuess(false, None, None);
    assert g.gameState.secretCountry == "Nigeria" && g.gameState.guessCount == 0;
    statuses := [g.gameState.statusMessage];
    g.GuessChange("brazil");
    g.SubmitGuess(false, None, None);
    assert g.gameState.secretCountry == "Nigeria" && g.gameState.guessCount == 1;
    statuses := statuses + [g.gameState.statusMessage];
    g.GuessChange("Ghana");
    g.SubmitGuess(false, None, None);
    assert g.gameState.secretCountry == "Nigeria" && g.gameState.guessCount == 2;
    statuses := statuses + [g.gameState.statusMessage];
    g.GuessChange("nigeria");
    g.SubmitGuess(false, None, None);
    statuses := statuses + [g.gameState.statusMessage];
    final := g.gameState;
  }
}
