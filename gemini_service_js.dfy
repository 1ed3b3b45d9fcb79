/**
  The JavaScript build of the oracle service (Services/geminiService.js),
  modelled from that file, with each operation shown to agree on every input
  with its counterpart in module GeminiService, the model of the TypeScript
  file. The fence pattern is the same text in both files, so its model
  (GeminiService.IsFenced and GeminiService.FenceContent) is shared; the
  guards, defaults, fallbacks and templates are written out again here.
 */
module GeminiServiceJs {
  import opened Wrappers
  import opened Text
  import Json
  import GeminiService

  /** The two capture groups of the fence pattern, as `String.prototype.match`
      reports them: `null` (None) when the trimmed reply is not fenced,
      otherwise group 2. */
  function FenceMatch(jsonStr: string): (m: Option<string>)
    ensures m.Some? <==> GeminiService.IsFenced(jsonStr)
  {
    if GeminiService.IsFenced(jsonStr) then Some(GeminiService.FenceContent(jsonStr)) else None
  }

  /** The reply text after `trim` and the `match && match[2]` test. */
  function StripFence(text: string): (r: string)
    ensures r == GeminiService.StripFence(text)
  {
    var jsonStr := Trim(text);
    match FenceMatch(jsonStr)
    case Some(group) => if group != "" then Trim(group) else jsonStr
    case None => jsonStr
  }

  /** `generateJson`: `null` without a key or when the call fails, else
      `JSON.parse` of the stripped text. */
  function GenerateJson(keyAvailable: bool, responseText: Option<string>,
                        parse: string -> Option<Json.Value>): (r: Option<Json.Value>)
    ensures r == GeminiService.GenerateJson(keyAvailable, responseText, parse)
  {
    if !keyAvailable || responseText.None? then None else parse(StripFence(responseText.value))
  }

  /** `getRegionChallengeDetails`: the object literal default, and the guard
      read member by member off the parsed object. */
  function GetRegionChallengeDetails(keyAvailable: bool, aiChallenge: Option<Json.Value>)
    : (r: GeminiService.RegionChallenge)
    ensures r == GeminiService.GetRegionChallengeDetails(keyAvailable, aiChallenge)
  {
    GeminiService.ChallengeShapeOkIff(aiChallenge);
    var defaultChallenge := GeminiService.RegionChallenge(
      [Json.Str("Oyo"), Json.Str("Lagos"), Json.Str("Borno")],
      "Nigeria", "These regions are all part of which nation?");
    if !keyAvailable then defaultChallenge
    else match aiChallenge
      case Some(Object(m)) =>
        if "regions" in m && m["regions"].Array? && |m["regions"].items| == 3 &&
           "country" in m && m["country"].Str? &&
           "playerQuestion" in m && m["playerQuestion"].Str?
        then GeminiService.RegionChallenge(m["regions"].items, m["country"].s, m["playerQuestion"].s)
        else defaultChallenge
      case _ => defaultChallenge
  }

  /** `evaluateCountryGuess`: the default evaluation built first, the
      generated one copied member by member, the trimmed comparison last. */
  function EvaluateCountryGuess(keyAvailable: bool, regions: seq<Json.Value>, secretCountry: string,
                                playerGuess: string, aiEvaluation: Option<Json.Value>)
    : (r: GeminiService.GuessEvaluation)
    ensures r == GeminiService.EvaluateCountryGuess(keyAvailable, regions, secretCountry, playerGuess, aiEvaluation)
  {
    GeminiService.EvaluationShapeOkIff(aiEvaluation);
    var same := Lower(playerGuess) == Lower(secretCountry);
    var defaultEvaluation := GeminiService.GuessEvaluation(
      same, if same then "That's the one!" else "Not quite, try another guess!", false);
    var isCorrect := Lower(Trim(playerGuess)) == Lower(Trim(secretCountry));
    var fallback := GeminiService.GuessEvaluation(
      isCorrect, if isCorrect then "Correct!" else "Not quite. The answer isn't \"" + playerGuess + "\".", false);
    if !keyAvailable then defaultEvaluation
    else match aiEvaluation
      case Some(Object(m)) =>
        if "isCorrect" in m && m["isCorrect"].Bool? && "feedback" in m && m["feedback"].Str?
        then GeminiService.GuessEvaluation(
          m["isCorrect"].b, m["feedback"].s,
          if "isClose" in m && m["isClose"].Bool? then m["isClose"].b else false)
        else fallback
      case _ => fallback
  }

  /** `getWinMessage`: the template literal read piece by piece, and the
      generated text unless it is empty or missing. */
  function GetWinMessage(keyAvailable: bool, guessCount: nat, secretCountry: string,
                         aiMessage: Option<string>): (r: string)
    ensures r == GeminiService.GetWinMessage(keyAvailable, guessCount, secretCountry, aiMessage)
  {
    TemplateAgrees(guessCount, secretCountry);
    var defaultMessage := "You got it in " + NatToDecimal(guessCount) + " " +
                          (if guessCount == 1 then "try" else "tries") +
                          "! The country was: " + secretCountry + ".";
    if !keyAvailable then defaultMessage
    else match aiMessage
      case Some(s) => if s != "" then s else defaultMessage
      case None => defaultMessage
  }

  /** The template literal, cut into its pieces, is the congratulation
      GeminiService.WinTemplate builds. */
  lemma TemplateAgrees(guessCount: nat, secretCountry: string)
    ensures "You got it in " + NatToDecimal(guessCount) + " " +
            (if guessCount == 1 then "try" else "tries") +
            "! The country was: " + secretCountry + "." ==
            GeminiService.WinTemplate(guessCount, secretCountry)
  {
    var word := if guessCount == 1 then "try" else "tries";
    var p := "You got it in " + NatToDecimal(guessCount);
    var bang := "! The country was: ";
    SpacedWord(guessCount);
    ConcatAssoc4(p, " ", word, bang);
    ConcatAssoc4(p, " " + word, bang, secretCountry);
  }

  lemma SpacedWord(guessCount: nat)
    ensures " " + (if guessCount == 1 then "try" else "tries") == (if guessCount == 1 then " try" else " tries")
  {
  }

  lemma ConcatAssoc4(a: string, b: string, c: string, d: string)
    ensures a + b + c + d == a + (b + c + d)
  {
  }
}
