/**
  The deterministic part of the oracle service (Services/geminiService.ts):
  the default challenge and the shape check of a generated one, the two
  evaluation fallbacks and the pass-through of a generated evaluation, the
  win-message template, and the code-fence stripping applied to the
  generator's raw text. Whether an API key is configured is a parameter;
  what the generator answered is a parameter too (`None` where the code
  gets `null`: no key, a failed call or an unparseable reply).
 */
module GeminiService {
  import opened Wrappers
  import opened Text
  import Json

  /** What `getRegionChallengeDetails` resolves to. The elements of `regions`
      are whatever the generator put in the array: the code checks only that
      it is an array of three. */
  datatype RegionChallenge = RegionChallenge(regions: seq<Json.Value>, country: string, playerQuestion: string)

  datatype GuessEvaluation = GuessEvaluation(isCorrect: bool, feedback: string, isClose: bool)

  // ---------------------------------------------------------------------------
  // generateJson: code-fence stripping of the raw reply
  // ---------------------------------------------------------------------------

  /** The trimmed reply matches the fence pattern: it opens and closes with
      three backticks that do not overlap. */
  predicate IsFenced(t: string) {
    |t| >= 6 && t[..3] == "```" && t[|t| - 3..] == "```"
  }

  /** The length of the optional language tag `(\w*)?` after the opening
      fence, matched greedily. */
  function LeadingWordCount(s: string): (n: nat)
    ensures n <= |s|
    ensures forall i :: 0 <= i < n ==> IsWordChar(s[i])
    ensures n < |s| ==> !IsWordChar(s[n])
  {
    if s != [] && IsWordChar(s[0]) then 1 + LeadingWordCount(s[1..]) else 0
  }

  /** Where the text after the language tag starts inside a fenced text. */
  function TagEnd(t: string): (n: nat)
    requires IsFenced(t)
    ensures 3 <= n <= |t| - 3
  {
    3 + LeadingWordCount(t[3..|t| - 3])
  }

  /** Capture group 2 of the fence pattern on a fenced text: what lies between
      the fences once the language tag and the surrounding whitespace are
      gone. The greedy `\s*` before the group and the lazy group followed by
      `\n?\s*` leave exactly the trimmed remainder. */
  function FenceContent(t: string): string
    requires IsFenced(t)
  {
    Trim(t[TagEnd(t)..|t| - 3])
  }

  /** The text `generateJson` hands to `JSON.parse`: the trimmed reply, or the
      trimmed group 2 of the fence pattern when the reply is fenced and the
      group is non-empty. */
  function StripFence(text: string): (r: string)
    ensures Trim(r) == r
    ensures !IsFenced(Trim(text)) ==> r == Trim(text)
  {
    var t := Trim(text);
    if IsFenced(t) && FenceContent(t) != "" then
      TrimIdempotent(FenceContent(t));
      Trim(FenceContent(t))
    else
      TrimIdempotent(text);
      t
  }

  /** Where group 2 starts and ends inside a fenced text. */
  function FenceContentStart(t: string): nat
    requires IsFenced(t)
  {
    TagEnd(t) + LeadingSpaceCount(t[TagEnd(t)..|t| - 3])
  }

  function FenceContentEnd(t: string): nat
    requires IsFenced(t)
  {
    TagEnd(t) + TrimEndIndex(t[TagEnd(t)..|t| - 3])
  }

  /** Group 2 is the slice of the fenced text between the two fences. */
  lemma FenceContentAt(t: string)
    requires IsFenced(t)
    ensures 3 <= FenceContentStart(t) <= FenceContentEnd(t) <= |t| - 3
    ensures FenceContent(t) == t[FenceContentStart(t)..FenceContentEnd(t)]
  {
    var a := TagEnd(t);
    var w := t[a..|t| - 3];
    SliceOfSlice(t, a, |t| - 3, LeadingSpaceCount(w), TrimEndIndex(w));
  }

  lemma SliceOfSlice(s: string, i: nat, j: nat, k: nat, l: nat)
    requires i <= j <= |s| && k <= l <= j - i
    ensures s[i..j][k..l] == s[i + k..i + l]
  {
    forall m | 0 <= m < l - k ensures s[i..j][k..l][m] == s[i + k..i + l][m] {
    }
  }

  /** What the stripper returns is the trimmed reply itself or a slice of it
      at least six characters shorter (the two fences are gone); a reply
      that does not open with three backticks is only trimmed. */
  lemma StripFenceIsSlice(text: string)
    ensures var t, r := Trim(text), StripFence(text);
      r == t || (|r| + 6 <= |t| && exists i, j :: 0 <= i <= j <= |t| && t[i..j] == r)
    ensures var t := Trim(text); |t| < 3 || t[..3] != "```" ==> StripFence(text) == t
  {
    var t := Trim(text);
    if IsFenced(t) && FenceContent(t) != "" {
      StripFenceOfFenced(text);
      FenceContentAt(t);
      var i, j := FenceContentStart(t), FenceContentEnd(t);
      assert t[i..j] == StripFence(text);
    }
  }

  /** On a fenced reply with non-empty content the stripper returns group 2
      as it stands: trimming it again changes nothing. */
  lemma StripFenceOfFenced(text: string)
    requires IsFenced(Trim(text)) && FenceContent(Trim(text)) != ""
    ensures StripFence(text) == FenceContent(Trim(text))
  {
    var t := Trim(text);
    var c := FenceContent(t);
    TrimIdempotent(t[TagEnd(t)..|t| - 3]);
    assert Trim(c) == c;
    assert StripFence(text) == Trim(c);
  }

  /** A tag of word characters followed by a non-word character is skipped whole. */
  lemma {:induction false} LeadingWordCountOfTag(tag: string, rest: string)
    requires forall i :: 0 <= i < |tag| ==> IsWordChar(tag[i])
    requires rest == [] || !IsWordChar(rest[0])
    ensures LeadingWordCount(tag + rest) == |tag|
    decreases |tag|
  {
    if tag != [] {
      assert (tag + rest)[1..] == tag[1..] + rest;
      LeadingWordCountOfTag(tag[1..], rest);
    }
  }

  /** The tag `json` of the example reply ends at index 7. */
  lemma FencedExampleTag()
    ensures IsFenced("```json\n{}\n```") && TagEnd("```json\n{}\n```") == 7
  {
    var t := "```json\n{}\n```";
    assert IsFenced(t);
    assert t[3..|t| - 3] == "json" + "\n{}\n";
    LeadingWordCountOfTag("json", "\n{}\n");
  }

  lemma FencedExampleContent()
    ensures IsFenced("```json\n{}\n```") && FenceContent("```json\n{}\n```") == "{}"
  {
    var t := "```json\n{}\n```";
    FencedExampleTag();
    var w := t[7..11];
    assert w == "\n{}\n";
    assert LeadingSpaceCount(w) == 1;
    assert w[1..] == "{}\n";
    assert TrailingSpaceStart(w[1..]) == 2;
  }

  /** A fenced reply with a language tag is unwrapped. */
  lemma StripFenceFencedExample()
    ensures StripFence("```json\n{}\n```") == "{}"
  {
    var t := "```json\n{}\n```";
    TrimOfTrimmed(t);
    FencedExampleContent();
    StripFenceOfFenced(t);
  }

  /** An unfenced reply is only trimmed. */
  lemma StripFencePlainExample()
    ensures StripFence(" {} ") == "{}"
  {
    assert LeadingSpaceCount(" {} ") == 1;
    assert " {} "[1..] == "{} ";
    assert TrailingSpaceStart("{} ") == 2;
    assert Trim(" {} ") == "{}";
  }

  /** `generateJson`: `null` without a key or when the call fails; otherwise
      `JSON.parse` (the parameter `parse`, `None` on a syntax error) applied
      to the fence-stripped reply. */
  function GenerateJson(keyAvailable: bool, responseText: Option<string>,
                        parse: string -> Option<Json.Value>): (r: Option<Json.Value>)
    ensures !keyAvailable || responseText.None? ==> r.None?
    ensures keyAvailable && responseText.Some? ==> r == parse(StripFence(responseText.value))
  {
    if !keyAvailable then None
    else match responseText
      case None => None
      case Some(text) => parse(StripFence(text))
  }

  // ---------------------------------------------------------------------------
  // getRegionChallengeDetails
  // ---------------------------------------------------------------------------

  function DefaultChallenge(): (c: RegionChallenge)
    ensures |c.regions| == 3 && forall i :: 0 <= i < 3 ==> c.regions[i].Str?
  {
    RegionChallenge([Json.Str("Oyo"), Json.Str("Lagos"), Json.Str("Borno")],
                    "Nigeria", "These regions are all part of which nation?")
  }

  /** The guard a generated challenge must pass before it is used. */
  predicate ChallengeShapeOk(reply: Option<Json.Value>) {
    reply.Some? && Json.Truthy(reply.value) &&
    Json.IsArrayField(reply.value, "regions") &&
    |Json.Get(reply.value, "regions").value.items| == 3 &&
    Json.IsStringField(reply.value, "country") &&
    Json.IsStringField(reply.value, "playerQuestion")
  }

  /** The guard accepts exactly the objects whose `regions` member is a
      three-element array and whose `country` and `playerQuestion` members
      are strings; the array's elements are not inspected. */
  lemma ChallengeShapeOkIff(reply: Option<Json.Value>)
    ensures ChallengeShapeOk(reply) <==>
      reply.Some? && reply.value.Object? &&
      var m := reply.value.fields;
      "regions" in m && m["regions"].Array? && |m["regions"].items| == 3 &&
      "country" in m && m["country"].Str? &&
      "playerQuestion" in m && m["playerQuestion"].Str?
  {
  }

  /** The generated challenge as the game reads it. */
  function ChallengeOf(v: Json.Value): (c: RegionChallenge)
    requires ChallengeShapeOk(Some(v))
    ensures |c.regions| == 3
    ensures c.country == v.fields["country"].s && c.playerQuestion == v.fields["playerQuestion"].s
    ensures c.regions == v.fields["regions"].items
  {
    RegionChallenge(Json.Get(v, "regions").value.items,
                    Json.Get(v, "country").value.s,
                    Json.Get(v, "playerQuestion").value.s)
  }

  /** `getRegionChallengeDetails`, given key availability and what
      `generateJson` returned. Every outcome has exactly three regions, and
      anything but a well-shaped reply under a key gives the default. */
  function GetRegionChallengeDetails(keyAvailable: bool, aiChallenge: Option<Json.Value>): (r: RegionChallenge)
    ensures |r.regions| == 3
    ensures !keyAvailable ==> r == DefaultChallenge()
    ensures keyAvailable && ChallengeShapeOk(aiChallenge) ==> r == ChallengeOf(aiChallenge.value)
    ensures !ChallengeShapeOk(aiChallenge) ==> r == DefaultChallenge()
  {
    if !keyAvailable then DefaultChallenge()
    else if ChallengeShapeOk(aiChallenge) then ChallengeOf(aiChallenge.value)
    else DefaultChallenge()
  }

  // ---------------------------------------------------------------------------
  // evaluateCountryGuess
  // ---------------------------------------------------------------------------

  /** The evaluation used when no key is configured: case-insensitive
      equality of the raw strings, whitespace included. */
  function NoKeyEvaluation(playerGuess: string, secretCountry: string): (r: GuessEvaluation)
    ensures r.isCorrect <==> EqualIgnoringCase(playerGuess, secretCountry)
    ensures r.feedback == if r.isCorrect then "That's the one!" else "Not quite, try another guess!"
    ensures !r.isClose
  {
    LowerEqualIff(playerGuess, secretCountry);
    var correct := Lower(playerGuess) == Lower(secretCountry);
    GuessEvaluation(correct, if correct then "That's the one!" else "Not quite, try another guess!", false)
  }

  /** The evaluation used when the generator's reply is unusable:
      case-insensitive equality after trimming both sides; a miss quotes the
      raw guess back. */
  function MalformedEvaluation(playerGuess: string, secretCountry: string): (r: GuessEvaluation)
    ensures r.isCorrect <==> EqualIgnoringCase(Trim(playerGuess), Trim(secretCountry))
    ensures r.isCorrect ==> r.feedback == "Correct!"
    ensures !r.isCorrect ==> r.feedback == "Not quite. The answer isn't \"" + playerGuess + "\"."
    ensures !r.isClose
  {
    LowerEqualIff(Trim(playerGuess), Trim(secretCountry));
    var correct := Lower(Trim(playerGuess)) == Lower(Trim(secretCountry));
    GuessEvaluation(correct,
                    if correct then "Correct!" else "Not quite. The answer isn't \"" + playerGuess + "\".",
                    false)
  }

  /** The guard a generated evaluation must pass before it is used. */
  predicate EvaluationShapeOk(reply: Option<Json.Value>) {
    reply.Some? && Json.Truthy(reply.value) &&
    Json.IsBoolField(reply.value, "isCorrect") &&
    Json.IsStringField(reply.value, "feedback")
  }

  /** The guard accepts exactly the objects whose `isCorrect` member is a
      boolean and whose `feedback` member is a string. */
  lemma EvaluationShapeOkIff(reply: Option<Json.Value>)
    ensures EvaluationShapeOk(reply) <==>
      reply.Some? && reply.value.Object? &&
      var m := reply.value.fields;
      "isCorrect" in m && m["isCorrect"].Bool? && "feedback" in m && m["feedback"].Str?
  {
  }

  /** A well-shaped generated evaluation: `isCorrect` and `feedback` are
      copied, `isClose` only when it is a boolean. */
  function PassThroughEvaluation(v: Json.Value): (r: GuessEvaluation)
    requires EvaluationShapeOk(Some(v))
    ensures r.isCorrect == v.fields["isCorrect"].b
    ensures r.feedback == v.fields["feedback"].s
    ensures r.isClose <==> "isClose" in v.fields && v.fields["isClose"] == Json.Bool(true)
  {
    GuessEvaluation(Json.Get(v, "isCorrect").value.b,
                    Json.Get(v, "feedback").value.s,
                    if Json.IsBoolField(v, "isClose") then Json.Get(v, "isClose").value.b else false)
  }

  /** `evaluateCountryGuess`, given key availability and what `generateJson`
      returned. The regions only feed the prompt. A near-miss hint can only
      come from the generator. */
  function EvaluateCountryGuess(keyAvailable: bool, regions: seq<Json.Value>, secretCountry: string,
                                playerGuess: string, aiEvaluation: Option<Json.Value>): (r: GuessEvaluation)
    ensures !keyAvailable ==> r == NoKeyEvaluation(playerGuess, secretCountry)
    ensures keyAvailable && EvaluationShapeOk(aiEvaluation) ==> r == PassThroughEvaluation(aiEvaluation.value)
    ensures keyAvailable && !EvaluationShapeOk(aiEvaluation) ==> r == MalformedEvaluation(playerGuess, secretCountry)
    ensures r.isClose ==> keyAvailable && EvaluationShapeOk(aiEvaluation)
  {
    if !keyAvailable then NoKeyEvaluation(playerGuess, secretCountry)
    else if EvaluationShapeOk(aiEvaluation) then PassThroughEvaluation(aiEvaluation.value)
    else MalformedEvaluation(playerGuess, secretCountry)
  }

  /** Whatever the no-key fallback accepts, the malformed-reply fallback
      accepts too: trimming can only make more guesses match. */
  lemma NoKeyCorrectImpliesMalformedCorrect(playerGuess: string, secretCountry: string)
    ensures NoKeyEvaluation(playerGuess, secretCountry).isCorrect ==>
            MalformedEvaluation(playerGuess, secretCountry).isCorrect
  {
    if NoKeyEvaluation(playerGuess, secretCountry).isCorrect {
      LowerEqualIff(playerGuess, secretCountry);
      LowerTrimCommute(playerGuess);
      LowerTrimCommute(secretCountry);
      LowerEqualIff(Trim(playerGuess), Trim(secretCountry));
    }
  }

  // Facts about the example strings, one per lemma.

  lemma TrimExampleLeading()
    ensures Trim(" Nigeria") == "Nigeria"
  {
    assert LeadingSpaceCount(" Nigeria") == 1;
    assert " Nigeria"[1..] == "Nigeria";
    TrimOfTrimmed("Nigeria");
  }

  lemma LeadingSpaceExample()
    ensures LeadingSpaceCount(" nigeria ") == 1
  {
  }

  lemma TrailingSpaceExample()
    ensures TrailingSpaceStart("nigeria ") == 7
  {
  }

  lemma TrimExamplePadded()
    ensures Trim(" nigeria ") == "nigeria"
  {
    LeadingSpaceExample();
    TrailingSpaceExample();
    assert " nigeria "[1..] == "nigeria " && "nigeria "[..7] == "nigeria";
  }

  lemma TrimExamplesUnpadded()
    ensures Trim("Nigeria") == "Nigeria" && Trim("brazil") == "brazil"
  {
    TrimOfTrimmed("Nigeria");
    TrimOfTrimmed("brazil");
  }

  lemma CaseExamples()
    ensures EqualIgnoringCase("nigeria", "Nigeria") && EqualIgnoringCase("Nigeria", "Nigeria")
    ensures !EqualIgnoringCase("brazil", "Nigeria") && !EqualIgnoringCase(" Nigeria", "Nigeria")
  {
  }

  /** The converse fails: a guess padded with a space is rejected without a
      key but accepted after a malformed reply. */
  lemma FallbacksDisagreeOnPadding()
    ensures !NoKeyEvaluation(" Nigeria", "Nigeria").isCorrect
    ensures MalformedEvaluation(" Nigeria", "Nigeria").isCorrect
  {
    TrimExampleLeading();
    TrimExamplesUnpadded();
    CaseExamples();
  }

  /** Neither fallback builds a rejection from the secret country: two
      rejections of the same guess read the same whatever the country. */
  lemma FallbackRejectionHidesCountry(playerGuess: string, country1: string, country2: string)
    ensures var e1, e2 := NoKeyEvaluation(playerGuess, country1), NoKeyEvaluation(playerGuess, country2);
      !e1.isCorrect && !e2.isCorrect ==> e1.feedback == e2.feedback
    ensures var e1, e2 := MalformedEvaluation(playerGuess, country1), MalformedEvaluation(playerGuess, country2);
      !e1.isCorrect && !e2.isCorrect ==> e1.feedback == e2.feedback
  {
  }

  /** A right guess in another case passes the no-key fallback. */
  lemma NoKeyExample()
    ensures NoKeyEvaluation("nigeria", "Nigeria") == GuessEvaluation(true, "That's the one!", false)
  {
    CaseExamples();
  }

  /** After a malformed reply a different country is rejected and a padded,
      differently cased right answer is accepted. */
  lemma MalformedExample()
    ensures !MalformedEvaluation("brazil", "Nigeria").isCorrect
    ensures MalformedEvaluation(" nigeria ", "Nigeria").isCorrect
  {
    TrimExamplePadded();
    TrimExamplesUnpadded();
    CaseExamples();
  }

  // ---------------------------------------------------------------------------
  // getWinMessage
  // ---------------------------------------------------------------------------

  /** What follows the count in the default congratulation. */
  function WinTail(guessCount: nat, secretCountry: string): string {
    (if guessCount == 1 then " try" else " tries") + "! The country was: " + secretCountry + "."
  }

  /** The default congratulation: "try" for one guess, "tries" otherwise. */
  function WinTemplate(guessCount: nat, secretCountry: string): string {
    "You got it in " + NatToDecimal(guessCount) + WinTail(guessCount, secretCountry)
  }

  /** The template is singular exactly for a count of one. */
  lemma WinTemplateSingularIff(guessCount: nat, secretCountry: string)
    ensures WinTemplate(guessCount, secretCountry) ==
              "You got it in " + NatToDecimal(guessCount) + (" try! The country was: " + secretCountry + ".")
            <==> guessCount == 1
  {
    var p := "You got it in " + NatToDecimal(guessCount);
    var singular := " try! The country was: " + secretCountry + ".";
    if guessCount == 1 {
      WinTailSingular(secretCountry);
    } else if WinTemplate(guessCount, secretCountry) == p + singular {
      CancelPrefix(p, WinTail(guessCount, secretCountry), singular);
    }
  }

  lemma WinTailSingular(secretCountry: string)
    ensures WinTail(1, secretCountry) == " try! The country was: " + secretCountry + "."
  {
    assert " try" + "! The country was: " == " try! The country was: ";
  }

  lemma ConcatAssoc(a: string, b: string, c: string)
    ensures (a + b) + c == a + (b + c)
  {
  }

  lemma CancelPrefix(p: string, x: string, y: string)
    requires p + x == p + y
    ensures x == y
  {
    assert x == (p + x)[|p|..];
    assert y == (p + y)[|p|..];
  }

  lemma CancelAffixes(p: string, x: string, y: string, q: string)
    requires p + x + q == p + y + q
    ensures x == y
  {
    assert p + x == (p + x + q)[..|p + x|];
    assert p + y == (p + y + q)[..|p + y|];
    CancelPrefix(p, x, y);
  }

  /** The template determines both the count and the country. */
  lemma WinTemplateInjective(n: nat, c: string, m: nat, d: string)
    requires WinTemplate(n, c) == WinTemplate(m, d)
    ensures n == m && c == d
  {
    var p := "You got it in ";
    ConcatAssoc(p, NatToDecimal(n), WinTail(n, c));
    ConcatAssoc(p, NatToDecimal(m), WinTail(m, d));
    CancelPrefix(p, NatToDecimal(n) + WinTail(n, c), NatToDecimal(m) + WinTail(m, d));
    assert WinTail(n, c)[0] == ' ' && WinTail(m, d)[0] == ' ';
    DigitsPrefixUnique(NatToDecimal(n), WinTail(n, c), NatToDecimal(m), WinTail(m, d));
    NatToDecimalInjective(n, m);
    var word := (if n == 1 then " try" else " tries") + "! The country was: ";
    assert WinTail(n, c) == word + c + "." && WinTail(n, d) == word + d + ".";
    CancelAffixes(word, c, d, ".");
  }

  /** `getWinMessage`, given key availability and what `generateText`
      returned: the generated text when it is a non-empty string, the
      template otherwise. Never empty. */
  function GetWinMessage(keyAvailable: bool, guessCount: nat, secretCountry: string,
                         aiMessage: Option<string>): (r: string)
    ensures r != ""
    ensures !keyAvailable || aiMessage.None? || aiMessage.value == "" ==> r == WinTemplate(guessCount, secretCountry)
    ensures keyAvailable && aiMessage.Some? && aiMessage.value != "" ==> r == aiMessage.value
  {
    var defaultMessage := WinTemplate(guessCount, secretCountry);
    if !keyAvailable then defaultMessage
    else if aiMessage.Some? && aiMessage.value != "" then aiMessage.value
    else defaultMessage
  }
}
