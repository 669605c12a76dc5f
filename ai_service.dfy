/** The reply-shaping half of the AI service: the model router, the prompt, the removal
    of Markdown code fences around the model's reply, and the outcome contract of
    `callAI`. The HTTP POST and `JSON.parse` are parameters. */
module AiService {
  import opened Wrappers
  import opened Strings

  /** The router's only configured entry; the medium, coder and long entries are disabled. */
  const LightModel := "mistralai/mistral-7b-instruct:free"

  /** The `code` field of the request body: a string, or anything else (absent, a number,
      an array, ...), none of which has a `split` method. */
  datatype CodeArg = Text(code: string) | NotText

  /** How a JavaScript promise settles: with a value, or rejected with an error. */
  datatype JsError = TypeError | Error(message: string)
  datatype Settled<T> = Resolved(value: T) | Rejected(reason: JsError)

  /** `code.split('\n').length`. */
  function LineCount(code: string): (n: nat)
    ensures n >= 1
  {
    |Split(code, '\n')|
  }

  /** The line count is the number of newline characters plus one. */
  lemma LineCountIsNewlinesPlusOne(code: string)
    ensures LineCount(code) == Occurrences(code, '\n') + 1
  {
    SplitLength(code, '\n');
  }

  /** `chooseModel(code)`: the line count is computed, but with the threshold branches
      disabled every string is routed to the light model. A non-string has no `split`, so
      the call throws. */
  function ChooseModel(code: CodeArg): (r: Result<string, JsError>)
    ensures r.Success? <==> code.Text?
    ensures r.Failure? ==> r.error == TypeError
  {
    match code
    case NotText => Failure(TypeError)
    case Text(s) =>
      var lineCount := LineCount(s);
      Success(LightModel)
  }

  /** Routing ignores size: any two source texts get the same model, the light one. */
  lemma RouterIgnoresSize(a: string, b: string)
    ensures ChooseModel(Text(a)) == ChooseModel(Text(b)) == Success(LightModel)
  {
  }

  /** The prompt sent with the source embedded between the instruction and the format. */
  function Prompt(code: string): (p: string)
  {
    PromptIntro + code + PromptFormat
  }

  const PromptIntro := "Audit the following Solidity contract and return a list of vulnerabilities with severity and line number:\n\n"
  const PromptFormat := "\n                    Respond ONLY with valid JSON in this format:\n                    [\n                        {\n                            \"severity\": \"critical | high | medium | low\",\n                            \"line\": number,\n                            \"issue\": \"Brief summary\",\n                            \"recommendation\": \"Mitigation steps\"\n                        }\n                    ]\n"

  /** The source text reaches the model verbatim. */
  lemma PromptCarriesCode(code: string)
    ensures IsInfix(code, Prompt(code))
  {
    InfixOfConcatenation(PromptIntro, code, PromptFormat);
  }

  const JsonFence := "```json"
  const Fence := "```"

  /** `s.replace(/^p/, '')` for a literal `p`: remove `p` once, only at the very start. */
  function StripLeading(s: string, p: string): (r: string)
    ensures StartsWith(s, p) ==> s == p + r
    ensures !StartsWith(s, p) ==> r == s
    ensures |r| <= |s| && r == s[|s| - |r|..]
  {
    if StartsWith(s, p) then s[|p|..] else s
  }

  /** `s.replace(/p$/, '')` for a literal `p`: without the `m` flag `$` matches only at the
      end of the input, so `p` is removed once, only when it is the very last thing. */
  function StripTrailing(s: string, p: string): (r: string)
    ensures EndsWith(s, p) ==> s == r + p
    ensures !EndsWith(s, p) ==> r == s
    ensures |r| <= |s| && r == s[..|r|]
  {
    if EndsWith(s, p) then s[..|s| - |p|] else s
  }

  /** The cleaning chain applied to the model's reply before parsing. */
  function CleanReply(raw: string): (cleaned: string)
    ensures Trimmed(cleaned)
    ensures |cleaned| <= |raw|
  {
    Trim(StripTrailing(StripLeading(StripLeading(raw, JsonFence), Fence), Fence))
  }

  /** Removing two prefixes and a suffix leaves an infix of the input. */
  lemma StripsAreInfix(raw: string, p: string, q: string, r: string)
    ensures var b := StripLeading(StripLeading(raw, p), q);
            InfixAt(StripTrailing(b, r), raw, |raw| - |b|)
  {
    var b := StripLeading(StripLeading(raw, p), q);
    TwoStripsAreSuffix(raw, p, q);
    StripTrailingIsPrefix(b, r);
    InfixAtTransitive(StripTrailing(b, r), b, raw, 0, |raw| - |b|);
    assert |raw| - |b| + 0 == |raw| - |b|;
  }

  lemma TwoStripsAreSuffix(raw: string, p: string, q: string)
    ensures var b := StripLeading(StripLeading(raw, p), q);
            InfixAt(b, raw, |raw| - |b|)
  {
    var a := StripLeading(raw, p);
    var b := StripLeading(a, q);
    StripLeadingIsSuffix(raw, p);
    StripLeadingIsSuffix(a, q);
    InfixAtTransitive(b, a, raw, |a| - |b|, |raw| - |a|);
    assert |raw| - |a| + (|a| - |b|) == |raw| - |b|;
  }

  lemma StripLeadingIsSuffix(s: string, p: string)
    ensures InfixAt(StripLeading(s, p), s, |s| - |StripLeading(s, p)|)
  {
  }

  lemma StripTrailingIsPrefix(s: string, p: string)
    ensures InfixAt(StripTrailing(s, p), s, 0)
  {
  }

  /** Cleaning only ever cuts characters off the two ends of the reply. */
  lemma CleanReplyIsInfix(raw: string)
    ensures IsInfix(CleanReply(raw), raw)
  {
    var b := StripLeading(StripLeading(raw, JsonFence), Fence);
    var c := StripTrailing(b, Fence);
    StripsAreInfix(raw, JsonFence, Fence, Fence);
    TrimIsInfix(c);
    InfixAtTransitive(Trim(c), c, raw, |c| - |TrimStart(c)|, |raw| - |b|);
  }

  /** A reply with no fence at either end is only trimmed. */
  lemma CleanUnfenced(raw: string)
    requires !StartsWith(raw, Fence) && !EndsWith(raw, Fence)
    ensures CleanReply(raw) == Trim(raw)
  {
    assert !StartsWith(raw, JsonFence);
  }

  lemma TrimSurroundingNewlines(body: string)
    requires Trimmed(body)
    ensures Trim("\n" + body + "\n") == body
  {
    var s := "\n" + body + "\n";
    assert s[..1] == "\n" && s[|s| - 1..] == "\n" && s[1..|s| - 1] == body;
    TrimUnique(s, 1, |s| - 1);
  }

  lemma StripLeadingOfPrefixed(p: string, rest: string)
    ensures StripLeading(p + rest, p) == rest
  {
    assert (p + rest)[..|p|] == p;
  }

  lemma StripTrailingOfSuffixed(rest: string, p: string)
    ensures StripTrailing(rest + p, p) == rest
  {
    assert (rest + p)[|rest|..] == p;
  }

  /** A string that starts with a newline starts with neither fence. */
  lemma NewlineFirstHasNoFence(s: string)
    requires |s| > 0 && s[0] == '\n'
    ensures !StartsWith(s, Fence) && !StartsWith(s, JsonFence)
  {
  }

  /** A payload fenced as ```json on its own line and closed by ``` at the very end comes
      back exactly. */
  lemma CleanJsonFenced(body: string)
    requires Trimmed(body)
    ensures CleanReply(JsonFence + "\n" + body + "\n" + Fence) == body
  {
    var inner := "\n" + body + "\n";
    assert JsonFence + "\n" + body + "\n" + Fence == JsonFence + (inner + Fence);
    StripLeadingOfPrefixed(JsonFence, inner + Fence);
    NewlineFirstHasNoFence(inner + Fence);
    StripTrailingOfSuffixed(inner, Fence);
    TrimSurroundingNewlines(body);
  }

  /** The same holds for a payload fenced by a bare ```. */
  lemma CleanPlainFenced(body: string)
    requires Trimmed(body)
    ensures CleanReply(Fence + "\n" + body + "\n" + Fence) == body
  {
    var inner := "\n" + body + "\n";
    var plain := Fence + "\n" + body + "\n" + Fence;
    assert plain == Fence + (inner + Fence);
    assert !StartsWith(plain, JsonFence) by {
      assert plain[3] == '\n';
    }
    StripLeadingOfPrefixed(Fence, inner + Fence);
    NewlineFirstHasNoFence(inner + Fence);
    StripTrailingOfSuffixed(inner, Fence);
    TrimSurroundingNewlines(body);
  }

  /** A string that ends with a newline does not end with a fence. */
  lemma NewlineLastHasNoFence(s: string)
    requires |s| > 0 && s[|s| - 1] == '\n'
    ensures StripTrailing(s, Fence) == s
  {
  }

  lemma KeptFenceIsTrimmed(body: string)
    requires Trimmed(body) && body != []
    ensures Trimmed(body + "\n" + Fence)
  {
    var kept := body + "\n" + Fence;
    assert kept[0] == body[0];
    assert kept[|kept| - 1] == '`';
  }

  /** Because `trim` runs last, a closing fence followed by a newline is not removed: it
      stays in what is handed to `JSON.parse`. */
  lemma CleanKeepsFenceBeforeNewline(body: string)
    requires Trimmed(body) && body != []
    ensures CleanReply(JsonFence + "\n" + body + "\n" + Fence + "\n") == body + "\n" + Fence
  {
    var kept := body + "\n" + Fence;
    var rest := "\n" + kept + "\n";
    assert JsonFence + "\n" + body + "\n" + Fence + "\n" == JsonFence + rest;
    StripLeadingOfPrefixed(JsonFence, rest);
    NewlineFirstHasNoFence(rest);
    NewlineLastHasNoFence(rest);
    KeptFenceIsTrimmed(body);
    TrimSurroundingNewlines(kept);
  }

  lemma TrimmedAfterJson(x: string)
    requires Trimmed(x)
    ensures Trim("json" + x) == "json" + x
  {
    var s := "json" + x;
    assert s[..0] == [] && s[|s|..] == [];
    assert s[0] == 'j';
    assert x != [] ==> s[|s| - 1] == x[|x| - 1];
    TrimUnique(s, 0, |s|);
  }

  /** The ```json prefix is removed at most once: a doubled prefix leaves "json" behind,
      since the second pass only removes three backticks. */
  lemma CleanStripsJsonFenceOnce(x: string)
    requires Trimmed(x) && !EndsWith("json" + x, Fence)
    ensures CleanReply(JsonFence + JsonFence + x) == "json" + x
  {
    assert JsonFence + JsonFence + x == JsonFence + (JsonFence + x);
    StripLeadingOfPrefixed(JsonFence, JsonFence + x);
    assert JsonFence + x == Fence + ("json" + x);
    StripLeadingOfPrefixed(Fence, "json" + x);
    TrimmedAfterJson(x);
  }

  /** What the POST to the chat-completions endpoint yields, read as
      `res.data.choices[0].message.content`. */
  datatype ChatResponse =
    | RequestFailed(message: string)   // axios rejected: network failure or an error status
    | NoContent(message: string)       // the field path is missing or not a string: a TypeError with this message
    | Content(text: string)

  /** The object `callAI` resolves with: exactly one of `{result}`, `{error, raw}`, `{error}`. */
  datatype AiReply<J> =
    | Parsed(result: J)
    | Unparsable(error: string, raw: string)
    | Failed(error: string)

  const InvalidFormat := "Invalid AI response format"

  /** `callAI(code)`. `post(model, prompt)` is the HTTP call and `parse` is `JSON.parse`
      (`None` when it throws). */
  method CallAI<J>(code: CodeArg, post: (string, string) -> ChatResponse, parse: string -> Option<J>)
    returns (outcome: Settled<AiReply<J>>)
    ensures outcome.Rejected? <==> code.NotText?
    ensures outcome.Rejected? ==> outcome.reason == TypeError
    ensures code.Text? ==>
      var response := post(LightModel, Prompt(code.code));
      && (response.RequestFailed? ==> outcome == Resolved(Failed(response.message)))
      && (response.NoContent? ==> outcome == Resolved(Failed(response.message)))
      && (response.Content? ==>
            var cleaned := CleanReply(response.text);
            outcome == Resolved(if parse(cleaned).Some? then Parsed(parse(cleaned).value)
                                else Unparsable(InvalidFormat, cleaned)))
  {
    var model := ChooseModel(code);
    if model.Failure? {
      return Rejected(model.error);
    }
    var prompt := Prompt(code.code);
    var response := post(model.value, prompt);
    match response {
      case RequestFailed(message) =>
        outcome := Resolved(Failed(message));
      case NoContent(message) =>
        outcome := Resolved(Failed(message));
      case Content(text) =>
        var raw := text;
        raw := CleanReply(raw);
        var result := parse(raw);
        if result.None? {
          return Resolved(Unparsable(InvalidFormat, raw));
        }
        outcome := Resolved(Parsed(result.value));
    }
  }
}
