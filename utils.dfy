/**
 * The helpers of claude_chat/utils.py: trimming a message list to a token
 * budget, and turning an upstream error into the text shown to the user.
 * The tokenizer (`estimate_tokens`, backed by tiktoken) is a parameter.
 */
module Utils {
  import opened Strings

  /** One entry of the list sent to the model: `{'role': ..., 'content': ...}`. */
  datatype ApiMessage = ApiMessage(role: string, content: string)

  /** The sum of `estimate(content)` over the messages. */
  function TokenTotal(ms: seq<ApiMessage>, estimate: string -> nat): nat
    decreases |ms|
  {
    if ms == [] then 0 else estimate(ms[0].content) + TokenTotal(ms[1..], estimate)
  }

  /** A longer suffix never costs fewer tokens. */
  lemma {:induction false} SuffixTotalMonotone(ms: seq<ApiMessage>, i: nat, j: nat, estimate: string -> nat)
    requires i <= j <= |ms|
    ensures TokenTotal(ms[i..], estimate) >= TokenTotal(ms[j..], estimate)
    decreases j - i
  {
    if i < j {
      assert ms[i..][1..] == ms[i + 1..];
      SuffixTotalMonotone(ms, i + 1, j, estimate);
    }
  }

  /** The newest `k` messages fit the budget (an empty selection always does). */
  ghost predicate FitsBudget(ms: seq<ApiMessage>, maxTokens: int, estimate: string -> nat, k: nat) {
    k <= |ms| && (k > 0 ==> TokenTotal(ms[|ms| - k..], estimate) <= maxTokens)
  }

  /** Adding the next older message to the newest `k` would exceed the budget. */
  ghost predicate CannotGrow(ms: seq<ApiMessage>, maxTokens: int, estimate: string -> nat, k: nat) {
    k <= |ms| && (k < |ms| ==> TokenTotal(ms[|ms| - k..], estimate) + estimate(ms[|ms| - k - 1].content) > maxTokens)
  }

  /** truncate_messages_to_token_limit: walk from the newest message back, keeping
      messages while the running total stays within `maxTokens`, and stop at the
      first one that does not fit. */
  method TruncateToTokenLimit(messages: seq<ApiMessage>, maxTokens: int, estimate: string -> nat)
    returns (kept: seq<ApiMessage>)
    ensures |kept| <= |messages| && kept == messages[|messages| - |kept|..]
    ensures FitsBudget(messages, maxTokens, estimate, |kept|)
    ensures CannotGrow(messages, maxTokens, estimate, |kept|)
    ensures messages != [] && estimate(messages[|messages| - 1].content) > maxTokens ==> kept == []
  {
    var total := 0;
    kept := [];
    var i := |messages|;
    while i > 0
      invariant 0 <= i <= |messages|
      invariant kept == messages[i..]
      invariant total == TokenTotal(kept, estimate)
      invariant kept != [] ==> total <= maxTokens
      invariant i < |messages| ==> estimate(messages[|messages| - 1].content) <= maxTokens
    {
      var t := estimate(messages[i - 1].content);
      if total + t > maxTokens {
        break;
      }
      assert ([messages[i - 1]] + kept)[1..] == kept;
      kept := [messages[i - 1]] + kept;
      total := total + t;
      i := i - 1;
    }
  }

  /** Once the newest `k` messages cannot grow, every longer suffix is over budget. */
  lemma LongerSuffixOverBudget(ms: seq<ApiMessage>, maxTokens: int, estimate: string -> nat, k: nat, k2: nat)
    requires CannotGrow(ms, maxTokens, estimate, k)
    requires k < k2 <= |ms|
    ensures TokenTotal(ms[|ms| - k2..], estimate) > maxTokens
  {
    var n := |ms|;
    assert ms[n - k - 1..][1..] == ms[n - k..];
    SuffixTotalMonotone(ms, n - k2, n - k - 1, estimate);
  }

  /** The two conditions promised by TruncateToTokenLimit determine how many
      messages are kept. */
  lemma TruncationIsUnique(ms: seq<ApiMessage>, maxTokens: int, estimate: string -> nat, k1: nat, k2: nat)
    requires FitsBudget(ms, maxTokens, estimate, k1) && CannotGrow(ms, maxTokens, estimate, k1)
    requires FitsBudget(ms, maxTokens, estimate, k2) && CannotGrow(ms, maxTokens, estimate, k2)
    ensures k1 == k2
  {
    if k1 < k2 {
      LongerSuffixOverBudget(ms, maxTokens, estimate, k1, k2);
    } else if k2 < k1 {
      LongerSuffixOverBudget(ms, maxTokens, estimate, k2, k1);
    }
  }

  const RateLimitMessage: string := "Rate limit exceeded. " + "Please wait a moment and try again."
  const ConversationTooLongMessage: string := "The conversation is too long. " + "Please start a new one."
  const GenericErrorPrefix: string := "An error occurred: "

  /** format_error_message, given `str(error)`: a rate limit takes precedence over
      an exceeded context length; anything else is reported verbatim. */
  function FormatErrorMessage(error: string): (r: string)
    ensures r == RateLimitMessage <==> Contains(Lower(error), "rate limit")
    ensures r == ConversationTooLongMessage <==>
      !Contains(Lower(error), "rate limit") && Contains(Lower(error), "maximum context length")
    ensures r != RateLimitMessage && r != ConversationTooLongMessage ==> r == GenericErrorPrefix + error
  {
    if Contains(Lower(error), "rate limit") then RateLimitMessage
    else if Contains(Lower(error), "maximum context length") then ConversationTooLongMessage
    else
      assert GenericErrorPrefix[0] == 'A' && RateLimitMessage[0] == 'R' && ConversationTooLongMessage[0] == 'T';
      assert (GenericErrorPrefix + error)[0] == 'A';
      GenericErrorPrefix + error
  }

  /** The check ignores case: an error text in capitals is classified as a rate limit. */
  lemma RateLimitIgnoresCase()
    ensures FormatErrorMessage("429: RATE LIMIT reached") == RateLimitMessage
  {
    var e := "429: RATE LIMIT reached";
    assert OccursAt(Lower(e), "rate limit", 5);
  }
}
