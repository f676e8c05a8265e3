/** The chat transcript of the assistant client (transcript/index.ts): the
    list of interactions, and the prompt built from it, which keeps the
    newest human/assistant message pairs that fit a token budget. The
    interactions themselves are a class of their own, outside this model:
    whether one has context and which messages it contributes are
    parameters. */
module Transcripts {
  import opened Wrappers
  import opened Strings

  datatype Speaker = Human | Assistant

  /** A message of the prompt. */
  datatype Message = Message(speaker: Speaker, text: string)

  /** An interaction, as far as the transcript looks into it: whether it has
      context, and the assistant message set on it. */
  datatype Interaction = Interaction(id: nat, hasContext: bool, assistantMessage: Option<Message>)

  /** Whole division of `n` by `d`, by repeated subtraction. */
  function Quotient(n: nat, d: nat): nat
    requires d > 0
    decreases n
  {
    if n < d then 0 else 1 + Quotient(n - d, d)
  }

  /** `Quotient` is the floor of `n / d`. */
  lemma {:induction false} QuotientBounds(n: nat, d: nat)
    requires d > 0
    ensures d * Quotient(n, d) <= n < d * (Quotient(n, d) + 1)
    decreases n
  {
    if n >= d {
      QuotientBounds(n - d, d);
      assert d * Quotient(n, d) == d * Quotient(n - d, d) + d;
    }
  }

  /** `estimateTokensUsage`: the JavaScript length of the text (UTF-16 code
      units) divided by the characters per token, rounded half up as
      `Math.round` rounds positive numbers. */
  function EstimateTokens(m: Message, charsPerToken: nat): nat
    requires charsPerToken > 0
  {
    Quotient(2 * Utf16Length(m.text) + charsPerToken, 2 * charsPerToken)
  }

  /** The estimate is the nearest whole number of tokens, halves rounded
      up: `r - 1/2 <= length / charsPerToken < r + 1/2`. */
  lemma EstimateIsRounded(m: Message, charsPerToken: nat)
    requires charsPerToken > 0
    ensures var r := EstimateTokens(m, charsPerToken);
      2 * charsPerToken * r <= 2 * Utf16Length(m.text) + charsPerToken < 2 * charsPerToken * (r + 1)
  {
    QuotientBounds(2 * Utf16Length(m.text) + charsPerToken, 2 * charsPerToken);
  }

  /** A character beyond U+FFFF counts twice, as a surrogate pair does in
      JavaScript: with one character per token it is estimated as two. */
  lemma SurrogatePairCountsTwice(role: Speaker)
    ensures Utf16Length("\U{1F600}") == 2 && |"\U{1F600}"| == 1
    ensures EstimateTokens(Message(role, "\U{1F600}"), 1) == 2
  {
    assert "\U{1F600}"[..0] == [];
    QuotientBounds(2 * 2 + 1, 2);
  }

  /** The estimator `toPrompt` hands to `truncatePrompt`. */
  function Estimator(charsPerToken: nat): Message -> nat
    requires charsPerToken > 0
  {
    m => EstimateTokens(m, charsPerToken)
  }

  /** The estimated tokens of a list of messages. */
  function Tokens(msgs: seq<Message>, est: Message -> nat): nat
    decreases |msgs|
  {
    if msgs == [] then 0 else Tokens(msgs[..|msgs| - 1], est) + est(msgs[|msgs| - 1])
  }

  /** The estimate of the pair ending at index `i`. */
  function PairTokens(msgs: seq<Message>, i: nat, est: Message -> nat): nat
    requires 1 <= i < |msgs|
  {
    est(msgs[i - 1]) + est(msgs[i])
  }

  /** `truncatePrompt`: working back from the newest message, pairs are kept
      while they fit what is left of the budget; the first pair that does
      not fit ends the truncation. The result is in chronological order.
      The estimate of a message is a parameter, so that the properties
      below hold for any estimator. */
  function Truncated(msgs: seq<Message>, budget: int, est: Message -> nat): seq<Message>
    decreases |msgs|
  {
    if |msgs| < 2 then []
    else
      var cost := PairTokens(msgs, |msgs| - 1, est);
      if cost <= budget then Truncated(msgs[..|msgs| - 2], budget - cost, est) + msgs[|msgs| - 2..]
      else []
  }

  /** A sequence backwards. */
  function Reverse<T>(s: seq<T>): (r: seq<T>)
    ensures |r| == |s| && forall i :: 0 <= i < |s| ==> r[i] == s[|s| - 1 - i]
    decreases |s|
  {
    if s == [] then [] else [s[|s| - 1]] + Reverse(s[..|s| - 1])
  }

  /** `truncatePrompt` as the source computes it: the kept messages are
      collected newest first, then reversed. */
  method TruncatePrompt(messages: seq<Message>, maxTokens: int, charsPerToken: nat) returns (r: seq<Message>)
    requires charsPerToken > 0
    ensures r == Truncated(messages, maxTokens, Estimator(charsPerToken))
  {
    ghost var est := Estimator(charsPerToken);
    var newPromptMessages := [];
    var availablePromptTokensBudget := maxTokens;
    var i := |messages| - 1;
    assert messages[..i + 1] == messages && messages[i + 1..] == [];
    while i >= 1
      invariant -1 <= i < |messages| || (messages == [] && i == -1)
      invariant Reverse(newPromptMessages) == messages[i + 1..]
      invariant Truncated(messages, maxTokens, est)
        == Truncated(messages[..i + 1], availablePromptTokensBudget, est) + messages[i + 1..]
      decreases i
    {
      var humanMessage := messages[i - 1];
      var botMessage := messages[i];
      var combinedTokensUsage := EstimateTokens(humanMessage, charsPerToken) + EstimateTokens(botMessage, charsPerToken);
      assert PairTokens(messages, i, est) == combinedTokensUsage;
      if combinedTokensUsage <= availablePromptTokensBudget {
        KeepPair(messages, i, availablePromptTokensBudget, est, newPromptMessages);
        newPromptMessages := newPromptMessages + [botMessage, humanMessage];
        availablePromptTokensBudget := availablePromptTokensBudget - combinedTokensUsage;
        i := i - 2;
      } else {
        assert messages[..i + 1][..i - 1] == messages[..i - 1];
        break;
      }
    }
    r := Reverse(newPromptMessages);
  }

  /** One kept pair of `TruncatePrompt`: the pair ending at index `i` joins
      the kept messages, and the budget left pays for it. */
  lemma KeepPair(messages: seq<Message>, i: int, budget: int, est: Message -> nat, kept: seq<Message>)
    requires 1 <= i < |messages|
    requires Reverse(kept) == messages[i + 1..]
    requires PairTokens(messages, i, est) <= budget
    ensures Reverse(kept + [messages[i], messages[i - 1]]) == messages[i - 1..]
    ensures Truncated(messages[..i + 1], budget, est) + messages[i + 1..]
      == Truncated(messages[..i - 1], budget - PairTokens(messages, i, est), est) + messages[i - 1..]
  {
    var prefix := messages[..i + 1];
    ReverseSnocPair(kept, messages[i], messages[i - 1]);
    assert prefix[..|prefix| - 2] == messages[..i - 1];
    assert prefix[|prefix| - 2..] == [messages[i - 1], messages[i]];
    assert PairTokens(prefix, |prefix| - 1, est) == PairTokens(messages, i, est);
    assert messages[i - 1..] == [messages[i - 1], messages[i]] + messages[i + 1..];
  }

  lemma ReverseSnocPair<T>(s: seq<T>, a: T, b: T)
    ensures Reverse(s + [a, b]) == [b, a] + Reverse(s)
  {
    var l := Reverse(s + [a, b]);
    var m := [b, a] + Reverse(s);
    assert |l| == |m|;
    forall i | 0 <= i < |l| ensures l[i] == m[i] {
      if i >= 2 { assert (s + [a, b])[|s| + 1 - i] == s[|s| + 1 - i]; }
    }
  }

  /** A suffix of all but the last two elements, followed by those two, is
      a suffix of the whole. */
  lemma SuffixExtend<T>(s: seq<T>, init: seq<T>, t: seq<T>)
    requires |s| >= 2 && init == s[..|s| - 2]
    requires |t| <= |init| && t == init[|init| - |t|..]
    ensures t + s[|s| - 2..] == s[|s| - 2 - |t|..]
  {
    var l := t + s[|s| - 2..];
    var m := s[|s| - 2 - |t|..];
    assert |l| == |m|;
    forall i | 0 <= i < |l| ensures l[i] == m[i] {
      if i < |t| { assert t[i] == init[|init| - |t| + i]; }
    }
  }

  /** One kept pair of `Truncated`, as an equation. */
  lemma TruncatedKeeps(msgs: seq<Message>, budget: int, est: Message -> nat)
    requires |msgs| >= 2 && PairTokens(msgs, |msgs| - 1, est) <= budget
    ensures Truncated(msgs, budget, est)
      == Truncated(msgs[..|msgs| - 2], budget - PairTokens(msgs, |msgs| - 1, est), est) + msgs[|msgs| - 2..]
  {
  }

  /** The truncation stops at a lone message or at a pair over budget. */
  lemma TruncatedStops(msgs: seq<Message>, budget: int, est: Message -> nat)
    requires |msgs| < 2 || PairTokens(msgs, |msgs| - 1, est) > budget
    ensures Truncated(msgs, budget, est) == []
  {
  }

  /** The kept messages are the newest ones: a suffix of the input. */
  lemma {:induction false} TruncatedIsSuffix(msgs: seq<Message>, budget: int, est: Message -> nat)
    ensures var r := Truncated(msgs, budget, est);
      |r| <= |msgs| && r == msgs[|msgs| - |r|..]
    decreases |msgs|
  {
    if |msgs| >= 2 && PairTokens(msgs, |msgs| - 1, est) <= budget {
      var cost := PairTokens(msgs, |msgs| - 1, est);
      var init := msgs[..|msgs| - 2];
      var t := Truncated(init, budget - cost, est);
      TruncatedIsSuffix(init, budget - cost, est);
      TruncatedKeeps(msgs, budget, est);
      SuffixExtend(msgs, init, t);
      var r := Truncated(msgs, budget, est);
      assert r == t + msgs[|msgs| - 2..];
      assert |r| == |t| + 2;
    } else {
      TruncatedStops(msgs, budget, est);
    }
  }

  /** Messages are kept in whole pairs, so with an odd number of messages
      the oldest one is never kept. */
  lemma {:induction false} TruncatedIsEven(msgs: seq<Message>, budget: int, est: Message -> nat)
    ensures |Truncated(msgs, budget, est)| % 2 == 0
    decreases |msgs|
  {
    if |msgs| >= 2 && PairTokens(msgs, |msgs| - 1, est) <= budget {
      var cost := PairTokens(msgs, |msgs| - 1, est);
      TruncatedIsEven(msgs[..|msgs| - 2], budget - cost, est);
      TruncatedKeeps(msgs, budget, est);
    } else {
      TruncatedStops(msgs, budget, est);
    }
  }

  lemma {:induction false} TokensAppend(a: seq<Message>, b: seq<Message>, est: Message -> nat)
    ensures Tokens(a + b, est) == Tokens(a, est) + Tokens(b, est)
    decreases |b|
  {
    if b == [] {
      assert a + b == a;
    } else {
      assert (a + b)[..|a + b| - 1] == a + b[..|b| - 1];
      TokensAppend(a, b[..|b| - 1], est);
    }
  }

  /** The kept messages fit the budget. */
  lemma {:induction false} TruncatedWithinBudget(msgs: seq<Message>, budget: int, est: Message -> nat)
    ensures var r := Truncated(msgs, budget, est);
      r == [] || Tokens(r, est) <= budget
    ensures budget >= 0 ==> Tokens(Truncated(msgs, budget, est), est) <= budget
    decreases |msgs|
  {
    if |msgs| >= 2 {
      var cost := PairTokens(msgs, |msgs| - 1, est);
      if cost <= budget {
        var init := msgs[..|msgs| - 2];
        TruncatedWithinBudget(init, budget - cost, est);
        var t := Truncated(init, budget - cost, est);
        var pair := msgs[|msgs| - 2..];
        TokensAppend(t, pair, est);
        assert pair[..1] == [msgs[|msgs| - 2]] && [msgs[|msgs| - 2]][..0] == [];
        assert Tokens([msgs[|msgs| - 2]], est) == est(msgs[|msgs| - 2]);
        assert Tokens(pair, est) == cost;
        if t == [] {
          assert t + pair == pair;
        }
      }
    }
  }

  /** The truncation stops only at the first pair that does not fit what is
      left of the budget. */
  lemma {:induction false} TruncatedIsMaximal(msgs: seq<Message>, budget: int, est: Message -> nat)
    ensures var r := Truncated(msgs, budget, est);
      |r| + 2 <= |msgs| ==> PairTokens(msgs, |msgs| - |r| - 1, est) > budget - Tokens(r, est)
    decreases |msgs|
  {
    if |msgs| >= 2 && PairTokens(msgs, |msgs| - 1, est) <= budget {
      var cost := PairTokens(msgs, |msgs| - 1, est);
      var init := msgs[..|msgs| - 2];
      var t := Truncated(init, budget - cost, est);
      var pair := msgs[|msgs| - 2..];
      TruncatedIsMaximal(init, budget - cost, est);
      TruncatedKeeps(msgs, budget, est);
      TokensAppend(t, pair, est);
      assert pair[..1] == [msgs[|msgs| - 2]] && [msgs[|msgs| - 2]][..0] == [];
      if |t| + 2 <= |init| {
        assert init[|init| - |t| - 2] == msgs[|msgs| - |t| - 4] && init[|init| - |t| - 1] == msgs[|msgs| - |t| - 3];
      }
    }
  }

  /** The last element of a list, if any. */
  function Last(s: seq<Interaction>): (r: Option<Interaction>)
    ensures r.Some? <==> s != []
    ensures r.Some? ==> r.value == s[|s| - 1]
  {
    if s == [] then None else Some(s[|s| - 1])
  }

  /** The list with `m` set as the assistant message of its last
      interaction; an empty list stays empty. */
  function WithAssistantMessage(s: seq<Interaction>, m: Message): (r: seq<Interaction>)
    ensures |r| == |s|
    ensures s == [] ==> r == s
    ensures s != [] ==> r[..|s| - 1] == s[..|s| - 1] && r[|s| - 1] == s[|s| - 1].(assistantMessage := Some(m))
  {
    if s == [] then s else s[..|s| - 1] + [s[|s| - 1].(assistantMessage := Some(m))]
  }

  /** The messages of every interaction in turn, context included only for
      the interaction at `withContext`. */
  function PromptMessages(s: seq<Interaction>, withContext: int,
                          interactionPrompt: (Interaction, bool) -> seq<Message>): seq<Message>
    decreases |s|
  {
    if s == [] then []
    else PromptMessages(s[..|s| - 1], withContext, interactionPrompt)
         + interactionPrompt(s[|s| - 1], |s| - 1 == withContext)
  }

  /** `index` is the newest interaction of `s` with context, or -1 when
      none has context. */
  predicate NewestWithContext(s: seq<Interaction>, index: int) {
    -1 <= index < |s|
    && (index == -1 <==> forall j :: 0 <= j < |s| ==> !s[j].hasContext)
    && (index >= 0 ==> s[index].hasContext && forall j :: index < j < |s| ==> !s[j].hasContext)
  }

  /** At most one index is the newest with context. */
  lemma NewestWithContextUnique(s: seq<Interaction>, i: int, j: int)
    requires NewestWithContext(s, i) && NewestWithContext(s, j)
    ensures i == j
  {
  }

  class Transcript {
    var interactions: seq<Interaction>

    constructor ()
      ensures interactions == []
    {
      interactions := [];
    }

    /** `addInteraction`: a missing interaction changes nothing, any other
        is appended. */
    method AddInteraction(interaction: Option<Interaction>)
      modifies this
      ensures interactions == old(interactions) + (if interaction.Some? then [interaction.value] else [])
    {
      if interaction.None? {
        return;
      }
      interactions := interactions + [interaction.value];
    }

    /** `getLastInteraction`. */
    method GetLastInteraction() returns (r: Option<Interaction>)
      ensures r == Last(interactions)
    {
      r := if |interactions| > 0 then Some(interactions[|interactions| - 1]) else None;
    }

    /** `addAssistantResponse`: sets the assistant message of the last
        interaction; without interactions it does nothing. The timestamp is
        a parameter. */
    method AddAssistantResponse(text: string, timestamp: string)
      modifies this
      ensures interactions == WithAssistantMessage(old(interactions), Message(Assistant, text))
    {
      var last := GetLastInteraction();
      if last.Some? {
        interactions := interactions[..|interactions| - 1]
          + [last.value.(assistantMessage := Some(Message(Assistant, text)))];
      }
    }

    /** `getLastInteractionWithContextIndex`: the index of the newest
        interaction with context, or -1 when none has. */
    method GetLastInteractionWithContextIndex() returns (index: int)
      ensures NewestWithContext(interactions, index)
    {
      index := |interactions| - 1;
      while index >= 0
        invariant -1 <= index < |interactions|
        invariant forall j :: index < j < |interactions| ==> !interactions[j].hasContext
      {
        if interactions[index].hasContext {
          return;
        }
        index := index - 1;
      }
    }

    /** `toPrompt`: the preamble, then the newest messages of the
        interactions that fit what the preamble leaves of the prompt
        length. */
    method ToPrompt(preamble: seq<Message>, interactionPrompt: (Interaction, bool) -> seq<Message>,
                    maxPromptLength: int, charsPerToken: nat) returns (r: seq<Message>)
      requires charsPerToken > 0
      ensures exists withContext ::
        (NewestWithContext(interactions, withContext)
         && r == preamble + Truncated(PromptMessages(interactions, withContext, interactionPrompt),
                                      maxPromptLength - Tokens(preamble, Estimator(charsPerToken)), Estimator(charsPerToken)))
    {
      var lastInteractionWithContextIndex := GetLastInteractionWithContextIndex();
      var messages := [];
      for index := 0 to |interactions|
        invariant messages == PromptMessages(interactions[..index], lastInteractionWithContextIndex, interactionPrompt)
      {
        assert interactions[..index + 1][..index] == interactions[..index];
        var interactionMessages := interactionPrompt(interactions[index], index == lastInteractionWithContextIndex);
        messages := messages + interactionMessages;
      }
      assert interactions[..|interactions|] == interactions;
      var preambleTokensUsage := PreambleTokens(preamble, charsPerToken);
      var truncatedMessages := TruncatePrompt(messages, maxPromptLength - preambleTokensUsage, charsPerToken);
      r := preamble + truncatedMessages;
    }

    /** `reset`. */
    method Reset()
      modifies this
      ensures interactions == []
    {
      interactions := [];
    }
  }

  /** The `reduce` over the preamble. */
  method PreambleTokens(preamble: seq<Message>, charsPerToken: nat) returns (acc: nat)
    requires charsPerToken > 0
    ensures acc == Tokens(preamble, Estimator(charsPerToken))
  {
    acc := 0;
    for i := 0 to |preamble|
      invariant acc == Tokens(preamble[..i], Estimator(charsPerToken))
    {
      assert preamble[..i + 1][..i] == preamble[..i];
      acc := acc + EstimateTokens(preamble[i], charsPerToken);
    }
    assert preamble[..|preamble|] == preamble;
  }

  /** The prompt starts with the whole preamble, and what follows it fits
      the length the preamble leaves. */
  lemma PromptRespectsBudget(preamble: seq<Message>, messages: seq<Message>, maxPromptLength: int, est: Message -> nat)
    ensures var budget := maxPromptLength - Tokens(preamble, est);
      var r := preamble + Truncated(messages, budget, est);
      r[..|preamble|] == preamble
      && (r == preamble || Tokens(r, est) <= maxPromptLength)
  {
    var budget := maxPromptLength - Tokens(preamble, est);
    var t := Truncated(messages, budget, est);
    TruncatedWithinBudget(messages, budget, est);
    TokensAppend(preamble, t, est);
    assert (preamble + t)[..|preamble|] == preamble;
    if t == [] { assert preamble + t == preamble; }
  }
}
