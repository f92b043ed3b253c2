// Token estimates (memory/token_estimate.go) and the budget arithmetic of the
// summarising compressor (memory/compressor_summarize_trunc.go). A string stands for
// its bytes.
module Summary {
  import opened Types

  // EstimateTextTokens: a quarter of the length, at least one unless empty.
  function EstimateTextTokens(text: string): nat {
    if |text| == 0 then 0
    else if |text| / 4 == 0 then 1
    else |text| / 4
  }

  // No tokens for no text, at least one for any other, and a quarter of the length, rounded down.
  lemma EstimateMeans(text: string)
    ensures EstimateTextTokens(text) == 0 <==> text == ""
    ensures text != "" ==> EstimateTextTokens(text) >= 1
    ensures |text| >= 4 ==> 4 * EstimateTextTokens(text) <= |text| < 4 * EstimateTextTokens(text) + 4
    ensures 0 < |text| < 8 ==> EstimateTextTokens(text) == 1
  {
  }

  function Estimate(m: Message): nat {
    EstimateTextTokens(m.text)
  }

  function TotalTokens(ms: seq<Message>): nat {
    if ms == [] then 0 else TotalTokens(ms[..|ms| - 1]) + Estimate(ms[|ms| - 1])
  }

  lemma {:induction false} TotalCons(m: Message, ms: seq<Message>)
    ensures TotalTokens([m] + ms) == Estimate(m) + TotalTokens(ms)
  {
    var s := [m] + ms;
    if ms == [] {
      assert s[..0] == [];
    } else {
      assert s[..|s| - 1] == [m] + ms[..|ms| - 1];
      TotalCons(m, ms[..|ms| - 1]);
    }
  }

  // The total adds up over any way to cut the messages in two, from each message's own text.
  lemma {:induction false} TotalAdds(a: seq<Message>, b: seq<Message>)
    ensures TotalTokens(a + b) == TotalTokens(a) + TotalTokens(b)
    ensures |b| == 1 ==> TotalTokens(b) == EstimateTextTokens(b[0].text)
  {
    if b == [] {
      assert a + b == a;
    } else {
      var n := |b| - 1;
      assert (a + b)[..|a + b| - 1] == a + b[..n];
      TotalAdds(a, b[..n]);
      if n == 0 {
        assert b[..n] == [];
      }
    }
  }

  // The length the truncation aims at, before rounding.
  function Target(length: nat, budget: nat, tokens: nat): real
    requires tokens > 0
  {
    length as real * (budget as real / tokens as real)
  }

  // tokens is the estimate for a text of this length, and it exceeds the budget.
  ghost predicate TooLong(length: nat, budget: nat, tokens: nat) {
    length > 0 && tokens == length / 4 && 1 <= budget < tokens
  }

  lemma TargetBounds(length: nat, budget: nat, tokens: nat)
    requires TooLong(length, budget, tokens)
    ensures 4.0 * budget as real <= Target(length, budget, tokens) < 4.0 * budget as real + 3.0
  {
    var l, b, t := length as real, budget as real, tokens as real;
    assert 4.0 * t <= l <= 4.0 * t + 3.0;
    var ratio := b / t;
    assert ratio * t == b;
    assert 0.0 < ratio < 1.0;
    ScaleUp(4.0 * t, l, ratio);
    ScaleUp(l, 4.0 * t + 3.0, ratio);
    assert (4.0 * t) * ratio == 4.0 * b;
    assert (4.0 * t + 3.0) * ratio == 4.0 * b + 3.0 * ratio;
  }

  lemma ScaleUp(x: real, y: real, r: real)
    requires x <= y && r > 0.0
    ensures x * r <= y * r
  {
  }

  // A float64 product and the product over the reals.
  predicate Near(product: real, exact: real) {
    exact - 1.0 < product < exact + 1.0
  }

  // Truncating to any length computed within 1 of the target fits the budget, uses all
  // of it but one token, and never runs past the text: rounding does not matter.
  lemma TruncationFits(text: string, budget: nat, product: real)
    requires TooLong(|text|, budget, EstimateTextTokens(text))
    requires Near(product, Target(|text|, budget, EstimateTextTokens(text)))
    ensures 0 < product.Floor <= |text|
    ensures budget - 1 <= EstimateTextTokens(text[..product.Floor]) <= budget
  {
    TargetBounds(|text|, budget, EstimateTextTokens(text));
    assert product < (4 * budget + 4) as real;
    assert product.Floor < 4 * budget + 4;
    assert product > (4 * budget - 1) as real;
    assert product.Floor >= 4 * budget - 1;
  }

  // The result is one message with a prefix of the summary, and the recent ones; it fits
  // the budget; and the summary is cut only if it is too long, and then wastes at most one token.
  ghost predicate Summarised(result: seq<Message>, role: string, full: string, recent: seq<Message>, maxTokens: int) {
    && |result| == |recent| + 1 && result[1..] == recent
    && result[0].role == role && result[0].text != "" && result[0].text <= full
    && (maxTokens > 0 ==> TotalTokens(result) <= maxTokens)
    && (result[0].text == full <==> maxTokens <= 0 || TotalTokens(recent) + EstimateTextTokens(full) <= maxTokens)
    && (result[0].text != full ==> TotalTokens(result) >= maxTokens - 1)
  }

  class SummarizeAndTruncCompressor {
    // None stands for a summarizer error
    const summarizer: seq<Message> -> Option<string>
    const keepLastN: nat
    const summaryRole: string

    constructor (summarizer: seq<Message> -> Option<string>, keepLastN: nat, summaryRole: string)
      requires keepLastN > 0
      ensures this.summarizer == summarizer && this.keepLastN == keepLastN && this.summaryRole == summaryRole
    {
      this.summarizer, this.keepLastN, this.summaryRole := summarizer, keepLastN, summaryRole;
    }

    method Compress(messages: seq<Message>, maxTokens: int, ctxDone: bool) returns (result: Option<seq<Message>>)
      ensures ctxDone ==> result.None?
      ensures !ctxDone && |messages| <= keepLastN ==> result == Some(messages)
      // otherwise the last messages are kept, after a summary of the others if there is one
      // and room for it
      ensures !ctxDone && |messages| > keepLastN ==>
        var older, recent := messages[..|messages| - keepLastN], messages[|messages| - keepLastN..];
        var summary := summarizer(older);
        && (result.None? <==> summary.None?)
        && (summary.Some? && (summary.value == "" || 0 < maxTokens <= TotalTokens(recent)) ==> result == Some(recent))
        && (summary.Some? && summary.value != "" && !(0 < maxTokens <= TotalTokens(recent)) ==>
              Summarised(result.value, summaryRole, summary.value, recent, maxTokens))
    {
      if ctxDone {
        return None;
      }
      if |messages| <= keepLastN {
        return Some(messages);
      }
      var splitIdx := |messages| - keepLastN;
      var older, recent := messages[..splitIdx], messages[splitIdx..];
      var summary := summarizer(older);
      if summary.None? {
        return None;
      }
      var summaryText := summary.value;
      if summaryText == "" {
        return Some(recent);
      }
      if maxTokens > 0 {
        var recentTokens := CountTokens(recent);
        var summaryBudget := maxTokens - recentTokens;
        if summaryBudget <= 0 {
          return Some(recent);
        }
        var summaryTokens := EstimateTextTokens(summaryText);
        if summaryTokens > summaryBudget {
          // float64 arithmetic: the product is off by less than one
          var exact := Target(|summaryText|, summaryBudget, summaryTokens);
          TargetBounds(|summaryText|, summaryBudget, summaryTokens);
          assert Near(exact, exact);
          var product: real :| Near(product, exact);
          TruncationFits(summaryText, summaryBudget, product);
          var maxLen := product.Floor;
          assert EstimateTextTokens(summaryText[..maxLen]) <= summaryBudget < summaryTokens;
          if maxLen > 0 {
            summaryText := summaryText[..maxLen];
          } else {
            // the budget is at least one token, so at least three bytes remain
            assert false;
          }
        }
      }
      var summaryMsg := Message(summaryRole, summaryText);
      TotalCons(summaryMsg, recent);
      result := Some([summaryMsg] + recent);
    }
  }

  method CountTokens(ms: seq<Message>) returns (total: nat)
    ensures total == TotalTokens(ms)
  {
    total := 0;
    var i := 0;
    while i < |ms|
      invariant i <= |ms| && total == TotalTokens(ms[..i])
    {
      assert ms[..i + 1][..i] == ms[..i];
      total := total + Estimate(ms[i]);
      i := i + 1;
    }
    assert ms[..i] == ms;
  }
}
