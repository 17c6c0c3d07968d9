/** The budgets of one pass over a JSON document: tokens for all of it, decoded bytes for every record, and the
    width of a single scalar. */
module Budgets {

  datatype Limits = Limits(maxTokens: nat, maxScalar: nat, maxDecoded: nat)

  /** What a value costs: its tokens, its decoded bytes, and the most bytes that one scalar in it has. */
  datatype Cost = Cost(tokens: nat, bytes: nat, widest: nat)

  function Larger(a: nat, b: nat): nat
  {
    if a > b then a else b
  }

  function Together(a: Cost, b: Cost): Cost
  {
    Cost(a.tokens + b.tokens, a.bytes + b.bytes, Larger(a.widest, b.widest))
  }

  /** So much can still be paid after so many tokens and decoded bytes. */
  predicate Fit(limits: Limits, tokens: nat, decoded: nat, cost: Cost)
  {
    tokens + cost.tokens <= limits.maxTokens && decoded + cost.bytes <= limits.maxDecoded
      && cost.widest <= limits.maxScalar
  }

  /** The counters of the visitors. */
  class Meter {
    const limits: Limits
    var tokens: nat
    var decoded: nat

    constructor (limits: Limits, tokens: nat)
      ensures this.limits == limits && this.tokens == tokens && decoded == 0
    {
      this.limits, this.tokens, decoded := limits, tokens, 0;
    }

    ghost predicate Fits(cost: Cost)
      reads this
    {
      Fit(limits, tokens, decoded, cost)
    }

    /** One more token, unless there are too many. */
    method Token() returns (ok: bool)
      modifies this
      ensures ok <==> old(tokens) + 1 <= limits.maxTokens
      ensures tokens == old(tokens) + 1 && decoded == old(decoded)
    {
      tokens := tokens + 1;
      ok := tokens <= limits.maxTokens;
    }

    /** One more scalar, unless it is too wide or too many bytes are decoded. */
    method Scalar(bytes: nat) returns (ok: bool)
      modifies this
      ensures ok <==> bytes <= limits.maxScalar && old(decoded) + bytes <= limits.maxDecoded
      ensures tokens == old(tokens) && (ok ==> decoded == old(decoded) + bytes)
    {
      if bytes > limits.maxScalar {
        return false;
      }
      decoded := decoded + bytes;
      ok := decoded <= limits.maxDecoded;
    }

    /** A new record starts. */
    method Reset()
      modifies this
      ensures decoded == 0 && tokens == old(tokens)
    {
      decoded := 0;
    }
  }
}
