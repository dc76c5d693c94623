/**
 * The embedding batcher of the Grokker knowledge base (CreateEmbeddings in
 * ai-agents/api.go): texts are packed greedily, in order, into provider
 * requests whose token total stays strictly below the embedding token limit.
 *
 * The tokenizer and the embedding provider are parameters.
 */
module GrokEmbed {
  import opened Wrappers

  /** An embedding vector as returned by the embedding provider. */
  type Vector = seq<real>

  /** The embedding provider: one request of texts, answered by vectors or an error. */
  type Provider = seq<string> -> Result<seq<Vector>>

  /** How a Go call ends: a value, an error, or a failed assertion (a panic). */
  datatype Assertion = NextLenPositive | NextLenWithinLimit | BatchNotEmpty | OneEmbeddingPerText
  /** Where the inner loop ends a request, or the assertion it fails. */
  datatype Cut = CutAt(end: nat) | Trips(assertion: Assertion)

  datatype Outcome<+T> = Done(value: T) | Failed(error: string) | Crashes(reason: Assertion)

  /** One provider request: the texts at indices lo up to, not including, hi. */
  datatype Batch = Batch(lo: nat, hi: nat)

  /** The requests the loop forms, in order, and the assertion that stops it, if one does. */
  datatype Plan = Plan(batches: seq<Batch>, crash: Option<Assertion>)

  /** The token count of the texts at indices lo up to hi. */
  function Total(texts: seq<string>, tokens: string -> nat, lo: nat, hi: nat): nat
    requires lo <= hi <= |texts|
    decreases hi - lo
  {
    if lo == hi then 0 else tokens(texts[lo]) + Total(texts, tokens, lo + 1, hi)
  }

  /**
   * The inner loop of CreateEmbeddings at text j with `total` tokens already
   * in the request: the index one past the request's last text. A text of no
   * tokens, or of more than the limit, fails an assertion.
   */
  function BatchEnd(texts: seq<string>, tokens: string -> nat, limit: int, j: nat, total: int): Cut
    requires j < |texts|
    decreases |texts| - j
  {
    var next := tokens(texts[j]);
    if next == 0 then Trips(NextLenPositive)
    else if next > limit then Trips(NextLenWithinLimit)
    else if total + next >= limit then CutAt(j)
    else if j == |texts| - 1 then CutAt(j + 1)
    else BatchEnd(texts, tokens, limit, j + 1, total + next)
  }

  /** The outer loop of CreateEmbeddings from text i: the requests it forms and how it stops. */
  function PlanFrom(texts: seq<string>, tokens: string -> nat, limit: int, i: nat): Plan
    decreases |texts| - i
  {
    if i >= |texts| then Plan([], None)
    else
      match BatchEnd(texts, tokens, limit, i, 0)
      case Trips(a) => Plan([], Some(a))
      case CutAt(e) =>
        if e <= i then Plan([], Some(BatchNotEmpty))
        else
          var p := PlanFrom(texts, tokens, limit, e);
          Plan([Batch(i, e)] + p.batches, p.crash)
  }

  /** Every request lies within the texts. */
  predicate InBounds(bs: seq<Batch>, n: nat)
  {
    forall k :: 0 <= k < |bs| ==> bs[k].lo <= bs[k].hi <= n
  }

  /**
   * The provider calls, one per request in order; the first error ends them.
   * The answers are concatenated.
   */
  function Send(texts: seq<string>, bs: seq<Batch>, provider: Provider): Result<seq<Vector>>
    requires InBounds(bs, |texts|)
    decreases |bs|
  {
    if bs == [] then Ok([])
    else
      var b := bs[|bs| - 1];
      match Send(texts, bs[..|bs| - 1], provider)
      case Err(m) => Err(m)
      case Ok(vs) =>
        match provider(texts[b.lo..b.hi])
        case Err(m) => Err(m)
        case Ok(ws) => Ok(vs + ws)
  }

  /**
   * CreateEmbeddings: no texts, no requests; otherwise the requests of the
   * plan are sent in order until one fails, and the call ends with the plan's
   * failed assertion, if any, or with the final check that there is one
   * embedding per text.
   */
  function Embeddings(texts: seq<string>, tokens: string -> nat, limit: int, provider: Provider): (r: Outcome<seq<Vector>>)
    ensures texts == [] ==> r == Done([])
    ensures r.Done? ==> |r.value| == |texts|
  {
    if texts == [] then Done([])
    else
      var p := PlanFrom(texts, tokens, limit, 0);
      PlanGood(texts, tokens, limit, 0);
      match Send(texts, p.batches, provider)
      case Err(m) => Failed(m)
      case Ok(vs) =>
        if p.crash.Some? then Crashes(p.crash.value)
        else if |vs| != |texts| then Crashes(OneEmbeddingPerText)
        else Done(vs)
  }

  // ---------------------------------------------------------------- properties of the plan

  /** A request the greedy loop may form: non-empty, under the limit, and not extensible by the next text. */
  predicate Greedy(texts: seq<string>, tokens: string -> nat, limit: int, b: Batch)
  {
    b.lo < b.hi <= |texts|
    && Total(texts, tokens, b.lo, b.hi) < limit
    && (b.hi < |texts| ==> Total(texts, tokens, b.lo, b.hi) + tokens(texts[b.hi]) >= limit)
  }

  /** The requests are contiguous and cover exactly the texts lo up to hi, in order. */
  predicate Chain(bs: seq<Batch>, lo: nat, hi: nat)
  {
    && (bs == [] ==> lo == hi)
    && (bs != [] ==> bs[0].lo == lo && bs[|bs| - 1].hi == hi)
    && (forall k :: 0 <= k < |bs| - 1 ==> bs[k].hi == bs[k + 1].lo)
  }

  /**
   * What the inner loop finds, from text j with `total` tokens so far: every
   * text it takes has between 1 and limit-1 tokens, the request stays under
   * the limit, and it stops only at the end or where the next text would
   * reach the limit.
   */
  lemma {:induction false} BatchEndFacts(texts: seq<string>, tokens: string -> nat, limit: int, j: nat, total: int)
    requires j < |texts| && 0 <= total < limit
    ensures var r := BatchEnd(texts, tokens, limit, j, total);
      r.CutAt? ==>
        && j <= r.end <= |texts|
        && total + Total(texts, tokens, j, r.end) < limit
        && (r.end < |texts| ==> total + Total(texts, tokens, j, r.end) + tokens(texts[r.end]) >= limit)
        && (forall k :: j <= k < r.end ==> 0 < tokens(texts[k]) < limit)
    decreases |texts| - j
  {
    var next := tokens(texts[j]);
    if next != 0 && next <= limit && total + next < limit && j < |texts| - 1 {
      BatchEndFacts(texts, tokens, limit, j + 1, total + next);
    }
  }

  /** When every text from j on has between 1 and limit-1 tokens, the inner loop takes at least text j. */
  lemma {:induction false} BatchEndTakes(texts: seq<string>, tokens: string -> nat, limit: int, j: nat, total: int)
    requires j < |texts| && 0 <= total && total + tokens(texts[j]) < limit
    requires forall k :: j <= k < |texts| ==> 0 < tokens(texts[k]) < limit
    ensures BatchEnd(texts, tokens, limit, j, total).CutAt? && BatchEnd(texts, tokens, limit, j, total).end > j
    decreases |texts| - j
  {
    var next := tokens(texts[j]);
    if j < |texts| - 1 && total + next + tokens(texts[j + 1]) < limit {
      BatchEndTakes(texts, tokens, limit, j + 1, total + next);
    }
  }

  /**
   * A plan from text i: requests within the texts, each greedy, covering
   * every text from i on in order when no assertion fails, and a prefix of
   * them short of the last text otherwise.
   */
  predicate GoodPlan(texts: seq<string>, tokens: string -> nat, limit: int, bs: seq<Batch>, crash: Option<Assertion>, i: nat)
  {
    && InBounds(bs, |texts|)
    && (forall k :: 0 <= k < |bs| ==> Greedy(texts, tokens, limit, bs[k]))
    && (crash.None? ==> Chain(bs, i, |texts|))
    && (crash.Some? ==> exists m :: i <= m < |texts| && Chain(bs, i, m))
  }

  /** The plan from text i is a good plan. */
  lemma {:induction false} PlanGood(texts: seq<string>, tokens: string -> nat, limit: int, i: nat)
    requires i <= |texts|
    ensures var p := PlanFrom(texts, tokens, limit, i);
      GoodPlan(texts, tokens, limit, p.batches, p.crash, i)
    decreases |texts| - i
  {
    var p := PlanFrom(texts, tokens, limit, i);
    if i < |texts| {
      var r := BatchEnd(texts, tokens, limit, i, 0);
      if limit > 0 {
        BatchEndFacts(texts, tokens, limit, i, 0);
      }
      if r.CutAt? && r.end > i {
        var q := PlanFrom(texts, tokens, limit, r.end);
        PlanGood(texts, tokens, limit, r.end);
        GoodPlanCons(texts, tokens, limit, Batch(i, r.end), q.batches, q.crash);
      } else {
        assert Chain(p.batches, i, i);
      }
    }
  }

  /** A greedy request from i followed by a good plan from its end is a good plan from i. */
  lemma GoodPlanCons(texts: seq<string>, tokens: string -> nat, limit: int, b: Batch, bs: seq<Batch>, crash: Option<Assertion>)
    requires Greedy(texts, tokens, limit, b) && GoodPlan(texts, tokens, limit, bs, crash, b.hi)
    ensures GoodPlan(texts, tokens, limit, [b] + bs, crash, b.lo)
  {
    var cs := [b] + bs;
    assert forall k :: 1 <= k < |cs| ==> cs[k] == bs[k - 1];
    if crash.Some? {
      var m :| b.hi <= m < |texts| && Chain(bs, b.hi, m);
      assert Chain(cs, b.lo, m);
    }
  }

  /** No assertion in the batching loop fails exactly when every text from i on has between 1 and limit-1 tokens. */
  lemma {:induction false} PlanCompleteIff(texts: seq<string>, tokens: string -> nat, limit: int, i: nat)
    requires i <= |texts|
    ensures PlanFrom(texts, tokens, limit, i).crash.None?
            <==> forall k :: i <= k < |texts| ==> 0 < tokens(texts[k]) < limit
    decreases |texts| - i
  {
    if i < |texts| {
      var r := BatchEnd(texts, tokens, limit, i, 0);
      if limit > 0 {
        BatchEndFacts(texts, tokens, limit, i, 0);
      }
      if forall k :: i <= k < |texts| ==> 0 < tokens(texts[k]) < limit {
        BatchEndTakes(texts, tokens, limit, i, 0);
        PlanCompleteIff(texts, tokens, limit, r.end);
      } else if r.CutAt? && r.end > i {
        PlanCompleteIff(texts, tokens, limit, r.end);
      }
    }
  }

  /** A text with exactly as many tokens as the limit fails the `j >= i` assertion once the loop reaches it. */
  lemma TextAtLimitCrashes(t: string, tokens: string -> nat, limit: int, provider: Provider)
    requires limit > 0 && tokens(t) == limit
    ensures Embeddings([t], tokens, limit, provider) == Crashes(BatchNotEmpty)
  {
    assert BatchEnd([t], tokens, limit, 0, 0) == CutAt(0);
  }

  /** Requests within a contiguous cover, each answered with one vector per text, give one vector per text. */
  lemma {:induction false} SendCovers(texts: seq<string>, bs: seq<Batch>, provider: Provider, lo: nat, hi: nat)
    requires InBounds(bs, |texts|) && Chain(bs, lo, hi)
    requires forall k :: 0 <= k < |bs| ==> bs[k].lo < bs[k].hi
    requires forall ts :: provider(ts).Ok? && |provider(ts).value| == |ts|
    ensures Send(texts, bs, provider).Ok? && |Send(texts, bs, provider).value| == hi - lo
    decreases |bs|
  {
    if bs != [] {
      var n := |bs| - 1;
      var front := bs[..n];
      var b := bs[n];
      var mid := if n == 0 then lo else bs[n - 1].hi;
      assert forall k :: 0 <= k < |front| ==> front[k] == bs[k];
      assert n > 0 ==> bs[n - 1].hi == b.lo;
      assert Chain(front, lo, b.lo);
      SendCovers(texts, front, provider, lo, b.lo);
    }
  }

  /**
   * With every text between 1 and limit-1 tokens and a provider that answers
   * each request with one vector per text, CreateEmbeddings succeeds.
   */
  lemma EmbeddingsSucceed(texts: seq<string>, tokens: string -> nat, limit: int, provider: Provider)
    requires forall k :: 0 <= k < |texts| ==> 0 < tokens(texts[k]) < limit
    requires forall ts :: provider(ts).Ok? && |provider(ts).value| == |ts|
    ensures Embeddings(texts, tokens, limit, provider).Done?
  {
    if texts != [] {
      var p := PlanFrom(texts, tokens, limit, 0);
      PlanGood(texts, tokens, limit, 0);
      PlanCompleteIff(texts, tokens, limit, 0);
      SendCovers(texts, p.batches, provider, 0, |texts|);
    }
  }

  // ---------------------------------------------------------------- the loop

  /** Once a request fails, later requests change nothing. */
  lemma {:induction false} SendExtendErr(texts: seq<string>, bs: seq<Batch>, cs: seq<Batch>, provider: Provider)
    requires InBounds(bs, |texts|) && InBounds(cs, |texts|) && Send(texts, bs, provider).Err?
    ensures InBounds(bs + cs, |texts|) && Send(texts, bs + cs, provider) == Send(texts, bs, provider)
    decreases |cs|
  {
    if cs != [] {
      var n := |cs| - 1;
      assert InBounds(cs[..n], |texts|);
      SendExtendErr(texts, bs, cs[..n], provider);
      assert (bs + cs)[..|bs + cs| - 1] == bs + cs[..n];
      assert forall k :: 0 <= k < |bs + cs| ==> (bs + cs)[k] == if k < |bs| then bs[k] else cs[k - |bs|];
      assert Send(texts, bs + cs, provider) == Send(texts, bs + cs[..n], provider);
    } else {
      assert bs + cs == bs;
    }
  }

  /** The loop invariant of CreateEmbeddings: the requests `sent` went out and were answered with `embeddings`. */
  ghost predicate Sent(texts: seq<string>, tokens: string -> nat, limit: int, provider: Provider,
                       all: Plan, sent: seq<Batch>, embeddings: seq<Vector>, i: nat)
  {
    && i <= |texts| && InBounds(sent, |texts|)
    && all == Plan(sent + PlanFrom(texts, tokens, limit, i).batches, PlanFrom(texts, tokens, limit, i).crash)
    && Send(texts, sent, provider) == Ok(embeddings)
  }

  /** An assertion failing in the request from text i ends CreateEmbeddings with it. */
  lemma CrashAt(texts: seq<string>, tokens: string -> nat, limit: int, provider: Provider,
                all: Plan, sent: seq<Batch>, embeddings: seq<Vector>, i: nat, reason: Assertion)
    requires texts != [] && all == PlanFrom(texts, tokens, limit, 0) && Sent(texts, tokens, limit, provider, all, sent, embeddings, i)
    requires PlanFrom(texts, tokens, limit, i) == Plan([], Some(reason))
    ensures Embeddings(texts, tokens, limit, provider) == Crashes(reason)
  {
    assert sent + [] == sent;
  }

  /** A failing provider call ends CreateEmbeddings with its error. */
  lemma FailAt(texts: seq<string>, tokens: string -> nat, limit: int, provider: Provider,
               all: Plan, sent: seq<Batch>, embeddings: seq<Vector>, i: nat, e: nat, m: string)
    requires texts != [] && all == PlanFrom(texts, tokens, limit, 0) && Sent(texts, tokens, limit, provider, all, sent, embeddings, i)
    requires i < e <= |texts| && BatchEnd(texts, tokens, limit, i, 0) == CutAt(e)
    requires provider(texts[i..e]) == Err(m)
    ensures Embeddings(texts, tokens, limit, provider) == Failed(m)
  {
    var b := Batch(i, e);
    var rest := PlanFrom(texts, tokens, limit, e);
    PlanStep(texts, tokens, limit, i, e);
    PlanShift(all, sent, b, rest);
    PlanGood(texts, tokens, limit, e);
    SendSnoc(texts, sent, b, provider);
    SendExtendErr(texts, sent + [b], rest.batches, provider);
    assert Send(texts, all.batches, provider) == Err(m);
  }

  /** An answered request keeps the invariant, from text e on. */
  lemma AnsweredAt(texts: seq<string>, tokens: string -> nat, limit: int, provider: Provider,
                   all: Plan, sent: seq<Batch>, embeddings: seq<Vector>, i: nat, e: nat, ws: seq<Vector>)
    requires Sent(texts, tokens, limit, provider, all, sent, embeddings, i)
    requires i < e <= |texts| && BatchEnd(texts, tokens, limit, i, 0) == CutAt(e)
    requires provider(texts[i..e]) == Ok(ws)
    ensures Sent(texts, tokens, limit, provider, all, sent + [Batch(i, e)], embeddings + ws, e)
  {
    PlanStep(texts, tokens, limit, i, e);
    PlanShift(all, sent, Batch(i, e), PlanFrom(texts, tokens, limit, e));
    SendSnoc(texts, sent, Batch(i, e), provider);
  }

  /** One request formed: the plan from text i is that request followed by the plan from its end. */
  lemma PlanStep(texts: seq<string>, tokens: string -> nat, limit: int, i: nat, e: nat)
    requires i < e <= |texts| && BatchEnd(texts, tokens, limit, i, 0) == CutAt(e)
    ensures PlanFrom(texts, tokens, limit, i)
      == Plan([Batch(i, e)] + PlanFrom(texts, tokens, limit, e).batches, PlanFrom(texts, tokens, limit, e).crash)
  {
  }

  lemma PlanShift(all: Plan, sent: seq<Batch>, b: Batch, rest: Plan)
    requires all == Plan(sent + ([b] + rest.batches), rest.crash)
    ensures all == Plan((sent + [b]) + rest.batches, rest.crash)
  {
    assert sent + ([b] + rest.batches) == (sent + [b]) + rest.batches;
  }

  /** At the end of the texts everything planned has been sent. */
  lemma AllSent(texts: seq<string>, tokens: string -> nat, limit: int, provider: Provider,
                all: Plan, sent: seq<Batch>, embeddings: seq<Vector>)
    requires texts != [] && all == PlanFrom(texts, tokens, limit, 0) && Sent(texts, tokens, limit, provider, all, sent, embeddings, |texts|)
    ensures Embeddings(texts, tokens, limit, provider)
      == if |embeddings| != |texts| then Crashes(OneEmbeddingPerText) else Done(embeddings)
  {
    assert sent + [] == sent;
  }

  lemma SendSnoc(texts: seq<string>, bs: seq<Batch>, b: Batch, provider: Provider)
    requires InBounds(bs, |texts|) && b.lo <= b.hi <= |texts|
    ensures InBounds(bs + [b], |texts|)
    ensures Send(texts, bs + [b], provider)
      == match Send(texts, bs, provider)
         case Err(m) => Err(m)
         case Ok(vs) => (match provider(texts[b.lo..b.hi]) case Err(m) => Err(m) case Ok(ws) => Ok(vs + ws))
  {
    assert (bs + [b])[..|bs|] == bs;
  }

  /**
   * The inner loop of CreateEmbeddings from text i: adds texts to the request
   * until the next one would reach the limit or the texts run out. Its result
   * is `BatchEnd`; the request's token total is positive whenever it is not
   * empty, so the source's `totalLen > 0` assertion never fails.
   */
  method NextBatch(texts: seq<string>, tokens: string -> nat, limit: int, i: nat) returns (r: Cut, totalLen: nat)
    requires i < |texts|
    ensures r == BatchEnd(texts, tokens, limit, i, 0)
    ensures r.CutAt? ==> i <= r.end <= |texts|
    ensures r.CutAt? && r.end > i ==> totalLen > 0
  {
    totalLen := 0;
    var j: int := i;
    while true
      invariant i <= j < |texts|
      invariant j > i ==> totalLen > 0
      invariant BatchEnd(texts, tokens, limit, i, 0) == BatchEnd(texts, tokens, limit, j, totalLen)
      decreases |texts| - j
    {
      var nextLen := tokens(texts[j]);
      if nextLen == 0 {
        return Trips(NextLenPositive), totalLen;
      }
      if nextLen > limit {
        return Trips(NextLenWithinLimit), totalLen;
      }
      if totalLen + nextLen >= limit {
        j := j - 1;
        break;
      }
      totalLen := totalLen + nextLen;
      if j == |texts| - 1 {
        break;
      }
      j := j + 1;
    }
    return CutAt(j + 1), totalLen;
  }

  /**
   * CreateEmbeddings: the outer loop of the source, forming one request at a
   * time with NextBatch and calling the provider on it. Its outcome is
   * `Embeddings`.
   */
  method CreateEmbeddings(texts: seq<string>, tokens: string -> nat, limit: int, provider: Provider)
    returns (r: Outcome<seq<Vector>>)
    ensures r == Embeddings(texts, tokens, limit, provider)
  {
    if |texts| == 0 {
      return Done([]);
    }
    var embeddings: seq<Vector> := [];
    ghost var sent: seq<Batch> := [];
    ghost var all := PlanFrom(texts, tokens, limit, 0);
    assert sent + all.batches == all.batches;
    var i := 0;
    while i < |texts|
      invariant Sent(texts, tokens, limit, provider, all, sent, embeddings, i)
      decreases |texts| - i
    {
      var cut, totalLen := NextBatch(texts, tokens, limit, i);
      if cut.Trips? {
        CrashAt(texts, tokens, limit, provider, all, sent, embeddings, i, cut.assertion);
        return Crashes(cut.assertion);
      }
      var j := cut.end - 1;
      if j < i {
        CrashAt(texts, tokens, limit, provider, all, sent, embeddings, i, BatchNotEmpty);
        return Crashes(BatchNotEmpty);
      }
      assert totalLen > 0;
      var answer := provider(texts[i..j + 1]);
      if answer.Err? {
        FailAt(texts, tokens, limit, provider, all, sent, embeddings, i, j + 1, answer.error);
        return Failed(answer.error);
      }
      AnsweredAt(texts, tokens, limit, provider, all, sent, embeddings, i, j + 1, answer.value);
      embeddings := embeddings + answer.value;
      sent := sent + [Batch(i, j + 1)];
      i := j + 1;
    }
    AllSent(texts, tokens, limit, provider, all, sent, embeddings);
    if |embeddings| != |texts| {
      return Crashes(OneEmbeddingPerText);
    }
    return Done(embeddings);
  }
}
