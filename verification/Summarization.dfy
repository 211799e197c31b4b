/**
 The summarization ladder: start at a model chosen by length, escalate after a rejected or
 unavailable answer, downgrade when the cost cap will not fit the model, and account for every
 completed call. The engine and the quality check are arbitrary oracles.
 */
module Summarization {
  import opened Allocation
  import opened Engine
  import opened Numbers
  import opened RateLimiter
  import opened RetryPolicies
  import opened Wrappers

  const PROMPT_OVERHEAD_TOKENS: int := 512

  // ---------- Cost ----------

  datatype ModelPrice = ModelPrice(inputMicrosPerKtoken: int, outputMicrosPerKtoken: int) {

    /** The cost of a call in micro-dollars, in saturating 64-bit arithmetic, rounded toward zero. */
    function CostMicros(inputTokens: int, outputTokens: int): int {
      SaturatingAdd(PartMicros(inputTokens, inputMicrosPerKtoken), PartMicros(outputTokens, outputMicrosPerKtoken))
    }
  }

  function PartMicros(tokens: int, microsPerKtoken: int): int {
    TruncDiv(SaturatingMul(Max(tokens, 0), microsPerKtoken), 1000)
  }

  /** Whether an estimate still fits under the cap. */
  predicate Fits(cap: int, spent: int, estimate: int) {
    SaturatingAdd(spent, Max(estimate, 0)) <= cap
  }

  /** Spend against a hard cap: checked before each call, recorded after. */
  class CostGuard {
    const capMicros: int
    var spentMicros: int

    constructor (capMicros: int)
      ensures this.capMicros == Max(capMicros, 0) && spentMicros == 0
    {
      this.capMicros := Max(capMicros, 0);
      spentMicros := 0;
    }

    method Record(actual: int)
      modifies this
      ensures spentMicros == SaturatingAdd(old(spentMicros), Max(actual, 0))
    {
      spentMicros := SaturatingAdd(spentMicros, Max(actual, 0));
    }
  }

  lemma ProductAlongSign(less: int, more: int, price: int)
    requires 0 <= less <= more
    ensures price >= 0 ==> less * price <= more * price
    ensures price <= 0 ==> less * price >= more * price
  {
    var gap := more - less;
    assert gap * price == more * price - less * price;
    if price >= 0 {
      ProductIsNonNegative(gap, price);
    }
    if price <= 0 {
      ProductIsNonNegative(gap, -price);
      assert gap * -price == -(gap * price);
    }
  }

  lemma TruncDivAscends(a: int, b: int)
    requires a <= b
    ensures TruncDiv(a, 1000) <= TruncDiv(b, 1000)
  {
  }

  /** More output never costs less at a price that is not negative, and never more at one that is not positive. */
  lemma CostGrowsWithOutput(p: ModelPrice, input: int, less: int, more: int)
    requires less <= more
    ensures p.outputMicrosPerKtoken >= 0 ==> p.CostMicros(input, less) <= p.CostMicros(input, more)
    ensures p.outputMicrosPerKtoken <= 0 ==> p.CostMicros(input, less) >= p.CostMicros(input, more)
  {
    hide TruncDiv;
    var price, a, b := p.outputMicrosPerKtoken, Max(less, 0), Max(more, 0);
    ProductAlongSign(a, b, price);
    if price >= 0 {
      TruncDivAscends(SaturatingMul(a, price), SaturatingMul(b, price));
    }
    if price <= 0 {
      TruncDivAscends(SaturatingMul(b, price), SaturatingMul(a, price));
    }
  }

  /** Each part of a cost is its exact price for a thousand tokens, less the fraction of a micro-dollar cut off. */
  lemma PartIsPerThousand(tokens: int, price: int)
    requires tokens >= 0 && 0 <= tokens * price <= I64_MAX
    ensures 1000 * PartMicros(tokens, price) <= tokens * price < 1000 * PartMicros(tokens, price) + 1000
  {
  }

  /**
   A cost is the price of the input and the output together, by the thousand tokens, and falls short of it
   by less than two micro-dollars: the rounding never charges more.
   */
  lemma CostIsPerThousand(p: ModelPrice, input: int, output: int)
    requires input >= 0 && 0 <= input * p.inputMicrosPerKtoken <= I64_MAX
    requires output >= 0 && 0 <= output * p.outputMicrosPerKtoken <= I64_MAX
    ensures var exact := input * p.inputMicrosPerKtoken + output * p.outputMicrosPerKtoken;
            exact - 2000 < 1000 * p.CostMicros(input, output) <= exact
  {
    hide PartMicros;
    PartIsPerThousand(input, p.inputMicrosPerKtoken);
    PartIsPerThousand(output, p.outputMicrosPerKtoken);
  }

  // ---------- The ladder ----------

  datatype SummaryLength = Brief | Detailed | Comprehensive

  datatype Model = Model(name: string, price: ModelPrice, contextTokens: int)

  datatype NextModel = Retry(index: nat) | Escalate(index: nat) | GiveUp

  function OutputBudget(length: SummaryLength): int {
    match length
    case Brief => 512
    case Detailed => 1024
    case Comprehensive => 2048
  }

  /** Where a ladder of `n` models is entered: the cheapest, the middle or the strongest. */
  function StartIndex(n: nat, length: SummaryLength): (i: nat)
    requires n >= 1
    ensures i < n
  {
    match length
    case Brief => 0
    case Detailed => (n - 1) / 2
    case Comprehensive => n - 1
  }

  /**
   A brief summary enters above no other model, a comprehensive one below none, and a detailed one has
   as many models above it as below, or one more.
   */
  lemma EntrySplitsTheLadder(n: nat, length: SummaryLength)
    requires n >= 1
    ensures var below, above := StartIndex(n, length), n - 1 - StartIndex(n, length);
            match length
            case Brief => below == 0
            case Detailed => below <= above <= below + 1
            case Comprehensive => above == 0
  {
  }

  function NextAfterFailure(n: nat, current: nat, failure: FailureClass): NextModel
    requires current < n
  {
    match failure
    case RateLimited => NextModel.Retry(current)
    case ServiceUnavailable => if current < n - 1 then Escalate(current + 1) else NextModel.Retry(current)
    case _ => NextModel.GiveUp
  }

  /** The bytes a character takes in UTF-8. */
  function Utf8Size(c: char): nat {
    if c as int < 0x80 then 1 else if c as int < 0x800 then 2 else if c as int < 0x1_0000 then 3 else 4
  }

  function Utf8Length(s: string): nat {
    if s == [] then 0 else Utf8Length(s[..|s| - 1]) + Utf8Size(s[|s| - 1])
  }

  /** About four bytes a token, and at least one. */
  function EstimateTokens(text: string): int {
    Max(Utf8Length(text) / 4, 1)
  }

  // ---------- The loop ----------

  datatype QualityError =
    | Truncated
    | Filtered
    | Empty
    | CitationOutOfRange(index: nat, messageCount: nat)

  datatype SummarizeError =
    | NoSubstantialMessages
    | Llm(failure: FailureClass)
    | Quality(error: QualityError)
    | CostCapTooLow

  datatype SummaryOutcome<S> = SummaryOutcome(summary: S, model: string, costMicros: int, degraded: bool)

  /**
   A summary to produce: the prompt assembled from the substantial messages, the ladder and the cap,
   and the two oracles, `engine` by request number and `finalize` for the structural check.
   */
  datatype Job<!S> = Job(
    provider: LlmProvider,
    priority: RequestPriority,
    prompt: string,
    length: SummaryLength,
    capMicros: int,
    ladder: seq<Model>,
    engine: (nat, LlmRequest) -> Outcome,
    finalize: LlmResponse -> Result<S, QualityError>)
  {
    function Cap(): int {
      Max(capMicros, 0)
    }

    function InputTokens(): int {
      EstimateTokens(prompt)
    }

    /** The output tokens a call to model `i` is planned to use. */
    function PlannedOutput(i: nat): int
      requires i < |ladder|
    {
      var plan := Allocate(InputTokens(), ladder[i].contextTokens, OutputBudget(length), PROMPT_OVERHEAD_TOKENS);
      plan.outputTokensPerChunk
    }

    function Estimate(i: nat): int
      requires i < |ladder|
    {
      ladder[i].price.CostMicros(InputTokens(), PlannedOutput(i))
    }

    function RequestTo(i: nat): LlmRequest
      requires i < |ladder|
    {
      LlmRequest(provider, priority, ladder[i].name, prompt)
    }

    /** What a completed call to model `i` is charged. */
    function Charge(i: nat, response: LlmResponse): int
      requires i < |ladder|
    {
      Max(ladder[i].price.CostMicros(InputTokens(), EstimateTokens(response.text)), 0)
    }
  }

  /** One turn of the loop: a model skipped because it does not fit the cap, or a request to it. */
  datatype Step =
    | Downgraded(index: nat, spentBefore: int)
    | Asked(index: nat, spentBefore: int, reply: Outcome, charge: int)

  datatype Trace<S> = Trace(steps: seq<Step>, result: Result<SummaryOutcome<S>, SummarizeError>)

  datatype Position = Position(budget: nat, current: nat, degraded: bool, spent: int, requests: nat)

  /** How one turn goes: a step and the next position, or the end, with at most one last step. */
  datatype Turn<S> =
    | Goes(step: Step, next: Position)
    | Ends(last: seq<Step>, result: Result<SummaryOutcome<S>, SummarizeError>)

  function TurnAt<S>(job: Job<S>, at: Position): Turn<S>
    requires at.current < |job.ladder| && at.budget >= 1
  {
    var i, n := at.current, |job.ladder|;
    if at.budget == 1 then
      Ends([], Err(Llm(ServiceUnavailable)))
    else if !Fits(job.Cap(), at.spent, job.Estimate(i)) then
      if i > 0 then
        Goes(Downgraded(i, at.spent), at.(budget := at.budget - 1, current := i - 1, degraded := true))
      else
        Ends([], Err(CostCapTooLow))
    else
      match job.engine(at.requests, job.RequestTo(i))
      case Ok(response) =>
        var step := Asked(i, at.spent, Ok(response), job.Charge(i, response));
        var spent := SaturatingAdd(at.spent, step.charge);
        (match job.finalize(response)
         case Ok(summary) => Ends([step], Ok(SummaryOutcome(summary, response.model, spent, at.degraded)))
         case Err(q) =>
           if i + 1 < n then Goes(step, Position(at.budget - 1, i + 1, at.degraded, spent, at.requests + 1))
           else Ends([step], Err(Quality(q))))
      case Err(error) =>
        var step := Asked(i, at.spent, Err(error), 0);
        match NextAfterFailure(n, i, error.failure)
        case Escalate(next) => Goes(step, Position(at.budget - 1, next, at.degraded, at.spent, at.requests + 1))
        case _ => Ends([step], Err(Llm(error.failure)))
  }

  /** The ladder loop from a position on: the steps it takes and how it ends. */
  function Climb<S>(job: Job<S>, at: Position): Trace<S>
    requires at.current < |job.ladder| && at.budget >= 1
    decreases at.budget
  {
    match TurnAt(job, at)
    case Ends(last, result) => Trace(last, result)
    case Goes(step, next) =>
      var rest := Climb(job, next);
      Trace([step] + rest.steps, rest.result)
  }

  lemma ClimbTakesATurn<S>(job: Job<S>, at: Position)
    requires at.current < |job.ladder| && at.budget >= 1
    ensures var turn := TurnAt(job, at);
            && (turn.Ends? ==> Climb(job, at) == Trace(turn.last, turn.result))
            && (turn.Goes? ==>
                  && turn.next.current < |job.ladder| && 1 <= turn.next.budget < at.budget
                  && Climb(job, at)
                       == Trace([turn.step] + Climb(job, turn.next).steps, Climb(job, turn.next).result))
  {
    hide Fits, Job.Estimate, Job.Charge;
  }

  function Start<S>(job: Job<S>): Position
    requires job.ladder != []
  {
    Position(2 * |job.ladder| + 1, StartIndex(|job.ladder|, job.length), false, 0, 0)
  }

  /** Runs the pipeline on the `substantial` messages that survived triviality filtering. */
  method Summarize<S>(job: Job<S>, substantial: nat) returns (r: Result<SummaryOutcome<S>, SummarizeError>)
    requires job.ladder != []
    ensures r == if substantial == 0 then Err(NoSubstantialMessages) else Climb(job, Start(job)).result
  {
    hide Fits, Allocate, ModelPrice.CostMicros, EstimateTokens, Climb;
    if substantial == 0 {
      return Err(NoSubstantialMessages);
    }
    var guard := new CostGuard(job.capMicros);
    var current: nat, degraded, requests: nat := StartIndex(|job.ladder|, job.length), false, 0;
    var budget := |job.ladder| * 2 + 1;
    while true
      invariant 1 <= budget && current < |job.ladder| && guard.capMicros == job.Cap()
      invariant Climb(job, Start(job)).result
             == Climb(job, Position(budget, current, degraded, guard.spentMicros, requests)).result
      decreases budget
    {
      ClimbTakesATurn(job, Position(budget, current, degraded, guard.spentMicros, requests));
      budget := budget - 1;
      if budget == 0 {
        return Err(Llm(ServiceUnavailable));
      }
      var model := job.ladder[current];
      var plan := Allocate(job.InputTokens(), model.contextTokens, OutputBudget(job.length), PROMPT_OVERHEAD_TOKENS);
      var estimate := model.price.CostMicros(job.InputTokens(), plan.outputTokensPerChunk);
      if !Fits(guard.capMicros, guard.spentMicros, estimate) {
        if current > 0 {
          current, degraded := current - 1, true;
          continue;
        }
        return Err(CostCapTooLow);
      }
      var reply := job.engine(requests, LlmRequest(job.provider, job.priority, model.name, job.prompt));
      requests := requests + 1;
      match reply {
        case Ok(response) =>
          guard.Record(model.price.CostMicros(job.InputTokens(), EstimateTokens(response.text)));
          match job.finalize(response) {
            case Ok(summary) =>
              return Ok(SummaryOutcome(summary, response.model, guard.spentMicros, degraded));
            case Err(q) =>
              if current + 1 < |job.ladder| {
                current := current + 1;
              } else {
                return Err(Quality(q));
              }
          }
        case Err(error) =>
          match NextAfterFailure(|job.ladder|, current, error.failure) {
            case Escalate(next) => current := next;
            case _ => return Err(Llm(error.failure));
          }
      }
    }
  }

  // ---------- Where the loop goes ----------

  function CountAsked(steps: seq<Step>): nat {
    if steps == [] then 0 else (if steps[0].Asked? then 1 else 0) + CountAsked(steps[1..])
  }

  function CountDowngraded(steps: seq<Step>): nat {
    if steps == [] then 0 else (if steps[0].Downgraded? then 1 else 0) + CountDowngraded(steps[1..])
  }

  /** Each step follows from the one before: down one after a downgrade, up one after a request. */
  ghost predicate Walks(n: nat, start: nat, steps: seq<Step>) {
    && (forall k :: 0 <= k < |steps| ==> steps[k].index < n)
    && (steps != [] ==> steps[0].index == start)
    && (forall k :: 0 < k < |steps| ==>
          steps[k].index == if steps[k - 1].Asked? then steps[k - 1].index + 1 else steps[k - 1].index - 1)
  }

  /** What every turn does to the position and the ledger. */
  lemma TurnMoves<S>(job: Job<S>, at: Position)
    requires at.current < |job.ladder| && at.budget >= 1
    ensures match TurnAt(job, at)
            case Goes(step, next) =>
              && step.index == at.current && step.spentBefore == at.spent
              && at.budget >= 2 && next.budget == at.budget - 1
              && next.current == (if step.Asked? then at.current + 1 else at.current - 1) < |job.ladder|
              && next.degraded == (at.degraded || step.Downgraded?)
              && next.requests == at.requests + (if step.Asked? then 1 else 0)
              && (0 <= at.spent <= I64_MAX ==>
                    && 0 <= next.spent <= I64_MAX
                    && next.spent == if step.Asked? then SaturatingAdd(at.spent, step.charge) else at.spent)
            case Ends(last, result) =>
              && |last| <= at.budget - 1 && |last| <= 1
              && forall step <- last :: step.Asked? && step.index == at.current && step.spentBefore == at.spent
  {
    hide Fits, Job.Estimate, ModelPrice.CostMicros, EstimateTokens;
  }

  /** A stretch of the loop from model `start` with `budget` turns left. */
  ghost predicate StaysOnLadder(n: nat, budget: nat, start: nat, steps: seq<Step>) {
    && |steps| + 1 <= budget
    && Walks(n, start, steps)
    && CountAsked(steps) <= n - start + CountDowngraded(steps)
    && CountAsked(steps) + CountDowngraded(steps) == |steps|
  }

  /**
   The loop stays inside the ladder, moves one model at a time, and ends within its budget: at
   most two turns per model, however often escalations and downgrades alternate. Requests
   outnumber downgrades by no more than the models from the start up.
   */
  lemma {:induction false} LoopStaysOnLadder<S>(job: Job<S>, at: Position)
    requires at.current < |job.ladder| && at.budget >= 1
    ensures StaysOnLadder(|job.ladder|, at.budget, at.current, Climb(job, at).steps)
    decreases at.budget
  {
    hide *;
    ClimbTakesATurn(job, at);
    TurnOnLadder(job, at);
    var turn := TurnAt(job, at);
    if turn.Ends? {
      LastStepOnLadder(|job.ladder|, at.budget, at.current, turn.last);
    } else {
      LoopStaysOnLadder(job, turn.next);
      LadderAfterStep(|job.ladder|, at.current, turn.step, turn.next, Climb(job, turn.next).steps);
    }
  }

  lemma TurnOnLadder<S>(job: Job<S>, at: Position)
    requires at.current < |job.ladder| && at.budget >= 1
    ensures var turn := TurnAt(job, at);
            && (turn.Ends? ==>
                  && |turn.last| <= 1 && |turn.last| + 1 <= at.budget
                  && (turn.last != [] ==> turn.last[0].Asked? && turn.last[0].index == at.current))
            && (turn.Goes? ==>
                  && turn.step.index == at.current && turn.next.budget + 1 == at.budget
                  && turn.next.current == if turn.step.Asked? then at.current + 1 else at.current - 1)
  {
    hide Fits, Job.Estimate, Job.Charge;
  }

  lemma LastStepOnLadder(n: nat, budget: nat, start: nat, last: seq<Step>)
    requires start < n && |last| <= 1 && |last| + 1 <= budget
    requires last != [] ==> last[0].Asked? && last[0].index == start
    ensures StaysOnLadder(n, budget, start, last)
  {
    if last != [] {
      assert last[1..] == [];
    }
  }

  lemma LadderAfterStep(n: nat, start: nat, step: Step, next: Position, rest: seq<Step>)
    requires start < n && step.index == start && next.current < n
    requires next.current == if step.Asked? then start + 1 else start - 1
    requires StaysOnLadder(n, next.budget, next.current, rest)
    ensures StaysOnLadder(n, next.budget + 1, start, [step] + rest)
  {
    assert ([step] + rest)[1..] == rest;
  }

  /** The outcome is flagged degraded exactly when the cap forced a downgrade on the way. */
  lemma {:induction false} DegradedMeansDowngraded<S>(job: Job<S>, at: Position)
    requires at.current < |job.ladder| && at.budget >= 1
    ensures var trace := Climb(job, at);
            trace.result.Ok? ==>
              (trace.result.value.degraded <==> at.degraded || exists step <- trace.steps :: step.Downgraded?)
    decreases at.budget
  {
    TurnMoves(job, at);
    match TurnAt(job, at) {
      case Ends(_, _) =>
      case Goes(step, next) =>
        DegradedMeansDowngraded(job, next);
        hide TurnAt;
        var rest := Climb(job, next).steps;
        assert forall s :: s in [step] + rest <==> s == step || s in rest;
    }
  }

  // ---------- The ledger ----------

  function SumCharges(steps: seq<Step>): int {
    if steps == [] then 0 else (if steps[0].Asked? then steps[0].charge else 0) + SumCharges(steps[1..])
  }

  /** The charges are right: a completed call costs its tokens, a failed one nothing. */
  predicate ChargedRight<S>(job: Job<S>, step: Step) {
    step.Asked? ==>
      && step.index < |job.ladder|
      && step.charge == if step.reply.Ok? then job.Charge(step.index, step.reply.value) else 0
  }

  /**
   The ledger of a stretch of the loop that starts with `spent`: before every step the spend is what
   was spent so far, saturating, and every request was made with its estimate within the cap.
   */
  ghost predicate Ledger<S>(job: Job<S>, spent: int, steps: seq<Step>) {
    && (forall step <- steps :: ChargedRight(job, step))
    && (forall k :: 0 <= k < |steps| ==>
          && steps[k].index < |job.ladder|
          && steps[k].spentBefore == Min(spent + SumCharges(steps[..k]), I64_MAX)
          && (steps[k].Asked? <==> Fits(job.Cap(), steps[k].spentBefore, job.Estimate(steps[k].index))))
  }

  lemma {:induction false} SumChargesGrows(steps: seq<Step>)
    requires forall step <- steps :: step.Asked? ==> step.charge >= 0
    ensures SumCharges(steps) >= 0
  {
    if steps != [] {
      SumChargesGrows(steps[1..]);
    }
  }

  lemma ChargesArePositive<S>(job: Job<S>, steps: seq<Step>)
    requires forall step <- steps :: ChargedRight(job, step)
    ensures SumCharges(steps) >= 0
    ensures forall step <- steps :: step.Asked? ==> step.charge >= 0
  {
    hide ModelPrice.CostMicros;
    assert forall step <- steps :: step.Asked? ==> step.charge >= 0;
    SumChargesGrows(steps);
  }

  lemma TurnCharges<S>(job: Job<S>, at: Position)
    requires at.current < |job.ladder| && at.budget >= 1
    ensures match TurnAt(job, at)
            case Goes(step, next) =>
              && ChargedRight(job, step) && step.index == at.current && step.spentBefore == at.spent
              && (step.Asked? ==> step.charge >= 0)
              && (step.Asked? <==> Fits(job.Cap(), at.spent, job.Estimate(at.current)))
            case Ends(last, result) =>
              && (forall step <- last ::
                    && ChargedRight(job, step) && step.index == at.current && step.spentBefore == at.spent
                    && step.Asked? && step.charge >= 0 && Fits(job.Cap(), at.spent, job.Estimate(at.current)))
              && (result.Ok? ==> last != [] && result.value.costMicros == SaturatingAdd(at.spent, last[0].charge))
  {
    hide Fits, Job.Estimate, ModelPrice.CostMicros;
  }

  lemma LedgerExtends<S>(job: Job<S>, spent: int, step: Step, spent': int, rest: seq<Step>)
    requires 0 <= spent <= I64_MAX && step.spentBefore == spent && step.index < |job.ladder|
    requires ChargedRight(job, step) && (step.Asked? ==> step.charge >= 0)
    requires step.Asked? <==> Fits(job.Cap(), spent, job.Estimate(step.index))
    requires spent' == if step.Asked? then SaturatingAdd(spent, step.charge) else spent
    requires Ledger(job, spent', rest)
    ensures Ledger(job, spent, [step] + rest)
    ensures SumCharges([step] + rest) == (if step.Asked? then step.charge else 0) + SumCharges(rest)
    ensures Min(spent' + SumCharges(rest), I64_MAX) == Min(spent + SumCharges([step] + rest), I64_MAX)
  {
    hide Fits, Job.Estimate, ChargedRight;
    var steps := [step] + rest;
    assert steps[1..] == rest;
    assert forall s :: s in steps <==> s == step || s in rest;
    RestIsPositive(job, rest);
    forall k | 0 <= k < |steps|
      ensures steps[k].index < |job.ladder|
      ensures steps[k].spentBefore == Min(spent + SumCharges(steps[..k]), I64_MAX)
      ensures steps[k].Asked? <==> Fits(job.Cap(), steps[k].spentBefore, job.Estimate(steps[k].index))
    {
      if k > 0 {
        assert steps[k] == rest[k - 1];
        assert steps[..k] == [step] + rest[..k - 1];
        assert steps[..k][1..] == rest[..k - 1];
        RestIsPositive(job, rest[..k - 1]);
      }
    }
  }

  lemma RestIsPositive<S>(job: Job<S>, steps: seq<Step>)
    requires forall step <- steps :: ChargedRight(job, step)
    ensures SumCharges(steps) >= 0
  {
    ChargesArePositive(job, steps);
  }

  /**
   The spend ledger: at every request the spend so far and the model's estimate are within the
   cap, every downgrade was forced by it, and the cost of the outcome is the sum over all
   completed calls, rejected ones included.
   */
  lemma {:induction false} LedgerIsKept<S>(job: Job<S>, at: Position)
    requires at.current < |job.ladder| && at.budget >= 1 && 0 <= at.spent <= I64_MAX
    ensures var trace := Climb(job, at);
            && Ledger(job, at.spent, trace.steps)
            && (trace.result.Ok? ==>
                  trace.result.value.costMicros == Min(at.spent + SumCharges(trace.steps), I64_MAX))
    decreases at.budget
  {
    hide *;
    ClimbTakesATurn(job, at);
    if TurnAt(job, at).Ends? {
      LedgerAtTheEnd(job, at);
    } else {
      TurnBeforeLedger(job, at);
      var step, next := TurnAt(job, at).step, TurnAt(job, at).next;
      LedgerIsKept(job, next);
      LedgerExtends(job, at.spent, step, next.spent, Climb(job, next).steps);
    }
  }

  lemma TurnBeforeLedger<S>(job: Job<S>, at: Position)
    requires at.current < |job.ladder| && at.budget >= 1 && 0 <= at.spent <= I64_MAX
    requires TurnAt(job, at).Goes?
    ensures var step, next := TurnAt(job, at).step, TurnAt(job, at).next;
            && 0 <= next.spent <= I64_MAX
            && next.spent == (if step.Asked? then SaturatingAdd(at.spent, step.charge) else at.spent)
            && ChargedRight(job, step) && step.index == at.current && step.spentBefore == at.spent
            && (step.Asked? ==> step.charge >= 0)
            && (step.Asked? <==> Fits(job.Cap(), at.spent, job.Estimate(at.current)))
  {
    TurnMoves(job, at);
    TurnCharges(job, at);
    hide *;
  }

  lemma LedgerAtTheEnd<S>(job: Job<S>, at: Position)
    requires at.current < |job.ladder| && at.budget >= 1 && 0 <= at.spent <= I64_MAX
    requires TurnAt(job, at).Ends?
    ensures var turn := TurnAt(job, at);
            && Ledger(job, at.spent, turn.last)
            && (turn.result.Ok? ==> turn.result.value.costMicros == Min(at.spent + SumCharges(turn.last), I64_MAX))
  {
    TurnMoves(job, at);
    TurnCharges(job, at);
    hide TurnAt, Fits, Job.Estimate, ChargedRight, Ledger, SumCharges;
    EmptyLedger(job, at.spent);
    var last := TurnAt(job, at).last;
    if last != [] {
      assert last[0] in last && last == [last[0]];
      LastStep(job, at.spent, last[0]);
    }
  }

  lemma EmptyLedger<S>(job: Job<S>, spent: int)
    ensures Ledger(job, spent, []) && SumCharges([]) == 0
  {
  }

  lemma LastStep<S>(job: Job<S>, spent: int, step: Step)
    requires 0 <= spent <= I64_MAX && step.spentBefore == spent && step.index < |job.ladder|
    requires ChargedRight(job, step) && step.Asked? && step.charge >= 0
    requires Fits(job.Cap(), spent, job.Estimate(step.index))
    ensures Ledger(job, spent, [step])
    ensures SaturatingAdd(spent, step.charge) == Min(spent + SumCharges([step]), I64_MAX)
  {
    hide Fits, Job.Estimate, ChargedRight;
    EmptyLedger(job, SaturatingAdd(spent, step.charge));
    LedgerExtends(job, spent, step, SaturatingAdd(spent, step.charge), []);
    assert [step] + [] == [step];
  }

  /**
   A completed call is charged for its input and its output at the model's price, less than two
   micro-dollars being cut off.
   */
  lemma ChargeIsPerThousand<S>(job: Job<S>, i: nat, response: LlmResponse)
    requires i < |job.ladder|
    requires var p := job.ladder[i].price;
             && 0 <= job.InputTokens() * p.inputMicrosPerKtoken <= I64_MAX
             && 0 <= EstimateTokens(response.text) * p.outputMicrosPerKtoken <= I64_MAX
    ensures var p := job.ladder[i].price;
            var exact := job.InputTokens() * p.inputMicrosPerKtoken
                         + EstimateTokens(response.text) * p.outputMicrosPerKtoken;
            exact - 2000 < 1000 * job.Charge(i, response) <= exact
  {
    hide ModelPrice.CostMicros;
    var input, output := job.InputTokens(), EstimateTokens(response.text);
    EstimateIsAQuarter(job.prompt);
    EstimateIsAQuarter(response.text);
    CostIsPerThousand(job.ladder[i].price, input, output);
  }

  /** Four bytes count as a token; a text has at least one. */
  lemma EstimateIsAQuarter(text: string)
    ensures var tokens, bytes := EstimateTokens(text), Utf8Length(text);
            tokens >= 1 && (bytes >= 4 ==> 4 * tokens <= bytes < 4 * tokens + 4)
  {
  }

  /** A completed call stayed within the output it was planned for. */
  predicate WithinPlan<S>(job: Job<S>, step: Step) {
    step.Asked? && step.reply.Ok? && step.index < |job.ladder| ==>
      EstimateTokens(step.reply.value.text) <= job.PlannedOutput(step.index)
  }

  /**
   No overspending: if output has no negative price and no answer is longer than planned, all the
   calls of a job together cost no more than its cap.
   */
  lemma {:induction false} NeverOverspends<S>(job: Job<S>, spent: int, steps: seq<Step>)
    requires Ledger(job, spent, steps) && 0 <= spent <= job.Cap() < I64_MAX
    requires forall model <- job.ladder :: model.price.outputMicrosPerKtoken >= 0
    requires forall step <- steps :: WithinPlan(job, step)
    ensures spent + SumCharges(steps) <= job.Cap() == Max(job.capMicros, 0)
  {
    if steps != [] {
      var n := |steps| - 1;
      var step := steps[n];
      LedgerPrefix(job, spent, steps);
      NeverOverspends(job, spent, steps[..n]);
      SumChargesLast(steps);
      assert step in steps;
      if step.Asked? && step.reply.Ok? {
        PlannedChargeFits(job, spent + SumCharges(steps[..n]), step);
      }
      hide Ledger, WithinPlan, Fits;
    }
  }

  lemma LedgerPrefix<S>(job: Job<S>, spent: int, steps: seq<Step>)
    requires steps != [] && Ledger(job, spent, steps)
    ensures var n := |steps| - 1;
            && Ledger(job, spent, steps[..n])
            && SumCharges(steps[..n]) >= 0
            && steps[n].spentBefore == Min(spent + SumCharges(steps[..n]), I64_MAX)
            && ChargedRight(job, steps[n])
            && (steps[n].Asked? ==> Fits(job.Cap(), steps[n].spentBefore, job.Estimate(steps[n].index)))
  {
    hide Fits, Job.Estimate, ChargedRight;
    var n := |steps| - 1;
    forall k | 0 <= k < n
      ensures steps[..n][..k] == steps[..k]
    {
    }
    RestIsPositive(job, steps[..n]);
    assert steps[n] in steps;
  }

  lemma {:induction false} SumChargesLast(steps: seq<Step>)
    requires steps != []
    ensures var n := |steps| - 1;
            SumCharges(steps) == SumCharges(steps[..n]) + if steps[n].Asked? then steps[n].charge else 0
  {
    var n := |steps| - 1;
    if n > 0 {
      SumChargesLast(steps[1..]);
      assert steps[1..][..n - 1] == steps[..n][1..];
    }
  }

  lemma PlannedChargeFits<S>(job: Job<S>, spent: int, step: Step)
    requires step.Asked? && step.reply.Ok? && step.index < |job.ladder| && ChargedRight(job, step)
    requires WithinPlan(job, step) && 0 <= spent <= job.Cap() < I64_MAX
    requires job.ladder[step.index].price.outputMicrosPerKtoken >= 0
    requires Fits(job.Cap(), spent, job.Estimate(step.index))
    ensures spent + step.charge <= job.Cap()
  {
    CostGrowsWithOutput(job.ladder[step.index].price, job.InputTokens(), EstimateTokens(step.reply.value.text),
                        job.PlannedOutput(step.index));
    hide ModelPrice.CostMicros, Job.PlannedOutput, EstimateTokens, Job.InputTokens;
  }

  // ---------- Turning back ----------

  lemma {:induction false} SpendOnlyGrows<S>(job: Job<S>, spent: int, steps: seq<Step>, i: nat, j: nat)
    requires Ledger(job, spent, steps) && i <= j < |steps|
    ensures steps[i].spentBefore <= steps[j].spentBefore
  {
    hide Fits, Job.Estimate, ChargedRight;
    if i < j {
      SpendOnlyGrows(job, spent, steps, i, j - 1);
      var prefix := steps[..j];
      assert prefix[..j - 1] == steps[..j - 1];
      SumChargesLast(prefix);
      assert steps[j - 1] in steps;
      ChargesArePositive(job, steps);
    }
  }

  lemma FitsLessLater(cap: int, spent: int, spent': int, estimate: int)
    requires spent <= spent' && Fits(cap, spent', estimate)
    ensures Fits(cap, spent, estimate)
  {
  }

  /** A model skipped for the cap is never asked later: what did not fit then fits even less after more spending. */
  lemma SkippedIsNeverAsked<S>(job: Job<S>, spent: int, steps: seq<Step>, i: nat, j: nat)
    requires Ledger(job, spent, steps) && i < j < |steps|
    requires steps[i].Downgraded? && steps[j].index == steps[i].index
    ensures steps[j].Downgraded?
  {
    hide Fits, Job.Estimate, ChargedRight, SumCharges;
    SpendOnlyGrows(job, spent, steps, i, j);
    if steps[j].Asked? {
      FitsLessLater(job.Cap(), steps[i].spentBefore, steps[j].spentBefore, job.Estimate(steps[i].index));
    }
  }

  /**
   So a skipped model is a ceiling: the loop never goes above it again, and every climb back to it
   is futile. Escalating after a downgrade always meets a model that was skipped.
   */
  lemma {:induction false} SkippedModelIsACeiling<S>(
    job: Job<S>, start: nat, spent: int, steps: seq<Step>, i: nat, j: nat)
    requires Ledger(job, spent, steps) && Walks(|job.ladder|, start, steps) && i < j < |steps|
    requires steps[i].Downgraded?
    ensures steps[j].index <= steps[i].index && (steps[j].index == steps[i].index ==> steps[j].Downgraded?)
  {
    hide Ledger;
    if i + 1 < j {
      SkippedModelIsACeiling(job, start, spent, steps, i, j - 1);
    }
    if steps[j].index == steps[i].index {
      SkippedIsNeverAsked(job, spent, steps, i, j);
    }
  }

  /** The walk never changes direction before its last step. */
  predicate NeverTurns(steps: seq<Step>) {
    forall k :: 0 <= k && k + 2 < |steps| ==> steps[k].Asked? == steps[k + 1].Asked?
  }

  predicate VisitsOnce(steps: seq<Step>) {
    forall i, j :: 0 <= i < j < |steps| ==> steps[i].index != steps[j].index
  }

  /** No rung is visited twice exactly when the walk never turns: one climb, or one descent, to its last step. */
  lemma RungsRepeatWhenItTurns(n: nat, start: nat, steps: seq<Step>)
    requires Walks(n, start, steps)
    ensures VisitsOnce(steps) <==> NeverTurns(steps)
  {
    if NeverTurns(steps) {
      forall i, j | 0 <= i < j < |steps|
        ensures steps[i].index != steps[j].index
      {
        StraightWalk(n, start, steps, i, j);
      }
    } else {
      var k :| 0 <= k && k + 2 < |steps| && steps[k].Asked? != steps[k + 1].Asked?;
      assert steps[k + 1].index == if steps[k].Asked? then steps[k].index + 1 else steps[k].index - 1;
      assert steps[k + 2].index == steps[k].index;
    }
  }

  lemma {:induction false} StraightWalk(n: nat, start: nat, steps: seq<Step>, i: nat, j: nat)
    requires Walks(n, start, steps) && NeverTurns(steps) && i < j < |steps|
    ensures steps[j].index == if steps[i].Asked? then steps[i].index + (j - i) else steps[i].index - (j - i)
    ensures steps[j - 1].Asked? == steps[i].Asked?
  {
    if i + 1 < j {
      StraightWalk(n, start, steps, i, j - 1);
      assert steps[j - 2].Asked? == steps[j - 1].Asked?;
    }
  }

  /** No rung is asked twice, and none is skipped twice: at most one visit in each direction. */
  predicate OncePerDirection(steps: seq<Step>) {
    forall i, j :: 0 <= i < j < |steps| && steps[i].index == steps[j].index ==> steps[i].Asked? != steps[j].Asked?
  }

  /**
   The walk turns up only to end there: on the way down, from the start or after the climb, a model
   is asked in the last step alone, and then one below where the walk began if it began by asking.
   */
  predicate TurnsUpOnlyToEnd(steps: seq<Step>) {
    forall k :: 0 <= k && k + 1 < |steps| && steps[k].Downgraded? && steps[k + 1].Asked? ==>
      k + 2 == |steps| && (steps[0].Downgraded? || steps[k + 1].index < steps[0].index)
  }

  lemma {:induction false} AskedFromTheStart(n: nat, start: nat, steps: seq<Step>, m: nat)
    requires Walks(n, start, steps) && m < |steps| && forall t :: 0 <= t < m ==> steps[t].Asked?
    ensures steps[m].index == start + m
  {
    if m > 0 {
      AskedFromTheStart(n, start, steps, m - 1);
      assert steps[m - 1].Asked?;
    }
  }

  /** The first skipped step at or before a skipped one: the top of the climb. */
  lemma {:induction false} TopOfTheClimb(steps: seq<Step>, k: nat) returns (m: nat)
    requires k < |steps| && steps[k].Downgraded?
    ensures m <= k && steps[m].Downgraded? && forall t :: 0 <= t < m ==> steps[t].Asked?
  {
    if t :| 0 <= t < k && steps[t].Downgraded? {
      m := TopOfTheClimb(steps, t);
    } else {
      m := k;
    }
  }

  /** Turning up in any other way visits a rung twice in one direction. */
  lemma TurningUpRepeats<S>(job: Job<S>, start: nat, spent: int, steps: seq<Step>, k: nat)
    requires Ledger(job, spent, steps) && Walks(|job.ladder|, start, steps)
    requires k + 1 < |steps| && steps[k].Downgraded? && steps[k + 1].Asked?
    requires k + 2 < |steps| || (steps[0].Asked? && steps[k + 1].index >= steps[0].index)
    ensures !OncePerDirection(steps)
  {
    hide Ledger;
    assert steps[k + 1].index == steps[k].index - 1;
    if k + 2 < |steps| {
      assert steps[k + 2].index == steps[k].index;
      SkippedIsNeverAsked(job, spent, steps, k, k + 2);
    } else {
      var m := TopOfTheClimb(steps, k);
      AskedFromTheStart(|job.ladder|, start, steps, m);
      if m < k {
        SkippedModelIsACeiling(job, start, spent, steps, m, k);
      }
      var i := steps[k + 1].index - start;
      AskedFromTheStart(|job.ladder|, start, steps, i);
      assert 0 <= i < m && steps[i].Asked? && steps[i].index == steps[k + 1].index;
    }
  }

  /** From a skipped step on, a walk that turns up only to end goes down, and asks in its last step at most. */
  lemma {:induction false} DownFromTheTop(n: nat, start: nat, steps: seq<Step>, m: nat, j: nat)
    requires Walks(n, start, steps) && TurnsUpOnlyToEnd(steps) && m < j < |steps| && steps[m].Downgraded?
    ensures steps[j].index == steps[m].index - (j - m)
    ensures steps[j].Asked? ==> j + 1 == |steps| && (steps[0].Downgraded? || steps[j].index < steps[0].index)
  {
    if m + 1 < j {
      DownFromTheTop(n, start, steps, m, j - 1);
    }
    assert steps[j - 1].Downgraded?;
    assert steps[j].index == steps[j - 1].index - 1;
    if steps[j].Asked? {
      var k := j - 1;
      assert steps[k].Downgraded? && steps[k + 1].Asked?;
    }
  }

  lemma TurningUpToEndIsOnce(n: nat, start: nat, steps: seq<Step>)
    requires Walks(n, start, steps) && TurnsUpOnlyToEnd(steps)
    ensures OncePerDirection(steps)
  {
    forall i, j | 0 <= i < j < |steps| && steps[i].Asked? == steps[j].Asked?
      ensures steps[i].index != steps[j].index
    {
      if t :| 0 <= t <= j && steps[t].Downgraded? {
        var m := TopOfTheClimb(steps, t);
        AskedFromTheStart(n, start, steps, m);
        if m < j {
          DownFromTheTop(n, start, steps, m, j);
        }
        if m < i {
          DownFromTheTop(n, start, steps, m, i);
        } else if i < m {
          AskedFromTheStart(n, start, steps, i);
        }
      } else {
        AskedFromTheStart(n, start, steps, i);
        AskedFromTheStart(n, start, steps, j);
      }
    }
  }

  /**
   The loop visits every rung at most once in each direction exactly if it turns up only to end. It
   does not when an answer to a model reached by downgrading is rejected with turns left, for the
   next turn skips the same model again; nor when such a model had been asked on the climb.
   */
  lemma OneVisitPerDirection<S>(job: Job<S>, at: Position)
    requires at.current < |job.ladder| && at.budget >= 1 && 0 <= at.spent <= I64_MAX
    ensures OncePerDirection(Climb(job, at).steps) <==> TurnsUpOnlyToEnd(Climb(job, at).steps)
  {
    hide Climb, Ledger, Walks, OncePerDirection;
    var steps := Climb(job, at).steps;
    LedgerIsKept(job, at);
    LoopStaysOnLadder(job, at);
    if TurnsUpOnlyToEnd(steps) {
      TurningUpToEndIsOnce(|job.ladder|, at.current, steps);
    } else {
      var k :| 0 <= k && k + 1 < |steps| && steps[k].Downgraded? && steps[k + 1].Asked?
               && !(k + 2 == |steps| && (steps[0].Downgraded? || steps[k + 1].index < steps[0].index));
      TurningUpRepeats(job, at.current, at.spent, steps, k);
    }
  }

  // ---------- Room to climb ----------

  /** What the models from `i` up are estimated to cost together. */
  function EstimatesFrom<S>(job: Job<S>, i: nat): int
    requires i <= |job.ladder|
    decreases |job.ladder| - i
  {
    if i == |job.ladder| then 0 else Max(job.Estimate(i), 0) + EstimatesFrom(job, i + 1)
  }

  /** No answer of the engine costs more than its model's estimate. */
  ghost predicate AnswersWithinEstimate<S>(job: Job<S>) {
    forall k: nat, i: nat | i < |job.ladder| ::
      job.engine(k, job.RequestTo(i)).Ok? ==>
        job.Charge(i, job.engine(k, job.RequestTo(i)).value) <= Max(job.Estimate(i), 0)
  }

  /** There is no effective cap, or it leaves room for all the models from `i` up as estimated. */
  ghost predicate HasRoom<S>(job: Job<S>, i: nat, spent: int)
    requires i <= |job.ladder|
  {
    job.Cap() == I64_MAX || (AnswersWithinEstimate(job) && 0 <= spent && spent + EstimatesFrom(job, i) <= job.Cap())
  }

  /**
   With no effective cap, or one that leaves room for the estimates of all the models from the
   start up, nothing is ever downgraded: the loop only climbs, one request per model.
   */
  lemma {:induction false} RoomyLoopOnlyClimbs<S>(job: Job<S>, at: Position)
    requires at.current < |job.ladder| && at.budget >= 1 && HasRoom(job, at.current, at.spent)
    ensures var steps := Climb(job, at).steps;
            && |steps| <= |job.ladder| - at.current
            && forall k :: 0 <= k < |steps| ==> steps[k].Asked? && steps[k].index == at.current + k
    decreases at.budget
  {
    hide *;
    ClimbTakesATurn(job, at);
    RoomyTurnGoesUp(job, at);
    if TurnAt(job, at).Goes? {
      RoomyLoopOnlyClimbs(job, TurnAt(job, at).next);
    }
  }

  lemma EstimatesAreNonNegative<S>(job: Job<S>, i: nat)
    requires i <= |job.ladder|
    ensures EstimatesFrom(job, i) >= 0
    decreases |job.ladder| - i
  {
    hide Job.Estimate;
  }

  lemma RoomFits<S>(job: Job<S>, i: nat, spent: int)
    requires i < |job.ladder| && HasRoom(job, i, spent)
    ensures Fits(job.Cap(), spent, job.Estimate(i))
  {
    hide Job.Estimate, AnswersWithinEstimate;
    EstimatesAreNonNegative(job, i + 1);
  }

  lemma RoomyTurnGoesUp<S>(job: Job<S>, at: Position)
    requires at.current < |job.ladder| && at.budget >= 1 && HasRoom(job, at.current, at.spent)
    ensures var turn := TurnAt(job, at);
            && (turn.Goes? ==>
                  && turn.step.Asked? && turn.step.index == at.current && turn.next.current == at.current + 1
                  && turn.next.current < |job.ladder| && HasRoom(job, turn.next.current, turn.next.spent))
            && (turn.Ends? ==>
                  |turn.last| <= 1 && (turn.last != [] ==> turn.last[0].Asked? && turn.last[0].index == at.current))
  {
    hide Fits, Job.Estimate, Job.Charge;
    RoomFits(job, at.current, at.spent);
    ChargesAreNonNegative(job);
  }

  lemma ChargesAreNonNegative<S>(job: Job<S>)
    ensures forall i: nat, response | i < |job.ladder| :: job.Charge(i, response) >= 0
  {
    hide ModelPrice.CostMicros, EstimateTokens;
  }

  // ---------- How it ends ----------

  /** The request failed in a way that a stronger model may mend: a rejected answer, or no service. */
  predicate CallsForMore<S>(job: Job<S>, step: Step) {
    && step.Asked?
    && if step.reply.Ok? then job.finalize(step.reply.value).Err? else step.reply.error.failure == ServiceUnavailable
  }

  /** A step the loop does not end with while it has turns: a downgrade, or a mendable failure below the top. */
  predicate GoesOnAfter<S>(job: Job<S>, step: Step) {
    step.Downgraded? || (CallsForMore(job, step) && step.index + 1 < |job.ladder|)
  }

  /**
   How a stretch of the loop from model `start` with `budget` turns goes: on after every step but the
   last, and to the end its steps leave it. Out of turns it reports an unavailable service; with
   nothing cheaper than a model that does not fit, too low a cap; and else what the last reply says.
   */
  ghost predicate Earned<S>(job: Job<S>, budget: nat, start: nat, trace: Trace<S>) {
    var steps, n := trace.steps, |trace.steps|;
    && (forall k :: 0 <= k < n - 1 ==> GoesOnAfter(job, steps[k]))
    && if n + 1 == budget && (n == 0 || GoesOnAfter(job, steps[n - 1]))
       then trace.result == Err(Llm(ServiceUnavailable))
       else if n == 0 || steps[n - 1].Downgraded?
       then trace.result == Err(CostCapTooLow) && (if n == 0 then start == 0 else steps[n - 1].index == 1)
       else
         && !GoesOnAfter(job, steps[n - 1])
         && match steps[n - 1].reply
            case Err(error) => trace.result == Err(Llm(error.failure))
            case Ok(response) =>
              match job.finalize(response)
              case Err(q) => trace.result == Err(Quality(q))
              case Ok(summary) =>
                trace.result.Ok? && trace.result.value.summary == summary && trace.result.value.model == response.model
  }

  /**
   Every ending is earned, and the loop ends when it must and not before: a rejected answer, or an
   unavailable service, leads to the next stronger model as long as there is one and a turn left;
   any other failure ends the loop at once.
   */
  lemma {:induction false} FailuresAreEarned<S>(job: Job<S>, at: Position)
    requires at.current < |job.ladder| && at.budget >= 1
    ensures Earned(job, at.budget, at.current, Climb(job, at))
    decreases at.budget
  {
    hide *;
    ClimbTakesATurn(job, at);
    var turn := TurnAt(job, at);
    if turn.Ends? {
      EndIsEarned(job, at);
    } else {
      TurnOnLadder(job, at);
      TurnGoesOn(job, at);
      FailuresAreEarned(job, turn.next);
      EarnedAfterStep(job, turn.next.budget, at.current, turn.step, turn.next.current, Climb(job, turn.next));
    }
  }

  lemma EndIsEarned<S>(job: Job<S>, at: Position)
    requires at.current < |job.ladder| && at.budget >= 1 && TurnAt(job, at).Ends?
    ensures Earned(job, at.budget, at.current, Trace(TurnAt(job, at).last, TurnAt(job, at).result))
  {
    hide Fits, Job.Estimate, Job.Charge;
  }

  lemma TurnGoesOn<S>(job: Job<S>, at: Position)
    requires at.current < |job.ladder| && at.budget >= 1 && TurnAt(job, at).Goes?
    ensures GoesOnAfter(job, TurnAt(job, at).step)
  {
    hide Fits, Job.Estimate, Job.Charge;
  }

  lemma EarnedAfterStep<S>(job: Job<S>, budget: nat, start: nat, step: Step, next: nat, rest: Trace<S>)
    requires Earned(job, budget, next, rest) && GoesOnAfter(job, step)
    requires step.index == start && next == if step.Asked? then start + 1 else start - 1
    ensures Earned(job, budget + 1, start, Trace([step] + rest.steps, rest.result))
  {
    hide GoesOnAfter;
    var steps := [step] + rest.steps;
    assert forall k :: 0 < k < |steps| ==> steps[k] == rest.steps[k - 1];
    assert rest.steps != [] ==> steps[|steps| - 1] == rest.steps[|rest.steps| - 1];
    assert GoesOnAfter(job, steps[0]);
  }

  /** The service is reported unavailable only by the strongest model, or when the turns have run out. */
  lemma UnavailableIsTheLastResort<S>(job: Job<S>, at: Position)
    requires at.current < |job.ladder| && at.budget >= 1
    requires Climb(job, at).result == Err(Llm(ServiceUnavailable))
    ensures var steps := Climb(job, at).steps;
            || |steps| + 1 == at.budget
            || (steps != [] && steps[|steps| - 1].Asked? && steps[|steps| - 1].index == |job.ladder| - 1)
  {
    hide Climb;
    FailuresAreEarned(job, at);
    LoopOnLadder(job, at);
  }

  lemma LoopOnLadder<S>(job: Job<S>, at: Position)
    requires at.current < |job.ladder| && at.budget >= 1
    ensures forall k :: 0 <= k < |Climb(job, at).steps| ==> Climb(job, at).steps[k].index < |job.ladder|
  {
    hide Climb;
    LoopStaysOnLadder(job, at);
  }

  /** The replies are the engine's own: each request goes to the model of its step, once. */
  ghost predicate AnsweredByTheLadder<S>(job: Job<S>, requests: nat, steps: seq<Step>) {
    forall k :: 0 <= k < |steps| ==> RepliesTo(job, requests + CountAsked(steps[..k]), steps[k])
  }

  lemma {:induction false} RepliesAreTheModels<S>(job: Job<S>, at: Position)
    requires at.current < |job.ladder| && at.budget >= 1
    ensures AnsweredByTheLadder(job, at.requests, Climb(job, at).steps)
    decreases at.budget
  {
    hide *;
    ClimbTakesATurn(job, at);
    TurnAsks(job, at);
    var turn := TurnAt(job, at);
    if turn.Ends? {
      LastReply(job, at.requests, turn.last);
    } else {
      RepliesAreTheModels(job, turn.next);
      OneMoreReply(job, at.requests, turn.step, turn.next.requests, Climb(job, turn.next).steps);
    }
  }

  lemma TurnAsks<S>(job: Job<S>, at: Position)
    requires at.current < |job.ladder| && at.budget >= 1
    ensures match TurnAt(job, at)
            case Goes(step, next) =>
              next.requests == at.requests + (if step.Asked? then 1 else 0) && RepliesTo(job, at.requests, step)
            case Ends(last, _) => |last| <= 1 && (last != [] ==> RepliesTo(job, at.requests, last[0]))
  {
    hide Fits, Job.Estimate, Job.Charge, Job.RequestTo;
  }

  predicate RepliesTo<S>(job: Job<S>, request: nat, step: Step) {
    step.Asked? ==> step.index < |job.ladder| && step.reply == job.engine(request, job.RequestTo(step.index))
  }

  lemma LastReply<S>(job: Job<S>, requests: nat, last: seq<Step>)
    requires |last| <= 1 && (last != [] ==> RepliesTo(job, requests, last[0]))
    ensures AnsweredByTheLadder(job, requests, last)
  {
    hide RepliesTo;
    if last != [] {
      assert last[..0] == [];
    }
  }

  lemma OneMoreReply<S>(job: Job<S>, requests: nat, step: Step, next: nat, rest: seq<Step>)
    requires RepliesTo(job, requests, step) && next == requests + if step.Asked? then 1 else 0
    requires AnsweredByTheLadder(job, next, rest)
    ensures AnsweredByTheLadder(job, requests, [step] + rest)
  {
    hide RepliesTo;
    var steps := [step] + rest;
    forall k | 0 <= k < |steps|
      ensures RepliesTo(job, requests + CountAsked(steps[..k]), steps[k])
    {
      if k == 0 {
        assert steps[..0] == [];
      } else {
        assert steps[..k][1..] == rest[..k - 1];
        assert RepliesTo(job, next + CountAsked(rest[..k - 1]), rest[k - 1]);
      }
    }
  }

  /** A cap is only reported too low when what was spent leaves no room for the cheapest model. */
  lemma {:induction false} CapTooLowAtTheCheapest<S>(job: Job<S>, at: Position)
    requires at.current < |job.ladder| && at.budget >= 1 && 0 <= at.spent <= I64_MAX
    requires Climb(job, at).result == Err(CostCapTooLow)
    ensures !Fits(job.Cap(), Min(at.spent + SumCharges(Climb(job, at).steps), I64_MAX), job.Estimate(0))
    decreases at.budget
  {
    hide *;
    ClimbTakesATurn(job, at);
    if TurnAt(job, at).Ends? {
      LastTurnWithoutRoom(job, at);
    } else {
      TurnBeforeLedger(job, at);
      var step, next := TurnAt(job, at).step, TurnAt(job, at).next;
      LedgerIsKept(job, next);
      LedgerExtends(job, at.spent, step, next.spent, Climb(job, next).steps);
      CapTooLowAtTheCheapest(job, next);
    }
  }

  lemma LastTurnWithoutRoom<S>(job: Job<S>, at: Position)
    requires at.current < |job.ladder| && at.budget >= 1 && 0 <= at.spent <= I64_MAX
    requires TurnAt(job, at).Ends? && TurnAt(job, at).result == Err(CostCapTooLow)
    ensures !Fits(job.Cap(), Min(at.spent + SumCharges(TurnAt(job, at).last), I64_MAX), job.Estimate(0))
  {
    hide Fits, Job.Estimate, Job.Charge;
  }

  /**
   A rung can be asked again and again: with a cap that fits only the cheaper of two models, whose
   answers keep being rejected, the loop asks it twice, is refused the other one twice, and
   runs out of turns, reporting an unavailable service although every call was answered.
   */
  lemma AlternatingExhaustsTheBudget<S>(job: Job<S>, response: LlmResponse)
    requires |job.ladder| == 2 && job.length == Brief && job.capMicros == 0
    requires job.ladder[0].price == ModelPrice(0, 0) && job.Estimate(1) > 0
    requires forall k :: job.engine(k, job.RequestTo(0)) == Ok(response)
    requires job.finalize(response) == Err(Truncated)
    ensures var asked := Asked(0, 0, Ok(response), 0);
            Climb(job, Start(job))
              == Trace([asked, Downgraded(1, 0), asked, Downgraded(1, 0)], Err(Llm(ServiceUnavailable)))
  {
    assert job.Estimate(0) == 0 && job.Charge(0, response) == 0;
    hide Job.Estimate, Job.Charge, Job.RequestTo;
    var asked := Asked(0, 0, Ok(response), 0);
    var a, b, c, d, e := Position(5, 0, false, 0, 0), Position(4, 1, false, 0, 1), Position(3, 0, true, 0, 1),
                         Position(2, 1, true, 0, 2), Position(1, 0, true, 0, 2);
    assert TurnAt(job, a) == Goes(asked, b);
    assert TurnAt(job, b) == Goes(Downgraded(1, 0), c);
    assert TurnAt(job, c) == Goes(asked, d);
    assert TurnAt(job, d) == Goes(Downgraded(1, 0), e);
    assert Climb(job, e) == Trace([], Err(Llm(ServiceUnavailable)));
    assert Climb(job, d) == Trace([Downgraded(1, 0)], Err(Llm(ServiceUnavailable)));
    assert Climb(job, c) == Trace([asked, Downgraded(1, 0)], Err(Llm(ServiceUnavailable)));
    assert Climb(job, b) == Trace([Downgraded(1, 0), asked, Downgraded(1, 0)], Err(Llm(ServiceUnavailable)));
  }
}
