/** Token allocation: how many chunks an input is split into, and what each chunk may hold. */
module Allocation {
  import opened Numbers

  datatype Plan = Plan(chunks: int, inputTokensPerChunk: int, outputTokensPerChunk: int)

  function CeilDiv(a: int, b: int): int
    requires b >= 1
  {
    (a + b - 1) / b
  }

  /** Room for input in one window, beside the output reserve and the prompt. */
  function PerWindowInput(contextTokens: int, desiredOutput: int, promptOverhead: int): int {
    Max(contextTokens - Max(desiredOutput, 1) - Max(promptOverhead, 0), 1)
  }

  function Allocate(inputTokens: int, contextTokens: int, desiredOutput: int, promptOverhead: int): Plan {
    var input, output := Max(inputTokens, 0), Max(desiredOutput, 1);
    var perWindow := PerWindowInput(contextTokens, desiredOutput, promptOverhead);
    if input <= perWindow then
      Plan(1, Max(input, 1), output)
    else
      var chunks := CeilDiv(input, perWindow);
      CeilDivCovers(input, perWindow);
      Plan(Min(chunks, U32_MAX), CeilDiv(input, chunks), Max(output / chunks, 256))
  }

  /** `CeilDiv(a, b)` is the least number of parts of size `b` that hold `a`. */
  lemma CeilDivCovers(a: int, b: int)
    requires a >= 1 && b >= 1
    ensures CeilDiv(a, b) >= 1
    ensures (CeilDiv(a, b) - 1) * b < a <= CeilDiv(a, b) * b
  {
    var q := CeilDiv(a, b);
    DivisionOf(a + b - 1, b);
    assert (q - 1) * b == q * b - b;
    if q <= 0 {
      MultiplesAscend(q, 0, b);
    }
  }

  lemma FewerPartsFallShort(a: int, b: int, parts: int)
    requires a >= 1 && b >= 1 && parts < CeilDiv(a, b)
    ensures parts * b < a
  {
    CeilDivCovers(a, b);
    MultiplesAscend(parts, CeilDiv(a, b) - 1, b);
  }

  /**
   When the chunk count fits 32 bits, the plan is the best equal split: its chunks hold the whole
   input, each fits what a window has room for (at least one token), no smaller number of windows
   would do, and no chunk is left empty.
   */
  lemma PlanIsFewestEqualChunks(input: int, context: int, output: int, overhead: int)
    requires input >= 1
    requires CeilDiv(input, PerWindowInput(context, output, overhead)) <= U32_MAX
    ensures var p := Allocate(input, context, output, overhead);
            var perWindow := PerWindowInput(context, output, overhead);
            && p.chunks >= 1
            && p.chunks * p.inputTokensPerChunk >= input
            && p.inputTokensPerChunk <= perWindow
            && (forall parts :: parts < p.chunks ==> parts * perWindow < input)
            && (p.chunks - 1) * p.inputTokensPerChunk < input
  {
    hide CeilDiv;
    var perWindow := PerWindowInput(context, output, overhead);
    NoFewerParts(input, perWindow);
    if input > perWindow {
      EqualSplit(input, perWindow);
    } else {
      forall parts | parts < 1
        ensures parts * perWindow < input
      {
        MultiplesAscend(parts, 0, perWindow);
      }
    }
  }

  lemma NoFewerParts(a: int, b: int)
    requires a >= 1 && b >= 1
    ensures forall parts :: parts < CeilDiv(a, b) ==> parts * b < a
  {
    hide CeilDiv;
    forall parts | parts < CeilDiv(a, b)
      ensures parts * b < a
    {
      FewerPartsFallShort(a, b, parts);
    }
  }

  /** Splitting into the fewest parts equally keeps each part within its room, and the last one in use. */
  lemma EqualSplit(input: int, room: int)
    requires input >= 1 && room >= 1
    ensures var chunks := CeilDiv(input, room);
            && chunks >= 1
            && var each := CeilDiv(input, chunks);
            each >= 1 && chunks * each >= input && each <= room && (chunks - 1) * each < input
  {
    hide CeilDiv;
    CeilDivCovers(input, room);
    var chunks := CeilDiv(input, room);
    CeilDivCovers(input, chunks);
    var each := CeilDiv(input, chunks);
    assert room * chunks == chunks * room && each * chunks == chunks * each;
    if each > room {
      FewerPartsFallShort(input, chunks, room);
    }
    LessEachLessAll(chunks - 1, each, room);
  }

  lemma LessEachLessAll(n: int, a: int, b: int)
    requires n >= 0 && a <= b
    ensures n * a <= n * b
  {
    ProductIsNonNegative(n, b - a);
    assert n * (b - a) == n * b - n * a;
  }

  lemma QuotientIsAtMost(a: int, b: int)
    requires a >= 0 && b >= 1
    ensures 0 <= a / b <= a
  {
    DivisionOf(a, b);
    ProductAtLeastFactor(b, a);
    assert a * b == b * a;
    if a / b > a {
      MultiplesAscend(a, a / b, b);
    } else if a / b < 0 {
      MultiplesAscend(a / b, 0, b);
    }
  }

  /** A chunk with its output and the prompt fits the window. */
  predicate ChunkFits(input: int, context: int, output: int, overhead: int) {
    var p := Allocate(input, context, output, overhead);
    p.inputTokensPerChunk + p.outputTokensPerChunk + Max(overhead, 0) <= context
  }

  /** The plan's chunk count is not cut off at 32 bits. */
  predicate CountFits(input: int, context: int, output: int, overhead: int) {
    CeilDiv(input, PerWindowInput(context, output, overhead)) <= U32_MAX
  }

  lemma ChunkFitsWindow(input: int, context: int, output: int, overhead: int)
    requires input >= 1 && output >= 256 && context > output + Max(overhead, 0)
    requires CountFits(input, context, output, overhead)
    ensures ChunkFits(input, context, output, overhead)
  {
    PlanIsFewestEqualChunks(input, context, output, overhead);
    var perWindow := PerWindowInput(context, output, overhead);
    if input > perWindow {
      CeilDivCovers(input, perWindow);
      QuotientIsAtMost(output, CeilDiv(input, perWindow));
    }
  }

  /** Below 256 wanted output tokens, two windows' worth of input overrun the window. */
  lemma TwoWindowsOverrun(context: int, output: int, overhead: int)
    requires output < 256 && context > Max(output, 1) + Max(overhead, 0)
    ensures var input := 2 * (context - Max(output, 1) - Max(overhead, 0));
            input >= 1 && CountFits(input, context, output, overhead) && !ChunkFits(input, context, output, overhead)
  {
    var window := context - Max(output, 1) - Max(overhead, 0);
    QuotientIsUnique(2, window - 1, window);
    QuotientIsUnique(window, 1, 2);
    assert CeilDiv(2 * window, window) == 2 && CeilDiv(2 * window, 2) == window;
  }

  /**
   The wanted output is shared: a single chunk has all of it, and each of several as much as fits into
   it so many times, but 256 at least.
   */
  lemma OutputIsShared(input: int, context: int, output: int, overhead: int)
    requires CountFits(input, context, output, overhead)
    ensures var p, wanted := Allocate(input, context, output, overhead), Max(output, 1);
            && p.chunks >= 1
            && (p.chunks == 1 ==> p.outputTokensPerChunk == wanted)
            && (p.chunks > 1 ==>
                  && p.outputTokensPerChunk >= 256
                  && (p.outputTokensPerChunk > 256 ==> p.chunks * p.outputTokensPerChunk <= wanted)
                  && wanted < p.chunks * (p.outputTokensPerChunk + 1))
  {
    hide CeilDiv;
    var perWindow, wanted := PerWindowInput(context, output, overhead), Max(output, 1);
    if Max(input, 0) > perWindow {
      var chunks := CeilDiv(Max(input, 0), perWindow);
      CeilDivCovers(Max(input, 0), perWindow);
      ShareOfOutput(wanted, chunks);
    }
  }

  lemma ShareOfOutput(wanted: int, chunks: int)
    requires chunks >= 1
    ensures wanted < chunks * (Max(wanted / chunks, 256) + 1)
    ensures Max(wanted / chunks, 256) > 256 ==> chunks * Max(wanted / chunks, 256) <= wanted
  {
    var q := wanted / chunks;
    DivisionOf(wanted, chunks);
    MultiplesAscend(q + 1, Max(q, 256) + 1, chunks);
    assert (q + 1) * chunks == q * chunks + chunks;
  }

  /** A window without room for input overruns with any: the plan still gives it one token. */
  lemma NoRoomOverruns(context: int, output: int, overhead: int)
    requires context <= Max(output, 1) + Max(overhead, 0)
    ensures CountFits(1, context, output, overhead) && !ChunkFits(1, context, output, overhead)
  {
  }

  /**
   Whatever the input, a chunk fits its window together with its output and the prompt, exactly if
   the window leaves room for input and at least 256 output tokens are wanted: the floor on a
   chunk's output is safe from there on, and for no smaller amount.
   */
  lemma FloorIsSafeFrom256(context: int, output: int, overhead: int)
    ensures (forall input :: input >= 1 && CountFits(input, context, output, overhead) ==>
               ChunkFits(input, context, output, overhead))
       <==> output >= 256 && context > output + Max(overhead, 0)
  {
    hide ChunkFits, CountFits;
    if context <= Max(output, 1) + Max(overhead, 0) {
      NoRoomOverruns(context, output, overhead);
    } else if output < 256 {
      TwoWindowsOverrun(context, output, overhead);
    } else {
      forall input | input >= 1 && CountFits(input, context, output, overhead)
        ensures ChunkFits(input, context, output, overhead)
      {
        ChunkFitsWindow(input, context, output, overhead);
      }
    }
  }
}
