/**
 The parser of WhatsApp chat exports: a header line opens a message, any other line continues the
 last one. Case folding is done on ASCII letters, which decides every phrase looked for here.
 */
module WhatsAppParser {
  import opened Numbers
  import opened Stamps
  import opened Text
  import opened Wrappers
  import opened Zones

  datatype WhatsAppFormat = Ios | Android

  /** A message before its sender is resolved; a system line has no sender. */
  datatype RawMessage = RawMessage(
    timestamp: int, sender: Option<string>, content: string, isSystem: bool, hasMedia: bool)

  datatype ChatEventKind = GroupCreated | MemberJoinedOrAdded

  datatype ChatEvent = ChatEvent(kind: ChatEventKind, timestamp: int, text: string)

  datatype ParsedExport = ParsedExport(
    format: WhatsAppFormat, messages: seq<RawMessage>, events: seq<ChatEvent>, dateRange: Option<(int, int)>)

  /** What is declared with an upload: the file says neither. */
  datatype Declared = Declared(zone: Zone, order: DateOrder)

  // ---------- Lines ----------

  function StripCr(line: string): string {
    if line != [] && line[|line| - 1] == '\r' then line[..|line| - 1] else line
  }

  /** The lines of a text: ended by a newline, which may follow a carriage return, or by the end. */
  function Lines(s: string): seq<string> {
    if s == [] then []
    else
      match Find(s, "\n")
      case None => [s]
      case Some(i) => [StripCr(s[..i])] + Lines(s[i + 1..])
  }

  /** Direction and zero-width marks. */
  predicate IsMark(c: char) {
    var n := c as int;
    n == 0x200E || n == 0x200F || n == 0xFEFF || 0x200B <= n <= 0x200D || 0x202A <= n <= 0x202E
  }

  predicate IsNoBreakSpace(c: char) {
    c as int == 0xA0 || c as int == 0x202F
  }

  function SanitizedChar(c: char): string {
    if IsMark(c) then [] else if IsNoBreakSpace(c) then " " else [c]
  }

  function Sanitized(line: string): string {
    if line == [] then [] else Sanitized(line[..|line| - 1]) + SanitizedChar(line[|line| - 1])
  }

  // ---------- One line ----------

  /** The stamp of a line that starts a message, as local seconds, and the text after it. */
  datatype Header = Header(local: int, rest: string, format: WhatsAppFormat)

  /** `[stamp] rest` */
  function IosHeader(line: string, order: DateOrder): Option<Header> {
    if line == [] || line[0] != '[' then None else BracketedHeader(line[1..], order)
  }

  function BracketedHeader(stripped: string, order: DateOrder): Option<Header> {
    match Find(stripped, "]")
    case None => None
    case Some(end) =>
      match ParseStamp(Trim(stripped[..end]), order)
      case None => None
      case Some(local) => Some(Header(local, TrimStart(stripped[end + 1..]), Ios))
  }

  /** `stamp - rest` */
  function AndroidHeader(line: string, order: DateOrder): Option<Header> {
    match Find(line, " - ")
    case None => None
    case Some(i) =>
      match ParseStamp(Trim(line[..i]), order)
      case None => None
      case Some(local) => Some(Header(local, line[i + 3..], Android))
  }

  function SplitHeader(line: string, order: DateOrder): Option<Header> {
    match IosHeader(line, order)
    case Some(h) => Some(h)
    case None => AndroidHeader(line, order)
  }

  datatype Body = Body(sender: Option<string>, content: string, isSystem: bool)

  /** `Sender: text`, or a system line when there is no plausible sender. */
  function SplitBody(rest: string): Body {
    match Find(rest, ": ")
    case None => Body(None, rest, true)
    case Some(i) =>
      if i > 0 && i <= 80 && '\n' !in rest[..i] then Body(Some(rest[..i]), rest[i + 2..], false)
      else Body(None, rest, true)
  }

  function Lowercased(s: string): (r: string)
    ensures |r| == |s|
  {
    seq(|s|, i requires 0 <= i < |s| => if 'A' <= s[i] <= 'Z' then s[i] - 'A' + 'a' else s[i])
  }

  function ClassifyEvent(text: string): Option<ChatEventKind> {
    var t := Lowercased(text);
    if Contains(t, "created group") || Contains(t, "created this group") then Some(GroupCreated)
    else if Contains(t, " added ") || Contains(t, "was added") || Contains(t, "were added") || Contains(t, " joined")
    then Some(MemberJoinedOrAdded)
    else None
  }

  predicate IsMedia(content: string) {
    var t := Lowercased(content);
    || Contains(t, "media omitted") || Contains(t, "image omitted") || Contains(t, "video omitted")
    || Contains(t, "audio omitted") || Contains(t, "<attached")
  }

  // ---------- The whole export ----------

  /** What has been read so far. */
  datatype Progress = Progress(format: WhatsAppFormat, messages: seq<RawMessage>, events: seq<ChatEvent>)

  const NOTHING_READ := Progress(Ios, [], [])

  function EventsOf(body: Body, timestamp: int): seq<ChatEvent> {
    if body.isSystem && ClassifyEvent(body.content).Some? then
      [ChatEvent(ClassifyEvent(body.content).value, timestamp, body.content)]
    else []
  }

  function MessageOf(body: Body, timestamp: int): RawMessage {
    RawMessage(timestamp, body.sender, body.content, body.isSystem, IsMedia(body.content))
  }

  function Opened(p: Progress, h: Header, timestamp: int): Progress {
    var body := SplitBody(h.rest);
    Progress(h.format, p.messages + [MessageOf(body, timestamp)], p.events + EventsOf(body, timestamp))
  }

  function Extended(m: RawMessage, text: string): RawMessage {
    var content := m.content + "\n" + text;
    m.(content := content, hasMedia := m.hasMedia || IsMedia(content))
  }

  function Continued(p: Progress, line: string): Progress {
    if p.messages == [] then p
    else
      var last := |p.messages| - 1;
      p.(messages := p.messages[last := Extended(p.messages[last], TrimEnd(line))])
  }

  /** One line: a header whose local time exists opens a message, one whose does not is skipped. */
  function Feed(x: Declared, p: Progress, raw: string): Progress {
    var line := Sanitized(raw);
    match SplitHeader(line, x.order)
    case None => Continued(p, line)
    case Some(h) =>
      match Resolve(x.zone, h.local)
      case None => p
      case Some(timestamp) => Opened(p, h, timestamp)
  }

  function FeedAll(x: Declared, p: Progress, lines: seq<string>): Progress {
    if lines == [] then p else Feed(x, FeedAll(x, p, lines[..|lines| - 1]), lines[|lines| - 1])
  }

  /** The earliest and the latest of some instants. */
  function Extent(times: seq<int>): Option<(int, int)> {
    if times == [] then None
    else
      var t := times[|times| - 1];
      match Extent(times[..|times| - 1])
      case None => Some((t, t))
      case Some((lo, hi)) => Some((Min(lo, t), Max(hi, t)))
  }

  function Times(p: Progress): seq<int> {
    seq(|p.messages|, i requires 0 <= i < |p.messages| => p.messages[i].timestamp)
    + seq(|p.events|, i requires 0 <= i < |p.events| => p.events[i].timestamp)
  }

  function Finished(p: Progress): ParsedExport {
    ParsedExport(p.format, p.messages, p.events, Extent(Times(p)))
  }

  function Read(x: Declared, raw: string): Progress {
    FeedAll(x, NOTHING_READ, Lines(raw))
  }

  function Parsed(x: Declared, raw: string): ParsedExport {
    Finished(Read(x, raw))
  }

  method ComputeRange(p: Progress) returns (range: Option<(int, int)>)
    ensures range == Extent(Times(p))
  {
    var times := Times(p);
    range := None;
    for i := 0 to |times|
      invariant range == Extent(times[..i])
    {
      assert times[..i + 1][..i] == times[..i];
      range := match range
        case None => Some((times[i], times[i]))
        case Some((lo, hi)) => Some((Min(lo, times[i]), Max(hi, times[i])));
    }
    assert times[..|times|] == times;
  }

  method ParseExport(raw: string, x: Declared) returns (r: ParsedExport)
    ensures r == Parsed(x, raw)
  {
    hide Sanitized, SplitHeader, Resolve, SplitBody, ClassifyEvent, IsMedia, TrimEnd, Lines;
    var format: WhatsAppFormat, messages: seq<RawMessage>, events: seq<ChatEvent> := Ios, [], [];
    var lines := Lines(raw);
    for i := 0 to |lines|
      invariant Progress(format, messages, events) == FeedAll(x, NOTHING_READ, lines[..i])
    {
      assert lines[..i + 1][..i] == lines[..i];
      var line := Sanitized(lines[i]);
      match SplitHeader(line, x.order) {
        case Some(h) =>
          var resolved := Resolve(x.zone, h.local);
          if resolved.Some? {
            format := h.format;
            var body := SplitBody(h.rest);
            if body.isSystem {
              var kind := ClassifyEvent(body.content);
              if kind.Some? {
                events := events + [ChatEvent(kind.value, resolved.value, body.content)];
              }
            }
            messages := messages
              + [RawMessage(resolved.value, body.sender, body.content, body.isSystem, IsMedia(body.content))];
          }
        case None =>
          if messages != [] {
            var last := messages[|messages| - 1];
            var content := last.content + "\n" + TrimEnd(line);
            last := last.(content := content, hasMedia := last.hasMedia || IsMedia(content));
            messages := messages[|messages| - 1 := last];
          }
      }
    }
    assert lines[..|lines|] == lines;
    var range := ComputeRange(Progress(format, messages, events));
    r := ParsedExport(format, messages, events, range);
  }

  // ---------- What every message is ----------

  /** What the parser emits: a sender of one non-empty line, or a system line without one. */
  ghost predicate FromParser(raw: RawMessage) {
    && (raw.isSystem <==> raw.sender.None?)
    && (raw.sender.Some? ==> raw.sender.value != "" && IsOneLine(raw.sender.value))
  }

  lemma LowercasedJoins(s: string, t: string)
    ensures Lowercased(s + t) == Lowercased(s) + Lowercased(t)
  {
  }

  lemma ContainsExtends(s: string, t: string, needle: string)
    ensures Contains(s, needle) ==> Contains(s + t, needle)
  {
    if Contains(s, needle) {
      var i := Find(s, needle).value;
      assert (s + t)[i..i + |needle|] == s[i..i + |needle|];
      assert At(s + t, needle, i);
    }
  }

  /** A placeholder stays one however the body goes on. */
  lemma MediaExtends(s: string, t: string)
    ensures IsMedia(s) ==> IsMedia(s + t)
  {
    hide Contains, Lowercased;
    LowercasedJoins(s, t);
    ContainsExtends(Lowercased(s), Lowercased(t), "media omitted");
    ContainsExtends(Lowercased(s), Lowercased(t), "image omitted");
    ContainsExtends(Lowercased(s), Lowercased(t), "video omitted");
    ContainsExtends(Lowercased(s), Lowercased(t), "audio omitted");
    ContainsExtends(Lowercased(s), Lowercased(t), "<attached");
  }

  /** What holds of every message the parser has built so far. */
  ghost predicate WellBuilt(p: Progress) {
    forall m <- p.messages ::
      && FromParser(m) && (m.hasMedia <==> IsMedia(m.content))
      && (m.sender.Some? ==> |m.sender.value| <= 80)
  }

  lemma ContinuedIsWellBuilt(p: Progress, line: string)
    requires WellBuilt(p)
    ensures WellBuilt(Continued(p, line))
  {
    hide IsMedia, TrimEnd;
    if p.messages != [] {
      var m := p.messages[|p.messages| - 1];
      assert m in p.messages;
      MediaExtends(m.content, "\n" + TrimEnd(line));
      assert m.content + ("\n" + TrimEnd(line)) == m.content + "\n" + TrimEnd(line);
    }
  }

  lemma OpenedIsWellBuilt(p: Progress, h: Header, timestamp: int)
    requires WellBuilt(p)
    ensures WellBuilt(Opened(p, h, timestamp))
  {
    hide IsMedia, ClassifyEvent;
  }

  lemma FeedIsWellBuilt(x: Declared, p: Progress, line: string)
    requires WellBuilt(p)
    ensures WellBuilt(Feed(x, p, line))
  {
    hide Sanitized, SplitHeader, Resolve, Opened, Continued, WellBuilt;
    ContinuedIsWellBuilt(p, Sanitized(line));
    forall h: Header, timestamp: int
      ensures WellBuilt(Opened(p, h, timestamp))
    {
      OpenedIsWellBuilt(p, h, timestamp);
    }
  }

  /**
   Every parsed message has a sender exactly when it is no system line, and then a non-empty
   one-line sender; it is flagged as media exactly when its whole body holds a placeholder.
   */
  lemma {:induction false} MessagesAreWellBuilt(x: Declared, p: Progress, lines: seq<string>)
    requires WellBuilt(p)
    ensures WellBuilt(FeedAll(x, p, lines))
  {
    hide Feed, WellBuilt;
    if lines != [] {
      var prefix := lines[..|lines| - 1];
      MessagesAreWellBuilt(x, p, prefix);
      FeedIsWellBuilt(x, FeedAll(x, p, prefix), lines[|lines| - 1]);
    }
  }

  // ---------- The date range ----------

  ghost predicate IsExtentOf(times: seq<int>, lo: int, hi: int) {
    lo in times && hi in times && forall t <- times :: lo <= t <= hi
  }

  /** The range is missing exactly for no instants at all, and otherwise reaches from the least to the greatest. */
  lemma {:induction false} ExtentIsTight(times: seq<int>)
    ensures Extent(times).None? <==> times == []
    ensures times != [] ==> IsExtentOf(times, Extent(times).value.0, Extent(times).value.1)
  {
    if times != [] {
      var prefix, t := times[..|times| - 1], times[|times| - 1];
      ExtentIsTight(prefix);
      assert forall u :: u in times <==> u in prefix || u == t;
    }
  }

  /** The smallest range around two ranges. */
  function Hull(a: Option<(int, int)>, b: Option<(int, int)>): Option<(int, int)> {
    match (a, b)
    case (None, _) => b
    case (_, None) => a
    case (Some(x), Some(y)) => Some((Min(x.0, y.0), Max(x.1, y.1)))
  }

  lemma ExtentOfUnion(a: seq<int>, b: seq<int>, c: seq<int>)
    requires forall t: int :: t in c <==> t in a || t in b
    ensures Extent(c) == Hull(Extent(a), Extent(b))
  {
    hide Extent;
    ExtentIsTight(a);
    ExtentIsTight(b);
    ExtentIsTight(c);
    if c != [] {
      var t := c[0];
      assert t in c;
    } else {
      assert forall t <- a + b :: t in c;
      assert a + b == [];
    }
  }

  // ---------- Composition ----------

  /** A line that opens a message: a header whose local time exists. */
  predicate Opens(x: Declared, line: string) {
    var h := SplitHeader(Sanitized(line), x.order);
    h.Some? && Resolve(x.zone, h.value.local).Some?
  }

  /** One export after another. */
  function Joined(a: Progress, b: Progress): Progress {
    Progress(b.format, a.messages + b.messages, a.events + b.events)
  }

  lemma FeedJoins(x: Declared, a: Progress, b: Progress, line: string)
    requires b.messages != []
    ensures Feed(x, Joined(a, b), line) == Joined(a, Feed(x, b, line)) && Feed(x, b, line).messages != []
  {
    hide Sanitized, SplitHeader, Resolve, TrimEnd, Extended, SplitBody, MessageOf, EventsOf;
    var last := |b.messages| - 1;
    var m := Extended(b.messages[last], TrimEnd(Sanitized(line)));
    assert (a.messages + b.messages)[|a.messages| + last := m] == a.messages + b.messages[last := m];
    assert forall m: RawMessage :: (a.messages + b.messages) + [m] == a.messages + (b.messages + [m]);
    assert forall e: seq<ChatEvent> :: (a.events + b.events) + e == a.events + (b.events + e);
  }

  lemma OpeningJoins(x: Declared, a: Progress, line: string)
    requires Opens(x, line)
    ensures Feed(x, a, line) == Joined(a, Feed(x, NOTHING_READ, line)) && Feed(x, NOTHING_READ, line).messages != []
  {
    hide Sanitized, SplitHeader, Resolve, SplitBody, MessageOf, EventsOf;
    assert forall m: RawMessage :: [] + [m] == [m];
    assert forall e: seq<ChatEvent> :: [] + e == e;
  }

  /** What lines add to the body of the message above them: all but headers, without blanks at their end. */
  function Continuations(x: Declared, lines: seq<string>): string {
    if lines == [] then ""
    else
      var line := Sanitized(lines[|lines| - 1]);
      Continuations(x, lines[..|lines| - 1])
      + if SplitHeader(line, x.order).None? then "\n" + TrimEnd(line) else ""
  }

  /** `q` has one message more than `p`, of this body and instant, and the event it tells of. */
  ghost predicate AddsMessage(p: Progress, q: Progress, timestamp: int, body: Body, text: string) {
    && |q.messages| == |p.messages| + 1 && q.messages[..|p.messages|] == p.messages
    && (var m := q.messages[|p.messages|];
        m == RawMessage(timestamp, body.sender, body.content + text, body.isSystem, m.hasMedia))
    && q.events == p.events + EventsOf(body, timestamp)
  }

  /**
   Every line that opens a message makes exactly one, with the instant, sender and text of the line and
   the lines below up to the next that opens one; a header whose local time does not exist, and its text,
   are lost.
   */
  lemma {:induction false} OneMessagePerOpening(x: Declared, a: seq<string>, line: string, below: seq<string>)
    requires Opens(x, line) && forall l <- below :: !Opens(x, l)
    ensures var h := SplitHeader(Sanitized(line), x.order).value;
            var before, after := FeedAll(x, NOTHING_READ, a), FeedAll(x, NOTHING_READ, a + [line] + below);
            && AddsMessage(before, after, Resolve(x.zone, h.local).value, SplitBody(h.rest), Continuations(x, below))
            && after.format == h.format
    decreases |below|
  {
    hide Sanitized, SplitHeader, Resolve, SplitBody, AddsMessage, Feed, Opens;
    var all := a + [line] + below;
    OpeningHasAHeader(x, line);
    if below == [] {
      assert all[..|a|] == a && all[|a|] == line && |all| == |a| + 1;
      OpeningAdds(x, FeedAll(x, NOTHING_READ, a), line);
    } else {
      var prefix, last := below[..|below| - 1], below[|below| - 1];
      assert all[..|all| - 1] == a + [line] + prefix && all[|all| - 1] == last;
      OneMessagePerOpening(x, a, line, prefix);
      assert last in below;
      var h := SplitHeader(Sanitized(line), x.order).value;
      ContinuingAdds(x, FeedAll(x, NOTHING_READ, a), FeedAll(x, NOTHING_READ, a + [line] + prefix), last,
                     Resolve(x.zone, h.local).value, SplitBody(h.rest), Continuations(x, prefix));
    }
  }

  lemma OpeningHasAHeader(x: Declared, line: string)
    requires Opens(x, line)
    ensures SplitHeader(Sanitized(line), x.order).Some?
    ensures Resolve(x.zone, SplitHeader(Sanitized(line), x.order).value.local).Some?
  {
  }

  lemma OpeningAdds(x: Declared, p: Progress, line: string)
    requires Opens(x, line)
    ensures var h := SplitHeader(Sanitized(line), x.order).value;
            && AddsMessage(p, Feed(x, p, line), Resolve(x.zone, h.local).value, SplitBody(h.rest), "")
            && Feed(x, p, line).format == h.format
  {
    hide Sanitized, SplitHeader, Resolve, SplitBody, EventsOf, IsMedia;
    var body := SplitBody(SplitHeader(Sanitized(line), x.order).value.rest);
    assert body.content + "" == body.content;
  }

  lemma ContinuingAdds(
      x: Declared, p: Progress, q: Progress, line: string, timestamp: int, body: Body, text: string)
    requires AddsMessage(p, q, timestamp, body, text) && !Opens(x, line)
    ensures var line' := Sanitized(line);
            var more := if SplitHeader(line', x.order).None? then "\n" + TrimEnd(line') else "";
            AddsMessage(p, Feed(x, q, line), timestamp, body, text + more)
    ensures Feed(x, q, line).format == q.format
  {
    hide Sanitized, SplitHeader, Resolve, EventsOf, IsMedia, TrimEnd;
    var line', n := Sanitized(line), |p.messages|;
    assert text + "" == text;
    assert body.content + text + "\n" + TrimEnd(line') == body.content + (text + ("\n" + TrimEnd(line')));
  }

  /** Lines that begin with a header are parsed the same whatever comes before them. */
  lemma {:induction false} LinesCompose(x: Declared, a: seq<string>, b: seq<string>)
    requires b != [] && Opens(x, b[0])
    ensures FeedAll(x, NOTHING_READ, b).messages != []
    ensures FeedAll(x, NOTHING_READ, a + b) == Joined(FeedAll(x, NOTHING_READ, a), FeedAll(x, NOTHING_READ, b))
  {
    hide Feed, Opens, Joined;
    var n := |b| - 1;
    assert (a + b)[..|a + b| - 1] == a + b[..n] && (a + b)[|a + b| - 1] == b[n];
    if n == 0 {
      assert a + b[..n] == a && b[..n] == [];
      assert FeedAll(x, NOTHING_READ, b[..n]) == NOTHING_READ;
      OpeningJoins(x, FeedAll(x, NOTHING_READ, a), b[0]);
    } else {
      LinesCompose(x, a, b[..n]);
      FeedJoins(x, FeedAll(x, NOTHING_READ, a), FeedAll(x, NOTHING_READ, b[..n]), b[n]);
    }
  }

  lemma NewlineAt(s: string, i: nat)
    requires i < |s| && s[i] == '\n' && IsOneLine(s[..i])
    ensures Find(s, "\n") == Some(i)
  {
    assert At(s, "\n", i);
    forall j | 0 <= j < i
      ensures !At(s, "\n", j)
    {
      assert s[..i][j] == s[j];
      assert s[j..j + 1][0] == s[j];
    }
  }

  lemma NoNewline(s: string)
    ensures Find(s, "\n").None? <==> IsOneLine(s)
    ensures Find(s, "\n").Some? ==>
              var i := Find(s, "\n").value; i < |s| && s[i] == '\n' && IsOneLine(s[..i])
  {
    forall j | 0 <= j < |s|
      ensures At(s, "\n", j) <==> s[j] == '\n'
    {
      assert s[j..j + 1][0] == s[j];
    }
  }

  lemma LinesAtNewline(s: string, i: nat)
    requires i < |s| && s[i] == '\n' && IsOneLine(s[..i])
    ensures Lines(s) == [StripCr(s[..i])] + Lines(s[i + 1..])
  {
    NewlineAt(s, i);
  }

  /** A text, a newline and another text have the lines of both, the first one ended properly. */
  lemma {:induction false} LinesOfJoin(a: string, b: string)
    ensures Lines(a + "\n" + b) == Lines(a + "\n") + Lines(b)
    decreases |a|
  {
    hide Lines, StripCr;
    NoNewline(a);
    var s, t := a + "\n" + b, a + "\n";
    if IsOneLine(a) {
      assert s[..|a|] == a && t[..|a|] == a && s[|a| + 1..] == b && t[|a| + 1..] == "";
      LinesAtNewline(s, |a|);
      LinesAtNewline(t, |a|);
      NoLines();
    } else {
      var i := Find(a, "\n").value;
      var rest := a[i + 1..];
      assert s[..i] == a[..i] && t[..i] == a[..i];
      assert s[i + 1..] == rest + "\n" + b && t[i + 1..] == rest + "\n";
      LinesAtNewline(s, i);
      LinesAtNewline(t, i);
      LinesOfJoin(rest, b);
    }
  }

  /** A carriage return before a newline makes no difference, wherever it stands. */
  lemma CarriageReturnsDoNotMatter(x: Declared, a: string, b: string)
    requires a != "" ==> a[|a| - 1] != '\r'
    ensures Lines(a + "\r\n" + b) == Lines(a + "\n" + b)
    ensures Parsed(x, a + "\r\n" + b) == Parsed(x, a + "\n" + b)
  {
    hide Lines;
    assert a + "\r\n" + b == (a + "\r") + "\n" + b && (a + "\r") + "\n" == a + "\r\n";
    LinesOfJoin(a + "\r", b);
    LinesOfJoin(a, b);
    LastReturnIsStripped(a);
  }

  lemma {:induction false} LastReturnIsStripped(a: string)
    requires a != "" ==> a[|a| - 1] != '\r'
    ensures Lines(a + "\r\n") == Lines(a + "\n")
    decreases |a|
  {
    hide Lines;
    NoNewline(a);
    NoLines();
    var s, t := a + "\r\n", a + "\n";
    if IsOneLine(a) {
      assert s[..|a| + 1] == a + "\r" && t[..|a|] == a && s[|a| + 2..] == "" && t[|a| + 1..] == "";
      LinesAtNewline(s, |a| + 1);
      LinesAtNewline(t, |a|);
    } else {
      var i := Find(a, "\n").value;
      assert s[..i] == a[..i] == t[..i] && s[i + 1..] == a[i + 1..] + "\r\n" && t[i + 1..] == a[i + 1..] + "\n";
      LinesAtNewline(s, i);
      LinesAtNewline(t, i);
      LastReturnIsStripped(a[i + 1..]);
    }
  }

  lemma NoLines()
    ensures Lines("") == []
  {
  }

  lemma {:induction false} FeedAllSplits(x: Declared, p: Progress, a: seq<string>, b: seq<string>)
    ensures FeedAll(x, p, a + b) == FeedAll(x, FeedAll(x, p, a), b)
  {
    hide Feed;
    if b == [] {
      assert a + b == a;
    } else {
      var n := |b| - 1;
      FeedAllSplits(x, p, a, b[..n]);
      assert (a + b)[..|a + b| - 1] == a + b[..n];
    }
  }

  // ---------- How an export may end ----------

  /** The text has no ending that a newline after it would change: no message to continue, no text to shorten. */
  ghost predicate EndsTidily(x: Declared, raw: string) {
    raw != [] ==>
      && (raw[|raw| - 1] == '\n' ==> forall line <- Lines(raw) :: !Opens(x, line))
      && (raw[|raw| - 1] == '\r' ==>
            var line := Lines(raw)[|Lines(raw)| - 1];
            Opens(x, line) ==> SplitHeader(Sanitized(line), x.order).value.rest == [])
  }

  /** What a final newline does to the lines of a text. */
  lemma {:induction false} LinesOfEnded(s: string)
    ensures s == [] ==> Lines(s + "\n") == [""]
    ensures s != [] ==> Lines(s) != []
    ensures s != [] ==>
              var ls := Lines(s);
              var n := |ls| - 1;
              && (s[|s| - 1] == '\n' ==> Lines(s + "\n") == ls + [""])
              && (s[|s| - 1] != '\n' ==>
                    && Lines(s + "\n") == ls[..n] + [StripCr(ls[n])]
                    && ls[n] != [] && ls[n][|ls[n]| - 1] == s[|s| - 1])
    decreases |s|
  {
    hide Lines;
    NoNewline(s);
    var t := s + "\n";
    NoLines();
    if IsOneLine(s) {
      assert t[..|s|] == s && t[|s| + 1..] == "";
      LinesAtNewline(t, |s|);
      OneLine(s);
    } else {
      var i := Find(s, "\n").value;
      var rest := s[i + 1..];
      assert t[..i] == s[..i] && t[i + 1..] == rest + "\n";
      LinesAtNewline(s, i);
      LinesAtNewline(t, i);
      LinesOfEnded(rest);
      if rest != [] {
        var head, ls := StripCr(s[..i]), Lines(rest);
        var n := |ls| - 1;
        assert rest[|rest| - 1] == s[|s| - 1];
        assert Lines(s) == [head] + ls && Lines(s)[..n + 1] == [head] + ls[..n] && Lines(s)[n + 1] == ls[n];
      }
    }
  }

  lemma OneLine(s: string)
    requires IsOneLine(s)
    ensures Lines(s) == if s == [] then [] else [s]
  {
    NoNewline(s);
  }

  lemma FindIgnoresCr(s: string, needle: string)
    requires needle != [] && forall c <- needle :: c != '\r'
    ensures Find(s + "\r", needle) == Find(s, needle)
  {
    forall j
      ensures At(s + "\r", needle, j) <==> At(s, needle, j)
    {
      var t := s + "\r";
      if 0 <= j <= |t| - |needle| {
        assert t[j..j + |needle|][|needle| - 1] == t[j + |needle| - 1];
        assert needle[|needle| - 1] in needle;
        assert j + |needle| <= |s| ==> t[j..j + |needle|] == s[j..j + |needle|];
      }
    }
  }

  lemma {:induction false} TrimStartBeforeCr(s: string)
    ensures TrimStart(s + "\r") == if TrimStart(s) == [] then [] else TrimStart(s) + "\r"
  {
    hide TrimStart, IsWhitespace;
    CrIsWhitespace();
    var t := s + "\r";
    if s == [] {
      assert t[1..] == [];
      TrimStartStep(t);
    } else if IsWhitespace(s[0]) {
      TrimStartBeforeCr(s[1..]);
      assert t[1..] == s[1..] + "\r";
      TrimStartStep(s);
      TrimStartStep(t);
    } else {
      TrimKeeps(s);
      TrimKeeps(t);
    }
  }

  lemma CrIsWhitespace()
    ensures IsWhitespace('\r') && TrimStart("") == ""
  {
  }

  /** The same header, but for a carriage return at the end of a non-empty rest. */
  ghost predicate SameBeforeCr(h: Option<Header>, h': Option<Header>) {
    && (h.Some? <==> h'.Some?)
    && (h.Some? ==>
          && h.value.local == h'.value.local && h.value.format == h'.value.format
          && (h'.value.rest == [] ==> h.value.rest == [])
          && (h'.value.rest != [] ==> h'.value.rest == h.value.rest + "\r"))
  }

  lemma AndroidBeforeCr(s: string, order: DateOrder)
    ensures SameBeforeCr(AndroidHeader(s, order), AndroidHeader(s + "\r", order))
  {
    hide ParseStamp, Trim;
    var t := s + "\r";
    FindIgnoresCr(s, " - ");
    if Find(s, " - ").Some? {
      var i := Find(s, " - ").value;
      assert t[..i] == s[..i] && t[i + 3..] == s[i + 3..] + "\r";
    }
  }

  lemma BracketedBeforeCr(s: string, order: DateOrder)
    ensures SameBeforeCr(BracketedHeader(s, order), BracketedHeader(s + "\r", order))
  {
    hide ParseStamp, Trim, TrimStart;
    var t := s + "\r";
    FindIgnoresCr(s, "]");
    if Find(s, "]").Some? {
      var end := Find(s, "]").value;
      assert t[..end] == s[..end] && t[end + 1..] == s[end + 1..] + "\r";
      TrimStartBeforeCr(s[end + 1..]);
    }
  }

  lemma IosBeforeCr(s: string, order: DateOrder)
    ensures SameBeforeCr(IosHeader(s, order), IosHeader(s + "\r", order))
  {
    hide BracketedHeader;
    if s != [] {
      assert (s + "\r")[1..] == s[1..] + "\r";
      BracketedBeforeCr(s[1..], order);
    }
  }

  /** A carriage return at the end of a header line only ever ends up in the text after the stamp. */
  lemma HeaderBeforeCr(s: string, order: DateOrder)
    ensures SameBeforeCr(SplitHeader(s, order), SplitHeader(s + "\r", order))
  {
    hide IosHeader, AndroidHeader;
    IosBeforeCr(s, order);
    AndroidBeforeCr(s, order);
  }

  lemma BodyBeforeCr(rest: string, timestamp: int)
    ensures MessageOf(SplitBody(rest), timestamp) != MessageOf(SplitBody(rest + "\r"), timestamp)
  {
    hide IsMedia;
    FindIgnoresCr(rest, ": ");
    var t := rest + "\r";
    if Find(rest, ": ").Some? {
      var i := Find(rest, ": ").value;
      assert t[..i] == rest[..i] && t[i + 2..] == rest[i + 2..] + "\r";
    }
  }

  lemma FeedBeforeCr(x: Declared, p: Progress, line: string)
    ensures var h := SplitHeader(Sanitized(line + "\r"), x.order);
            if Opens(x, line + "\r") && h.value.rest != [] then
              Feed(x, p, line).messages != Feed(x, p, line + "\r").messages
            else Feed(x, p, line) == Feed(x, p, line + "\r")
  {
    hide Resolve, SplitBody, SplitHeader, MessageOf, EventsOf, Sanitized;
    SanitizedBeforeCr(line);
    var s := Sanitized(line);
    HeaderBeforeCr(s, x.order);
    assert (s + "\r")[..|s|] == s;
    var h := SplitHeader(s, x.order);
    if h.Some? && Resolve(x.zone, h.value.local).Some? {
      var timestamp := Resolve(x.zone, h.value.local).value;
      BodyBeforeCr(h.value.rest, timestamp);
      var n := |p.messages|;
      assert Feed(x, p, line).messages[n] == MessageOf(SplitBody(h.value.rest), timestamp);
      assert Feed(x, p, line + "\r").messages[n]
          == MessageOf(SplitBody(SplitHeader(s + "\r", x.order).value.rest), timestamp);
    }
  }

  lemma SanitizedBeforeCr(line: string)
    ensures Sanitized(line + "\r") == Sanitized(line) + "\r"
  {
    assert (line + "\r")[..|line|] == line;
  }

  /** There is a message exactly once some line has opened one. */
  lemma {:induction false} MessagesNeedAnOpening(x: Declared, lines: seq<string>)
    ensures FeedAll(x, NOTHING_READ, lines).messages == [] <==> forall line <- lines :: !Opens(x, line)
  {
    if lines != [] {
      var prefix, line := lines[..|lines| - 1], lines[|lines| - 1];
      MessagesNeedAnOpening(x, prefix);
      FeedOpens(x, FeedAll(x, NOTHING_READ, prefix), line);
      hide Feed, Opens;
      assert forall l :: l in lines <==> l in prefix || l == line;
    }
  }

  lemma FeedOpens(x: Declared, p: Progress, line: string)
    ensures Feed(x, p, line).messages == [] <==> p.messages == [] && !Opens(x, line)
  {
    hide Sanitized, SplitHeader, Resolve, SplitBody, MessageOf, EventsOf, TrimEnd;
  }

  lemma FeedBlank(x: Declared, p: Progress)
    ensures p.messages == [] ==> Feed(x, p, "") == p
    ensures p.messages != [] ==> Feed(x, p, "").messages != p.messages
  {
    hide Resolve, ParseStamp;
    assert Find("", " - ").None?;
    assert SplitHeader("", x.order).None?;
    if p.messages != [] {
      var last := |p.messages| - 1;
      assert |Feed(x, p, "").messages[last].content| > |p.messages[last].content|;
    }
  }

  /** A newline after a text changes what is read exactly when the text does not end tidily. */
  lemma NewlineAfter(x: Declared, raw: string)
    ensures EndsTidily(x, raw) ==> Read(x, raw + "\n") == Read(x, raw)
    ensures !EndsTidily(x, raw) ==> Read(x, raw + "\n").messages != Read(x, raw).messages
  {
    hide Feed, Lines, Opens, SplitHeader, Sanitized;
    LinesOfEnded(raw);
    NoLines();
    MessagesNeedAnOpening(x, Lines(raw));
    if raw == [] {
      assert [""][..0] == [] && FeedAll(x, NOTHING_READ, []) == NOTHING_READ;
      FeedBlank(x, NOTHING_READ);
    } else {
      var ls := Lines(raw);
      var n := |ls| - 1;
      if raw[|raw| - 1] == '\n' {
        assert (ls + [""])[..|ls|] == ls;
        FeedBlank(x, Read(x, raw));
      } else {
        var last := ls[n];
        assert (ls[..n] + [StripCr(last)])[..n] == ls[..n];
        if raw[|raw| - 1] == '\r' {
          assert last == StripCr(last) + "\r";
          FeedBeforeCr(x, FeedAll(x, NOTHING_READ, ls[..n]), StripCr(last));
        }
      }
    }
  }

  lemma TimesOfJoined(a: Progress, b: Progress)
    ensures Extent(Times(Joined(a, b))) == Hull(Extent(Times(a)), Extent(Times(b)))
  {
    hide Extent;
    var j := Joined(a, b);
    forall t: int
      ensures t in Times(j) <==> t in Times(a) || t in Times(b)
    {
      TimesAre(a, t);
      TimesAre(b, t);
      TimesAre(j, t);
      assert forall m :: m in j.messages <==> m in a.messages || m in b.messages;
      assert forall e :: e in j.events <==> e in a.events || e in b.events;
    }
    ExtentOfUnion(Times(a), Times(b), Times(j));
  }

  lemma TimesAre(p: Progress, t: int)
    ensures t in Times(p)
       <==> (exists m <- p.messages :: m.timestamp == t) || (exists e <- p.events :: e.timestamp == t)
  {
    var ms := seq(|p.messages|, i requires 0 <= i < |p.messages| => p.messages[i].timestamp);
    var es := seq(|p.events|, i requires 0 <= i < |p.events| => p.events[i].timestamp);
    assert forall m <- p.messages :: m.timestamp in ms by {
      forall i | 0 <= i < |p.messages|
        ensures p.messages[i].timestamp in ms
      {
        assert ms[i] == p.messages[i].timestamp;
      }
    }
    assert forall e <- p.events :: e.timestamp in es by {
      forall i | 0 <= i < |p.events|
        ensures p.events[i].timestamp in es
      {
        assert es[i] == p.events[i].timestamp;
      }
    }
  }

  /**
   Exports compose: put a newline between two texts, the second starting with a message, and what
   is parsed is what each gives alone, with the hull as date range, exactly if the first ends tidily.
   */
  lemma ExportsCompose(x: Declared, a: string, b: string)
    requires Lines(b) != [] && Opens(x, Lines(b)[0])
    ensures var pa, pb := Parsed(x, a), Parsed(x, b);
            Parsed(x, a + "\n" + b)
              == ParsedExport(pb.format, pa.messages + pb.messages, pa.events + pb.events,
                              Hull(pa.dateRange, pb.dateRange))
            <==> EndsTidily(x, a)
  {
    hide Lines, FeedAll, Extent, Times, Opens, Hull, EndsTidily;
    LinesOfJoin(a, b);
    LinesCompose(x, Lines(a + "\n"), Lines(b));
    NewlineAfter(x, a);
    TimesOfJoined(Read(x, a), Read(x, b));
    var short, long, tail := Read(x, a).messages, Read(x, a + "\n").messages, Read(x, b).messages;
    assert long + tail == short + tail ==> long == short by {
      assert long + tail == short + tail ==> |long| == |short|;
      assert (long + tail)[..|long|] == long && (short + tail)[..|short|] == short;
    }
  }

  // ---------- Round trip ----------

  /** The lines of a body, separated by newlines: at least one. */
  function ContentLines(s: string): (r: seq<string>)
    ensures |r| >= 1
    decreases |s|
  {
    match Find(s, "\n")
    case None => [s]
    case Some(i) => [s[..i]] + ContentLines(s[i + 1..])
  }

  function SenderPart(m: RawMessage): string {
    if m.sender.Some? then m.sender.value + ": " else ""
  }

  /** A locale's way of writing an export. */
  datatype Dialect = Dialect(format: WhatsAppFormat, style: StampStyle)

  /** What a message's first line starts with: `[stamp] ` from iOS, `stamp - ` from Android. */
  function RenderedStart(x: Declared, d: Dialect, timestamp: int): string
    requires Writable(LocalTime(x.zone, timestamp), d.style)
  {
    var local := LocalTime(x.zone, timestamp);
    match d.format
    case Ios => "[" + RenderStamp(local, x.order, d.style) + "] "
    case Android => RenderStamp(local, x.order, d.style) + " - "
  }

  /** A message as it is exported, its last line ended. */
  function RenderedMessage(x: Declared, d: Dialect, m: RawMessage): string
    requires Writable(LocalTime(x.zone, m.timestamp), d.style)
  {
    RenderedStart(x, d, m.timestamp) + SenderPart(m) + m.content + "\n"
  }

  ghost predicate PlainSender(sender: string) {
    && sender != "" && |sender| <= 80 && IsOneLine(sender) && !IsWhitespace(sender[0])
    && !Contains(sender, ": ") && Sanitized(sender) == sender
  }

  /** A body line that is no header and that parsing leaves as it is. */
  ghost predicate PlainContinuation(x: Declared, line: string) {
    Sanitized(line) == line && TrimEnd(line) == line && SplitHeader(line, x.order).None?
  }

  /**
   A message an export can carry: an instant that is the first to read its local time, which the
   dialect can write; a plain sender, or a system line that does not look like it had one; and
   body lines that parsing leaves alone.
   */
  ghost predicate Exportable(x: Declared, d: Dialect, m: RawMessage) {
    var local, ls := LocalTime(x.zone, m.timestamp), ContentLines(m.content);
    && Writable(local, d.style) && Resolve(x.zone, local) == Some(m.timestamp)
    && (m.isSystem <==> m.sender.None?) && (m.hasMedia <==> IsMedia(m.content))
    && (m.sender.Some? ==> PlainSender(m.sender.value))
    && (m.sender.None? ==> SplitBody(ls[0]).isSystem && (ls[0] != [] ==> !IsWhitespace(ls[0][0])))
    && Sanitized(ls[0]) == ls[0] && StripCr(ls[0]) == ls[0]
    && forall line <- ls[1..] :: PlainContinuation(x, line)
  }

  function Rendered(x: Declared, d: Dialect, ms: seq<RawMessage>): string
    requires forall m <- ms :: Writable(LocalTime(x.zone, m.timestamp), d.style)
  {
    if ms == [] then "" else Rendered(x, d, ms[..|ms| - 1]) + RenderedMessage(x, d, ms[|ms| - 1])
  }

  lemma {:induction false} SanitizedJoins(s: string, t: string)
    ensures Sanitized(s + t) == Sanitized(s) + Sanitized(t)
  {
    hide Sanitized, SanitizedChar;
    if t == [] {
      assert s + t == s;
      NothingToSanitize();
    } else {
      var n := |t| - 1;
      SanitizedJoins(s, t[..n]);
      assert s + t == s + t[..n] + [t[n]] && t == t[..n] + [t[n]];
      SanitizedStep(s + t[..n], t[n]);
      SanitizedStep(t[..n], t[n]);
    }
  }

  /**
   A direction or zero-width mark anywhere in a line changes nothing in how it is read, and a no-break
   space is read as a space.
   */
  lemma MarksDoNotMatter(x: Declared, p: Progress, before: string, c: char, after: string)
    ensures IsMark(c) ==> Feed(x, p, before + [c] + after) == Feed(x, p, before + after)
    ensures IsNoBreakSpace(c) ==> Feed(x, p, before + [c] + after) == Feed(x, p, before + " " + after)
  {
    hide Sanitized, SplitHeader, Continued, Opened, Resolve;
    SanitizedJoins(before + [c], after);
    SanitizedJoins(before + " ", after);
    SanitizedJoins(before, after);
    SanitizedStep(before, c);
    SanitizedStep(before, ' ');
    assert Sanitized(before) + [] == Sanitized(before);
  }

  lemma NothingToSanitize()
    ensures Sanitized("") == ""
  {
  }

  lemma SanitizedStep(s: string, c: char)
    ensures Sanitized(s + [c]) == Sanitized(s) + SanitizedChar(c)
  {
    hide SanitizedChar;
    assert (s + [c])[..|s|] == s;
  }

  lemma {:induction false} AsciiIsClean(s: string)
    requires forall i :: 0 <= i < |s| ==> s[i] as int < 0x80
    ensures Sanitized(s) == s
  {
    hide Sanitized, SanitizedChar;
    if s == [] {
      NothingToSanitize();
    } else {
      var n := |s| - 1;
      AsciiIsClean(s[..n]);
      SanitizedStep(s[..n], s[n]);
      AsciiCharIsClean(s[n]);
      assert s == s[..n] + [s[n]];
    }
  }

  lemma AsciiCharIsClean(c: char)
    ensures c as int < 0x80 ==> SanitizedChar(c) == [c]
  {
  }

  /** The text that body lines after the first add. */
  function Tail(ls: seq<string>): string {
    if ls == [] then "" else Tail(ls[..|ls| - 1]) + "\n" + ls[|ls| - 1]
  }

  lemma {:induction false} TailFromFront(ls: seq<string>)
    requires ls != []
    ensures Tail(ls) == "\n" + ls[0] + Tail(ls[1..])
  {
    if |ls| > 1 {
      TailFromFront(ls[..|ls| - 1]);
      assert ls[..|ls| - 1][1..] == ls[1..][..|ls| - 2];
    } else {
      assert ls[..0] == [] && Tail([]) == "";
    }
  }

  lemma NoTail()
    ensures Tail([]) == ""
  {
  }

  lemma ContentOneLine(s: string)
    requires IsOneLine(s)
    ensures ContentLines(s) == [s]
  {
    NoNewline(s);
  }

  lemma ContentAtNewline(s: string, i: nat)
    requires i < |s| && s[i] == '\n' && IsOneLine(s[..i])
    ensures ContentLines(s) == [s[..i]] + ContentLines(s[i + 1..])
  {
    NewlineAt(s, i);
  }

  /** The lines of a body put together are the body. */
  lemma {:induction false} ContentFromLines(s: string)
    ensures ContentLines(s)[0] + Tail(ContentLines(s)[1..]) == s
    ensures forall line <- ContentLines(s) :: IsOneLine(line)
    decreases |s|
  {
    hide Tail, ContentLines, Find;
    NoNewline(s);
    NoTail();
    if IsOneLine(s) {
      ContentOneLine(s);
      assert [s][1..] == [];
    } else {
      var i := Find(s, "\n").value;
      var rest := ContentLines(s[i + 1..]);
      ContentAtNewline(s, i);
      ContentFromLines(s[i + 1..]);
      TailFromFront(rest);
      assert ContentLines(s)[1..] == rest;
      assert "\n" + rest[0] + Tail(rest[1..]) == "\n" + s[i + 1..];
      assert s == s[..i] + ("\n" + s[i + 1..]);
    }
  }

  /** A one-line start belongs to the first line. */
  lemma ContentAfter(head: string, s: string)
    requires IsOneLine(head)
    ensures ContentLines(head + s) == [head + ContentLines(s)[0]] + ContentLines(s)[1..]
  {
    hide ContentLines, Find;
    NoNewline(s);
    if IsOneLine(s) {
      ContentOneLine(s);
      ContentOneLine(head + s);
    } else {
      var i, t := Find(s, "\n").value, head + s;
      assert t[..|head| + i] == head + s[..i] && t[|head| + i + 1..] == s[i + 1..];
      ContentAtNewline(t, |head| + i);
      ContentAtNewline(s, i);
      assert ContentLines(s)[1..] == ContentLines(s[i + 1..]);
    }
  }

  /** A text ended by a newline has the lines between its newlines, if none ends in a carriage return. */
  lemma {:induction false} LinesOfContent(s: string)
    requires forall line <- ContentLines(s) :: StripCr(line) == line
    ensures Lines(s + "\n") == ContentLines(s)
    decreases |s|
  {
    hide Lines, StripCr;
    NoNewline(s);
    NoLines();
    var t := s + "\n";
    if Find(s, "\n").None? {
      assert t[..|s|] == s && t[|s| + 1..] == "";
      LinesAtNewline(t, |s|);
      assert s in ContentLines(s);
    } else {
      var i := Find(s, "\n").value;
      assert t[..i] == s[..i] && t[i + 1..] == s[i + 1..] + "\n";
      LinesAtNewline(t, i);
      assert s[..i] in ContentLines(s);
      assert forall line <- ContentLines(s[i + 1..]) :: line in ContentLines(s);
      LinesOfContent(s[i + 1..]);
    }
  }

  /** Body lines that parsing leaves alone are put back together behind the first. */
  lemma {:induction false} ContinuationsJoin(x: Declared, p: Progress, ls: seq<string>)
    requires p.messages != [] && forall line <- ls :: PlainContinuation(x, line)
    ensures var q, last := FeedAll(x, p, ls), |p.messages| - 1;
            && q.format == p.format && q.events == p.events && |q.messages| == |p.messages|
            && q.messages[..last] == p.messages[..last]
            && q.messages[last]
                 == p.messages[last].(content := p.messages[last].content + Tail(ls),
                                      hasMedia := q.messages[last].hasMedia)
  {
    hide Tail, Feed, PlainContinuation;
    NoTail();
    if ls != [] {
      var n := |ls| - 1;
      assert forall line <- ls[..n] :: line in ls;
      ContinuationsJoin(x, p, ls[..n]);
      assert ls[n] in ls;
      OneContinuation(x, FeedAll(x, p, ls[..n]), ls[n]);
      TailStep(ls);
      var content, last := p.messages[|p.messages| - 1].content, |p.messages| - 1;
      assert content + Tail(ls[..n]) + "\n" + ls[n] == content + Tail(ls);
    }
  }

  lemma TailStep(ls: seq<string>)
    requires ls != []
    ensures Tail(ls) == Tail(ls[..|ls| - 1]) + "\n" + ls[|ls| - 1]
  {
  }

  lemma OneContinuation(x: Declared, p: Progress, line: string)
    requires p.messages != [] && PlainContinuation(x, line)
    ensures var q, last := Feed(x, p, line), |p.messages| - 1;
            q == p.(messages := p.messages[last := Extended(p.messages[last], line)])
  {
    hide Sanitized, SplitHeader, TrimEnd, Extended;
  }

  /** The sender part is found again, whatever follows it. */
  lemma SenderIsFound(sender: string, text: string)
    requires PlainSender(sender)
    ensures SplitBody(sender + ": " + text) == Body(Some(sender), text, false)
  {
    hide Sanitized;
    var rest := sender + ": " + text;
    assert At(rest, ": ", |sender|);
    forall j | 0 <= j < |sender|
      ensures !At(rest, ": ", j)
    {
      if j + 2 <= |sender| {
        assert rest[j..j + 2] == sender[j..j + 2];
        assert !At(sender, ": ", j);
      } else {
        assert rest[j..j + 2][1] == rest[|sender|] == ':';
      }
    }
    assert rest[..|sender|] == sender && rest[|sender| + 2..] == text;
  }

  /** The text after the stamp of a rendered message's first line. */
  function FirstRest(m: RawMessage): string {
    SenderPart(m) + ContentLines(m.content)[0]
  }

  lemma FirstBody(x: Declared, d: Dialect, m: RawMessage)
    requires Exportable(x, d, m)
    ensures SplitBody(FirstRest(m)) == Body(m.sender, ContentLines(m.content)[0], m.isSystem)
    ensures FirstRest(m) != [] ==> !IsWhitespace(FirstRest(m)[0])
    ensures Sanitized(FirstRest(m)) == FirstRest(m)
  {
    hide Sanitized, StripCr, IsWhitespace, Resolve, IsMedia, PlainContinuation;
    var l0 := ContentLines(m.content)[0];
    SanitizedJoins(SenderPart(m), l0);
    if m.sender.Some? {
      SenderIsFound(m.sender.value, l0);
      SanitizedJoins(m.sender.value, ": ");
      AsciiIsClean(": ");
    } else {
      assert FirstRest(m) == l0;
      SystemBody(l0);
      NothingToSanitize();
    }
  }

  lemma SystemBody(rest: string)
    requires SplitBody(rest).isSystem
    ensures SplitBody(rest) == Body(None, rest, true)
  {
  }

  /** A line that starts with a bracketed stamp is a header with that stamp. */
  lemma IosHeaderIsFound(x: Declared, style: StampStyle, local: int, rest: string)
    requires Writable(local, style) && (rest != [] ==> !IsWhitespace(rest[0])) && Sanitized(rest) == rest
    ensures var line := "[" + RenderStamp(local, x.order, style) + "] " + rest;
            && Sanitized(line) == line && SplitHeader(line, x.order) == Some(Header(local, rest, Ios))
  {
    hide ParseStamp, RenderStamp, Trim, TrimStart, TrimEnd, Sanitized, Writable, IsWhitespace, AndroidHeader, StampText;
    var stamp := RenderStamp(local, x.order, style);
    var line, stripped := "[" + stamp + "] " + rest, stamp + "] " + rest;
    StampParses(local, x.order, style);
    BracketIsFound(stamp, rest);
    assert line[1..] == stripped;
    assert stripped[..|stamp|] == stamp && stripped[|stamp| + 1..] == " " + rest;
    BlankIsTrimmed(rest);
    assert line == ("[" + stamp + "] ") + rest;
    SanitizedJoins("[" + stamp + "] ", rest);
    StampIsAscii("[", stamp, "] ");
  }

  /** A line that starts with a stamp and a dash is a header with that stamp. */
  lemma AndroidHeaderIsFound(x: Declared, style: StampStyle, local: int, rest: string)
    requires Writable(local, style) && Sanitized(rest) == rest
    ensures var line := RenderStamp(local, x.order, style) + " - " + rest;
            && Sanitized(line) == line && SplitHeader(line, x.order) == Some(Header(local, rest, Android))
  {
    hide ParseStamp, RenderStamp, Trim, Sanitized, Writable, BracketedHeader, StampText;
    var stamp := RenderStamp(local, x.order, style);
    var line := stamp + " - " + rest;
    StampParses(local, x.order, style);
    DashIsFound(stamp, rest);
    assert line[0] == stamp[0];
    assert line[..|stamp|] == stamp && line[|stamp| + 3..] == rest;
    assert "" + stamp + " - " == stamp + " - ";
    SanitizedJoins(stamp + " - ", rest);
    StampIsAscii("", stamp, " - ");
  }

  lemma DashIsFound(stamp: string, rest: string)
    requires StampText(stamp)
    ensures Find(stamp + " - " + rest, " - ") == Some(|stamp|)
  {
    var s := stamp + " - " + rest;
    assert At(s, " - ", |stamp|);
    forall j | 0 <= j < |stamp|
      ensures !At(s, " - ", j)
    {
      assert s[j..j + 3][0] == stamp[j] && s[j..j + 3][1] == s[j + 1];
      assert s[j + 1] == if j + 1 < |stamp| then stamp[j + 1] else ' ';
    }
  }

  lemma HeaderIsFound(x: Declared, d: Dialect, timestamp: int, rest: string)
    requires Writable(LocalTime(x.zone, timestamp), d.style) && Sanitized(rest) == rest
    requires rest != [] ==> !IsWhitespace(rest[0])
    ensures var line := RenderedStart(x, d, timestamp) + rest;
            && Sanitized(line) == line
            && SplitHeader(line, x.order) == Some(Header(LocalTime(x.zone, timestamp), rest, d.format))
  {
    hide Sanitized, SplitHeader, Writable, RenderStamp, IsWhitespace;
    match d.format {
      case Ios => IosHeaderIsFound(x, d.style, LocalTime(x.zone, timestamp), rest);
      case Android => AndroidHeaderIsFound(x, d.style, LocalTime(x.zone, timestamp), rest);
    }
  }

  lemma BlankIsTrimmed(rest: string)
    requires rest != [] ==> !IsWhitespace(rest[0])
    ensures TrimStart(" " + rest) == rest
  {
    TrimDropsABlank(rest);
  }

  lemma BracketIsFound(stamp: string, rest: string)
    requires StampText(stamp)
    ensures Find(stamp + "] " + rest, "]") == Some(|stamp|)
  {
    var s := stamp + "] " + rest;
    assert At(s, "]", |stamp|);
    forall j | 0 <= j < |stamp|
      ensures !At(s, "]", j)
    {
      assert s[j..j + 1][0] == s[j] == stamp[j] && stamp[j] in stamp;
    }
  }

  lemma StampIsAscii(before: string, stamp: string, after: string)
    requires StampText(stamp)
    requires (before == "[" && after == "] ") || (before == "" && after == " - ")
    ensures Sanitized(before + stamp + after) == before + stamp + after
  {
    hide Sanitized;
    var s := before + stamp + after;
    forall i | 0 <= i < |s|
      ensures s[i] as int < 0x80
    {
      if |before| <= i < |before| + |stamp| {
        assert s[i] == stamp[i - |before|] && stamp[i - |before|] in stamp;
      }
    }
    AsciiIsClean(s);
  }

  lemma StampIsOneLine(before: string, stamp: string, after: string, part: string)
    requires StampText(stamp) && IsOneLine(part) && (part != [] ==> part[|part| - 1] == ' ')
    requires (before == "[" && after == "] ") || (before == "" && after == " - ")
    ensures var head := before + stamp + after + part; IsOneLine(head) && head[|head| - 1] == ' '
  {
    assert '\n' !in stamp;
  }

  lemma StartIsOneLine(x: Declared, d: Dialect, m: RawMessage)
    requires Exportable(x, d, m)
    ensures IsOneLine(RenderedStart(x, d, m.timestamp) + SenderPart(m))
    ensures var head := RenderedStart(x, d, m.timestamp) + SenderPart(m);
            head != [] && head[|head| - 1] == ' '
  {
    hide Sanitized, StripCr, IsWhitespace, Resolve, IsMedia, PlainContinuation, RenderStamp;
    hide ContentLines, Writable, Contains;
    var local, part := LocalTime(x.zone, m.timestamp), SenderPart(m);
    var stamp := RenderStamp(local, x.order, d.style);
    StampParses(local, x.order, d.style);
    match d.format {
      case Ios =>
        StampIsOneLine("[", stamp, "] ", part);
      case Android =>
        StampIsOneLine("", stamp, " - ", part);
        assert "" + stamp == stamp;
    }
  }

  /** The lines a rendered message is read as: the start with the first body line, and the others. */
  lemma LinesOfRendered(x: Declared, d: Dialect, m: RawMessage)
    requires Exportable(x, d, m)
    ensures Lines(RenderedMessage(x, d, m))
         == [RenderedStart(x, d, m.timestamp) + FirstRest(m)] + ContentLines(m.content)[1..]
  {
    hide Sanitized, IsWhitespace, Resolve, IsMedia, SplitBody, RenderedStart, ContentLines, Lines, SplitHeader;
    hide PlainSender, Writable;
    var head := RenderedStart(x, d, m.timestamp) + SenderPart(m);
    var ls := ContentLines(m.content);
    StartIsOneLine(x, d, m);
    ContentAfter(head, m.content);
    var all := ContentLines(head + m.content);
    assert head + ls[0] == RenderedStart(x, d, m.timestamp) + FirstRest(m);
    forall line | line in all
      ensures StripCr(line) == line
    {
      if line == head + ls[0] {
        HeadKeepsItsEnd(head, ls[0]);
      } else {
        assert line in ls[1..];
        PlainHasNoCr(x, line);
      }
    }
    LinesOfContent(head + m.content);
    assert RenderedMessage(x, d, m) == head + m.content + "\n";
  }

  lemma HeadKeepsItsEnd(head: string, line: string)
    requires head != [] && head[|head| - 1] == ' ' && StripCr(line) == line
    ensures StripCr(head + line) == head + line
  {
  }

  lemma PlainHasNoCr(x: Declared, line: string)
    requires PlainContinuation(x, line)
    ensures StripCr(line) == line
  {
    hide Sanitized, SplitHeader;
    TrimEndShortens(line);
  }

  lemma {:induction false} TrimEndShortens(s: string)
    ensures |TrimEnd(s)| <= |s|
    ensures s != [] && IsWhitespace(s[|s| - 1]) ==> |TrimEnd(s)| < |s|
  {
    if s != [] {
      TrimEndShortens(s[..|s| - 1]);
    }
  }

  /** The lifecycle event a system line tells of, if any. */
  function EventsIn(m: RawMessage): seq<ChatEvent> {
    EventsOf(Body(m.sender, ContentLines(m.content)[0], m.isSystem), m.timestamp)
  }

  function AllEvents(ms: seq<RawMessage>): seq<ChatEvent> {
    if ms == [] then [] else AllEvents(ms[..|ms| - 1]) + EventsIn(ms[|ms| - 1])
  }

  lemma EventsAre(m: RawMessage)
    ensures EventsIn(m) == EventsOf(Body(m.sender, ContentLines(m.content)[0], m.isSystem), m.timestamp)
  {
  }

  /** Reading one rendered message adds just that message, and the event it tells of. */
  lemma MessageIsReadBack(x: Declared, d: Dialect, p: Progress, m: RawMessage)
    requires WellBuilt(p) && Exportable(x, d, m)
    ensures FeedAll(x, p, Lines(RenderedMessage(x, d, m))).messages == p.messages + [m]
    ensures FeedAll(x, p, Lines(RenderedMessage(x, d, m))).format == d.format
    ensures FeedAll(x, p, Lines(RenderedMessage(x, d, m))).events == p.events + EventsIn(m)
  {
    hide *;
    var local := ExportableLocal(x, d, m);
    LinesOfRendered(x, d, m);
    var line, ls := RenderedStart(x, d, m.timestamp) + FirstRest(m), ContentLines(m.content)[1..];
    FirstBody(x, d, m);
    EventsAre(m);
    HeaderIsFound(x, d, m.timestamp, FirstRest(m));
    FeedAllSplits(x, p, [line], ls);
    FirstLineOpens(x, d, p, m, local, line);
    var q := FeedAll(x, p, [line]);
    ContinuationsJoin(x, q, ls);
    MessagesAreWellBuilt(x, p, [line] + ls);
    ContentFromLines(m.content);
    var r, n := FeedAll(x, q, ls), |p.messages|;
    LastIsWellBuilt(r, m);
    assert r.messages == r.messages[..n] + [r.messages[n]];
  }

  /** The message as it should be, told from one with the same parts. */
  lemma LastIsWellBuilt(p: Progress, m: RawMessage)
    requires WellBuilt(p) && p.messages != []
    requires var last := p.messages[|p.messages| - 1]; last == m.(hasMedia := last.hasMedia)
    requires m.hasMedia <==> IsMedia(m.content)
    ensures p.messages[|p.messages| - 1] == m
  {
    hide IsMedia;
    assert p.messages[|p.messages| - 1] in p.messages;
  }

  lemma ExportableLocal(x: Declared, d: Dialect, m: RawMessage) returns (local: int)
    requires Exportable(x, d, m)
    ensures local == LocalTime(x.zone, m.timestamp) && Resolve(x.zone, local) == Some(m.timestamp)
    ensures Writable(local, d.style) && (m.hasMedia <==> IsMedia(m.content))
    ensures forall line <- ContentLines(m.content)[1..] :: PlainContinuation(x, line)
  {
    local := LocalTime(x.zone, m.timestamp);
  }

  lemma FirstLineOpens(x: Declared, d: Dialect, p: Progress, m: RawMessage, local: int, line: string)
    requires Sanitized(line) == line && SplitHeader(line, x.order) == Some(Header(local, FirstRest(m), d.format))
    requires Resolve(x.zone, local) == Some(m.timestamp)
    requires SplitBody(FirstRest(m)) == Body(m.sender, ContentLines(m.content)[0], m.isSystem)
    ensures var q := FeedAll(x, p, [line]);
            && q.format == d.format
            && q.events == p.events + EventsOf(SplitBody(FirstRest(m)), m.timestamp)
            && |q.messages| == |p.messages| + 1 && q.messages[..|p.messages|] == p.messages
            && q.messages[|p.messages|]
                 == m.(content := ContentLines(m.content)[0], hasMedia := q.messages[|p.messages|].hasMedia)
  {
    hide Sanitized, SplitHeader, Resolve, SplitBody, FirstRest, IsMedia, EventsOf;
    assert [line][..0] == [] && FeedAll(x, p, []) == p;
  }

  lemma RenderedEnds(x: Declared, d: Dialect, ms: seq<RawMessage>, m: RawMessage)
    requires forall k <- ms + [m] :: Writable(LocalTime(x.zone, k.timestamp), d.style)
    ensures Rendered(x, d, ms + [m]) == Rendered(x, d, ms) + RenderedMessage(x, d, m)
  {
    hide RenderedMessage, Writable;
    assert (ms + [m])[..|ms|] == ms;
  }

  /** Whole messages after whole messages have the lines of both. */
  lemma {:induction false} LinesAfterRendered(x: Declared, d: Dialect, ms: seq<RawMessage>, t: string)
    requires forall k <- ms :: Writable(LocalTime(x.zone, k.timestamp), d.style)
    ensures Lines(Rendered(x, d, ms) + t) == Lines(Rendered(x, d, ms)) + Lines(t)
  {
    hide Lines, Writable, RenderedStart;
    NoLines();
    if ms == [] {
      assert Rendered(x, d, ms) + t == t;
    } else {
      var s := Rendered(x, d, ms);
      assert s[|s| - 1] == '\n';
      var body := s[..|s| - 1];
      assert s == body + "\n";
      LinesOfJoin(body, t);
    }
  }

  /**
   Round trip: reading the iOS or Android rendering of any exportable messages, in any zone, date
   order and style of stamps, gives back exactly those messages, the events their system lines
   tell of, and the format.
   */
  lemma {:induction false} RenderingIsReadBack(x: Declared, d: Dialect, ms: seq<RawMessage>)
    requires forall m <- ms :: Exportable(x, d, m)
    ensures forall m <- ms :: Writable(LocalTime(x.zone, m.timestamp), d.style)
    ensures Parsed(x, Rendered(x, d, ms)).messages == ms
    ensures Parsed(x, Rendered(x, d, ms)).events == AllEvents(ms)
    ensures ms != [] ==> Parsed(x, Rendered(x, d, ms)).format == d.format
  {
    hide Lines, Feed, Exportable, Rendered, RenderedMessage, Writable, WellBuilt, Extent, Times, EventsIn;
    assert forall m <- ms :: Writable(LocalTime(x.zone, m.timestamp), d.style) by {
      forall m | m in ms
        ensures Writable(LocalTime(x.zone, m.timestamp), d.style)
      {
        var local := ExportableLocal(x, d, m);
      }
    }
    if ms == [] {
      NothingRendered(x, d);
    } else {
      var n := |ms| - 1;
      var prefix, m := ms[..n], ms[n];
      assert ms == prefix + [m] && m in ms;
      RenderingIsReadBack(x, d, prefix);
      RenderedEnds(x, d, prefix, m);
      LinesAfterRendered(x, d, prefix, RenderedMessage(x, d, m));
      FeedAllSplits(x, NOTHING_READ, Lines(Rendered(x, d, prefix)), Lines(RenderedMessage(x, d, m)));
      NothingIsWellBuilt();
      MessagesAreWellBuilt(x, NOTHING_READ, Lines(Rendered(x, d, prefix)));
      MessageIsReadBack(x, d, Read(x, Rendered(x, d, prefix)), m);
    }
  }

  lemma NothingIsWellBuilt()
    ensures WellBuilt(NOTHING_READ)
  {
  }

  lemma NothingRendered(x: Declared, d: Dialect)
    ensures Rendered(x, d, []) == "" && Read(x, "") == NOTHING_READ
  {
  }

  // ---------- What can be exported ----------

  lemma NoSeparatorIsSystem(s: string)
    ensures Find(s, ": ").None? ==> SplitBody(s) == Body(None, s, true)
  {
  }

  /**
   In a zone without transitions any one-line text can be exported, from a plain sender or as a
   system line without a colon and a blank, at any instant whose local time the dialect can write.
   */
  lemma OneLineTextIsExportable(x: Declared, offset: int, d: Dialect, m: RawMessage)
    requires IsFixed(x.zone, offset) && Writable(m.timestamp + offset, d.style)
    requires IsOneLine(m.content) && Sanitized(m.content) == m.content && StripCr(m.content) == m.content
    requires (m.isSystem <==> m.sender.None?) && (m.hasMedia <==> IsMedia(m.content))
    requires m.sender.Some? ==> PlainSender(m.sender.value)
    requires m.sender.None? ==> !Contains(m.content, ": ") && (m.content != [] ==> !IsWhitespace(m.content[0]))
    ensures Exportable(x, d, m)
  {
    hide Sanitized, IsMedia, Writable, IsWhitespace, PlainSender, StripCr, SplitBody;
    ResolveFixed(x.zone, offset, m.timestamp + offset);
    ContentOneLine(m.content);
    NoSeparatorIsSystem(m.content);
  }

  /** A rendered message starts with a line that opens it, so exports can be put before it. */
  lemma RenderedMessageOpens(x: Declared, d: Dialect, m: RawMessage)
    requires Exportable(x, d, m)
    ensures Lines(RenderedMessage(x, d, m)) != [] && Opens(x, Lines(RenderedMessage(x, d, m))[0])
  {
    hide Sanitized, SplitHeader, RenderedMessage, RenderedStart, Lines, Resolve, ContentLines;
    LinesOfRendered(x, d, m);
    FirstBody(x, d, m);
    HeaderIsFound(x, d, m.timestamp, FirstRest(m));
  }
}
