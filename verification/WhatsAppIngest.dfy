/**
 WhatsApp ingestion: resolving senders to participants, fingerprinting messages and storing each
 once. Hashing and UTF-8 encoding are parameters; where it matters they are taken to be injective.
 */
module WhatsAppIngest {
  import opened Numbers
  import opened Text
  import opened WhatsAppParser
  import opened Wrappers

  type Byte = b: int | 0 <= b < 256

  // ---------- Messages and tables ----------

  /** A participant of one chat; `aliases` holds newline-delimited display names. */
  datatype Participant = Participant(
    id: string, workspace: string, chat: string, phoneHash: Option<string>, pseudonym: string, aliases: string)

  datatype Message = Message(
    workspace: string, chat: string, authorId: string, authorName: string, content: string, timestamp: int,
    isSystem: bool)

  /** The participants in the order they were created, and the messages by fingerprint. */
  datatype Store = Store(participants: seq<Participant>, messages: map<string, Message>)

  datatype Context = Context(workspace: string, chat: string, uploader: string)

  datatype Summary = Summary(stored: nat, duplicates: nat, newParticipants: nat)
  {
    function Plus(s: Summary): Summary {
      Summary(stored + s.stored, duplicates + s.duplicates, newParticipants + s.newParticipants)
    }
  }

  /** A row refused by a unique key. */
  datatype StorageError = Constraint

  /** `digest` and `phone` are full hashes in hex, `short` a truncated one, `utf8` the string's bytes. */
  datatype Hashing = Hashing(
    digest: seq<Byte> -> string, phone: string -> string, short: string -> string, utf8: string -> seq<Byte>)

  // ---------- Who wrote it ----------

  /** A sender shown as a number because the exporter has no contact for it. */
  predicate IsPhoneLike(sender: string) {
    var s := Trim(sender);
    && s != [] && s[0] == '+'
    && |Digits(s)| >= 7
    && forall c <- s :: IsDigit(c) || c == '+' || c == ' ' || c == '-' || c == '(' || c == ')'
  }

  function Digits(s: string): string {
    if s == [] then [] else Digits(s[..|s| - 1]) + if IsDigit(s[|s| - 1]) then [s[|s| - 1]] else []
  }

  /** What a participant is looked up by: a phone hash or a display name. */
  datatype Key = Phone(hash: string) | Alias(name: string)

  function KeyOf(h: Hashing, sender: string): Key {
    if IsPhoneLike(sender) then Phone(h.phone(Digits(sender))) else Alias(sender)
  }

  function SeedOf(key: Key): string {
    match key
    case Phone(hash) => hash
    case Alias(name) => name
  }

  function ParticipantFor(h: Hashing, ctx: Context, key: Key): Participant {
    var short := h.short(SeedOf(key));
    Participant("p:" + short, ctx.workspace, ctx.chat, if key.Phone? then Some(key.hash) else None,
                "Participant-" + short, if key.Alias? then key.name else "")
  }

  predicate Matches(p: Participant, ctx: Context, key: Key) {
    && p.workspace == ctx.workspace && p.chat == ctx.chat
    && match key
       case Phone(hash) => p.phoneHash == Some(hash)
       case Alias(name) => Contains("\n" + p.aliases + "\n", "\n" + name + "\n")
  }

  function FirstMatch(ps: seq<Participant>, ctx: Context, key: Key): (r: Option<Participant>)
    ensures r.Some? ==> r.value in ps && Matches(r.value, ctx, key)
    ensures r.None? <==> forall p <- ps :: !Matches(p, ctx, key)
  {
    if ps == [] then None
    else if Matches(ps[0], ctx, key) then Some(ps[0])
    else FirstMatch(ps[1..], ctx, key)
  }

  /** The id is unique in the whole table, the phone hash within its chat. */
  predicate CanCreate(ps: seq<Participant>, p: Participant) {
    forall q <- ps ::
      && q.id != p.id
      && !(p.phoneHash.Some? && q.phoneHash == p.phoneHash && q.workspace == p.workspace && q.chat == p.chat)
  }

  datatype Author = Author(id: string, name: string)

  const SYSTEM_AUTHOR := Author("system", "System")

  function SelfAuthor(h: Hashing, ctx: Context): Author {
    Author("self:" + ctx.uploader, "You-" + h.short(ctx.uploader))
  }

  /** Whether a message's sender has to be looked up among the participants. */
  predicate IsNamed(raw: RawMessage) {
    raw.sender.Some? && raw.sender.value != "You"
  }

  /** The author of a message and the participants afterwards, one more if the sender was unseen. */
  function Resolve(h: Hashing, ps: seq<Participant>, ctx: Context, raw: RawMessage)
    : Result<(Author, seq<Participant>), StorageError>
  {
    match raw.sender
    case None => Ok((SYSTEM_AUTHOR, ps))
    case Some(sender) =>
      if sender == "You" then Ok((SelfAuthor(h, ctx), ps))
      else
        var key := KeyOf(h, sender);
        match FirstMatch(ps, ctx, key)
        case Some(p) => Ok((Author(p.id, p.pseudonym), ps))
        case None =>
          var p := ParticipantFor(h, ctx, key);
          if CanCreate(ps, p) then Ok((Author(p.id, p.pseudonym), ps + [p])) else Err(Constraint)
  }

  // ---------- The fingerprint ----------

  /** The low `width` bytes of `n`, most significant first. */
  function BigEndian(n: int, width: nat): (s: seq<Byte>)
    ensures |s| == width
    decreases width
  {
    if width == 0 then [] else BigEndian(n / 256, width - 1) + [n % 256]
  }

  /** A part preceded by its length in eight bytes. */
  function Framed(part: seq<Byte>): seq<Byte> {
    BigEndian(|part|, 8) + part
  }

  function FramedAll(parts: seq<seq<Byte>>): seq<Byte> {
    if parts == [] then [] else Framed(parts[0]) + FramedAll(parts[1..])
  }

  function KeyParts(h: Hashing, ctx: Context, raw: RawMessage, authorId: string): seq<seq<Byte>> {
    [h.utf8(ctx.workspace), h.utf8(ctx.chat), BigEndian(raw.timestamp, 8), h.utf8(authorId), h.utf8(raw.content)]
  }

  function Fingerprint(h: Hashing, ctx: Context, raw: RawMessage, authorId: string): string {
    "wa_" + h.digest(FramedAll(KeyParts(h, ctx, raw, authorId)))
  }

  // ---------- Ingestion ----------

  function Normalized(ctx: Context, raw: RawMessage, author: Author): Message {
    Message(ctx.workspace, ctx.chat, author.id, author.name, raw.content, raw.timestamp, raw.isSystem)
  }

  /** One message: its author resolved, then stored unless its fingerprint is there already. */
  function IngestOne(h: Hashing, s: Store, ctx: Context, raw: RawMessage): (Store, Result<Summary, StorageError>) {
    match Resolve(h, s.participants, ctx, raw)
    case Err(e) => (s, Err(e))
    case Ok((author, ps)) =>
      var id, created := Fingerprint(h, ctx, raw, author.id), |ps| - |s.participants|;
      if id in s.messages then (Store(ps, s.messages), Ok(Summary(0, 1, if created > 0 then 1 else 0)))
      else (Store(ps, s.messages[id := Normalized(ctx, raw, author)]), Ok(Summary(1, 0, if created > 0 then 1 else 0)))
  }

  /** A batch, message by message; a refused row ends it, and what was stored before stays. */
  function IngestAll(h: Hashing, s: Store, ctx: Context, batch: seq<RawMessage>): (Store, Result<Summary, StorageError>)
  {
    if batch == [] then (s, Ok(Summary(0, 0, 0)))
    else
      var (before, soFar) := IngestAll(h, s, ctx, batch[..|batch| - 1]);
      if soFar.Err? then (before, soFar)
      else
        var (after, one) := IngestOne(h, before, ctx, batch[|batch| - 1]);
        (after, if one.Err? then one else Ok(soFar.value.Plus(one.value)))
  }

  /** One message, case by case. */
  lemma IngestOneCases(h: Hashing, s: Store, ctx: Context, raw: RawMessage)
    ensures var resolved, (after, r) := Resolve(h, s.participants, ctx, raw), IngestOne(h, s, ctx, raw);
            && (resolved.Err? ==> after == s && r == Err(resolved.error))
            && (resolved.Ok? ==>
                  var author, ps := resolved.value.0, resolved.value.1;
                  var id, created := Fingerprint(h, ctx, raw, author.id), if |ps| > |s.participants| then 1 else 0;
                  && after.participants == ps
                  && (id in s.messages ==> after.messages == s.messages && r == Ok(Summary(0, 1, created)))
                  && (id !in s.messages ==>
                        && after.messages == s.messages[id := Normalized(ctx, raw, author)]
                        && r == Ok(Summary(1, 0, created))))
  {
    hide Fingerprint, Resolve, Normalized;
  }

  /** A batch, case by case. */
  lemma IngestAllCases(h: Hashing, s: Store, ctx: Context, batch: seq<RawMessage>)
    requires batch != []
    ensures var (before, soFar) := IngestAll(h, s, ctx, batch[..|batch| - 1]);
            var (after, one) := IngestOne(h, before, ctx, batch[|batch| - 1]);
            && (soFar.Err? ==> IngestAll(h, s, ctx, batch) == (before, soFar))
            && (soFar.Ok? && one.Err? ==> IngestAll(h, s, ctx, batch) == (after, one))
            && (soFar.Ok? && one.Ok? ==> IngestAll(h, s, ctx, batch) == (after, Ok(soFar.value.Plus(one.value))))
  {
    hide IngestOne;
  }

  class WhatsAppRepository {
    var participants: seq<Participant>
    var messages: map<string, Message>

    constructor ()
      ensures View() == Store([], map[])
    {
      participants, messages := [], map[];
    }

    function View(): Store
      reads this
    {
      Store(participants, messages)
    }

    method Lookup(ctx: Context, key: Key) returns (r: Option<Participant>)
      ensures r == FirstMatch(participants, ctx, key)
    {
      var i := 0;
      while i < |participants|
        invariant 0 <= i <= |participants|
        invariant FirstMatch(participants, ctx, key) == FirstMatch(participants[i..], ctx, key)
      {
        if Matches(participants[i], ctx, key) {
          return Some(participants[i]);
        }
        assert participants[i..][1..] == participants[i + 1..];
        i := i + 1;
      }
      return None;
    }

    method CreateParticipant(p: Participant) returns (ok: bool)
      modifies this`participants
      ensures ok == CanCreate(old(participants), p)
      ensures !ok <==> exists q <- old(participants) ::
                         || q.id == p.id
                         || (p.phoneHash.Some? && q.phoneHash == p.phoneHash
                             && q.workspace == p.workspace && q.chat == p.chat)
      ensures participants == if ok then old(participants) + [p] else old(participants)
    {
      ok := CanCreate(participants, p);
      if ok {
        participants := participants + [p];
      }
    }

    /** Inserts a message, or ignores it when its id is known; says which. */
    method SaveMessage(id: string, m: Message) returns (stored: bool)
      modifies this`messages
      ensures stored <==> id !in old(messages)
      ensures messages == if stored then old(messages)[id := m] else old(messages)
    {
      stored := id !in messages;
      if stored {
        messages := messages[id := m];
      }
    }
  }

  class WhatsAppIngestor {
    const repo: WhatsAppRepository
    const hashing: Hashing

    constructor (repo: WhatsAppRepository, hashing: Hashing)
      ensures this.repo == repo && this.hashing == hashing
    {
      this.repo, this.hashing := repo, hashing;
    }

    method ResolveAuthor(ctx: Context, raw: RawMessage) returns (r: Result<(Author, bool), StorageError>)
      modifies repo`participants
      ensures match Resolve(hashing, old(repo.participants), ctx, raw)
              case Ok((author, ps)) =>
                r == Ok((author, |ps| > |old(repo.participants)|)) && repo.participants == ps
              case Err(e) => r == Err(e) && repo.participants == old(repo.participants)
    {
      if raw.sender.None? {
        return Ok((SYSTEM_AUTHOR, false));
      }
      if raw.sender.value == "You" {
        return Ok((SelfAuthor(hashing, ctx), false));
      }
      var key := KeyOf(hashing, raw.sender.value);
      var known := repo.Lookup(ctx, key);
      if known.Some? {
        return Ok((Author(known.value.id, known.value.pseudonym), false));
      }
      var p := ParticipantFor(hashing, ctx, key);
      var ok := repo.CreateParticipant(p);
      if !ok {
        return Err(Constraint);
      }
      return Ok((Author(p.id, p.pseudonym), true));
    }

    /** One turn of the batch loop, and what it adds to the counts. */
    method IngestMessage(ctx: Context, raw: RawMessage) returns (r: Result<Summary, StorageError>)
      modifies repo
      ensures (repo.View(), r) == IngestOne(hashing, old(repo.View()), ctx, raw)
    {
      IngestOneCases(hashing, repo.View(), ctx, raw);
      hide Fingerprint, Resolve, Normalized, IngestOne;
      var author := ResolveAuthor(ctx, raw);
      if author.Err? {
        return Err(author.error);
      }
      var created := if author.value.1 then 1 else 0;
      var id := Fingerprint(hashing, ctx, raw, author.value.0.id);
      var stored := repo.SaveMessage(id, Normalized(ctx, raw, author.value.0));
      return Ok(if stored then Summary(1, 0, created) else Summary(0, 1, created));
    }

    method Ingest(ctx: Context, batch: seq<RawMessage>) returns (r: Result<Summary, StorageError>)
      modifies repo
      ensures (repo.View(), r) == IngestAll(hashing, old(repo.View()), ctx, batch)
    {
      hide IngestAll, IngestOne;
      ghost var start := repo.View();
      var summary := Summary(0, 0, 0);
      EmptyBatch(hashing, start, ctx, batch);
      for i := 0 to |batch|
        invariant (repo.View(), Ok(summary)) == IngestAll(hashing, start, ctx, batch[..i])
      {
        assert batch[..i + 1][..i] == batch[..i];
        IngestAllCases(hashing, start, ctx, batch[..i + 1]);
        RestFails(hashing, start, ctx, batch, i + 1);
        var one := IngestMessage(ctx, batch[i]);
        if one.Err? {
          return one;
        }
        summary := summary.Plus(one.value);
      }
      assert batch[..|batch|] == batch;
      return Ok(summary);
    }
  }

  lemma EmptyBatch(h: Hashing, s: Store, ctx: Context, batch: seq<RawMessage>)
    ensures IngestAll(h, s, ctx, batch[..0]) == (s, Ok(Summary(0, 0, 0)))
  {
  }

  /** Once a message is refused nothing after it is looked at. */
  lemma {:induction false} RestFails(h: Hashing, s: Store, ctx: Context, batch: seq<RawMessage>, i: nat)
    requires i <= |batch|
    ensures IngestAll(h, s, ctx, batch[..i]).1.Err? ==> IngestAll(h, s, ctx, batch) == IngestAll(h, s, ctx, batch[..i])
  {
    if i == |batch| {
      assert batch[..i] == batch;
    } else {
      var prefix := batch[..|batch| - 1];
      RestFails(h, s, ctx, prefix, i);
      assert prefix[..i] == batch[..i];
    }
  }

  // ---------- The fingerprint is injective ----------

  function Pow256(n: nat): nat {
    if n == 0 then 1 else 256 * Pow256(n - 1)
  }

  /** Numbers closer than the range of `width` bytes have different bytes, negative ones included. */
  lemma {:induction false} BigEndianIsInjective(m: int, n: int, width: nat)
    requires m - n < Pow256(width) && n - m < Pow256(width)
    requires BigEndian(m, width) == BigEndian(n, width)
    ensures m == n
    decreases width
  {
    if width > 0 {
      var a, b := BigEndian(m, width), BigEndian(n, width);
      assert a[width - 1] == m % 256 && b[width - 1] == n % 256;
      assert a[..width - 1] == BigEndian(m / 256, width - 1) && b[..width - 1] == BigEndian(n / 256, width - 1);
      BigEndianIsInjective(m / 256, n / 256, width - 1);
    }
  }

  lemma EightBytes()
    ensures Pow256(8) == 0x1_0000_0000_0000_0000
  {
    assert Pow256(4) == 0x1_0000_0000;
  }

  /** Parts framed by their lengths can be told apart again. */
  lemma {:induction false} FramingIsInjective(ps: seq<seq<Byte>>, qs: seq<seq<Byte>>)
    requires |ps| == |qs| && FramedAll(ps) == FramedAll(qs)
    requires forall p <- ps + qs :: |p| <= 0xffff_ffff_ffff_ffff
    ensures ps == qs
  {
    hide Framed;
    if ps != [] {
      assert ps[0] in ps + qs && qs[0] in ps + qs;
      assert forall p <- ps[1..] + qs[1..] :: p in ps + qs;
      FirstPartIsKnown(ps[0], FramedAll(ps[1..]), qs[0], FramedAll(qs[1..]));
      FramingIsInjective(ps[1..], qs[1..]);
      assert ps == [ps[0]] + ps[1..] && qs == [qs[0]] + qs[1..];
    }
  }

  lemma FirstPartIsKnown(p: seq<Byte>, rest: seq<Byte>, q: seq<Byte>, rest': seq<Byte>)
    requires Framed(p) + rest == Framed(q) + rest'
    requires |p| <= 0xffff_ffff_ffff_ffff && |q| <= 0xffff_ffff_ffff_ffff
    ensures p == q && rest == rest'
  {
    var bytes, bytes' := Framed(p) + rest, Framed(q) + rest';
    assert bytes[..8] == BigEndian(|p|, 8) && bytes'[..8] == BigEndian(|q|, 8);
    EightBytes();
    BigEndianIsInjective(|p|, |q|, 8);
    assert bytes[8..8 + |p|] == p && bytes'[8..8 + |q|] == q;
    assert bytes[8 + |p|..] == rest && bytes'[8 + |q|..] == rest';
  }

  /** No two inputs share a hash, and no two strings their bytes. */
  ghost predicate CollisionFree(h: Hashing) {
    && (forall x, y :: h.digest(x) == h.digest(y) ==> x == y)
    && (forall x, y :: h.utf8(x) == h.utf8(y) ==> x == y)
  }

  /** A message as it can exist in memory: a 64-bit timestamp and lengths that fit in 64 bits. */
  ghost predicate Representable(h: Hashing, ctx: Context, raw: RawMessage, authorId: string) {
    && IsI64(raw.timestamp)
    && forall part <- KeyParts(h, ctx, raw, authorId) :: |part| <= 0xffff_ffff_ffff_ffff
  }

  /** Two messages share a fingerprint exactly when chat, instant, author and content are the same. */
  lemma FingerprintsIdentify(h: Hashing, c: Context, r: RawMessage, a: string, c': Context, r': RawMessage, a': string)
    requires CollisionFree(h) && Representable(h, c, r, a) && Representable(h, c', r', a')
    ensures Fingerprint(h, c, r, a) == Fingerprint(h, c', r', a')
       <==> c.workspace == c'.workspace && c.chat == c'.chat && r.timestamp == r'.timestamp && a == a'
            && r.content == r'.content
  {
    var ps, qs := KeyParts(h, c, r, a), KeyParts(h, c', r', a');
    if Fingerprint(h, c, r, a) == Fingerprint(h, c', r', a') {
      var x, y := h.digest(FramedAll(ps)), h.digest(FramedAll(qs));
      assert ("wa_" + x)[3..] == x && ("wa_" + y)[3..] == y;
      FramingIsInjective(ps, qs);
      assert ps[0] == qs[0] && ps[1] == qs[1] && ps[2] == qs[2] && ps[3] == qs[3] && ps[4] == qs[4];
      EightBytes();
      BigEndianIsInjective(r.timestamp, r'.timestamp, 8);
    }
  }

  // ---------- Authors are a function of senders ----------

  /** The participant a named sender stands for. */
  function PersonOf(h: Hashing, ctx: Context, raw: RawMessage): Participant
    requires IsNamed(raw)
  {
    ParticipantFor(h, ctx, KeyOf(h, raw.sender.value))
  }

  function AuthorOf(h: Hashing, ctx: Context, raw: RawMessage): Author {
    if raw.sender.None? then SYSTEM_AUTHOR
    else if raw.sender.value == "You" then SelfAuthor(h, ctx)
    else Author(PersonOf(h, ctx, raw).id, PersonOf(h, ctx, raw).pseudonym)
  }

  function IdOf(h: Hashing, ctx: Context, raw: RawMessage): string {
    Fingerprint(h, ctx, raw, AuthorOf(h, ctx, raw).id)
  }

  function RowOf(h: Hashing, ctx: Context, raw: RawMessage): Message {
    Normalized(ctx, raw, AuthorOf(h, ctx, raw))
  }

  /** A participant as ingestion creates it. */
  ghost predicate AsCreated(h: Hashing, p: Participant) {
    var key := if p.phoneHash.Some? then Phone(p.phoneHash.value) else Alias(p.aliases);
    && p == ParticipantFor(h, Context(p.workspace, p.chat, ""), key)
    && (p.phoneHash.None? ==> p.aliases != "" && IsOneLine(p.aliases))
  }

  ghost predicate WellKept(h: Hashing, ps: seq<Participant>) {
    && (forall p <- ps :: AsCreated(h, p))
    && (forall p, q | p in ps && q in ps && p.id == q.id :: p == q)
    && (forall i, j :: 0 <= i < j < |ps| ==> ps[i] != ps[j])
  }

  /** A lookup finds the very participant the key stands for, and no other. */
  lemma MatchIsThePerson(h: Hashing, p: Participant, ctx: Context, key: Key)
    requires AsCreated(h, p) && (key.Alias? ==> key.name != "" && IsOneLine(key.name))
    ensures Matches(p, ctx, key) <==> p == ParticipantFor(h, ctx, key)
  {
    if key.Alias? {
      EnclosedLineFound(p.aliases, key.name);
    }
    hide Contains;
  }

  lemma LookupFindsThePerson(h: Hashing, ps: seq<Participant>, ctx: Context, key: Key)
    requires WellKept(h, ps) && (key.Alias? ==> key.name != "" && IsOneLine(key.name))
    ensures var p := ParticipantFor(h, ctx, key);
            FirstMatch(ps, ctx, key) == if p in ps then Some(p) else None
  {
    forall p | p in ps
      ensures Matches(p, ctx, key) <==> p == ParticipantFor(h, ctx, key)
    {
      MatchIsThePerson(h, p, ctx, key);
    }
    hide Matches, ParticipantFor;
  }

  /** A new participant is refused exactly when someone else holds its id. */
  lemma CreationNeedsAFreeId(h: Hashing, ps: seq<Participant>, ctx: Context, key: Key)
    requires WellKept(h, ps) && ParticipantFor(h, ctx, key) !in ps
    ensures var p := ParticipantFor(h, ctx, key);
            CanCreate(ps, p) <==> forall q <- ps :: q.id != p.id
  {
    var p := ParticipantFor(h, ctx, key);
    forall q | q in ps && p.phoneHash.Some? && q.phoneHash == p.phoneHash
               && q.workspace == p.workspace && q.chat == p.chat
      ensures q == p
    {
      assert AsCreated(h, q);
    }
  }

  lemma CreatedIsAsCreated(h: Hashing, ctx: Context, raw: RawMessage)
    requires FromParser(raw) && IsNamed(raw)
    ensures AsCreated(h, PersonOf(h, ctx, raw))
  {
  }

  lemma NewcomerIsWellKept(h: Hashing, ps: seq<Participant>, p: Participant)
    requires WellKept(h, ps) && AsCreated(h, p) && forall q <- ps :: q.id != p.id
    ensures WellKept(h, ps + [p])
  {
    hide AsCreated;
    assert forall q :: q in ps + [p] <==> q in ps || q == p;
  }

  lemma ResolveKnowsThePerson(h: Hashing, ps: seq<Participant>, ctx: Context, raw: RawMessage)
    requires WellKept(h, ps) && FromParser(raw)
    ensures var unseen := IsNamed(raw) && PersonOf(h, ctx, raw) !in ps;
            && (unseen && (exists q <- ps :: q.id == PersonOf(h, ctx, raw).id) ==>
                  Resolve(h, ps, ctx, raw) == Err(Constraint))
            && (!unseen ==> Resolve(h, ps, ctx, raw) == Ok((AuthorOf(h, ctx, raw), ps)))
            && (unseen && (forall q <- ps :: q.id != PersonOf(h, ctx, raw).id) ==>
                  && Resolve(h, ps, ctx, raw) == Ok((AuthorOf(h, ctx, raw), ps + [PersonOf(h, ctx, raw)]))
                  && WellKept(h, ps + [PersonOf(h, ctx, raw)]))
  {
    if IsNamed(raw) {
      var key, p := KeyOf(h, raw.sender.value), PersonOf(h, ctx, raw);
      LookupFindsThePerson(h, ps, ctx, key);
      CreatedIsAsCreated(h, ctx, raw);
      if p !in ps {
        CreationNeedsAFreeId(h, ps, ctx, key);
        if forall q <- ps :: q.id != p.id {
          NewcomerIsWellKept(h, ps, p);
        }
      }
      hide FirstMatch, Matches, CanCreate, ParticipantFor, KeyOf, AsCreated, WellKept;
    }
  }

  /** What one message does, in terms of who its sender stands for. */
  lemma OneMessage(h: Hashing, s: Store, ctx: Context, raw: RawMessage)
    requires WellKept(h, s.participants) && FromParser(raw)
    ensures var (after, r) := IngestOne(h, s, ctx, raw);
            var ps, id := s.participants, IdOf(h, ctx, raw);
            var unseen := IsNamed(raw) && PersonOf(h, ctx, raw) !in ps;
            && (r.Ok? <==> !unseen || forall q <- ps :: q.id != PersonOf(h, ctx, raw).id)
            && (r.Err? ==> after == s && r == Err(Constraint))
            && (r.Ok? ==>
                  && after.participants == (if unseen then ps + [PersonOf(h, ctx, raw)] else ps)
                  && WellKept(h, after.participants)
                  && after.messages
                       == (if id in s.messages then s.messages else s.messages[id := RowOf(h, ctx, raw)])
                  && r.value == Summary(if id in s.messages then 0 else 1, if id in s.messages then 1 else 0,
                                        if unseen then 1 else 0))
  {
    ResolveKnowsThePerson(h, s.participants, ctx, raw);
    IngestOneCases(h, s, ctx, raw);
    hide Resolve, IngestOne, Fingerprint, Normalized, AuthorOf, PersonOf, WellKept, FromParser, IsNamed;
  }

  // ---------- A batch is a set ----------

  /** Every message of the batch is as the parser emits it and fits in memory. */
  ghost predicate Ingestible(h: Hashing, ctx: Context, batch: seq<RawMessage>) {
    forall raw <- batch :: FromParser(raw) && Representable(h, ctx, raw, AuthorOf(h, ctx, raw).id)
  }

  /** `ps` after everyone who wrote in the batch is among them. */
  ghost predicate JoinedBy(
    h: Hashing, ctx: Context, ps: seq<Participant>, batch: seq<RawMessage>, ps': seq<Participant>)
  {
    forall p :: p in ps' <==> p in ps || exists raw <- batch :: IsNamed(raw) && p == PersonOf(h, ctx, raw)
  }

  /** `ms` after the messages of the batch whose ids were not taken are among them. */
  ghost predicate UnitedWith(
    h: Hashing, ctx: Context, ms: map<string, Message>, batch: seq<RawMessage>, ms': map<string, Message>)
  {
    && (forall id :: id in ms' <==> id in ms || exists raw <- batch :: id == IdOf(h, ctx, raw))
    && (forall id | id in ms :: id in ms' && ms'[id] == ms[id])
    && (forall raw <- batch ::
          IdOf(h, ctx, raw) in ms'
          && (IdOf(h, ctx, raw) !in ms ==> ms'[IdOf(h, ctx, raw)] == RowOf(h, ctx, raw)))
  }

  /** Messages that share a fingerprint are stored as the same row. */
  lemma SameIdSameRow(h: Hashing, ctx: Context, r: RawMessage, r': RawMessage)
    requires CollisionFree(h) && FromParser(r) && FromParser(r')
    requires Representable(h, ctx, r, AuthorOf(h, ctx, r).id) && Representable(h, ctx, r', AuthorOf(h, ctx, r').id)
    requires IdOf(h, ctx, r) == IdOf(h, ctx, r')
    ensures RowOf(h, ctx, r) == RowOf(h, ctx, r')
  {
    FingerprintsIdentify(h, ctx, r, AuthorOf(h, ctx, r).id, ctx, r', AuthorOf(h, ctx, r').id);
    SameAuthorIdSameAuthor(h, ctx, r, r');
    hide Fingerprint, Representable, CollisionFree, AuthorOf;
  }

  lemma SameAuthorIdSameAuthor(h: Hashing, ctx: Context, r: RawMessage, r': RawMessage)
    requires AuthorOf(h, ctx, r).id == AuthorOf(h, ctx, r').id
    ensures AuthorOf(h, ctx, r) == AuthorOf(h, ctx, r') && (r.sender.None? <==> r'.sender.None?)
  {
    AuthorIdTellsTheKind(h, ctx, r);
    AuthorIdTellsTheKind(h, ctx, r');
    hide SeedOf, KeyOf;
    if IsNamed(r) {
      var p, q := PersonOf(h, ctx, r), PersonOf(h, ctx, r');
      assert p.id[2..] == q.id[2..];
    }
  }

  lemma AuthorIdTellsTheKind(h: Hashing, ctx: Context, raw: RawMessage)
    ensures var id := AuthorOf(h, ctx, raw).id;
            && |id| >= 2
            && (raw.sender.None? <==> id[..2] == "sy")
            && (raw.sender == Some("You") <==> id[..2] == "se")
            && (IsNamed(raw) <==> id[..2] == "p:")
            && (IsNamed(raw) ==> PersonOf(h, ctx, raw).pseudonym == "Participant-" + id[2..])
  {
    hide SeedOf, KeyOf;
    var id := AuthorOf(h, ctx, raw).id;
    assert id[..2] == [id[0], id[1]];
    if IsNamed(raw) {
      var short := h.short(SeedOf(KeyOf(h, raw.sender.value)));
      assert id == "p:" + short;
      assert id[2..] == short;
    } else if raw.sender.Some? {
      assert id == "self:" + ctx.uploader;
    } else {
      assert id == "system";
    }
  }

  /**
   Ingestion is a set union. A batch that goes through stores exactly the messages whose
   fingerprints were not there, adds exactly the people not yet known, and counts both right.
   */
  lemma {:induction false} IngestIsUnion(h: Hashing, s: Store, ctx: Context, batch: seq<RawMessage>)
    requires CollisionFree(h) && WellKept(h, s.participants) && Ingestible(h, ctx, batch)
    ensures var (after, r) := IngestAll(h, s, ctx, batch);
            && WellKept(h, after.participants)
            && (r.Ok? ==>
                  && UnitedWith(h, ctx, s.messages, batch, after.messages)
                  && JoinedBy(h, ctx, s.participants, batch, after.participants)
                  && r.value.stored == |after.messages| - |s.messages|
                  && r.value.stored + r.value.duplicates == |batch|
                  && r.value.newParticipants == |after.participants| - |s.participants|)
  {
    if batch != [] {
      var prefix, raw := batch[..|batch| - 1], batch[|batch| - 1];
      assert forall x :: x in batch <==> x in prefix || x == raw;
      IngestIsUnion(h, s, ctx, prefix);
      var (before, soFar) := IngestAll(h, s, ctx, prefix);
      if soFar.Ok? {
        OneMessage(h, before, ctx, raw);
        var (after, one) := IngestOne(h, before, ctx, raw);
        if one.Ok? {
          UnionGrows(h, ctx, s.messages, prefix, before.messages, raw, after.messages, batch);
          JoinGrows(h, ctx, s.participants, prefix, before.participants, raw, after.participants, batch);
        }
      }
      hide IngestOne, UnitedWith, JoinedBy, WellKept;
    }
  }

  lemma UnionGrows(h: Hashing, ctx: Context, ms: map<string, Message>, prefix: seq<RawMessage>,
                   before: map<string, Message>, raw: RawMessage, after: map<string, Message>, batch: seq<RawMessage>)
    requires CollisionFree(h) && Ingestible(h, ctx, batch) && UnitedWith(h, ctx, ms, prefix, before)
    requires forall x :: x in batch <==> x in prefix || x == raw
    requires after == if IdOf(h, ctx, raw) in before then before else before[IdOf(h, ctx, raw) := RowOf(h, ctx, raw)]
    ensures UnitedWith(h, ctx, ms, batch, after)
  {
    hide IdOf, RowOf, CollisionFree, Representable, FromParser, AuthorOf, Ingestible;
    RowsAgree(h, ctx, batch);
    var id := IdOf(h, ctx, raw);
    assert raw in batch;
    forall x | x in batch
      ensures IdOf(h, ctx, x) in after
      ensures IdOf(h, ctx, x) !in ms ==> after[IdOf(h, ctx, x)] == RowOf(h, ctx, x)
    {
      if x in prefix {
        assert IdOf(h, ctx, x) in before;
      } else if id in before && id !in ms {
        var y :| y in prefix && id == IdOf(h, ctx, y);
        assert y in batch;
      }
    }
  }

  lemma RowsAgree(h: Hashing, ctx: Context, batch: seq<RawMessage>)
    requires CollisionFree(h) && Ingestible(h, ctx, batch)
    ensures forall x, y | x in batch && y in batch && IdOf(h, ctx, x) == IdOf(h, ctx, y) ::
              RowOf(h, ctx, x) == RowOf(h, ctx, y)
  {
    forall x, y | x in batch && y in batch && IdOf(h, ctx, x) == IdOf(h, ctx, y)
      ensures RowOf(h, ctx, x) == RowOf(h, ctx, y)
    {
      hide IdOf, RowOf, CollisionFree, AuthorOf, Representable;
      SameIdSameRow(h, ctx, x, y);
    }
  }

  lemma JoinGrows(h: Hashing, ctx: Context, ps: seq<Participant>, prefix: seq<RawMessage>, before: seq<Participant>,
                  raw: RawMessage, after: seq<Participant>, batch: seq<RawMessage>)
    requires JoinedBy(h, ctx, ps, prefix, before)
    requires forall x :: x in batch <==> x in prefix || x == raw
    requires after == if IsNamed(raw) && PersonOf(h, ctx, raw) !in before
                      then before + [PersonOf(h, ctx, raw)] else before
    ensures JoinedBy(h, ctx, ps, batch, after)
  {
    hide PersonOf;
  }

  /** What is stored of a new message is what was written, where and when, under its author's pseudonym. */
  lemma StoredAsWritten(h: Hashing, s: Store, ctx: Context, batch: seq<RawMessage>, raw: RawMessage)
    requires CollisionFree(h) && WellKept(h, s.participants) && Ingestible(h, ctx, batch)
    requires IngestAll(h, s, ctx, batch).1.Ok? && raw in batch && IdOf(h, ctx, raw) !in s.messages
    ensures IdOf(h, ctx, raw) in IngestAll(h, s, ctx, batch).0.messages
    ensures var row := IngestAll(h, s, ctx, batch).0.messages[IdOf(h, ctx, raw)];
            && row.content == raw.content && row.timestamp == raw.timestamp && row.isSystem == raw.isSystem
            && row.workspace == ctx.workspace && row.chat == ctx.chat
            && row.authorId == AuthorOf(h, ctx, raw).id && row.authorName == AuthorOf(h, ctx, raw).name
  {
    hide IngestAll, IdOf, AuthorOf, CollisionFree, WellKept, Ingestible;
    IngestIsUnion(h, s, ctx, batch);
  }

  /** No alias of a participant is a phone number. */
  ghost predicate NoNumberIsAnAlias(ps: seq<Participant>) {
    forall p <- ps :: !IsPhoneLike(p.aliases)
  }

  /** A number is never stored as an alias, whether the batch goes through or fails on the way. */
  lemma {:induction false} NumbersAreNeverAliases(h: Hashing, s: Store, ctx: Context, batch: seq<RawMessage>)
    requires CollisionFree(h) && WellKept(h, s.participants) && Ingestible(h, ctx, batch)
    requires NoNumberIsAnAlias(s.participants)
    ensures NoNumberIsAnAlias(IngestAll(h, s, ctx, batch).0.participants)
  {
    hide *;
    if batch == [] {
      EmptyBatch(h, s, ctx, batch);
      assert batch[..0] == batch;
    } else {
      var prefix, raw := batch[..|batch| - 1], batch[|batch| - 1];
      IngestAllCases(h, s, ctx, batch);
      PrefixIsIngestible(h, ctx, batch);
      NumbersAreNeverAliases(h, s, ctx, prefix);
      IngestIsUnion(h, s, ctx, prefix);
      LastIsFromParser(h, ctx, batch);
      var before, soFar := IngestAll(h, s, ctx, prefix).0, IngestAll(h, s, ctx, prefix).1;
      var after, one := IngestOne(h, before, ctx, raw).0, IngestOne(h, before, ctx, raw).1;
      OneMessage(h, before, ctx, raw);
      NewcomerHasNoNumber(h, ctx, before.participants, raw);
      assert soFar.Ok? ==> IngestAll(h, s, ctx, batch).0 == after;
    }
  }

  lemma LastIsFromParser(h: Hashing, ctx: Context, batch: seq<RawMessage>)
    requires batch != [] && Ingestible(h, ctx, batch)
    ensures FromParser(batch[|batch| - 1])
  {
    hide FromParser, Representable;
  }

  lemma NewcomerHasNoNumber(h: Hashing, ctx: Context, ps: seq<Participant>, raw: RawMessage)
    requires NoNumberIsAnAlias(ps)
    ensures IsNamed(raw) ==> NoNumberIsAnAlias(ps + [PersonOf(h, ctx, raw)])
  {
    if IsNamed(raw) {
      hide Digits;
      assert !IsPhoneLike(PersonOf(h, ctx, raw).aliases);
      hide IsPhoneLike, PersonOf;
      assert forall p :: p in ps + [PersonOf(h, ctx, raw)] <==> p in ps || p == PersonOf(h, ctx, raw);
    }
  }

  /** A blank, a dash or any other character that is no digit makes no difference to a number. */
  lemma {:induction false} SeparatorsDoNotMatter(before: string, c: char, after: string)
    requires !IsDigit(c)
    ensures Digits(before + [c] + after) == Digits(before + after)
  {
    if after == [] {
      assert before + [c] + after == before + [c] && before + after == before;
    } else {
      var n := |after| - 1;
      SeparatorsDoNotMatter(before, c, after[..n]);
      assert (before + [c] + after)[..|before| + 1 + n] == before + [c] + after[..n];
      assert (before + after)[..|before| + n] == before + after[..n];
    }
  }

  /** Two spellings of a number are one person exactly if their digits are the same; a name is never that person. */
  lemma OneNumberIsOnePerson(h: Hashing, ctx: Context, raw: RawMessage, other: RawMessage)
    requires forall x, y :: h.phone(x) == h.phone(y) ==> x == y
    requires IsNamed(raw) && IsNamed(other) && IsPhoneLike(raw.sender.value)
    ensures PersonOf(h, ctx, raw) == PersonOf(h, ctx, other)
       <==> IsPhoneLike(other.sender.value) && Digits(raw.sender.value) == Digits(other.sender.value)
  {
    hide IsPhoneLike, Digits;
  }

  /**
   A batch goes through exactly when no one who wrote in it shares an id with anyone else, whether
   already stored, in any chat, or in the batch.
   */
  lemma {:induction false} SucceedsUnlessIdsClash(h: Hashing, s: Store, ctx: Context, batch: seq<RawMessage>)
    requires CollisionFree(h) && WellKept(h, s.participants) && Ingestible(h, ctx, batch)
    ensures IngestAll(h, s, ctx, batch).1.Ok? <==> IdsAgree(h, ctx, s.participants, batch)
  {
    hide *;
    if IngestAll(h, s, ctx, batch).1.Ok? {
      SuccessMeansAgreement(h, s, ctx, batch);
    } else if batch == [] {
      EmptyBatch(h, s, ctx, batch);
    } else {
      var prefix, raw := batch[..|batch| - 1], batch[|batch| - 1];
      IngestAllCases(h, s, ctx, batch);
      PrefixIsIngestible(h, ctx, batch);
      SucceedsUnlessIdsClash(h, s, ctx, prefix);
      if IngestAll(h, s, ctx, prefix).1.Ok? {
        RefusalMeansClash(h, s, ctx, prefix, raw, batch);
      } else if IdsAgree(h, ctx, s.participants, batch) {
        AgreementIsInherited(h, ctx, s.participants, prefix, batch);
      }
    }
  }

  lemma PrefixIsIngestible(h: Hashing, ctx: Context, batch: seq<RawMessage>)
    requires batch != [] && Ingestible(h, ctx, batch)
    ensures var prefix, raw := batch[..|batch| - 1], batch[|batch| - 1];
            && Ingestible(h, ctx, prefix) && FromParser(raw)
            && forall x :: x in batch <==> x in prefix || x == raw
  {
    hide FromParser, Representable, AuthorOf;
  }

  lemma AgreementIsInherited(h: Hashing, ctx: Context, ps: seq<Participant>, a: seq<RawMessage>, b: seq<RawMessage>)
    requires IdsAgree(h, ctx, ps, b) && forall x <- a :: x in b
    ensures IdsAgree(h, ctx, ps, a)
  {
    hide PersonOf;
  }

  lemma SuccessMeansAgreement(h: Hashing, s: Store, ctx: Context, batch: seq<RawMessage>)
    requires CollisionFree(h) && WellKept(h, s.participants) && Ingestible(h, ctx, batch)
    requires IngestAll(h, s, ctx, batch).1.Ok?
    ensures IdsAgree(h, ctx, s.participants, batch)
  {
    IngestIsUnion(h, s, ctx, batch);
    hide IngestAll, PersonOf, AsCreated, Ingestible, CollisionFree, UnitedWith;
  }

  lemma RefusalMeansClash(
    h: Hashing, s: Store, ctx: Context, prefix: seq<RawMessage>, raw: RawMessage, batch: seq<RawMessage>)
    requires CollisionFree(h) && WellKept(h, s.participants) && Ingestible(h, ctx, prefix) && FromParser(raw)
    requires forall x :: x in batch <==> x in prefix || x == raw
    requires IngestAll(h, s, ctx, prefix).1.Ok? && IngestOne(h, IngestAll(h, s, ctx, prefix).0, ctx, raw).1.Err?
    ensures !IdsAgree(h, ctx, s.participants, batch)
  {
    var before := IngestAll(h, s, ctx, prefix).0;
    IngestIsUnion(h, s, ctx, prefix);
    OneMessage(h, before, ctx, raw);
    hide IngestOne, IngestAll, PersonOf, AsCreated, Ingestible, CollisionFree, UnitedWith, WellKept;
    assert raw in batch;
  }

  /** Two different participants, stored or written in the batch, never share an id with a writer. */
  ghost predicate IdsAgree(h: Hashing, ctx: Context, ps: seq<Participant>, batch: seq<RawMessage>) {
    forall raw <- batch ::
      IsNamed(raw) ==>
        && (forall q <- ps :: q.id == PersonOf(h, ctx, raw).id ==> q == PersonOf(h, ctx, raw))
        && (forall r <- batch :: IsNamed(r) && PersonOf(h, ctx, r).id == PersonOf(h, ctx, raw).id ==>
              PersonOf(h, ctx, r) == PersonOf(h, ctx, raw))
  }

  /** Neither order, nor repetition, nor how messages are split matters: only which messages there are. */
  lemma OnlyTheSetMatters(h: Hashing, s: Store, ctx: Context, a: seq<RawMessage>, b: seq<RawMessage>)
    requires CollisionFree(h) && WellKept(h, s.participants) && Ingestible(h, ctx, a)
    requires forall raw :: raw in a <==> raw in b
    ensures var (x, r), (y, q) := IngestAll(h, s, ctx, a), IngestAll(h, s, ctx, b);
            && (r.Ok? <==> q.Ok?)
            && (r.Ok? ==>
                  && x.messages == y.messages
                  && (forall p :: p in x.participants <==> p in y.participants)
                  && r.value.stored == q.value.stored && r.value.newParticipants == q.value.newParticipants)
  {
    hide IngestAll, PersonOf, WellKept, CollisionFree, FromParser, Representable, UnitedWith;
    assert Ingestible(h, ctx, b);
    IngestIsUnion(h, s, ctx, a);
    IngestIsUnion(h, s, ctx, b);
    SucceedsUnlessIdsClash(h, s, ctx, a);
    SucceedsUnlessIdsClash(h, s, ctx, b);
    assert IdsAgree(h, ctx, s.participants, a) <==> IdsAgree(h, ctx, s.participants, b);
    if IngestAll(h, s, ctx, a).1.Ok? {
      UnionIsUnique(h, ctx, s.messages, a, b, IngestAll(h, s, ctx, a).0.messages, IngestAll(h, s, ctx, b).0.messages);
      SameMembersSameLength(h, IngestAll(h, s, ctx, a).0.participants, IngestAll(h, s, ctx, b).0.participants);
    }
  }

  lemma SameMembersSameLength(h: Hashing, ps: seq<Participant>, qs: seq<Participant>)
    requires WellKept(h, ps) && WellKept(h, qs) && forall p :: p in ps <==> p in qs
    ensures |ps| == |qs|
  {
    hide AsCreated;
    DistinctSize(ps);
    DistinctSize(qs);
    assert (set p | p in ps) == (set q | q in qs);
  }

  lemma {:induction false} DistinctSize(ps: seq<Participant>)
    requires forall i, j :: 0 <= i < j < |ps| ==> ps[i] != ps[j]
    ensures |set p | p in ps| == |ps|
  {
    if ps != [] {
      var prefix, last := ps[..|ps| - 1], ps[|ps| - 1];
      DistinctSize(prefix);
      assert (set p | p in ps) == (set p | p in prefix) + {last};
      assert last !in prefix;
    }
  }

  lemma UnionIsUnique(h: Hashing, ctx: Context, ms: map<string, Message>, a: seq<RawMessage>, b: seq<RawMessage>,
                      x: map<string, Message>, y: map<string, Message>)
    requires forall raw :: raw in a <==> raw in b
    requires UnitedWith(h, ctx, ms, a, x) && UnitedWith(h, ctx, ms, b, y)
    ensures x == y
  {
    hide IdOf, RowOf;
  }

  /** Two batches in a row are one batch: what they store, and what they report together. */
  lemma {:induction false} BatchesConcatenate(
    h: Hashing, s: Store, ctx: Context, a: seq<RawMessage>, b: seq<RawMessage>)
    ensures var (x, r) := IngestAll(h, s, ctx, a);
            var (y, q) := IngestAll(h, x, ctx, b);
            IngestAll(h, s, ctx, a + b)
              == if r.Err? then (x, r) else (y, if q.Err? then q else Ok(r.value.Plus(q.value)))
  {
    hide IngestOne;
    if b == [] {
      assert a + b == a;
    } else {
      var n := |b| - 1;
      BatchesConcatenate(h, s, ctx, a, b[..n]);
      assert (a + b)[..|a + b| - 1] == a + b[..n];
    }
  }

  /** Re-ingesting anything already ingested stores nothing, creates no one and changes nothing. */
  lemma {:induction false} ReingestChangesNothing(
    h: Hashing, s: Store, ctx: Context, batch: seq<RawMessage>, again: seq<RawMessage>)
    requires CollisionFree(h) && WellKept(h, s.participants) && Ingestible(h, ctx, batch)
    requires IngestAll(h, s, ctx, batch).1.Ok? && forall raw <- again :: raw in batch
    ensures var after := IngestAll(h, s, ctx, batch).0;
            IngestAll(h, after, ctx, again) == (after, Ok(Summary(0, |again|, 0)))
  {
    if again != [] {
      var raw, after := again[|again| - 1], IngestAll(h, s, ctx, batch).0;
      ReingestChangesNothing(h, s, ctx, batch, again[..|again| - 1]);
      IngestIsUnion(h, s, ctx, batch);
      assert raw in batch;
      OneMessage(h, after, ctx, raw);
      hide IngestOne, PersonOf, IdOf, WellKept, Ingestible, CollisionFree;
    }
  }

  /** None of the messages that `ms'` has beyond `ms` was written by `author`. */
  ghost predicate NothingNewBy(author: string, ms: map<string, Message>, ms': map<string, Message>) {
    forall id | id in ms' && id !in ms :: ms'[id].authorId != author
  }

  /** A refused batch leaves what one of its prefixes stored, all of whose writers agreed on their ids. */
  lemma {:induction false} RefusedAfterAPrefix(h: Hashing, s: Store, ctx: Context, batch: seq<RawMessage>)
    returns (n: nat)
    requires IngestAll(h, s, ctx, batch).1.Err?
    ensures n < |batch| && IngestAll(h, s, ctx, batch[..n]).1.Ok?
    ensures IngestAll(h, s, ctx, batch).0 == IngestAll(h, s, ctx, batch[..n]).0
  {
    hide IngestOne;
    var m := |batch| - 1;
    IngestAllCases(h, s, ctx, batch);
    if IngestAll(h, s, ctx, batch[..m]).1.Err? {
      n := RefusedAfterAPrefix(h, s, ctx, batch[..m]);
      assert batch[..m][..n] == batch[..n];
    } else {
      n := m;
      RefusedOneChangesNothing(h, IngestAll(h, s, ctx, batch[..m]).0, ctx, batch[m]);
    }
  }

  lemma RefusedOneChangesNothing(h: Hashing, s: Store, ctx: Context, raw: RawMessage)
    ensures IngestOne(h, s, ctx, raw).1.Err? ==> IngestOne(h, s, ctx, raw).0 == s
  {
    hide Resolve, Fingerprint, Normalized;
  }

  /** In a batch that goes through while `known` is stored, no one else writes under the id of `known`. */
  lemma NothingNewUnderAKnownId(
    h: Hashing, s: Store, ctx: Context, batch: seq<RawMessage>, known: Participant)
    requires CollisionFree(h) && WellKept(h, s.participants) && Ingestible(h, ctx, batch)
    requires known in s.participants && (known.workspace != ctx.workspace || known.chat != ctx.chat)
    requires IngestAll(h, s, ctx, batch).1.Ok?
    ensures NothingNewBy(known.id, s.messages, IngestAll(h, s, ctx, batch).0.messages)
  {
    hide IngestAll, CollisionFree, WellKept, Ingestible, AsCreated, JoinedBy, IdOf;
    IngestIsUnion(h, s, ctx, batch);
    SuccessMeansAgreement(h, s, ctx, batch);
    var after := IngestAll(h, s, ctx, batch).0.messages;
    forall id | id in after && id !in s.messages
      ensures after[id].authorId != known.id
    {
      var raw :| raw in batch && id == IdOf(h, ctx, raw);
      AuthorIsNotFromElsewhere(h, ctx, raw, known);
      KnownIdsAreOfPeople(h, s.participants, known);
      assert after[id] == RowOf(h, ctx, raw);
    }
  }

  lemma KnownIdsAreOfPeople(h: Hashing, ps: seq<Participant>, known: Participant)
    requires WellKept(h, ps) && known in ps
    ensures |known.id| >= 2 && known.id[..2] == "p:"
  {
    assert AsCreated(h, known);
  }

  lemma AuthorIsNotFromElsewhere(h: Hashing, ctx: Context, raw: RawMessage, known: Participant)
    requires known.workspace != ctx.workspace || known.chat != ctx.chat
    ensures IsNamed(raw) ==> PersonOf(h, ctx, raw) != known && RowOf(h, ctx, raw).authorId == PersonOf(h, ctx, raw).id
    ensures !IsNamed(raw) ==> |RowOf(h, ctx, raw).authorId| >= 2 && RowOf(h, ctx, raw).authorId[..2] != "p:"
  {
    hide KeyOf, SeedOf;
    AuthorIdTellsTheKind(h, ctx, raw);
  }

  /**
   Participant ids do not depend on the chat but are unique in the whole table. So once a contact has
   written in a chat, every batch of another chat in which they write is refused, whatever else is
   stored or in it, and nothing of theirs is stored there.
   */
  lemma SecondChatIsRefused(
    h: Hashing, s: Store, ctx: Context, batch: seq<RawMessage>, raw: RawMessage,
    other: Context, later: seq<RawMessage>, again: RawMessage)
    requires CollisionFree(h) && WellKept(h, s.participants) && Ingestible(h, ctx, batch) && Ingestible(h, other, later)
    requires IngestAll(h, s, ctx, batch).1.Ok? && raw in batch && IsNamed(raw)
    requires other.workspace != ctx.workspace || other.chat != ctx.chat
    requires again in later && again.sender == raw.sender
    ensures var stored := IngestAll(h, s, ctx, batch).0;
            var (after, r) := IngestAll(h, stored, other, later);
            && r == Err(Constraint)
            && NothingNewBy(PersonOf(h, ctx, raw).id, stored.messages, after.messages)
  {
    hide *;
    IngestIsUnion(h, s, ctx, batch);
    var stored, known := IngestAll(h, s, ctx, batch).0, PersonOf(h, ctx, raw);
    WriterHasJoined(h, ctx, s.participants, batch, stored.participants, raw);
    SamePersonElsewhere(h, ctx, raw, other, again);
    ClashIsNoAgreement(h, other, stored.participants, later, again, known);
    SucceedsUnlessIdsClash(h, stored, other, later);
    var n := RefusedAfterAPrefix(h, stored, other, later);
    PartIsIngestible(h, other, later, n);
    NothingNewUnderAKnownId(h, stored, other, later[..n], known);
    assert IngestAll(h, stored, other, later).1.error.Constraint?;
  }

  lemma WriterHasJoined(h: Hashing, ctx: Context, ps: seq<Participant>, batch: seq<RawMessage>, ps': seq<Participant>,
                        raw: RawMessage)
    requires JoinedBy(h, ctx, ps, batch, ps') && raw in batch && IsNamed(raw)
    ensures PersonOf(h, ctx, raw) in ps'
  {
    hide PersonOf;
  }

  lemma SamePersonElsewhere(h: Hashing, ctx: Context, raw: RawMessage, other: Context, again: RawMessage)
    requires IsNamed(raw) && again.sender == raw.sender
    requires other.workspace != ctx.workspace || other.chat != ctx.chat
    ensures IsNamed(again)
    ensures var was, now := PersonOf(h, ctx, raw), PersonOf(h, other, again);
            && now != was && now.id == was.id
            && was.workspace == ctx.workspace && was.chat == ctx.chat
  {
    hide KeyOf, SeedOf;
  }

  lemma ClashIsNoAgreement(
    h: Hashing, ctx: Context, ps: seq<Participant>, batch: seq<RawMessage>, raw: RawMessage, known: Participant)
    requires known in ps && raw in batch && IsNamed(raw)
    requires PersonOf(h, ctx, raw) != known && PersonOf(h, ctx, raw).id == known.id
    ensures !IdsAgree(h, ctx, ps, batch)
  {
    hide PersonOf;
  }

  /** The first message of anyone who has to be looked up goes through, and they are stored. */
  lemma FirstIsStored(h: Hashing, ctx: Context, raw: RawMessage)
    requires FromParser(raw) && IsNamed(raw)
    ensures var (s, r) := IngestAll(h, Store([], map[]), ctx, [raw]);
            r == Ok(Summary(1, 0, 1)) && s.participants == [PersonOf(h, ctx, raw)] && WellKept(h, s.participants)
  {
    hide IngestOne, IngestAll, PersonOf, IdOf, RowOf;
    var empty := Store([], map[]);
    OneMessageBatch(h, empty, ctx, raw);
    OneMessage(h, empty, ctx, raw);
  }

  lemma OneMessageBatch(h: Hashing, s: Store, ctx: Context, raw: RawMessage)
    ensures IngestAll(h, s, ctx, [raw]) == IngestOne(h, s, ctx, raw)
  {
    hide IngestOne;
    assert [raw][..0] == [];
    assert IngestAll(h, s, ctx, []) == (s, Ok(Summary(0, 0, 0)));
  }

  lemma PartIsIngestible(h: Hashing, ctx: Context, batch: seq<RawMessage>, n: nat)
    requires Ingestible(h, ctx, batch) && n <= |batch|
    ensures Ingestible(h, ctx, batch[..n])
  {
    hide FromParser, Representable, AuthorOf;
  }

  /**
   From export to tables: ingesting an export and later the same export grown by more messages
   leaves the messages that ingesting the grown one alone would.
   */
  lemma GrownExportAddsTheRest(h: Hashing, s: Store, ctx: Context, x: Declared, a: string, b: string)
    requires CollisionFree(h) && WellKept(h, s.participants)
    requires Lines(b) != [] && Opens(x, Lines(b)[0]) && EndsTidily(x, a)
    requires Ingestible(h, ctx, Parsed(x, a + "\n" + b).messages)
    requires IngestAll(h, s, ctx, Parsed(x, a + "\n" + b).messages).1.Ok?
    ensures var whole := Parsed(x, a + "\n" + b).messages;
            var (first, r) := IngestAll(h, s, ctx, Parsed(x, a).messages);
            var (second, q) := IngestAll(h, first, ctx, whole);
            && r.Ok? && q.Ok?
            && second.messages == IngestAll(h, s, ctx, whole).0.messages
            && (forall p :: p in second.participants <==> p in IngestAll(h, s, ctx, whole).0.participants)
  {
    hide *;
    var part, rest, whole := Parsed(x, a).messages, Parsed(x, b).messages, Parsed(x, a + "\n" + b).messages;
    ExportsCompose(x, a, b);
    assert whole == part + rest;
    OnlyTheSetMatters(h, s, ctx, whole, part + whole);
    BatchesConcatenate(h, s, ctx, part, whole);
    assert IngestAll(h, s, ctx, whole).1.Ok?;
    assert IngestAll(h, s, ctx, part + whole).1.Ok?;
    var first := IngestAll(h, s, ctx, part);
    assert first.1.Ok?;
    var second := IngestAll(h, first.0, ctx, whole);
    assert second.1.Ok?;
  }
}
