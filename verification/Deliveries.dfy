/** Receipts of propagation deliveries (cygnus/integrations/delivery_consumer.py). */
module Deliveries {
  import opened Wrappers
  import opened Texts

  type Body = seq<bv8>

  const MAX_BODY := 1048576
  const MAX_DELIVERY_ID := 220
  const MAX_SURFACE := 120
  const UUID_LENGTH := 36
  const MAX_OBJECT_VERSION := 2147483647

  // ---------------------------------------------------------------- bounded body

  /** The content-length header, when it is sent: a number or something else. */
  datatype DeclaredLength = Absent | NotANumber | Length(n: int)

  /** One turn of the request stream; `None` stands for a failed read. */
  type Chunk = Option<Body>

  function LengthProblem(declared: DeclaredLength): Option<int> {
    match declared
    case Absent => None
    case NotANumber => Some(400)
    case Length(n) => if n < 0 then Some(400) else if n > MAX_BODY then Some(413) else None
  }

  function ReadTo(chunks: seq<Chunk>, k: nat): Result<Body, int>
    requires k <= |chunks|
  {
    if k == 0 then Ok([])
    else
      var before := ReadTo(chunks, k - 1);
      if before.Err? then before
      else if chunks[k - 1].None? then Err(400)
      else if |before.value| + |chunks[k - 1].value| > MAX_BODY then Err(413)
      else Ok(before.value + chunks[k - 1].value)
  }

  function ReadBody(declared: DeclaredLength, chunks: seq<Chunk>): Result<Body, int> {
    if LengthProblem(declared).Some? then Err(LengthProblem(declared).value) else ReadTo(chunks, |chunks|)
  }

  method ReadBoundedBody(declared: DeclaredLength, chunks: seq<Chunk>) returns (r: Result<Body, int>)
    ensures r == ReadBody(declared, chunks)
  {
    match declared {
      case Absent =>
      case NotANumber => return Err(400);
      case Length(n) =>
        if n < 0 {
          return Err(400);
        }
        if n > MAX_BODY {
          return Err(413);
        }
    }
    var body: Body := [];
    for k := 0 to |chunks|
      invariant ReadTo(chunks, k) == Ok(body)
    {
      if chunks[k].None? {
        FirstProblemEndsIt(chunks, k + 1, |chunks|);
        return Err(400);
      }
      if |body| + |chunks[k].value| > MAX_BODY {
        FirstProblemEndsIt(chunks, k + 1, |chunks|);
        return Err(413);
      }
      body := body + chunks[k].value;
    }
    return Ok(body);
  }

  lemma {:induction false} FirstProblemEndsIt(chunks: seq<Chunk>, j: nat, k: nat)
    requires j <= k <= |chunks| && ReadTo(chunks, j).Err?
    ensures ReadTo(chunks, k) == ReadTo(chunks, j)
    decreases k
  {
    if j < k { FirstProblemEndsIt(chunks, j, k - 1); }
  }

  function Joined(chunks: seq<Chunk>, k: nat): Body
    requires k <= |chunks|
  {
    if k == 0 then [] else Joined(chunks, k - 1) + (if chunks[k - 1].Some? then chunks[k - 1].value else [])
  }

  /** A body is read whole exactly when every read succeeds and it stays within the limit, however it is cut. */
  lemma {:induction false} ReadIff(chunks: seq<Chunk>, k: nat)
    requires k <= |chunks|
    ensures ReadTo(chunks, k).Ok? <==> |Joined(chunks, k)| <= MAX_BODY && forall i | 0 <= i < k :: chunks[i].Some?
    ensures ReadTo(chunks, k).Ok? ==> ReadTo(chunks, k).value == Joined(chunks, k)
  {
    if k > 0 { ReadIff(chunks, k - 1); }
  }

  // ---------------------------------------------------------------- identities

  predicate HexLower(c: char) { '0' <= c <= '9' || 'a' <= c <= 'f' }

  /** The canonical text of a UUID. */
  predicate IsUuid(s: string) {
    && |s| == UUID_LENGTH
    && forall i | 0 <= i < UUID_LENGTH ::
         if i == 8 || i == 13 || i == 18 || i == 23 then s[i] == '-' else HexLower(s[i])
  }

  predicate AllHex(group: string) {
    forall i | 0 <= i < |group| :: '0' <= group[i] <= '9' || 'a' <= group[i] <= 'f'
  }

  lemma HexBetween(s: string, lo: nat, hi: nat)
    requires lo <= hi <= |s|
    ensures AllHex(s[lo..hi]) <==> forall i | lo <= i < hi :: HexLower(s[i])
  {
    if AllHex(s[lo..hi]) {
      forall i | lo <= i < hi
        ensures HexLower(s[i])
      {
        assert s[lo..hi][i - lo] == s[i];
      }
    }
  }

  /** Five groups of eight, four, four, four and twelve hexadecimal digits with hyphens between them. */
  lemma UuidInGroups(s: string)
    ensures IsUuid(s) <==>
              && |s| == 36 && s[8] == s[13] == s[18] == s[23] == '-'
              && AllHex(s[0..8]) && AllHex(s[9..13]) && AllHex(s[14..18]) && AllHex(s[19..23]) && AllHex(s[24..36])
  {
    if |s| == 36 {
      HexBetween(s, 0, 8);
      HexBetween(s, 9, 13);
      HexBetween(s, 14, 18);
      HexBetween(s, 19, 23);
      HexBetween(s, 24, 36);
    }
  }

  /** The fields the consumer reads from a payload; an absent or ill-typed field is `None`. */
  datatype Payload = Payload(publicationId: Option<string>, objectVersion: Option<int>,
                             targetChannels: Option<seq<string>>)

  /** What the JSON decoder makes of a body: a payload only when the body is its canonical encoding. */
  type Decoder = Body -> Option<Payload>

  /** The header values sent under each name. */
  datatype Headers = Headers(deliveryId: seq<string>, publicationId: seq<string>, surface: seq<string>)

  /** A body stands for its digest, and the five fields together for the receipt reference. */
  datatype Receipt = Receipt(deliveryId: string, body: Body, publicationId: string, surface: string, objectVersion: int)

  predicate Trimmed(s: string) { s != "" && !Blank(s[0]) && !Blank(s[|s| - 1]) }

  function RequiredHeader(values: seq<string>, maximum: nat): Option<string> {
    if |values| == 1 && Trimmed(values[0]) && |values[0]| <= maximum then Some(values[0]) else None
  }

  function DeliveryId(publicationId: string, surface: string): string {
    "delivery:" + (publicationId + (":" + surface))
  }

  predicate ValidChannels(channels: seq<string>) {
    && channels != []
    && (forall i | 0 <= i < |channels| :: Trimmed(channels[i]) && |channels[i]| <= MAX_SURFACE)
    && (forall i, j | 0 <= i < j < |channels| :: channels[i] != channels[j])
  }

  /** The immutable receipt that a request asks for; every refusal is a bad request. */
  function DecodeIdentity(decode: Decoder, headers: Headers, body: Body): Option<Receipt> {
    var payload := decode(body);
    var deliveryId := RequiredHeader(headers.deliveryId, MAX_DELIVERY_ID);
    var publicationId := RequiredHeader(headers.publicationId, UUID_LENGTH);
    var surface := RequiredHeader(headers.surface, MAX_SURFACE);
    if payload.None? || deliveryId.None? || publicationId.None? then None
    else
      var p := payload.value;
      if p.publicationId != publicationId || !IsUuid(publicationId.value) then None
      else if surface.None? || deliveryId.value != DeliveryId(publicationId.value, surface.value) then None
      else if p.objectVersion.None? || !(1 <= p.objectVersion.value <= MAX_OBJECT_VERSION) then None
      else if p.targetChannels.None? || !ValidChannels(p.targetChannels.value) then None
      else if surface.value !in p.targetChannels.value then None
      else Some(Receipt(deliveryId.value, body, publicationId.value, surface.value, p.objectVersion.value))
  }

  /** Publication and surface are named by the delivery id and name it. */
  lemma DeliveryIdInjective(p: string, s: string, p': string, s': string)
    requires IsUuid(p) && IsUuid(p')
    ensures DeliveryId(p, s) == DeliveryId(p', s') <==> p == p' && s == s'
  {
    var a, b := DeliveryId(p, s), DeliveryId(p', s');
    assert a[9..45] == p && a[46..] == s;
    assert b[9..45] == p' && b[46..] == s';
  }

  // ---------------------------------------------------------------- receipts

  /** The receipt reference digests all five fields, so it stands for them. */
  function ReceiptRef(r: Receipt): (string, Body, string, string, int) {
    (r.deliveryId, r.body, r.publicationId, r.surface, r.objectVersion)
  }

  type Receipts = map<string, Receipt>

  datatype Persisted = Stored(receipt: Receipt) | ReplayConflict

  function Persist(receipts: Receipts, incoming: Receipt): (Receipts, Persisted) {
    if incoming.deliveryId !in receipts then (receipts[incoming.deliveryId := incoming], Stored(incoming))
    else
      var stored := receipts[incoming.deliveryId];
      if stored == incoming then (receipts, Stored(stored)) else (receipts, ReplayConflict)
  }

  /**
   Everything one POST meets: whether a secret is configured, its signature fits and the receipt table
   can be reached.
   */
  datatype Request = Request(secretConfigured: bool, jsonContent: bool, declared: DeclaredLength, chunks: seq<Chunk>,
                             headers: Headers, signed: bool, storeAvailable: bool)

  /** An acknowledgment shows the fields of the receipt. */
  datatype Response = Ack(receipt: Receipt) | Refusal(status: int)

  function Accept(decode: Decoder, receipts: Receipts, r: Request): (Receipts, Response) {
    var body := ReadBody(r.declared, r.chunks);
    if !r.secretConfigured then (receipts, Refusal(503))
    else if !r.jsonContent then (receipts, Refusal(415))
    else if body.Err? then (receipts, Refusal(body.error))
    else if !r.signed then (receipts, Refusal(401))
    else
      var incoming := DecodeIdentity(decode, r.headers, body.value);
      if incoming.None? then (receipts, Refusal(400))
      else if !r.storeAvailable then (receipts, Refusal(503))
      else
        var (receipts', persisted) := Persist(receipts, incoming.value);
        (receipts', if persisted.Stored? then Ack(persisted.receipt) else Refusal(409))
  }

  class DeliveryConsumer {
    var receipts: Receipts

    constructor ()
      ensures receipts == map[]
    {
      receipts := map[];
    }

    method PersistReceipt(incoming: Receipt) returns (r: Persisted)
      modifies this
      ensures (receipts, r) == Persist(old(receipts), incoming)
    {
      if incoming.deliveryId !in receipts {
        receipts := receipts[incoming.deliveryId := incoming];
        return Stored(incoming);
      }
      var stored := receipts[incoming.deliveryId];
      if stored.body != incoming.body || stored.publicationId != incoming.publicationId
          || stored.surface != incoming.surface
         || stored.objectVersion != incoming.objectVersion || ReceiptRef(stored) != ReceiptRef(incoming) {
        return ReplayConflict;
      }
      return Stored(stored);
    }

    method AcceptPropagationDelivery(decode: Decoder, request: Request) returns (r: Response)
      modifies this
      ensures (receipts, r) == Accept(decode, old(receipts), request)
    {
      if !request.secretConfigured {
        return Refusal(503);
      }
      if !request.jsonContent {
        return Refusal(415);
      }
      var body := ReadBoundedBody(request.declared, request.chunks);
      if body.Err? {
        return Refusal(body.error);
      }
      if !request.signed {
        return Refusal(401);
      }
      var incoming := DecodeIdentity(decode, request.headers, body.value);
      if incoming.None? {
        return Refusal(400);
      }
      if !request.storeAvailable {
        return Refusal(503);
      }
      var persisted := PersistReceipt(incoming.value);
      return if persisted.Stored? then Ack(persisted.receipt) else Refusal(409);
    }
  }

  // ---------------------------------------------------------------- whole runs

  function ReceiptsAfter(decode: Decoder, requests: seq<Request>, k: nat): Receipts
    requires k <= |requests|
  {
    if k == 0 then map[] else Accept(decode, ReceiptsAfter(decode, requests, k - 1), requests[k - 1]).0
  }

  /** The answer to the i-th request of a run. */
  function Answer(decode: Decoder, requests: seq<Request>, i: nat): Response
    requires i < |requests|
  {
    Accept(decode, ReceiptsAfter(decode, requests, i), requests[i]).1
  }

  /** What a receipt says follows from its delivery id and its body alone. */
  predicate Grounded(decode: Decoder, r: Receipt) {
    && IsUuid(r.publicationId) && r.deliveryId == DeliveryId(r.publicationId, r.surface)
    && decode(r.body).Some? && decode(r.body).value.publicationId == Some(r.publicationId)
    && decode(r.body).value.objectVersion == Some(r.objectVersion)
  }

  lemma DecodedIsGrounded(decode: Decoder, headers: Headers, body: Body)
    ensures var r := DecodeIdentity(decode, headers, body);
            r.Some? ==> Grounded(decode, r.value) && r.value.body == body
  {
  }

  lemma SameIdSameBody(decode: Decoder, a: Receipt, b: Receipt)
    requires Grounded(decode, a) && Grounded(decode, b) && a.deliveryId == b.deliveryId
    ensures a == b <==> a.body == b.body
  {
    DeliveryIdInjective(a.publicationId, a.surface, b.publicationId, b.surface);
  }

  /** The receipt a request asks for, if it is signed and well formed and the table can be reached. */
  function Asked(decode: Decoder, r: Request): Option<Receipt> {
    var body := ReadBody(r.declared, r.chunks);
    if !r.secretConfigured || !r.jsonContent || body.Err? || !r.signed || !r.storeAvailable then None
    else DecodeIdentity(decode, r.headers, body.value)
  }

  /** The receipt that the first acknowledged request among the first k asked for under a delivery id. */
  function FirstAccepted(decode: Decoder, requests: seq<Request>, k: nat, deliveryId: string): Option<Receipt>
    requires k <= |requests|
  {
    if k == 0 then None
    else
      var earlier := FirstAccepted(decode, requests, k - 1, deliveryId);
      var answer := Answer(decode, requests, k - 1);
      if earlier.Some? then earlier
      else if answer.Ack? && answer.receipt.deliveryId == deliveryId then Some(answer.receipt)
      else None
  }

  lemma {:induction false} TableHoldsFirst(decode: Decoder, requests: seq<Request>, k: nat, deliveryId: string)
    requires k <= |requests|
    ensures var table := ReceiptsAfter(decode, requests, k);
            FirstAccepted(decode, requests, k, deliveryId)
            == if deliveryId in table then Some(table[deliveryId]) else None
    ensures var first := FirstAccepted(decode, requests, k, deliveryId);
            first.Some? ==> Grounded(decode, first.value) && first.value.deliveryId == deliveryId
  {
    if k > 0 {
      TableHoldsFirst(decode, requests, k - 1, deliveryId);
      AcceptedEntry(decode, ReceiptsAfter(decode, requests, k - 1), requests[k - 1], deliveryId);
    }
  }

  /** A request changes the table under one delivery id at most, from nothing to the grounded receipt it answers. */
  lemma AcceptedEntry(decode: Decoder, receipts: Receipts, r: Request, deliveryId: string)
    ensures var (receipts', answer) := Accept(decode, receipts, r);
            if deliveryId in receipts then deliveryId in receipts' && receipts'[deliveryId] == receipts[deliveryId]
            else if answer.Ack? && answer.receipt.deliveryId == deliveryId then
              deliveryId in receipts' && receipts'[deliveryId] == answer.receipt && Grounded(decode, answer.receipt)
            else deliveryId !in receipts'
  {
    var body := ReadBody(r.declared, r.chunks);
    if body.Ok? { DecodedIsGrounded(decode, r.headers, body.value); }
  }

  /**
   In every run: a well-formed delivery is acknowledged exactly when no delivery with its id was
   accepted before or the first accepted one had the same body, and the acknowledgment is then the
   first one; otherwise it is refused as a conflict.
   */
  lemma AcknowledgedIffFirstBody(decode: Decoder, requests: seq<Request>, i: nat)
    requires i < |requests| && Asked(decode, requests[i]).Some?
    ensures var asked := Asked(decode, requests[i]).value;
            var first := FirstAccepted(decode, requests, i, asked.deliveryId);
            Answer(decode, requests, i) ==
              if first.None? then Ack(asked)
              else if first.value.body == asked.body then Ack(first.value)
              else Refusal(409)
  {
    var asked := Asked(decode, requests[i]).value;
    TableHoldsFirst(decode, requests, i, asked.deliveryId);
    DecodedIsGrounded(decode, requests[i].headers, ReadBody(requests[i].declared, requests[i].chunks).value);
    var first := FirstAccepted(decode, requests, i, asked.deliveryId);
    if first.Some? { SameIdSameBody(decode, first.value, asked); }
  }

  lemma {:induction false} EarlierWins(decode: Decoder, requests: seq<Request>, k: nat, deliveryId: string)
    requires 0 < k <= |requests| && FirstAccepted(decode, requests, k - 1, deliveryId).Some?
    ensures FirstAccepted(decode, requests, k, deliveryId) == FirstAccepted(decode, requests, k - 1, deliveryId)
  {
  }

  lemma {:induction false} FirstStays(decode: Decoder, requests: seq<Request>, j: nat, k: nat, deliveryId: string)
    requires j <= k <= |requests| && FirstAccepted(decode, requests, j, deliveryId).Some?
    ensures FirstAccepted(decode, requests, k, deliveryId) == FirstAccepted(decode, requests, j, deliveryId)
    decreases k
  {
    if j < k {
      FirstStays(decode, requests, j, k - 1, deliveryId);
      EarlierWins(decode, requests, k, deliveryId);
    }
  }

  lemma AckIsFirst(decode: Decoder, requests: seq<Request>, i: nat)
    requires i < |requests| && Answer(decode, requests, i).Ack?
    ensures var receipt := Answer(decode, requests, i).receipt;
            FirstAccepted(decode, requests, i + 1, receipt.deliveryId) == Some(receipt)
  {
    var receipt := Answer(decode, requests, i).receipt;
    TableHoldsFirst(decode, requests, i, receipt.deliveryId);
    TableHoldsFirst(decode, requests, i + 1, receipt.deliveryId);
  }

  /** All acknowledgments of one delivery id are one and the same. */
  lemma AcksAreStable(decode: Decoder, requests: seq<Request>, i: nat, j: nat)
    requires i <= j < |requests| && Answer(decode, requests, i).Ack? && Answer(decode, requests, j).Ack?
    requires Answer(decode, requests, i).receipt.deliveryId == Answer(decode, requests, j).receipt.deliveryId
    ensures Answer(decode, requests, i) == Answer(decode, requests, j)
  {
    var deliveryId := Answer(decode, requests, i).receipt.deliveryId;
    AckIsFirst(decode, requests, i);
    AckIsFirst(decode, requests, j);
    FirstStays(decode, requests, i + 1, j + 1, deliveryId);
  }

  // ---------------------------------------------------------------- what one request decides

  /** The header is sent once, with this text between no blanks and no longer than this. */
  predicate SentAs(values: seq<string>, text: string, maximum: nat) {
    values == [text] && 1 <= |text| <= maximum && !Blank(text[0]) && !Blank(text[|text| - 1])
  }

  /** Headers and body name this receipt, in agreement with each other. */
  ghost predicate Names(decode: Decoder, headers: Headers, body: Body, r: Receipt) {
    && decode(body).Some?
    && var p := decode(body).value;
    && r.body == body && p.publicationId == Some(r.publicationId) && p.objectVersion == Some(r.objectVersion)
    && IsUuid(r.publicationId) && 1 <= r.objectVersion <= 2147483647
    && r.deliveryId == "delivery:" + (r.publicationId + (":" + r.surface))
    && SentAs(headers.publicationId, r.publicationId, 36) && SentAs(headers.surface, r.surface, 120)
    && SentAs(headers.deliveryId, r.deliveryId, 220)
    && (exists channels :: p.targetChannels == Some(channels) && Targets(channels, r.surface))
  }

  /** The surface is one of the channels, which are given, trimmed, short and different. */
  predicate Targets(channels: seq<string>, surface: string) {
    && surface in channels
    && (forall i | 0 <= i < |channels| :: SentAs([channels[i]], channels[i], 120))
    && (forall i, j | 0 <= i < j < |channels| :: channels[i] != channels[j])
  }

  lemma RequiredIff(values: seq<string>, maximum: nat, text: string)
    ensures RequiredHeader(values, maximum) == Some(text) <==> SentAs(values, text, maximum)
  {
  }

  lemma TargetsIff(channels: seq<string>, surface: string)
    ensures Targets(channels, surface) <==> ValidChannels(channels) && surface in channels
  {
  }

  /** A receipt is read off exactly when headers and body name it. */
  lemma DecodeIff(decode: Decoder, headers: Headers, body: Body, r: Receipt)
    ensures DecodeIdentity(decode, headers, body) == Some(r) <==> Names(decode, headers, body, r)
  {
    RequiredIff(headers.deliveryId, 220, r.deliveryId);
    RequiredIff(headers.publicationId, 36, r.publicationId);
    RequiredIff(headers.surface, 120, r.surface);
    if decode(body).Some? && decode(body).value.targetChannels.Some? {
      TargetsIff(decode(body).value.targetChannels.value, r.surface);
    }
    if Names(decode, headers, body, r) {
      var channels :| decode(body).value.targetChannels == Some(channels) && Targets(channels, r.surface);
    }
  }

  /** The whole body arrived and is within the limit, and so is the length announced for it. */
  predicate Arrived(r: Request, body: Body) {
    && (r.declared == Absent || (r.declared.Length? && 0 <= r.declared.n <= 1048576))
    && (forall i | 0 <= i < |r.chunks| :: r.chunks[i].Some?)
    && body == Joined(r.chunks, |r.chunks|) && |body| <= 1048576
  }

  lemma ArrivedIff(r: Request, body: Body)
    ensures ReadBody(r.declared, r.chunks) == Ok(body) <==> Arrived(r, body)
    ensures ReadBody(r.declared, r.chunks).Err? ==> ReadBody(r.declared, r.chunks).error in {400, 413}
  {
    ReadIff(r.chunks, |r.chunks|);
    ReadErrors(r.chunks, |r.chunks|);
  }

  lemma {:induction false} ReadErrors(chunks: seq<Chunk>, k: nat)
    requires k <= |chunks|
    ensures ReadTo(chunks, k).Err? ==> ReadTo(chunks, k).error in {400, 413}
  {
    if k > 0 { ReadErrors(chunks, k - 1); }
  }

  /** A signed JSON request whose whole body arrived, met by a consumer that has its secret. */
  predicate Authentic(r: Request, body: Body) { r.secretConfigured && r.jsonContent && Arrived(r, body) && r.signed }

  /**
   A request is acknowledged exactly when it is authentic, names a receipt, the table can be reached, and
   the table has no other receipt under that delivery id; it then is in the table. Every other request
   leaves the table as it is and is told why.
   */
  lemma AcceptDecides(decode: Decoder, receipts: Receipts, r: Request)
    ensures var (receipts', answer) := Accept(decode, receipts, r);
            && (forall receipt :: answer == Ack(receipt) <==>
                  exists body :: Authentic(r, body) && Names(decode, r.headers, body, receipt) && r.storeAvailable
                                 && (receipt.deliveryId in receipts ==> receipts[receipt.deliveryId] == receipt))
            && (answer.Ack? ==> receipts' == receipts[answer.receipt.deliveryId := answer.receipt])
            && (!answer.Ack? ==> receipts' == receipts)
            && (!r.secretConfigured ==> answer == Refusal(503))
            && (r.secretConfigured && !r.jsonContent ==> answer == Refusal(415))
            && (r.secretConfigured && r.jsonContent && (forall body :: !Arrived(r, body)) ==>
                  answer == Refusal(400) || answer == Refusal(413))
  {
    forall body
      ensures ReadBody(r.declared, r.chunks) == Ok(body) <==> Arrived(r, body)
    {
      ArrivedIff(r, body);
    }
    ArrivedIff(r, []);
    forall body, receipt
      ensures DecodeIdentity(decode, r.headers, body) == Some(receipt) <==> Names(decode, r.headers, body, receipt)
    {
      DecodeIff(decode, r.headers, body, receipt);
    }
  }

  /** Why an arrived request is refused: unsigned, naming nothing, met by no table, or by another receipt. */
  lemma RefusalTells(decode: Decoder, receipts: Receipts, r: Request, body: Body)
    requires r.secretConfigured && r.jsonContent && Arrived(r, body)
    ensures var answer := Accept(decode, receipts, r).1;
            && (answer == Refusal(401) <==> !r.signed)
            && (answer == Refusal(400) <==> r.signed && forall x :: !Names(decode, r.headers, body, x))
            && (answer == Refusal(503) <==>
                  r.signed && !r.storeAvailable && exists x :: Names(decode, r.headers, body, x))
            && (answer == Refusal(409) <==>
                  r.signed && r.storeAvailable
                  && exists x :: Names(decode, r.headers, body, x)
                                 && x.deliveryId in receipts && receipts[x.deliveryId] != x)
  {
    ArrivedIff(r, body);
    forall x
      ensures DecodeIdentity(decode, r.headers, body) == Some(x) <==> Names(decode, r.headers, body, x)
    {
      DecodeIff(decode, r.headers, body, x);
    }
  }
}
