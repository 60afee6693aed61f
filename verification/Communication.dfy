/** Addressed communication: a send plan, its two events and their replay. Identities and digests
    are symbolic: a digest is the term of the record it hashes, so equal digests mean equal records. */
module Communication {
  import opened Bytes
  import opened Domain
  import References

  // ----- identities, digests and records -----

  datatype Id =
    | Named(name: Bytes)
    | ClaimId(origin: Ref, role: nat, ordinal: nat)
    | TransmissionId(origin: Ref, role: nat, ordinal: nat)
    | OccurrenceId(origin: Ref)
    | EventId(run: Id, cycle: Id, key: Key)

  datatype Digest =
    | NamedDigest(name: Bytes)
    | ClaimDigest(claim: ClaimBody)
    | TransmissionDigest(transmission: TransmissionBody)
    | OccurrenceDigest(occurrence: OccurrenceBody)
    | EventDigest(event: EventBody)

  datatype Ref = Ref(kind: nat, id: Id, digest: Digest)

  datatype Producer = Send | Delivery

  datatype Key = Key(origin: Id, producer: Producer)

  datatype Actor = Actor(kind: Bytes, name: Bytes)

  datatype Tag = Scope | Allegation | OtherTag

  /** A typed value; `intact` says that its descriptor and its digest agree with its envelope. */
  datatype Typed = Typed(tag: Tag, content: Bytes, intact: bool)

  datatype Proposition = Proposition(name: Bytes, polarity: nat, scope: Typed, content: Typed)

  datatype Channel = SchoolMessage | SchoolDrop | OtherChannel(name: Bytes)

  datatype ClaimBody = ClaimBody(id: Id, origin: Ref, role: nat, ordinal: nat, proposition: Proposition, author: Actor,
                                 assertedAt: I64, priors: seq<References.Reference>, evidence: seq<References.Reference>)

  datatype TransmissionBody = TransmissionBody(
    id: Id, origin: Ref, role: nat, ordinal: nat, claims: seq<Ref>, sender: Actor, presented: Bytes,
    recipients: seq<Actor>, channel: Channel, sentAt: I64, occurrence: Option<Id>, hasFacts: bool, status: nat)

  datatype DeliveryRefs = DeliveryRefs(transmission: Id, transmissionDigest: Digest, claim: Id, claimDigest: Digest, intact: bool)

  /** `standard` covers the fields every delivery occurrence shares: owner, handler, version,
      status, role, ordinal, and no recurrence. */
  datatype OccurrenceBody = OccurrenceBody(id: Id, run: Id, due: I64, eligible: (I64, U64), payload: DeliveryRefs,
                                           createdBy: Ref, standard: bool)

  datatype Notice = Notice(recipient: Actor, presented: Bytes, claim: Id, proposition: Proposition, at: I64, channel: Channel)

  datatype Payload =
    | SentPayload(transmission: Id, transmissionDigest: Digest, claim: Id, claimDigest: Digest, occurrence: Id, due: I64)
    | DeliveredPayload(notice: Notice)
    | FailedPayload(transmission: Id, occurrence: Id, at: I64)

  datatype EventKind = Sent | Delivered | DeliveryFailed

  datatype EventBody = EventBody(id: Id, run: Id, key: Key, kind: EventKind, at: I64, sequence: U64, cycle: Id, revision: U64,
                                 payload: Payload, source: Ref, actors: seq<Actor>, confidentiality: nat)

  datatype Record<T> = Record(identity: Id, body: T, digest: Digest)

  datatype Plan = Plan(run: Id, claim: Record<ClaimBody>, transmission: Record<TransmissionBody>, occurrence: Record<OccurrenceBody>)

  datatype Context = Context(run: Id, cycle: Id, revision: U64, at: I64, sequence: U64)

  const NO_ID := Named([])
  const NO_DIGEST := NamedDigest([])
  const PROPOSAL: nat := 5
  const OCCURRENCE: nat := 6
  const CLAIM: nat := 18

  // ----- validators -----

  predicate IsRef(r: Ref) {
    r.kind <= References.MAX_KIND && r.id != NO_ID && r.digest != NO_DIGEST
  }

  predicate IsActor(a: Actor) {
    MachineId(a.kind) && MachineId(a.name)
  }

  predicate IsProposition(p: Proposition) {
    && MachineId(p.name) && p.polarity <= 2
    && p.scope.intact && p.scope.tag == Scope
    && p.content.intact && p.content.tag == Allegation
  }

  /** Delivered or not, for the registered channels; nothing for the others. */
  function RegisteredChannelResult(c: Channel): Option<bool> {
    match c
    case SchoolMessage => Some(true)
    case SchoolDrop => Some(false)
    case OtherChannel(_) => None
  }

  predicate IsChannelName(c: Channel) {
    c.OtherChannel? ==> MachineId(c.name)
  }

  predicate ClaimIsAuthentic(r: Record<ClaimBody>) {
    var c := r.body;
    && c.id == r.identity
    && IsRef(c.origin) && c.role < TWO_TO_16 && c.ordinal < TWO_TO_32
    && IsProposition(c.proposition) && IsActor(c.author)
    && References.IsClaimList(c.priors) && c.evidence == []
    && r.identity == ClaimId(c.origin, c.role, c.ordinal)
    && r.digest == ClaimDigest(c)
  }

  predicate TransmissionIsAuthentic(r: Record<TransmissionBody>) {
    var t := r.body;
    && t.id == r.identity
    && IsRef(t.origin) && t.role < TWO_TO_16 && t.ordinal < TWO_TO_32
    && |t.claims| == 1 && IsRef(t.claims[0]) && t.claims[0].kind == CLAIM
    && IsActor(t.sender) && 0 < |t.presented| <= 512
    && |t.recipients| == 1 && IsActor(t.recipients[0])
    && IsChannelName(t.channel)
    && t.occurrence.Some? && !t.hasFacts && t.status <= 3
    && r.identity == TransmissionId(t.origin, t.role, t.ordinal)
    && r.digest == TransmissionDigest(t)
  }

  // ----- preparing a send -----

  datatype SendSpec = SendSpec(run: Id, source: Ref, sender: Actor, presented: Bytes, recipient: Actor,
                               sentAt: I64, dueAt: I64, channel: Channel, proposition: Proposition)

  function NewClaim(origin: Ref, proposition: Proposition, author: Actor, at: I64): Option<Record<ClaimBody>> {
    if !IsRef(origin) || !IsProposition(proposition) || !IsActor(author) then None
    else
      var id := ClaimId(origin, 0, 0);
      var body := ClaimBody(id, origin, 0, 0, proposition, author, at, [], []);
      Some(Record(id, body, ClaimDigest(body)))
  }

  function NewTransmission(s: SendSpec, claim: Ref, occurrence: Id): Option<Record<TransmissionBody>> {
    if !IsRef(s.source) || !IsActor(s.sender) || !(0 < |s.presented| <= 512) || RegisteredChannelResult(s.channel) == None
       || !IsActor(s.recipient) || !IsRef(claim) || claim.kind != CLAIM || occurrence == NO_ID
    then None
    else
      var id := TransmissionId(s.source, 0, 0);
      var body := TransmissionBody(id, s.source, 0, 0, [claim], s.sender, s.presented, [s.recipient], s.channel, s.sentAt,
                                   Some(occurrence), false, 0);
      Some(Record(id, body, TransmissionDigest(body)))
  }

  /** The claim, the transmission in transit and the occurrence that will deliver it. */
  function PrepareSend(s: SendSpec): Option<Plan> {
    if s.source.kind != PROPOSAL || s.dueAt <= s.sentAt || s.dueAt == MAX_I64 then None
    else if !IsActor(s.sender) || !IsActor(s.recipient) then None
    else
      var due := OccurrenceId(s.source);
      var claim :- NewClaim(s.source, s.proposition, s.sender, s.sentAt);
      if !ClaimIsAuthentic(claim) then None
      else
        var transmission :- NewTransmission(s, Ref(CLAIM, claim.identity, claim.digest), due);
        if !TransmissionIsAuthentic(transmission) then None
        else
          var payload := DeliveryRefs(transmission.identity, transmission.digest, claim.identity, claim.digest, true);
          var body := OccurrenceBody(due, s.run, s.dueAt, (s.dueAt, 0), payload, s.source, true);
          Some(Plan(s.run, claim, transmission, Record(due, body, OccurrenceDigest(body))))
  }

  /** Connects the due occurrence back to the claim and the transmission; gives its due time. */
  function ValidateOccurrence(p: Plan): Option<I64> {
    var o, t, c := p.occurrence.body, p.transmission.body, p.claim.body;
    if !ClaimIsAuthentic(p.claim) || !TransmissionIsAuthentic(p.transmission) then None
    else if t.occurrence.value != p.occurrence.identity then None
    else if c.origin != t.origin || t.origin.kind != PROPOSAL then None
    else if OccurrenceId(t.origin) != t.occurrence.value then None
    else if o.id != p.occurrence.identity || o.run != p.run || !o.standard || o.createdBy != t.origin then None
    else if o.due <= t.sentAt || o.eligible != (o.due, 0) then None
    else if o.payload != DeliveryRefs(p.transmission.identity, p.transmission.digest, p.claim.identity, p.claim.digest, true)
    then None
    else if p.occurrence.digest != OccurrenceDigest(o) then None
    else Some(o.due)
  }

  // ----- events -----

  function MakeEvent(ctx: Context, key: Key, kind: EventKind, payload: Payload, source: Ref, actors: seq<Actor>,
                     confidentiality: nat): Option<Record<EventBody>> {
    if ctx.sequence == MAX_U64 then None
    else
      var id := EventId(ctx.run, ctx.cycle, key);
      var body := EventBody(id, ctx.run, key, kind, ctx.at, ctx.sequence, ctx.cycle, ctx.revision, payload, source, actors,
                            confidentiality);
      Some(Record(id, body, EventDigest(body)))
  }

  function NewSentEvent(ctx: Context, p: Plan, proposal: Ref): Option<Record<EventBody>> {
    if ctx.run != p.run || proposal.kind != PROPOSAL then None
    else
      var due :- ValidateOccurrence(p);
      var t, c := p.transmission, p.claim;
      if due <= ctx.at || t.body.sentAt != ctx.at || t.body.origin != proposal || c.body.origin != t.body.origin then None
      else
        MakeEvent(ctx, Key(proposal.id, Send), Sent,
                  SentPayload(t.identity, t.digest, c.identity, c.digest, p.occurrence.identity, due), proposal, [], 2)
  }

  datatype DeliveryResult = DeliveryResult(kind: EventKind, notice: Option<Notice>, status: nat)

  /** What a due delivery amounts to, fixed by the channel. */
  function PlanDueDelivery(tx: Record<TransmissionBody>, claim: Record<ClaimBody>, occurrence: Id, dueAt: I64, now: I64):
    Option<DeliveryResult> {
    if !TransmissionIsAuthentic(tx) || !ClaimIsAuthentic(claim) then None
    else
      var t, c := tx.body, claim.body;
      if t.status != 0 then None
      else if t.occurrence != Some(occurrence) || occurrence == NO_ID then None
      else if now < dueAt || dueAt < t.sentAt then None
      else if t.claims[0].id != claim.identity || t.claims[0].digest != claim.digest then None
      else if c.origin != t.origin || c.author != t.sender || c.assertedAt != t.sentAt then None
      else
        var delivered :- RegisteredChannelResult(t.channel);
        if !delivered then Some(DeliveryResult(DeliveryFailed, None, 2))
        else
          var notice := Notice(t.recipients[0], t.presented, claim.identity, c.proposition, now, t.channel);
          Some(DeliveryResult(Delivered, Some(notice), 1))
  }

  function NewDueEvent(ctx: Context, p: Plan, result: DeliveryResult, occurrence: Ref): Option<Record<EventBody>> {
    if ctx.run != p.run || occurrence.kind != OCCURRENCE || occurrence.id != p.occurrence.identity then None
    else
      var due :- ValidateOccurrence(p);
      if ctx.at < due || p.occurrence.digest != occurrence.digest then None
      else
        var expected :- PlanDueDelivery(p.transmission, p.claim, occurrence.id, due, ctx.at);
        if expected != result then None
        else
          var key := Key(occurrence.id, Delivery);
          match result.notice
          case Some(notice) => MakeEvent(ctx, key, Delivered, DeliveredPayload(notice), occurrence, [notice.recipient], 1)
          case None =>
            MakeEvent(ctx, key, DeliveryFailed, FailedPayload(p.transmission.identity, p.occurrence.identity, ctx.at),
                      occurrence, [], 2)
  }

  // ----- replay -----

  /** `status` is 0 in transit, 1 delivered, 2 failed. */
  datatype Trace = Trace(status: nat, sentAt: I64, deliveredAt: Option<I64>, notice: Option<Notice>)

  function EventContext(e: Record<EventBody>): Option<Context> {
    if e.body.id != e.identity then None
    else Some(Context(e.body.run, e.body.cycle, e.body.revision, e.body.at, e.body.sequence))
  }

  /** The plan's own occurrence, as the origin of its delivery. */
  function DueOrigin(p: Plan): Ref {
    Ref(OCCURRENCE, p.occurrence.identity, p.occurrence.digest)
  }

  /** Rebuilds each event from its context and the plan, and compares. */
  function ReplayCommunication(p: Plan, events: seq<Record<EventBody>>): Option<Trace> {
    if !TransmissionIsAuthentic(p.transmission) then None
    else
      var due :- ValidateOccurrence(p);
      if !(1 <= |events| <= 2) then None
      else
        var first :- EventContext(events[0]);
        var sent :- NewSentEvent(first, p, p.transmission.body.origin);
        if sent != events[0] || events[0].body.kind != Sent || first.at != p.transmission.body.sentAt then None
        else if |events| == 1 then Some(Trace(0, first.at, None, None))
        else
          var second :- EventContext(events[1]);
          if second.run != first.run || second.cycle == first.cycle || second.revision <= first.revision
             || second.sequence <= first.sequence || second.at < due
          then None
          else
            var planned :- PlanDueDelivery(p.transmission, p.claim, p.occurrence.identity, due, second.at);
            var expected :- NewDueEvent(second, p, planned, DueOrigin(p));
            if expected != events[1] || events[1].body.kind != planned.kind then None
            else Some(Trace(planned.status, first.at, Some(second.at), planned.notice))
  }

  // ----- a prepared send -----

  /** Everything that follows from a successful preparation. */
  lemma PreparedPlanValidates(s: SendSpec, p: Plan)
    requires PrepareSend(s) == Some(p)
    ensures ValidateOccurrence(p) == Some(s.dueAt)
    ensures p.run == s.run && p.transmission.body.origin == s.source && p.transmission.body.sentAt == s.sentAt
    ensures s.sentAt < s.dueAt && p.transmission.body.channel == s.channel && RegisteredChannelResult(s.channel).Some?
  {
  }

  function SpecOf(p: Plan): SendSpec
    requires ValidateOccurrence(p).Some?
  {
    var t, c := p.transmission.body, p.claim.body;
    SendSpec(p.run, t.origin, t.sender, t.presented, t.recipients[0], t.sentAt, p.occurrence.body.due, t.channel, c.proposition)
  }

  /** A plan that is the only claim and transmission of its proposal, in transit on a registered channel. */
  predicate IsFresh(p: Plan) {
    var t, c := p.transmission.body, p.claim.body;
    && t.role == t.ordinal == c.role == c.ordinal == 0
    && t.claims == [Ref(CLAIM, p.claim.identity, p.claim.digest)]
    && c.priors == []
    && c.author == t.sender && c.assertedAt == t.sentAt
    && t.status == 0 && RegisteredChannelResult(t.channel).Some?
    && p.occurrence.body.due != MAX_I64
  }

  /** Preparation and validation are inverse: the plans a preparation can give are exactly the
      fresh plans that validate, and a plan determines its specification. */
  lemma PreparedPlansAreTheFreshOnes(p: Plan)
    ensures (exists s :: PrepareSend(s) == Some(p)) <==> ValidateOccurrence(p).Some? && IsFresh(p)
    ensures forall s :: PrepareSend(s) == Some(p) ==> ValidateOccurrence(p).Some? && s == SpecOf(p)
  {
    hide IsProposition, IsActor;
    forall s | PrepareSend(s) == Some(p) ensures ValidateOccurrence(p).Some? && IsFresh(p) && s == SpecOf(p) {
      PreparedPlanValidates(s, p);
      PreparedIsFresh(s, p);
    }
    if ValidateOccurrence(p).Some? && IsFresh(p) {
      FreshIsPrepared(p);
    }
  }

  lemma PreparedIsFresh(s: SendSpec, p: Plan)
    requires PrepareSend(s) == Some(p) && ValidateOccurrence(p).Some?
    ensures IsFresh(p) && s == SpecOf(p)
  {
  }

  lemma FreshIsPrepared(p: Plan)
    requires ValidateOccurrence(p).Some? && IsFresh(p)
    ensures PrepareSend(SpecOf(p)) == Some(p)
  {
    hide IsProposition, IsActor;
    var s := SpecOf(p);
    var claim := NewClaim(s.source, s.proposition, s.sender, s.sentAt);
    assert claim == Some(p.claim);
    var transmission := NewTransmission(s, Ref(CLAIM, p.claim.identity, p.claim.digest), OccurrenceId(s.source));
    assert p.transmission.body.recipients == [s.recipient];
    assert transmission == Some(p.transmission);
  }

  // ----- a trace is exactly what was constructed -----

  predicate CanFollow(first: Context, second: Context, due: I64) {
    && second.run == first.run && second.cycle != first.cycle
    && second.revision > first.revision && second.sequence > first.sequence
    && second.at >= due
  }

  function ChannelStatus(c: Channel): nat {
    if c == SchoolMessage then 1 else 2
  }

  /** The send event of a prepared plan replays to a message in transit. */
  lemma SentReplays(s: SendSpec, p: Plan, first: Context)
    requires PrepareSend(s) == Some(p)
    requires first.run == s.run && first.at == s.sentAt && first.sequence != MAX_U64
    ensures NewSentEvent(first, p, s.source).Some?
    ensures ReplayCommunication(p, [NewSentEvent(first, p, s.source).value]) == Some(Trace(0, s.sentAt, None, None))
  {
    hide PrepareSend, ClaimIsAuthentic, IsActor, IsProposition;
    PreparedPlanValidates(s, p);
    ValidPlanIsAuthentic(p);
    hide ValidateOccurrence, TransmissionIsAuthentic;
  }

  lemma ValidPlanIsAuthentic(p: Plan)
    requires ValidateOccurrence(p).Some?
    ensures TransmissionIsAuthentic(p.transmission) && ClaimIsAuthentic(p.claim)
    ensures p.transmission.body.occurrence == Some(p.occurrence.identity) && p.occurrence.identity == OccurrenceId(p.transmission.body.origin)
    ensures ValidateOccurrence(p).value > p.transmission.body.sentAt
  {
  }

  lemma FreshPlanDelivers(p: Plan, due: I64, now: I64)
    requires ValidateOccurrence(p) == Some(due) && IsFresh(p) && now >= due
    ensures var r := PlanDueDelivery(p.transmission, p.claim, p.occurrence.identity, due, now);
            r.Some? && r.value.status == ChannelStatus(p.transmission.body.channel)
  {
    ValidPlanIsAuthentic(p);
  }

  /** A prepared send, followed in a later cycle at or after the due time by its delivery, replays
      to the status fixed by the channel. */
  lemma ConstructedTraceReplays(s: SendSpec, p: Plan, first: Context, second: Context)
    requires PrepareSend(s) == Some(p)
    requires first.run == s.run && first.at == s.sentAt
    requires CanFollow(first, second, s.dueAt) && second.sequence != MAX_U64
    ensures NewSentEvent(first, p, s.source).Some?
    ensures PlanDueDelivery(p.transmission, p.claim, p.occurrence.identity, s.dueAt, second.at).Some?
    ensures var result := PlanDueDelivery(p.transmission, p.claim, p.occurrence.identity, s.dueAt, second.at).value;
            && NewDueEvent(second, p, result, DueOrigin(p)).Some?
            && ReplayCommunication(p, [NewSentEvent(first, p, s.source).value, NewDueEvent(second, p, result, DueOrigin(p)).value])
            == Some(Trace(ChannelStatus(s.channel), s.sentAt, Some(second.at), result.notice))
  {
    PreparedPlanValidates(s, p);
    PreparedIsFresh(s, p);
    FreshPlanDelivers(p, s.dueAt, second.at);
    DueReplays(s, p, first, second);
  }

  lemma DueReplays(s: SendSpec, p: Plan, first: Context, second: Context)
    requires ValidateOccurrence(p) == Some(s.dueAt) && p.run == s.run && p.transmission.body.origin == s.source
    requires p.transmission.body.sentAt == s.sentAt && p.transmission.body.channel == s.channel
    requires first.run == s.run && first.at == s.sentAt
    requires CanFollow(first, second, s.dueAt) && second.sequence != MAX_U64
    requires PlanDueDelivery(p.transmission, p.claim, p.occurrence.identity, s.dueAt, second.at).Some?
    ensures NewSentEvent(first, p, s.source).Some?
    ensures var result := PlanDueDelivery(p.transmission, p.claim, p.occurrence.identity, s.dueAt, second.at).value;
            && NewDueEvent(second, p, result, DueOrigin(p)).Some?
            && ReplayCommunication(p, [NewSentEvent(first, p, s.source).value, NewDueEvent(second, p, result, DueOrigin(p)).value])
            == Some(Trace(ChannelStatus(s.channel), s.sentAt, Some(second.at), result.notice))
  {
    ValidPlanIsAuthentic(p);
    hide ValidateOccurrence, TransmissionIsAuthentic, ClaimIsAuthentic;
  }

  /** Conversely, an accepted trace is the constructed one, event for event: it never ends before
      the due time, in the sending cycle or twice, and its status is the channel's. */
  lemma AcceptedTraceIsConstructed(p: Plan, events: seq<Record<EventBody>>, trace: Trace)
    requires ReplayCommunication(p, events) == Some(trace)
    ensures ValidateOccurrence(p).Some? && 1 <= |events| <= 2
    ensures trace.sentAt == p.transmission.body.sentAt < ValidateOccurrence(p).value
    ensures exists first: Context :: first.at == trace.sentAt && NewSentEvent(first, p, p.transmission.body.origin) == Some(events[0])
    ensures |events| == 1 <==> trace == Trace(0, trace.sentAt, None, None)
    ensures |events| == 2 ==>
              && trace.deliveredAt.Some? && trace.deliveredAt.value >= ValidateOccurrence(p).value
              && trace.status == ChannelStatus(p.transmission.body.channel)
              && (trace.notice.Some? <==> trace.status == 1)
              && events[1].body.cycle != events[0].body.cycle
              && events[1].body.sequence > events[0].body.sequence && events[1].body.revision > events[0].body.revision
    ensures |events| == 2 ==>
              exists second: Context, result :: NewDueEvent(second, p, result, DueOrigin(p)) == Some(events[1])
  {
    ValidPlanIsAuthentic(p);
    hide ValidateOccurrence, TransmissionIsAuthentic, ClaimIsAuthentic;
    var first := EventContext(events[0]).value;
    assert NewSentEvent(first, p, p.transmission.body.origin) == Some(events[0]);
    if |events| == 2 {
      var second := EventContext(events[1]).value;
      var result := PlanDueDelivery(p.transmission, p.claim, p.occurrence.identity, ValidateOccurrence(p).value, second.at).value;
      assert NewDueEvent(second, p, result, DueOrigin(p)) == Some(events[1]);
    }
  }

  /** There is one trace for each pair of cycles: the plan and the contexts determine the events. */
  lemma TraceIsUnique(p: Plan, a: seq<Record<EventBody>>, b: seq<Record<EventBody>>)
    requires ReplayCommunication(p, a).Some? && ReplayCommunication(p, b).Some? && |a| == |b|
    requires forall i :: 0 <= i < |a| ==> EventContext(a[i]) == EventContext(b[i])
    ensures a == b
  {
    hide ValidateOccurrence, TransmissionIsAuthentic, ClaimIsAuthentic;
    assert a[0] == b[0];
    assert |a| == 2 ==> a[1] == b[1];
  }
}
