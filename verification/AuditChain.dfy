/**
 The hash chain that both audit logs build: what an event is, how it is linked to the event
 before it, and what a chain that links correctly says about the payloads in it.
 */
module AuditChain {

  import opened Common
  import opened Json
  import Utf8

  type Bytes = Utf8.Bytes

  function Zeros(n: nat): (s: string)
    ensures |s| == n && forall c <- s :: c == '0'
  {
    seq(n, _ => '0')
  }

  const ZERO_HASH: string := Zeros(64)

  type Digest = s: string | |s| == 64 witness ZERO_HASH

  /**
   Library functions the log relies on; nothing is assumed of them but their result types.
   The two digests take the text whose UTF-8 bytes are hashed: different texts have different
   bytes (`Utf8.EncodeInjective`), so a collision of texts is a collision of byte strings.
   */
  datatype Primitives = Primitives(
    sha256: string -> Digest,
    hmac: (Bytes, string) -> Digest,
    parseTime: string -> Option<int>)

  // ----- events -----

  datatype AuditEvent = AuditEvent(
    tenantId: string,
    eventType: string,
    actorId: string,
    outcome: string,
    details: Json,
    correlationId: string,
    eventId: string,
    occurredAt: string)

  /** `AuditEvent.normalized`, with the generated id and the clock reading as inputs. */
  function Normalized(e: AuditEvent, freshId: string, now: string): AuditEvent {
    e.(eventId := if e.eventId == "" then freshId else e.eventId,
       occurredAt := if e.occurredAt == "" then now else e.occurredAt)
  }

  /** What is given stays, and only what is missing is filled in, each from its own source. */
  lemma NormalizedFills(e: AuditEvent, freshId: string, now: string)
    ensures var n := Normalized(e, freshId, now);
            n.(eventId := e.eventId, occurredAt := e.occurredAt) == e
            && n.eventId == (if e.eventId == "" then freshId else e.eventId)
            && (if e.occurredAt == "" then n.occurredAt == now else n.occurredAt == e.occurredAt)
  {
  }

  /** Normalizing twice, as `append` does, changes nothing the second time. */
  lemma NormalizedTwice(e: AuditEvent, freshId: string, now: string, otherId: string, later: string)
    requires freshId != "" && now != ""
    ensures Normalized(Normalized(e, freshId, now), otherId, later) == Normalized(e, freshId, now)
  {
  }

  function EventJson(e: AuditEvent): Json {
    Obj(map["tenant_id" := Str(e.tenantId),
            "event_type" := Str(e.eventType),
            "actor_id" := Str(e.actorId),
            "outcome" := Str(e.outcome),
            "details" := e.details,
            "correlation_id" := Str(e.correlationId),
            "event_id" := Str(e.eventId),
            "occurred_at" := Str(e.occurredAt)])
  }

  function Payload(e: AuditEvent): string {
    Dumps(EventJson(e), false)
  }

  lemma EventJsonInjective(e: AuditEvent, f: AuditEvent)
    requires EventJson(e) == EventJson(f)
    ensures e == f
  {
    EventFields(e);
    EventFields(f);
  }

  const EVENT_NAMES := {"tenant_id", "event_type", "actor_id", "outcome", "details", "correlation_id", "event_id", "occurred_at"}

  lemma EventFields(e: AuditEvent)
    ensures var m := EventJson(e).fields;
            m.Keys == EVENT_NAMES
            && m["tenant_id"] == Str(e.tenantId) && m["event_type"] == Str(e.eventType) && m["actor_id"] == Str(e.actorId)
            && m["outcome"] == Str(e.outcome) && m["details"] == e.details && m["correlation_id"] == Str(e.correlationId)
            && m["event_id"] == Str(e.eventId) && m["occurred_at"] == Str(e.occurredAt)
  {
    assert "actor_id"[0] != "event_id"[0] && "outcome"[0] != "details"[0];
  }

  /** Whoever reads the stored payload finds every field of the event under its own name, and no other name. */
  lemma PayloadReads(e: AuditEvent)
    ensures var t := Payload(e);
            Field(t, "tenant_id") == Some(Str(e.tenantId)) && Field(t, "event_type") == Some(Str(e.eventType))
            && Field(t, "actor_id") == Some(Str(e.actorId)) && Field(t, "outcome") == Some(Str(e.outcome))
            && Field(t, "details") == Some(e.details) && Field(t, "correlation_id") == Some(Str(e.correlationId))
            && Field(t, "event_id") == Some(Str(e.eventId)) && Field(t, "occurred_at") == Some(Str(e.occurredAt))
            && forall name :: Field(t, name).Some? ==> name in EVENT_NAMES
  {
    ParseInverts(EventJson(e), false);
    EventFields(e);
  }

  /** The stored payload identifies the whole event. */
  lemma PayloadInjective(e: AuditEvent, f: AuditEvent)
    ensures Payload(e) == Payload(f) <==> e == f
  {
    DumpsInjective(EventJson(e), EventJson(f), false);
    if EventJson(e) == EventJson(f) {
      EventJsonInjective(e, f);
    }
  }

  predicate IsAlphanumeric(c: char) {
    '0' <= c <= '9' || 'a' <= c <= 'z' || 'A' <= c <= 'Z'
  }

  /** The pattern shared by key ids and event types. */
  predicate IsIdentifier(s: string) {
    1 <= |s| <= 128 && IsAlphanumeric(s[0])
    && forall c <- s :: IsAlphanumeric(c) || c in "._:-"
  }

  predicate IsLabel(s: string) {
    1 <= |s| <= 128 && forall c <- s :: c as int >= 32
  }

  predicate IsValidEvent(e: AuditEvent) {
    IsLabel(e.tenantId) && IsLabel(e.actorId) && IsLabel(e.correlationId) && IsLabel(e.eventId)
    && IsIdentifier(e.eventType) && e.outcome != "" && e.details.Obj?
  }

  // ----- links -----

  datatype Link = Link(payload: string, previousHash: string, eventHash: string)

  function LinkInput(previousHash: string, payload: string): string {
    previousHash + ['\n'] + payload
  }

  function LinkHash(P: Primitives, previousHash: string, payload: string): Digest {
    P.sha256(LinkInput(previousHash, payload))
  }

  /** A fixed-length previous hash makes the hashed text split in one way only. */
  lemma LinkInputUnique(prev: string, prev': string, payload: string, payload': string)
    requires |prev| == |prev'|
    ensures LinkInput(prev, payload) == LinkInput(prev', payload') <==> prev == prev' && payload == payload'
  {
    var s, t := LinkInput(prev, payload), LinkInput(prev', payload');
    assert s[..|prev|] == prev && s[|prev| + 1..] == payload;
    assert t[..|prev'|] == prev' && t[|prev'| + 1..] == payload';
  }

  /** The hash that link `i` follows. */
  function PreviousHash(links: seq<Link>, i: nat): string
    requires i <= |links|
  {
    if i == 0 then ZERO_HASH else links[i - 1].eventHash
  }

  /** The hash that a chain of these links ends in. */
  function LastHash(links: seq<Link>): string {
    PreviousHash(links, |links|)
  }

  predicate IsLinkedAt(P: Primitives, links: seq<Link>, i: nat)
    requires i < |links|
  {
    links[i].previousHash == PreviousHash(links, i)
    && links[i].eventHash == LinkHash(P, links[i].previousHash, links[i].payload)
  }

  predicate IsLinked(P: Primitives, links: seq<Link>) {
    forall i | 0 <= i < |links| :: IsLinkedAt(P, links, i)
  }

  lemma LinkedHashes(P: Primitives, links: seq<Link>, i: nat)
    requires IsLinked(P, links) && i <= |links|
    ensures |PreviousHash(links, i)| == 64
  {
    assert i > 0 ==> IsLinkedAt(P, links, i - 1);
  }

  lemma LinkedPrefix(P: Primitives, links: seq<Link>, n: nat)
    requires IsLinked(P, links) && n <= |links|
    ensures IsLinked(P, links[..n]) && LastHash(links[..n]) == PreviousHash(links, n)
  {
    forall i | 0 <= i < n ensures IsLinkedAt(P, links[..n], i) {
      assert IsLinkedAt(P, links, i);
    }
  }

  function NextLink(P: Primitives, previousHash: string, payload: string): Link {
    Link(payload, previousHash, LinkHash(P, previousHash, payload))
  }

  lemma LinkedExtends(P: Primitives, links: seq<Link>, payload: string)
    requires IsLinked(P, links)
    ensures IsLinked(P, links + [NextLink(P, LastHash(links), payload)])
  {
    var more := links + [NextLink(P, LastHash(links), payload)];
    forall i | 0 <= i < |more| ensures IsLinkedAt(P, more, i) {
      assert i < |links| ==> IsLinkedAt(P, links, i);
    }
  }

  // ----- tamper evidence -----

  /** Something that is not supposed to exist, exhibited. */
  datatype Evidence = Nothing | Collision(x: string, y: string) | ZeroPreimage(x: string)

  ghost predicate IsBreak(P: Primitives, e: Evidence) {
    match e
    case Nothing => false
    case Collision(x, y) => x != y && P.sha256(x) == P.sha256(y)
    case ZeroPreimage(x) => P.sha256(x) == ZERO_HASH
  }

  /** The text that link `i` says it is the hash of. */
  function InputAt(links: seq<Link>, i: nat): string
    requires i < |links|
  {
    LinkInput(links[i].previousHash, links[i].payload)
  }

  /** The inputs of these two stored links are different and have the same hash. */
  ghost predicate CollideAt(P: Primitives, e: Evidence, a: seq<Link>, b: seq<Link>, i: nat, j: nat)
    requires i < |a| && j < |b|
  {
    e == Collision(InputAt(a, i), InputAt(b, j)) && IsBreak(P, e)
  }

  /** The inputs of two links of one chain collide, or that of one link hashes to the zero hash. */
  ghost predicate IsBrokenBy(P: Primitives, links: seq<Link>, e: Evidence) {
    (exists i, j | 0 <= i < j < |links| :: CollideAt(P, e, links, links, i, j))
    || exists j | 0 <= j < |links| :: e == ZeroPreimage(InputAt(links, j)) && IsBreak(P, e)
  }

  /** Two links with the same hash agree, or their own inputs collide. */
  lemma SameHashSameLink(P: Primitives, a: Link, b: Link) returns (e: Evidence)
    requires |a.previousHash| == |b.previousHash|
    requires LinkHash(P, a.previousHash, a.payload) == LinkHash(P, b.previousHash, b.payload)
    ensures e == Collision(LinkInput(a.previousHash, a.payload), LinkInput(b.previousHash, b.payload))
    ensures (a.previousHash == b.previousHash && a.payload == b.payload) || IsBreak(P, e)
  {
    LinkInputUnique(a.previousHash, b.previousHash, a.payload, b.payload);
    e := Collision(LinkInput(a.previousHash, a.payload), LinkInput(b.previousHash, b.payload));
  }

  /**
   Two chains of the same length that end in the same hash hold the same links, or at some
   position the two stored links have different inputs with the same SHA-256 digest.
   */
  lemma {:induction false} SameEndSameLinks(P: Primitives, a: seq<Link>, b: seq<Link>) returns (e: Evidence)
    requires IsLinked(P, a) && IsLinked(P, b)
    requires |a| == |b| && LastHash(a) == LastHash(b)
    ensures a == b || exists i | 0 <= i < |a| :: CollideAt(P, e, a, b, i, i)
    decreases |a|
  {
    e := Nothing;
    if a != [] {
      var n := |a| - 1;
      LinkedHashes(P, a, n);
      LinkedHashes(P, b, n);
      assert IsLinkedAt(P, a, n) && IsLinkedAt(P, b, n);
      e := SameHashSameLink(P, a[n], b[n]);
      if a[n].previousHash == b[n].previousHash && a[n].payload == b[n].payload {
        LinkedPrefix(P, a, n);
        LinkedPrefix(P, b, n);
        e := SameEndSameLinks(P, a[..n], b[..n]);
        assert a == a[..n] + [a[n]] && b == b[..n] + [b[n]];
        if i :| 0 <= i < n && CollideAt(P, e, a[..n], b[..n], i, i) {
          assert CollideAt(P, e, a, b, i, i);
        }
      } else {
        assert CollideAt(P, e, a, b, n, n);
      }
    }
  }

  /** A hash that recurs at two depths of one chain can only come from inputs of its own links that break the hash. */
  lemma {:induction false} RecurringHash(P: Primitives, links: seq<Link>, k: nat, m: nat) returns (e: Evidence)
    requires IsLinked(P, links) && k <= m < |links|
    requires PreviousHash(links, k) == links[m].eventHash
    ensures IsBrokenBy(P, links, e)
    decreases k
  {
    assert IsLinkedAt(P, links, m);
    if k == 0 {
      e := ZeroPreimage(InputAt(links, m));
    } else {
      LinkedHashes(P, links, k - 1);
      LinkedHashes(P, links, m);
      assert IsLinkedAt(P, links, k - 1);
      e := SameHashSameLink(P, links[k - 1], links[m]);
      if links[k - 1].previousHash == links[m].previousHash && links[k - 1].payload == links[m].payload {
        e := RecurringHash(P, links, k - 1, m - 1);
      } else {
        assert CollideAt(P, e, links, links, k - 1, m);
      }
    }
  }

  ghost predicate IsIncreasing(keep: seq<nat>, bound: nat) {
    (forall i | 0 <= i < |keep| :: keep[i] < bound)
    && forall i, j | 0 <= i < j < |keep| :: keep[i] < keep[j]
  }

  function Kept<T>(items: seq<T>, keep: seq<nat>): (kept: seq<T>)
    requires forall i | 0 <= i < |keep| :: keep[i] < |items|
    ensures |kept| == |keep| && forall i | 0 <= i < |keep| :: kept[i] == items[keep[i]]
  {
    seq(|keep|, i requires 0 <= i < |keep| => items[keep[i]])
  }

  /** The first kept position that no longer holds the link it held before. */
  lemma FirstMoved(keep: seq<nat>, bound: nat, gap: nat) returns (k: nat)
    requires IsIncreasing(keep, bound) && gap < |keep| && keep[gap] != gap
    ensures k < |keep| && k < keep[k] && (k > 0 ==> keep[k - 1] == k - 1)
  {
    k := 0;
    while keep[k] == k
      invariant k <= gap && (k > 0 ==> keep[k - 1] == k - 1)
      decreases gap - k
    {
      k := k + 1;
    }
  }

  /** Dropping a link that a kept one follows breaks the chain, unless links of the full chain break the hash function. */
  lemma DeletionIsEvident(P: Primitives, links: seq<Link>, keep: seq<nat>, gap: nat) returns (e: Evidence)
    requires IsLinked(P, links) && IsIncreasing(keep, |links|)
    requires gap < |keep| && keep[gap] != gap
    ensures IsLinked(P, Kept(links, keep)) ==> IsBrokenBy(P, links, e)
  {
    e := Nothing;
    if IsLinked(P, Kept(links, keep)) {
      var k := FirstMoved(keep, |links|, gap);
      assert IsLinkedAt(P, Kept(links, keep), k) && IsLinkedAt(P, links, keep[k]);
      e := RecurringHash(P, links, k, keep[k] - 1);
    }
  }
}
