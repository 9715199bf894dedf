/** The strings printed on an entry pass (src/lib/generate-ticket.ts): the QR payload the
    gate scanner reads, the short registration id, the participant name and the college. */
module Ticket {
  import opened Types
  import opened Text

  /** The fixed prefix of every QR payload. */
  const QrPrefix: string := "COALESCE:"

  /** `COALESCE:${registration.id}`. */
  function QrPayload(id: string): (payload: string)
    ensures |payload| == |QrPrefix| + |id|
    ensures payload[..|QrPrefix|] == QrPrefix
  {
    QrPrefix + id
  }

  /** What a scanner recovers from a payload: the text after the prefix, or nothing when
      the payload does not start with it. */
  function StripQrPrefix(payload: string): (id: Option<string>)
    ensures id.Some? <==> |payload| >= |QrPrefix| && payload[..|QrPrefix|] == QrPrefix
    ensures id.Some? ==> |id.value| == |payload| - |QrPrefix|
  {
    if |payload| >= |QrPrefix| && payload[..|QrPrefix|] == QrPrefix
    then Some(payload[|QrPrefix|..])
    else None
  }

  /** Removing the prefix recovers the full id. */
  lemma QrRoundTrip(id: string)
    ensures StripQrPrefix(QrPayload(id)) == Some(id)
  {
    assert QrPayload(id)[|QrPrefix|..] == id;
  }

  /** Every payload the scanner accepts is the payload of exactly the id it recovers. */
  lemma QrPayloadOfStripped(payload: string)
    requires StripQrPrefix(payload).Some?
    ensures QrPayload(StripQrPrefix(payload).value) == payload
  {
    assert payload == payload[..|QrPrefix|] + payload[|QrPrefix|..];
  }

  /** Distinct registrations get distinct QR payloads. */
  lemma QrPayloadInjective(id1: string, id2: string)
    requires QrPayload(id1) == QrPayload(id2)
    ensures id1 == id2
  {
    QrRoundTrip(id1);
    QrRoundTrip(id2);
  }

  /** `id.substring(0, 8).toUpperCase()`: the first eight characters (all of a shorter id),
      upper-cased. */
  function ShortId(id: string): (short: string)
    ensures |short| == if |id| < 8 then |id| else 8
    ensures forall i :: 0 <= i < |short| ==> short[i] == UpperChar(id[i])
  {
    ToUpper(Take(id, 8))
  }

  /** The short id depends on the first eight characters alone, so two ids that share
      them print the same short id. */
  lemma ShortIdOfPrefix(id1: string, id2: string)
    requires |id1| >= 8 && |id2| >= 8 && id1[..8] == id2[..8]
    ensures ShortId(id1) == ShortId(id2)
  {
    assert forall i :: 0 <= i < 8 ==> id1[i] == id1[..8][i] == id2[..8][i] == id2[i];
  }

  /** The four derived strings of a pass. */
  datatype TicketText = TicketText(participantName: string, registrationId: string,
                                   college: string, qrContent: string)

  function TicketFor(r: Registration): (t: TicketText)
    ensures t.participantName == ToUpper(r.name)
    ensures t.registrationId == ShortId(r.id)
    ensures t.college == r.rollCollege
    ensures StripQrPrefix(t.qrContent) == Some(r.id)
  {
    QrRoundTrip(r.id);
    TicketText(ToUpper(r.name), ShortId(r.id), r.rollCollege, QrPayload(r.id))
  }

  /** Passes of distinct registrations carry distinct QR codes, even when their short ids
      coincide. */
  lemma TicketQrIdentifies(r1: Registration, r2: Registration)
    requires r1.id != r2.id
    ensures TicketFor(r1).qrContent != TicketFor(r2).qrContent
  {
    if TicketFor(r1).qrContent == TicketFor(r2).qrContent {
      QrPayloadInjective(r1.id, r2.id);
    }
  }
}
