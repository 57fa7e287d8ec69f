/**
  The provider client: the record types it exchanges with the DNS provider and the
  pure parts of its three calls. Every network exchange is an outcome value passed
  in by the caller (transport failure, status code, body as read and decoded).
 */
module Cloudflare {
  import opened Wrappers
  import opened GoStrings

  /** One configured target: display name, zone identifier, record identifier. */
  datatype Domain = Domain(name: string, zoneId: string, dnsRecordId: string)

  /** A DNS record as the provider reports it. */
  datatype DNSRecord = DNSRecord(
    id: string,
    zoneId: string,
    zoneName: string,
    name: string,
    recordType: string,
    content: string,
    proxiable: bool,
    proxied: bool,
    ttl: int,
    comment: Option<string>,
    tags: seq<string>,
    createdOn: string,
    modifiedOn: string,
    priority: Option<int>)

  /** The decoded body of a record listing. */
  datatype DNSRecordsResponse = DNSRecordsResponse(
    result: seq<DNSRecord>,
    success: bool,
    errors: seq<string>,
    messages: seq<string>)

  /** The zero value Go hands back when a listing fails. */
  const EmptyResponse := DNSRecordsResponse([], false, [], [])

  /** The write payload of a record update. */
  datatype DNSRecordUpdate = DNSRecordUpdate(
    content: string,
    name: string,
    proxied: bool,
    recordType: string,
    comment: string,
    id: string,
    tags: seq<string>,
    ttl: int)

  // ---------------------------------------------------------------------------
  // Request paths

  const ZonesPrefix: string := "/client/v4/zones/"
  const RecordsSuffix: string := "/dns_records"

  /** Path of the listing request for a zone. */
  function RecordsPath(zoneId: string): string
  {
    ZonesPrefix + zoneId + RecordsSuffix
  }

  /** Path of the update request for one record of a zone. */
  function RecordPath(zoneId: string, recordId: string): string
  {
    ZonesPrefix + zoneId + RecordsSuffix + "/" + recordId
  }

  /** The update path is the listing path of the record's zone followed by its identifier. */
  lemma RecordPathExtendsRecordsPath(zoneId: string, recordId: string)
    ensures var p := RecordPath(zoneId, recordId);
      |p| == |RecordsPath(zoneId)| + 1 + |recordId|
      && p[..|RecordsPath(zoneId)|] == RecordsPath(zoneId)
      && p[|RecordsPath(zoneId)|] == '/'
      && p[|RecordsPath(zoneId)| + 1..] == recordId
  {
    var p := RecordPath(zoneId, recordId);
    assert p == RecordsPath(zoneId) + ("/" + recordId);
  }

  /**
    While zone identifiers contain no '/', different (zone, record) pairs never share
    an update path, and different zones never share a listing path.
   */
  lemma RecordPathInjective(z1: string, r1: string, z2: string, r2: string)
    requires '/' !in z1 && '/' !in z2
    requires RecordPath(z1, r1) == RecordPath(z2, r2)
    ensures z1 == z2 && r1 == r2
  {
    var t := RecordsSuffix + "/";
    assert RecordPath(z1, r1) == ZonesPrefix + (z1 + (t + r1));
    assert RecordPath(z2, r2) == ZonesPrefix + (z2 + (t + r2));
    PrefixCancels(ZonesPrefix, z1 + (t + r1), z2 + (t + r2));
    assert (t + r1)[0] == '/' && (t + r2)[0] == '/';
    SameSeparatedHead(z1, t + r1, z2, t + r2);
    PrefixCancels(t, r1, r2);
  }

  lemma PrefixCancels(p: string, x: string, y: string)
    requires p + x == p + y
    ensures x == y
  {
    assert x == (p + x)[|p|..];
    assert y == (p + y)[|p|..];
  }

  lemma RecordsPathInjective(z1: string, z2: string)
    requires '/' !in z1 && '/' !in z2
    requires RecordsPath(z1) == RecordsPath(z2)
    ensures z1 == z2
  {
    assert RecordsPath(z1) == ZonesPrefix + (z1 + RecordsSuffix);
    assert RecordsPath(z2) == ZonesPrefix + (z2 + RecordsSuffix);
    PrefixCancels(ZonesPrefix, z1 + RecordsSuffix, z2 + RecordsSuffix);
    SameSeparatedHead(z1, RecordsSuffix, z2, RecordsSuffix);
  }

  /** Two '/'-free heads followed by tails that start with '/' are split at the same place. */
  lemma SameSeparatedHead(x1: string, y1: string, x2: string, y2: string)
    requires '/' !in x1 && '/' !in x2
    requires |y1| > 0 && y1[0] == '/' && |y2| > 0 && y2[0] == '/'
    requires x1 + y1 == x2 + y2
    ensures x1 == x2 && y1 == y2
  {
    assert x1 + y1 == x1 + ['/'] + y1[1..];
    assert x2 + y2 == x2 + ['/'] + y2[1..];
    SplitAfterPiece(x1, '/', y1[1..]);
    SplitAfterPiece(x2, '/', y2[1..]);
    assert x1 == Split(x1 + y1, '/')[0] == x2;
    assert y1 == (x1 + y1)[|x1|..];
    assert y2 == (x2 + y2)[|x2|..];
  }

  // ---------------------------------------------------------------------------
  // Update payload

  /** The payload the client sends to replace a record's content with `ip`. */
  function BuildUpdate(record: DNSRecord, ip: string): DNSRecordUpdate
  {
    DNSRecordUpdate(
      content := ip,
      name := record.name,
      proxied := false,
      recordType := record.recordType,
      comment := "",
      id := record.id,
      tags := [],
      ttl := record.ttl)
  }

  /**
    The record as the provider stores it after accepting `payload`, assuming it writes
    every field the payload carries. The zone, the identifier and the fields the
    payload does not carry are left alone.
   */
  function ApplyPayload(record: DNSRecord, payload: DNSRecordUpdate): (r: DNSRecord)
    ensures r.zoneId == record.zoneId && r.zoneName == record.zoneName
    ensures r.id == payload.id && r.content == payload.content && r.recordType == payload.recordType
    ensures r.priority == record.priority && r.createdOn == record.createdOn
  {
    record.(
      name := payload.name,
      recordType := payload.recordType,
      content := payload.content,
      proxied := payload.proxied,
      ttl := payload.ttl,
      comment := Some(payload.comment),
      id := payload.id,
      tags := payload.tags)
  }

  /**
    Writing a record's own update payload back changes its content to `ip` and
    keeps its name, type, TTL and identifier. The fields the payload does not copy
    come back as their zero values: a proxied record is sent `proxied = false`, and
    its comment and tags are cleared.
   */
  lemma UpdateReplacesOnlyContent(record: DNSRecord, ip: string)
    ensures var p := BuildUpdate(record, ip);
      && p.content == ip
      && p.name == record.name && p.recordType == record.recordType
      && p.ttl == record.ttl && p.id == record.id
      && !p.proxied && p.comment == "" && p.tags == []
    ensures ApplyPayload(record, BuildUpdate(record, ip))
      == record.(content := ip, proxied := false, comment := Some(""), tags := [])
  {
  }

  // ---------------------------------------------------------------------------
  // Listing a zone's records

  /** What `json.Unmarshal` made of the body. */
  datatype Decoding =
    | Decoded(response: DNSRecordsResponse)
      /** The body is not JSON: nothing is stored. */
    | SyntaxError
      /** A JSON value did not fit its field: the other fields are still stored. */
    | TypeMismatch(partial: DNSRecordsResponse)

  datatype BodyRead = ReadError | Read(decoding: Decoding)

  /** The outcome of the listing request as the client observes it. */
  datatype FetchOutcome =
    | FetchTransportError
    | FetchResponse(status: int, body: BodyRead)

  predicate FetchSucceeded(outcome: FetchOutcome)
  {
    outcome.FetchResponse? && outcome.status == 200
    && outcome.body.Read? && outcome.body.decoding.Decoded?
  }

  /** The response `GetDomainDNS` returns for an outcome of its listing request. */
  function GetDomainDNS(outcome: FetchOutcome): (resp: DNSRecordsResponse)
    ensures FetchSucceeded(outcome) ==> resp == outcome.body.decoding.response
    ensures outcome.FetchTransportError? ==> resp == EmptyResponse
    ensures outcome.FetchResponse? && outcome.status != 200 ==> resp == EmptyResponse
    ensures outcome.FetchResponse? && outcome.body.ReadError? ==> resp == EmptyResponse
    ensures outcome.FetchResponse? && outcome.body == Read(SyntaxError) ==> resp == EmptyResponse
    ensures outcome.FetchResponse? && outcome.status == 200 && outcome.body.Read? && outcome.body.decoding.TypeMismatch? ==>
      resp == outcome.body.decoding.partial
    ensures resp != EmptyResponse ==>
      outcome.FetchResponse? && outcome.status == 200 && outcome.body.Read? && !outcome.body.decoding.SyntaxError?
  {
    match outcome
    case FetchTransportError => EmptyResponse
    case FetchResponse(status, body) =>
      if status == 200 then
        match body
        case ReadError => EmptyResponse
        case Read(Decoded(response)) => response
        case Read(SyntaxError) => EmptyResponse
        case Read(TypeMismatch(partial)) => partial
      else EmptyResponse
  }

  // ---------------------------------------------------------------------------
  // Updating one record

  /** The outcome of the update request as the client observes it. */
  datatype UpdateOutcome =
    | MarshalError
    | RequestError
    | UpdateTransportError
    | UpdateResponse(status: int, body: string)

  /** Whether `UpdateDNSRecord` reports the write as applied. */
  function UpdateDNSRecord(outcome: UpdateOutcome): (updated: bool)
    ensures updated <==> outcome.UpdateResponse? && outcome.status == 200
  {
    match outcome
    case UpdateResponse(status, _) => status == 200
    case _ => false
  }

  // ---------------------------------------------------------------------------
  // Resolving the public IP address

  /** The outcome of the request to the IP-echo service. */
  datatype EchoOutcome =
    | EchoFailed
    | EchoResponse(status: int, body: string)

  /** The echo body trimmed of surrounding white space, then its first newline removed. */
  function NormaliseIP(body: string): (ip: string)
    ensures ip == [] <==> forall i :: 0 <= i < |body| ==> IsSpace(body[i])
    ensures ip == [] || (!IsSpace(ip[0]) && !IsSpace(ip[|ip| - 1]))
    ensures |ip| <= |body|
  {
    RemoveFirst(TrimSpace(body), '\n')
  }

  /**
    A one-line text without surrounding white space comes back unchanged when the
    service pads it with white space (its reply ends in a newline).
   */
  lemma NormaliseIPPadded(before: string, address: string, after: string)
    requires forall i :: 0 <= i < |before| ==> IsSpace(before[i])
    requires forall i :: 0 <= i < |after| ==> IsSpace(after[i])
    requires address == [] || (!IsSpace(address[0]) && !IsSpace(address[|address| - 1]))
    requires '\n' !in address
    ensures NormaliseIP(before + address + after) == address
  {
    TrimSpacePadding(before, address, after);
  }

  /**
    `GetIP` as written: a failed request or an unreadable body gives "", and any
    response, whatever its status, gives its normalised body.
   */
  function GetIP(echo: EchoOutcome): (ip: string)
    ensures ip == [] || (!IsSpace(ip[0]) && !IsSpace(ip[|ip| - 1]))
    ensures ip == [] <==> echo.EchoFailed? || forall i :: 0 <= i < |echo.body| ==> IsSpace(echo.body[i])
  {
    match echo
    case EchoFailed => ""
    case EchoResponse(_, body) => NormaliseIP(body)
  }

  /**
    `GetIP` as written takes any one-line reply for an address, whatever its status:
    an error page "Service Unavailable\n" sent with status 503 becomes the
    address "Service Unavailable".
   */
  lemma GetIPIgnoresStatus(status: int, text: string)
    requires text == [] || (!IsSpace(text[0]) && !IsSpace(text[|text| - 1]))
    requires '\n' !in text
    ensures GetIP(EchoResponse(status, text + "\n")) == text
  {
    assert "" + text + "\n" == text + "\n";
    NormaliseIPPadded("", text, "\n");
  }

  /** `GetIP` with the status check the rest of the client applies: only a 200 reply yields an address. */
  function GetIPChecked(echo: EchoOutcome): (ip: string)
    ensures ip != [] ==> echo.EchoResponse? && echo.status == 200
    ensures echo.EchoResponse? && echo.status == 200 ==> ip == GetIP(echo)
  {
    if echo.EchoResponse? && echo.status == 200 then GetIP(echo) else ""
  }
}
