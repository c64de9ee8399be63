/** Updating a Cloudflare DNS record: look the record up by name and type,
    and send a PATCH with the new content only when the current content
    differs. HTTP replies are inputs. */
module CloudflareDnsUpdate {
  import opened Wrappers
  import opened Text
  import Http

  const DnsBaseUrl := "https://api.cloudflare.com/client/v4"
  const StatusMessage := "HTTP response code is not 200."
  const MissingSuccessMessage := "JSON key success not found."
  const ApiFailedMessage := "DNS API call failed."
  const UnreachableMessage := "DNS API call could not be completed."
  const AlreadyMatchesMessage := "DNS record already matches the current IP address."
  const SuccessMessage := "DNS record updated successfully."

  /** `value_callback`: an empty `--value` is replaced by the host's public
      address, the stripped body of the address lookup; any other value is
      kept as given. */
  function ResolveValue(value: string, lookupBody: string): (r: string)
    ensures value != "" ==> r == value
    ensures value == "" ==> r == Strip(lookupBody)
  {
    if value == "" then Strip(lookupBody) else value
  }

  datatype DnsRecord = DnsRecord(id: string, content: string)

  /** The JSON of an API reply: `success` is None when the key is absent,
      `count` is `result_info.count` and `result` the records listed. */
  datatype Body = Body(success: Option<bool>, count: int, result: seq<DnsRecord>)

  /** An API reply: no reply at all (`requests` raised an `OSError`), or a
      status with a body that is None when it is not JSON (decoding it
      raises an `OSError` too). */
  datatype Reply = Unreachable | Answered(status: int, body: Option<Body>)

  /** `--record-type` is one of "A" and "CNAME" in any case; the canonical
      spelling is what the script sees. */
  function RecordType(raw: string): (r: Option<string>)
    ensures r.Some? <==> Lower(raw) == "a" || Lower(raw) == "cname"
    ensures r.Some? ==> r.value in {"A", "CNAME"} && Lower(r.value) == Lower(raw)
  {
    var l := Lower(raw);
    if l == "a" then Some("A")
    else if l == "cname" then Some("CNAME")
    else None
  }

  datatype Request =
    | Lookup(url: string, name: string, recordType: string)
    | Patch(url: string, content: string)

  datatype Failure =
    | Exit(message: string)     // `error_and_exit`
    | IndexError                // `result[0]` of an empty list when `count` says 1

  /** The checks every reply goes through, in the script's order: the
      transport, the status, a JSON body, the "success" key, and its truth. */
  function CheckReply(reply: Reply): (r: Result<Body, Failure>)
    ensures r.Ok? <==> reply.Answered? && reply.status >= 200 && reply.body.Some? && reply.body.value.success == Some(true)
    ensures r.Ok? ==> r.value == reply.body.value
    ensures reply.Unreachable? ==> r == Err(Exit(UnreachableMessage))
    ensures reply.Answered? && reply.status < 200 ==> r == Err(Exit(StatusMessage))
    ensures reply.Answered? && reply.status >= 200 && reply.body.Some? && reply.body.value.success == Some(false)
      ==> r == Err(Exit(ApiFailedMessage))
    ensures reply.Answered? && reply.status >= 200 && reply.body.None? ==> r == Err(Exit(UnreachableMessage))
    ensures reply.Answered? && reply.status >= 200 && reply.body.Some? && reply.body.value.success.None?
      ==> r == Err(Exit(MissingSuccessMessage))
  {
    match reply
    case Unreachable => Err(Exit(UnreachableMessage))
    case Answered(status, body) =>
      if Http.RejectsStatus(status) then Err(Exit(StatusMessage))
      else if body.None? then Err(Exit(UnreachableMessage))
      else if body.value.success.None? then Err(Exit(MissingSuccessMessage))
      else if !body.value.success.value then Err(Exit(ApiFailedMessage))
      else Ok(body.value)
  }

  /** The lookup is accepted only with success and exactly one match; the
      record is the first one listed. */
  function AcceptLookup(reply: Reply): (r: Result<DnsRecord, Failure>)
    ensures r.Ok? <==> CheckReply(reply).Ok? && CheckReply(reply).value.count == 1 && |CheckReply(reply).value.result| > 0
    ensures r.Ok? ==> r.value == CheckReply(reply).value.result[0]
    ensures CheckReply(reply).Ok? && CheckReply(reply).value.count != 1 ==> r == Err(Exit(ApiFailedMessage))
    ensures CheckReply(reply).Err? ==> r == Err(CheckReply(reply).error)
  {
    var body :- CheckReply(reply);
    if body.count != 1 then Err(Exit(ApiFailedMessage))
    else if |body.result| == 0 then Err(IndexError)
    else Ok(body.result[0])
  }

  function RecordsUrl(zoneId: string): string {
    DnsBaseUrl + "/zones/" + zoneId + "/dns_records"
  }

  /** What the script sent, printed and ended with. */
  datatype UpdateRun = UpdateRun(requests: seq<Request>, messages: seq<string>, outcome: Result<(), Failure>)

  function MismatchMessage(recordType: string, fqdn: string, value: string): string {
    "DNS record does not match the current IP address. Updating " + recordType + " record for " + fqdn + " with " + value + "."
  }

  /** The script after option parsing: `value` is already resolved. */
  function UpdateDns(fqdn: string, zoneId: string, value: string, recordType: string,
                     lookup: Reply, patch: Reply): (r: UpdateRun)
    ensures |r.requests| >= 1 && r.requests[0] == Lookup(RecordsUrl(zoneId), fqdn, recordType)
    ensures |r.requests| <= 2
    ensures |r.requests| == 2 <==> AcceptLookup(lookup).Ok? && AcceptLookup(lookup).value.content != value
    ensures |r.requests| == 2 ==>
      r.requests[1] == Patch(RecordsUrl(zoneId) + "/" + AcceptLookup(lookup).value.id, value)
    ensures r.outcome.Ok? <==>
      AcceptLookup(lookup).Ok? && (AcceptLookup(lookup).value.content == value || CheckReply(patch).Ok?)
    ensures r.outcome.Ok? <==> |r.messages| > 0 && r.messages[|r.messages| - 1] == SuccessMessage
    ensures AcceptLookup(lookup).Err? ==> r.outcome == Err(AcceptLookup(lookup).error) && r.messages == []
    ensures AcceptLookup(lookup).Ok? && AcceptLookup(lookup).value.content == value ==>
      r.messages == [AlreadyMatchesMessage, SuccessMessage]
    ensures AcceptLookup(lookup).Ok? && AcceptLookup(lookup).value.content != value ==>
      && |r.messages| > 0 && r.messages[0] == MismatchMessage(recordType, fqdn, value)
      && (CheckReply(patch).Err? ==> r.outcome == Err(CheckReply(patch).error))
  {
    var get := Lookup(RecordsUrl(zoneId), fqdn, recordType);
    match AcceptLookup(lookup)
    case Err(f) => UpdateRun([get], [], Err(f))
    case Ok(record) =>
      if record.content == value then
        UpdateRun([get], [AlreadyMatchesMessage, SuccessMessage], Ok(()))
      else
        var send := Patch(RecordsUrl(zoneId) + "/" + record.id, value);
        var notice := MismatchMessage(recordType, fqdn, value);
        match CheckReply(patch)
        case Err(f) => UpdateRun([get, send], [notice], Err(f))
        case Ok(_) => UpdateRun([get, send], [notice, SuccessMessage], Ok(()))
  }

  // ---------------------------------------------------------------------
  // Properties

  /** What the server holds after a request. */
  function Apply(record: DnsRecord, request: Request): DnsRecord {
    match request
    case Lookup(_, _, _) => record
    case Patch(_, content) => DnsRecord(record.id, content)
  }

  function ApplyAll(record: DnsRecord, requests: seq<Request>): DnsRecord
    decreases |requests|
  {
    if |requests| == 0 then record else ApplyAll(Apply(record, requests[0]), requests[1..])
  }

  /** A successful lookup reply reporting just `record`. */
  function ReplyFor(record: DnsRecord): Reply {
    Answered(200, Some(Body(Some(true), 1, [record])))
  }

  /** A lookup reply that reports one record is accepted with that record. */
  lemma AcceptsReplyFor(record: DnsRecord)
    ensures AcceptLookup(ReplyFor(record)) == Ok(record)
  {
    assert CheckReply(ReplyFor(record)) == Ok(Body(Some(true), 1, [record]));
  }

  /** Running the update twice against a server that applies its requests:
      the second run finds the record current and sends no PATCH. */
  lemma UpdateIsIdempotent(fqdn: string, zoneId: string, value: string, recordType: string,
                           record: DnsRecord, patch: Reply, patch2: Reply)
    requires UpdateDns(fqdn, zoneId, value, recordType, ReplyFor(record), patch).outcome.Ok?
    ensures var first := UpdateDns(fqdn, zoneId, value, recordType, ReplyFor(record), patch);
      var after := ApplyAll(record, first.requests);
      && after.content == value
      && UpdateDns(fqdn, zoneId, value, recordType, ReplyFor(after), patch2).requests
         == [Lookup(RecordsUrl(zoneId), fqdn, recordType)]
      && UpdateDns(fqdn, zoneId, value, recordType, ReplyFor(after), patch2).outcome.Ok?
  {
    var first := UpdateDns(fqdn, zoneId, value, recordType, ReplyFor(record), patch);
    if |first.requests| == 2 {
      var mid := Apply(record, first.requests[0]);
      assert mid == record;
      assert first.requests[1..][1..] == [];
      var last := Apply(mid, first.requests[1..][0]);
      assert ApplyAll(mid, first.requests[1..]) == ApplyAll(last, []);
      assert last.content == value;
    } else {
      assert first.requests[1..] == [];
    }
  }
}
