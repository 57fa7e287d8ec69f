/**
  The cycle fed from the IP-echo reply. `GetIP` as written never looks at the
  reply's status, so an error page becomes the address the cycle writes; the
  corrected resolver accepts only a 200 reply, and the cycle built on it writes
  nothing when the service fails.
 */
module ResolvedCycle {
  import opened GoStrings
  import opened Cloudflare
  import opened Targets
  import opened Reconciler
  import opened CycleLaws

  /** A cycle whose IP comes from the echo reply through the status-checking resolver. */
  function RunCycle(env: Env, echo: EchoOutcome, fetch: Domain -> seq<DNSRecord>): (calls: seq<Call>)
    ensures !(echo.EchoResponse? && echo.status == 200) ==> |calls| <= 1
    ensures forall k :: 0 <= k < |calls| && calls[k].Update? ==>
      echo.EchoResponse? && echo.status == 200 && calls[k].ip == NormaliseIP(echo.body)
  {
    Cycle(env, GetIPChecked(echo), fetch)
  }

  /** With the corrected resolver, a failed or non-200 echo reply leads to no listing and no write. */
  lemma FailedEchoWritesNothing(env: Env, echo: EchoOutcome, fetch: Domain -> seq<DNSRecord>)
    requires !(echo.EchoResponse? && echo.status == 200)
    ensures UpdatesOf(RunCycle(env, echo, fetch)) == []
    ensures FetchesOf(RunCycle(env, echo, fetch)) == []
  {
    StoppedCycleWritesNothing(env, GetIPChecked(echo), fetch);
  }

  /**
    With `GetIP` as written, an error reply `text + "\n"` of any status makes the
    cycle write `text` into every stale address record: a 503 reply
    "Service Unavailable\n" writes "Service Unavailable".
   */
  lemma ErrorPageWrittenAsAddress(env: Env, status: int, text: string, fetch: Domain -> seq<DNSRecord>, i: int, j: int)
    requires EnvComplete(env)
    requires text != [] && !IsSpace(text[0]) && !IsSpace(text[|text| - 1]) && '\n' !in text
    requires 0 <= i < |DomainList(env.domain)|
    requires 0 <= j < |fetch(DomainList(env.domain)[i])|
    requires Stale(DomainList(env.domain)[i], fetch(DomainList(env.domain)[i])[j], text)
    ensures Update(fetch(DomainList(env.domain)[i])[j], text) in Cycle(env, GetIP(EchoResponse(status, text + "\n")), fetch)
  {
    GetIPIgnoresStatus(status, text);
    StaleRecordUpdated(env, text, fetch, i, j);
  }
}
