/**
 * The two soft-failure network wrappers of autoscaler.js: `getStatus` and
 * `updateReplicas`. The network itself is not modelled; what a `fetch` call did
 * is an input value, and each wrapper maps it to the value the source returns,
 * `None` standing for `null`.
 */
module Client {
  import opened Wrappers

  /** Process-lifetime configuration, read once from the environment. */
  datatype Config = Config(baseUrl: string, targetCpuUsage: real, pollingIntervalMs: int)

  /** A status snapshot: `cpu.highPriority` and `replicas` of the monitored service. */
  datatype Status = Status(cpu: real, replicas: int)

  /**
   * What one `fetch` call did: it rejected (network error), or it resolved to a
   * response whose `ok` flag and body are given.
   */
  datatype Fetch<B> = Threw | Responded(ok: bool, body: B)

  /** The non-null value `updateReplicas` hands back when the update was accepted. */
  datatype Ack = Ack

  /** An outbound HTTP request of the autoscaler. */
  datatype Request = Get(url: string) | Put(url: string, replicas: int)

  /** The request `getStatus` issues: `GET {baseUrl}/status`. */
  function StatusRequest(c: Config): (q: Request)
    ensures q.Get? && q.url == c.baseUrl + "/status"
  {
    Get(c.baseUrl + "/status")
  }

  /** The request `updateReplicas(count)` issues: `PUT {baseUrl}/replicas` with body `{ replicas: count }`. */
  function ReplicasRequest(c: Config, count: int): (q: Request)
    ensures q.Put? && q.url == c.baseUrl + "/replicas" && q.replicas == count
  {
    Put(c.baseUrl + "/replicas", count)
  }

  /**
   * `getStatus`: the parsed body of an ok response, `None` when the fetch threw,
   * when the response is not ok, or when the body does not parse to a status
   * (`response.json()` rejecting lands in the same catch; a falsy body is
   * returned as is, and `autoScale` treats it like `null`).
   */
  function GetStatus(f: Fetch<Option<Status>>): (r: Option<Status>)
    ensures r.None? <==> f.Threw? || !f.ok || f.body.None?
    ensures r.Some? ==> f == Responded(true, Some(r.value))
  {
    match f
    case Threw => None
    case Responded(ok, body) => if !ok then None else body
  }

  /**
   * `updateReplicas`: a non-null acknowledgement exactly when the PUT resolved
   * to an ok response; `None` when it threw or the response is not ok. The body
   * of the response is never inspected.
   */
  function UpdateReplicas<B>(f: Fetch<B>): (r: Option<Ack>)
    ensures r.Some? <==> f.Responded? && f.ok
  {
    if f.Responded? && f.ok then Some(Ack) else None
  }
}
