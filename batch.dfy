/** The health probe's decision and the labels the batch check gives. The
    HTTP exchange itself is summarised as a `Probe`. */
module Batch {
  import opened Records

  /** How the streamed GET of a URL went: the request failed (any
      `RequestException`: connection error, timeout, bad URL), something else
      went wrong, or a response arrived with a status code and with or
      without a first body chunk. */
  datatype Probe = RequestError | OtherError | Response(statusCode: int, firstChunk: bool)

  /** `check_stream` returns a verdict or lets a non-request exception out. */
  datatype CheckResult = Checked(working: bool) | Raised

  function CheckStream(p: Probe): (r: CheckResult)
    ensures r == Checked(true) <==> p.Response? && p.statusCode == 200 && p.firstChunk
    ensures r == Raised <==> p.OtherError?
  {
    match p
    case RequestError => Checked(false)
    case OtherError => Raised
    case Response(code, chunk) =>
      if code != 200 then Checked(false)
      else if !chunk then Checked(false)
      else Checked(true)
  }

  /** The verdict of `test_all_thread`, which counts any exception as failure. */
  function ProbeSucceeded(p: Probe): (ok: bool)
    ensures ok <==> p == Response(200, true)
  {
    match CheckStream(p)
    case Checked(w) => w
    case Raised => false
  }

  /** The status a verdict is shown as. */
  function StatusFor(working: bool): (s: Status)
    ensures s == Working <==> working
    ensures s.Working? || s.NotResponding?
  {
    if working then Working else NotResponding
  }

  /** The updates the batch worker hands to the user-interface thread. */
  datatype Callback = ShowStatus(index: nat, status: Status) | SetProgress(value: nat) | FinishTesting

  /** The status `test_all_thread` records for one probe. */
  function Verdict(p: Probe): (s: Status)
    ensures s == Working <==> p == Response(200, true)
    ensures s == NotResponding <==> p != Response(200, true)
  {
    StatusFor(ProbeSucceeded(p))
  }

  /** The updates the batch worker posts for the records it has probed, in
      record order: the row's status, then the progress so far. */
  function Reports(probes: seq<Probe>): seq<Callback>
  {
    if |probes| == 0 then []
    else
      var n := |probes| - 1;
      Reports(probes[..n]) + [ShowStatus(n, Verdict(probes[n])), SetProgress(n + 1)]
  }

  /** Record `k` gets its status update at position `2k` and the progress
      value `k + 1` right after it. */
  lemma {:induction false} ReportsInOrder(probes: seq<Probe>)
    ensures |Reports(probes)| == 2 * |probes|
    ensures forall k | 0 <= k < |probes| ::
      Reports(probes)[2 * k] == ShowStatus(k, Verdict(probes[k])) && Reports(probes)[2 * k + 1] == SetProgress(k + 1)
  {
    if |probes| > 0 {
      var n := |probes| - 1;
      ReportsInOrder(probes[..n]);
      forall k | 0 <= k < n
        ensures probes[..n][k] == probes[k]
      {
      }
    }
  }
}
