/** The monitor's cycle: the connectivity rule of `check_connection`, the branch
    logic of `check_site` over the stored fingerprint, and what one cycle leaves
    behind (hash file, alerts, log lines, the next scheduled check). HTTP, HTML
    parsing and SHA-256 are outside the model: their results arrive as inputs. */
module Checker {
  import opened Wrappers
  import opened Text
  import opened Normalize

  /** `CHECK_INTERVAL`: seconds from one check to the next. */
  const CheckInterval: nat := 3600

  /** What the HEAD request to the probe host gave: a response with its status
      code, or a `requests.RequestException`. */
  datatype Probe = Response(status: int) | RequestFailed

  /** What `get_page_hash` gave: the fingerprint of the news region, or the text
      of the exception it raised (HTTP error status, transport failure, parse error). */
  datatype Fetch = Fingerprint(hash: string) | Raised(error: string)

  /** `extract_news_section`: the text of the page's news region, or "" when the
      page has none. Parsing the HTML is outside the model; the region's text, as
      `get_text(separator=" ", strip=True)` gives it, arrives as `region`. */
  function NewsText(region: Option<string>): string {
    match region
    case None => ""
    case Some(text) => text
  }

  /** `get_page_hash` once the page has arrived: the digest of the normalised news
      text. `sha256` stands for the SHA-256 hex digest of the UTF-8 encoding. */
  function PageHash(sha256: string -> string, region: Option<string>): string
    requires IsAscii(NewsText(region))
  {
    sha256(NormalizeText(NewsText(region)))
  }

  /** A page whose news region is missing hashes like one whose region holds
      only whitespace. */
  lemma MissingRegionLikeBlank(sha256: string -> string, blank: string)
    requires IsAscii(blank) && forall i :: 0 <= i < |blank| ==> IsSpace(blank[i])
    ensures PageHash(sha256, None) == PageHash(sha256, Some(blank))
  {
    BlankIsEmpty(blank);
    BlankIsEmpty("");
  }

  /** Two pages whose news differs only in the date shown hash alike. */
  lemma RedatedPageSameHash(sha256: string -> string, u: string, d: string, d': string, w: string)
    requires IsAscii(u) && IsAscii(w) && DateApart(u) && IsDate(d) && IsDate(d')
    requires w == [] || (!IsDigit(w[0]) && w[0] != '/')
    ensures IsAscii(u + d + w) && IsAscii(u + d' + w)
    ensures PageHash(sha256, Some(u + d + w)) == PageHash(sha256, Some(u + d' + w))
  {
    DateIgnored(u, d, w);
    DateIgnored(u, d', w);
  }

  /** Two pages whose news differs only in the time shown hash alike. */
  lemma RetimedPageSameHash(sha256: string -> string, u: string, t: string, t': string, w: string)
    requires IsAscii(u) && IsAscii(w) && TimeApart(u) && IsTime(t) && IsTime(t')
    requires w == [] || (!IsDigit(w[0]) && w[0] != '/' && w[0] != ':')
    ensures IsAscii(u + t + w) && IsAscii(u + t' + w)
    ensures PageHash(sha256, Some(u + t + w)) == PageHash(sha256, Some(u + t' + w))
  {
    TimeIgnored(u, t, w);
    TimeIgnored(u, t', w);
  }

  /** Two pages whose news differs only in the width of one gap hash alike. */
  lemma RespacedPageSameHash(sha256: string -> string, u: string, x: string, y: string, w: string)
    requires IsAscii(u) && IsAscii(w) && IsGap(x) && IsGap(y)
    ensures IsAscii(u + x + w) && IsAscii(u + y + w)
    ensures PageHash(sha256, Some(u + x + w)) == PageHash(sha256, Some(u + y + w))
  {
    SpacingIgnored(u, x, y, w);
  }

  /** `check_connection`: a response below status 500 means the network is up;
      a server error or a failed request means it is not. */
  function Reachable(probe: Probe): (r: bool)
    ensures r <==> probe.Response? && probe.status < 500
  {
    match probe
    case Response(status) => status < 500
    case RequestFailed => false
  }

  const SkippedMessage := "No internet connection, the check skipped"
  const NoChangeMessage := "No change detected"
  const ChangeAlert := "Change in news page!"

  function ChangeMessage(hash: string): string {
    "Change, new_hash: " + hash
  }

  function FirstRunMessage(hash: string): string {
    "First run \U{2014} hash saved. Hash: " + hash
  }

  function ErrorMessage(error: string): string {
    "Error: " + error
  }

  /** The effect of one cycle: the hash file's contents afterwards, the alert
      raised (if any), the one line logged, and whether the page was fetched. */
  datatype Outcome = Outcome(hashFile: Option<string>, alert: Option<string>, logLine: string, fetched: bool)

  /** One run of `check_site`, from the hash file's contents before it. The
      stored fingerprint is the file's contents with surrounding whitespace
      stripped, as `f.read().strip()` gives it. */
  function Step(hashFile: Option<string>, probe: Probe, fetch: Fetch): (o: Outcome)
    ensures o.fetched == Reachable(probe)
    ensures o.hashFile != hashFile ==> Reachable(probe) && fetch.Fingerprint? && o.hashFile == Some(fetch.hash)
    ensures o.alert.Some? <==>
      Reachable(probe) && (fetch.Raised? || (hashFile.Some? && Strip(hashFile.value) != fetch.hash))
  {
    if !Reachable(probe) then
      Outcome(hashFile, None, SkippedMessage, false)
    else
      match fetch
      case Raised(error) =>
        Outcome(hashFile, Some(ErrorMessage(error)), ErrorMessage(error), true)
      case Fingerprint(hash) =>
        match hashFile
        case None => Outcome(Some(hash), None, FirstRunMessage(hash), true)
        case Some(contents) =>
          if hash != Strip(contents) then Outcome(Some(hash), Some(ChangeAlert), ChangeMessage(hash), true)
          else Outcome(hashFile, None, NoChangeMessage, true)
  }

  /** Unreachable: nothing is fetched, the hash file is not touched, no alert,
      and the one log line says the check was skipped. */
  lemma UnreachableCycle(hashFile: Option<string>, probe: Probe, fetch: Fetch)
    requires !Reachable(probe)
    ensures var o := Step(hashFile, probe, fetch);
      !o.fetched && o.hashFile == hashFile && o.alert == None && o.logLine == SkippedMessage
  {
  }

  /** First run: with no hash file, the new fingerprint is saved silently and logged. */
  lemma FirstRunCycle(probe: Probe, hash: string)
    requires Reachable(probe)
    ensures var o := Step(None, probe, Fingerprint(hash));
      o.hashFile == Some(hash) && o.alert == None && o.logLine == FirstRunMessage(hash)
  {
  }

  /** No change: the stored fingerprint equals the new one; the file is left as
      it is and no alert is raised. */
  lemma NoChangeCycle(contents: string, probe: Probe, hash: string)
    requires Reachable(probe) && Strip(contents) == hash
    ensures var o := Step(Some(contents), probe, Fingerprint(hash));
      o.hashFile == Some(contents) && o.alert == None && o.logLine == NoChangeMessage
  {
  }

  /** Change: the new fingerprint replaces the stored one, with one change alert
      and a log line naming the new fingerprint. */
  lemma ChangeCycle(contents: string, probe: Probe, hash: string)
    requires Reachable(probe) && Strip(contents) != hash
    ensures var o := Step(Some(contents), probe, Fingerprint(hash));
      o.hashFile == Some(hash) && o.alert == Some(ChangeAlert) && o.logLine == ChangeMessage(hash)
  {
  }

  /** Error: the hash file is not touched; the alert and the log line both carry
      the error's text. */
  lemma ErrorCycle(hashFile: Option<string>, probe: Probe, error: string)
    requires Reachable(probe)
    ensures var o := Step(hashFile, probe, Raised(error));
      o.hashFile == hashFile && o.alert == Some(o.logLine) && o.logLine == "Error: " + error
  {
  }

  /** The inputs of one scheduled check. */
  datatype Check = Check(probe: Probe, fetch: Fetch)

  /** The hash file after a series of checks. */
  function FileAfter(hashFile: Option<string>, checks: seq<Check>): Option<string>
    decreases |checks|
  {
    if checks == [] then hashFile
    else
      var last := checks[|checks| - 1];
      Step(FileAfter(hashFile, checks[..|checks| - 1]), last.probe, last.fetch).hashFile
  }

  /** The alerts raised by a series of checks, in order. */
  function AlertsOf(hashFile: Option<string>, checks: seq<Check>): seq<string>
    decreases |checks|
  {
    if checks == [] then []
    else
      var last := checks[|checks| - 1];
      var o := Step(FileAfter(hashFile, checks[..|checks| - 1]), last.probe, last.fetch);
      AlertsOf(hashFile, checks[..|checks| - 1]) + (if o.alert.Some? then [o.alert.value] else [])
  }

  /** The fingerprint fetched by the last check that reached the page, if any did. */
  function LastFingerprint(checks: seq<Check>): Option<string>
    decreases |checks|
  {
    if checks == [] then None
    else
      var last := checks[|checks| - 1];
      if Reachable(last.probe) && last.fetch.Fingerprint? then Some(last.fetch.hash)
      else LastFingerprint(checks[..|checks| - 1])
  }

  /** A SHA-256 hex digest as `hexdigest()` spells it: 64 lower-case hex digits. */
  predicate IsHexDigest(h: string) {
    |h| == 64 && forall i :: 0 <= i < |h| ==> IsDigit(h[i]) || 'a' <= h[i] <= 'f'
  }

  predicate DigestsOnly(checks: seq<Check>) {
    forall i :: 0 <= i < |checks| && checks[i].fetch.Fingerprint? ==> IsHexDigest(checks[i].fetch.hash)
  }

  lemma DigestStripped(h: string)
    requires IsHexDigest(h)
    ensures Strip(h) == h
  {
    StripFixed(h);
  }

  /** One check stores the fingerprint it fetched, if it fetched one, and
      otherwise leaves the hash file alone. */
  lemma TrackStep(prev: Option<string>, last: Check)
    requires last.fetch.Fingerprint? ==> IsHexDigest(last.fetch.hash)
    ensures var o := Step(prev, last.probe, last.fetch);
      if Reachable(last.probe) && last.fetch.Fingerprint? then
        o.hashFile.Some? && Strip(o.hashFile.value) == last.fetch.hash
      else o.hashFile == prev
  {
    if last.fetch.Fingerprint? {
      DigestStripped(last.fetch.hash);
    }
  }

  /** The hash file always reflects the most recent successful fetch: after any
      series of checks, the stored fingerprint is the one fetched last, and a
      series without a successful fetch leaves the file as it was. */
  lemma {:induction false} FileTracksLastFingerprint(hashFile: Option<string>, checks: seq<Check>)
    requires DigestsOnly(checks)
    ensures LastFingerprint(checks).None? ==> FileAfter(hashFile, checks) == hashFile
    ensures LastFingerprint(checks).Some? ==>
      FileAfter(hashFile, checks).Some? && Strip(FileAfter(hashFile, checks).value) == LastFingerprint(checks).value
    decreases |checks|
  {
    if checks != [] {
      var init, last := checks[..|checks| - 1], checks[|checks| - 1];
      assert DigestsOnly(init) by {
        forall i | 0 <= i < |init| && init[i].fetch.Fingerprint? ensures IsHexDigest(init[i].fetch.hash) {
          assert init[i] == checks[i];
        }
      }
      FileTracksLastFingerprint(hashFile, init);
      TrackStep(FileAfter(hashFile, init), last);
    }
  }

  /** One check of a page whose fingerprint is still the stored one raises no alert
      and keeps that fingerprint stored. */
  lemma StableStep(hashFile: Option<string>, probe: Probe, h: string)
    requires IsHexDigest(h)
    requires hashFile.None? || Strip(hashFile.value) == h
    ensures var o := Step(hashFile, probe, Fingerprint(h));
      o.alert == None && (o.hashFile.None? || Strip(o.hashFile.value) == h)
  {
    DigestStripped(h);
  }

  /** A page whose fingerprint never changes raises no alert, whether or not a
      baseline was stored before, as long as no check fails. */
  lemma {:induction false} StablePageNeverAlerts(hashFile: Option<string>, checks: seq<Check>, h: string)
    requires IsHexDigest(h)
    requires hashFile.None? || Strip(hashFile.value) == h
    requires forall i :: 0 <= i < |checks| ==> checks[i].fetch == Fingerprint(h)
    ensures AlertsOf(hashFile, checks) == []
    ensures FileAfter(hashFile, checks).None? || Strip(FileAfter(hashFile, checks).value) == h
    decreases |checks|
  {
    if checks != [] {
      var init := checks[..|checks| - 1];
      var last := checks[|checks| - 1];
      assert forall i :: 0 <= i < |init| ==> init[i] == checks[i];
      StablePageNeverAlerts(hashFile, init, h);
      assert last.fetch == Fingerprint(h);
      StableStep(FileAfter(hashFile, init), last.probe, h);
    }
  }

  /** The monitor's persistent and observable state: the hash file, the alerts
      shown to the user, the log, how often the page was fetched, and the delays
      handed to the scheduler. */
  class Monitor {
    var hashFile: Option<string>
    var alerts: seq<string>
    var log: seq<string>
    var fetches: nat
    var scheduled: seq<nat>

    /** Program start: the hash file as found on disk, and the first check
        scheduled with no delay. */
    constructor (hashFile: Option<string>)
      ensures this.hashFile == hashFile && alerts == [] && log == [] && fetches == 0 && scheduled == [0]
    {
      this.hashFile := hashFile;
      alerts := [];
      log := [];
      fetches := 0;
      scheduled := [0];
    }

    /** `alert_user`: the message reaches the user. */
    method Alert(text: string)
      modifies this`alerts
      ensures alerts == old(alerts) + [text]
    {
      alerts := alerts + [text];
    }

    /** `info`: the message is appended to the log. */
    method Info(msg: string)
      modifies this`log
      ensures log == old(log) + [msg]
    {
      log := log + [msg];
    }

    /** `check_site`: probe, fetch, compare, alert, log and save as `Step`
        describes, then schedule the next check after `CheckInterval`. */
    method Cycle(probe: Probe, fetch: Fetch)
      modifies this
      ensures var o := Step(old(hashFile), probe, fetch);
        && hashFile == o.hashFile
        && alerts == old(alerts) + (if o.alert.Some? then [o.alert.value] else [])
        && log == old(log) + [o.logLine]
        && fetches == old(fetches) + (if o.fetched then 1 else 0)
      ensures scheduled == old(scheduled) + [CheckInterval]
    {
      if Reachable(probe) {
        fetches := fetches + 1;
        match fetch {
          case Raised(error) =>
            Alert(ErrorMessage(error));
            Info(ErrorMessage(error));
          case Fingerprint(newHash) =>
            if hashFile.Some? {
              var oldHash := Strip(hashFile.value);
              if newHash != oldHash {
                Alert(ChangeAlert);
                Info(ChangeMessage(newHash));
                hashFile := Some(newHash);
              } else {
                Info(NoChangeMessage);
              }
            } else {
              Info(FirstRunMessage(newHash));
              hashFile := Some(newHash);
            }
        }
      } else {
        Info(SkippedMessage);
      }
      scheduled := scheduled + [CheckInterval];
    }
  }
}
