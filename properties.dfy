/** What the catalog and services loops of module Workflow promise: which
    requests they send and in which order, which failures skip a service and
    which end the run, how many times a job is polled, what a download does to
    the files, what `data` holds, and what the log holds. */
module Properties {
  import opened Files
  import opened Rest
  import opened Poll
  import opened Ledger
  import opened Workflow

  /** The URLs of the requests issued from one call site, in order. */
  function UrlsOf(trace: seq<Request>, call: Call): seq<string>
    decreases |trace|
  {
    if trace == [] then []
    else
      var last := trace[|trace| - 1];
      UrlsOf(trace[..|trace| - 1], call) + (if last.call == call then [last.url] else [])
  }

  lemma {:induction false} UrlsOfAppend(a: seq<Request>, b: seq<Request>, call: Call)
    ensures UrlsOf(a + b, call) == UrlsOf(a, call) + UrlsOf(b, call)
    decreases |b|
  {
    if b == [] {
      assert a + b == a;
    } else {
      var init := b[..|b| - 1];
      assert (a + b)[..|a + b| - 1] == a + init;
      UrlsOfAppend(a, init, call);
    }
  }

  /** Issuing the same request n times sends its URL n times from its call site and nothing from any other. */
  lemma {:induction false} UrlsOfRepeat(r: Request, n: nat, call: Call)
    ensures |UrlsOf(Repeat(r, n), call)| == (if r.call == call then n else 0)
    ensures forall i :: 0 <= i < |UrlsOf(Repeat(r, n), call)| ==> UrlsOf(Repeat(r, n), call)[i] == r.url
    decreases n
  {
    if n > 0 {
      assert Repeat(r, n)[..n - 1] == Repeat(r, n - 1);
      UrlsOfRepeat(r, n - 1, call);
    } else {
      assert Repeat(r, n) == [];
    }
  }

  /** The replica URLs of the services that match a catalog row, in directory order. */
  function MatchedUrls(servicesRoot: string, entry: CatalogEntry, svcs: seq<Service>): seq<string>
    decreases |svcs|
  {
    if svcs == [] then []
    else
      var last := svcs[|svcs| - 1];
      MatchedUrls(servicesRoot, entry, svcs[..|svcs| - 1])
        + (if Matches(entry, last) then [ReplicaUrl(servicesRoot, last.name)] else [])
  }

  /** The URLs of the listed services, in directory order. */
  function ServiceUrls(svcs: seq<Service>): seq<string>
    decreases |svcs|
  {
    if svcs == [] then [] else ServiceUrls(svcs[..|svcs| - 1]) + [svcs[|svcs| - 1].url]
  }

  /** The replica URLs a whole catalog asks for: row after row, the matching services of each. */
  function CatalogUrls(servicesRoot: string, catalog: seq<CatalogEntry>, svcs: seq<Service>): seq<string>
    decreases |catalog|
  {
    if catalog == [] then []
    else CatalogUrls(servicesRoot, catalog[..|catalog| - 1], svcs) + MatchedUrls(servicesRoot, catalog[|catalog| - 1], svcs)
  }

  /** The requests one visit of a service sends, given the `data` it starts with. */
  function Sent(ctx: Ctx, entry: CatalogEntry, svc: Service, data: Form): seq<Request>
  {
    [Request(ServiceInfo, svc.url, Some(data))]
      + if !Matches(entry, svc) then []
        else
          var form := ReplicaForm(svc.name, svc.metadata.value.layerIds, ctx.token);
          [Request(CreateReplica, ReplicaUrl(ctx.servicesRoot, svc.name), Some(form))] + PollSent(ctx, svc)
  }

  /** The status requests and the download request of a submitted job. */
  function PollSent(ctx: Ctx, svc: Service): seq<Request>
  {
    match svc.submission
    case SubmitRaised => []
    case Submitted(None) => []
    case Submitted(Some(statusUrl)) =>
      Repeat(Request(JobStatus, StatusQuery(statusUrl, ctx.token), None), PollCount(svc.statuses))
        + match Verdict(svc.statuses)
          case Done(Some(resultUrl)) => [Request(FetchResult, ResultQuery(resultUrl, ctx.token), None)]
          case _ => []
  }

  /** A visit appends exactly its requests to the trace, whatever happens to the files. */
  lemma StepTrace(ctx: Ctx, entry: CatalogEntry, start: Instant, svc: Service, st: St, clock: nat -> Instant)
    requires LogReady(ctx, st.files)
    ensures ServiceStep(ctx, entry, start, svc, st, clock).trace == st.trace + Sent(ctx, entry, svc, st.data)
  {
    if Matches(entry, svc) {
      var info := Request(ServiceInfo, svc.url, Some(st.data));
      var form := ReplicaForm(svc.name, svc.metadata.value.layerIds, ctx.token);
      var sub := Request(CreateReplica, ReplicaUrl(ctx.servicesRoot, svc.name), Some(form));
      assert st.trace + Sent(ctx, entry, svc, st.data) == st.trace + [info] + [sub] + PollSent(ctx, svc);
      if svc.submission.Submitted? && svc.submission.statusUrl.Some? {
        var poll := Request(JobStatus, StatusQuery(svc.submission.statusUrl.value, ctx.token), None);
        var polls := Repeat(poll, PollCount(svc.statuses));
        match Verdict(svc.statuses)
        case Done(Some(resultUrl)) =>
          var fetch := Request(FetchResult, ResultQuery(resultUrl, ctx.token), None);
          assert st.trace + [info] + [sub] + PollSent(ctx, svc) == st.trace + [info] + [sub] + polls + [fetch];
        case _ =>
          assert st.trace + [info] + [sub] + PollSent(ctx, svc) == st.trace + [info] + [sub] + polls;
      } else {
        assert st.trace + [info] + [sub] + PollSent(ctx, svc) == st.trace + [info] + [sub];
      }
    }
  }

  /** No request of `t` is issued from call site `call`. */
  predicate Silent(t: seq<Request>, call: Call)
  {
    forall i :: 0 <= i < |t| ==> t[i].call != call
  }

  lemma {:induction false} UrlsOfSilent(t: seq<Request>, call: Call)
    requires Silent(t, call)
    ensures UrlsOf(t, call) == []
    decreases |t|
  {
    if t != [] {
      UrlsOfSilent(t[..|t| - 1], call);
    }
  }

  /** A submitted job sends its status requests, then at most a download request. */
  lemma PollSentShape(ctx: Ctx, svc: Service, statusUrl: string)
    requires svc.submission == Submitted(Some(statusUrl))
    ensures var polls := Repeat(Request(JobStatus, StatusQuery(statusUrl, ctx.token), None), PollCount(svc.statuses));
      && |polls| <= |PollSent(ctx, svc)| <= |polls| + 1
      && PollSent(ctx, svc) == polls + PollSent(ctx, svc)[|polls|..]
      && forall i :: |polls| <= i < |PollSent(ctx, svc)| ==> PollSent(ctx, svc)[i].call == FetchResult
  {
  }

  /** The status and download requests of a job are sent from neither the
      metadata nor the createReplica call site. */
  lemma PollSentQuiet(ctx: Ctx, svc: Service, call: Call)
    requires call != JobStatus && call != FetchResult
    ensures UrlsOf(PollSent(ctx, svc), call) == []
  {
    if svc.submission.Submitted? && svc.submission.statusUrl.Some? {
      PollSentShape(ctx, svc, svc.submission.statusUrl.value);
    }
    UrlsOfSilent(PollSent(ctx, svc), call);
  }

  /** Whatever its outcome, visiting a service sends one metadata request to
      its URL, and one createReplica request exactly when it matches the row. */
  lemma StepSends(ctx: Ctx, entry: CatalogEntry, start: Instant, svc: Service, st: St, clock: nat -> Instant)
    requires LogReady(ctx, st.files)
    ensures var r := ServiceStep(ctx, entry, start, svc, st, clock);
      && UrlsOf(r.trace, ServiceInfo) == UrlsOf(st.trace, ServiceInfo) + [svc.url]
      && UrlsOf(r.trace, CreateReplica) == UrlsOf(st.trace, CreateReplica)
           + (if Matches(entry, svc) then [ReplicaUrl(ctx.servicesRoot, svc.name)] else [])
  {
    StepTrace(ctx, entry, start, svc, st, clock);
    var sent := Sent(ctx, entry, svc, st.data);
    var info := Request(ServiceInfo, svc.url, Some(st.data));
    UrlsOfAppend(st.trace, sent, ServiceInfo);
    UrlsOfAppend(st.trace, sent, CreateReplica);
    UrlsOfAppend([info], sent[1..], ServiceInfo);
    UrlsOfAppend([info], sent[1..], CreateReplica);
    assert sent == [info] + sent[1..];
    assert UrlsOf([info], ServiceInfo) == [svc.url];
    assert UrlsOf([info], CreateReplica) == [];
    if Matches(entry, svc) {
      var sub := sent[1];
      assert sent[1..] == [sub] + PollSent(ctx, svc);
      UrlsOfAppend([sub], PollSent(ctx, svc), ServiceInfo);
      UrlsOfAppend([sub], PollSent(ctx, svc), CreateReplica);
      PollSentQuiet(ctx, svc, ServiceInfo);
      PollSentQuiet(ctx, svc, CreateReplica);
      assert UrlsOf([sub], ServiceInfo) == [];
      assert UrlsOf([sub], CreateReplica) == [ReplicaUrl(ctx.servicesRoot, svc.name)];
    } else {
      assert sent[1..] == [];
    }
  }

  /** Appending one visit's contribution to the contribution of the visits before it. */
  lemma ExtendUrls(before: seq<string>, mid: seq<string>, after: seq<string>, prefix: seq<string>, step: seq<string>)
    requires mid == before + prefix && after == mid + step
    ensures after == before + (prefix + step)
  {
  }

  /** A services loop that leaves the script running has sent one metadata
      request to every listed service and one createReplica request to each
      matching service, both in directory order, and nothing else of either kind. */
  lemma {:induction false} FoldSends(ctx: Ctx, entry: CatalogEntry, start: Instant, svcs: seq<Service>,
                                     st: St, clock: nat -> Instant)
    requires st.status == Running && LogReady(ctx, st.files)
    ensures var r := ServicesFold(ctx, entry, start, svcs, st, clock);
      r.status == Running ==>
        && UrlsOf(r.trace, ServiceInfo) == UrlsOf(st.trace, ServiceInfo) + ServiceUrls(svcs)
        && UrlsOf(r.trace, CreateReplica) == UrlsOf(st.trace, CreateReplica) + MatchedUrls(ctx.servicesRoot, entry, svcs)
    decreases |svcs|
  {
    if svcs != [] {
      var init := svcs[..|svcs| - 1];
      var last := svcs[|svcs| - 1];
      var prev := ServicesFold(ctx, entry, start, init, st, clock);
      if prev.status == Running {
        FoldSends(ctx, entry, start, init, st, clock);
        var r := ServiceStep(ctx, entry, start, last, prev, clock);
        StepSends(ctx, entry, start, last, prev, clock);
        ExtendUrls(UrlsOf(st.trace, ServiceInfo), UrlsOf(prev.trace, ServiceInfo), UrlsOf(r.trace, ServiceInfo),
                   ServiceUrls(init), [last.url]);
        ExtendUrls(UrlsOf(st.trace, CreateReplica), UrlsOf(prev.trace, CreateReplica), UrlsOf(r.trace, CreateReplica),
                   MatchedUrls(ctx.servicesRoot, entry, init),
                   if Matches(entry, last) then [ReplicaUrl(ctx.servicesRoot, last.name)] else []);
      }
    }
  }

  /** A catalog loop that leaves the script running has asked, row after row,
      for a replica of exactly the services matching each row. */
  lemma {:induction false} CatalogSends(ctx: Ctx, catalog: seq<CatalogEntry>, svcs: seq<Service>,
                                        st: St, clock: nat -> Instant)
    requires st.status == Running && LogReady(ctx, st.files)
    requires CatalogFold(ctx, catalog, svcs, st, clock).status == Running
    ensures UrlsOf(CatalogFold(ctx, catalog, svcs, st, clock).trace, CreateReplica)
      == UrlsOf(st.trace, CreateReplica) + CatalogUrls(ctx.servicesRoot, catalog, svcs)
    decreases |catalog|
  {
    if catalog != [] {
      var init := catalog[..|catalog| - 1];
      var entry := catalog[|catalog| - 1];
      var prev := CatalogFold(ctx, init, svcs, st, clock);
      CatalogFoldLast(ctx, catalog, svcs, st, clock);
      assert prev.status == Running;
      CatalogSends(ctx, init, svcs, st, clock);
      var next := prev.(tick := prev.tick + 1);
      var r := ServicesFold(ctx, entry, clock(prev.tick), svcs, next, clock);
      assert CatalogFold(ctx, catalog, svcs, st, clock) == r;
      FoldSends(ctx, entry, clock(prev.tick), svcs, next, clock);
      assert CatalogUrls(ctx.servicesRoot, catalog, svcs)
        == CatalogUrls(ctx.servicesRoot, init, svcs) + MatchedUrls(ctx.servicesRoot, entry, svcs);
      ExtendUrls(UrlsOf(st.trace, CreateReplica), UrlsOf(next.trace, CreateReplica), UrlsOf(r.trace, CreateReplica),
                 CatalogUrls(ctx.servicesRoot, init, svcs), MatchedUrls(ctx.servicesRoot, entry, svcs));
    }
  }

  /** A catalog row that no service matches (every metadata request answered)
      only sends the metadata requests: no createReplica, no file written, no
      log line, and `data` stays as it was. */
  lemma {:induction false} UnmatchedEntry(ctx: Ctx, entry: CatalogEntry, start: Instant, svcs: seq<Service>,
                                          st: St, clock: nat -> Instant)
    requires st.status == Running && LogReady(ctx, st.files)
    requires forall i :: 0 <= i < |svcs| ==> svcs[i].metadata.Some? && !Matches(entry, svcs[i])
    ensures var r := ServicesFold(ctx, entry, start, svcs, st, clock);
      && r == st.(trace := r.trace)
      && |r.trace| == |st.trace| + |svcs|
      && r.trace[..|st.trace|] == st.trace
      && forall i :: 0 <= i < |svcs| ==> r.trace[|st.trace| + i] == Request(ServiceInfo, svcs[i].url, Some(st.data))
    decreases |svcs|
  {
    if svcs != [] {
      var init := svcs[..|svcs| - 1];
      UnmatchedEntry(ctx, entry, start, init, st, clock);
    }
  }

  /** A createReplica request that raises skips the service: the script goes
      on with the next service and only `data` and the requests have changed. */
  lemma SubmitRaisedSkips(ctx: Ctx, entry: CatalogEntry, start: Instant, svc: Service, st: St, clock: nat -> Instant)
    requires st.status == Running && LogReady(ctx, st.files)
    requires Matches(entry, svc) && svc.submission == SubmitRaised
    ensures var r := ServiceStep(ctx, entry, start, svc, st, clock);
      && r.status == Running
      && r.files == st.files && r.records == st.records && r.tick == st.tick
      && r.trace == st.trace + [Request(ServiceInfo, svc.url, Some(st.data)),
                                Request(CreateReplica, ReplicaUrl(ctx.servicesRoot, svc.name), Some(r.data))]
  {
  }

  /** Every other failure of a visited service is an uncaught exception that
      ends the run: a metadata request that raises or lacks `serviceItemId`, a
      submission without `statusUrl`, a status request that raises, a
      completed job without `resultUrl`, a download that cannot be opened. */
  lemma OtherFailuresAbort(ctx: Ctx, entry: CatalogEntry, start: Instant, svc: Service, st: St, clock: nat -> Instant)
    requires LogReady(ctx, st.files)
    requires || svc.metadata.None?
             || (Matches(entry, svc) && svc.submission == Submitted(None))
             || (Matches(entry, svc) && svc.submission.Submitted? && svc.submission.statusUrl.Some?
                 && (Verdict(svc.statuses) == Raised || Verdict(svc.statuses) == Done(None)
                     || (Verdict(svc.statuses).Done? && Verdict(svc.statuses).resultUrl.Some? && svc.result == OpenRaised)))
    ensures var r := ServiceStep(ctx, entry, start, svc, st, clock);
      r.status == Aborted && r.files == st.files && r.records == st.records
  {
  }

  /** When the first "Completed" status reply is the k-th (counting from 0)
      and every earlier one was answered, the job is polled exactly k + 1
      times, always at its status URL with the token. */
  lemma PollRequests(ctx: Ctx, entry: CatalogEntry, start: Instant, svc: Service, st: St, clock: nat -> Instant,
                     statusUrl: string, k: nat)
    requires LogReady(ctx, st.files)
    requires Matches(entry, svc) && svc.submission == Submitted(Some(statusUrl))
    requires k < |svc.statuses| && IsCompleted(svc.statuses[k])
    requires forall j :: 0 <= j < k ==> svc.statuses[j].StatusBody? && !IsCompleted(svc.statuses[j])
    ensures var r := ServiceStep(ctx, entry, start, svc, st, clock);
      && |UrlsOf(r.trace, JobStatus)| == |UrlsOf(st.trace, JobStatus)| + k + 1
      && forall i :: |UrlsOf(st.trace, JobStatus)| <= i < |UrlsOf(r.trace, JobStatus)| ==>
           UrlsOf(r.trace, JobStatus)[i] == StatusQuery(statusUrl, ctx.token)
  {
    CompletedAt(svc.statuses, k);
    StepTrace(ctx, entry, start, svc, st, clock);
    var poll := Request(JobStatus, StatusQuery(statusUrl, ctx.token), None);
    SentPolls(ctx, entry, svc, st.data, statusUrl);
    UrlsOfAppend(st.trace, Sent(ctx, entry, svc, st.data), JobStatus);
    UrlsOfRepeat(poll, k + 1, JobStatus);
  }

  /** The status requests of a visit are the polls of its job. */
  lemma SentPolls(ctx: Ctx, entry: CatalogEntry, svc: Service, data: Form, statusUrl: string)
    requires Matches(entry, svc) && svc.submission == Submitted(Some(statusUrl))
    ensures UrlsOf(Sent(ctx, entry, svc, data), JobStatus)
      == UrlsOf(Repeat(Request(JobStatus, StatusQuery(statusUrl, ctx.token), None), PollCount(svc.statuses)), JobStatus)
  {
    var ps := PollSent(ctx, svc);
    PollSentPolls(ctx, svc, statusUrl);
    var info := Request(ServiceInfo, svc.url, Some(data));
    var sub := Request(CreateReplica, ReplicaUrl(ctx.servicesRoot, svc.name),
                       Some(ReplicaForm(svc.name, svc.metadata.value.layerIds, ctx.token)));
    assert Sent(ctx, entry, svc, data) == [info, sub] + ps;
    assert Silent([info, sub], JobStatus);
    UrlsOfAppend([info, sub], ps, JobStatus);
    UrlsOfSilent([info, sub], JobStatus);
  }

  /** The status requests of a submitted job are its polls. */
  lemma PollSentPolls(ctx: Ctx, svc: Service, statusUrl: string)
    requires svc.submission == Submitted(Some(statusUrl))
    ensures UrlsOf(PollSent(ctx, svc), JobStatus)
      == UrlsOf(Repeat(Request(JobStatus, StatusQuery(statusUrl, ctx.token), None), PollCount(svc.statuses)), JobStatus)
  {
    var ps := PollSent(ctx, svc);
    var polls := Repeat(Request(JobStatus, StatusQuery(statusUrl, ctx.token), None), PollCount(svc.statuses));
    PollSentShape(ctx, svc, statusUrl);
    var tail := ps[|polls|..];
    assert Silent(tail, JobStatus);
    UrlsOfAppend(polls, tail, JobStatus);
    UrlsOfSilent(tail, JobStatus);
  }

  /** When no supplied status reply completes the job, the script is stuck polling. */
  lemma PollsForever(ctx: Ctx, entry: CatalogEntry, start: Instant, svc: Service, st: St, clock: nat -> Instant)
    requires LogReady(ctx, st.files)
    requires Matches(entry, svc) && svc.submission.Submitted? && svc.submission.statusUrl.Some?
    requires forall j :: 0 <= j < |svc.statuses| ==> Pending(svc.statuses[j])
    ensures ServiceStep(ctx, entry, start, svc, st, clock).status == Hung
  {
    NeverCompleted(svc.statuses);
  }

  /** The service id of a row and the name under which it is archived are all
      a visit depends on: the row's `Layers` and `Tables` are read but unused. */
  lemma {:induction false} LayersAndTablesUnused(ctx: Ctx, e1: CatalogEntry, e2: CatalogEntry, start: Instant,
                                                 svcs: seq<Service>, st: St, clock: nat -> Instant)
    requires st.status == Running && LogReady(ctx, st.files)
    requires e1.serviceId == e2.serviceId && e1.serviceName == e2.serviceName
    ensures ServicesFold(ctx, e1, start, svcs, st, clock) == ServicesFold(ctx, e2, start, svcs, st, clock)
    decreases |svcs|
  {
    if svcs != [] {
      LayersAndTablesUnused(ctx, e1, e2, start, svcs[..|svcs| - 1], st, clock);
    }
  }

  /** The conditions under which a matched service reaches the archive file:
      its job completes with a result URL that opens, and the archive path can
      be written. */
  predicate Fetches(ctx: Ctx, entry: CatalogEntry, svc: Service)
  {
    && Matches(entry, svc)
    && svc.submission.Submitted? && svc.submission.statusUrl.Some?
    && Verdict(svc.statuses).Done? && Verdict(svc.statuses).resultUrl.Some?
    && !svc.result.OpenRaised?
    && ArchivePath(ctx, entry.serviceName) !in ctx.dirs
    && Parent(ArchivePath(ctx, entry.serviceName)) in ctx.dirs
  }

  /** The conditions under which a matched service is downloaded and logged. */
  predicate Downloads(ctx: Ctx, entry: CatalogEntry, svc: Service)
  {
    Fetches(ctx, entry, svc) && svc.result.Body?
  }

  /** A successful download replaces whatever was at the archive path by the
      downloaded bytes, appends one log line whose URL is the result URL with
      the token, records the row's start and the next clock reading, and
      changes no other path. */
  lemma SuccessfulDownload(ctx: Ctx, entry: CatalogEntry, start: Instant, svc: Service, st: St, clock: nat -> Instant)
    requires st.status == Running && LogReady(ctx, st.files)
    requires Downloads(ctx, entry, svc)
    ensures var r := ServiceStep(ctx, entry, start, svc, st, clock);
      var p := ArchivePath(ctx, entry.serviceName);
      var rec := ArchiveRecord(entry.serviceName, start, clock(st.tick),
                               Verdict(svc.statuses).resultUrl.value + "?token=" + ctx.token);
      && r.status == Running
      && p in r.files && r.files[p] == Binary(svc.result.bytes)
      && r.files[LogPath(ctx)] == Text(st.files[LogPath(ctx)].text + LogLine(rec))
      && r.records == st.records + [rec] && r.tick == st.tick + 1
      && r.files.Keys == st.files.Keys + {p}
      && (forall q :: q in st.files && q != p && q != LogPath(ctx) ==> r.files[q] == st.files[q])
  {
    ArchiveIsNotLog(ctx, entry.serviceName);
  }

  /** A download whose body cannot be read ends the run after the archive
      file was opened for writing: whatever was at the archive path is
      replaced by an empty file, the log is unchanged and no download is
      recorded. */
  lemma ReadFailureEmptiesArchive(ctx: Ctx, entry: CatalogEntry, start: Instant, svc: Service, st: St,
                                  clock: nat -> Instant)
    requires st.status == Running && LogReady(ctx, st.files)
    requires Fetches(ctx, entry, svc) && svc.result == ReadRaised
    ensures var r := ServiceStep(ctx, entry, start, svc, st, clock);
      var p := ArchivePath(ctx, entry.serviceName);
      && r.status == Aborted
      && p in r.files && r.files[p] == Binary([])
      && r.files.Keys == st.files.Keys + {p}
      && (forall q :: q in st.files && q != p ==> r.files[q] == st.files[q])
      && r.records == st.records && r.tick == st.tick
  {
    ArchiveIsNotLog(ctx, entry.serviceName);
  }

  /** Two downloads under the same service name, one after the other (from
      one catalog row, or from two rows sharing a `ServiceName`), leave one
      archive file holding the second download. */
  lemma SameNameTwice(ctx: Ctx, e1: CatalogEntry, e2: CatalogEntry, t1: Instant, t2: Instant,
                      s1: Service, s2: Service, st: St, clock: nat -> Instant)
    requires st.status == Running && LogReady(ctx, st.files)
    requires e1.serviceName == e2.serviceName
    requires Downloads(ctx, e1, s1) && Downloads(ctx, e2, s2)
    ensures var mid := ServiceStep(ctx, e1, t1, s1, st, clock);
      var r := ServiceStep(ctx, e2, t2, s2, mid, clock);
      var p := ArchivePath(ctx, e1.serviceName);
      && r.status == Running
      && r.files[p] == Binary(s2.result.bytes)
      && r.files.Keys == st.files.Keys + {p}
      && |r.records| == |st.records| + 2
  {
    SuccessfulDownload(ctx, e1, t1, s1, st, clock);
    var mid := ServiceStep(ctx, e1, t1, s1, st, clock);
    SuccessfulDownload(ctx, e2, t2, s2, mid, clock);
  }

  /** After a service matches, `data` is left bound to that service's replica
      parameters, so the next service's metadata request is sent with them. */
  lemma DataRebound(ctx: Ctx, entry: CatalogEntry, start: Instant, s1: Service, s2: Service, st: St,
                    clock: nat -> Instant)
    requires LogReady(ctx, st.files)
    requires Matches(entry, s1)
    ensures var mid := ServiceStep(ctx, entry, start, s1, st, clock);
      var r := ServiceStep(ctx, entry, start, s2, mid, clock);
      && mid.data == ReplicaForm(s1.name, s1.metadata.value.layerIds, ctx.token)
      && |r.trace| > |mid.trace|
      && r.trace[|mid.trace|] == Request(ServiceInfo, s2.url, Some(ReplicaForm(s1.name, s1.metadata.value.layerIds, ctx.token)))
  {
    var mid := ServiceStep(ctx, entry, start, s1, st, clock);
    MatchRebindsData(ctx, entry, start, s1, st, clock);
    StepTrace(ctx, entry, start, s2, mid, clock);
    var sent := Sent(ctx, entry, s2, mid.data);
    assert (mid.trace + sent)[|mid.trace|] == sent[0];
  }

  /** A visit of a matching service leaves `data` bound to its replica parameters, whatever its outcome. */
  lemma MatchRebindsData(ctx: Ctx, entry: CatalogEntry, start: Instant, svc: Service, st: St, clock: nat -> Instant)
    requires LogReady(ctx, st.files)
    requires Matches(entry, svc)
    ensures ServiceStep(ctx, entry, start, svc, st, clock).data == ReplicaForm(svc.name, svc.metadata.value.layerIds, ctx.token)
  {
  }

  /** Whatever `data` holds, it carries `f=json` and the token: the list
      parameters at first, a service's replica parameters after a match. */
  lemma {:induction false} DataCarriesToken(ctx: Ctx, catalog: seq<CatalogEntry>, svcs: seq<Service>,
                                            st: St, clock: nat -> Instant)
    requires st.status == Running && LogReady(ctx, st.files)
    requires CarriesToken(st.data, ctx.token)
    ensures CarriesToken(CatalogFold(ctx, catalog, svcs, st, clock).data, ctx.token)
    decreases |catalog|
  {
    if catalog != [] {
      var init := catalog[..|catalog| - 1];
      DataCarriesToken(ctx, init, svcs, st, clock);
      var prev := CatalogFold(ctx, init, svcs, st, clock);
      if prev.status == Running {
        EntryKeepsToken(ctx, catalog[|catalog| - 1], svcs, prev, clock);
      }
    }
  }

  lemma EntryKeepsToken(ctx: Ctx, entry: CatalogEntry, svcs: seq<Service>, st: St, clock: nat -> Instant)
    requires st.status == Running && LogReady(ctx, st.files)
    requires CarriesToken(st.data, ctx.token)
    ensures CarriesToken(EntryStep(ctx, entry, svcs, st, clock).data, ctx.token)
  {
    ServicesKeepToken(ctx, entry, clock(st.tick), svcs, st.(tick := st.tick + 1), clock);
  }

  lemma {:induction false} ServicesKeepToken(ctx: Ctx, entry: CatalogEntry, start: Instant, svcs: seq<Service>,
                                             st: St, clock: nat -> Instant)
    requires st.status == Running && LogReady(ctx, st.files)
    requires CarriesToken(st.data, ctx.token)
    ensures CarriesToken(ServicesFold(ctx, entry, start, svcs, st, clock).data, ctx.token)
    decreases |svcs|
  {
    if svcs != [] {
      var init := svcs[..|svcs| - 1];
      ServicesKeepToken(ctx, entry, start, init, st, clock);
      var last := svcs[|svcs| - 1];
      if last.metadata.Some? {
        FormsCarryToken(last.name, last.metadata.value.layerIds, ctx.token);
      }
    }
  }

  /** The log holds its first text followed by one line per download, in order. */
  predicate Journal(ctx: Ctx, head: string, st: St)
  {
    LogReady(ctx, st.files) && st.files[LogPath(ctx)].text == head + LogText(st.records)
  }

  /** A visit that does not download leaves the log and the downloads as they were. */
  lemma NoDownloadKeepsLog(ctx: Ctx, entry: CatalogEntry, start: Instant, svc: Service, st: St, clock: nat -> Instant)
    requires LogReady(ctx, st.files)
    requires !Downloads(ctx, entry, svc)
    ensures var r := ServiceStep(ctx, entry, start, svc, st, clock);
      r.records == st.records && r.files[LogPath(ctx)] == st.files[LogPath(ctx)]
  {
    ArchiveIsNotLog(ctx, entry.serviceName);
  }

  /** One more line after a log that holds its first text and a line per record. */
  lemma JournalExtend(head: string, before: string, records: seq<ArchiveRecord>, rec: ArchiveRecord, after: string)
    requires before == head + LogText(records) && after == before + LogLine(rec)
    ensures after == head + LogText(records + [rec])
  {
    LogTextSnoc(records, rec);
  }

  lemma StepJournal(ctx: Ctx, entry: CatalogEntry, start: Instant, svc: Service, head: string, st: St,
                    clock: nat -> Instant)
    requires st.status == Running && Journal(ctx, head, st)
    ensures Journal(ctx, head, ServiceStep(ctx, entry, start, svc, st, clock))
  {
    var r := ServiceStep(ctx, entry, start, svc, st, clock);
    if Downloads(ctx, entry, svc) {
      SuccessfulDownload(ctx, entry, start, svc, st, clock);
      var rec := ArchiveRecord(entry.serviceName, start, clock(st.tick),
                               Verdict(svc.statuses).resultUrl.value + "?token=" + ctx.token);
      JournalExtend(head, st.files[LogPath(ctx)].text, st.records, rec, r.files[LogPath(ctx)].text);
    } else {
      NoDownloadKeepsLog(ctx, entry, start, svc, st, clock);
    }
  }

  /** The log of a run that walked the catalog is its first text followed by
      one line per completed download, in the order of the downloads. */
  lemma {:induction false} CatalogJournal(ctx: Ctx, catalog: seq<CatalogEntry>, svcs: seq<Service>, head: string,
                                          st: St, clock: nat -> Instant)
    requires st.status == Running && Journal(ctx, head, st)
    ensures Journal(ctx, head, CatalogFold(ctx, catalog, svcs, st, clock))
    decreases |catalog|
  {
    if catalog != [] {
      var init := catalog[..|catalog| - 1];
      CatalogJournal(ctx, init, svcs, head, st, clock);
      var prev := CatalogFold(ctx, init, svcs, st, clock);
      if prev.status == Running {
        EntryJournal(ctx, catalog[|catalog| - 1], svcs, head, prev, clock);
      }
    }
  }

  lemma EntryJournal(ctx: Ctx, entry: CatalogEntry, svcs: seq<Service>, head: string, st: St, clock: nat -> Instant)
    requires st.status == Running && Journal(ctx, head, st)
    ensures Journal(ctx, head, EntryStep(ctx, entry, svcs, st, clock))
  {
    ServicesJournal(ctx, entry, clock(st.tick), svcs, head, st.(tick := st.tick + 1), clock);
  }

  lemma {:induction false} ServicesJournal(ctx: Ctx, entry: CatalogEntry, start: Instant, svcs: seq<Service>, head: string,
                                           st: St, clock: nat -> Instant)
    requires st.status == Running && Journal(ctx, head, st)
    ensures Journal(ctx, head, ServicesFold(ctx, entry, start, svcs, st, clock))
    decreases |svcs|
  {
    if svcs != [] {
      var init := svcs[..|svcs| - 1];
      ServicesJournal(ctx, entry, start, init, head, st, clock);
      var prev := ServicesFold(ctx, entry, start, init, st, clock);
      if prev.status == Running {
        StepJournal(ctx, entry, start, svcs[|svcs| - 1], head, prev, clock);
      }
    }
  }

  /** A run whose log starts as the header line ends with the header followed
      by one line per completed download; when no field of a download holds
      a line break, the log has exactly one line per download below the
      one-line header. */
  lemma RunLog(ctx: Ctx, catalog: seq<CatalogEntry>, svcs: seq<Service>, st: St, clock: nat -> Instant)
    requires st.status == Running && LogReady(ctx, st.files)
    requires st.files[LogPath(ctx)].text == Header && st.records == []
    ensures var r := CatalogFold(ctx, catalog, svcs, st, clock);
      && r.files[LogPath(ctx)].text == Header + LogText(r.records)
      && ((forall i :: 0 <= i < |r.records| ==> SingleLine(r.records[i])) ==>
            && Newlines(LogText(r.records)) == |r.records|
            && Newlines(r.files[LogPath(ctx)].text) == |r.records| + 1)
  {
    assert Journal(ctx, Header, st);
    CatalogJournal(ctx, catalog, svcs, Header, st, clock);
    var r := CatalogFold(ctx, catalog, svcs, st, clock);
    if forall i :: 0 <= i < |r.records| ==> SingleLine(r.records[i]) {
      LedgerLines(r.records);
      HeaderThenLines(r.records);
    }
  }
}
