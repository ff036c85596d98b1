/** What the script's main loops do, as functions of the state before them:
    for each catalog row, walk the whole services directory, and for every
    service whose `serviceItemId` is the row's `ServiceId` submit a replica
    job, poll it, download the result over the archive file and append a log
    line. The imperative script in module Backup is proved to compute exactly
    these functions; the lemmas here state what they promise. */
module Workflow {
  import opened Files
  import opened Rest
  import opened Poll
  import opened Ledger

  /** What stays fixed while the catalog is processed: the token, the
      services root URL, the run timestamp `_datetime`, the run directory and
      the directories that exist (no step creates or removes one). */
  datatype Ctx = Ctx(token: string, servicesRoot: string, stamp: string, archiveDir: Path, dirs: set<Path>)

  function LogPath(ctx: Ctx): Path
  {
    Join(ctx.archiveDir, LogName(ctx.stamp))
  }

  /** `archive_dir + "\\" + serviceName + "__" + _datetime + ".zip"`. */
  function ArchivePath(ctx: Ctx, serviceName: string): Path
  {
    Join(ctx.archiveDir, serviceName + "__" + ctx.stamp + ".zip")
  }

  /** Running, or ended by an uncaught exception, or stuck polling for ever. */
  datatype Status = Running | Aborted | Hung

  /** The script's state between steps: the files, the requests issued so far,
      the dict bound to `data`, the number of clock readings taken, the
      downloads completed so far and the status. */
  datatype St = St(
    files: map<Path, Data>,
    trace: seq<Request>,
    data: Form,
    tick: nat,
    records: seq<ArchiveRecord>,
    status: Status)

  /** The log file exists and holds text. */
  predicate LogReady(ctx: Ctx, files: map<Path, Data>)
  {
    LogPath(ctx) in files && files[LogPath(ctx)].Text?
  }

  /** The service's metadata names the catalog row's service id. */
  predicate Matches(entry: CatalogEntry, svc: Service)
  {
    svc.metadata.Some? && svc.metadata.value.serviceItemId == entry.serviceId
  }

  function Repeat(r: Request, n: nat): (rs: seq<Request>)
    ensures |rs| == n && forall i :: 0 <= i < n ==> rs[i] == r
  {
    seq(n, _ => r)
  }

  /** The log path: the run directory, a separator, then `log_<stamp>.txt`. */
  lemma LogPathShape(ctx: Ctx)
    ensures var p := LogPath(ctx);
      && |p| == |ctx.archiveDir| + |ctx.stamp| + 9
      && p[..|ctx.archiveDir| + 1] == ctx.archiveDir + [Sep]
      && p[|ctx.archiveDir| + 1..|p| - 4] == "log_" + ctx.stamp
      && p[|p| - 4..] == ".txt"
  {
  }

  /** The archive path: the run directory, a separator, the service name, then `__<stamp>.zip`. */
  lemma ArchivePathShape(ctx: Ctx, serviceName: string)
    ensures var p := ArchivePath(ctx, serviceName);
      && |p| == |ctx.archiveDir| + |serviceName| + |ctx.stamp| + 7
      && p[..|ctx.archiveDir| + 1] == ctx.archiveDir + [Sep]
      && p[|ctx.archiveDir| + 1..|ctx.archiveDir| + 1 + |serviceName|] == serviceName
      && p[|ctx.archiveDir| + 1 + |serviceName|..] == "__" + ctx.stamp + ".zip"
  {
  }

  /** Distinct service names are archived at distinct paths. */
  lemma ArchivePathDistinct(ctx: Ctx, a: string, b: string)
    requires a != b
    ensures ArchivePath(ctx, a) != ArchivePath(ctx, b)
  {
    ArchivePathShape(ctx, a);
    ArchivePathShape(ctx, b);
  }

  /** An archive file is never the log file: one ends in ".zip", the other in ".txt". */
  lemma ArchiveIsNotLog(ctx: Ctx, serviceName: string)
    ensures ArchivePath(ctx, serviceName) != LogPath(ctx)
  {
    var a := ArchivePath(ctx, serviceName);
    var l := LogPath(ctx);
    assert a[|a| - 1] == 'p';
    assert l[|l| - 1] == 't';
  }

  /** Writing the downloaded bytes (lines 187-193) and the log line (line 203).
      `payload` is None when reading the opened download raises: the archive
      file has then been created empty by `open(p, "wb")`. */
  function Store(ctx: Ctx, entry: CatalogEntry, start: Instant, url: string, payload: Option<seq<byte>>,
                 st: St, clock: nat -> Instant): (r: St)
    requires LogReady(ctx, st.files)
    ensures LogReady(ctx, r.files)
  {
    var p := ArchivePath(ctx, entry.serviceName);
    ArchiveIsNotLog(ctx, entry.serviceName);
    if p in ctx.dirs then
      // os.path.exists holds and os.remove raises on a directory
      st.(status := Aborted)
    else
      var cleared := st.files - {p};
      if Parent(p) !in ctx.dirs then
        // open(p, "wb") raises
        st.(files := cleared, status := Aborted)
      else
        match payload
        case None =>
          // f.read() raises inside the "wb" block
          st.(files := cleared[p := Binary([])], status := Aborted)
        case Some(bytes) =>
          var end := clock(st.tick);
          var rec := ArchiveRecord(entry.serviceName, start, end, url);
          var written := cleared[p := Binary(bytes)];
          st.(files := Appended(written, LogPath(ctx), LogLine(rec)),
              tick := st.tick + 1,
              records := st.records + [rec])
  }

  /** A store whose archive path can be written: the archive replaced, one
      log line appended, one clock reading taken. */
  lemma StoreWrites(ctx: Ctx, entry: CatalogEntry, start: Instant, url: string, payload: seq<byte>,
                    st: St, clock: nat -> Instant)
    requires LogReady(ctx, st.files)
    requires ArchivePath(ctx, entry.serviceName) !in ctx.dirs && Parent(ArchivePath(ctx, entry.serviceName)) in ctx.dirs
    ensures var p := ArchivePath(ctx, entry.serviceName);
      var rec := ArchiveRecord(entry.serviceName, start, clock(st.tick), url);
      Store(ctx, entry, start, url, Some(payload), st, clock)
        == st.(files := Appended((st.files - {p})[p := Binary(payload)], LogPath(ctx), LogLine(rec)),
               tick := st.tick + 1, records := st.records + [rec])
  {
  }

  /** The replica workflow for a matched service (lines 143-203). */
  function Replicate(ctx: Ctx, entry: CatalogEntry, start: Instant, svc: Service, layerIds: seq<int>,
                     st: St, clock: nat -> Instant): (r: St)
    requires LogReady(ctx, st.files)
    ensures LogReady(ctx, r.files)
  {
    var form := ReplicaForm(svc.name, layerIds, ctx.token);
    var submitted := st.(data := form,
      trace := st.trace + [Request(CreateReplica, ReplicaUrl(ctx.servicesRoot, svc.name), Some(form))]);
    match svc.submission
    case SubmitRaised => submitted
    case Submitted(None) => submitted.(status := Aborted)
    case Submitted(Some(statusUrl)) =>
      var poll := Request(JobStatus, StatusQuery(statusUrl, ctx.token), None);
      var polled := submitted.(trace := submitted.trace + Repeat(poll, PollCount(svc.statuses)));
      match Verdict(svc.statuses)
      case Forever => polled.(status := Hung)
      case Raised => polled.(status := Aborted)
      case Done(None) => polled.(status := Aborted)
      case Done(Some(resultUrl)) =>
        var url := ResultQuery(resultUrl, ctx.token);
        var fetched := polled.(trace := polled.trace + [Request(FetchResult, url, None)]);
        match svc.result
        case OpenRaised => fetched.(status := Aborted)
        case ReadRaised => Store(ctx, entry, start, url, None, fetched, clock)
        case Body(bytes) => Store(ctx, entry, start, url, Some(bytes), fetched, clock)
  }

  /** One iteration of the services loop (lines 132-204). */
  function ServiceStep(ctx: Ctx, entry: CatalogEntry, start: Instant, svc: Service,
                       st: St, clock: nat -> Instant): (r: St)
    requires LogReady(ctx, st.files)
    ensures LogReady(ctx, r.files)
  {
    var asked := st.(trace := st.trace + [Request(ServiceInfo, svc.url, Some(st.data))]);
    match svc.metadata
    case None => asked.(status := Aborted)
    case Some(m) =>
      if m.serviceItemId != entry.serviceId then asked
      else Replicate(ctx, entry, start, svc, m.layerIds, asked, clock)
  }

  /** The services loop over `svcs`, stopping at the first step that does not
      leave the script running. */
  function ServicesFold(ctx: Ctx, entry: CatalogEntry, start: Instant, svcs: seq<Service>,
                        st: St, clock: nat -> Instant): (r: St)
    requires st.status == Running && LogReady(ctx, st.files)
    ensures LogReady(ctx, r.files)
    decreases |svcs|
  {
    if svcs == [] then st
    else
      var prev := ServicesFold(ctx, entry, start, svcs[..|svcs| - 1], st, clock);
      if prev.status != Running then prev
      else ServiceStep(ctx, entry, start, svcs[|svcs| - 1], prev, clock)
  }

  /** One iteration of the catalog loop: read the start time, then walk the services. */
  function EntryStep(ctx: Ctx, entry: CatalogEntry, svcs: seq<Service>, st: St, clock: nat -> Instant): (r: St)
    requires st.status == Running && LogReady(ctx, st.files)
    ensures LogReady(ctx, r.files)
  {
    ServicesFold(ctx, entry, clock(st.tick), svcs, st.(tick := st.tick + 1), clock)
  }

  /** The catalog loop over `catalog`. */
  function CatalogFold(ctx: Ctx, catalog: seq<CatalogEntry>, svcs: seq<Service>, st: St, clock: nat -> Instant): (r: St)
    requires st.status == Running && LogReady(ctx, st.files)
    ensures LogReady(ctx, r.files)
    decreases |catalog|
  {
    if catalog == [] then st
    else
      var prev := CatalogFold(ctx, catalog[..|catalog| - 1], svcs, st, clock);
      if prev.status != Running then prev
      else EntryStep(ctx, catalog[|catalog| - 1], svcs, prev, clock)
  }

  /** The services loop over one more service: the step for that service,
      taken when the script is still running. */
  lemma ServicesFoldNext(ctx: Ctx, entry: CatalogEntry, start: Instant, svcs: seq<Service>, i: nat,
                         st: St, clock: nat -> Instant)
    requires st.status == Running && LogReady(ctx, st.files) && i < |svcs|
    requires ServicesFold(ctx, entry, start, svcs[..i], st, clock).status == Running
    ensures ServicesFold(ctx, entry, start, svcs[..i + 1], st, clock)
      == ServiceStep(ctx, entry, start, svcs[i], ServicesFold(ctx, entry, start, svcs[..i], st, clock), clock)
  {
    assert svcs[..i + 1][..i] == svcs[..i];
  }

  /** The catalog loop over one more row: that row's step, taken when the
      script is still running. */
  lemma CatalogFoldNext(ctx: Ctx, catalog: seq<CatalogEntry>, svcs: seq<Service>, i: nat,
                        st: St, clock: nat -> Instant)
    requires st.status == Running && LogReady(ctx, st.files) && i < |catalog|
    requires CatalogFold(ctx, catalog[..i], svcs, st, clock).status == Running
    ensures CatalogFold(ctx, catalog[..i + 1], svcs, st, clock)
      == EntryStep(ctx, catalog[i], svcs, CatalogFold(ctx, catalog[..i], svcs, st, clock), clock)
  {
    assert catalog[..i + 1][..i] == catalog[..i];
  }

  /** The catalog loop over a non-empty catalog: the loop over all rows but
      the last, then the last row unless the script has stopped. */
  lemma CatalogFoldLast(ctx: Ctx, catalog: seq<CatalogEntry>, svcs: seq<Service>, st: St, clock: nat -> Instant)
    requires st.status == Running && LogReady(ctx, st.files) && catalog != []
    ensures var prev := CatalogFold(ctx, catalog[..|catalog| - 1], svcs, st, clock);
      && (prev.status != Running ==> CatalogFold(ctx, catalog, svcs, st, clock) == prev)
      && (prev.status == Running ==>
            CatalogFold(ctx, catalog, svcs, st, clock)
              == ServicesFold(ctx, catalog[|catalog| - 1], clock(prev.tick), svcs, prev.(tick := prev.tick + 1), clock))
  {
  }

  /** Once a step stops the script, the rest of the services are not visited. */
  lemma {:induction false} ServicesFoldStops(ctx: Ctx, entry: CatalogEntry, start: Instant, svcs: seq<Service>, i: nat,
                                              st: St, clock: nat -> Instant)
    requires st.status == Running && LogReady(ctx, st.files)
    requires i <= |svcs|
    requires i == |svcs| || ServicesFold(ctx, entry, start, svcs[..i], st, clock).status != Running
    ensures ServicesFold(ctx, entry, start, svcs, st, clock) == ServicesFold(ctx, entry, start, svcs[..i], st, clock)
    decreases |svcs| - i
  {
    if i < |svcs| {
      var init := svcs[..|svcs| - 1];
      assert init[..i] == svcs[..i];
      ServicesFoldStops(ctx, entry, start, init, i, st, clock);
    } else {
      assert svcs[..i] == svcs;
    }
  }

  /** Once a catalog row stops the script, the remaining rows are not visited. */
  lemma {:induction false} CatalogFoldStops(ctx: Ctx, catalog: seq<CatalogEntry>, svcs: seq<Service>, i: nat,
                                             st: St, clock: nat -> Instant)
    requires st.status == Running && LogReady(ctx, st.files)
    requires i <= |catalog|
    requires i == |catalog| || CatalogFold(ctx, catalog[..i], svcs, st, clock).status != Running
    ensures CatalogFold(ctx, catalog, svcs, st, clock) == CatalogFold(ctx, catalog[..i], svcs, st, clock)
    decreases |catalog| - i
  {
    if i < |catalog| {
      var init := catalog[..|catalog| - 1];
      assert init[..i] == catalog[..i];
      CatalogFoldStops(ctx, init, svcs, i, st, clock);
    } else {
      assert catalog[..i] == catalog;
    }
  }

  /** The log lies directly in the run directory. */
  lemma LogPathParent(ctx: Ctx)
    requires Sep !in ctx.stamp
    ensures Parent(LogPath(ctx)) == ctx.archiveDir
    ensures Sep in LogPath(ctx) && LogPath(ctx) != ctx.archiveDir
  {
    var name := LogName(ctx.stamp);
    assert name == "log_" + ctx.stamp + ".txt";
    assert forall i :: 0 <= i < |name| ==> name[i] != Sep by {
      forall i | 0 <= i < |name|
        ensures name[i] != Sep
      {
        if i < 4 {
          assert name[i] == "log_"[i];
        } else if i < 4 + |ctx.stamp| {
          assert name[i] == ctx.stamp[i - 4];
        } else {
          assert name[i] == ".txt"[i - 4 - |ctx.stamp|];
        }
      }
    }
    ParentOfJoin(ctx.archiveDir, name);
    assert LogPath(ctx)[|ctx.archiveDir|] == Sep;
  }
}
