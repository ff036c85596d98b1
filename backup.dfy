/** The script itself, step by step: the token request, the services listing,
    the run directory, the log header, then the catalog and services loops
    that change the filesystem and the script's variables in place. Each
    method is proved to compute the matching function of module Workflow. */
module Backup {
  import opened Files
  import opened Rest
  import opened Poll
  import opened Ledger
  import opened Workflow
  import opened ArchiveDir

  /** How a run ends: `sys.exit()` after a failed token request, an uncaught
      exception, a job polled for ever, or the end of the catalog. */
  datatype Outcome = Exited | Crashed | PollsForever | Finished

  function OutcomeOf(status: Status): Outcome
  {
    match status
    case Running => Finished
    case Aborted => Crashed
    case Hung => PollsForever
  }

  /** The script's variables while it walks the catalog: `data`, the requests
      issued, the clock readings taken and, as a ghost, the downloads logged. */
  class Backup {
    const fs: FileSystem
    const ctx: Ctx
    const clock: nat -> Instant
    var trace: seq<Request>
    var data: Form
    var tick: nat
    ghost var records: seq<ArchiveRecord>

    ghost function State(status: Status): St
      reads this, fs
    {
      St(fs.files, trace, data, tick, records, status)
    }

    ghost predicate Valid()
      reads this, fs
    {
      fs.Valid() && fs.dirs == ctx.dirs && LogReady(ctx, fs.files)
    }

    constructor (fs: FileSystem, ctx: Ctx, clock: nat -> Instant, trace: seq<Request>, data: Form)
      requires fs.Valid() && fs.dirs == ctx.dirs && LogReady(ctx, fs.files)
      ensures Valid()
      ensures this.fs == fs && this.ctx == ctx && this.clock == clock
      ensures this.trace == trace && this.data == data && tick == 0 && records == []
    {
      this.fs := fs;
      this.ctx := ctx;
      this.clock := clock;
      this.trace := trace;
      this.data := data;
      this.tick := 0;
      this.records := [];
    }

    /** Remove any file at the archive path and write the download there;
        false when `os.remove` or `open` raises. */
    method WriteArchive(p: Path, payload: seq<byte>) returns (ok: bool)
      requires Valid() && p != LogPath(ctx)
      modifies fs
      ensures Valid()
      ensures ok <==> p !in ctx.dirs && Parent(p) in ctx.dirs
      ensures fs.files == if p in ctx.dirs then old(fs.files)
                          else if ok then (old(fs.files) - {p})[p := Binary(payload)]
                          else old(fs.files) - {p}
    {
      var found := fs.Exists(p);
      if found {
        var removed := fs.Remove(p);
        if !removed {
          // p is a directory: os.remove raises
          return false;
        }
      }
      ok := fs.WriteBytes(p, payload);
    }

    /** Remove any file at the archive path, write the download there, read
        the clock and append the log line. With no payload, reading the
        download raises once the archive file is open, and so is left empty. */
    method Store(entry: CatalogEntry, start: Instant, url: string, payload: Option<seq<byte>>) returns (status: Status)
      requires Valid()
      modifies this, fs
      ensures Valid()
      ensures State(status) == Workflow.Store(ctx, entry, start, url, payload, old(State(Running)), clock)
    {
      var p := ArchivePath(ctx, entry.serviceName);
      ArchiveIsNotLog(ctx, entry.serviceName);
      var bytes := if payload.Some? then payload.value else [];
      var written := WriteArchive(p, bytes);
      if !written || payload.None? {
        return Aborted;
      }
      StoreWrites(ctx, entry, start, url, bytes, State(Running), clock);
      var rec := ArchiveRecord(entry.serviceName, start, clock(tick), url);
      var logged := fs.AppendText(LogPath(ctx), LogLine(rec));
      assert logged;
      tick, records := tick + 1, records + [rec];
      status := Running;
    }

    /** Submit the replica job, poll it, fetch the result and store it. */
    method Replicate(entry: CatalogEntry, start: Instant, svc: Service, layerIds: seq<int>) returns (status: Status)
      requires Valid()
      modifies this, fs
      ensures Valid()
      ensures State(status) == Workflow.Replicate(ctx, entry, start, svc, layerIds, old(State(Running)), clock)
    {
      data := ReplicaForm(svc.name, layerIds, ctx.token);
      trace := trace + [Request(CreateReplica, ReplicaUrl(ctx.servicesRoot, svc.name), Some(data))];
      if svc.submission.SubmitRaised? {
        // "Skipping feature service."
        return Running;
      }
      if svc.submission.statusUrl.None? {
        return Aborted;
      }
      var url := StatusQuery(svc.submission.statusUrl.value, ctx.token);
      var verdict, polls := PollJob(svc.statuses);
      trace := trace + Repeat(Request(JobStatus, url, None), polls);
      if verdict.Forever? {
        return Hung;
      }
      if verdict.Raised? || verdict.resultUrl.None? {
        return Aborted;
      }
      url := ResultQuery(verdict.resultUrl.value, ctx.token);
      trace := trace + [Request(FetchResult, url, None)];
      if svc.result.OpenRaised? {
        return Aborted;
      }
      status := Store(entry, start, url, if svc.result.Body? then Some(svc.result.bytes) else None);
    }

    /** Ask the service for its metadata with the current `data`, and run the
        replica workflow when its item id is the catalog row's service id. */
    method VisitService(entry: CatalogEntry, start: Instant, svc: Service) returns (status: Status)
      requires Valid()
      modifies this, fs
      ensures Valid()
      ensures State(status) == ServiceStep(ctx, entry, start, svc, old(State(Running)), clock)
    {
      trace := trace + [Request(ServiceInfo, svc.url, Some(data))];
      if svc.metadata.None? {
        return Aborted;
      }
      if svc.metadata.value.serviceItemId != entry.serviceId {
        return Running;
      }
      status := Replicate(entry, start, svc, svc.metadata.value.layerIds);
    }

    /** The services loop of one catalog row, with the row's start time. */
    method VisitServices(entry: CatalogEntry, start: Instant, svcs: seq<Service>) returns (status: Status)
      requires Valid()
      modifies this, fs
      ensures Valid()
      ensures State(status) == ServicesFold(ctx, entry, start, svcs, old(State(Running)), clock)
    {
      ghost var st0 := State(Running);
      status := Running;
      var i := 0;
      while i < |svcs|
        invariant 0 <= i <= |svcs|
        invariant Valid()
        invariant State(status) == ServicesFold(ctx, entry, start, svcs[..i], st0, clock)
        invariant i < |svcs| ==> status == Running
      {
        ServicesFoldNext(ctx, entry, start, svcs, i, st0, clock);
        status := VisitService(entry, start, svcs[i]);
        i := i + 1;
        if status != Running {
          break;
        }
      }
      assert svcs[..|svcs|] == svcs;
      ServicesFoldStops(ctx, entry, start, svcs, i, st0, clock);
    }

    /** One catalog row: read the start time, then walk every listed service. */
    method VisitEntry(entry: CatalogEntry, svcs: seq<Service>) returns (status: Status)
      requires Valid()
      modifies this, fs
      ensures Valid()
      ensures State(status) == EntryStep(ctx, entry, svcs, old(State(Running)), clock)
    {
      var start := clock(tick);
      tick := tick + 1;
      status := VisitServices(entry, start, svcs);
    }

    /** The catalog loop. */
    method VisitCatalog(catalog: seq<CatalogEntry>, svcs: seq<Service>) returns (status: Status)
      requires Valid()
      modifies this, fs
      ensures Valid()
      ensures State(status) == CatalogFold(ctx, catalog, svcs, old(State(Running)), clock)
    {
      ghost var st0 := State(Running);
      status := Running;
      var i := 0;
      while i < |catalog|
        invariant 0 <= i <= |catalog|
        invariant Valid()
        invariant State(status) == CatalogFold(ctx, catalog[..i], svcs, st0, clock)
        invariant i < |catalog| ==> status == Running
      {
        CatalogFoldNext(ctx, catalog, svcs, i, st0, clock);
        status := VisitEntry(catalog[i], svcs);
        i := i + 1;
        if status != Running {
          break;
        }
      }
      assert catalog[..|catalog|] == catalog;
      CatalogFoldStops(ctx, catalog, svcs, i, st0, clock);
    }
  }

  /** The two requests before the run directory exists. */
  function Preamble(username: string, password: string, token: string, servicesRoot: string): seq<Request>
  {
    [Request(GenerateToken, TokenUrl, Some(TokenForm(username, password))),
     Request(ListServices, servicesRoot, Some(ListForm(token)))]
  }

  /** The whole script, from the token request to the end of the catalog.
      `cwd` is the current directory, `today` the formatted date and `stamp`
      the formatted run timestamp `_datetime`; neither format yields a separator. */
  method Run(fs: FileSystem, username: string, password: string, remote: Remote, servicesRoot: string,
             cwd: Path, today: string, stamp: string, catalog: seq<CatalogEntry>, clock: nat -> Instant)
    returns (outcome: Outcome, trace: seq<Request>, archiveDir: Option<Path>)
    requires fs.Valid() && cwd in fs.dirs && Sep !in today && Sep !in stamp
    modifies fs
    ensures fs.Valid()
    ensures remote.token.None? ==>
      && outcome == Exited && archiveDir == None
      && trace == [Request(GenerateToken, TokenUrl, Some(TokenForm(username, password)))]
      && fs.dirs == old(fs.dirs) && fs.files == old(fs.files)
    ensures remote.token.Some? && remote.listing.None? ==>
      && outcome == Crashed && archiveDir == None
      && trace == Preamble(username, password, remote.token.value, servicesRoot)
      && fs.dirs == old(fs.dirs) && fs.files == old(fs.files)
    ensures remote.token.Some? && remote.listing.Some? ==>
      && archiveDir.Some?
      && FirstFree(cwd, today, old(fs.dirs) + old(fs.files).Keys, archiveDir.value)
      && fs.dirs == old(fs.dirs) + {archiveDir.value}
      && var ctx := Ctx(remote.token.value, servicesRoot, stamp, archiveDir.value, fs.dirs);
         var st0 := St(old(fs.files)[LogPath(ctx) := Text(Header)],
                       Preamble(username, password, remote.token.value, servicesRoot),
                       ListForm(remote.token.value), 0, [], Running);
         var fin := CatalogFold(ctx, catalog, remote.listing.value, st0, clock);
         fs.files == fin.files && trace == fin.trace && outcome == OutcomeOf(fin.status)
  {
    trace := [Request(GenerateToken, TokenUrl, Some(TokenForm(username, password)))];
    if remote.token.None? {
      // "ERROR: Token generation failed." and sys.exit()
      return Exited, trace, None;
    }
    var token := remote.token.value;
    var data := ListForm(token);
    trace := trace + [Request(ListServices, servicesRoot, Some(data))];
    if remote.listing.None? {
      return Crashed, trace, None;
    }
    var services := remote.listing.value;
    var dir := MakeArchiveDir(fs, cwd, today);
    archiveDir := Some(dir);
    var ctx := Ctx(token, servicesRoot, stamp, dir, fs.dirs);
    LogPathParent(ctx);
    assert LogPath(ctx) !in old(fs.dirs) && LogPath(ctx) !in old(fs.files);
    var logged := fs.AppendText(LogPath(ctx), Header);
    assert logged;
    assert fs.files == old(fs.files)[LogPath(ctx) := Text(Header)];
    assert trace == Preamble(username, password, token, servicesRoot);
    var backup := new Backup(fs, ctx, clock, trace, data);
    ghost var st0 := backup.State(Running);
    assert st0 == St(old(fs.files)[LogPath(ctx) := Text(Header)], Preamble(username, password, token, servicesRoot),
                     ListForm(token), 0, [], Running);
    var status := backup.VisitCatalog(catalog, services);
    assert backup.State(status) == CatalogFold(ctx, catalog, services, st0, clock);
    trace := backup.trace;
    outcome := OutcomeOf(status);
  }
}
