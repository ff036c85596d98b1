/** The REST traffic of the script, as data: the requests it issues (with the
    call site that issues them) and the responses the platform supplies. HTTP,
    URL-encoding and JSON decoding are not modelled; a response is what the
    script reads out of the decoded JSON, or the fact that the request raised. */
module Rest {
  import opened Files

  datatype Option<T> = None | Some(value: T)

  /** A form value: a string, or the list of layer ids. */
  datatype Field = Str(s: string) | IntList(ids: seq<int>)

  /** The parameter dict the script URL-encodes as a request body. */
  type Form = map<string, Field>

  /** The line of the script a request is issued from. */
  datatype Call =
    | GenerateToken   // token request
    | ListServices    // the services directory
    | ServiceInfo     // per-service metadata, sent with the current `data`
    | CreateReplica   // replica submission
    | JobStatus       // one poll of the job status URL
    | FetchResult     // download of the replica result

  /** A request: its call site, its URL and its form body (None for a GET without body). */
  datatype Request = Request(call: Call, url: string, form: Option<Form>)

  /** What the metadata request of a service answers: its item id and the ids of its live layers. */
  datatype Metadata = Metadata(serviceItemId: string, layerIds: seq<int>)

  /** What the createReplica request does: raise, or answer (with or without a `statusUrl`). */
  datatype Submission = SubmitRaised | Submitted(statusUrl: Option<string>)

  /** What one status request does: raise, or answer with optional `status` and `resultUrl`. */
  datatype StatusReply = StatusRaised | StatusBody(status: Option<string>, resultUrl: Option<string>)

  /** What the result download does: `urlopen` raises, or it opens and then
      reading the body raises, or the body is read in full. */
  datatype Download = OpenRaised | ReadRaised | Body(bytes: seq<byte>)

  /** One entry of the services directory (`name`, `url`) together with the
      platform's answers to the requests the script sends about it: the
      metadata (None: the request raised or the answer has no `serviceItemId`),
      the submission, the successive status replies (a job whose replies run
      out without "Completed" stays pending for ever) and the result download. */
  datatype Service = Service(
    name: string,
    url: string,
    metadata: Option<Metadata>,
    submission: Submission,
    statuses: seq<StatusReply>,
    result: Download)

  /** The token reply (None: the request raised or the answer has no `token`)
      and the services listing (None: the request raised or has no `services`). */
  datatype Remote = Remote(token: Option<string>, listing: Option<seq<Service>>)

  /** One row of the catalog workbook. */
  datatype CatalogEntry = CatalogEntry(serviceId: string, serviceName: string, layers: string, tables: string)

  const TokenUrl: string := "https://arcgis.com/sharing/rest/generateToken"
  const Referer: string := "https://www.arcgis.com"

  function TokenForm(username: string, password: string): Form
  {
    map["username" := Str(username), "password" := Str(password), "referer" := Str(Referer), "f" := Str("json")]
  }

  /** The `data` dict sent to the services directory, and to each service until a first match. */
  function ListForm(token: string): Form
  {
    map["f" := Str("json"), "token" := Str(token)]
  }

  function ReplicaName(serviceName: string): string
  {
    serviceName + "_replica"
  }

  /** The services root, then the service name, then the createReplica endpoint. */
  function ReplicaUrl(servicesRoot: string, serviceName: string): string
  {
    servicesRoot + "/" + serviceName + "/FeatureServer/createReplica"
  }

  /** The createReplica parameters: every live layer, attachments included, a
      file geodatabase, no sync, asynchronous. */
  function ReplicaForm(serviceName: string, layerIds: seq<int>, token: string): Form
  {
    map[
      "f" := Str("json"),
      "replicaName" := Str(ReplicaName(serviceName)),
      "layers" := IntList(layerIds),
      "returnAttachments" := Str("true"),
      "returnAttachmentsDatabyURL" := Str("false"),
      "syncModel" := Str("none"),
      "dataFormat" := Str("filegdb"),
      "async" := Str("true"),
      "token" := Str(token)]
  }

  /** The status URL with the query `f=json` and the token, the token last. */
  function StatusQuery(statusUrl: string, token: string): string
  {
    statusUrl + "?f=json&token=" + token
  }

  /** The result URL with the token as its only query parameter. */
  function ResultQuery(resultUrl: string, token: string): string
  {
    resultUrl + "?token=" + token
  }

  /** The createReplica URL: the services root, the service name, then the endpoint. */
  lemma ReplicaUrlShape(servicesRoot: string, serviceName: string)
    ensures var u := ReplicaUrl(servicesRoot, serviceName);
      && |u| == |servicesRoot| + |serviceName| + 29
      && u[..|servicesRoot| + 1] == servicesRoot + "/"
      && u[|servicesRoot| + 1..|servicesRoot| + 1 + |serviceName|] == serviceName
      && u[|servicesRoot| + 1 + |serviceName|..] == "/FeatureServer/createReplica"
  {
  }

  /** The replica parameters: nine keys, with every flag fixed whatever the
      service: attachments returned inline, no sync, a file geodatabase,
      asynchronous. */
  lemma ReplicaFlags(serviceName: string, layerIds: seq<int>, token: string)
    ensures var form := ReplicaForm(serviceName, layerIds, token);
      && form.Keys == {"f", "replicaName", "layers", "returnAttachments", "returnAttachmentsDatabyURL",
                       "syncModel", "dataFormat", "async", "token"}
      && form["returnAttachments"] == Str("true") && form["returnAttachmentsDatabyURL"] == Str("false")
      && form["syncModel"] == Str("none") && form["dataFormat"] == Str("filegdb") && form["async"] == Str("true")
  {
  }

  /** The status query: the status URL, then `?f=json&token=`, then the token. */
  lemma StatusQueryShape(statusUrl: string, token: string)
    ensures var q := StatusQuery(statusUrl, token);
      && |q| == |statusUrl| + 14 + |token|
      && q[..|statusUrl|] == statusUrl && q[|statusUrl|..|q| - |token|] == "?f=json&token="
      && q[|q| - |token|..] == token
  {
  }

  /** The result query: the result URL, then `?token=`, then the token. */
  lemma ResultQueryShape(resultUrl: string, token: string)
    ensures var q := ResultQuery(resultUrl, token);
      && |q| == |resultUrl| + 7 + |token|
      && q[..|resultUrl|] == resultUrl && q[|resultUrl|..|q| - |token|] == "?token="
      && q[|q| - |token|..] == token
  {
  }

  /** A form still carries `f=json` and the session token. */
  predicate CarriesToken(form: Form, token: string)
  {
    "f" in form && form["f"] == Str("json") && "token" in form && form["token"] == Str(token)
  }

  /** Both forms the script keeps in `data` carry `f=json` and the token, so a
      metadata request sent with either is well formed. */
  lemma FormsCarryToken(serviceName: string, layerIds: seq<int>, token: string)
    ensures CarriesToken(ListForm(token), token)
    ensures CarriesToken(ReplicaForm(serviceName, layerIds, token), token)
    ensures ReplicaForm(serviceName, layerIds, token)["replicaName"] == Str(serviceName + "_replica")
    ensures ReplicaForm(serviceName, layerIds, token)["layers"] == IntList(layerIds)
  {
  }
}
