/** `ValidationController.Post`: search the requested file cabinet for the
    documents whose field has the requested value, download each into the
    public directory of that value, expand the downloaded ZIP archives, and
    answer with the public paths of what was downloaded or expanded. Any
    exception becomes a `Failed` response carrying its message, and the
    session, once opened, is closed on every way out. */
module Validation {
  import opened Wrappers
  import opened Failures
  import opened Text
  import opened Sequences
  import opened Conditions
  import opened Storage
  import opened Selection
  import opened Client

  datatype Status = OK | Failed

  /** `ValidationResponseModel`; a `None` result is the C# `null`. */
  datatype Response = Response(status: Status, reason: string, result: Option<seq<string>>)

  /** The directory the public web site serves. */
  const PublicRoot: string := "/Users/crifa/code/score/public"

  /** `locationResult`: where the documents of one field value go. */
  function Location(fieldValue: string): string
  {
    PublicRoot + "/" + fieldValue
  }

  /** The search `Post` runs: AND over the one condition the condition
      builder makes of a `string` field holding the value, sorted descending
      on that field, with no cap. */
  function SearchQuery(fieldName: string, fieldValue: string): (q: Query)
    ensures Contribution(DlgField(fieldName, Some("string"), Some(Item(fieldValue, None, Ok([]))))) == Ok(q.conditions)
    ensures q.operation == And && q.sortOrder == [SortedField(fieldName, Desc)] && q.count.None?
  {
    assert Lower("string") == "string";
    Query(And, [Condition(fieldName, fieldValue)], [SortedField(fieldName, Desc)], None)
  }

  /** `CreateErrorResponse`: a `Failed` answer without a result, whose
      reason is the exception's message. */
  function ErrorResponse(e: Error): (r: Response)
    ensures r.status == Failed && r.result.None? && r.reason == Message(e)
  {
    Response(Failed, Message(e), None)
  }

  // ---------------------------------------------------------------------
  // The three loops, as functions of the disk
  // ---------------------------------------------------------------------

  /** An already built list in front of the list a run builds. */
  function Extend(done: seq<string>, r: Run<seq<string>>): Run<seq<string>>
  {
    Run(r.disk, Prepend(done, r.result))
  }

  /** The first loop: download each document in turn and keep the first name
      `Download` answers with; an empty answer throws at `fileResult[0]`. */
  function Gather(organization: Vendor, dlgInfos: DlgInfos, documents: seq<Document>, d: Disk): (r: Run<seq<string>>)
    ensures d.dirs <= r.disk.dirs && d.files.Keys <= r.disk.files.Keys
    ensures d.Valid() ==> r.disk.Valid()
    ensures r.result.Ok? ==> |r.result.value| == |documents|
    decreases |documents|
  {
    if documents == [] then Run(d, Ok([]))
    else
      var step := DownloadRun(organization, d, dlgInfos.fileCabinetGuid, dlgInfos.dialogGuid,
                              DecimalText(documents[0].id), Location(dlgInfos.fieldValue));
      match step.result
      case Err(e) => Run(step.disk, Err(e))
      case Ok(files) =>
        if |files| == 0 then Run(step.disk, Err(ArgumentOutOfRange))
        else Extend([files[0]], Gather(organization, dlgInfos, documents[1..], step.disk))
  }

  /** The second loop: expand each name whose second `.`-segment is `zip`; a
      name without `.` throws at `words[1]`. */
  function Expand(openArchive: Bytes -> Result<seq<ZipEntry>, string>, names: seq<string>, location: string, d: Disk): (r: Run<()>)
    ensures d.dirs <= r.disk.dirs && d.files.Keys <= r.disk.files.Keys
    ensures d.Valid() ==> r.disk.Valid()
    decreases |names|
  {
    if names == [] then Run(d, Ok(()))
    else
      var words := Split(names[0], '.');
      if |words| < 2 then Run(d, Err(IndexOutOfRange))
      else if words[1] == "zip" then
        var step := UnzipRun(openArchive, d, names[0], location);
        if step.result.Err? then step else Expand(openArchive, names[1..], location, step.disk)
      else Expand(openArchive, names[1..], location, d)
  }

  /** A listed path with every occurrence of the public root removed: one
      path per listed path, never longer, and unchanged exactly when the
      root does not occur in it. */
  function Relative(paths: seq<string>): (r: seq<string>)
    ensures |r| == |paths|
    ensures forall k :: 0 <= k < |paths| ==>
              |r[k]| <= |paths[k]| && (r[k] == paths[k] <==> !Occurs(paths[k], PublicRoot))
  {
    RootRemoved(paths);
    seq(|paths|, k requires 0 <= k < |paths| => RemoveAll(paths[k], PublicRoot))
  }

  lemma RootRemoved(paths: seq<string>)
    ensures forall k :: 0 <= k < |paths| ==> (RemoveAll(paths[k], PublicRoot) == paths[k] <==> !Occurs(paths[k], PublicRoot))
  {
    forall k | 0 <= k < |paths|
      ensures RemoveAll(paths[k], PublicRoot) == paths[k] <==> !Occurs(paths[k], PublicRoot)
    {
      RemoveAllUnchanged(paths[k], PublicRoot);
    }
  }

  /** What the third loop adds for one downloaded name: the listing of an
      expanded archive made relative to the public root, or the name's own
      public path. It throws only at `words[1]` or on a missing archive
      directory. */
  function ShapeOne(d: Disk, fieldValue: string, location: string, file: string): (r: Result<seq<string>, Error>)
    ensures r.Err? ==> r.error == IndexOutOfRange || r.error == DirectoryNotFound(location + "/" + FirstSegment(file, '.'))
  {
    var words := Split(file, '.');
    if |words| < 2 then Err(IndexOutOfRange)
    else if words[1] == "zip" then
      match ProcessDirectory(d, location, file)
      case Err(e) => Err(e)
      case Ok(paths) => Ok(Relative(paths))
    else Ok(["/" + fieldValue + "/" + file])
  }

  function Shaper(d: Disk, fieldValue: string, location: string): string -> Result<seq<string>, Error>
  {
    (file: string) => ShapeOne(d, fieldValue, location, file)
  }

  /** The third loop: each name's paths, in name order. It completes exactly
      when no name throws. */
  function Shape(d: Disk, fieldValue: string, location: string, names: seq<string>): (r: Result<seq<string>, Error>)
    ensures r.Ok? <==> forall k :: 0 <= k < |names| ==> ShapeOne(d, fieldValue, location, names[k]).Ok?
  {
    ConcatMapOk(names, Shaper(d, fieldValue, location));
    ConcatMap(names, Shaper(d, fieldValue, location))
  }

  /** The `try` block of `Post` once the session is open: the response it
      returns, or the exception that leaves it, and the disk afterwards. */
  function ProcessRun(organization: Vendor, openArchive: Bytes -> Result<seq<ZipEntry>, string>, dlgInfos: DlgInfos, d: Disk): (r: Run<Response>)
    ensures r.result.Ok? ==>
              && r.result.value.status == OK
              && r.result.value.result.Some?
              && (r.result.value.reason == "Succesfully" || r.result.value.reason == "Not result")
    ensures FindDocuments(organization, dlgInfos.fileCabinetGuid, false, SearchQuery(dlgInfos.fieldName, dlgInfos.fieldValue)) == Ok([])
            ==> r == Run(d, Ok(Response(OK, "Not result", Some([]))))
  {
    var location := Location(dlgInfos.fieldValue);
    match FindDocuments(organization, dlgInfos.fileCabinetGuid, false, SearchQuery(dlgInfos.fieldName, dlgInfos.fieldValue))
    case Err(e) => Run(d, Err(e))
    case Ok(documents) =>
      if |documents| == 0 then Run(d, Ok(Response(OK, "Not result", Some([]))))
      else
        var g := Gather(organization, dlgInfos, documents, d);
        if g.result.Err? then Run(g.disk, Err(g.result.error))
        else
          var x := Expand(openArchive, g.result.value, location, g.disk);
          if x.result.Err? then Run(x.disk, Err(x.result.error))
          else
            match Shape(x.disk, dlgInfos.fieldValue, location, g.result.value)
            case Err(e) => Run(x.disk, Err(e))
            case Ok(paths) => Run(x.disk, Ok(Response(OK, "Succesfully", Some(paths))))
  }

  /** One request: the response, the disk afterwards, and whether a session
      was opened (and so closed in `finally`). */
  datatype Exchange = Exchange(response: Response, disk: Disk, session: bool)

  function PostRun(platform: Platform, openArchive: Bytes -> Result<seq<ZipEntry>, string>, dlgInfos: DlgInfos, d: Disk): (r: Exchange)
    ensures r.response.result.None? <==> r.response.status == Failed
    ensures r.response.status == OK ==> r.session && (r.response.reason == "Succesfully" || r.response.reason == "Not result")
    ensures r.session <==> Connect(platform, dlgInfos.serverUrl, dlgInfos.organizationName, dlgInfos.userName, dlgInfos.userPassword).Ok?
    ensures !r.session ==> r.disk == d && r.response.status == Failed
    ensures r.session
            && FindDocuments(Connect(platform, dlgInfos.serverUrl, dlgInfos.organizationName, dlgInfos.userName, dlgInfos.userPassword).value,
                             dlgInfos.fileCabinetGuid, false, SearchQuery(dlgInfos.fieldName, dlgInfos.fieldValue)) == Ok([])
            ==> r == Exchange(Response(OK, "Not result", Some([])), d, true)
    ensures var c := Connect(platform, dlgInfos.serverUrl, dlgInfos.organizationName, dlgInfos.userName, dlgInfos.userPassword);
            c.Err? ==> r.response == ErrorResponse(c.error)
    ensures var c := Connect(platform, dlgInfos.serverUrl, dlgInfos.organizationName, dlgInfos.userName, dlgInfos.userPassword);
            c.Ok? && ProcessRun(c.value, openArchive, dlgInfos, d).result.Err? ==>
              r.response == ErrorResponse(ProcessRun(c.value, openArchive, dlgInfos, d).result.error)
  {
    match Connect(platform, dlgInfos.serverUrl, dlgInfos.organizationName, dlgInfos.userName, dlgInfos.userPassword)
    case Err(e) => Exchange(ErrorResponse(e), d, false)
    case Ok(organization) =>
      var p := ProcessRun(organization, openArchive, dlgInfos, d);
      Exchange(if p.result.Ok? then p.result.value else ErrorResponse(p.result.error), p.disk, true)
  }

  // ---------------------------------------------------------------------
  // The controller
  // ---------------------------------------------------------------------

  /** `Post`: the session variable starts out null, the `try` block opens the
      session and does the work, `catch` turns an exception into a `Failed`
      response, and `finally` logs out when the session was opened. */
  method Post(platform: Platform, fs: FileStore, dlgInfos: DlgInfos) returns (response: Response, session: PlatformClient?)
    modifies fs
    ensures var x := PostRun(platform, fs.openArchive, dlgInfos, old(fs.disk));
            && response == x.response
            && fs.disk == x.disk
            && (session != null <==> x.session)
            && (session != null ==> fresh(session) && !session.connected && session.disconnects == 1)
  {
    session := null;
    var created := PlatformClient.Create(platform, dlgInfos.serverUrl, dlgInfos.organizationName,
                                         dlgInfos.userName, dlgInfos.userPassword);
    if created.Err? {
      response := ErrorResponse(created.error);
    } else {
      session := created.value;
      var outcome := Process(session, fs, dlgInfos);
      response := if outcome.Ok? then outcome.value else ErrorResponse(outcome.error);
    }
    if session != null {
      session.Logout();
    }
  }

  /** The `try` block after the session is opened. */
  method Process(client: PlatformClient, fs: FileStore, dlgInfos: DlgInfos) returns (r: Result<Response, Error>)
    modifies fs
    ensures Run(fs.disk, r) == ProcessRun(client.organization, fs.openArchive, dlgInfos, old(fs.disk))
  {
    var location := Location(dlgInfos.fieldValue);
    var query := SearchQuery(dlgInfos.fieldName, dlgInfos.fieldValue);
    var fieldList := FindDocuments(client.organization, dlgInfos.fileCabinetGuid, false, query);
    if fieldList.Err? {
      return Err(fieldList.error);
    }
    var documents := fieldList.value;
    if |documents| == 0 {
      return Ok(Response(OK, "Not result", Some([])));
    }
    var message := "Succesfully";
    var folders := DownloadDocuments(client, fs, dlgInfos, documents);
    if folders.Err? {
      return Err(folders.error);
    }
    var expanded := ExpandArchives(client, fs, folders.value, dlgInfos.fieldValue, location);
    if expanded.Err? {
      return Err(expanded.error);
    }
    var result := ShapeResult(fs, folders.value, dlgInfos.fieldValue, location);
    if result.Err? {
      return Err(result.error);
    }
    return Ok(Response(OK, message, Some(result.value)));
  }

  /** The first loop of `Post`. */
  method DownloadDocuments(client: PlatformClient, fs: FileStore, dlgInfos: DlgInfos, documents: seq<Document>)
    returns (r: Result<seq<string>, Error>)
    modifies fs
    ensures Run(fs.disk, r) == Gather(client.organization, dlgInfos, documents, old(fs.disk))
  {
    var location := Location(dlgInfos.fieldValue);
    var resultFolders: seq<string> := [];
    ghost var start := fs.disk;
    assert documents[0..] == documents;
    PrependNothing(Gather(client.organization, dlgInfos, documents, start).result);
    for i := 0 to |documents|
      invariant Gather(client.organization, dlgInfos, documents, start)
                  == Extend(resultFolders, Gather(client.organization, dlgInfos, documents[i..], fs.disk))
    {
      assert documents[i..][0] == documents[i];
      assert documents[i..][1..] == documents[i + 1..];
      var fileResult := client.Download(fs, client.organization, dlgInfos.fileCabinetGuid, dlgInfos.dialogGuid,
                                        DecimalText(documents[i].id), dlgInfos.fieldValue, location);
      if fileResult.Err? {
        return Err(fileResult.error);
      }
      if |fileResult.value| == 0 {
        return Err(ArgumentOutOfRange);
      }
      PrependThen(resultFolders, Ok([fileResult.value[0]]),
                  Gather(client.organization, dlgInfos, documents[i + 1..], fs.disk).result);
      resultFolders := resultFolders + [fileResult.value[0]];
    }
    assert documents[|documents|..] == [];
    assert resultFolders + [] == resultFolders;
    return Ok(resultFolders);
  }

  /** The second loop of `Post`. */
  method ExpandArchives(client: PlatformClient, fs: FileStore, names: seq<string>, fieldValue: string, location: string)
    returns (r: Result<(), Error>)
    modifies fs
    ensures Run(fs.disk, r) == Expand(fs.openArchive, names, location, old(fs.disk))
  {
    ghost var start := fs.disk;
    assert names[0..] == names;
    for i := 0 to |names|
      invariant Expand(fs.openArchive, names, location, start) == Expand(fs.openArchive, names[i..], location, fs.disk)
    {
      assert names[i..][0] == names[i];
      assert names[i..][1..] == names[i + 1..];
      var words := Split(names[i], '.');
      if |words| < 2 {
        return Err(IndexOutOfRange);
      }
      if words[1] == "zip" {
        var unzipped := client.UnzipFile(fs, names[i], fieldValue, location);
        if unzipped.Err? {
          return Err(unzipped.error);
        }
      }
    }
    assert names[|names|..] == [];
    return Ok(());
  }

  /** The third loop of `Post`, with its inner loop over a listing. */
  method ShapeResult(fs: FileStore, names: seq<string>, fieldValue: string, location: string)
    returns (r: Result<seq<string>, Error>)
    ensures r == Shape(fs.disk, fieldValue, location, names)
  {
    var shaper := Shaper(fs.disk, fieldValue, location);
    var result: seq<string> := [];
    assert names[0..] == names;
    PrependNothing(ConcatMap(names, shaper));
    for i := 0 to |names|
      invariant ConcatMap(names, shaper) == Prepend(result, ConcatMap(names[i..], shaper))
    {
      ConcatMapStep(names, shaper, i);
      PrependThen(result, shaper(names[i]), ConcatMap(names[i + 1..], shaper));
      var words := Split(names[i], '.');
      if |words| < 2 {
        return Err(IndexOutOfRange);
      }
      if words[1] == "zip" {
        var test := ProcessDirectory(fs.disk, location, names[i]);
        if test.Err? {
          return Err(test.error);
        }
        result := AppendRelative(result, test.value);
      } else {
        result := result + ["/" + fieldValue + "/" + names[i]];
      }
    }
    assert names[|names|..] == [];
    assert result + [] == result;
    return Ok(result);
  }

  /** The inner loop of the third loop: each listed path, with the public
      root removed, is appended in listing order. */
  method AppendRelative(result: seq<string>, paths: seq<string>) returns (r: seq<string>)
    ensures r == result + Relative(paths)
  {
    r := result;
    for j := 0 to |paths|
      invariant r == result + Relative(paths[..j])
    {
      assert paths[..j + 1] == paths[..j] + [paths[j]];
      r := r + [RemoveAll(paths[j], PublicRoot)];
    }
    assert paths[..|paths|] == paths;
  }

  // ---------------------------------------------------------------------
  // What a request does
  // ---------------------------------------------------------------------

  /** Every document the first loop went through was found again by its
      `DWDOCID`, the name kept for it is the downloaded file's name, and that
      file lies in the public directory of the field value. */
  lemma {:induction false} GatherDownloads(organization: Vendor, dlgInfos: DlgInfos, documents: seq<Document>, d: Disk)
    requires Gather(organization, dlgInfos, documents, d).result.Ok?
    ensures var r := Gather(organization, dlgInfos, documents, d);
            forall k :: 0 <= k < |documents| ==>
              var found := LocateDocument(organization, dlgInfos.fileCabinetGuid, dlgInfos.dialogGuid, DecimalText(documents[k].id));
              && found.Some?
              && r.result.value[k] == organization.fetch(found.value).fileName
              && Location(dlgInfos.fieldValue) + "/" + r.result.value[k] in r.disk.files
    decreases |documents|
  {
    if documents != [] {
      var next := GatherStep(organization, dlgInfos, documents, d);
      var rest := Gather(organization, dlgInfos, documents[1..], next);
      GatherDownloads(organization, dlgInfos, documents[1..], next);
      var r := Gather(organization, dlgInfos, documents, d);
      forall k | 0 < k < |documents|
        ensures documents[k] == documents[1..][k - 1] && r.result.value[k] == rest.result.value[k - 1]
      {
      }
    }
  }

  /** The first download of the first loop, when the loop completes: the
      document is located, its file is stored, and the loop goes on from the
      disk it leaves. */
  lemma GatherStep(organization: Vendor, dlgInfos: DlgInfos, documents: seq<Document>, d: Disk) returns (next: Disk)
    requires documents != []
    requires Gather(organization, dlgInfos, documents, d).result.Ok?
    ensures var found := LocateDocument(organization, dlgInfos.fileCabinetGuid, dlgInfos.dialogGuid, DecimalText(documents[0].id));
            && found.Some?
            && var name := organization.fetch(found.value).fileName;
               && Location(dlgInfos.fieldValue) + "/" + name in next.files
               && next == DownloadRun(organization, d, dlgInfos.fileCabinetGuid, dlgInfos.dialogGuid,
                                      DecimalText(documents[0].id), Location(dlgInfos.fieldValue)).disk
               && Gather(organization, dlgInfos, documents, d) == Extend([name], Gather(organization, dlgInfos, documents[1..], next))
  {
    var location := Location(dlgInfos.fieldValue);
    DownloadResult(organization, d, dlgInfos.fileCabinetGuid, dlgInfos.dialogGuid, DecimalText(documents[0].id), location);
    var step := DownloadRun(organization, d, dlgInfos.fileCabinetGuid, dlgInfos.dialogGuid, DecimalText(documents[0].id), location);
    next := step.disk;
  }

  /** When every document before position `k` was downloaded and the one at
      `k` cannot be found, the first loop throws at `fileResult[0]`. */
  lemma {:induction false} GatherStops(organization: Vendor, dlgInfos: DlgInfos, documents: seq<Document>, d: Disk, k: nat)
    requires k < |documents|
    requires Gather(organization, dlgInfos, documents[..k], d).result.Ok?
    requires LocateDocument(organization, dlgInfos.fileCabinetGuid, dlgInfos.dialogGuid, DecimalText(documents[k].id)).None?
    ensures Gather(organization, dlgInfos, documents, d).result == Err(ArgumentOutOfRange)
    decreases k
  {
    var location := Location(dlgInfos.fieldValue);
    DownloadResult(organization, d, dlgInfos.fileCabinetGuid, dlgInfos.dialogGuid, DecimalText(documents[0].id), location);
    if k > 0 {
      var step := DownloadRun(organization, d, dlgInfos.fileCabinetGuid, dlgInfos.dialogGuid, DecimalText(documents[0].id), location);
      assert documents[..k][0] == documents[0];
      assert documents[..k][1..] == documents[1..][..k - 1];
      GatherStops(organization, dlgInfos, documents[1..], step.disk, k - 1);
    }
  }

  /** A document that the search lists but the download's own lookup cannot
      find fails the whole request (with `fileResult[0]` out of range, unless
      an earlier download already threw). */
  lemma MissingDocumentFails(platform: Platform, openArchive: Bytes -> Result<seq<ZipEntry>, string>, dlgInfos: DlgInfos, d: Disk, k: nat)
    requires Connect(platform, dlgInfos.serverUrl, dlgInfos.organizationName, dlgInfos.userName, dlgInfos.userPassword).Ok?
    requires var organization := Connect(platform, dlgInfos.serverUrl, dlgInfos.organizationName, dlgInfos.userName, dlgInfos.userPassword).value;
             var found := FindDocuments(organization, dlgInfos.fileCabinetGuid, false, SearchQuery(dlgInfos.fieldName, dlgInfos.fieldValue));
             && found.Ok? && k < |found.value|
             && LocateDocument(organization, dlgInfos.fileCabinetGuid, dlgInfos.dialogGuid, DecimalText(found.value[k].id)).None?
    ensures var x := PostRun(platform, openArchive, dlgInfos, d);
            x.response.status == Failed && x.response.result.None? && x.session
    ensures var organization := Connect(platform, dlgInfos.serverUrl, dlgInfos.organizationName, dlgInfos.userName, dlgInfos.userPassword).value;
            var documents := FindDocuments(organization, dlgInfos.fileCabinetGuid, false, SearchQuery(dlgInfos.fieldName, dlgInfos.fieldValue)).value;
            Gather(organization, dlgInfos, documents[..k], d).result.Ok? ==>
              PostRun(platform, openArchive, dlgInfos, d).response == ErrorResponse(ArgumentOutOfRange)
  {
    var organization := Connect(platform, dlgInfos.serverUrl, dlgInfos.organizationName, dlgInfos.userName, dlgInfos.userPassword).value;
    var documents := FindDocuments(organization, dlgInfos.fileCabinetGuid, false, SearchQuery(dlgInfos.fieldName, dlgInfos.fieldValue)).value;
    if Gather(organization, dlgInfos, documents[..k], d).result.Ok? {
      GatherStops(organization, dlgInfos, documents, d, k);
    }
    if Gather(organization, dlgInfos, documents, d).result.Ok? {
      GatherDownloads(organization, dlgInfos, documents, d);
      assert false;
    }
  }

  /** A downloaded name without a `.` fails the whole request, at `words[1]`
      of the second loop or, if an earlier archive already failed, there. */
  lemma NameWithoutDotFails(platform: Platform, openArchive: Bytes -> Result<seq<ZipEntry>, string>, dlgInfos: DlgInfos, d: Disk, k: nat)
    requires Connect(platform, dlgInfos.serverUrl, dlgInfos.organizationName, dlgInfos.userName, dlgInfos.userPassword).Ok?
    requires var organization := Connect(platform, dlgInfos.serverUrl, dlgInfos.organizationName, dlgInfos.userName, dlgInfos.userPassword).value;
             var found := FindDocuments(organization, dlgInfos.fileCabinetGuid, false, SearchQuery(dlgInfos.fieldName, dlgInfos.fieldValue));
             && found.Ok? && |found.value| > 0
             && var g := Gather(organization, dlgInfos, found.value, d);
                && g.result.Ok? && k < |g.result.value| && '.' !in g.result.value[k]
    ensures var x := PostRun(platform, openArchive, dlgInfos, d);
            x.response.status == Failed && x.response.result.None? && x.session
    ensures var organization := Connect(platform, dlgInfos.serverUrl, dlgInfos.organizationName, dlgInfos.userName, dlgInfos.userPassword).value;
            var g := Gather(organization, dlgInfos, FindDocuments(organization, dlgInfos.fileCabinetGuid, false, SearchQuery(dlgInfos.fieldName, dlgInfos.fieldValue)).value, d);
            Expand(openArchive, g.result.value[..k], Location(dlgInfos.fieldValue), g.disk).result.Ok? ==>
              PostRun(platform, openArchive, dlgInfos, d).response == ErrorResponse(IndexOutOfRange)
  {
    var organization := Connect(platform, dlgInfos.serverUrl, dlgInfos.organizationName, dlgInfos.userName, dlgInfos.userPassword).value;
    var found := FindDocuments(organization, dlgInfos.fileCabinetGuid, false, SearchQuery(dlgInfos.fieldName, dlgInfos.fieldValue));
    var g := Gather(organization, dlgInfos, found.value, d);
    var name := g.result.value[k];
    var x := Expand(openArchive, g.result.value, Location(dlgInfos.fieldValue), g.disk);
    if Expand(openArchive, g.result.value[..k], Location(dlgInfos.fieldValue), g.disk).result.Ok? {
      ExpandStops(openArchive, g.result.value, Location(dlgInfos.fieldValue), g.disk, k);
    }
    if x.result.Ok? {
      ExpandChecks(openArchive, g.result.value, Location(dlgInfos.fieldValue), g.disk);
      assert false;
    }
  }

  /** After the second loop every name had a `.`, and every archive's
      extraction directory exists. */
  lemma {:induction false} ExpandChecks(openArchive: Bytes -> Result<seq<ZipEntry>, string>, names: seq<string>, location: string, d: Disk)
    requires Expand(openArchive, names, location, d).result.Ok?
    ensures var r := Expand(openArchive, names, location, d);
            forall k :: 0 <= k < |names| ==>
              && |Split(names[k], '.')| >= 2
              && (Split(names[k], '.')[1] == "zip" ==> location + "/" + FirstSegment(names[k], '.') in r.disk.dirs)
    decreases |names|
  {
    if names != [] {
      var r := Expand(openArchive, names, location, d);
      var words := Split(names[0], '.');
      var next := if words[1] == "zip" then UnzipRun(openArchive, d, names[0], location).disk else d;
      UnzipOnlyArchives(openArchive, d, names[0], location);
      assert r == Expand(openArchive, names[1..], location, next);
      ExpandChecks(openArchive, names[1..], location, next);
      forall k | 0 < k < |names|
        ensures names[k] == names[1..][k - 1]
      {
      }
    }
  }

  /** When every name before position `k` went through the second loop and
      the name at `k` has no `.`, the loop throws at `words[1]`. */
  lemma {:induction false} ExpandStops(openArchive: Bytes -> Result<seq<ZipEntry>, string>, names: seq<string>, location: string, d: Disk, k: nat)
    requires k < |names| && '.' !in names[k]
    requires Expand(openArchive, names[..k], location, d).result.Ok?
    ensures Expand(openArchive, names, location, d).result == Err(IndexOutOfRange)
    decreases k
  {
    if k > 0 {
      var words := Split(names[0], '.');
      var next := if words[1] == "zip" then UnzipRun(openArchive, d, names[0], location).disk else d;
      assert names[..k][0] == names[0];
      assert names[..k][1..] == names[1..][..k - 1];
      ExpandStops(openArchive, names[1..], location, next, k - 1);
    }
  }

  /** Once every archive is expanded, the third loop cannot throw: each
      archive's directory exists, so listing it succeeds. */
  lemma ShapeAfterExpand(openArchive: Bytes -> Result<seq<ZipEntry>, string>, names: seq<string>, fieldValue: string, d: Disk)
    requires Expand(openArchive, names, Location(fieldValue), d).result.Ok?
    ensures Shape(Expand(openArchive, names, Location(fieldValue), d).disk, fieldValue, Location(fieldValue), names).Ok?
  {
    var location := Location(fieldValue);
    var x := Expand(openArchive, names, location, d);
    ExpandChecks(openArchive, names, location, d);
    ConcatMapOk(names, Shaper(x.disk, fieldValue, location));
  }

  /** Once the session is open and the search found documents, a request
      whose downloads and expansions succeed answers `Succesfully` with the
      shaped paths. */
  lemma PostAfterExpansion(platform: Platform, openArchive: Bytes -> Result<seq<ZipEntry>, string>, dlgInfos: DlgInfos, d: Disk)
    requires Connect(platform, dlgInfos.serverUrl, dlgInfos.organizationName, dlgInfos.userName, dlgInfos.userPassword).Ok?
    requires var organization := Connect(platform, dlgInfos.serverUrl, dlgInfos.organizationName, dlgInfos.userName, dlgInfos.userPassword).value;
             var found := FindDocuments(organization, dlgInfos.fileCabinetGuid, false, SearchQuery(dlgInfos.fieldName, dlgInfos.fieldValue));
             && found.Ok? && |found.value| > 0
             && var g := Gather(organization, dlgInfos, found.value, d);
                && g.result.Ok?
                && Expand(openArchive, g.result.value, Location(dlgInfos.fieldValue), g.disk).result.Ok?
    ensures var organization := Connect(platform, dlgInfos.serverUrl, dlgInfos.organizationName, dlgInfos.userName, dlgInfos.userPassword).value;
            var found := FindDocuments(organization, dlgInfos.fileCabinetGuid, false, SearchQuery(dlgInfos.fieldName, dlgInfos.fieldValue));
            var g := Gather(organization, dlgInfos, found.value, d);
            var x := Expand(openArchive, g.result.value, Location(dlgInfos.fieldValue), g.disk);
            var shaped := Shape(x.disk, dlgInfos.fieldValue, Location(dlgInfos.fieldValue), g.result.value);
            && shaped.Ok?
            && PostRun(platform, openArchive, dlgInfos, d) == Exchange(Response(OK, "Succesfully", Some(shaped.value)), x.disk, true)
  {
    var organization := Connect(platform, dlgInfos.serverUrl, dlgInfos.organizationName, dlgInfos.userName, dlgInfos.userPassword).value;
    var found := FindDocuments(organization, dlgInfos.fileCabinetGuid, false, SearchQuery(dlgInfos.fieldName, dlgInfos.fieldValue));
    var g := Gather(organization, dlgInfos, found.value, d);
    ShapeAfterExpand(openArchive, g.result.value, dlgInfos.fieldValue, g.disk);
  }

  /** A `Succesfully` answer means: the session was opened, the search found
      documents, each was located and downloaded into the public directory
      of the field value, each downloaded name has a `.`, each archive's
      directory exists, and the answer lists the shaped paths. */
  lemma PostSucceeded(platform: Platform, openArchive: Bytes -> Result<seq<ZipEntry>, string>, dlgInfos: DlgInfos, d: Disk)
    requires PostRun(platform, openArchive, dlgInfos, d).response.reason == "Succesfully"
    requires PostRun(platform, openArchive, dlgInfos, d).response.status == OK
    ensures var connection := Connect(platform, dlgInfos.serverUrl, dlgInfos.organizationName, dlgInfos.userName, dlgInfos.userPassword);
            && connection.Ok?
            && var p := ProcessRun(connection.value, openArchive, dlgInfos, d);
               && p.result.Ok?
               && PostRun(platform, openArchive, dlgInfos, d) == Exchange(p.result.value, p.disk, true)
               && Succeeded(connection.value, openArchive, dlgInfos, d)
  {
    var organization := Connect(platform, dlgInfos.serverUrl, dlgInfos.organizationName, dlgInfos.userName, dlgInfos.userPassword).value;
    ProcessSucceeded(organization, openArchive, dlgInfos, d);
  }

  /** What a `Succesfully` answer of the `try` block guarantees. */
  ghost predicate Succeeded(organization: Vendor, openArchive: Bytes -> Result<seq<ZipEntry>, string>, dlgInfos: DlgInfos, d: Disk)
  {
    var location := Location(dlgInfos.fieldValue);
    var found := FindDocuments(organization, dlgInfos.fileCabinetGuid, false, SearchQuery(dlgInfos.fieldName, dlgInfos.fieldValue));
    && found.Ok? && |found.value| > 0
    && var g := Gather(organization, dlgInfos, found.value, d);
       var p := ProcessRun(organization, openArchive, dlgInfos, d);
       && g.result.Ok?
       && (forall k :: 0 <= k < |found.value| ==>
             && LocateDocument(organization, dlgInfos.fileCabinetGuid, dlgInfos.dialogGuid, DecimalText(found.value[k].id)).Some?
             && location + "/" + g.result.value[k] in p.disk.files
             && |Split(g.result.value[k], '.')| >= 2
             && (Split(g.result.value[k], '.')[1] == "zip" ==>
                   location + "/" + FirstSegment(g.result.value[k], '.') in p.disk.dirs))
       && p.result.Ok?
       && Shape(p.disk, dlgInfos.fieldValue, location, g.result.value) == Ok(p.result.value.result.value)
  }

  /** The `try` block answers `Succesfully` only after finding, downloading
      and expanding everything, and then answers with the shaped paths. */
  lemma ProcessSucceeded(organization: Vendor, openArchive: Bytes -> Result<seq<ZipEntry>, string>, dlgInfos: DlgInfos, d: Disk)
    requires ProcessRun(organization, openArchive, dlgInfos, d).result.Ok?
    requires ProcessRun(organization, openArchive, dlgInfos, d).result.value.reason == "Succesfully"
    ensures Succeeded(organization, openArchive, dlgInfos, d)
  {
    var location := Location(dlgInfos.fieldValue);
    var found := FindDocuments(organization, dlgInfos.fileCabinetGuid, false, SearchQuery(dlgInfos.fieldName, dlgInfos.fieldValue));
    ProcessSteps(organization, openArchive, dlgInfos, d);
    var g := Gather(organization, dlgInfos, found.value, d);
    var x := Expand(openArchive, g.result.value, location, g.disk);
    var p := ProcessRun(organization, openArchive, dlgInfos, d);
    assert p.disk == x.disk;
    GatherDownloads(organization, dlgInfos, found.value, d);
    ExpandChecks(openArchive, g.result.value, location, g.disk);
    assert g.disk.files.Keys <= p.disk.files.Keys;
  }

  /** The steps behind a `Succesfully` answer of the `try` block. */
  lemma ProcessSteps(organization: Vendor, openArchive: Bytes -> Result<seq<ZipEntry>, string>, dlgInfos: DlgInfos, d: Disk)
    requires ProcessRun(organization, openArchive, dlgInfos, d).result.Ok?
    requires ProcessRun(organization, openArchive, dlgInfos, d).result.value.reason == "Succesfully"
    ensures var location := Location(dlgInfos.fieldValue);
            var found := FindDocuments(organization, dlgInfos.fileCabinetGuid, false, SearchQuery(dlgInfos.fieldName, dlgInfos.fieldValue));
            && found.Ok? && |found.value| > 0
            && var g := Gather(organization, dlgInfos, found.value, d);
               && g.result.Ok?
               && var x := Expand(openArchive, g.result.value, location, g.disk);
                  && x.result.Ok?
                  && var shaped := Shape(x.disk, dlgInfos.fieldValue, location, g.result.value);
                     && shaped.Ok?
                     && ProcessRun(organization, openArchive, dlgInfos, d) == Run(x.disk, Ok(Response(OK, "Succesfully", Some(shaped.value))))
  {
  }

  /** What the third loop adds for one downloaded name. A name without `.`
      throws at `words[1]`. A name that is not an archive gives its own public
      path. An archive gives a list exactly when its directory exists: one
      path per file directly in that directory, each file once, and each
      path `/<value>/<first segment>/<file name>` unless the rest repeats the
      public root. */
  lemma ShapeOnePaths(d: Disk, fieldValue: string, file: string)
    ensures var location := Location(fieldValue);
            var words := Split(file, '.');
            var r := ShapeOne(d, fieldValue, location, file);
            && (|words| < 2 ==> r == Err(IndexOutOfRange))
            && (|words| >= 2 && words[1] != "zip" ==> r == Ok(["/" + fieldValue + "/" + file]))
            && (|words| >= 2 && words[1] == "zip" ==> (r.Ok? <==> location + "/" + words[0] in d.dirs))
            && (|words| >= 2 && words[1] == "zip" && r.Ok? ==>
                  var dir := location + "/" + words[0];
                  var paths := GetFiles(d, dir).value;
                  && r.value == Relative(paths)
                  && (d.Valid() ==> Distinct(paths) && forall p :: p in d.files && Parent(p) == dir <==> p in paths)
                  && forall k :: 0 <= k < |paths| ==>
                       && |dir| < |paths[k]|
                       && var name := paths[k][|dir| + 1..];
                          && paths[k] == dir + "/" + name
                          && '/' !in name
                          && (!Occurs("/" + fieldValue + "/" + words[0] + "/" + name, PublicRoot) ==>
                                r.value[k] == "/" + fieldValue + "/" + words[0] + "/" + name))
  {
    var location := Location(fieldValue);
    var words := Split(file, '.');
    if |words| >= 2 && words[1] == "zip" && location + "/" + words[0] in d.dirs {
      var dir := location + "/" + words[0];
      assert dir == PublicRoot + "/" + fieldValue + "/" + words[0];
      var paths := GetFiles(d, dir).value;
      forall k | 0 <= k < |paths|
        ensures |dir| < |paths[k]|
        ensures var name := paths[k][|dir| + 1..];
                && paths[k] == dir + "/" + name
                && '/' !in name
                && (!Occurs("/" + fieldValue + "/" + words[0] + "/" + name, PublicRoot) ==>
                      RemoveAll(paths[k], PublicRoot) == "/" + fieldValue + "/" + words[0] + "/" + name)
      {
        ListedPath(PublicRoot, fieldValue, words[0], paths[k]);
      }
    }
  }

  /** A path directly in `root/<value>/<segment>` is that directory, `/` and
      a name, and cutting `root` off it leaves `/<value>/<segment>/<name>`
      when that rest does not repeat `root`. */
  lemma ListedPath(root: string, fieldValue: string, segment: string, path: string)
    requires |root| > 0
    requires Parent(path) == root + "/" + fieldValue + "/" + segment
    ensures var dir := root + "/" + fieldValue + "/" + segment;
            && |dir| < |path|
            && var name := path[|dir| + 1..];
               && path == dir + "/" + name
               && '/' !in name
               && (!Occurs("/" + fieldValue + "/" + segment + "/" + name, root) ==>
                     RemoveAll(path, root) == "/" + fieldValue + "/" + segment + "/" + name)
  {
    var dir := root + "/" + fieldValue + "/" + segment;
    ChildName(dir, path);
    var name := path[|dir| + 1..];
    if !Occurs("/" + fieldValue + "/" + segment + "/" + name, root) {
      PublicPath(root, fieldValue, segment, name, path);
    }
  }

  /** Cutting the root off `root/<value>/<segment>/<name>` gives
      `/<value>/<segment>/<name>` when that rest does not repeat the root. */
  lemma PublicPath(root: string, fieldValue: string, segment: string, name: string, path: string)
    requires |root| > 0
    requires path == root + "/" + fieldValue + "/" + segment + "/" + name
    requires !Occurs("/" + fieldValue + "/" + segment + "/" + name, root)
    ensures RemoveAll(path, root) == "/" + fieldValue + "/" + segment + "/" + name
  {
    assert path == root + ("/" + fieldValue + "/" + segment + "/" + name);
    RemoveLeading(root, "/" + fieldValue + "/" + segment + "/" + name);
  }

  /** The answer lists the names' paths in download order: the paths for a
      longer list of names extend those for its front. */
  lemma ShapeInOrder(d: Disk, fieldValue: string, location: string, front: seq<string>, back: seq<string>)
    requires Shape(d, fieldValue, location, front).Ok?
    ensures Shape(d, fieldValue, location, front + back)
              == Prepend(Shape(d, fieldValue, location, front).value, Shape(d, fieldValue, location, back))
  {
    ConcatMapAppend(front, back, Shaper(d, fieldValue, location));
  }
}
