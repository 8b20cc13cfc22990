/** `PlatformClient`: a session with the vendor platform, opened with a
    user's credentials, that searches documents, checks for duplicates,
    downloads one document into a directory, expands a downloaded ZIP
    archive and lists what it expanded to. */
module Client {
  import opened Wrappers
  import opened Failures
  import opened Text
  import opened Sequences
  import opened Conditions
  import opened Storage
  import opened Selection

  /** What `ServiceConnection.Create` is given. */
  datatype Credentials = Credentials(url: string, userName: string, password: string, organizationName: string)

  /** The platform's answer to a connection request: the organizations the
      connection sees, or the exception's message. */
  datatype Connection = Connected(organizations: seq<Vendor>) | Rejected(message: string)

  /** The vendor platform as seen by `ServiceConnection.Create`. */
  datatype Platform = Platform(connect: Credentials -> Connection)

  /** `string.Format("{0}/docuware/platform", serverUrl)`. */
  function PlatformUrl(serverUrl: string): string
  {
    serverUrl + "/docuware/platform"
  }

  /** The constructor's work: connect, then take the first organization
      (`Organizations[0]`, which throws when there is none). */
  function Connect(platform: Platform, serverUrl: string, organizationName: string, userName: string, userPassword: string): (r: Result<Vendor, Error>)
    ensures var c := platform.connect(Credentials(PlatformUrl(serverUrl), userName, userPassword, organizationName));
            && (r.Ok? <==> c.Connected? && |c.organizations| > 0)
            && (r.Ok? ==> r.value == c.organizations[0])
            && (c.Rejected? ==> r == Err(Refused(c.message)))
            && (c.Connected? && |c.organizations| == 0 ==> r == Err(IndexOutOfRange))
  {
    match platform.connect(Credentials(PlatformUrl(serverUrl), userName, userPassword, organizationName))
    case Rejected(m) => Err(Refused(m))
    case Connected(organizations) =>
      if |organizations| == 0 then Err(IndexOutOfRange) else Ok(organizations[0])
  }

  /** The query `IsDuplicate` runs: the builder's conditions, AND-combined. */
  function DuplicateQuery(conditions: seq<Condition>): Query
  {
    Query(And, conditions, [], None)
  }

  // ---------------------------------------------------------------------
  // Download
  // ---------------------------------------------------------------------

  /** `Download`: locate the document; when it is there, create the target
      directory, write the downloaded file into it and answer with the
      file's name. Files and directories only accumulate. */
  function DownloadRun(organization: Vendor, d: Disk, fileCabinetId: string, queryDialogId: string,
                       documentId: string, locationResult: string): (r: Run<seq<string>>)
    ensures d.dirs <= r.disk.dirs && d.files.Keys <= r.disk.files.Keys
    ensures d.Valid() ==> r.disk.Valid()
  {
    match LocateDocument(organization, fileCabinetId, queryDialogId, documentId)
    case None => Run(d, Ok([]))
    case Some(document) =>
      var file := organization.fetch(document);
      match WithDirectory(d, locationResult)
      case Err(e) => Run(d, Err(e))
      case Ok(d1) =>
        match WithFile(d1, locationResult + "/" + file.fileName, file.content)
        case Err(e) => Run(d1, Err(e))
        case Ok(d2) => Run(d2, Ok([file.fileName]))
  }

  /** `Download` answers `[]` exactly when the cabinet, its dialog or the
      document is missing, and then touches nothing. Otherwise it answers
      with the one downloaded file's name, and that file, directly in the
      target directory, holds the downloaded bytes whether or not it
      existed before. It throws when a file stands where the target
      directory should be, when a directory stands where the file should
      be, and when the name holds a `/`, so that the file may lie in a
      directory that does not exist. */
  lemma DownloadResult(organization: Vendor, d: Disk, fileCabinetId: string, queryDialogId: string,
                       documentId: string, locationResult: string)
    ensures var r := DownloadRun(organization, d, fileCabinetId, queryDialogId, documentId, locationResult);
            var found := LocateDocument(organization, fileCabinetId, queryDialogId, documentId);
            && (r.result == Ok([]) <==> found.None?)
            && (found.None? ==> r.disk == d)
            && (r.result.Ok? ==> |r.result.value| <= 1)
            && (found.Some? ==>
                  var file := organization.fetch(found.value);
                  var path := locationResult + "/" + file.fileName;
                  && (locationResult in d.files ==> r == Run(d, Err(FileExists(locationResult))))
                  && (locationResult !in d.files && path in d.dirs ==> r.result == Err(AccessDenied(path)))
                  && (r.result.Err? && locationResult !in d.files && path !in d.dirs ==>
                        '/' in file.fileName && r.result.error == DirectoryNotFound(path))
                  && (r.result.Ok? ==>
                        && r.result.value == [file.fileName]
                        && r.disk.dirs == d.dirs + {locationResult}
                        && r.disk.files == d.files[path := file.content]))
  {
    var found := LocateDocument(organization, fileCabinetId, queryDialogId, documentId);
    if found.Some? {
      var file := organization.fetch(found.value);
      if '/' !in file.fileName {
        ParentOfChild(locationResult, file.fileName);
      }
    }
  }

  // ---------------------------------------------------------------------
  // unzipFile and ProcessDirectory
  // ---------------------------------------------------------------------

  /** `unzipFile`: only a name whose second `.`-segment is exactly `zip` is an
      archive; it is read from `location/<name>` and extracted with overwrite
      into `location/<first segment>`, created first. A name without `.`
      throws at `words[1]`. Files and directories only accumulate. */
  function UnzipRun(openArchive: Bytes -> Result<seq<ZipEntry>, string>, d: Disk,
                    fileName: string, location: string): (r: Run<()>)
    ensures d.dirs <= r.disk.dirs && d.files.Keys <= r.disk.files.Keys
    ensures d.Valid() ==> r.disk.Valid()
  {
    var words := Split(fileName, '.');
    if |words| < 2 then Run(d, Err(IndexOutOfRange))
    else if words[1] != "zip" then Run(d, Ok(()))
    else
      var zipPath := location + "/" + fileName;
      var extractPath := location + "/" + words[0];
      match WithDirectory(d, extractPath)
      case Err(e) => Run(d, Err(e))
      case Ok(d1) =>
        if zipPath !in d1.files then Run(d1, Err(FileNotFound(zipPath)))
        else
          match openArchive(d1.files[zipPath])
          case Err(m) => Run(d1, Err(Archive(m)))
          case Ok(entries) => ExtractAll(d1, entries, extractPath)
  }

  /** Only a name whose second segment is exactly `zip` is expanded; any
      other name with a `.` leaves the disk as it was. An archive's
      directory exists afterwards, unless a file already stood at its path,
      which throws before anything changes. */
  lemma UnzipOnlyArchives(openArchive: Bytes -> Result<seq<ZipEntry>, string>, d: Disk, fileName: string, location: string)
    ensures var words := Split(fileName, '.');
            var r := UnzipRun(openArchive, d, fileName, location);
            && (|words| < 2 ==> r == Run(d, Err(IndexOutOfRange)))
            && (|words| >= 2 && words[1] != "zip" ==> r == Run(d, Ok(())))
            && (|words| >= 2 && words[1] == "zip" && location + "/" + words[0] in d.files ==>
                  r == Run(d, Err(FileExists(location + "/" + words[0]))))
            && (|words| >= 2 && words[1] == "zip" && location + "/" + words[0] !in d.files ==>
                  location + "/" + words[0] in r.disk.dirs)
  {
    var words := Split(fileName, '.');
    if |words| >= 2 && words[1] == "zip" && location + "/" + words[0] !in d.files {
      var extractPath := location + "/" + words[0];
      var zipPath := location + "/" + fileName;
      var d1 := WithDirectory(d, extractPath).value;
      if zipPath in d1.files && openArchive(d1.files[zipPath]).Ok? {
        assert UnzipRun(openArchive, d, fileName, location) == ExtractAll(d1, openArchive(d1.files[zipPath]).value, extractPath);
      }
    }
  }

  /** `report.v2.zip` is not an archive: its second segment is `v2`. */
  lemma VersionedZipIgnored(openArchive: Bytes -> Result<seq<ZipEntry>, string>, d: Disk, location: string)
    ensures UnzipRun(openArchive, d, "report.v2.zip", location) == Run(d, Ok(()))
  {
    SplitThree("report", "v2", "zip", '.');
    assert "report" + ['.'] + "v2" + ['.'] + "zip" == "report.v2.zip";
    UnzipOnlyArchives(openArchive, d, "report.v2.zip", location);
  }

  /** A name without `.` throws at `words[1]` and touches nothing. */
  lemma NameWithoutDotThrows(openArchive: Bytes -> Result<seq<ZipEntry>, string>, d: Disk, location: string)
    ensures UnzipRun(openArchive, d, "a", location) == Run(d, Err(IndexOutOfRange))
  {
    assert |Split("a", '.')| == 1;
    UnzipOnlyArchives(openArchive, d, "a", location);
  }

  /** `a.zip` is expanded into `a`, unless a file `a` stands there. */
  lemma PlainZipExpanded(openArchive: Bytes -> Result<seq<ZipEntry>, string>, d: Disk, location: string)
    ensures location + "/a" !in d.files ==> location + "/a" in UnzipRun(openArchive, d, "a.zip", location).disk.dirs
    ensures location + "/a" in d.files ==> UnzipRun(openArchive, d, "a.zip", location) == Run(d, Err(FileExists(location + "/a")))
  {
    SplitTwo("a", "zip", '.');
    assert "a" + ['.'] + "zip" == "a.zip";
    UnzipOnlyArchives(openArchive, d, "a.zip", location);
    assert location + "/" + "a" == location + "/a";
  }

  /** `a.zip.pdf` is expanded into `a` too: only the second segment counts. */
  lemma ZipThenPdfExpanded(openArchive: Bytes -> Result<seq<ZipEntry>, string>, d: Disk, location: string)
    requires location + "/a" !in d.files
    ensures location + "/a" in UnzipRun(openArchive, d, "a.zip.pdf", location).disk.dirs
  {
    var name := "a" + ['.'] + "zip" + ['.'] + "pdf";
    SplitThree("a", "zip", "pdf", '.');
    UnzipOnlyArchives(openArchive, d, name, location);
    assert Split(name, '.')[0] == "a" && Split(name, '.')[1] == "zip";
    assert location + "/" + "a" == location + "/a";
    assert name == "a.zip.pdf";
  }

  /** A completed expansion of an archive leaves its directory in place, and
      each entry's file there holds the bytes of the last entry of that
      name. */
  lemma UnzipContents(openArchive: Bytes -> Result<seq<ZipEntry>, string>, d: Disk, fileName: string, location: string)
    requires |Split(fileName, '.')| >= 2 && Split(fileName, '.')[1] == "zip"
    requires UnzipRun(openArchive, d, fileName, location).result.Ok?
    ensures var extractPath := location + "/" + Split(fileName, '.')[0];
            var zipPath := location + "/" + fileName;
            var r := UnzipRun(openArchive, d, fileName, location);
            && extractPath in r.disk.dirs
            && zipPath in d.files
            && openArchive(d.files[zipPath]).Ok?
            && var entries := openArchive(d.files[zipPath]).value;
               && (forall k :: 0 <= k < |entries| ==> EntryPath(extractPath, entries[k]) in r.disk.files)
               && (forall k :: 0 <= k < |entries|
                     && (forall j :: k < j < |entries| ==> EntryPath(extractPath, entries[j]) != EntryPath(extractPath, entries[k]))
                     ==> r.disk.files[EntryPath(extractPath, entries[k])] == entries[k].content)
  {
    var extractPath := location + "/" + Split(fileName, '.')[0];
    var zipPath := location + "/" + fileName;
    UnzipArchiveRun(openArchive, d, fileName, location);
    var d1 := WithDirectory(d, extractPath).value;
    var entries := openArchive(d.files[zipPath]).value;
    var r := UnzipRun(openArchive, d, fileName, location);
    assert r == ExtractAll(d1, entries, extractPath);
    ExtractAllKeys(d1, entries, extractPath);
    ExtractAllLastWins(d1, entries, extractPath);
  }

  /** A completed expansion read the archive file and extracted its entries. */
  lemma UnzipArchiveRun(openArchive: Bytes -> Result<seq<ZipEntry>, string>, d: Disk, fileName: string, location: string)
    requires |Split(fileName, '.')| >= 2 && Split(fileName, '.')[1] == "zip"
    requires UnzipRun(openArchive, d, fileName, location).result.Ok?
    ensures var extractPath := location + "/" + Split(fileName, '.')[0];
            var zipPath := location + "/" + fileName;
            && WithDirectory(d, extractPath).Ok?
            && zipPath in d.files && openArchive(d.files[zipPath]).Ok?
            && UnzipRun(openArchive, d, fileName, location)
                 == ExtractAll(WithDirectory(d, extractPath).value, openArchive(d.files[zipPath]).value, extractPath)
  {
    var extractPath := location + "/" + Split(fileName, '.')[0];
    var zipPath := location + "/" + fileName;
    assert WithDirectory(d, extractPath).Ok?;
    assert zipPath in WithDirectory(d, extractPath).value.files;
  }

  /** `ProcessDirectory`: the files directly in `targetDirectory/<first
      segment of the name>`, each once, in enumeration order; a missing
      directory throws. */
  function ProcessDirectory(d: Disk, targetDirectory: string, fileName: string): (r: Result<seq<string>, Error>)
    ensures var dir := targetDirectory + "/" + FirstSegment(fileName, '.');
            && (r.Ok? <==> dir in d.dirs)
            && (r.Ok? ==> forall k :: 0 <= k < |r.value| ==> Parent(r.value[k]) == dir)
            && (r.Ok? && d.Valid() ==> Distinct(r.value) && forall p :: p in d.files && Parent(p) == dir <==> p in r.value)
  {
    GetFiles(d, targetDirectory + "/" + Split(fileName, '.')[0])
  }

  // ---------------------------------------------------------------------
  // The session
  // ---------------------------------------------------------------------

  class PlatformClient {
    /** The organization the session sees (`_org`, and also what the
        `Organization` property reads back). */
    const organization: Vendor
    var connected: bool
    /** How many times `Disconnect` has been called on the connection. */
    var disconnects: nat

    constructor (organization: Vendor)
      ensures this.organization == organization && connected && disconnects == 0
    {
      this.organization := organization;
      connected := true;
      disconnects := 0;
    }

    /** `new PlatformClient(serverUrl, organizationName, userName,
        userPassword)`: a connected session on the first organization, or
        the exception that stopped the constructor. */
    static method Create(platform: Platform, serverUrl: string, organizationName: string, userName: string, userPassword: string)
      returns (r: Result<PlatformClient, Error>)
      ensures var c := Connect(platform, serverUrl, organizationName, userName, userPassword);
              && (r.Ok? <==> c.Ok?)
              && (r.Err? ==> r.error == c.error)
              && (r.Ok? ==> fresh(r.value) && r.value.organization == c.value
                            && r.value.connected && r.value.disconnects == 0)
    {
      var c := Connect(platform, serverUrl, organizationName, userName, userPassword);
      if c.Err? {
        return Err(c.error);
      }
      var client := new PlatformClient(c.value);
      return Ok(client);
    }

    /** `Logout`: disconnects once more. */
    method Logout()
      modifies this
      ensures !connected && disconnects == old(disconnects) + 1
    {
      connected := false;
      disconnects := disconnects + 1;
    }

    /** `IsDuplicate`: throws `DuplicateDocumentException` exactly when the
        request's conditions can be built and the file cabinet search
        finds at least one document; otherwise it passes, or lets the
        builder's or the search's exception through. */
    method IsDuplicate(dlgInfos: DlgInfos) returns (r: Outcome<Error>)
      ensures var conditions := ConcatMap(dlgInfos.values, Contribution);
              var found := if conditions.Err? then Err(conditions.error)
                           else FindDocuments(organization, dlgInfos.fileCabinetGuid, false, DuplicateQuery(conditions.value));
              && (r == Fail(DuplicateDocument) <==> found.Ok? && |found.value| > 0)
              && (r == Pass <==> found.Ok? && |found.value| == 0)
              && (found.Err? ==> r == Fail(found.error))
    {
      var conditions := GetDialogExpressionConditions(dlgInfos);
      ConditionErrors(dlgInfos.values);
      if conditions.Err? {
        return Fail(conditions.error);
      }
      var found := FindDocuments(organization, dlgInfos.fileCabinetGuid, false, DuplicateQuery(conditions.value));
      if found.Err? {
        return Fail(found.error);
      }
      if |found.value| > 0 {
        return Fail(DuplicateDocument);
      }
      return Pass;
    }

    /** `Download`, writing into the file store. */
    method Download(fs: FileStore, organization: Vendor, fileCabinetId: string, queryDialogId: string,
                    documentId: string, fieldValue: string, locationResult: string)
      returns (result: Result<seq<string>, Error>)
      modifies fs
      ensures Run(fs.disk, result) == DownloadRun(organization, old(fs.disk), fileCabinetId, queryDialogId, documentId, locationResult)
    {
      var document := LocateDocument(organization, fileCabinetId, queryDialogId, documentId);
      if document.None? {
        return Ok([]);
      }
      var file := organization.fetch(document.value);
      var created := fs.CreateDirectory(locationResult);
      if created.Err? {
        return Err(created.error);
      }
      var written := fs.WriteFile(locationResult + "/" + file.fileName, file.content);
      if written.Err? {
        return Err(written.error);
      }
      return Ok([file.fileName]);
    }

    /** `unzipFile`, extracting entry by entry into the file store. */
    method UnzipFile(fs: FileStore, fileName: string, fieldValue: string, location: string)
      returns (r: Result<(), Error>)
      modifies fs
      ensures Run(fs.disk, r) == UnzipRun(fs.openArchive, old(fs.disk), fileName, location)
    {
      var words := Split(fileName, '.');
      if |words| < 2 {
        return Err(IndexOutOfRange);
      }
      if words[1] != "zip" {
        return Ok(());
      }
      var zipPath := location + "/" + fileName;
      var extractPath := location + "/" + words[0];
      var created := fs.CreateDirectory(extractPath);
      if created.Err? {
        return Err(created.error);
      }
      if zipPath !in fs.disk.files {
        return Err(FileNotFound(zipPath));
      }
      var archive := fs.openArchive(fs.disk.files[zipPath]);
      if archive.Err? {
        return Err(Archive(archive.error));
      }
      var entries := archive.value;
      ghost var start := fs.disk;
      assert entries[0..] == entries;
      for i := 0 to |entries|
        invariant ExtractAll(start, entries, extractPath) == ExtractAll(fs.disk, entries[i..], extractPath)
      {
        assert entries[i..][1..] == entries[i + 1..];
        var written := fs.WriteFile(EntryPath(extractPath, entries[i]), entries[i].content);
        if written.Err? {
          return Err(written.error);
        }
      }
      assert entries[|entries|..] == [];
      return Ok(());
    }
  }
}
