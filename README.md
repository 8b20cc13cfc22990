# Validation web API: a Dafny model

The validation web API answers one HTTP POST. The request names a DocuWare
server, an organization, the user's credentials, a file cabinet and a search
dialog, and one index field with a value. The controller then does five things:

- It opens a platform session.
- It searches the cabinet for the documents whose field holds that value.
- It downloads each document into the public web directory of that value.
- It expands each downloaded ZIP archive next to it.
- It answers with the public paths of what is now there.

Any exception turns into a `Failed` answer carrying the exception's message.
Once the session has been opened, it is closed on every way out.
`PlatformClient` also holds the duplicate check: it builds search conditions
from a list of typed index fields and reports whether any document already
matches them.

The model consists of these modules:

- `Conditions`: the condition builder. It is a method whose loop is proved
  against the list each field contributes. Dates are written in the
  sortable `yyyy-MM-ddTHH:mm:ss` format of ISO 8601:2004, section 4.3.2.
  That format is modelled in `Timestamps` with its parser and round trip.
- `Selection`: the rules `PlatformClient` applies to what the platform
  returns:
  - file cabinets versus document trays;
  - unique case-insensitive lookup;
  - the default search dialog;
  - the search;
  - the exact-id lookup chain of `Download`.

  The platform is a value: its cabinet listing, a function answering a
  dialog expression, and a function giving the file a document downloads
  as.
- `Storage`: the server's file system as a value. It holds directories, files
  and the order in which files were first created. The `FileStore` class
  holds the current disk and is changed in place by creating directories
  and writing files. Reading a ZIP archive is a function of the archive's
  bytes.
- `Client`: the `PlatformClient` class. It covers:
  - connecting, which is the constructor's work;
  - `Logout`;
  - `IsDuplicate`;
  - `Download`, as a lookup followed by a file write;
  - `unzipFile`, a loop that extracts each entry with overwrite;
  - `ProcessDirectory`.

  Each method is proved against a function of the disk before it.
- `Validation`: `ValidationController.Post` as a method with its
  `try`/`catch`/`finally`. The three loops are methods, each proved against
  a function:
  - downloading;
  - expanding archives;
  - shaping paths.

  `PostRun` gives the answer, the disk and whether a session was opened.
  Lemmas state what an answer means.
- `Text`, `Sequences`, `Wrappers` and `Failures`: the `string` and LINQ
  operations the code relies on, and the exceptions with their .NET
  messages.

The search `Post` runs has exactly one condition, field = value, sorted
descending on that field (`Validation.SearchQuery`). The query `Download`
runs asks for `DWDOCID` = id, sorted descending, at most 100 results
(`Selection.DownloadQuery`).

Exceptions are values (`Result`), and the method that catches them maps
them to the answer. This exposes one behaviour of the code. When the
platform accepts the credentials but lists no organization, the constructor
throws at `Organizations[0]`. The session variable then stays null, so that
connection is never disconnected. `PostRun` reports `session == false` for
this case, like any other connection failure.

## Model

| member | source | states |
|---|---|---|
| Text.LowerIdempotent | ValidationWebAPI/Models/PlatformClient.cs:136-162 | lower-casing twice is lower-casing once |
| Text.Split | ValidationWebAPI/Models/PlatformClient.cs:271 | `Split('.')` yields at least one part, and exactly one iff the name has no `.` |
| Text.JoinSplit | ValidationWebAPI/Models/PlatformClient.cs:271 | joining the parts with `.` gives back the name, and no part holds a `.` |
| Text.SplitJoin | ValidationWebAPI/Models/PlatformClient.cs:271 | splitting parts joined with `.` gives back the parts when none holds a `.` |
| Text.FirstSegment | ValidationWebAPI/Models/PlatformClient.cs:293-294 | `words[0]` is the longest prefix of the name without a `.` |
| Text.RemoveAll | ValidationWebAPI/Controllers/ValidationController.cs:69 | `Replace(root, "")` never makes a path longer |
| Text.RemoveAllUnchanged | ValidationWebAPI/Controllers/ValidationController.cs:69 | the replacement leaves a path unchanged iff the root does not occur in it |
| Text.RemoveLeading | ValidationWebAPI/Controllers/ValidationController.cs:69 | removing the root from the root followed by text without it leaves exactly that text |
| Text.DecimalText | ValidationWebAPI/Controllers/ValidationController.cs:50 | the `$"{document.Id}"` text is non-empty and all digits |
| Text.DecimalTextValue | ValidationWebAPI/Controllers/ValidationController.cs:50 | the text reads back as the id, so distinct documents are asked for by distinct `DWDOCID` values |
| Timestamps.Sortable | ValidationWebAPI/Models/PlatformClient.cs:154-160 | the `"s"` text is 19 characters, with `-`, `-`, `T`, `:`, `:` at positions 4, 7, 10, 13, 16 |
| Timestamps.SortableRoundTrip | ValidationWebAPI/Models/PlatformClient.cs:159-160 | reading the `"s"` text back gives the same instant |
| Timestamps.MidnightFormat | ValidationWebAPI/Models/PlatformClient.cs:154-155 | `dateTime.Date` written with `"s"` keeps the date part and ends in `T00:00:00` |
| Sequences.Filter | ValidationWebAPI/Models/PlatformClient.cs:53-55 | a `where` keeps exactly the elements that satisfy it, in order |
| Sequences.FilterPartition | ValidationWebAPI/Models/PlatformClient.cs:53-65 | a predicate and its negation split a sequence into two parts whose multisets add up to it |
| Sequences.FirstOrDefault | ValidationWebAPI/Models/PlatformClient.cs:105 | `FirstOrDefault` is null iff nothing matches, and otherwise the first match |
| Sequences.FirstOrDefaultFirst | ValidationWebAPI/Models/PlatformClient.cs:105 | when position `i` is the first match, `FirstOrDefault` gives the element at `i` |
| Sequences.SingleMatch | ValidationWebAPI/Models/PlatformClient.cs:73-85 | `SingleOrDefault` is null with no element, the element with one, and throws with two or more |
| Sequences.ConcatMapOk | ValidationWebAPI/Controllers/ValidationController.cs:61-78 | an item-by-item list build succeeds iff every item succeeds, and then has the summed length |
| Sequences.ConcatMapFirstError | ValidationWebAPI/Models/PlatformClient.cs:134-171 | a failing build raises the exception of the first failing item |
| Sequences.ConcatMapAppend | ValidationWebAPI/Controllers/ValidationController.cs:61-78 | building over `a + b` gives `a`'s list followed by `b`'s, and stops at an exception in `a` |
| Conditions.Contribution | ValidationWebAPI/Models/PlatformClient.cs:136-170 | every condition a field adds is on that field's own name |
| Conditions.GetDialogExpressionConditions | ValidationWebAPI/Models/PlatformClient.cs:131-173 | the loop's list is, in field order, the concatenation of what each field contributes, or the first exception |
| Conditions.AppendFieldConditions | ValidationWebAPI/Models/PlatformClient.cs:136-170 | one iteration, including the keyword loop, appends the field's contribution to the list so far |
| Conditions.KindIgnoresCase | ValidationWebAPI/Models/PlatformClient.cs:136-162 | a kind name differing only in letter case contributes the same conditions |
| Conditions.TextKindContribution | ValidationWebAPI/Models/PlatformClient.cs:136-151 | a non-null `string`, `decimal`, `int` or `memo` item contributes exactly one condition, the item's text on the field |
| Conditions.SilentContribution | ValidationWebAPI/Models/PlatformClient.cs:134-171 | a null item, or a kind outside the seven known ones, contributes nothing |
| Conditions.DateContribution | ValidationWebAPI/Models/PlatformClient.cs:152-156 | a `date` item contributes one 19-character condition that reads back as the date at midnight |
| Conditions.DateTimeContribution | ValidationWebAPI/Models/PlatformClient.cs:157-161 | a `datetime` item contributes one 19-character condition that reads back as the parsed instant |
| Conditions.KeywordsContribution | ValidationWebAPI/Models/PlatformClient.cs:162-170 | a `keywords` item contributes one condition per keyword, in keyword order, all on the field; none for an empty list |
| Conditions.ContributionErrors | ValidationWebAPI/Models/PlatformClient.cs:152-170 | a field throws iff it has an item but a null kind, is a date or datetime whose text does not parse, or is keywords whose JSON does not |
| Conditions.ConditionsInOrder | ValidationWebAPI/Models/PlatformClient.cs:131-173 | fields `a + b` give `a`'s conditions then `b`'s, and the length is the sum of the contributions |
| Conditions.ConditionsOnInputFields | ValidationWebAPI/Models/PlatformClient.cs:134-170 | every condition is on the name of some input field |
| Conditions.ConditionErrors | ValidationWebAPI/Models/PlatformClient.cs:131-173 | the builder throws only a null reference, a date-time format error or a JSON error |
| Storage.ParentOfChild | ValidationWebAPI/Models/PlatformClient.cs:251-256 | `dir + "/" + name` lies directly in `dir` when the name has no `/` |
| Storage.ParentSplits | ValidationWebAPI/Models/PlatformClient.cs:294 | a path in a non-empty directory is that directory, `/`, and a name without `/` |
| Storage.ChildName | ValidationWebAPI/Models/PlatformClient.cs:294 | a path directly in a non-empty directory is that directory, `/` and a name without `/` |
| Storage.Combine | ValidationWebAPI/Models/PlatformClient.cs:284 | `Path.Combine` returns a rooted entry name unchanged, and otherwise joins the two with one `/` |
| Storage.WithDirectory | ValidationWebAPI/Models/PlatformClient.cs:251 | creating a directory throws `IOException` iff a file has that path; otherwise it adds the directory, changes nothing else and keeps the disk well formed |
| Storage.WithFile | ValidationWebAPI/Models/PlatformClient.cs:256-263 | creating a file succeeds iff no directory has that path and its own directory exists; a directory there throws `UnauthorizedAccessException`, a missing one `DirectoryNotFoundException`; success sets exactly that file, keeping the disk well formed |
| Storage.GetFiles | ValidationWebAPI/Models/PlatformClient.cs:294 | listing succeeds iff the directory exists, and then lists each file directly in it exactly once |
| Storage.ExtractAll | ValidationWebAPI/Models/PlatformClient.cs:279-287 | extracting never removes a directory or file, and keeps the disk well formed |
| Storage.ExtractAllKeys | ValidationWebAPI/Models/PlatformClient.cs:281-285 | after a full extraction the files are exactly those there before plus one per entry path |
| Storage.ExtractAllLastWins | ValidationWebAPI/Models/PlatformClient.cs:284 | with overwrite on, each entry path holds the bytes of the last entry written there |
| Storage.ExtractAllUntouched | ValidationWebAPI/Models/PlatformClient.cs:281-285 | a file no entry is written to keeps its bytes |
| Storage.RootedEntryEscapes | ValidationWebAPI/Models/PlatformClient.cs:284 | an entry with a rooted name is written at that name, outside the extraction directory |
| Storage.EmptyEntryRefused | ValidationWebAPI/Models/PlatformClient.cs:284 | an entry with an empty name targets the extraction directory itself and throws before anything is written |
| Storage.FileStore.CreateDirectory | ValidationWebAPI/Models/PlatformClient.cs:251 | the new disk is the one `WithDirectory` gives, or the disk is unchanged and the `IOException` is returned when a file has that path |
| Storage.FileStore.WriteFile | ValidationWebAPI/Models/PlatformClient.cs:256-263 | the new disk is the one `WithFile` gives, or the disk is unchanged and its exception is returned |
| Selection.CabinetsAndTraysPartition | ValidationWebAPI/Models/PlatformClient.cs:51-66 | every cabinet is in exactly one of the two listings; together they are a permutation of the whole; each keeps the original order |
| Selection.GetFileCabinet | ValidationWebAPI/Models/PlatformClient.cs:71-76 | the lookup throws only `InvalidOperationException`, and a cabinet it returns is a non-basket of the listing whose id matches ignoring case |
| Selection.GetDocumentTray | ValidationWebAPI/Models/PlatformClient.cs:81-86 | the lookup throws only `InvalidOperationException`, and a tray it returns is a basket of the listing whose name matches ignoring case |
| Selection.GetFileCabinetSpec | ValidationWebAPI/Models/PlatformClient.cs:69-76 | null iff no non-basket id matches ignoring case; throws iff two do; otherwise the one match |
| Selection.GetDocumentTraySpec | ValidationWebAPI/Models/PlatformClient.cs:78-86 | null iff no basket name matches ignoring case; throws iff two do; otherwise the one match |
| Selection.DefaultSearchDialog | ValidationWebAPI/Models/PlatformClient.cs:103-106 | null iff no search dialog has `IsDefault == !IsBasket`, otherwise the first one that has |
| Selection.FindDocuments | ValidationWebAPI/Models/PlatformClient.cs:93-99 | the search throws only a null reference or a "more than one element" error |
| Selection.FindDocumentsSpec | ValidationWebAPI/Models/PlatformClient.cs:93-99 | no matching cabinet is a null reference, two are an error, and a result is the default dialog's answer for the one match |
| Selection.FindDocumentsUnique | ValidationWebAPI/Models/PlatformClient.cs:93-106 | with exactly one matching cabinet the search answers what its default dialog returns, and throws a null reference when it has no default dialog |
| Selection.FindInTraySpec | ValidationWebAPI/Models/PlatformClient.cs:93-106 | searching trays by name: none matching is a null reference, two are an error, one answers its default dialog's documents or throws a null reference without one |
| Selection.DownloadQuery | ValidationWebAPI/Models/PlatformClient.cs:201-213 | the download query is an AND over the one condition `DWDOCID` = the document id, sorted descending on `DWDOCID`, capped at 100 |
| Selection.DownloadQueryDistinct | ValidationWebAPI/Models/PlatformClient.cs:201-213 | two document ids give the same download query iff they are equal |
| Selection.LocateDocument | ValidationWebAPI/Models/PlatformClient.cs:193-233 | no cabinet with the exact id finds nothing; a found document is the first answer to the id query in a cabinet and dialog with exactly those ids |
| Selection.LocateDocumentSpec | ValidationWebAPI/Models/PlatformClient.cs:193-233 | the first cabinet with the exact id decides; no dialogs relation or no dialog with the exact id finds nothing; otherwise the first document of the first such dialog's answer; so a document is found iff cabinet, dialogs, dialog and an answer are all there |
| Selection.CabinetWithId | ValidationWebAPI/Models/PlatformClient.cs:193 | no cabinet iff none has exactly the id; otherwise the first cabinet with that id |
| Selection.DialogWithId | ValidationWebAPI/Models/PlatformClient.cs:221 | no dialog iff none has exactly the id; otherwise the first dialog with that id |
| Selection.DownloadLookupIsCaseSensitive | ValidationWebAPI/Models/PlatformClient.cs:193 | when the one cabinet the search finds ignoring case has no exact-id twin, the search uses it and the download finds nothing |
| Selection.CaseSensitiveExample | ValidationWebAPI/Models/PlatformClient.cs:193 | a cabinet `ABC` asked for as `abc` is found by the search and not by the download |
| Client.Connect | ValidationWebAPI/Models/PlatformClient.cs:32-41 | connecting succeeds iff the platform accepts and lists an organization, giving the first; a refusal passes the platform's message on, and no organization throws an index error |
| Client.DownloadRun | ValidationWebAPI/Models/PlatformClient.cs:189-267 | downloading never removes a directory or file, and keeps the disk well formed |
| Client.DownloadResult | ValidationWebAPI/Models/PlatformClient.cs:189-267 | `[]` iff cabinet, dialog or document is missing, with the disk untouched; otherwise `[FileName]`, the target directory added and no other, and the file holding the downloaded bytes, overwritten if present, with no other file changed; `IOException` when a file stands at the target directory, `UnauthorizedAccessException` when a directory stands at the file's path, and otherwise an exception only for a name with `/` |
| Client.UnzipRun | ValidationWebAPI/Models/PlatformClient.cs:269-289 | expanding never removes a directory or file, and keeps the disk well formed |
| Client.UnzipOnlyArchives | ValidationWebAPI/Models/PlatformClient.cs:271-276 | no `.` throws and changes nothing; a second segment other than `zip` changes nothing; `zip` creates `location/<first segment>`, or throws `IOException` without change when a file stands there |
| Client.VersionedZipIgnored | ValidationWebAPI/Models/PlatformClient.cs:271-272 | `report.v2.zip` is left alone |
| Client.NameWithoutDotThrows | ValidationWebAPI/Models/PlatformClient.cs:271-272 | `a` throws an index error before touching the disk |
| Client.PlainZipExpanded | ValidationWebAPI/Models/PlatformClient.cs:271-276 | `a.zip` is expanded into `location/a`, or throws `IOException` without change when a file `a` stands there |
| Client.ZipThenPdfExpanded | ValidationWebAPI/Models/PlatformClient.cs:271-276 | `a.zip.pdf` is expanded into `location/a` too |
| Client.UnzipContents | ValidationWebAPI/Models/PlatformClient.cs:274-287 | a finished expansion read `location/<name>`, created the directory, and wrote every entry there, the last same-path entry winning |
| Client.ProcessDirectory | ValidationWebAPI/Models/PlatformClient.cs:291-296 | lists `target/<first segment>`, iff it exists, holding each file directly in it exactly once |
| Client.PlatformClient.constructor | ValidationWebAPI/Models/PlatformClient.cs:32-41 | a new session holds the organization and is connected |
| Client.PlatformClient.Create | ValidationWebAPI/Models/PlatformClient.cs:32-41 | a session exists iff the platform accepts the credentials and lists an organization; it holds the first one |
| Client.PlatformClient.Logout | ValidationWebAPI/Models/PlatformClient.cs:175-178 | the session is disconnected, one more time |
| Client.PlatformClient.IsDuplicate | ValidationWebAPI/Models/PlatformClient.cs:115-129 | throws the duplicate exception iff the AND query of the built conditions finds a document; returns iff it finds none; passes on other exceptions |
| Client.PlatformClient.Download | ValidationWebAPI/Models/PlatformClient.cs:189-267 | the answer and the new disk are those of `DownloadRun` on the old disk |
| Client.PlatformClient.UnzipFile | ValidationWebAPI/Models/PlatformClient.cs:269-289 | the entry loop leaves the disk and outcome of `UnzipRun` on the old disk |
| Failures.MessageIsNotReason | ValidationWebAPI/Controllers/ValidationController.cs:96-99 | an exception message the .NET runtime or the web API writes never reads `Succesfully` or `Not result`; only messages passed on from the JSON reader, the ZIP reader or the platform could |
| Validation.SearchQuery | ValidationWebAPI/Controllers/ValidationController.cs:31-42 | the search is AND over the one condition the condition builder makes of a `string` field holding the value, sorted descending on the field, with no cap |
| Validation.Relative | ValidationWebAPI/Controllers/ValidationController.cs:67-71 | one path per listed path, never longer, unchanged iff the public root does not occur in it |
| Validation.ShapeOne | ValidationWebAPI/Controllers/ValidationController.cs:61-76 | one name's paths; it throws only at `words[1]` or on a missing archive directory |
| Validation.Shape | ValidationWebAPI/Controllers/ValidationController.cs:61-78 | the third loop completes iff no name throws |
| Validation.ErrorResponse | ValidationWebAPI/Controllers/ValidationController.cs:96-99 | the error answer is `Failed`, with a null result and the exception's message as its reason |
| Validation.Gather | ValidationWebAPI/Controllers/ValidationController.cs:47-52 | the first loop only adds directories and files, keeps the disk well formed, and keeps one name per document |
| Validation.Expand | ValidationWebAPI/Controllers/ValidationController.cs:53-60 | the second loop only adds directories and files and keeps the disk well formed |
| Validation.ProcessRun | ValidationWebAPI/Controllers/ValidationController.cs:15-84 | a returned answer is `OK` with a list and reason `Succesfully` or `Not result`; no documents answer `Not result` with an empty list and the disk untouched |
| Validation.PostRun | ValidationWebAPI/Controllers/ValidationController.cs:12-99 | the result is null iff the status is `Failed`; `OK` implies a session; a session iff connecting succeeded; without one the disk is untouched; no documents answer `Not result`; a refused connection or an exception in the `try` block answers `CreateErrorResponse` of that exception |
| Validation.Post | ValidationWebAPI/Controllers/ValidationController.cs:12-94 | answer and disk are those of `PostRun`; the session variable is non-null iff connecting succeeded, and then logged out exactly once |
| Validation.Process | ValidationWebAPI/Controllers/ValidationController.cs:17-84 | the `try` block's answer or exception and disk are those of `ProcessRun` |
| Validation.DownloadDocuments | ValidationWebAPI/Controllers/ValidationController.cs:47-52 | the first loop's names and disk are those of `Gather` |
| Validation.ExpandArchives | ValidationWebAPI/Controllers/ValidationController.cs:53-60 | the second loop's outcome and disk are those of `Expand` |
| Validation.ShapeResult | ValidationWebAPI/Controllers/ValidationController.cs:61-78 | the third loop, with its inner loop, builds the list `Shape` gives, or its exception |
| Validation.AppendRelative | ValidationWebAPI/Controllers/ValidationController.cs:67-71 | the inner loop appends, in listing order, each listed path with the public root removed, and nothing else |
| Validation.GatherDownloads | ValidationWebAPI/Controllers/ValidationController.cs:47-52 | after the first loop each document was located by its `DWDOCID`; the kept name is its downloaded file's name; that file lies in the field value's public directory |
| Validation.MissingDocumentFails | ValidationWebAPI/Controllers/ValidationController.cs:50-89 | a listed document the download cannot find makes the answer `Failed` with a null result; when every earlier document was downloaded, the reason is the `ArgumentOutOfRangeException` message of `fileResult[0]` |
| Validation.GatherStops | ValidationWebAPI/Controllers/ValidationController.cs:47-52 | after downloads that all succeeded, a document that cannot be found makes the first loop throw at `fileResult[0]` |
| Validation.NameWithoutDotFails | ValidationWebAPI/Controllers/ValidationController.cs:55-89 | a downloaded name without `.` makes the answer `Failed` with a null result; when every earlier name went through the second loop, the reason is the `IndexOutOfRangeException` message of `words[1]` |
| Validation.ExpandStops | ValidationWebAPI/Controllers/ValidationController.cs:53-60 | after names that all went through, a name without `.` makes the second loop throw at `words[1]` |
| Validation.ExpandChecks | ValidationWebAPI/Controllers/ValidationController.cs:53-60 | after the second loop every name has a `.`, and every archive's directory exists |
| Validation.ShapeAfterExpand | ValidationWebAPI/Controllers/ValidationController.cs:53-78 | once every zip is expanded, path shaping cannot throw |
| Validation.PostAfterExpansion | ValidationWebAPI/Controllers/ValidationController.cs:44-84 | with documents found, downloaded and expanded, the answer is `OK`, `Succesfully`, with the shaped paths |
| Validation.PostSucceeded | ValidationWebAPI/Controllers/ValidationController.cs:12-93 | an `OK` `Succesfully` answer means the session was opened, the answer and disk are the `try` block's, and everything `ProcessSucceeded` lists holds |
| Validation.ProcessSucceeded | ValidationWebAPI/Controllers/ValidationController.cs:43-84 | a `Succesfully` answer means: documents found; each located and stored in the public directory; each name dotted; each archive's directory present; the result is the shaped paths |
| Validation.ProcessSteps | ValidationWebAPI/Controllers/ValidationController.cs:43-84 | a `Succesfully` answer comes only after a search with results and complete download, expansion and shaping loops |
| Validation.GatherStep | ValidationWebAPI/Controllers/ValidationController.cs:47-52 | in a completed first loop the first document is located, its file is stored, and the loop goes on from the disk that download leaves |
| Validation.ListedPath | ValidationWebAPI/Controllers/ValidationController.cs:66-70 | a listed path in `<root>/<value>/<segment>` is that directory, `/` and a name; cutting the root off gives `/<value>/<segment>/<name>` when the rest does not repeat the root |
| Validation.PublicPath | ValidationWebAPI/Controllers/ValidationController.cs:69 | `Replace(root, "")` turns `<root>/<value>/<segment>/<name>` into `/<value>/<segment>/<name>` when the rest does not repeat the root |
| Validation.ShapeOnePaths | ValidationWebAPI/Controllers/ValidationController.cs:61-76 | a name without `.` throws an index error; a non-archive gives `/<value>/<name>`; an archive succeeds iff its directory exists, and then gives one path per file directly in it, each file once, of the form `/<value>/<first segment>/<name>` unless the rest repeats the public root |
| Validation.ShapeInOrder | ValidationWebAPI/Controllers/ValidationController.cs:61-78 | paths follow download order: each name's paths come before the next name's |

## Left out

- The DocuWare SDK is not modelled. Connection, relations and download
  requests are given as values and functions: `Platform.connect`,
  `Vendor.cabinets`, `Vendor.runQuery` and `Vendor.fetch`. Their internal
  failures (network, HTTP, licensing) are not modelled.
- The `Organization` property fetches the first organization again through
  its self relation. The model passes the session's organization, which is
  the same one when the platform answers consistently.
- `Logout` is modelled as a counter of disconnections. `Disconnect` is assumed
  not to throw.
- `DateTime.Parse` and `JsonConvert.DeserializeObject` are given as
  already-parsed values on the item. They are culture-dependent or foreign
  library code. A failed date parse is `FormatException` with the .NET
  default text. A failed JSON read carries the reader's message as given;
  which inputs the reader refuses, and its wording, are not modelled.
- Case-insensitive comparison (`InvariantCultureIgnoreCase`, `ToLower`) folds
  only ASCII letters A to Z. Unicode case mapping is not modelled.
- Streams, content type and content length are not modelled. A downloaded
  file is its name and bytes, and a file is created whole. The I/O errors
  modelled are a missing directory, a missing file, a file where a
  directory is created (`IOException`) and a directory where a file is
  written (`UnauthorizedAccessException`). Partial writes, full disks,
  permissions, locks and long paths are not modelled.
- The ZIP format is not modelled. `ZipFile.OpenRead` is a function from the
  archive's bytes to its entries or an error message. `ExtractToFile` is
  assumed to need an existing directory. An entry whose name names a
  directory, or holds `..`, is treated as a plain path.
- `Directory.CreateDirectory` records only the directory it is given. It
  neither creates the missing ancestors nor checks them for files; it throws
  only when a file has the given path itself.
- Paths are compared as text. `loc/` and `loc` are two directories in the
  model, while .NET treats them as one. A name such as `.zip` thus expands
  into `loc/`, a directory the model keeps apart from `loc`.
- Null request parts are not modelled. A null `dlgInfos.Values`, a null
  element of it, or a keyword payload that reads as `null` or has no
  `Keyword` throws `NullReferenceException` in the code. The model's
  request always has these parts.
- `Document.Id` is a C# `int` and is modelled as `nat`: a negative id, and
  the `-` its text would start with, are not modelled.
- Fractions of a second are not modelled. An instant is whole seconds, so
  `DateTimeContribution`'s read-back gives the parsed instant only because
  the `"s"` format drops fractions and the model has none to drop.
- `Directory.GetFiles` lists files in the order they were first created.
  The order .NET actually returns depends on the file system and is not
  specified.
- `DownloadDocumentThumbnail` is not modelled because no part of the web
  API calls it. Console output is left out.
- Validation.PostSucceeded: it requires the status `OK` as well as the reason
  `Succesfully`. A `Failed` answer carries the exception's message as its
  reason (`PostRun`, `ErrorResponse`). `MessageIsNotReason` shows that no
  message the runtime or the web API writes reads `Succesfully`, but a
  message passed on from the JSON reader, the ZIP reader or the platform
  could.
- Client.DownloadResult: for a file name containing `/` it states only that
  a failure is a missing-directory error. Whether the write succeeds then
  depends on directories created earlier.
- Validation.ShapeOnePaths: the `/<value>/<first segment>/<name>` form is
  stated only when the part after the public root does not itself contain
  the root's text. `Replace` also removes such a repeat, and the model
  computes that case but does not give it a separate form.
- JSON serialisation of the answer and HTTP routing are not modelled.
