/** The selection rules of `PlatformClient`: which file cabinets and document
    trays a listing holds, the lookups by id or name, the default search
    dialog, the search itself, and the lookup chain `Download` follows to one
    document. The vendor platform is given as data and functions: its
    cabinet listing, the answer to a dialog expression, and the file a
    document downloads as. */
module Selection {
  import opened Wrappers
  import opened Failures
  import opened Text
  import opened Sequences
  import opened Conditions
  import opened Storage

  datatype DialogInfo = DialogInfo(id: string, isDefault: bool)

  /** A file cabinet or, when `isBasket`, a document tray. `searches` are the
      dialogs of its searches relation; `dialogs` those of its dialogs
      relation, which the platform may leave out. */
  datatype FileCabinet = FileCabinet(
    id: string,
    name: string,
    isBasket: bool,
    searches: seq<DialogInfo>,
    dialogs: Option<seq<DialogInfo>>)

  datatype Document = Document(id: nat)

  /** The answer to a file download request: its file name and its bytes. */
  datatype DownloadedFile = DownloadedFile(fileName: string, content: Bytes)

  /** The organization the client is connected to. */
  datatype Vendor = Vendor(
    cabinets: seq<FileCabinet>,
    runQuery: (DialogInfo, Query) -> seq<Document>,
    fetch: Document -> DownloadedFile)

  // ---------------------------------------------------------------------
  // Listings
  // ---------------------------------------------------------------------

  predicate IsFileCabinet(c: FileCabinet)
  {
    !c.isBasket
  }

  predicate IsDocumentTray(c: FileCabinet)
  {
    c.isBasket
  }

  /** `GetAllFileCabinetsUserHasAccessTo`. */
  function GetAllFileCabinets(all: seq<FileCabinet>): seq<FileCabinet>
  {
    Filter(all, IsFileCabinet)
  }

  /** `GetAllDocumentTraysUserHasAccessTo`. */
  function GetAllDocumentTrays(all: seq<FileCabinet>): seq<FileCabinet>
  {
    Filter(all, IsDocumentTray)
  }

  /** Every entry of the organization's listing lands in exactly one of the two
      listings, and each listing keeps the listing's order: the listings of
      two consecutive parts are the parts' listings one after the other. */
  lemma CabinetsAndTraysPartition(all: seq<FileCabinet>, more: seq<FileCabinet>)
    ensures multiset(GetAllFileCabinets(all)) + multiset(GetAllDocumentTrays(all)) == multiset(all)
    ensures forall c :: c in all ==> (c in GetAllFileCabinets(all) <==> c !in GetAllDocumentTrays(all))
    ensures GetAllFileCabinets(all + more) == GetAllFileCabinets(all) + GetAllFileCabinets(more)
    ensures GetAllDocumentTrays(all + more) == GetAllDocumentTrays(all) + GetAllDocumentTrays(more)
  {
    FilterPartition(all, IsFileCabinet, IsDocumentTray);
    FilterConcat(all, more, IsFileCabinet);
    FilterConcat(all, more, IsDocumentTray);
    forall c | c in all
      ensures c in GetAllFileCabinets(all) <==> c !in GetAllDocumentTrays(all)
    {
      var i :| 0 <= i < |all| && all[i] == c;
      if c.isBasket {
        assert c in GetAllDocumentTrays(all);
      } else {
        assert c in GetAllFileCabinets(all);
      }
    }
  }

  // ---------------------------------------------------------------------
  // Lookups ignoring case
  // ---------------------------------------------------------------------

  predicate CabinetMatches(c: FileCabinet, fileCabinetName: string)
  {
    !c.isBasket && EqualsIgnoreCase(c.id, fileCabinetName)
  }

  predicate TrayMatches(c: FileCabinet, documentTrayName: string)
  {
    c.isBasket && EqualsIgnoreCase(c.name, documentTrayName)
  }

  /** `GetFileCabinet`: the file cabinet whose id is the given one, ignoring
      case; `None` is the C# `null`. */
  function GetFileCabinet(all: seq<FileCabinet>, fileCabinetName: string): (r: Result<Option<FileCabinet>, Error>)
    ensures r.Ok? || r.error == MoreThanOneElement
    ensures r.Ok? && r.value.Some? ==> r.value.value in all && CabinetMatches(r.value.value, fileCabinetName)
  {
    SingleOrDefault(Filter(GetAllFileCabinets(all), (c: FileCabinet) => EqualsIgnoreCase(c.id, fileCabinetName)))
  }

  /** `GetDocumentTray`: the document tray whose name is the given one,
      ignoring case. */
  function GetDocumentTray(all: seq<FileCabinet>, documentTrayName: string): (r: Result<Option<FileCabinet>, Error>)
    ensures r.Ok? || r.error == MoreThanOneElement
    ensures r.Ok? && r.value.Some? ==> r.value.value in all && TrayMatches(r.value.value, documentTrayName)
  {
    SingleOrDefault(Filter(GetAllDocumentTrays(all), (c: FileCabinet) => EqualsIgnoreCase(c.name, documentTrayName)))
  }

  /** The file cabinet lookup stated on positions of the listing: null when
      no non-basket's id matches, that entry when exactly one does, and an
      `InvalidOperationException` when two do. */
  lemma GetFileCabinetSpec(all: seq<FileCabinet>, name: string)
    ensures GetFileCabinet(all, name) == Ok(None) <==> forall i :: 0 <= i < |all| ==> !CabinetMatches(all[i], name)
    ensures (GetFileCabinet(all, name) == Err(MoreThanOneElement))
              == (exists i, j :: 0 <= i < j < |all| && CabinetMatches(all[i], name) && CabinetMatches(all[j], name))
    ensures GetFileCabinet(all, name).Ok? || GetFileCabinet(all, name).error == MoreThanOneElement
    ensures forall c :: GetFileCabinet(all, name) == Ok(Some(c)) ==>
              exists i :: 0 <= i < |all| && all[i] == c && CabinetMatches(c, name)
                && forall j :: 0 <= j < |all| && j != i ==> !CabinetMatches(all[j], name)
  {
    var q := (c: FileCabinet) => EqualsIgnoreCase(c.id, name);
    var pq := (c: FileCabinet) => CabinetMatches(c, name);
    FilterFilter(all, IsFileCabinet, q, pq);
    SingleMatch(all, pq);
  }

  /** The document tray lookup stated on positions of the listing, with the
      same three outcomes, matching baskets by name. */
  lemma GetDocumentTraySpec(all: seq<FileCabinet>, name: string)
    ensures GetDocumentTray(all, name) == Ok(None) <==> forall i :: 0 <= i < |all| ==> !TrayMatches(all[i], name)
    ensures (GetDocumentTray(all, name) == Err(MoreThanOneElement))
              == (exists i, j :: 0 <= i < j < |all| && TrayMatches(all[i], name) && TrayMatches(all[j], name))
    ensures GetDocumentTray(all, name).Ok? || GetDocumentTray(all, name).error == MoreThanOneElement
    ensures forall c :: GetDocumentTray(all, name) == Ok(Some(c)) ==>
              exists i :: 0 <= i < |all| && all[i] == c && TrayMatches(c, name)
                && forall j :: 0 <= j < |all| && j != i ==> !TrayMatches(all[j], name)
  {
    var q := (c: FileCabinet) => EqualsIgnoreCase(c.name, name);
    var pq := (c: FileCabinet) => TrayMatches(c, name);
    FilterFilter(all, IsDocumentTray, q, pq);
    SingleMatch(all, pq);
  }

  // ---------------------------------------------------------------------
  // Default dialog and search
  // ---------------------------------------------------------------------

  /** `getDefaultSearchDialog`: the first search dialog whose default flag is
      the opposite of the cabinet's basket flag. */
  function DefaultSearchDialog(fc: FileCabinet): (r: Option<DialogInfo>)
    ensures r.None? <==> forall i :: 0 <= i < |fc.searches| ==> fc.searches[i].isDefault == fc.isBasket
    ensures r.Some? ==> exists i :: 0 <= i < |fc.searches| && fc.searches[i] == r.value
                          && r.value.isDefault == !fc.isBasket
                          && forall j :: 0 <= j < i ==> fc.searches[j].isDefault == fc.isBasket
  {
    FirstOrDefault(fc.searches, (d: DialogInfo) => d.isDefault == !fc.isBasket)
  }

  /** `GetDocumentsByQuery`: the documents the default search dialog of the
      target returns. A missing target or dialog is dereferenced and throws. */
  function FindDocuments(v: Vendor, targetName: string, isDocumentTray: bool, query: Query): (r: Result<seq<Document>, Error>)
    ensures r.Err? ==> r.error == NullReference || r.error == MoreThanOneElement
  {
    GetFileCabinetSpec(v.cabinets, targetName);
    GetDocumentTraySpec(v.cabinets, targetName);
    var target := if isDocumentTray then GetDocumentTray(v.cabinets, targetName)
                  else GetFileCabinet(v.cabinets, targetName);
    match target
    case Err(e) => Err(e)
    case Ok(None) => Err(NullReference)
    case Ok(Some(fc)) =>
      match DefaultSearchDialog(fc)
      case None => Err(NullReference)
      case Some(d) => Ok(v.runQuery(d, query))
  }

  /** A search of file cabinets answers with the documents of the default
      dialog of the one cabinet whose id matches; it throws
      `NullReferenceException` when none or its dialog is missing and
      `InvalidOperationException` when two match. */
  lemma FindDocumentsSpec(v: Vendor, name: string, query: Query)
    ensures (forall i :: 0 <= i < |v.cabinets| ==> !CabinetMatches(v.cabinets[i], name))
              ==> FindDocuments(v, name, false, query) == Err(NullReference)
    ensures (exists i, j :: 0 <= i < j < |v.cabinets| && CabinetMatches(v.cabinets[i], name) && CabinetMatches(v.cabinets[j], name))
              ==> FindDocuments(v, name, false, query) == Err(MoreThanOneElement)
    ensures FindDocuments(v, name, false, query).Ok? ==>
              exists i :: 0 <= i < |v.cabinets| && CabinetMatches(v.cabinets[i], name)
                && (forall j :: 0 <= j < |v.cabinets| && j != i ==> !CabinetMatches(v.cabinets[j], name))
                && DefaultSearchDialog(v.cabinets[i]).Some?
                && FindDocuments(v, name, false, query).value == v.runQuery(DefaultSearchDialog(v.cabinets[i]).value, query)
  {
    GetFileCabinetSpec(v.cabinets, name);
  }

  /** `i` is the one position of the listing that satisfies `p`. */
  predicate OnlyMatch(all: seq<FileCabinet>, p: FileCabinet -> bool, i: int)
  {
    && 0 <= i < |all|
    && p(all[i])
    && forall j :: 0 <= j < |all| && j != i ==> !p(all[j])
  }

  /** The converse: when exactly one file cabinet's id matches, the search
      answers with what that cabinet's default dialog returns, and throws
      `NullReferenceException` when the cabinet has no default dialog. */
  lemma FindDocumentsUnique(v: Vendor, name: string, query: Query)
    ensures forall i :: OnlyMatch(v.cabinets, (c: FileCabinet) => CabinetMatches(c, name), i) ==>
              FindDocuments(v, name, false, query)
                == if DefaultSearchDialog(v.cabinets[i]).None? then Err(NullReference)
                   else Ok(v.runQuery(DefaultSearchDialog(v.cabinets[i]).value, query))
  {
    GetFileCabinetSpec(v.cabinets, name);
  }

  /** A search of document trays, by name: null and a missing dialog throw
      `NullReferenceException`, two matches throw `InvalidOperationException`,
      and one match answers with its default dialog's documents. */
  lemma FindInTraySpec(v: Vendor, name: string, query: Query)
    ensures (forall i :: 0 <= i < |v.cabinets| ==> !TrayMatches(v.cabinets[i], name))
              ==> FindDocuments(v, name, true, query) == Err(NullReference)
    ensures (exists i, j :: 0 <= i < j < |v.cabinets| && TrayMatches(v.cabinets[i], name) && TrayMatches(v.cabinets[j], name))
              ==> FindDocuments(v, name, true, query) == Err(MoreThanOneElement)
    ensures forall i :: OnlyMatch(v.cabinets, (c: FileCabinet) => TrayMatches(c, name), i) ==>
              FindDocuments(v, name, true, query)
                == if DefaultSearchDialog(v.cabinets[i]).None? then Err(NullReference)
                   else Ok(v.runQuery(DefaultSearchDialog(v.cabinets[i]).value, query))
  {
    GetDocumentTraySpec(v.cabinets, name);
  }

  // ---------------------------------------------------------------------
  // The lookup chain of Download
  // ---------------------------------------------------------------------

  /** The query `Download` runs: the document with the given `DWDOCID`, sorted
      descending on it, at most 100. */
  function DownloadQuery(documentId: string): (q: Query)
    ensures q.count == Some(100) && q.operation == And
    ensures |q.conditions| == 1 && q.conditions[0].fieldName == "DWDOCID"
    ensures q.conditions[0].value == documentId
    ensures q.sortOrder == [SortedField("DWDOCID", Desc)]
  {
    Query(And, [Condition("DWDOCID", documentId)], [SortedField("DWDOCID", Desc)], Some(100))
  }

  /** The download query of a document id is that id's alone: two documents
      are asked for by the same query exactly when their ids are equal. */
  lemma DownloadQueryDistinct(a: nat, b: nat)
    ensures DownloadQuery(DecimalText(a)) == DownloadQuery(DecimalText(b)) <==> a == b
  {
    if DownloadQuery(DecimalText(a)) == DownloadQuery(DecimalText(b)) {
      assert DownloadQuery(DecimalText(a)).conditions[0].value == DecimalText(a);
      DecimalTextValue(a);
      DecimalTextValue(b);
    }
  }

  /** `i` is the first cabinet of the listing whose id is exactly the given
      one. */
  predicate FirstCabinet(cabinets: seq<FileCabinet>, fileCabinetId: string, i: int)
  {
    && 0 <= i < |cabinets|
    && cabinets[i].id == fileCabinetId
    && forall j :: 0 <= j < i ==> cabinets[j].id != fileCabinetId
  }

  /** `k` is the first dialog whose id is exactly the given one. */
  predicate FirstDialog(dialogs: seq<DialogInfo>, queryDialogId: string, k: int)
  {
    && 0 <= k < |dialogs|
    && dialogs[k].id == queryDialogId
    && forall j :: 0 <= j < k ==> dialogs[j].id != queryDialogId
  }

  /** `FirstOrDefault(fc => fc.Id == fileCabinetId)` over the listing. */
  function CabinetWithId(cabinets: seq<FileCabinet>, fileCabinetId: string): (r: Option<FileCabinet>)
    ensures r.None? <==> forall i :: 0 <= i < |cabinets| ==> cabinets[i].id != fileCabinetId
    ensures forall i :: FirstCabinet(cabinets, fileCabinetId, i) ==> r == Some(cabinets[i])
    ensures r.Some? ==> exists i :: 0 <= i < |cabinets| && cabinets[i] == r.value && cabinets[i].id == fileCabinetId
                                      && forall j :: 0 <= j < i ==> cabinets[j].id != fileCabinetId
  {
    var p := (fc: FileCabinet) => fc.id == fileCabinetId;
    FirstOrDefaultFirst(cabinets, p);
    FirstOrDefault(cabinets, p)
  }

  /** `FirstOrDefault(d => d.Id == queryDialogId)` over a dialogs relation. */
  function DialogWithId(dialogs: seq<DialogInfo>, queryDialogId: string): (r: Option<DialogInfo>)
    ensures r.None? <==> forall k :: 0 <= k < |dialogs| ==> dialogs[k].id != queryDialogId
    ensures forall k :: FirstDialog(dialogs, queryDialogId, k) ==> r == Some(dialogs[k])
    ensures r.Some? ==> exists k :: 0 <= k < |dialogs| && dialogs[k] == r.value && dialogs[k].id == queryDialogId
                                      && forall j :: 0 <= j < k ==> dialogs[j].id != queryDialogId
  {
    var p := (d: DialogInfo) => d.id == queryDialogId;
    FirstOrDefaultFirst(dialogs, p);
    FirstOrDefault(dialogs, p)
  }

  /** The document `Download` fetches: the first cabinet of the whole listing
      whose id is exactly the given one, its first dialog whose id is exactly
      the given one, and the first document that dialog answers. */
  function LocateDocument(v: Vendor, fileCabinetId: string, queryDialogId: string, documentId: string): (r: Option<Document>)
    ensures (forall i :: 0 <= i < |v.cabinets| ==> v.cabinets[i].id != fileCabinetId) ==> r.None?
    ensures r.Some? ==>
              exists fc, d :: fc in v.cabinets && fc.id == fileCabinetId && fc.dialogs.Some?
                && d in fc.dialogs.value && d.id == queryDialogId
                && |v.runQuery(d, DownloadQuery(documentId))| > 0
                && r.value == v.runQuery(d, DownloadQuery(documentId))[0]
  {
    match CabinetWithId(v.cabinets, fileCabinetId)
    case None => None
    case Some(fc) =>
      match fc.dialogs
      case None => None
      case Some(dialogs) =>
        match DialogWithId(dialogs, queryDialogId)
        case None => None
        case Some(d) =>
          var items := v.runQuery(d, DownloadQuery(documentId));
          if |items| == 0 then None else Some(items[0])
  }

  /** The lookup chain of `Download` step by step: the first cabinet with the
      id decides, even when a later one has the dialog; a missing dialogs
      relation or dialog gives nothing; otherwise the first document of that
      dialog's answer, if any. So a document is found exactly when all four
      are there. */
  lemma LocateDocumentSpec(v: Vendor, fileCabinetId: string, queryDialogId: string, documentId: string)
    ensures forall i :: FirstCabinet(v.cabinets, fileCabinetId, i) ==>
              var fc := v.cabinets[i];
              && (fc.dialogs.None? ==> LocateDocument(v, fileCabinetId, queryDialogId, documentId).None?)
              && (fc.dialogs.Some? && (forall k :: 0 <= k < |fc.dialogs.value| ==> fc.dialogs.value[k].id != queryDialogId) ==>
                    LocateDocument(v, fileCabinetId, queryDialogId, documentId).None?)
              && (forall k :: fc.dialogs.Some? && FirstDialog(fc.dialogs.value, queryDialogId, k) ==>
                    var items := v.runQuery(fc.dialogs.value[k], DownloadQuery(documentId));
                    LocateDocument(v, fileCabinetId, queryDialogId, documentId)
                      == if |items| == 0 then None else Some(items[0]))
    ensures LocateDocument(v, fileCabinetId, queryDialogId, documentId).Some? <==>
              exists i, k :: FirstCabinet(v.cabinets, fileCabinetId, i) && v.cabinets[i].dialogs.Some?
                && FirstDialog(v.cabinets[i].dialogs.value, queryDialogId, k)
                && |v.runQuery(v.cabinets[i].dialogs.value[k], DownloadQuery(documentId))| > 0
  {
  }

  /** `Download` compares ids exactly: when the one file cabinet the search
      finds ignoring case has an id that differs from the requested text
      (only in case, then), and no cabinet's id is that text exactly, the
      search uses that cabinet and the download lookup finds nothing. */
  lemma DownloadLookupIsCaseSensitive(v: Vendor, name: string, i: nat, queryDialogId: string, documentId: string)
    requires i < |v.cabinets| && CabinetMatches(v.cabinets[i], name)
    requires forall j :: 0 <= j < |v.cabinets| && j != i ==> !CabinetMatches(v.cabinets[j], name)
    requires forall j :: 0 <= j < |v.cabinets| ==> v.cabinets[j].id != name
    ensures GetFileCabinet(v.cabinets, name) == Ok(Some(v.cabinets[i]))
    ensures LocateDocument(v, name, queryDialogId, documentId).None?
  {
    GetFileCabinetSpec(v.cabinets, name);
  }

  /** Such a listing exists: a cabinet `ABC` is found as `abc` by the search
      and not by the download. */
  lemma CaseSensitiveExample(v: Vendor, queryDialogId: string, documentId: string)
    requires v.cabinets == [FileCabinet("ABC", "Archive", false, [], Some([DialogInfo("D", true)]))]
    ensures GetFileCabinet(v.cabinets, "abc") == Ok(Some(v.cabinets[0]))
    ensures LocateDocument(v, "abc", queryDialogId, documentId).None?
  {
    assert Lower("ABC") == "abc";
    assert Lower("abc") == "abc";
    DownloadLookupIsCaseSensitive(v, "abc", 0, queryDialogId, documentId);
  }
}
