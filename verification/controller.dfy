/**
  The upload handler end to end: file presence, roster check, format
  dispatch, batch validation, partition, persistence and the summary
  read back from the store.
 */
module ListController {

  import opened ListTypes
  import opened Formats
  import opened Validation
  import opened Distribution
  import opened ListStore
  import opened Summary

  /**
    An uploaded file as the handler sees it: the client's file name and
    what each decoder makes of the stored bytes. `delimitedRows` are the
    header-keyed rows the CSV parser emits; `workbook` holds the sheets,
    in workbook order, as the spreadsheet reader converts them to rows,
    or None when the reader cannot open the file.
   */
  datatype UploadedFile = UploadedFile(originalName: string, delimitedRows: seq<Row>, workbook: Option<seq<seq<Row>>>)

  /** What the handler answers: the distribution summary, or an error. */
  datatype Response = Created(summary: seq<Group>) | Rejected(error: UploadError)

  /** The collection after the request, and the answer. */
  datatype Outcome = Outcome(store: Store, response: Response)

  /** The rows of the first sheet; a workbook without sheets converts to no rows. */
  function FirstSheet(sheets: seq<seq<Row>>): seq<Row>
  {
    if |sheets| == 0 then [] else sheets[0]
  }

  /** The rows the decoder chosen by the file's extension yields. */
  function Decode(file: UploadedFile): Result<seq<Row>>
  {
    match Classify(file.originalName)
    case Delimited => Ok(file.delimitedRows)
    case Spreadsheet =>
      (match file.workbook
       case None => Err(ServerError)
       case Some(sheets) => Ok(FirstSheet(sheets)))
    case Unsupported => Err(InvalidFormat)
  }

  /** The items a successful upload appends. */
  function Added(rows: seq<Row>, roster: seq<Agent>, admin: Id): seq<ListItem>
    requires |roster| > 0
  {
    Records(roster, Partition(rows, |roster|), admin)
  }

  /**
    Validation, distribution, persistence and summary for a decoded
    batch. A batch with one invalid row is refused whole and stores
    nothing; a valid batch is appended one item per row. The summary is
    read back from the whole collection, so it covers every item the
    admin owns, not only this batch.
   */
  function ProcessData(rows: seq<Row>, roster: seq<Agent>, admin: Id, store: Store): (out: Outcome)
    requires |roster| > 0
    ensures out.response.Created? <==> AllValid(rows)
    ensures out.response.Rejected? ==> out.store == store && out.response.error == InvalidData
    ensures out.response.Created? ==>
      && |out.store| == |store| + |rows|
      && out.store[..|store|] == store
      && (forall j :: 0 <= j < |rows| ==>
            out.store[|store| + j].contact == Normalize(rows[j]) && out.store[|store| + j].createdBy == Some(admin))
      && out.response.summary == Summarize(out.store, admin)
  {
    if FirstInvalid(rows).Some? then Outcome(store, Rejected(InvalidData))
    else
      var store' := Persist(store, roster, Partition(rows, |roster|), admin);
      Outcome(store', Created(Summarize(store', admin)))
  }

  /** A valid batch appends the records of its partition. */
  lemma ProcessAppends(rows: seq<Row>, roster: seq<Agent>, admin: Id, store: Store)
    requires |roster| > 0 && AllValid(rows)
    ensures ProcessData(rows, roster, admin, store).store == store + Added(rows, roster, admin)
  {
  }

  /** The upload request. */
  function Upload(file: Option<UploadedFile>, roster: seq<Agent>, admin: Id, store: Store): (out: Outcome)
    ensures out.response.Rejected? ==> out.store == store
    ensures out.response == Rejected(NoFile) <==> file.None?
    ensures out.response == Rejected(NoAgents) <==> file.Some? && |roster| == 0
    ensures file.Some? && |roster| > 0 ==>
      (out.response == Rejected(InvalidFormat) <==> Classify(file.value.originalName) == Unsupported)
    ensures out.response.Created? <==>
      file.Some? && |roster| > 0 && Decode(file.value).Ok? && AllValid(Decode(file.value).value)
    ensures out.response.Created? ==>
      var rows := Decode(file.value).value;
      && |out.store| == |store| + |rows|
      && out.store[..|store|] == store
      && (forall j :: 0 <= j < |rows| ==>
            out.store[|store| + j].contact == Normalize(rows[j]) && out.store[|store| + j].createdBy == Some(admin))
      && out.response.summary == Summarize(out.store, admin)
    ensures file.Some? && |roster| > 0 && Decode(file.value).Ok? && !AllValid(Decode(file.value).value) ==>
      out.response == Rejected(InvalidData)
    ensures file.Some? && |roster| > 0 && Classify(file.value.originalName) == Spreadsheet && file.value.workbook.None? ==>
      out.response == Rejected(ServerError)
  {
    if file.None? then Outcome(store, Rejected(NoFile))
    else if |roster| == 0 then Outcome(store, Rejected(NoAgents))
    else
      match Decode(file.value)
      case Err(e) => Outcome(store, Rejected(e))
      case Ok(rows) => ProcessData(rows, roster, admin, store)
  }

  /** Processing a batch for `admin` leaves every other owner's items as they were. */
  lemma ProcessIsolation(rows: seq<Row>, roster: seq<Agent>, admin: Id, store: Store, other: Id)
    requires |roster| > 0 && other != admin
    ensures GetLists(ProcessData(rows, roster, admin, store).store, other) == GetLists(store, other)
  {
    if AllValid(rows) {
      ProcessAppends(rows, roster, admin, store);
      var added := Added(rows, roster, admin);
      assert Describes(added, Flatten(Partition(rows, |roster|)), admin, RosterIds(roster));
      GetListsAppend(store, added, other);
      NoneOwned(added, other);
    }
  }

  /** An upload by `admin`, accepted or not, leaves every other owner's items as they were. */
  lemma UploadIsolation(file: Option<UploadedFile>, roster: seq<Agent>, admin: Id, store: Store, other: Id)
    requires other != admin
    ensures GetLists(Upload(file, roster, admin, store).store, other) == GetLists(store, other)
  {
    if file.Some? && |roster| > 0 && Decode(file.value).Ok? {
      ProcessIsolation(Decode(file.value).value, roster, admin, store, other);
    }
  }

  /**
    After a valid batch the agent at roster position `i` owns, after its
    earlier items, exactly its block of the batch, tagged with its id and
    the admin, and the block has the size the remainder rule gives.
   */
  lemma ProcessPerAgent(rows: seq<Row>, roster: seq<Agent>, admin: Id, store: Store, i: nat)
    requires DistinctIds(roster) && i < |roster| && AllValid(rows)
    ensures var block := Partition(rows, |roster|)[i];
      && |block| == (if i < |rows| % |roster| then |rows| / |roster| + 1 else |rows| / |roster|)
      && GetListsByAgent(ProcessData(rows, roster, admin, store).store, admin, roster[i].id)
         == GetListsByAgent(store, admin, roster[i].id) + Tag(block, roster[i].id, admin)
  {
    ProcessAppends(rows, roster, admin, store);
    GetListsByAgentAppend(store, Added(rows, roster, admin), admin, roster[i].id);
    ByAgentOfRecords(roster, Partition(rows, |roster|), admin, i);
  }

  /** The appended items are the whole batch, all owned by the admin. */
  lemma AddedOwned(rows: seq<Row>, roster: seq<Agent>, admin: Id)
    requires |roster| > 0
    ensures |Added(rows, roster, admin)| == |rows|
    ensures GetLists(Added(rows, roster, admin), admin) == Added(rows, roster, admin)
  {
    var added := Added(rows, roster, admin);
    assert Describes(added, Flatten(Partition(rows, |roster|)), admin, RosterIds(roster));
    OwnedByAll(added, admin);
  }

  /** The counts of the summary a valid batch returns add up to the admin's earlier items plus the whole batch. */
  lemma ProcessSummaryTotal(rows: seq<Row>, roster: seq<Agent>, admin: Id, store: Store)
    requires |roster| > 0 && AllValid(rows)
    ensures ProcessData(rows, roster, admin, store).response.Created?
    ensures SumCounts(ProcessData(rows, roster, admin, store).response.summary)
      == |GetLists(store, admin)| + |rows|
  {
    ProcessAppends(rows, roster, admin, store);
    var added := Added(rows, roster, admin);
    SummaryTotal(store + added, admin);
    GetListsAppend(store, added, admin);
    AddedOwned(rows, roster, admin);
  }

  /**
    As written, the schema drops the owner tag, so the summary read back
    after persisting a batch is the summary from before it.
   */
  lemma AsWrittenSummaryIgnoresBatch(store: Store, roster: seq<Agent>, distribution: seq<seq<Row>>, admin: Id)
    requires |distribution| == |roster|
    ensures Summarize(PersistAsWritten(store, roster, distribution, admin), admin) == Summarize(store, admin)
  {
    var store' := PersistAsWritten(store, roster, distribution, admin);
    var added := store'[|store|..];
    assert store' == store + added;
    GetListsAppend(store, added, admin);
    NoneOwned(added, admin);
    assert GetLists(store', admin) == GetLists(store, admin);
  }

  /** An owner without items has an empty summary. */
  lemma EmptySummary(store: Store, admin: Id)
    requires GetLists(store, admin) == []
    ensures Summarize(store, admin) == []
  {
    assert AgentsOf([]) == [];
  }

  lemma DelimitedDecode(file: UploadedFile)
    requires Classify(file.originalName) == Delimited
    ensures Decode(file) == Ok(file.delimitedRows)
  {
  }

  /** A spreadsheet upload reads the first sheet only: the sheets after it never change the outcome. */
  lemma UploadFirstSheetOnly(name: string, delimited: seq<Row>, first: seq<Row>, later: seq<seq<Row>>, later': seq<seq<Row>>,
                             roster: seq<Agent>, admin: Id, store: Store)
    requires Classify(name) == Spreadsheet && |roster| > 0
    ensures Upload(Some(UploadedFile(name, delimited, Some([first] + later))), roster, admin, store)
      == ProcessData(first, roster, admin, store)
    ensures Upload(Some(UploadedFile(name, delimited, Some([first] + later))), roster, admin, store)
      == Upload(Some(UploadedFile(name, delimited, Some([first] + later'))), roster, admin, store)
  {
  }

  /** A workbook without sheets converts to no rows, so the upload stores nothing and succeeds with the admin's current summary. */
  lemma UploadNoSheets(name: string, delimited: seq<Row>, roster: seq<Agent>, admin: Id, store: Store)
    requires Classify(name) == Spreadsheet && |roster| > 0
    ensures Upload(Some(UploadedFile(name, delimited, Some([]))), roster, admin, store)
      == Outcome(store, Created(Summarize(store, admin)))
  {
    var none: seq<Row> := [];
    assert AllValid(none);
  }

  /** A spreadsheet the reader cannot open is refused as a server error, whatever the rows a CSV parser would see. */
  lemma UploadUnreadableWorkbook(name: string, delimited: seq<Row>, roster: seq<Agent>, admin: Id, store: Store)
    requires Classify(name) == Spreadsheet && |roster| > 0
    ensures Upload(Some(UploadedFile(name, delimited, None)), roster, admin, store) == Outcome(store, Rejected(ServerError))
  {
  }

  /** Once the file is present, the roster non-empty and the file decoded, the upload is the processing of the batch. */
  lemma UploadProcesses(file: UploadedFile, roster: seq<Agent>, admin: Id, store: Store)
    requires |roster| > 0 && Decode(file).Ok?
    ensures Upload(Some(file), roster, admin, store) == ProcessData(Decode(file).value, roster, admin, store)
  {
  }

  /** A delimited file that decodes to a single row holding FirstName and Phone. */
  predicate OneValidCsvRow(file: UploadedFile)
  {
    Classify(file.originalName) == Delimited && |file.delimitedRows| == 1 && ValidRow(file.delimitedRows[0])
  }

  /** With the owner tag dropped, an admin who owned nothing still has an empty summary after the batch. */
  lemma AsWrittenWitness(file: UploadedFile, roster: seq<Agent>, admin: Id, store: Store)
    requires |roster| > 0 && GetLists(store, admin) == []
    ensures Summarize(PersistAsWritten(store, roster, Partition(file.delimitedRows, |roster|), admin), admin) == []
  {
    AsWrittenSummaryIgnoresBatch(store, roster, Partition(file.delimitedRows, |roster|), admin);
    EmptySummary(store, admin);
  }

  /** With the owner tag kept, such an upload succeeds and its summary counts the one row. */
  lemma UploadWitness(file: UploadedFile, roster: seq<Agent>, admin: Id, store: Store)
    requires Decode(file) == Ok(file.delimitedRows)
    requires |file.delimitedRows| == 1 && ValidRow(file.delimitedRows[0])
    requires |roster| > 0 && GetLists(store, admin) == []
    ensures Upload(Some(file), roster, admin, store).response.Created?
    ensures SumCounts(Upload(Some(file), roster, admin, store).response.summary) == 1
  {
    assert AllValid(file.delimitedRows);
    UploadProcesses(file, roster, admin, store);
    ProcessSummaryTotal(file.delimitedRows, roster, admin, store);
  }

  /**
    The discrepancy on one input: a CSV upload of one valid row (a file
    named "list.csv" qualifies, see `Formats.ListCsvIsDelimited`) by an admin who
    has agents but owns no items yet. With the owner tag dropped the
    summary is empty; with the tag kept it counts the row.
   */
  lemma OwnerTagWitness(file: UploadedFile, roster: seq<Agent>, admin: Id, store: Store)
    requires OneValidCsvRow(file) && |roster| > 0 && GetLists(store, admin) == []
    ensures Summarize(PersistAsWritten(store, roster, Partition(file.delimitedRows, |roster|), admin), admin) == []
    ensures Upload(Some(file), roster, admin, store).response.Created?
    ensures SumCounts(Upload(Some(file), roster, admin, store).response.summary) == 1
  {
    AsWrittenWitness(file, roster, admin, store);
    DelimitedDecode(file);
    UploadWitness(file, roster, admin, store);
  }
}
