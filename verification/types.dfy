/**
  The values the list distribution engine works on: decoded rows, agents,
  persisted list items, summary groups and the ways an upload can fail.
 */
module ListTypes {

  datatype Option<+T> = None | Some(value: T)

  /** Identifier of an agent or of an admin (a database object id). */
  type Id = string

  /** One decoded spreadsheet or CSV row: column name to cell text. */
  type Row = map<string, string>

  /** Column names the controller reads, matched exactly and case-sensitively. */
  const FirstNameColumn: string := "FirstName"
  const PhoneColumn: string := "Phone"
  const NotesColumn: string := "Notes"

  /** An agent of the roster, as read from the agent collection. */
  datatype Agent = Agent(id: Id, name: string, email: string)

  /** The contact part of a list item. */
  datatype Contact = Contact(firstName: string, phone: string, notes: string)

  /**
    One persisted list item. `createdBy` is optional because a stored
    document may lack the owner tag (see `ListStore.PersistAsWritten`).
   */
  datatype ListItem = ListItem(contact: Contact, assignedTo: Id, createdBy: Option<Id>)

  /** The list item collection, in insertion order; it only grows. */
  type Store = seq<ListItem>

  /** One entry of the distribution summary: an agent, its items and their count. */
  datatype Group = Group(agent: Id, items: seq<ListItem>, count: nat)

  /** Why an upload was refused. */
  datatype UploadError =
    | NoFile          // no file in the request
    | NoAgents        // the admin has no agents
    | InvalidFormat   // extension other than .csv, .xlsx, .xls
    | InvalidData     // a row without FirstName or Phone
    | ServerError     // an exception caught by the handler

  /** A value, or the reason it could not be produced. */
  datatype Result<+T> = Ok(value: T) | Err(error: UploadError)

  /** The truthiness test `row.column` makes in JavaScript on a string cell. */
  predicate HasValue(row: Row, column: string)
  {
    column in row && row[column] != ""
  }

  /** The text of a cell, or the empty string when the column is missing. */
  function Cell(row: Row, column: string): string
  {
    if column in row then row[column] else ""
  }
}
