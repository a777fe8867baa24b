/** The stored records: a project and one uploaded scan of it. */
module Database {
  import opened Base
  import opened JsValues

  datatype Project = Project(id: string, createdAt: string, name: string, description: Option<string>)

  /** One scan. `columnHeaders` and `jsonData` are declared as always present, but every reader
      guards them with `|| []`, so the model lets them be missing. */
  datatype Dataset = Dataset(
    id: string,
    createdAt: string,
    projectId: string,
    name: Option<string>,
    scanDate: Option<string>,
    fileName: string,
    columnHeaders: Option<seq<string>>,
    jsonData: Option<seq<Row>>)

  /** The outcome of a call to the store: an error, or an answer whose `data` may be `null`. */
  datatype Response<T> = Failed | Answered(data: Option<T>)

  /** `dataset.json_data || []`. */
  function Rows(d: Dataset): seq<Row>
  {
    match d.jsonData
    case None => []
    case Some(rows) => rows
  }

  /** `dataset.column_headers || []`. */
  function Columns(d: Dataset): seq<string>
  {
    match d.columnHeaders
    case None => []
    case Some(hs) => hs
  }
}
