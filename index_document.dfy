/**
 * The daily index document `YYYY/MM/DD/index.json` that the capture
 * function writes and the history page reads back:
 * `{"date": "YYYY-MM-DD", "snapshots": [{"time", "preset", "path"}, ...]}`.
 */
module IndexDocument {
  import opened Wrappers

  /** One element of `snapshots`; any key may be absent in a document read back from storage. */
  datatype Entry = Entry(time: Option<string>, preset: Option<string>, path: Option<string>)

  /** The whole document; `snapshots` is `None` when the key is absent. */
  datatype IndexDoc = IndexDoc(date: Option<string>, snapshots: Option<seq<Entry>>)
}
