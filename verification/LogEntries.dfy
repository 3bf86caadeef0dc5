/** The fields of a log entry that filtering, counting and deduplication look at. */
module LogEntries {

  /**
   `jsonMsg` is the "msg" field of the content when the content is a JSON object that has
   one, and empty otherwise.
   */
  datatype LogEntry = LogEntry(
    filename: string,
    severity: string,
    content: string,
    jsonMsg: string,
    msgid: nat,
    tags: map<string, string>)
}
