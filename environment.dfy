/**
 * What the handlers see of the outside world: the file system as three oracles
 * (`fs.stat`, `fs.readFile`, `fs.readdir`) and the response they write.
 */
module Environment {
  import opened Outcomes
  import opened Json

  /** What an `fs.Stats` answers to `isFile()` and `isDirectory()`. */
  datatype StatKind = File | Directory | OtherKind

  /** A stat succeeds with a kind, or fails with an error code and the error as JSON. */
  datatype StatOutcome = Stat(kind: StatKind) | StatError(code: string, info: Json)

  datatype FileSystem = FileSystem(
    stat: string -> StatOutcome,
    readFile: string -> Result<string, Json>,
    readDir: string -> Result<seq<string>, Json>)

  datatype Response = Response(status: int, headers: seq<(string, string)>, body: string)

  /**
   * What a handler's promise does: it writes a response, or it is rejected
   * because an awaited call threw and nothing caught it.
   */
  datatype Outcome = Respond(response: Response) | Reject
}
