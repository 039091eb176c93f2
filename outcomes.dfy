/** Result values standing for the exceptions and `sys.exit` calls of the client. */
module Outcomes {

  datatype Option<+T> = None | Some(value: T)

  /** Every way a run of the client can stop early. */
  datatype Error =
    | Configuration                   // ValueError: a day without a month and a year
    | NotFound(path: string)          // ftplib.error_perm on CWD or RETR, not caught
    | LineBreak(command: string)      // ValueError: ftplib refuses a command holding '\r' or '\n'
    | Unreadable(path: string)        // gzip or the TSV reader fails on a downloaded file
    | MissingColumn(column: string)   // KeyError when selecting the four columns
    | MultipleManifests(dir: string)  // more than one newfiles.txt in a partition
    | BadYear(name: string)           // int() raises ValueError on a year directory name
    | PrimaryKey                      // ALTER TABLE ... ADD PRIMARY KEY fails

  datatype Result<+T> = Ok(value: T) | Err(error: Error)
}
