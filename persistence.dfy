/** The wallet files on disk, as far as the wallet sees them: one snapshot
    per path. Serialisation is left out, so a snapshot is stored as the
    value it serialises. */
module Persistence {
  import opened Wrappers
  import opened Exceptions
  import opened Models

  class Store {
    var files: map<string, Snapshot>

    constructor (files: map<string, Snapshot>)
      ensures this.files == files
    {
      this.files := files;
    }

    /** `File.WriteAllText` of a serialised wallet. Whether the write
        succeeds is decided by the operating system and comes in as
        `writeOk`; a failed write throws and leaves the files as they were. */
    method Write(path: string, snapshot: Snapshot, writeOk: bool) returns (outcome: Outcome<Exception>)
      modifies this
      ensures writeOk ==> outcome == Pass && files == old(files)[path := snapshot]
      ensures !writeOk ==> outcome == Fail(WriteFailed) && unchanged(this)
    {
      if writeOk {
        files := files[path := snapshot];
        outcome := Pass;
      } else {
        outcome := Fail(WriteFailed);
      }
    }
  }
}
