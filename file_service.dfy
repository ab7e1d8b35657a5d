/**
 * `services/file_service.py`, reduced to the results the publisher sees.
 * The source folder and the destination folder are maps from a path or a
 * name to the file's bytes; a file the operating system refuses to remove
 * is in `locked`. Listing, paths and timestamps are not modelled.
 */
module FileService {
  import opened Wrappers

  /** File contents. */
  type Bytes = seq<bv8>

  class FileService {
    /** The readable source files, by full path. */
    var source: map<string, Bytes>
    /** The destination folder, by file name. */
    var dest: map<string, Bytes>
    /** Source files whose removal fails. */
    var locked: set<string>

    constructor(source: map<string, Bytes>, locked: set<string>)
      ensures this.source == source && this.locked == locked && dest == map[]
    {
      this.source := source;
      this.locked := locked;
      dest := map[];
    }

    /** `read_file`: the bytes of an existing file, `None` otherwise. */
    method ReadFile(path: string) returns (content: Option<Bytes>)
      ensures path in source ==> content == Some(source[path])
      ensures path !in source ==> content == None
    {
      if path !in source {
        return None;
      }
      content := Some(source[path]);
    }

    /** `copy_to_destination`: fails when the source is missing or the copy
        itself fails (`copied` is the outcome of `shutil.copy2`). */
    method CopyToDestination(sourceFile: string, destName: string, copied: bool) returns (ok: bool)
      modifies this
      ensures source == old(source) && locked == old(locked)
      ensures ok <==> sourceFile in source && copied
      ensures ok ==> dest == old(dest)[destName := source[sourceFile]]
      ensures !ok ==> dest == old(dest)
    {
      if sourceFile !in source {
        return false;
      }
      if !copied {
        return false;
      }
      dest := dest[destName := source[sourceFile]];
      ok := true;
    }

    /** `delete_file`: a file that is already absent counts as deleted;
        otherwise it is removed unless it is locked. */
    method DeleteFile(path: string) returns (ok: bool)
      modifies this
      ensures dest == old(dest) && locked == old(locked)
      ensures ok <==> path !in old(source) || path !in locked
      ensures source == if ok then old(source) - {path} else old(source)
    {
      if path !in source {
        return true;
      }
      if path in locked {
        return false;
      }
      source := source - {path};
      ok := true;
    }
  }
}
