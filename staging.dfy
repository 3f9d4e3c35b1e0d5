/**
 * The local staging directory `~/<container>` and the blob container, as
 * values: a file or a blob is the sequence of CSV rows written to it.
 */
module Staging {
  import opened Wrappers
  import opened Json

  /** One row as `csv.writer.writerow` receives it. */
  datatype Row = Header(columns: seq<string>) | Data(cells: seq<Json>)

  /** File (or blob) name to its rows. */
  type Dir = map<string, seq<Row>>

  /** The files in the staging directory; a directory that does not exist holds none. */
  function Files(staging: Option<Dir>): Dir {
    staging.GetOr(map[])
  }

  /**
   * The staging directory after one RECORD is written to `file`: the
   * directory is created if missing, a header of the record's keys opens the
   * file if it did not exist, and one row of the record's values follows.
   */
  function AppendRecord(staging: Option<Dir>, file: string, record: Fields): (r: Dir)
    ensures r.Keys == Files(staging).Keys + {file}
    ensures forall f :: f in r && f != file ==> r[f] == Files(staging)[f]
    ensures |r[file]| == if file in Files(staging) then |Files(staging)[file]| + 1 else 2
    ensures file in Files(staging) ==> r[file][..|r[file]| - 1] == Files(staging)[file]
    ensures file !in Files(staging) ==> r[file][0] == Header(KeysOf(record))
    ensures r[file][|r[file]| - 1] == Data(ValuesOf(record))
  {
    var dir := Files(staging);
    var rows := if file in dir then dir[file] else [Header(KeysOf(record))];
    dir[file := rows + [Data(ValuesOf(record))]]
  }

  /**
   * Blob storage after the upload loop of a flush: every file of `dir` is
   * uploaded, in directory-listing order, under the one name `name`, so the
   * blob `name` ends up holding whichever file was listed last and no other
   * blob changes.
   */
  ghost predicate Promoted(dir: Dir, name: string, blobs: Dir, blobs': Dir)
    ensures Promoted(dir, name, blobs, blobs') && dir != map[] ==>
      name in blobs' && blobs'[name] in dir.Values && blobs'.Keys == blobs.Keys + {name}
  {
    if dir == map[] then blobs' == blobs
    else exists f :: f in dir && blobs' == blobs[name := dir[f]]
  }
}
