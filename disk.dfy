/**
 * The filesystem the services share, reduced to what they use: regular files with their
 * bytes and their ctime and mtime, found by path. Directory listings are taken as given
 * sequences of names, since `os.listdir` and `os.walk` promise no order.
 */
module Disk {
  import opened Wrappers
  import opened Text

  newtype byte = x: int | 0 <= x < 256

  /** `TEMP_DIR` and `STORAGE_DIR` at their defaults: the output directory lies inside the temporary one. */
  const TempDir := "/tmp/yt-mp3"
  const StorageDir := "/tmp/yt-mp3/output"

  /** A regular file: its bytes, status-change time and modification time in seconds. */
  datatype FileEntry = FileEntry(contents: seq<byte>, ctime: int, mtime: int) {
    /** `os.path.getsize`. */
    function Size(): nat {
      |contents|
    }
  }

  predicate IsContinuation(b: byte) {
    0x80 <= b < 0xC0
  }

  /**
   * `bytes.decode('utf-8', errors='ignore')`: each well-formed sequence of one to four
   * bytes becomes its character and every other byte is dropped. Dropping one byte at a
   * time drops exactly what Python's maximal-subpart rule drops, since the bytes after a
   * bad lead byte are continuation bytes, which cannot start a character either.
   */
  function DecodeUtf8Ignore(bs: seq<byte>): (s: string)
    ensures |s| <= |bs|
    decreases |bs|
  {
    if |bs| == 0 then ""
    else
      var b0 := bs[0] as int;
      if b0 < 0x80 then [b0 as char] + DecodeUtf8Ignore(bs[1..])
      else if 0xC2 <= b0 <= 0xDF && |bs| >= 2 && IsContinuation(bs[1]) then
        var code := (b0 - 0xC0) * 64 + (bs[1] as int - 0x80);
        [code as char] + DecodeUtf8Ignore(bs[2..])
      else if 0xE0 <= b0 <= 0xEF && |bs| >= 3 && IsContinuation(bs[1]) && IsContinuation(bs[2])
              && (b0 != 0xE0 || bs[1] >= 0xA0) && (b0 != 0xED || bs[1] < 0xA0) then
        var code := (b0 - 0xE0) * 4096 + (bs[1] as int - 0x80) * 64 + (bs[2] as int - 0x80);
        [code as char] + DecodeUtf8Ignore(bs[3..])
      else if 0xF0 <= b0 <= 0xF4 && |bs| >= 4 && IsContinuation(bs[1]) && IsContinuation(bs[2])
              && IsContinuation(bs[3]) && (b0 != 0xF0 || bs[1] >= 0x90) && (b0 != 0xF4 || bs[1] < 0x90) then
        var code := (b0 - 0xF0) * 262144 + (bs[1] as int - 0x80) * 4096
                    + (bs[2] as int - 0x80) * 64 + (bs[3] as int - 0x80);
        [code as char] + DecodeUtf8Ignore(bs[4..])
      else DecodeUtf8Ignore(bs[1..])
  }

  /** Bytes below 0x80 decode one to one. */
  lemma {:induction false} DecodeAscii(bs: seq<byte>)
    requires forall i :: 0 <= i < |bs| ==> bs[i] < 0x80
    ensures |DecodeUtf8Ignore(bs)| == |bs|
    ensures forall i :: 0 <= i < |bs| ==> DecodeUtf8Ignore(bs)[i] == bs[i] as int as char
  {
    if |bs| > 0 {
      DecodeAscii(bs[1..]);
    }
  }

  /** The first `n` bytes of a file, as `f.read(n)` returns them. */
  function Head(f: FileEntry, n: nat): (h: seq<byte>)
    ensures |h| == if f.Size() < n then f.Size() else n
    ensures forall i :: 0 <= i < |h| ==> h[i] == f.contents[i]
  {
    if f.Size() < n then f.contents else f.contents[..n]
  }

  /**
   * The files of the machine, keyed by absolute path, and the paths whose removal fails
   * (a permission error or a busy file), since every removal in the services may raise.
   */
  class FileSystem {
    var files: map<string, FileEntry>
    var undeletable: set<string>

    constructor (files: map<string, FileEntry>, undeletable: set<string>)
      ensures this.files == files && this.undeletable == undeletable
    {
      this.files := files;
      this.undeletable := undeletable;
    }

    /** `os.path.exists` for a regular file. */
    predicate Exists(path: string)
      reads this
    {
      path in files
    }

    /** `os.remove`: ok is False where it raises, and then nothing changes. */
    method Remove(path: string) returns (ok: bool)
      modifies this
      ensures ok <==> path in old(files) && path !in undeletable
      ensures files == if ok then old(files) - {path} else old(files)
      ensures undeletable == old(undeletable)
    {
      ok := path in files && path !in undeletable;
      if ok {
        files := files - {path};
      }
    }

    /**
     * `os.utime(path, None)`: the modification time becomes the current instant, and on POSIX
     * so does the change time, which the kernel sets on every change of a file's times.
     */
    method Touch(path: string, now: int)
      requires path in files
      modifies this
      ensures files == old(files)[path := old(files)[path].(ctime := now, mtime := now)]
      ensures undeletable == old(undeletable)
    {
      files := files[path := files[path].(ctime := now, mtime := now)];
    }

    /** A file written by an external tool (the encoder's output). */
    method Write(path: string, entry: FileEntry)
      modifies this
      ensures files == old(files)[path := entry]
      ensures undeletable == old(undeletable)
    {
      files := files[path := entry];
    }
  }
}
