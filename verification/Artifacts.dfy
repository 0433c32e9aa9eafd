/** Artifacts of one attempt: the bounded copy of a log that may still be growing, and the small
files that are installed atomically, summary last. Any file operation may fail. */
module Artifacts {
  import opened Wrappers
  import opened AggregateLog

  const MAX_NODE_LOG_BYTES: nat := 256 * 1024 * 1024
  const CHUNK: nat := 1024 * 1024

  const LOG := "node.log.gz"
  const LOG_TMP := "node.log.gz.tmp"
  const SAMPLES := "samples.jsonl"
  const SAMPLES_TMP := "samples.jsonl.tmp"
  const SUMMARY := "summary.json"
  const SUMMARY_TMP := "summary.json.tmp"

  /** The three places that make the report directory and remove files in it. */
  datatype Site = Clearing | Archiving | Reporting

  /** The file operations of one attempt that can fail, each on its own. */
  datatype Operation =
    | MakeDir(site: Site)
    | OpenCopy
    | ReadChunk(i: nat)
    | WriteChunk(i: nat)
    | CloseCopy
    | Install(name: string)
    | Write(name: string)
    | Unlink(name: string, site: Site)

  type Faults = Operation -> bool

  datatype ArchiveError = LogTooLarge | LogShrank | IoError

  /** The log as a reader meets it: its content at the i-th read, and how many bytes that read is
      willing to return. A read returns nothing only at the end of the file. */
  datatype Source = Source(content: nat -> seq<byte>, willing: nat -> nat)

  function Min(a: nat, b: nat): nat {
    if a < b then a else b
  }

  /** `src.read(limit)` at position `pos`. */
  function ReadAt(src: Source, i: nat, pos: nat, limit: nat): seq<byte> {
    var content := src.content(i);
    if |content| <= pos || limit == 0 then []
    else
      var wanted := if src.willing(i) == 0 then 1 else src.willing(i);
      var n := Min(wanted, Min(limit, |content| - pos));
      content[pos..pos + n]
  }

  lemma ReadProgress(src: Source, i: nat, pos: nat, limit: nat)
    ensures |ReadAt(src, i, pos, limit)| <= limit
    ensures ReadAt(src, i, pos, limit) != [] <==> pos < |src.content(i)| && limit > 0
    ensures ReadAt(src, i, pos, limit) != [] ==>
      pos + |ReadAt(src, i, pos, limit)| <= |src.content(i)|
        && ReadAt(src, i, pos, limit) == src.content(i)[pos..pos + |ReadAt(src, i, pos, limit)|]
  {
  }

  /** What the copy loop has written when it ends, and whether it ended well. */
  function Copied(src: Source, faults: Faults, i: nat, done: seq<byte>, remaining: nat): (seq<byte>, Option<ArchiveError>)
    decreases remaining
  {
    if remaining == 0 then (done, None)
    else if faults(ReadChunk(i)) then (done, Some(IoError))
    else
      var chunk := ReadAt(src, i, |done|, Min(CHUNK, remaining));
      ReadProgress(src, i, |done|, Min(CHUNK, remaining));
      if chunk == [] then (done, Some(LogShrank))
      else if faults(WriteChunk(i)) then (done, Some(IoError))
      else Copied(src, faults, i + 1, done + chunk, remaining - |chunk|)
  }

  /** The whole copy, from opening both files to closing them. */
  predicate CopyEndsWell(src: Source, faults: Faults, size: nat) {
    !faults(OpenCopy) && Copied(src, faults, 0, [], size).1.None? && !faults(CloseCopy)
  }

  /** The log only grows: every read sees a prefix of one final log. */
  ghost predicate AppendOnly(src: Source, log: seq<byte>) {
    forall i: nat :: src.content(i) <= log
  }

  /** Despite short reads and growth in the meantime, a copy that ends well is exactly the first
      bytes of the log, as many as were asked for. */
  lemma {:induction false} CopyIsExactPrefix(src: Source, faults: Faults, i: nat, done: seq<byte>, remaining: nat, log: seq<byte>)
    requires AppendOnly(src, log) && done <= log
    requires Copied(src, faults, i, done, remaining).1.None?
    ensures |done| + remaining <= |log|
    ensures Copied(src, faults, i, done, remaining).0 == log[..|done| + remaining]
    decreases remaining
  {
    if remaining == 0 {
      assert log[..|done|] == done;
    } else {
      var chunk := ReadAt(src, i, |done|, Min(CHUNK, remaining));
      ReadProgress(src, i, |done|, Min(CHUNK, remaining));
      assert src.content(i) <= log;
      assert done + chunk == log[..|done| + |chunk|];
      CopyIsExactPrefix(src, faults, i + 1, done + chunk, remaining - |chunk|, log);
    }
  }

  /** How many reads of at most a mebibyte a copy takes, if none comes up empty before the end. */
  function Reads(src: Source, i: nat, pos: nat, remaining: nat): Option<nat>
    decreases remaining
  {
    if remaining == 0 then Some(0)
    else
      var chunk := ReadAt(src, i, pos, Min(0x10_0000, remaining));
      ReadProgress(src, i, pos, Min(0x10_0000, remaining));
      if chunk == [] then None
      else
        match Reads(src, i + 1, pos + |chunk|, remaining - |chunk|)
        case None => None
        case Some(n) => Some(n + 1)
  }

  ghost predicate NoneFails(faults: Faults, i: nat, j: nat) {
    forall k: nat :: i <= k < j ==> !faults(ReadChunk(k)) && !faults(WriteChunk(k))
  }

  /** The copy ends well exactly when no read comes up empty and none of its reads and writes fails. */
  lemma {:induction false} CopiedIff(src: Source, faults: Faults, i: nat, done: seq<byte>, remaining: nat)
    ensures Copied(src, faults, i, done, remaining).1.None? <==>
      Reads(src, i, |done|, remaining).Some? && NoneFails(faults, i, i + Reads(src, i, |done|, remaining).value)
    decreases remaining
  {
    hide ReadAt, Min;
    if remaining > 0 {
      var chunk := ReadAt(src, i, |done|, Min(CHUNK, remaining));
      ReadProgress(src, i, |done|, Min(CHUNK, remaining));
      ChunkFits(remaining);
      if chunk != [] {
        CopiedIff(src, faults, i + 1, done + chunk, remaining - |chunk|);
      }
    }
  }

  lemma ChunkFits(remaining: nat)
    ensures Min(CHUNK, remaining) <= remaining
  {
  }

  /** The copy ends well when no operation fails and the log keeps at least the snapshot size. */
  lemma {:induction false} CopySucceeds(src: Source, faults: Faults, i: nat, done: seq<byte>, remaining: nat)
    requires forall k: nat :: |src.content(k)| >= |done| + remaining
    requires forall k: nat :: !faults(ReadChunk(k)) && !faults(WriteChunk(k))
    ensures Copied(src, faults, i, done, remaining).1.None?
    decreases remaining
  {
    if remaining > 0 {
      var chunk := ReadAt(src, i, |done|, Min(CHUNK, remaining));
      ReadProgress(src, i, |done|, Min(CHUNK, remaining));
      assert |src.content(i)| >= |done| + remaining;
      CopySucceeds(src, faults, i + 1, done + chunk, remaining - |chunk|);
    }
  }

  /** What an earlier run may have left, in the order of removal. */
  const STALE: seq<string> := [SUMMARY, SAMPLES, LOG, LOG_TMP]

  /** The first `n` stale files can be removed beforehand. */
  predicate ClearsUpTo(files: map<string, seq<byte>>, faults: Faults, n: nat)
    requires n <= |STALE|
  {
    !faults(MakeDir(Clearing)) && forall i :: 0 <= i < n && STALE[i] in files ==> !faults(Unlink(STALE[i], Clearing))
  }

  predicate Clears(files: map<string, seq<byte>>, faults: Faults) {
    ClearsUpTo(files, faults, |STALE|)
  }

  /** A summary that an earlier run left is still there after the clearing. */
  predicate StaleSummaryStays(files: map<string, seq<byte>>, faults: Faults) {
    SUMMARY in files && !ClearsUpTo(files, faults, 1)
  }

  /** And so is its archived log. */
  predicate StaleLogStays(files: map<string, seq<byte>>, faults: Faults) {
    LOG in files && !ClearsUpTo(files, faults, 3)
  }

  predicate SamplesInstall(faults: Faults) {
    !faults(MakeDir(Reporting)) && !faults(Write(SAMPLES_TMP)) && !faults(Install(SAMPLES))
  }

  predicate ResultsInstall(faults: Faults) {
    SamplesInstall(faults) && !faults(Write(SUMMARY_TMP)) && !faults(Install(SUMMARY))
  }

  /** A report directory. Compression is not modelled: an archive is what it decompresses to. */
  class ReportDir {
    var files: map<string, seq<byte>>

    constructor ()
      ensures files == map[]
    {
      files := map[];
    }

    /** `archive_log`. On success exactly the snapshot is installed; on failure the destination is
        as it was; no other file but the temporary one is touched. */
    method ArchiveLog(present: bool, snapshot: nat, src: Source, faults: Faults)
      returns (r: Result<(), ArchiveError>)
      modifies this
      ensures forall f :: f !in {LOG, LOG_TMP} ==> (f in files <==> f in old(files)) && (f in files ==> files[f] == old(files)[f])
      ensures r.Ok? && present ==> (
        && LOG in files && LOG_TMP !in files
        && Copied(src, faults, 0, [], snapshot) == (files[LOG], None))
      ensures r.Err? || !present ==> (LOG in files <==> LOG in old(files)) && (LOG in files ==> files[LOG] == old(files)[LOG])
      ensures r.Ok? && present ==> forall log :: AppendOnly(src, log) ==>
        snapshot <= |log| && files[LOG] == log[..snapshot]
      ensures r.Err? && LOG_TMP !in old(files) && !faults(Unlink(LOG_TMP, Archiving)) ==> LOG_TMP !in files
      ensures r.Ok? <==> !faults(MakeDir(Archiving)) && (present ==>
        snapshot <= MAX_NODE_LOG_BYTES && CopyEndsWell(src, faults, snapshot) && !faults(Install(LOG)))
      ensures r == Err(LogTooLarge) <==> !faults(MakeDir(Archiving)) && present && snapshot > MAX_NODE_LOG_BYTES
    {
      if faults(MakeDir(Archiving)) {
        return Err(IoError);
      }
      if !present {
        return Ok(());
      }
      if snapshot > MAX_NODE_LOG_BYTES {
        return Err(LogTooLarge);
      }
      var error := CopyLog(snapshot, src, faults);
      if error.None? {
        if !faults(Install(LOG)) {
          files := (files - {LOG_TMP})[LOG := files[LOG_TMP]];
          forall log | AppendOnly(src, log) ensures snapshot <= |log| && files[LOG] == log[..snapshot] {
            CopyIsExactPrefix(src, faults, 0, [], snapshot, log);
          }
          return Ok(());
        }
        error := Some(IoError);
      }
      if !faults(Unlink(LOG_TMP, Archiving)) {
        files := files - {LOG_TMP};
      }
      return Err(error.value);
    }

    /** The copy loop into the temporary file. */
    method CopyLog(snapshot: nat, src: Source, faults: Faults) returns (error: Option<ArchiveError>)
      modifies this
      ensures forall f :: f != LOG_TMP ==> (f in files <==> f in old(files)) && (f in files ==> files[f] == old(files)[f])
      ensures error.None? ==> LOG_TMP in files && Copied(src, faults, 0, [], snapshot) == (files[LOG_TMP], None)
      ensures error.None? <==> CopyEndsWell(src, faults, snapshot)
      ensures error != Some(LogTooLarge)
    {
      if faults(OpenCopy) {
        return Some(IoError);
      }
      var done: seq<byte> := [];
      var remaining: nat := snapshot;
      var i: nat := 0;
      while remaining > 0
        invariant Copied(src, faults, 0, [], snapshot) == Copied(src, faults, i, done, remaining)
        invariant files == old(files)
        decreases remaining
      {
        if faults(ReadChunk(i)) {
          files := files[LOG_TMP := done];
          return Some(IoError);
        }
        var chunk := ReadAt(src, i, |done|, Min(CHUNK, remaining));
        ReadProgress(src, i, |done|, Min(CHUNK, remaining));
        if chunk == [] {
          files := files[LOG_TMP := done];
          return Some(LogShrank);
        }
        if faults(WriteChunk(i)) {
          files := files[LOG_TMP := done];
          return Some(IoError);
        }
        done := done + chunk;
        remaining := remaining - |chunk|;
        i := i + 1;
      }
      files := files[LOG_TMP := done];
      if faults(CloseCopy) {
        return Some(IoError);
      }
      return None;
    }

    /** Write a temporary file and move it into place. */
    method InstallFile(name: string, temporary: string, data: seq<byte>, faults: Faults) returns (ok: bool)
      requires name != temporary
      modifies this
      ensures ok <==> !faults(Write(temporary)) && !faults(Install(name))
      ensures forall f :: f !in {name, temporary} ==> (f in files <==> f in old(files)) && (f in files ==> files[f] == old(files)[f])
      ensures ok ==> name in files && files[name] == data && temporary !in files
      ensures !ok ==> (name in files <==> name in old(files)) && (name in files ==> files[name] == old(files)[name])
    {
      if faults(Write(temporary)) {
        files := files[temporary := data[..|data| / 2]];
        return false;
      }
      files := files[temporary := data];
      if faults(Install(name)) {
        return false;
      }
      files := (files - {temporary})[name := data];
      return true;
    }

    /** `_write_result_files`: the summary is the completion marker and comes last. */
    method WriteResultFiles(samples: seq<byte>, summary: seq<byte>, faults: Faults)
      returns (ok: bool, installedSamples: bool)
      modifies this
      // each file is the old one or the new one, never a part
      ensures installedSamples ==> SAMPLES in files && files[SAMPLES] == samples
      ensures !installedSamples ==> (SAMPLES in files <==> SAMPLES in old(files)) && (SAMPLES in files ==> files[SAMPLES] == old(files)[SAMPLES])
      ensures ok ==> installedSamples && SUMMARY in files && files[SUMMARY] == summary
      ensures ok ==> SAMPLES_TMP !in files && SUMMARY_TMP !in files
      // the summary changes only after the samples are in place
      ensures !installedSamples ==> (SUMMARY in files <==> SUMMARY in old(files)) && (SUMMARY in files ==> files[SUMMARY] == old(files)[SUMMARY])
      ensures installedSamples <==> SamplesInstall(faults)
      ensures ok <==> ResultsInstall(faults)
      ensures forall f :: f !in {SAMPLES, SAMPLES_TMP, SUMMARY, SUMMARY_TMP} ==>
        (f in files <==> f in old(files)) && (f in files ==> files[f] == old(files)[f])
    {
      installedSamples := false;
      if faults(MakeDir(Reporting)) {
        return false, false;
      }
      installedSamples := InstallFile(SAMPLES, SAMPLES_TMP, samples, faults);
      ok := installedSamples;
      if ok {
        ok := InstallFile(SUMMARY, SUMMARY_TMP, summary, faults);
      }
      var removed := RemoveTemporary(SAMPLES_TMP, Reporting, faults);
      if !removed {
        return false, installedSamples;
      }
      removed := RemoveTemporary(SUMMARY_TMP, Reporting, faults);
      ok := ok && removed;
    }

    /** Unlink, where a missing file is no failure. */
    method RemoveTemporary(name: string, site: Site, faults: Faults) returns (ok: bool)
      modifies this
      ensures ok <==> name !in old(files) || !faults(Unlink(name, site))
      ensures files == if ok then old(files) - {name} else old(files)
    {
      if name in files && faults(Unlink(name, site)) {
        return false;
      }
      files := files - {name};
      return true;
    }

    /** Before the attempt: remove what an earlier run of it may have left, summary first. */
    method ClearStale(faults: Faults) returns (ok: bool)
      modifies this
      ensures ok <==> Clears(old(files), faults)
      // a stale file stays exactly when it or an earlier one cannot be removed
      ensures forall i :: 0 <= i < |STALE| ==>
        (STALE[i] in files <==> STALE[i] in old(files) && !ClearsUpTo(old(files), faults, i + 1))
      ensures forall f :: f in files ==> f in old(files) && files[f] == old(files)[f]
      ensures forall f :: f !in STALE && f in old(files) ==> f in files
    {
      if faults(MakeDir(Clearing)) {
        return false;
      }
      for i := 0 to |STALE|
        invariant ClearsUpTo(old(files), faults, i)
        invariant files == old(files) - (set f | f in STALE[..i])
      {
        StaleDistinct(i);
        var removed := RemoveTemporary(STALE[i], Clearing, faults);
        if !removed {
          return false;
        }
        assert STALE[..i + 1] == STALE[..i] + [STALE[i]];
      }
      return true;
    }
  }

  lemma StaleDistinct(i: nat)
    requires i < |STALE|
    ensures STALE[i] !in STALE[..i]
  {
  }
}
