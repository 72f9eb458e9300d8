/** Capturing files one after another under the budget (crates/kitrove-agent-skills/src/tree.rs:566-591, 900-1005). */
module MeteredCapture {
  import opened Outcome
  import opened Bytes
  import opened Lexicographic
  import opened Trees
  import opened CaptureBudget
  import opened BoundedRead
  import Capture

  datatype FileError =
    | FileCountLimit
    | BudgetRefused
    | Refused
    | FileSizeLimit
    | TotalSizeLimit
    | ReadFailed
    | Changed

  /** What an inspection of an opened file says. */
  datatype Metadata = Metadata(isFile: bool, identity: nat, length: nat, modified: Option<nat>, mode: FileMode)

  /** One file to capture: its key and the identity of its entry, what it says before and after the read and
      when it is opened again, how it answers reads, and whether it can be opened and passes the handle
      policy each time. */
  datatype Job = Job(key: Key, entry: nat, before: Metadata, after: Metadata, current: Metadata, script: seq<Answer>,
                     opens: bool, admitted: bool, reopens: bool, readmitted: bool)

  /** Nothing that is inspected has changed while the file was read. */
  predicate Stable(before: Metadata, after: Metadata, bytesRead: nat) {
    && before.isFile && after.isFile && before.identity == after.identity
    && before.length == after.length == bytesRead && before.modified == after.modified && before.mode == after.mode
  }

  /** Nothing about the file itself stands in the way: it opens, passes, is what its entry said, delivers what it
      declares, and is unchanged when it is opened again. */
  predicate Sound(job: Job) {
    && job.opens && job.before.isFile && job.entry == job.before.identity && job.admitted
    && Delivery(job.script, job.before.length, job.before.length).Ok?
    && Stable(job.before, job.after, |Delivered(job)|)
    && job.reopens && job.current.isFile && job.current.identity == job.after.identity && job.readmitted
  }

  function Delivered(job: Job): seq<byte>
    requires Delivery(job.script, job.before.length, job.before.length).Ok?
  {
    Delivery(job.script, job.before.length, job.before.length).value
  }

  /** What is stored of it. */
  function Taken(job: Job): CapturedFile
    requires Sound(job)
  {
    CapturedFile(job.after.mode, Delivered(job))
  }

  /** The bytes held by a set of files. */
  function StoredBytes(files: Files): nat {
    if files == map[] then 0
    else
      var k := Least(files.Keys);
      |files[k].bytes| + StoredBytes(files - {k})
  }

  lemma {:induction false} StoredBytesWithout(files: Files, k: Key)
    requires k in files
    ensures StoredBytes(files) == |files[k].bytes| + StoredBytes(files - {k})
    decreases |files|
  {
    var least := Least(files.Keys);
    if least != k {
      StoredBytesWithout(files - {least}, k);
      StoredBytesWithout(files - {k}, least);
      assert files - {least} - {k} == files - {k} - {least};
    }
  }

  lemma StoredBytesAdd(files: Files, k: Key, f: CapturedFile)
    requires k !in files
    ensures StoredBytes(files[k := f]) == StoredBytes(files) + |f.bytes|
  {
    StoredBytesWithout(files[k := f], k);
    assert files[k := f] - {k} == files;
  }

  class FileStore {
    const limits: Capture.Limits
    var files: Files
    var totalBytes: nat

    constructor (limits: Capture.Limits)
      ensures this.limits == limits && files == map[] && totalBytes == 0 && Valid()
    {
      this.limits := limits;
      files, totalBytes := map[], 0;
    }

    /** The running total is what is stored, and every limit holds. */
    predicate Valid()
      reads this
    {
      && totalBytes == StoredBytes(files) <= limits.maxTotalBytes && |files| <= limits.maxFiles
      && forall k | k in files :: |files[k].bytes| <= limits.maxFileBytes
    }

    method CaptureFile(job: Job, budget: ScanBudget) returns (r: Result<(), FileError>, reader: Reader)
      requires Valid() && budget.Valid() && job.key !in files
      modifies this, budget
      ensures Valid() && budget.Valid() && fresh(reader)
      ensures budget.bytesRead - old(budget.bytesRead) == |reader.delivered|
      ensures budget.fileAttempts - old(budget.fileAttempts) <= 2
      ensures r.Err? ==> files == old(files) && totalBytes == old(totalBytes)
      ensures r.Ok? ==>
        && files == old(files)[job.key := CapturedFile(job.after.mode, reader.delivered)]
        && Stable(job.before, job.after, |reader.delivered|) && totalBytes == old(totalBytes) + job.before.length
        && budget.fileAttempts == old(budget.fileAttempts) + 2
      ensures r.Ok? <==>
        && Sound(job) && job.before.length <= limits.maxFileBytes && |old(files)| < limits.maxFiles
        && old(totalBytes) + job.before.length <= limits.maxTotalBytes
        && job.before.length <= old(budget.RemainingBytes()) && old(budget.fileAttempts) + 2 <= budget.maxFiles
      ensures r.Ok? ==> files == old(files)[job.key := Taken(job)]
    {
      hide Delivery;
      reader := new Reader(job.script);
      if |files| >= limits.maxFiles {
        return Err(FileCountLimit), reader;
      }
      var first := budget.TryFileAttempt();
      if !first {
        return Err(BudgetRefused), reader;
      }
      if !job.opens || !job.before.isFile {
        return Err(Refused), reader;
      }
      if job.entry != job.before.identity {
        return Err(Changed), reader;
      }
      if !job.admitted {
        return Err(Refused), reader;
      }
      if job.before.length > limits.maxFileBytes {
        return Err(FileSizeLimit), reader;
      }
      var remainingTotal := Max(limits.maxTotalBytes - totalBytes, 0);
      if job.before.length > remainingTotal {
        return Err(TotalSizeLimit), reader;
      }
      if Min(job.before.length, budget.RemainingBytes()) < job.before.length {
        return Err(BudgetRefused), reader;
      }
      EnoughLeft(job.script, job.before.length, budget.RemainingBytes());
      var bytes := ReadBounded(reader, job.before.length, budget);
      if bytes.Err? {
        return Err(if bytes.error == BudgetExhausted then BudgetRefused else ReadFailed), reader;
      }
      assert reader.delivered == bytes.value;
      if |bytes.value| > limits.maxFileBytes {
        return Err(FileSizeLimit), reader;
      }
      if |bytes.value| > remainingTotal {
        return Err(TotalSizeLimit), reader;
      }
      var before, after := job.before, job.after;
      if !(after.isFile && before.identity == after.identity && before.length == after.length
           && before.modified == after.modified && before.mode == after.mode && |bytes.value| == after.length) {
        return Err(Changed), reader;
      }
      var second := budget.TryFileAttempt();
      if !second {
        return Err(BudgetRefused), reader;
      }
      if !job.reopens {
        return Err(Refused), reader;
      }
      if !job.current.isFile || job.current.identity != job.after.identity {
        return Err(Changed), reader;
      }
      if !job.readmitted {
        return Err(Refused), reader;
      }
      StoredBytesAdd(files, job.key, CapturedFile(job.after.mode, bytes.value));
      totalBytes := totalBytes + |bytes.value|;
      files := files[job.key := CapturedFile(job.after.mode, bytes.value)];
      return Ok(()), reader;
    }
  }

  function TotalLength(jobs: seq<Job>): nat {
    if jobs == [] then 0 else jobs[0].before.length + TotalLength(jobs[1..])
  }

  lemma {:induction false} TotalLengthSnoc(jobs: seq<Job>, i: nat)
    requires i < |jobs|
    ensures TotalLength(jobs[..i + 1]) == TotalLength(jobs[..i]) + jobs[i].before.length
    decreases i
  {
    if i > 0 {
      TotalLengthSnoc(jobs[1..], i - 1);
      assert jobs[..i + 1][1..] == jobs[1..][..i] && jobs[..i][1..] == jobs[1..][..i - 1];
    } else {
      assert jobs[..1][1..] == [] && jobs[..0] == [];
      assert TotalLength(jobs[..1]) == jobs[0].before.length + TotalLength([]);
    }
  }

  lemma {:induction false} TotalLengthWithin(jobs: seq<Job>, i: nat)
    requires i <= |jobs|
    ensures TotalLength(jobs[..i]) <= TotalLength(jobs)
    decreases i
  {
    if i > 0 {
      TotalLengthWithin(jobs[1..], i - 1);
      assert jobs[..i][1..] == jobs[1..][..i - 1];
    }
  }

  /** Each of these files can be captured by itself, and all of them together fit the limits and the budget. */
  predicate AllFit(limits: Capture.Limits, jobs: seq<Job>, bytesLeft: nat, attemptsLeft: nat) {
    && (forall i | 0 <= i < |jobs| :: Sound(jobs[i]) && jobs[i].before.length <= limits.maxFileBytes)
    && |jobs| <= limits.maxFiles && TotalLength(jobs) <= limits.maxTotalBytes
    && TotalLength(jobs) <= bytesLeft && 2 * |jobs| <= attemptsLeft
  }

  /** These files, and no others, are stored as they were delivered. */
  ghost predicate Captured(limits: Capture.Limits, jobs: seq<Job>, files: Files) {
    && files.Keys == (set i | 0 <= i < |jobs| :: jobs[i].key) && |files| == |jobs|
    && forall i | 0 <= i < |jobs| ::
         && Sound(jobs[i]) && jobs[i].before.length <= limits.maxFileBytes
         && jobs[i].key in files && files[jobs[i].key] == Taken(jobs[i])
  }

  lemma NothingStored(jobs: seq<Job>)
    ensures StoredBytes(map[]) == 0 && TotalLength(jobs[..0]) == 0
    ensures forall limits :: Captured(limits, jobs[..0], map[])
  {
  }

  lemma CapturedIs(limits: Capture.Limits, jobs: seq<Job>, i: nat, files: Files)
    requires i < |jobs| && Captured(limits, jobs[..i], files)
    requires forall j, k | 0 <= j < k < |jobs| :: jobs[j].key != jobs[k].key
    ensures jobs[i].key !in files && |files| == i
  {
    hide Sound, Taken;
  }

  lemma CapturedMore(limits: Capture.Limits, jobs: seq<Job>, i: nat, files: Files, files': Files)
    requires i < |jobs| && Captured(limits, jobs[..i], files) && jobs[i].key !in files
    requires Sound(jobs[i]) && jobs[i].before.length <= limits.maxFileBytes
    requires files' == files[jobs[i].key := Taken(jobs[i])]
    ensures Captured(limits, jobs[..i + 1], files')
  {
    hide Sound, Taken;
    assert jobs[..i + 1] == jobs[..i] + [jobs[i]];
  }

  lemma DoesNotFit(limits: Capture.Limits, jobs: seq<Job>, i: nat, bytesLeft: nat, attemptsLeft: nat)
    requires i < |jobs|
    requires var total := TotalLength(jobs[..i]) + jobs[i].before.length;
      !(Sound(jobs[i]) && jobs[i].before.length <= limits.maxFileBytes && i < limits.maxFiles
        && total <= limits.maxTotalBytes && total <= bytesLeft && 2 * i + 2 <= attemptsLeft)
    ensures !AllFit(limits, jobs, bytesLeft, attemptsLeft)
  {
    hide Sound;
    TotalLengthSnoc(jobs, i);
    TotalLengthWithin(jobs, i + 1);
  }

  lemma AllCaptured(limits: Capture.Limits, jobs: seq<Job>, files: Files, bytesLeft: nat, attemptsLeft: nat)
    requires Captured(limits, jobs, files) && |files| <= limits.maxFiles && TotalLength(jobs) <= limits.maxTotalBytes
    requires TotalLength(jobs) <= bytesLeft && 2 * |jobs| <= attemptsLeft
    ensures AllFit(limits, jobs, bytesLeft, attemptsLeft)
    ensures files.Keys == (set i | 0 <= i < |jobs| :: jobs[i].key)
    ensures forall i | 0 <= i < |jobs| ::
      Sound(jobs[i]) && jobs[i].key in files && files[jobs[i].key] == Taken(jobs[i])
  {
    hide Sound, Taken;
  }

  /** A whole capture: it stops at the first error; what is stored is what was read for the files
      captured so far, and on success two attempts and exactly the declared lengths were charged. It succeeds
      exactly when all the files fit, which is a condition without order or running total. */
  method CaptureAll(jobs: seq<Job>, store: FileStore, budget: ScanBudget) returns (r: Result<(), FileError>)
    requires store.Valid() && budget.Valid() && store.files == map[]
    requires forall i, j | 0 <= i < j < |jobs| :: jobs[i].key != jobs[j].key
    modifies store, budget
    ensures store.Valid() && budget.Valid()
    ensures store.totalBytes <= budget.bytesRead - old(budget.bytesRead)
    ensures r.Ok? ==>
      && store.files.Keys == (set i | 0 <= i < |jobs| :: jobs[i].key)
      && store.totalBytes == TotalLength(jobs) == budget.bytesRead - old(budget.bytesRead)
      && budget.fileAttempts - old(budget.fileAttempts) == 2 * |jobs|
    ensures r.Ok? <==>
      AllFit(store.limits, jobs, old(budget.RemainingBytes()), budget.maxFiles - old(budget.fileAttempts))
    ensures r.Ok? ==> forall i | 0 <= i < |jobs| ::
      jobs[i].key in store.files && store.files[jobs[i].key] == Taken(jobs[i])
  {
    hide Sound, Taken, StoredBytes, TotalLength, AllFit, Captured;
    NothingStored(jobs);
    for i := 0 to |jobs|
      invariant store.Valid() && budget.Valid()
      invariant Captured(store.limits, jobs[..i], store.files)
      invariant store.totalBytes == TotalLength(jobs[..i]) == budget.bytesRead - old(budget.bytesRead)
      invariant budget.fileAttempts - old(budget.fileAttempts) == 2 * i
    {
      TotalLengthSnoc(jobs, i);
      CapturedIs(store.limits, jobs, i, store.files);
      ghost var before := store.files;
      var reader;
      r, reader := store.CaptureFile(jobs[i], budget);
      if r.Err? {
        DoesNotFit(store.limits, jobs, i, old(budget.RemainingBytes()), budget.maxFiles - old(budget.fileAttempts));
        return;
      }
      CapturedMore(store.limits, jobs, i, before, store.files);
    }
    assert jobs[..|jobs|] == jobs;
    AllCaptured(store.limits, jobs, store.files, old(budget.RemainingBytes()),
                budget.maxFiles - old(budget.fileAttempts));
    return Ok(());
  }
}
