/** A whole traversal under the meter (crates/kitrove-agent-skills/src/tree.rs:567-591, 657-783, 948-1035): the files of
    the tree, met in the order of the worklist, each read and charged. */
module MeteredTraversal {
  import opened Outcome
  import opened Lexicographic
  import opened FileTree
  import opened Capture
  import opened CaptureBudget
  import opened Trees
  import Metered = MeteredCapture

  /** How the file at each path answers; its inspection gives the length the tree has there. */
  type Answers = Key -> Metered.Job

  predicate Answer(fs: Tree, answers: Answers) {
    forall k | k in Keys(fs) && FileAt(fs, k).Some? ::
      answers(k).key == k && answers(k).before.length == |FileAt(fs, k).value.bytes|
  }

  /** The file at this path, if there is one, can be captured by itself. */
  predicate Fits(fs: Tree, answers: Answers, limits: Limits, k: Key) {
    FileAt(fs, k).Some? ==> Metered.Sound(answers(k)) && answers(k).before.length <= limits.maxFileBytes
  }

  /** Each file of the tree can be captured by itself, and all of them together fit the limits and the budget. */
  predicate TreeFits(fs: Tree, answers: Answers, limits: Limits, bytesLeft: nat, attemptsLeft: nat)
    requires TreeOk(fs)
  {
    && (forall k | k in Keys(fs) :: Fits(fs, answers, limits, k))
    && var all := Ahead(fs, Order(fs));
       && all.files <= limits.maxFiles && all.bytes <= limits.maxTotalBytes
       && all.bytes <= bytesLeft && 2 * all.files <= attemptsLeft
  }

  lemma AheadStep(fs: Tree, order: seq<Key>, i: nat)
    requires i < |order|
    ensures Ahead(fs, order[i..]).bytes == Share(fs, order[i]).bytes + Ahead(fs, order[i + 1..]).bytes
    ensures Ahead(fs, order[i..]).files == Share(fs, order[i]).files + Ahead(fs, order[i + 1..]).files
  {
    hide Share;
    assert order[i..][0] == order[i] && order[i..][1..] == order[i + 1..];
  }

  lemma FileKeysMore(fs: Tree, order: seq<Key>, i: nat)
    requires i < |order| && Increasing(order)
    ensures var files := FileKeysOf(fs, order[..i]);
      FileKeysOf(fs, order[..i + 1]) == (if FileAt(fs, order[i]).Some? then files + {order[i]} else files)
      && order[i] !in files
  {
    hide FileAt, Less;
    assert order[..i + 1] == order[..i] + [order[i]];
    forall j | 0 <= j < i
      ensures order[j] != order[i]
    {
      Irreflexive(order[i]);
    }
  }

  lemma OrderIn(fs: Tree, i: nat)
    requires TreeOk(fs) && i < |Order(fs)|
    ensures Order(fs)[i] in Keys(fs)
  {
    OrderHolds(fs);
    SortedSorts(Keys(fs));
    hide Sorted;
    assert Order(fs)[i] in Order(fs);
  }

  /** What is stored once the file at this path, if there is one, is stored too. */
  function With(fs: Tree, answers: Answers, limits: Limits, k: Key, files: Files): Files
    requires Fits(fs, answers, limits, k)
  {
    if FileAt(fs, k).Some? then files[k := Metered.Taken(answers(k))] else files
  }

  /** One path of the traversal: its share is stored and charged. */
  method CapturePath(fs: Tree, answers: Answers, k: Key, store: Metered.FileStore, budget: ScanBudget)
    returns (r: Result<(), Metered.FileError>)
    requires Answer(fs, answers) && k in Keys(fs) && store.Valid() && budget.Valid() && k !in store.files
    modifies store, budget
    ensures store.Valid() && budget.Valid()
    ensures budget.bytesRead >= old(budget.bytesRead)
    ensures r.Ok? <==>
      && Fits(fs, answers, store.limits, k)
      && (FileAt(fs, k).Some? ==>
            && |old(store.files)| < store.limits.maxFiles
            && old(store.totalBytes) + Share(fs, k).bytes <= store.limits.maxTotalBytes
            && Share(fs, k).bytes <= old(budget.RemainingBytes())
            && old(budget.fileAttempts) + 2 <= budget.maxFiles)
    ensures r.Err? ==> store.totalBytes == old(store.totalBytes)
    ensures r.Ok? ==>
      && store.files == With(fs, answers, store.limits, k, old(store.files))
      && store.totalBytes == old(store.totalBytes) + Share(fs, k).bytes
      && budget.bytesRead == old(budget.bytesRead) + Share(fs, k).bytes
      && budget.fileAttempts == old(budget.fileAttempts) + 2 * Share(fs, k).files
  {
    hide Share, FileAt, Keys, Metered.Sound, Metered.StoredBytes;
    ShareIs(fs, k);
    if FileAt(fs, k).Some? {
      var reader;
      r, reader := store.CaptureFile(answers(k), budget);
    } else {
      r := Ok(());
    }
  }

  ghost predicate TakenAs(answers: Answers, files: Files) {
    forall k | k in files :: Metered.Sound(answers(k)) && files[k] == Metered.Taken(answers(k))
  }

  predicate AllFit(fs: Tree, answers: Answers, limits: Limits, keys: seq<Key>) {
    forall i | 0 <= i < |keys| :: Fits(fs, answers, limits, keys[i])
  }

  lemma EachFits(fs: Tree, answers: Answers, limits: Limits)
    requires TreeOk(fs) && AllFit(fs, answers, limits, Order(fs))
    ensures forall k | k in Keys(fs) :: Fits(fs, answers, limits, k)
  {
    hide Fits, Order, Sorted;
    OrderHolds(fs);
    SortedSorts(Keys(fs));
    forall k | k in Keys(fs)
      ensures Fits(fs, answers, limits, k)
    {
      assert k in Order(fs);
    }
  }

  /** What is stored after `i` paths, and what is still ahead. */
  ghost predicate Progress(fs: Tree, answers: Answers, limits: Limits, order: seq<Key>, i: nat, files: Files,
                           bytes: nat)
  {
    && i <= |order| && files.Keys == FileKeysOf(fs, order[..i])
    && TakenAs(answers, files) && AllFit(fs, answers, limits, order[..i])
    && |files| + Ahead(fs, order[i..]).files == Ahead(fs, order).files
    && bytes + Ahead(fs, order[i..]).bytes == Ahead(fs, order).bytes
  }

  lemma Starts(fs: Tree, answers: Answers, limits: Limits, order: seq<Key>)
    ensures Progress(fs, answers, limits, order, 0, map[], 0) && Metered.StoredBytes(map[]) == 0
  {
    hide Ahead, FileAt, Fits;
    assert order[0..] == order;
  }

  lemma Next(fs: Tree, answers: Answers, limits: Limits, i: nat, files: Files, bytes: nat)
    requires TreeOk(fs) && Progress(fs, answers, limits, Order(fs), i, files, bytes) && i < |Order(fs)|
    ensures Order(fs)[i] in Keys(fs) && Order(fs)[i] !in files && Increasing(Order(fs))
  {
    hide Order, Ahead, FileAt, TreeOk, Fits, FileKeysOf, Increasing, Keys, AllIn;
    OrderKeys(fs);
    OrderIn(fs, i);
    FileKeysMore(fs, Order(fs), i);
  }

  lemma GoesOn(fs: Tree, answers: Answers, limits: Limits, order: seq<Key>, i: nat, files: Files, bytes: nat)
    requires Progress(fs, answers, limits, order, i, files, bytes) && i < |order| && Increasing(order)
    requires Fits(fs, answers, limits, order[i]) && order[i] !in files
    ensures Progress(fs, answers, limits, order, i + 1, With(fs, answers, limits, order[i], files),
                     bytes + Share(fs, order[i]).bytes)
    ensures |With(fs, answers, limits, order[i], files)| == |files| + Share(fs, order[i]).files
  {
    hide Ahead, Share, FileAt, FileKeysOf, Increasing, AllFit, TakenAs, Fits, With;
    AheadStep(fs, order, i);
    FileKeysMore(fs, order, i);
    FitsMore(fs, answers, limits, order, i);
    TakenMore(fs, answers, limits, files, order[i]);
  }

  lemma FitsMore(fs: Tree, answers: Answers, limits: Limits, order: seq<Key>, i: nat)
    requires i < |order| && AllFit(fs, answers, limits, order[..i]) && Fits(fs, answers, limits, order[i])
    ensures AllFit(fs, answers, limits, order[..i + 1])
  {
    hide Fits;
    assert order[..i + 1] == order[..i] + [order[i]];
  }

  lemma TakenMore(fs: Tree, answers: Answers, limits: Limits, files: Files, k: Key)
    requires TakenAs(answers, files) && Fits(fs, answers, limits, k) && k !in files
    ensures var more := With(fs, answers, limits, k, files);
      && TakenAs(answers, more) && |more| == |files| + Share(fs, k).files
      && more.Keys == if FileAt(fs, k).Some? then files.Keys + {k} else files.Keys
  {
    hide Metered.Sound, Metered.Taken, FileAt, Share;
    ShareIs(fs, k);
  }

  /** What does not fit when its turn comes does not fit at all. */
  lemma Stuck(fs: Tree, answers: Answers, limits: Limits, i: nat, files: Files, bytes: nat, bytesLeft: nat,
              attemptsLeft: nat)
    requires TreeOk(fs) && Progress(fs, answers, limits, Order(fs), i, files, bytes) && i < |Order(fs)|
    requires var k := Order(fs)[i];
      !(Fits(fs, answers, limits, k)
        && (FileAt(fs, k).Some? ==>
              |files| < limits.maxFiles && bytes + Share(fs, k).bytes <= limits.maxTotalBytes
              && bytes + Share(fs, k).bytes <= bytesLeft && 2 * |files| + 2 <= attemptsLeft))
    ensures !TreeFits(fs, answers, limits, bytesLeft, attemptsLeft)
  {
    hide Order, Ahead, Share, FileAt, TreeOk, FileKeysOf, Keys, Fits;
    OrderIn(fs, i);
    AheadStep(fs, Order(fs), i);
    ShareIs(fs, Order(fs)[i]);
  }

  lemma Ends(fs: Tree, answers: Answers, limits: Limits, files: Files, bytes: nat)
    requires TreeOk(fs) && Progress(fs, answers, limits, Order(fs), |Order(fs)|, files, bytes)
    ensures files.Keys == Flatten(fs).Keys && TakenAs(answers, files)
    ensures bytes == Ahead(fs, Order(fs)).bytes && |files| == Ahead(fs, Order(fs)).files == |Flatten(fs)|
    ensures forall k | k in Keys(fs) :: Fits(fs, answers, limits, k)
  {
    hide Order, FileAt, TreeOk, Keys, Fits, Flatten, Increasing, AllIn, TakenAs, FileKeysOf, Ahead;
    var order := Order(fs);
    OrderKeys(fs);
    FilesAhead(fs, order);
    End(fs, order);
    EachFits(fs, answers, limits);
  }

  /** Budget is conserved over a traversal: on success every file of the tree is stored, and the meter has been
      charged exactly the tree's bytes, the traversal's own total; a failure has charged all that is stored. It
      succeeds exactly when the whole tree fits. */
  method CaptureTraversal(fs: Tree, answers: Answers, store: Metered.FileStore, budget: ScanBudget)
    returns (r: Result<(), Metered.FileError>)
    requires TreeOk(fs) && Answer(fs, answers) && store.Valid() && budget.Valid() && store.files == map[]
    modifies store, budget
    ensures store.Valid() && budget.Valid() && store.totalBytes <= budget.bytesRead - old(budget.bytesRead)
    ensures r.Ok? ==>
      && store.files.Keys == Flatten(fs).Keys && TakenAs(answers, store.files)
      && store.totalBytes == Ahead(fs, Order(fs)).bytes == budget.bytesRead - old(budget.bytesRead)
      && budget.fileAttempts - old(budget.fileAttempts) == 2 * |Flatten(fs)|
    ensures r.Ok? <==>
      TreeFits(fs, answers, store.limits, old(budget.RemainingBytes()), budget.maxFiles - old(budget.fileAttempts))
  {
    hide Order, FileAt, Share, Ahead, TreeOk, Flatten, Answer, Keys, Fits, TakenAs, With, Progress, Metered.StoredBytes,
      Metered.FileStore.Valid, Increasing;
    var order := Order(fs);
    StoreWithin(store);
    Starts(fs, answers, store.limits, order);
    for i := 0 to |order|
      invariant store.Valid() && budget.Valid()
      invariant Progress(fs, answers, store.limits, order, i, store.files, store.totalBytes)
      invariant store.totalBytes == budget.bytesRead - old(budget.bytesRead)
      invariant budget.fileAttempts - old(budget.fileAttempts) == 2 * |store.files|
    {
      ghost var files, bytes := store.files, store.totalBytes;
      Next(fs, answers, store.limits, i, files, bytes);
      ShareIs(fs, order[i]);
      r := CapturePath(fs, answers, order[i], store, budget);
      if r.Err? {
        Stuck(fs, answers, store.limits, i, files, bytes, old(budget.RemainingBytes()),
              budget.maxFiles - old(budget.fileAttempts));
        return;
      }
      GoesOn(fs, answers, store.limits, order, i, files, bytes);
    }
    StoreWithin(store);
    Ends(fs, answers, store.limits, store.files, store.totalBytes);
    return Ok(());
  }

  /** Every file that can be read delivers what the tree holds there. */
  predicate Delivers(fs: Tree, answers: Answers) {
    forall k | k in Keys(fs) && FileAt(fs, k).Some? && Metered.Sound(answers(k)) ::
      Metered.Taken(answers(k)) == FileAt(fs, k).value
  }

  /** Then what the metered traversal stores, and charges, is what the worklist's capture of the tree yields. */
  lemma StoresTheCapture(w: World, cfg: Config, answers: Answers, files: Files)
    requires TreeOk(w.fs) && Delivers(w.fs, answers) && CaptureTree(w, cfg).Ok?
    requires files.Keys == Flatten(w.fs).Keys && TakenAs(answers, files)
    ensures files == CaptureTree(w, cfg).value.files
    ensures Ahead(w.fs, Order(w.fs)).bytes == CaptureTree(w, cfg).value.totalBytes
  {
    hide Metered.Sound, Metered.Taken, FileAt, Keys, CaptureTree, Accepts, TreeOk, Order, Ahead;
    CaptureTreeExactly(w, cfg);
    forall k | k in files
      ensures files[k] == Flatten(w.fs)[k]
    {
      assert k in Flatten(w.fs);
    }
  }

  lemma StoreWithin(store: Metered.FileStore)
    requires store.Valid()
    ensures store.totalBytes == Metered.StoredBytes(store.files) <= store.limits.maxTotalBytes
    ensures |store.files| <= store.limits.maxFiles
  {
  }

  lemma ShareIs(fs: Tree, k: Key)
    ensures Share(fs, k).bytes == if FileAt(fs, k).Some? then |FileAt(fs, k).value.bytes| else 0
    ensures Share(fs, k).files == if FileAt(fs, k).Some? then 1 else 0
  {
  }

  lemma End(fs: Tree, order: seq<Key>)
    ensures order[..|order|] == order && Ahead(fs, order[|order|..]) == Load(0, 0, 0, 0)
    ensures FileKeysOf(fs, order) == FilesOf(fs, order).Keys
  {
    hide FileAt;
  }
}
