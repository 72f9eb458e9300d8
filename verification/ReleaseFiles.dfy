/** Files held open while others rename (xtask/src/release_archive.rs:44-103, 323-381, 720-741). Before every step
    someone else may rebind every name; only this program writes to the files it holds. */
module ReleaseFiles {
  import opened Outcome
  import opened Bytes

  type Inode = nat

  datatype FileNode = FileNode(isFile: bool, links: nat, content: seq<byte>)

  /** Directory paths, directory entries, and the files behind them. */
  datatype State = State(dirs: map<string, Inode>, names: map<(Inode, string), Inode>, files: map<Inode, FileNode>)

  /** A state the run has been in, after so many steps; `ours` if this program made it from the one before. */
  datatype Moment = Moment(clock: nat, state: State, ours: bool)

  type History = seq<Moment>

  ghost predicate Keeps(s: State, s': State, i: Inode) {
    i in s.files ==> i in s'.files && s'.files[i].content == s.files[i].content
                     && s'.files[i].isFile == s.files[i].isFile
  }

  /** Every file that was there still is, with its content; only the handles' may differ. */
  ghost predicate KeepsBut(s: State, s': State, handles: set<Inode>) {
    forall i | i in s.files :: i in s'.files && s'.files[i].isFile == s.files[i].isFile
                               && (i !in handles ==> Keeps(s, s', i))
  }

  lemma KeepsOn(a: State, b: State, c: State, x: set<Inode>, y: set<Inode>, z: set<Inode>)
    requires KeepsBut(a, b, x) && KeepsBut(b, c, y) && x <= z && y <= z
    ensures KeepsBut(a, c, z)
  {
  }

  lemma Kept(s: State, s': State, handles: set<Inode>, i: Inode)
    requires KeepsBut(s, s', handles) && i in s.files
    ensures i in s'.files && (i !in handles ==> s'.files[i].content == s.files[i].content)
  {
  }

  /** Writing changes contents and nothing that a name or a link count says. */
  ghost predicate SameShape(s: State, s': State) {
    && s'.dirs == s.dirs && s'.names == s.names && s'.files.Keys == s.files.Keys
    && forall i | i in s.files :: s'.files[i].isFile == s.files[i].isFile && s'.files[i].links == s.files[i].links
  }

  /** How one state follows another: others have acted at a step, or this program has written. */
  ghost predicate Follows(others: (nat, State) -> State, m: Moment, m': Moment) {
    if m'.ours then m'.clock == m.clock && SameShape(m.state, m'.state)
    else m'.clock == m.clock + 1 && m'.state == others(m.clock, m.state)
  }

  ghost predicate Run(others: (nat, State) -> State, h: History) {
    h != [] && forall i | 0 <= i < |h| - 1 :: Follows(others, h[i], h[i + 1])
  }

  /** The file system. `others` acts before each step, `fails` decides whether the step does, and `partial`
      how much of a failing write is written. */
  class FileSystem {
    const others: (nat, State) -> State
    const fails: nat -> bool
    const partial: nat -> nat
    var state: State
    var steps: nat
    ghost var history: History

    constructor (state: State, others: (nat, State) -> State, fails: nat -> bool, partial: nat -> nat)
      ensures this.state == state && this.others == others && this.fails == fails && this.partial == partial
      ensures steps == 0 && history == [Moment(0, state, true)]
    {
      this.state, this.others, this.fails, this.partial := state, others, fails, partial;
      steps, history := 0, [Moment(0, state, true)];
    }

    /** Others rename, link and create; they do not write to or remove a file that is there. */
    ghost predicate Valid()
      reads this
    {
      && (forall k, s :: KeepsBut(s, others(k, s), {})) && history != [] && Run(others, history)
      && history[|history| - 1].state == state && history[|history| - 1].clock == steps
    }

    /** What any number of steps keep: the run goes on, and only these handles' contents change. */
    twostate predicate Went(handles: set<Inode>)
      reads this
    {
      Valid() && old(history) <= history && KeepsBut(old(state), state, handles)
    }

    method Step() returns (ok: bool)
      requires Valid()
      modifies this
      ensures Went({}) && history == old(history) + [Moment(steps, state, false)]
      ensures steps == old(steps) + 1 && ok == !fails(old(steps))
    {
      ghost var before := history;
      state := others(steps, state);
      ok := !fails(steps);
      steps := steps + 1;
      history := history + [Moment(steps, state, false)];
      RunMore(others, before, Moment(steps, state, false));
    }

    /** Puts content into a held file. */
    method Put(handle: Inode, content: seq<byte>)
      requires Valid() && handle in state.files
      modifies this
      ensures Went({handle}) && steps == old(steps) && |history| == |old(history)| + 1
      ensures handle in state.files && state.files[handle].content == content
    {
      ghost var before := history;
      state := state.(files := state.files[handle := state.files[handle].(content := content)]);
      history := history + [Moment(steps, state, true)];
      RunMore(others, before, Moment(steps, state, true));
    }

    /** Writes from the start of a held file; a failing write may have written a beginning of it. */
    method WriteAll(handle: Inode, bytes: seq<byte>) returns (ok: bool)
      requires Valid() && handle in state.files
      modifies this
      ensures Went({handle}) && handle in state.files && steps == old(steps) + 1 && ok == !fails(old(steps))
      ensures exists n: nat :: n <= |bytes| && (ok ==> n == |bytes|)
                && state.files[handle].content == Overwritten(old(state.files[handle].content), bytes[..n])
    {
      var step := steps;
      ok := Step();
      var n := if ok then |bytes| else Min(partial(step), |bytes|);
      Put(handle, Overwritten(state.files[handle].content, bytes[..n]));
    }

    method SetLength(handle: Inode, length: nat) returns (ok: bool)
      requires Valid() && handle in state.files
      modifies this
      ensures Went({handle}) && handle in state.files && steps == old(steps) + 1 && ok == !fails(old(steps))
      ensures var was := old(state.files[handle].content);
        state.files[handle].content == if ok then Resized(was, length) else was
    {
      ok := Step();
      if ok {
        Put(handle, Resized(state.files[handle].content, length));
      }
    }
  }

  function Overwritten(was: seq<byte>, bytes: seq<byte>): seq<byte> {
    bytes + if |bytes| <= |was| then was[|bytes|..] else []
  }

  function Resized(was: seq<byte>, length: nat): seq<byte> {
    if length <= |was| then was[..length] else was + Zeros(length - |was|)
  }

  lemma RunMore(others: (nat, State) -> State, h: History, m: Moment)
    requires Run(others, h) && Follows(others, h[|h| - 1], m)
    ensures Run(others, h + [m])
  {
    hide Follows;
    var more := h + [m];
    forall i | 0 <= i < |more| - 1
      ensures Follows(others, more[i], more[i + 1])
    {
      if i < |h| - 1 {
        assert Follows(others, h[i], h[i + 1]);
      }
    }
  }

  // ----- What a retained file was opened as

  datatype Binding = Binding(parentPath: string, parent: Inode, leaf: string, handle: Inode)

  predicate DirBound(s: State, b: Binding) {
    b.parentPath in s.dirs && s.dirs[b.parentPath] == b.parent
  }

  predicate EntryBound(s: State, b: Binding) {
    (b.parent, b.leaf) in s.names && s.names[(b.parent, b.leaf)] == b.handle
  }

  predicate NameBound(s: State, b: Binding) {
    EntryBound(s, b) && b.handle in s.files && s.files[b.handle].isFile
  }

  predicate SoleLink(s: State, b: Binding) {
    b.handle in s.files && s.files[b.handle].isFile && s.files[b.handle].links == 1
  }

  /** The names lead to the file, which has no other. */
  predicate Intact(s: State, b: Binding) {
    DirBound(s, b) && EntryBound(s, b) && SoleLink(s, b)
  }

  /** The directory is the one opened, and its entry is the file. */
  predicate Leads(s: State, b: Binding) {
    DirBound(s, b) && EntryBound(s, b)
  }

  /** During these steps others leave an intact binding intact, and nothing fails. */
  ghost predicate Spared(fs: FileSystem, b: Binding, from: nat, to: nat) {
    forall k, s | from <= k < to && Intact(s, b) :: Intact(fs.others(k, s), b)
  }

  /** During these steps others leave the entry and the file's one link, whatever becomes of the directory. */
  ghost predicate SparedEntry(fs: FileSystem, b: Binding, from: nat, to: nat) {
    forall k, s | from <= k < to && EntryBound(s, b) && SoleLink(s, b) ::
      EntryBound(fs.others(k, s), b) && SoleLink(fs.others(k, s), b)
  }

  /** Until a recheck that ends with the last of these steps, others leave what it has yet to check. */
  ghost predicate SparedToCheck(fs: FileSystem, b: Binding, from: nat, to: nat) {
    || Spared(fs, b, from, to)
    || (to >= 3 && Spared(fs, b, from, to - 3) && SparedEntry(fs, b, to - 3, to))
  }

  ghost predicate Works(fs: FileSystem, from: nat, to: nat) {
    forall k | from <= k < to :: !fs.fails(k)
  }

  /** What is spared stays intact. */
  lemma {:induction false} IntactCarried(fs: FileSystem, h: History, i: nat, b: Binding)
    requires Run(fs.others, h) && i < |h| && Intact(h[i].state, b)
    requires Spared(fs, b, h[i].clock, h[|h| - 1].clock)
    ensures Intact(h[|h| - 1].state, b)
    decreases |h| - i
  {
    ClockGrows(fs.others, h, i);
    if i < |h| - 1 {
      assert Follows(fs.others, h[i], h[i + 1]);
      ClockGrows(fs.others, h, i + 1);
      IntactCarried(fs, h, i + 1, b);
    }
  }

  /** The last moment of the run is now. */
  lemma NowIs(fs: FileSystem)
    requires fs.Valid()
    ensures fs.history != []
    ensures var m := fs.history[|fs.history| - 1]; m.state == fs.state && m.clock == fs.steps
  {
    hide Run, KeepsBut;
  }

  lemma CarriedWithin(fs: FileSystem, i: nat, b: Binding, from: nat, to: nat)
    requires fs.Valid() && i < |fs.history| && Intact(fs.history[i].state, b)
    requires Spared(fs, b, from, to) && from <= fs.history[i].clock && fs.steps <= to
    ensures Intact(fs.state, b)
  {
    hide Intact, Run;
    IntactCarried(fs, fs.history, i, b);
  }

  lemma SparedWithin(fs: FileSystem, b: Binding, from: nat, to: nat, from': nat, to': nat)
    requires from <= from' && to' <= to && Works(fs, from, to) && Spared(fs, b, from, to)
    ensures Works(fs, from', to') && Spared(fs, b, from', to')
  {
    hide Intact;
  }

  lemma SparedWithinCheck(fs: FileSystem, b: Binding, from: nat, to: nat, from': nat, to': nat)
    requires from <= from' <= to' && to' + 3 <= to && SparedToCheck(fs, b, from, to)
    ensures Spared(fs, b, from', to') && SparedToCheck(fs, b, from', to)
  {
    hide Intact;
  }

  // ----- Where names lead

  /** During these steps others leave the directory's path bound to the directory opened. */
  ghost predicate LeavesDir(others: (nat, State) -> State, b: Binding, from: nat, to: nat) {
    forall k, s | from <= k < to && DirBound(s, b) :: DirBound(others(k, s), b)
  }

  /** During these steps others leave the entry bound to the file. */
  ghost predicate LeavesEntry(others: (nat, State) -> State, b: Binding, from: nat, to: nat) {
    forall k, s | from <= k < to && EntryBound(s, b) :: EntryBound(others(k, s), b)
  }

  lemma {:induction false} DirStays(others: (nat, State) -> State, h: History, i: nat, b: Binding)
    requires Run(others, h) && i < |h| && DirBound(h[i].state, b)
    requires LeavesDir(others, b, h[i].clock, h[|h| - 1].clock)
    ensures DirBound(h[|h| - 1].state, b)
    decreases |h| - i
  {
    if i < |h| - 1 {
      assert Follows(others, h[i], h[i + 1]);
      ClockGrows(others, h, i + 1);
      DirStays(others, h, i + 1, b);
    }
  }

  lemma {:induction false} EntryStays(others: (nat, State) -> State, h: History, i: nat, b: Binding)
    requires Run(others, h) && i < |h| && EntryBound(h[i].state, b)
    requires LeavesEntry(others, b, h[i].clock, h[|h| - 1].clock)
    ensures EntryBound(h[|h| - 1].state, b)
    decreases |h| - i
  {
    if i < |h| - 1 {
      assert Follows(others, h[i], h[i + 1]);
      ClockGrows(others, h, i + 1);
      EntryStays(others, h, i + 1, b);
    }
  }

  /** A moment that lies `n` before the last is at most `n` steps old. */
  lemma {:induction false} AtMostSteps(others: (nat, State) -> State, h: History, n: nat)
    requires Run(others, h) && n < |h|
    ensures h[|h| - 1].clock <= h[|h| - 1 - n].clock + n
  {
    if n > 0 {
      assert Follows(others, h[|h| - 1 - n], h[|h| - n]);
      AtMostSteps(others, h, n - 1);
    }
  }

  /** A rechecked file's names still lead to it at the end if others leave its directory from the step after
      that was checked, and its entry likewise. The recheck began `n` moments before the last. */
  lemma RecheckedLeads(others: (nat, State) -> State, h: History, n: nat, b: Binding, bytes: seq<byte>)
    requires Run(others, h) && 3 <= n < |h| && Rechecked(h[|h| - 1 - n..][..4], b, bytes)
    requires n <= h[|h| - 1].clock
    requires LeavesDir(others, b, h[|h| - 1].clock - n, h[|h| - 1].clock)
    requires LeavesEntry(others, b, h[|h| - 1].clock + 3 - n, h[|h| - 1].clock)
    ensures Leads(h[|h| - 1].state, b)
  {
    hide DirBound, EntryBound, SoleLink, Run;
    var k := |h| - 1 - n;
    var checked := h[k..][..4];
    assert checked[0] == h[k] && checked[3] == h[k + 3];
    AtMostSteps(others, h, n);
    AtMostSteps(others, h, n - 3);
    DirStays(others, h, k, b);
    EntryStays(others, h, k + 3, b);
  }

  lemma {:induction false} ClockGrows(others: (nat, State) -> State, h: History, i: nat)
    requires Run(others, h) && i < |h|
    ensures h[i].clock <= h[|h| - 1].clock
    decreases |h| - i
  {
    if i < |h| - 1 {
      assert Follows(others, h[i], h[i + 1]);
      ClockGrows(others, h, i + 1);
    }
  }

  /** Four steps of a revalidation, in order: the directory is the one opened, the file has this one link
      and content, and its name leads to it. */
  ghost predicate Rechecked(h: History, b: Binding, bytes: seq<byte>) {
    && |h| == 4 && DirBound(h[0].state, b) && SoleLink(h[1].state, b) && NameBound(h[3].state, b)
    && b.handle in h[2].state.files && h[2].state.files[b.handle].content == bytes
  }

  class RetainedFile {
    const at: Binding
    var bytes: seq<byte>

    constructor (at: Binding, bytes: seq<byte>)
      ensures this.at == at && this.bytes == bytes
    {
      this.at, this.bytes := at, bytes;
    }

    /** The first two of its steps: the directory, then the file itself. */
    method RecheckFile(fs: FileSystem) returns (ok: bool)
      requires fs.Valid() && at.handle in fs.state.files
      modifies fs
      ensures fs.Went({}) && at.handle in fs.state.files
      ensures ok ==> |fs.history| == |old(fs.history)| + 2 && fs.steps == old(fs.steps) + 2
                     && DirBound(fs.history[|fs.history| - 2].state, at)
                     && SoleLink(fs.history[|fs.history| - 1].state, at)
      ensures Intact(old(fs.state), at) && old(fs.state).files[at.handle].content == bytes
                && Works(fs, old(fs.steps), old(fs.steps) + 2) && Spared(fs, at, old(fs.steps), old(fs.steps) + 2)
              ==> ok && Intact(fs.state, at)
      ensures Intact(old(fs.state), at) && old(fs.state).files[at.handle].content == bytes
                && Works(fs, old(fs.steps), old(fs.steps) + 2) && Spared(fs, at, old(fs.steps), old(fs.steps) + 1)
                && SparedEntry(fs, at, old(fs.steps) + 1, old(fs.steps) + 2)
              ==> ok && EntryBound(fs.state, at) && SoleLink(fs.state, at)
    {
      ok := fs.Step();
      if !ok || !(at.parentPath in fs.state.dirs && fs.state.dirs[at.parentPath] == at.parent) {
        return false;
      }
      ok := fs.Step();
      var node := fs.state.files[at.handle];
      return ok && node.isFile && node.links == 1 && |node.content| == |bytes|;
    }

    /** The last two: the content, then the name. */
    method RecheckName(fs: FileSystem) returns (ok: bool)
      requires fs.Valid() && at.handle in fs.state.files
      modifies fs
      ensures fs.Went({}) && at.handle in fs.state.files
      ensures ok ==> |fs.history| == |old(fs.history)| + 2 && fs.steps == old(fs.steps) + 2
                     && at.handle in fs.history[|fs.history| - 2].state.files
                     && fs.history[|fs.history| - 2].state.files[at.handle].content == bytes
                     && NameBound(fs.history[|fs.history| - 1].state, at)
                     && fs.state.files[at.handle].content == bytes
      ensures Intact(old(fs.state), at) && old(fs.state).files[at.handle].content == bytes
                && Works(fs, old(fs.steps), old(fs.steps) + 2) && Spared(fs, at, old(fs.steps), old(fs.steps) + 2)
              ==> ok && Intact(fs.state, at)
      ensures EntryBound(old(fs.state), at) && SoleLink(old(fs.state), at)
                && old(fs.state).files[at.handle].content == bytes && Works(fs, old(fs.steps), old(fs.steps) + 2)
                && SparedEntry(fs, at, old(fs.steps), old(fs.steps) + 2)
              ==> ok
    {
      ok := fs.Step();
      if !ok || fs.state.files[at.handle].content != bytes {
        return false;
      }
      ok := fs.Step();
      var named := (at.parent, at.leaf) in fs.state.names && fs.state.names[(at.parent, at.leaf)] == at.handle
                   && fs.state.files[at.handle].isFile;
      return ok && named;
    }

    /** All four. They succeed if the file is intact and others leave what is yet to be checked. */
    method Revalidate(fs: FileSystem) returns (ok: bool)
      requires fs.Valid() && at.handle in fs.state.files
      modifies fs
      ensures fs.Went({}) && at.handle in fs.state.files
      ensures ok ==> |fs.history| == |old(fs.history)| + 4 && Rechecked(fs.history[|old(fs.history)|..], at, bytes)
      ensures ok ==> fs.steps == old(fs.steps) + 4 && fs.state.files[at.handle].content == bytes
      ensures Intact(old(fs.state), at) && old(fs.state).files[at.handle].content == bytes
                && Works(fs, old(fs.steps), old(fs.steps) + 4) && Spared(fs, at, old(fs.steps), old(fs.steps) + 4)
              ==> ok && Intact(fs.state, at)
      ensures Intact(old(fs.state), at) && old(fs.state).files[at.handle].content == bytes
                && Works(fs, old(fs.steps), old(fs.steps) + 4)
                && SparedToCheck(fs, at, old(fs.steps), old(fs.steps) + 4)
              ==> ok
    {
      hide Intact, DirBound, EntryBound, SoleLink, NameBound, Run;
      ok := RecheckFile(fs);
      if !ok {
        return false;
      }
      ok := RecheckName(fs);
    }
  }

  /** The directory and the name led to the file when it was opened: a regular file with one link and this
      content. */
  ghost predicate OpenedIn(h: History, b: Binding, bytes: seq<byte>) {
    && |h| == 4 && DirBound(h[0].state, b) && EntryBound(h[1].state, b) && SoleLink(h[2].state, b)
    && b.handle in h[3].state.files && h[3].state.files[b.handle].content == bytes
  }

  predicate Named(b: Binding, parentPath: string, leaf: string) {
    b.parentPath == parentPath && b.leaf == leaf
  }

  /** Opens a file without following links, requires it regular, bounded and with one link, and keeps it. It
      succeeds if the names lead to such a file and others leave them. */
  method ReadBoundedFile(fs: FileSystem, parentPath: string, leaf: string, maxBytes: nat, ghost b: Binding)
    returns (r: Option<RetainedFile>)
    requires fs.Valid()
    modifies fs
    ensures fs.Went({})
    ensures r.Some? ==> fresh(r.value) && Named(r.value.at, parentPath, leaf) && |r.value.bytes| <= maxBytes
                        && r.value.at.handle in fs.state.files
                        && fs.state.files[r.value.at.handle].content == r.value.bytes
    ensures r.Some? ==> |fs.history| == |old(fs.history)| + 4 && fs.steps == old(fs.steps) + 4
                        && OpenedIn(fs.history[|old(fs.history)|..], r.value.at, r.value.bytes)
    ensures Named(b, parentPath, leaf) && Intact(old(fs.state), b)
              && |old(fs.state).files[b.handle].content| <= maxBytes
              && Works(fs, old(fs.steps), old(fs.steps) + 4) && Spared(fs, b, old(fs.steps), old(fs.steps) + 4)
            ==> r.Some? && r.value.at == b && Intact(fs.state, b)
  {
    var ok := fs.Step();
    if !ok || parentPath !in fs.state.dirs {
      return None;
    }
    var parent := fs.state.dirs[parentPath];
    ok := fs.Step();
    if !ok || (parent, leaf) !in fs.state.names || fs.state.names[(parent, leaf)] !in fs.state.files {
      return None;
    }
    var handle := fs.state.names[(parent, leaf)];
    ok := fs.Step();
    var node := fs.state.files[handle];
    if !ok || !node.isFile || |node.content| > maxBytes || node.links != 1 {
      return None;
    }
    ok := fs.Step();
    var bytes := fs.state.files[handle].content;
    if !ok || |bytes| != |node.content| {
      return None;
    }
    var file := new RetainedFile(Binding(parentPath, parent, leaf, handle), bytes);
    return Some(file);
  }

  /** Writes a held file's whole content: from the start, then the length, then to the disk. */
  method WriteContent(fs: FileSystem, bytes: seq<byte>, handle: Inode, ghost b: Binding) returns (ok: bool)
    requires fs.Valid() && handle in fs.state.files
    modifies fs
    ensures fs.Went({handle}) && handle in fs.state.files
    ensures ok ==> fs.state.files[handle].content == bytes && fs.steps == old(fs.steps) + 3
    ensures Intact(old(fs.state), b) && Works(fs, old(fs.steps), old(fs.steps) + 3)
              && Spared(fs, b, old(fs.steps), old(fs.steps) + 3)
            ==> ok && Intact(fs.state, b)
  {
    hide Intact, Follows;
    ghost var i := |fs.history| - 1;
    ok := fs.WriteAll(handle, bytes);
    if !ok {
      return;
    }
    assert bytes[..|bytes|] == bytes;
    ok := fs.SetLength(handle, |bytes|);
    if !ok {
      return;
    }
    assert fs.state.files[handle].content == bytes;
    ok := fs.Step();
    if ok && Intact(fs.history[i].state, b) && Spared(fs, b, fs.history[i].clock, fs.history[i].clock + 3) {
      IntactCarried(fs, fs.history, i, b);
    }
  }

  /** Rewrites a held file through its handle, between two revalidations. */
  method ReplaceGeneratedFile(fs: FileSystem, bytes: seq<byte>, file: RetainedFile) returns (ok: bool)
    requires fs.Valid() && file.at.handle in fs.state.files
    modifies fs, file`bytes
    ensures fs.Went({file.at.handle}) && file.at.handle in fs.state.files
    ensures ok ==> file.bytes == bytes && fs.state.files[file.at.handle].content == bytes
                   && fs.steps == old(fs.steps) + 11
    ensures Intact(old(fs.state), file.at) && old(fs.state).files[file.at.handle].content == old(file.bytes)
              && Works(fs, old(fs.steps), old(fs.steps) + 11) && Spared(fs, file.at, old(fs.steps), old(fs.steps) + 11)
            ==> ok && Intact(fs.state, file.at)
  {
    hide Intact, Run, Rechecked;
    ok := file.Revalidate(fs);
    if !ok {
      return;
    }
    ok := WriteContent(fs, bytes, file.at.handle, file.at);
    if !ok {
      return;
    }
    file.bytes := bytes;
    ok := file.Revalidate(fs);
  }
}
