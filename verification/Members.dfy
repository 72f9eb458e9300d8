/** The member-set check of a release archive (scripts/verify_release_archives.py:323-372). */
module Members {
  import opened Outcome
  import opened Paths
  import opened Lexicographic
  import opened MemberNames
  import opened SafeNames

  const MAX_ENTRIES: nat := 10_000
  const MAX_ENTRY_BYTES: nat := 128 * 1024 * 1024
  const MAX_EXPANDED_BYTES: nat := 512 * 1024 * 1024

  datatype Kind = File | Directory | Unsupported

  datatype ArchiveEntry = ArchiveEntry(name: string, kind: Kind, size: int, encrypted: bool)

  function Destination(e: ArchiveEntry): (r: Result<Path, MemberError>)
    ensures r.Ok? ==> r.value != [] && PathOk(r.value)
  {
    var parts :- SafeMemberParts(e.name, e.kind == Directory);
    SafePartsArePath(e.name, e.kind == Directory);
    Ok(FoldedPath(parts))
  }

  function Shape(e: ArchiveEntry): Result<(), MemberError> {
    if e.kind == Unsupported then Err(UnsupportedKind)
    else if e.encrypted then Err(Encrypted)
    else if e.size < 0 || e.size > MAX_ENTRY_BYTES then Err(EntrySize)
    else if e.kind == Directory && e.size != 0 then Err(DirectoryPayload)
    else Ok(())
  }

  /** What the entry loop carries. */
  datatype Seen = Seen(count: nat, destinations: set<Key>, files: set<Key>, expanded: int)

  const NOTHING_SEEN := Seen(0, {}, {}, 0)

  function Admit(e: ArchiveEntry, s: Seen): Result<Seen, MemberError> {
    if s.count >= MAX_ENTRIES then Err(TooManyEntries)
    else
      var _ :- Shape(e);
      var path :- Destination(e);
      var key := Join(path);
      if key in s.destinations then Err(DuplicateDestination)
      else if s.expanded + e.size > MAX_EXPANDED_BYTES then Err(ExpandedSize)
      else Ok(Seen(s.count + 1, s.destinations + {key}, if e.kind == File then s.files + {key} else s.files,
                   s.expanded + e.size))
  }

  function AdmitAll(entries: seq<ArchiveEntry>, s: Seen): Result<Seen, MemberError> {
    if entries == [] then Ok(s)
    else
      var next :- Admit(entries[0], s);
      AdmitAll(entries[1..], next)
  }

  /** Some destination starts with a file's key and a slash. */
  predicate Conflict(files: set<Key>, destinations: set<Key>) {
    exists f <- files, d <- destinations :: f + [SLASH] <= d
  }

  function Validate(entries: seq<ArchiveEntry>): Result<(), MemberError> {
    var s :- AdmitAll(entries, NOTHING_SEEN);
    if s.files == {} then Err(NoFiles)
    else if Conflict(s.files, s.destinations) then Err(ChildOfFile)
    else Ok(())
  }

  // ----- The sort-and-bisect check

  /** The first position whose element is not below `key`: `bisect.bisect_left`. */
  method BisectLeft(ordered: seq<Key>, key: Key) returns (low: nat)
    requires Increasing(ordered)
    ensures low <= |ordered|
    ensures forall i | 0 <= i < low :: Less(ordered[i], key)
    ensures forall i | low <= i < |ordered| :: Leq(key, ordered[i])
  {
    low := 0;
    var high := |ordered|;
    while low < high
      invariant low <= high <= |ordered|
      invariant forall i | 0 <= i < low :: Less(ordered[i], key)
      invariant forall i | high <= i < |ordered| :: Leq(key, ordered[i])
    {
      var mid := (low + high) / 2;
      if Less(ordered[mid], key) {
        forall i | 0 <= i < mid
          ensures Less(ordered[i], key)
        {
          Transitive(ordered[i], ordered[mid], key);
        }
        low := mid + 1;
      } else {
        Lexicographic.Total(key, ordered[mid]);
        forall i | mid < i < |ordered|
          ensures Leq(key, ordered[i])
        {
          LeqTransitive(key, ordered[mid], ordered[i]);
        }
        high := mid;
      }
    }
  }

  lemma PrefixLeq(p: Key, s: Key)
    requires p <= s
    ensures Leq(p, s)
  {
    if p != s {
      PrefixLess(p, s[|p|..]);
      assert s == p + s[|p|..];
    }
  }

  /** Only the first element not below a prefix has to be looked at. */
  lemma FirstCandidateDecides(ordered: seq<Key>, prefix: Key, low: nat)
    requires Increasing(ordered) && low <= |ordered|
    requires forall i | 0 <= i < low :: Less(ordered[i], prefix)
    requires forall i | low <= i < |ordered| :: Leq(prefix, ordered[i])
    ensures (exists d <- ordered :: prefix <= d) <==> low < |ordered| && prefix <= ordered[low]
  {
    forall d | d in ordered && prefix <= d
      ensures low < |ordered| && prefix <= ordered[low]
    {
      var i :| 0 <= i < |ordered| && ordered[i] == d;
      PrefixLeq(prefix, d);
      NotBelow(prefix, d);
      assert low <= i && Leq(ordered[low], ordered[i]);
      PrefixInterval(prefix, ordered[low], d);
    }
    if low < |ordered| && prefix <= ordered[low] {
      assert ordered[low] in ordered;
    }
  }

  method ValidateEntries(entries: seq<ArchiveEntry>) returns (r: Result<seq<ArchiveEntry>, MemberError>)
    ensures r.Verdict() == Validate(entries).Verdict()
    ensures r.Ok? ==> r.value == entries
  {
    hide Destination;
    var accepted: seq<ArchiveEntry>, expandedBytes := [], 0;
    var destinations: set<Key>, fileDestinations: set<Key> := {}, {};
    for i := 0 to |entries|
      invariant accepted == entries[..i]
      invariant AdmitAll(entries, NOTHING_SEEN)
             == AdmitAll(entries[i..], Seen(i, destinations, fileDestinations, expandedBytes))
      invariant fileDestinations == {} <==> forall k | 0 <= k < i :: entries[k].kind != File
    {
      var entry := entries[i];
      assert entries[i..][1..] == entries[i + 1..];
      if |accepted| >= MAX_ENTRIES {
        return Err(TooManyEntries);
      }
      if entry.kind != File && entry.kind != Directory {
        return Err(UnsupportedKind);
      }
      if entry.encrypted {
        return Err(Encrypted);
      }
      if entry.size < 0 || entry.size > MAX_ENTRY_BYTES {
        return Err(EntrySize);
      }
      if entry.kind == Directory && entry.size != 0 {
        return Err(DirectoryPayload);
      }
      var destination := Destination(entry);
      if destination.Err? {
        return Err(destination.error);
      }
      var key := Join(destination.value);
      if key in destinations {
        return Err(DuplicateDestination);
      }
      destinations := destinations + {key};
      if entry.kind == File {
        fileDestinations := fileDestinations + {key};
      }
      expandedBytes := expandedBytes + entry.size;
      if expandedBytes > MAX_EXPANDED_BYTES {
        return Err(ExpandedSize);
      }
      accepted := accepted + [entry];
    }
    if accepted == [] || forall e <- accepted :: e.kind != File {
      assert forall k | 0 <= k < |entries| :: entries[k] in accepted;
      return Err(NoFiles);
    }
    var conflict := FindsConflict(fileDestinations, destinations);
    if conflict {
      return Err(ChildOfFile);
    }
    return Ok(accepted);
  }

  /** Whether a file's key and a slash start some key, decided by sorting once and bisecting for each file. */
  method FindsConflict(files: set<Key>, destinations: set<Key>) returns (found: bool)
    ensures found <==> Conflict(files, destinations)
  {
    var ordered := Sorted(destinations);
    SortedSorts(destinations);
    var remaining := files;
    while remaining != {}
      invariant remaining <= files
      invariant forall f <- files - remaining, d <- destinations :: !(f + [SLASH] <= d)
      decreases |remaining|
    {
      var key :| key in remaining;
      var prefix := key + [SLASH];
      var candidate := BisectLeft(ordered, prefix);
      FirstCandidateDecides(ordered, prefix, candidate);
      if candidate < |ordered| && prefix <= ordered[candidate] {
        assert ordered[candidate] in destinations;
        return true;
      }
      assert forall d <- destinations :: d in ordered;
      remaining := remaining - {key};
    }
    return false;
  }

  // ----- What acceptance means

  predicate WellFormed(entries: seq<ArchiveEntry>) {
    forall i | 0 <= i < |entries| :: Shape(entries[i]).Ok? && Destination(entries[i]).Ok?
  }

  function PathOf(e: ArchiveEntry): Path
    requires Destination(e).Ok?
  {
    Destination(e).value
  }

  function TotalSize(entries: seq<ArchiveEntry>): int {
    if entries == [] then 0 else entries[0].size + TotalSize(entries[1..])
  }

  predicate Distinct(entries: seq<ArchiveEntry>)
    requires WellFormed(entries)
  {
    forall i, j | 0 <= i < j < |entries| :: PathOf(entries[i]) != PathOf(entries[j])
  }

  /** The quadratic definition over destinations: none twice, and no file above another one. */
  predicate Acceptable(entries: seq<ArchiveEntry>) {
    && |entries| <= MAX_ENTRIES && WellFormed(entries) && Distinct(entries)
    && TotalSize(entries) <= MAX_EXPANDED_BYTES
    && (exists i | 0 <= i < |entries| :: entries[i].kind == File)
    && (forall i, j | 0 <= i < |entries| && 0 <= j < |entries| ::
          entries[i].kind == File ==> !ProperAncestor(PathOf(entries[i]), PathOf(entries[j])))
  }

  function KeysOf(entries: seq<ArchiveEntry>): set<Key>
    requires WellFormed(entries)
  {
    set i | 0 <= i < |entries| :: Join(PathOf(entries[i]))
  }

  function FileKeys(entries: seq<ArchiveEntry>): set<Key>
    requires WellFormed(entries)
  {
    set i | 0 <= i < |entries| && entries[i].kind == File :: Join(PathOf(entries[i]))
  }

  lemma SamePath(a: ArchiveEntry, b: ArchiveEntry)
    requires Destination(a).Ok? && Destination(b).Ok?
    ensures Join(PathOf(a)) == Join(PathOf(b)) <==> PathOf(a) == PathOf(b)
  {
    hide Destination;
    if Join(PathOf(a)) == Join(PathOf(b)) {
      JoinInjective(PathOf(a), PathOf(b));
    }
  }

  lemma {:induction false} SizesGrow(entries: seq<ArchiveEntry>)
    requires WellFormed(entries)
    ensures TotalSize(entries) >= 0
  {
    hide Destination;
    if entries != [] {
      SizesGrow(entries[1..]);
    }
  }

  /** Running the loop from a state: it succeeds exactly when everything fits beside what was seen. */
  lemma {:induction false} AdmitAllExactly(entries: seq<ArchiveEntry>, s: Seen)
    requires s.count <= MAX_ENTRIES && s.expanded <= MAX_EXPANDED_BYTES
    ensures AdmitAll(entries, s).Ok?
       <==> && s.count + |entries| <= MAX_ENTRIES && WellFormed(entries) && Distinct(entries)
            && s.expanded + TotalSize(entries) <= MAX_EXPANDED_BYTES
            && KeysOf(entries) !! s.destinations
    ensures AdmitAll(entries, s).Ok? ==>
      && AdmitAll(entries, s).value.destinations == s.destinations + KeysOf(entries)
      && AdmitAll(entries, s).value.files == s.files + FileKeys(entries)
    decreases |entries|
  {
    hide Destination, Shape;
    if entries != [] {
      var e, rest := entries[0], entries[1..];
      if Shape(e).Ok? && Destination(e).Ok? {
        var key := Join(PathOf(e));
        SplitFirst(entries);
        if Admit(e, s).Ok? {
          AdmitAllExactly(rest, Admit(e, s).value);
        }
        if WellFormed(rest) {
          FirstAgainstRest(e, rest, entries);
          ShapeSizes(e, rest);
        }
      }
    }
  }

  lemma ShapeSizes(e: ArchiveEntry, rest: seq<ArchiveEntry>)
    requires WellFormed(rest) && Shape(e).Ok?
    ensures e.size >= 0 && TotalSize(rest) >= 0
  {
    SizesGrow(rest);
  }

  lemma SplitFirst(entries: seq<ArchiveEntry>)
    requires entries != []
    ensures WellFormed(entries)
       <==> Shape(entries[0]).Ok? && Destination(entries[0]).Ok? && WellFormed(entries[1..])
  {
    hide Destination, Shape;
    assert entries == [entries[0]] + entries[1..];
  }

  lemma FirstAgainstRest(e: ArchiveEntry, rest: seq<ArchiveEntry>, entries: seq<ArchiveEntry>)
    requires WellFormed(entries) && WellFormed(rest) && entries == [e] + rest && Destination(e).Ok?
    ensures Distinct(entries) <==> Distinct(rest) && Join(PathOf(e)) !in KeysOf(rest)
    ensures KeysOf(entries) == {Join(PathOf(e))} + KeysOf(rest)
    ensures FileKeys(entries) == (if e.kind == File then {Join(PathOf(e))} else {}) + FileKeys(rest)
  {
    hide WellFormed, Distinct, KeysOf, FileKeys, PathOf, Join;
    FirstKeys(e, rest, entries);
    FirstDistinct(e, rest, entries);
  }

  lemma FirstKeys(e: ArchiveEntry, rest: seq<ArchiveEntry>, entries: seq<ArchiveEntry>)
    requires WellFormed(entries) && WellFormed(rest) && entries == [e] + rest && Destination(e).Ok?
    ensures KeysOf(entries) == {Join(PathOf(e))} + KeysOf(rest)
    ensures FileKeys(entries) == (if e.kind == File then {Join(PathOf(e))} else {}) + FileKeys(rest)
  {
    hide Destination, Shape, Join, PathOf;
    assert entries[0] == e && forall i | 0 <= i < |rest| :: rest[i] == entries[i + 1];
    assert forall i | 0 < i < |entries| :: entries[i] == rest[i - 1];
  }

  lemma FirstDistinct(e: ArchiveEntry, rest: seq<ArchiveEntry>, entries: seq<ArchiveEntry>)
    requires WellFormed(entries) && WellFormed(rest) && entries == [e] + rest && Destination(e).Ok?
    ensures Distinct(entries) <==> Distinct(rest) && Join(PathOf(e)) !in KeysOf(rest)
  {
    hide Destination, Shape;
    forall i | 0 <= i < |rest|
      ensures Join(PathOf(e)) == Join(PathOf(rest[i])) <==> PathOf(e) == PathOf(rest[i])
    {
      SamePath(e, rest[i]);
    }
    hide Join, PathOf;
    assert entries[0] == e && forall i | 0 <= i < |rest| :: rest[i] == entries[i + 1];
    assert forall i | 0 < i < |entries| :: entries[i] == rest[i - 1];
  }

  lemma ConflictExactly(entries: seq<ArchiveEntry>)
    requires WellFormed(entries)
    ensures Conflict(FileKeys(entries), KeysOf(entries))
       <==> exists i, j | 0 <= i < |entries| && 0 <= j < |entries| ::
              entries[i].kind == File && ProperAncestor(PathOf(entries[i]), PathOf(entries[j]))
  {
    hide Destination, Shape;
    forall i, j | 0 <= i < |entries| && 0 <= j < |entries|
      ensures ProperAncestor(PathOf(entries[i]), PathOf(entries[j]))
         <==> Join(PathOf(entries[i])) + [SLASH] <= Join(PathOf(entries[j]))
    {
      JoinAncestor(PathOf(entries[i]), PathOf(entries[j]));
    }
    if Conflict(FileKeys(entries), KeysOf(entries)) {
      var f, d :| f in FileKeys(entries) && d in KeysOf(entries) && f + [SLASH] <= d;
      var i :| 0 <= i < |entries| && entries[i].kind == File && f == Join(PathOf(entries[i]));
      var j :| 0 <= j < |entries| && d == Join(PathOf(entries[j]));
      assert ProperAncestor(PathOf(entries[i]), PathOf(entries[j]));
    }
    forall i, j | 0 <= i < |entries| && 0 <= j < |entries|
        && entries[i].kind == File && ProperAncestor(PathOf(entries[i]), PathOf(entries[j]))
      ensures Conflict(FileKeys(entries), KeysOf(entries))
    {
      var f, d := Join(PathOf(entries[i])), Join(PathOf(entries[j]));
      assert f in FileKeys(entries) && d in KeysOf(entries) && f + [SLASH] <= d;
    }
  }

  /** The loop and the sort-and-bisect check accept exactly the lists the quadratic definition does. */
  lemma AcceptedExactly(entries: seq<ArchiveEntry>)
    ensures Validate(entries).Ok? <==> Acceptable(entries)
  {
    hide Destination, Shape, AdmitAll, ProperAncestor, FileKeys, KeysOf, Distinct, Conflict, TotalSize, WellFormed;
    AdmitAllExactly(entries, NOTHING_SEEN);
    if WellFormed(entries) {
      ConflictExactly(entries);
      SomeFile(entries);
      assert NOTHING_SEEN.files + FileKeys(entries) == FileKeys(entries);
      assert NOTHING_SEEN.destinations + KeysOf(entries) == KeysOf(entries);
    }
  }

  lemma SomeFile(entries: seq<ArchiveEntry>)
    requires WellFormed(entries)
    ensures FileKeys(entries) != {} <==> exists i | 0 <= i < |entries| :: entries[i].kind == File
  {
    hide Destination, Shape;
    if exists i | 0 <= i < |entries| :: entries[i].kind == File {
      var i :| 0 <= i < |entries| && entries[i].kind == File;
      assert Join(PathOf(entries[i])) in FileKeys(entries);
    }
  }

  // ----- What the names mean

  /** The entry's name is safe and made of these components. */
  predicate Names(e: ArchiveEntry, parts: seq<string>) {
    IsSafe(e.name, e.kind == Directory, parts)
  }

  /** A file or a directory without contents, not encrypted and within the size limit, with a safe name. */
  ghost predicate Sound(e: ArchiveEntry) {
    && (e.kind == File || (e.kind == Directory && e.size == 0)) && !e.encrypted
    && 0 <= e.size <= MAX_ENTRY_BYTES
    && exists parts :: Names(e, parts)
  }

  /** The second entry's place is not below the first one's file and, if they are two entries, not the first one's
      either, whatever the case of letters. */
  ghost predicate Clear(e: ArchiveEntry, f: ArchiveEntry, two: bool) {
    forall a, b | Names(e, a) && Names(f, b) ::
      && (two ==> !SameDestination(a, b))
      && (e.kind == File && |a| < |b| ==> !SameDestination(a, b[..|a|]))
  }

  ghost predicate Apart(entries: seq<ArchiveEntry>) {
    forall i, j | 0 <= i < |entries| && 0 <= j < |entries| :: Clear(entries[i], entries[j], i != j)
  }

  /** What a release archive may hold. */
  ghost predicate Publishable(entries: seq<ArchiveEntry>) {
    && |entries| <= MAX_ENTRIES && (forall e <- entries :: Sound(e)) && Apart(entries)
    && TotalSize(entries) <= MAX_EXPANDED_BYTES && exists e <- entries :: e.kind == File
  }

  lemma DestinationIs(e: ArchiveEntry, parts: seq<string>)
    ensures Names(e, parts)
       <==> && Destination(e).Ok? && SafeMemberParts(e.name, e.kind == Directory) == Ok(parts)
    ensures Names(e, parts) ==> && (forall part <- parts :: IsAscii(part)) && PathOf(e) == FoldedPath(parts)
  {
    hide IsSafe, SafeMemberParts, FoldedPath;
    SafeExactly(e.name, e.kind == Directory, parts);
    if Names(e, parts) {
      SafePartsArePath(e.name, e.kind == Directory);
    }
  }

  lemma DestinationNames(e: ArchiveEntry) returns (parts: seq<string>)
    requires Destination(e).Ok?
    ensures Names(e, parts)
  {
    hide IsSafe, SafeMemberParts;
    parts := SafeMemberParts(e.name, e.kind == Directory).value;
    SafeExactly(e.name, e.kind == Directory, parts);
  }

  lemma SoundExactly(e: ArchiveEntry)
    ensures Sound(e) <==> Shape(e).Ok? && Destination(e).Ok?
  {
    hide Names, Destination;
    if Destination(e).Ok? {
      var parts := DestinationNames(e);
    }
    if exists parts :: Names(e, parts) {
      var parts :| Names(e, parts);
      DestinationIs(e, parts);
    }
  }

  /** Two entries' destinations, and one above the other, in terms of their components. */
  lemma PlacesExactly(e: ArchiveEntry, a: seq<string>, f: ArchiveEntry, b: seq<string>)
    requires Names(e, a) && Names(f, b)
    ensures Destination(e).Ok? && Destination(f).Ok?
    ensures PathOf(e) == PathOf(f) <==> SameDestination(a, b)
    ensures ProperAncestor(PathOf(e), PathOf(f)) <==> |a| < |b| && SameDestination(a, b[..|a|])
  {
    hide Names, Destination, PathOf, FoldedPath, SameDestination;
    DestinationIs(e, a);
    DestinationIs(f, b);
    OneDestination(a, b);
    if |a| < |b| {
      assert forall part <- b[..|a|] :: part in b;
      OneDestination(a, b[..|a|]);
      FoldedPrefix(b, |a|);
    }
  }

  lemma FoldedPrefix(parts: seq<string>, n: nat)
    requires n <= |parts| && forall part <- parts :: IsAscii(part)
    ensures forall part <- parts[..n] :: IsAscii(part)
    ensures FoldedPath(parts[..n]) == FoldedPath(parts)[..n]
  {
    hide Folded;
  }

  lemma ClearExactly(e: ArchiveEntry, f: ArchiveEntry, two: bool)
    requires Destination(e).Ok? && Destination(f).Ok?
    ensures Clear(e, f, two)
       <==> (two ==> PathOf(e) != PathOf(f)) && (e.kind == File ==> !ProperAncestor(PathOf(e), PathOf(f)))
  {
    hide Names, Destination, PathOf, ProperAncestor, SameDestination;
    forall a, b | Names(e, a) && Names(f, b)
      ensures PathOf(e) == PathOf(f) <==> SameDestination(a, b)
      ensures ProperAncestor(PathOf(e), PathOf(f)) <==> |a| < |b| && SameDestination(a, b[..|a|])
    {
      PlacesExactly(e, a, f, b);
    }
    var a := DestinationNames(e);
    var b := DestinationNames(f);
    assert Names(e, a) && Names(f, b);
  }

  lemma ApartExactly(entries: seq<ArchiveEntry>)
    requires WellFormed(entries)
    ensures Apart(entries)
       <==> && Distinct(entries)
            && (forall i, j | 0 <= i < |entries| && 0 <= j < |entries| ::
                  entries[i].kind == File ==> !ProperAncestor(PathOf(entries[i]), PathOf(entries[j])))
  {
    hide Clear, Destination, Shape, PathOf, ProperAncestor;
    forall i, j | 0 <= i < |entries| && 0 <= j < |entries|
      ensures Clear(entries[i], entries[j], i != j)
         <==> && (i != j ==> PathOf(entries[i]) != PathOf(entries[j]))
              && (entries[i].kind == File ==> !ProperAncestor(PathOf(entries[i]), PathOf(entries[j])))
    {
      ClearExactly(entries[i], entries[j], i != j);
    }
  }

  /** The check accepts exactly the archives it may: what a name is and when two meet needs none of its own steps. */
  lemma ValidateExactly(entries: seq<ArchiveEntry>)
    ensures Validate(entries).Ok? <==> Publishable(entries)
  {
    hide Validate, Sound, Apart, Shape, Destination, Distinct, PathOf, ProperAncestor, TotalSize;
    AcceptedExactly(entries);
    forall i | 0 <= i < |entries|
      ensures Sound(entries[i]) <==> Shape(entries[i]).Ok? && Destination(entries[i]).Ok?
    {
      SoundExactly(entries[i]);
    }
    assert WellFormed(entries) <==> forall e <- entries :: Sound(e);
    if WellFormed(entries) {
      ApartExactly(entries);
    }
    assert (exists i | 0 <= i < |entries| :: entries[i].kind == File) <==> exists e <- entries :: e.kind == File;
  }
}
