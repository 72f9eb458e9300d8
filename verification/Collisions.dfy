/** The case-folding collision registry (crates/kitrove-agent-skills/src/tree.rs:623-644, 1290-1325). `fold`
    stands for normalisation and full case folding of a whole path. */
module Collisions {
  import opened Outcome
  import opened Paths
  import opened Lexicographic

  type Fold = Key -> Key

  predicate CollisionFree(fold: Fold, keys: set<Key>) {
    forall p, q | p in keys && q in keys && fold(p) == fold(q) :: p == q
  }

  /** The registry maps each folded key to the path that holds it. */
  predicate Registers(fold: Fold, registry: map<Key, Key>, keys: set<Key>) {
    && (forall p | p in keys :: fold(p) in registry && registry[fold(p)] == p)
    && (forall f | f in registry :: registry[f] in keys && fold(registry[f]) == f)
  }

  function Register(fold: Fold, registry: map<Key, Key>, key: Key): Option<map<Key, Key>> {
    var folded := fold(key);
    if folded in registry then
      if registry[folded] != key then None else Some(registry)
    else Some(registry[folded := key])
  }

  /** One registration fails exactly when the path collides with a registered one. */
  lemma RegisterExactly(fold: Fold, registry: map<Key, Key>, keys: set<Key>, key: Key)
    requires Registers(fold, registry, keys)
    ensures Register(fold, registry, key).Some? <==> CollisionFree(fold, keys + {key})
    ensures Register(fold, registry, key).Some? ==>
      Registers(fold, Register(fold, registry, key).value, keys + {key})
  {
    if fold(key) in registry && registry[fold(key)] != key {
      assert registry[fold(key)] in keys + {key};
    }
  }

  lemma RegistersFree(fold: Fold, registry: map<Key, Key>, keys: set<Key>)
    requires Registers(fold, registry, keys)
    ensures CollisionFree(fold, keys)
  {
  }

  // ----- The check over whole stored paths

  function Split(k: Key): (p: Path)
    ensures p != []
  {
    if k == [] then [[]]
    else
      var rest := Split(k[1..]);
      if k[0] == SLASH then [[]] + rest else [[k[0]] + rest[0]] + rest[1..]
  }

  lemma {:induction false} SplitName(n: Name, rest: Key)
    requires SLASH !in n
    ensures Split(n) == [n]
    ensures Split(n + [SLASH] + rest) == [n] + Split(rest)
  {
    var k := n + [SLASH] + rest;
    if n == [] {
      assert k[1..] == rest;
    } else {
      SplitName(n[1..], rest);
      assert k[1..] == n[1..] + [SLASH] + rest;
      assert [n[0]] + n[1..] == n;
    }
  }

  /** Splitting undoes joining. */
  lemma {:induction false} SplitJoin(p: Path)
    requires PathOk(p) && p != []
    ensures Split(Join(p)) == p
  {
    assert NameOk(p[0]);
    if |p| == 1 {
      SplitName(p[0], []);
    } else {
      SplitName(p[0], Join(p[1..]));
      SplitJoin(p[1..]);
    }
    assert p == [p[0]] + p[1..];
  }

  /** The keys of every nonempty prefix of these paths. */
  function PrefixKeys(paths: seq<Path>): set<Key> {
    set i, k | 0 <= i < |paths| && 0 < k <= |paths[i]| :: Join(paths[i][..k])
  }

  function SplitAll(keys: seq<Key>): (paths: seq<Path>)
    ensures |paths| == |keys|
  {
    seq(|keys|, i requires 0 <= i < |keys| => Split(keys[i]))
  }

  function PrefixesUpTo(p: Path, k: nat): set<Key>
    requires k <= |p|
  {
    set m | 0 < m <= k :: Join(p[..m])
  }

  /** Registers every prefix of one path, replacing equal entries, until two prefixes collide. */
  method RegisterPrefixes(fold: Fold, registered: map<Key, Key>, segments: Path, ghost keys: set<Key>)
    returns (found: bool, registered': map<Key, Key>)
    requires PathOk(segments) && Registers(fold, registered, keys)
    ensures found <==> !CollisionFree(fold, keys + PrefixesUpTo(segments, |segments|))
    ensures !found ==> Registers(fold, registered', keys + PrefixesUpTo(segments, |segments|))
  {
    hide CollisionFree, Registers, Join, PrefixesUpTo;
    registered' := registered;
    var prefix: Key := [];
    NoPrefixes(segments);
    assert keys == keys + PrefixesUpTo(segments, 0);
    for k := 0 to |segments|
      invariant prefix == Join(segments[..k]) && (prefix == [] <==> k == 0)
      invariant Registers(fold, registered', keys + PrefixesUpTo(segments, k))
    {
      ghost var seen := keys + PrefixesUpTo(segments, k);
      if prefix != [] {
        prefix := prefix + [SLASH];
      }
      prefix := prefix + segments[k];
      NextPrefix(segments, k);
      assert prefix == Join(segments[..k + 1]);
      assert keys + PrefixesUpTo(segments, k + 1) == seen + {prefix};
      RegisterExactly(fold, registered', seen, prefix);
      var folded := fold(prefix);
      if folded in registered' && registered'[folded] != prefix {
        PrefixesWithin(segments, k + 1);
        FreeWithin(fold, seen + {prefix}, keys + PrefixesUpTo(segments, |segments|));
        return true, registered';
      }
      assert registered'[folded := prefix] == Register(fold, registered', prefix).value;
      registered' := registered'[folded := prefix];
    }
    RegistersFree(fold, registered', keys + PrefixesUpTo(segments, |segments|));
    return false, registered';
  }

  lemma NoPrefixes(p: Path)
    ensures PrefixesUpTo(p, 0) == {} && Join(p[..0]) == []
  {
  }

  lemma PrefixesWithin(p: Path, k: nat)
    requires k <= |p|
    ensures PrefixesUpTo(p, k) <= PrefixesUpTo(p, |p|)
  {
    hide Join;
  }

  lemma FreeWithin(fold: Fold, small: set<Key>, large: set<Key>)
    requires small <= large
    ensures CollisionFree(fold, large) ==> CollisionFree(fold, small)
  {
  }

  lemma NextPrefix(p: Path, k: nat)
    requires k < |p| && PathOk(p)
    ensures Join(p[..k + 1]) != []
    ensures Join(p[..k + 1]) == if k == 0 then p[k] else Join(p[..k]) + [SLASH] + p[k]
    ensures PrefixesUpTo(p, k + 1) == PrefixesUpTo(p, k) + {Join(p[..k + 1])}
  {
    assert p[..k + 1] == p[..k] + [p[k]] && NameOk(p[k]);
    JoinSnoc(p[..k], p[k]);
  }

  lemma NextPath(paths: seq<Path>, i: nat)
    requires i < |paths|
    ensures PrefixKeys(paths[..i + 1]) == PrefixKeys(paths[..i]) + PrefixesUpTo(paths[i], |paths[i]|)
    ensures PrefixKeys(paths[..i + 1]) <= PrefixKeys(paths)
  {
    var more := paths[..i + 1];
    assert forall h | 0 <= h < i :: more[h] == paths[..i][h] == paths[h];
    assert more[i] == paths[i];
    forall key | key in PrefixKeys(paths[..i]) + PrefixesUpTo(paths[i], |paths[i]|)
      ensures key in PrefixKeys(more)
    {
      if key in PrefixKeys(paths[..i]) {
        var h, k :| 0 <= h < i && 0 < k <= |paths[..i][h]| && key == Join(paths[..i][h][..k]);
        assert key == Join(more[h][..k]);
      } else {
        var k :| 0 < k <= |paths[i]| && key == Join(paths[i][..k]);
        assert key == Join(more[i][..k]);
      }
    }
  }

  /** Reports a collision exactly when two different path prefixes share a folded key. */
  method HasPathCollision(fold: Fold, keys: seq<Key>) returns (found: bool)
    requires forall i | 0 <= i < |keys| :: PathOk(Split(keys[i]))
    ensures found <==> !CollisionFree(fold, PrefixKeys(SplitAll(keys)))
  {
    ghost var paths := SplitAll(keys);
    var registered: map<Key, Key> := map[];
    assert PrefixKeys(paths[..0]) == {};
    for i := 0 to |keys|
      invariant Registers(fold, registered, PrefixKeys(paths[..i]))
    {
      NextPath(paths, i);
      found, registered := RegisterPrefixes(fold, registered, Split(keys[i]), PrefixKeys(paths[..i]));
      if found {
        return;
      }
    }
    assert paths[..|keys|] == paths;
    RegistersFree(fold, registered, PrefixKeys(paths));
    return false;
  }

  // ----- What the prefixes are

  /** The path itself, or what comes before one of its slashes. */
  predicate IsPrefix(prefix: Key, k: Key) {
    prefix == k || prefix + [SLASH] <= k
  }

  predicate IsPrefixKey(p: Path, prefix: Key) {
    exists m | 0 < m <= |p| :: Join(p[..m]) == prefix
  }

  lemma AtSlash(k: Key) returns (name: Name, rest: Key)
    requires SLASH in k
    ensures SLASH !in name && k == name + [SLASH] + rest && |rest| < |k|
  {
    if k[0] == SLASH {
      name, rest := [], k[1..];
    } else {
      assert k == [k[0]] + k[1..];
      name, rest := AtSlash(k[1..]);
      name := [k[0]] + name;
    }
  }

  lemma FirstPrefix(name: Name, rest: Key, prefix: Key)
    requires SLASH !in name
    ensures IsPrefix(prefix, name + [SLASH] + rest)
       <==> || prefix == name
            || (name + [SLASH] <= prefix && IsPrefix(prefix[|name| + 1..], rest))
  {
    var k := name + [SLASH] + rest;
    if prefix + [SLASH] <= k {
      assert k[|prefix|] == (prefix + [SLASH])[|prefix|];
      assert forall i | 0 <= i < |name| :: k[i] == name[i] != SLASH;
      assert prefix == k[..|prefix|];
      if |prefix| > |name| {
        assert k[|name| + 1..] == rest && prefix[|name| + 1..] + [SLASH] == (prefix + [SLASH])[|name| + 1..];
      }
    }
    if prefix == name {
      assert prefix + [SLASH] <= k;
    }
    if name + [SLASH] <= prefix && IsPrefix(prefix[|name| + 1..], rest) {
      assert prefix == name + [SLASH] + prefix[|name| + 1..];
    }
  }

  lemma FirstPrefixKey(name: Name, p: Path, prefix: Key)
    requires p != []
    ensures IsPrefixKey([name] + p, prefix)
       <==> || prefix == name
            || (name + [SLASH] <= prefix && IsPrefixKey(p, prefix[|name| + 1..]))
  {
    var all := [name] + p;
    forall m | 0 < m <= |all|
      ensures Join(all[..m]) == if m == 1 then name else name + [SLASH] + Join(p[..m - 1])
    {
      assert all[..m] == [name] + p[..m - 1];
    }
    if prefix == name {
      assert Join(all[..1]) == prefix;
    }
    if name + [SLASH] <= prefix && IsPrefixKey(p, prefix[|name| + 1..]) {
      var m :| 0 < m <= |p| && Join(p[..m]) == prefix[|name| + 1..];
      assert prefix == name + [SLASH] + Join(p[..m]) == Join(all[..m + 1]);
    }
    if IsPrefixKey(all, prefix) && prefix != name {
      var m :| 0 < m <= |all| && Join(all[..m]) == prefix;
      assert prefix[|name| + 1..] == Join(p[..m - 1]);
    }
  }

  /** The first components of a split path, joined again, are the path and what comes before its slashes. */
  lemma {:induction false} PrefixesAre(k: Key, prefix: Key)
    ensures IsPrefixKey(Split(k), prefix) <==> IsPrefix(prefix, k)
    decreases |k|
  {
    if SLASH in k {
      var name, rest := AtSlash(k);
      SplitName(name, rest);
      hide Split, IsPrefixKey, IsPrefix;
      FirstPrefix(name, rest, prefix);
      FirstPrefixKey(name, Split(rest), prefix);
      if name + [SLASH] <= prefix {
        PrefixesAre(rest, prefix[|name| + 1..]);
      }
    } else {
      SplitName(k, []);
      if prefix + [SLASH] <= k {
        SlashWithin(prefix, k);
      }
      assert Split(k)[..1] == [k] && Join([k]) == k;
    }
  }

  lemma PrefixKeysAre(keys: seq<Key>, prefix: Key)
    ensures prefix in PrefixKeys(SplitAll(keys)) <==> exists k <- keys :: IsPrefix(prefix, k)
  {
    var paths := SplitAll(keys);
    hide Split, Join, IsPrefix;
    forall i | 0 <= i < |keys|
      ensures IsPrefixKey(paths[i], prefix) <==> IsPrefix(prefix, keys[i])
    {
      PrefixesAre(keys[i], prefix);
    }
    if prefix in PrefixKeys(paths) {
      var i, m :| 0 <= i < |paths| && 0 < m <= |paths[i]| && Join(paths[i][..m]) == prefix;
      assert keys[i] in keys && IsPrefixKey(paths[i], prefix);
    }
  }
}
