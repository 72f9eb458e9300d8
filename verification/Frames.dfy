/** Length-framed hash preimages (crates/kitrove-agent-skills/src/tree.rs:373-389, source.rs:187-215,
    native_object.rs:201-223; crates/kitrove-adapter-api/src/identity.rs:181-238;
    crates/kitrove-agents/src/lib.rs:274-310). A digest is a function of its preimage alone, so what
    is proved here is that no two different inputs share a preimage. */
module Frames {
  import opened Outcome
  import opened Bytes
  import opened Trees

  // ----- Integers and records

  function Power256(width: nat): (p: nat)
    ensures p > 0
  {
    if width == 0 then 1 else 256 * Power256(width - 1)
  }

  /** `to_be_bytes` on `width` bytes. */
  function BigEndian(n: nat, width: nat): (s: seq<byte>)
    ensures |s| == width
  {
    if width == 0 then [] else BigEndian(n / 256, width - 1) + [n % 256]
  }

  lemma {:induction false} BigEndianInjective(m: nat, n: nat, width: nat)
    requires m < Power256(width) && n < Power256(width)
    requires BigEndian(m, width) == BigEndian(n, width)
    ensures m == n
    decreases width
  {
    if width > 0 {
      var (a, b) := (BigEndian(m, width), BigEndian(n, width));
      assert a[..width - 1] == BigEndian(m / 256, width - 1) && b[..width - 1] == BigEndian(n / 256, width - 1);
      assert a[width - 1] == m % 256 && b[width - 1] == n % 256;
      BigEndianInjective(m / 256, n / 256, width - 1);
    }
  }

  lemma DivideTwice(n: nat, p: nat)
    requires p > 0
    ensures n / 256 / p == n / (256 * p)
  {
    var q, r := n / 256 / p, n / 256 % p;
    assert n / 256 == p * q + r;
    assert n == 256 * p * q + (256 * r + n % 256);
    QuotientIs(n, 256 * p, q, 256 * r + n % 256);
  }

  lemma QuotientIs(n: nat, d: nat, q: nat, r: nat)
    requires d > 0 && n == d * q + r && r < d
    ensures n / d == q
  {
    var k, m := n / d, n % d;
    assert n == d * k + m;
    if k < q {
      Apart(d, k, q);
    } else if q < k {
      Apart(d, q, k);
    }
  }

  lemma Apart(d: nat, a: nat, b: nat)
    requires a < b
    ensures d * b >= d * a + d
  {
    var c := b - a;
    assert b == a + c && d * (a + c) == d * a + d * c;
    assert d * c >= d;
  }

  /** The most significant byte comes first. */
  lemma {:induction false} BigEndianAt(n: nat, width: nat, i: nat)
    requires i < width
    ensures BigEndian(n, width)[i] == n / Power256(width - 1 - i) % 256
    decreases width
  {
    if i < width - 1 {
      BigEndianAt(n / 256, width - 1, i);
      DivideTwice(n, Power256(width - 2 - i));
      assert Power256(width - 1 - i) == 256 * Power256(width - 2 - i);
    }
  }

  const LENGTH_LIMIT: nat := Power256(8)

  /** Lengths fit the 64-bit prefix, as every in-memory length does. */
  predicate Framable(s: seq<byte>) {
    |s| < LENGTH_LIMIT
  }

  function Record(s: seq<byte>): seq<byte> {
    BigEndian(|s|, 8) + s
  }

  lemma RecordSplits(a: seq<byte>, s: seq<byte>, b: seq<byte>, t: seq<byte>)
    requires Framable(a) && Framable(b) && Record(a) + s == Record(b) + t
    ensures a == b && s == t
  {
    var whole := Record(a) + s;
    assert whole[..8] == BigEndian(|a|, 8) && whole[..8] == BigEndian(|b|, 8);
    BigEndianInjective(|a|, |b|, 8);
    assert a == whole[8..8 + |a|] == b;
    assert s == whole[8 + |a|..] == t;
  }

  lemma TagSplits(x: byte, s: seq<byte>, y: byte, t: seq<byte>)
    requires [x] + s == [y] + t
    ensures x == y && s == t
  {
    ConsExactly(x, s, y, t);
  }

  function OptionalRecord(o: Option<seq<byte>>): seq<byte> {
    if o.Some? then [1] + Record(o.value) else [0]
  }

  predicate OptionFramable(o: Option<seq<byte>>) {
    o.Some? ==> Framable(o.value)
  }

  lemma OptionalSplits(a: Option<seq<byte>>, s: seq<byte>, b: Option<seq<byte>>, t: seq<byte>)
    requires OptionFramable(a) && OptionFramable(b) && OptionalRecord(a) + s == OptionalRecord(b) + t
    ensures a == b && s == t
  {
    hide Record;
    var (x, y) := (if a.Some? then Record(a.value) + s else s, if b.Some? then Record(b.value) + t else t);
    assert OptionalRecord(a) + s == [if a.Some? then 1 else 0] + x;
    assert OptionalRecord(b) + t == [if b.Some? then 1 else 0] + y;
    TagSplits(if a.Some? then 1 else 0, x, if b.Some? then 1 else 0, y);
    if a.Some? {
      RecordSplits(a.value, s, b.value, t);
    }
  }

  // ----- Domains

  predicate IsTag(s: string) {
    forall i | 0 <= i < |s| :: 0 < s[i] as int < 0x80
  }

  function Ascii(s: string): (r: seq<byte>)
    requires IsTag(s)
    ensures |r| == |s| && forall i | 0 <= i < |r| :: r[i] == s[i] as int
  {
    seq(|s|, i requires 0 <= i < |s| => s[i] as int)
  }

  /** A domain separator: its name and one NUL. */
  function Domain(name: string): seq<byte>
    requires IsTag(name)
  {
    Ascii(name) + [0]
  }

  /** Frames of different domains never coincide, whatever follows the separator. */
  lemma DomainSplits(a: string, s: seq<byte>, b: string, t: seq<byte>)
    requires IsTag(a) && IsTag(b)
    requires Domain(a) + s == Domain(b) + t
    ensures a == b && s == t
  {
    var (x, y) := (Ascii(a), Ascii(b));
    var whole := Domain(a) + s;
    assert whole[|x|] == 0 && whole[|y|] == (Domain(b) + t)[|y|] == 0;
    assert forall i | 0 <= i < |x| :: whole[i] == x[i] > 0;
    assert forall i | 0 <= i < |y| :: whole[i] == (Domain(b) + t)[i] == y[i] > 0;
    assert |x| == |y|;
    assert forall i | 0 <= i < |a| :: a[i] as int == whole[i] == b[i] as int;
    assert a == b;
    assert s == whole[|x| + 1..] == t;
  }

  /** What is hashed; each kind has a separator of its own. */
  datatype Kind = TreeKind | SourceKind | ObjectKind | ObservationKind | AgentKind | InstructionsKind | StoredAgentKind

  function Separator(k: Kind): (name: string)
    ensures IsTag(name)
  {
    match k
    case TreeKind => "kitrove-skill-tree-v1"
    case SourceKind => "kitrove-skill-source-v1"
    case ObjectKind => "kitrove-native-skill-object-v1"
    case ObservationKind => "kitrove-observation-id-v1"
    case AgentKind => "kitrove-agent-v1"
    case InstructionsKind => "kitrove-agent-instructions-v1"
    case StoredAgentKind => "kitrove-stored-agent-v1"
  }

  function Tagged(k: Kind, body: seq<byte>): seq<byte> {
    Domain(Separator(k)) + body
  }

  lemma SeparatorsDiffer(a: Kind, b: Kind)
    requires Separator(a) == Separator(b)
    ensures a == b
  {
    assert Separator(SourceKind)[9] != Separator(StoredAgentKind)[9];
  }

  /** Frames determine what kind of thing was hashed, and its body. */
  lemma KindsApart(a: Kind, body: seq<byte>, b: Kind, other: seq<byte>)
    requires Tagged(a, body) == Tagged(b, other)
    ensures a == b && body == other
  {
    hide Separator, Domain;
    DomainSplits(Separator(a), body, Separator(b), other);
    SeparatorsDiffer(a, b);
  }

  // ----- Trees

  function ModeByte(mode: FileMode): byte {
    match mode
    case Regular => 0
    case Executable => 1
  }

  function ItemFrame(item: Item<CapturedFile>): seq<byte> {
    Record(item.key) + ([ModeByte(item.value.mode)] + Record(item.value.bytes))
  }

  function ItemsFrame(items: seq<Item<CapturedFile>>): seq<byte> {
    if items == [] then [] else ItemFrame(items[0]) + ItemsFrame(items[1..])
  }

  predicate ItemFramable(item: Item<CapturedFile>) {
    Framable(item.key) && Framable(item.value.bytes)
  }

  predicate ItemsFramable(items: seq<Item<CapturedFile>>) {
    forall i | 0 <= i < |items| :: ItemFramable(items[i])
  }

  predicate FilesFramable(files: Files) {
    forall k | k in files :: Framable(k) && Framable(files[k].bytes)
  }

  lemma ItemSplits(a: Item<CapturedFile>, s: seq<byte>, b: Item<CapturedFile>, t: seq<byte>)
    requires ItemFramable(a) && ItemFramable(b) && ItemFrame(a) + s == ItemFrame(b) + t
    ensures a == b && s == t
  {
    hide Record;
    var (x, y) := (ModeByte(a.value.mode), ModeByte(b.value.mode));
    var (u, v) := (Record(a.value.bytes) + s, Record(b.value.bytes) + t);
    assert ItemFrame(a) + s == Record(a.key) + ([x] + u);
    assert ItemFrame(b) + t == Record(b.key) + ([y] + v);
    RecordSplits(a.key, [x] + u, b.key, [y] + v);
    TagSplits(x, u, y, v);
    RecordSplits(a.value.bytes, s, b.value.bytes, t);
  }

  lemma {:induction false} ItemsInjectiveFrame(a: seq<Item<CapturedFile>>, b: seq<Item<CapturedFile>>)
    requires ItemsFramable(a) && ItemsFramable(b) && ItemsFrame(a) == ItemsFrame(b)
    ensures a == b
    decreases |a|
  {
    if a == [] || b == [] {
      assert |ItemsFrame(a)| == |ItemsFrame(b)|;
    } else {
      ItemSplits(a[0], ItemsFrame(a[1..]), b[0], ItemsFrame(b[1..]));
      ItemsInjectiveFrame(a[1..], b[1..]);
      assert a == [a[0]] + a[1..] && b == [b[0]] + b[1..];
    }
  }

  lemma FilesInjectiveFrame(a: Files, b: Files)
    requires FilesFramable(a) && FilesFramable(b) && ItemsFrame(Items(a)) == ItemsFrame(Items(b))
    ensures a == b
  {
    ItemsHold(a);
    ItemsHold(b);
    ItemsInjectiveFrame(Items(a), Items(b));
    ItemsInjective(a, b);
  }

  function TreeFrame(files: Files): seq<byte> {
    Tagged(TreeKind, ItemsFrame(Items(files)))
  }

  lemma TreeFrameInjective(a: Files, b: Files)
    requires FilesFramable(a) && FilesFramable(b) && TreeFrame(a) == TreeFrame(b)
    ensures a == b
  {
    KindsApart(TreeKind, ItemsFrame(Items(a)), TreeKind, ItemsFrame(Items(b)));
    FilesInjectiveFrame(a, b);
  }

  // ----- Skill sources

  datatype Layout = Directory | Standalone

  function LayoutByte(l: Layout): byte {
    match l
    case Directory => 0
    case Standalone => 1
  }

  datatype Source = Source(layout: Layout, documentName: seq<byte>, files: Files)

  function SourceBody(s: Source): seq<byte> {
    [LayoutByte(s.layout)] + (Record(s.documentName) + ItemsFrame(Items(s.files)))
  }

  function SourceFrame(s: Source): seq<byte> {
    Tagged(SourceKind, SourceBody(s))
  }

  lemma SourceFrameInjective(a: Source, b: Source)
    requires FilesFramable(a.files) && FilesFramable(b.files)
    requires Framable(a.documentName) && Framable(b.documentName)
    requires SourceFrame(a) == SourceFrame(b)
    ensures a == b
  {
    var (x, y) := (ItemsFrame(Items(a.files)), ItemsFrame(Items(b.files)));
    KindsApart(SourceKind, SourceBody(a), SourceKind, SourceBody(b));
    TagSplits(LayoutByte(a.layout), Record(a.documentName) + x, LayoutByte(b.layout), Record(b.documentName) + y);
    RecordSplits(a.documentName, x, b.documentName, y);
    FilesInjectiveFrame(a.files, b.files);
  }

  // ----- Native objects

  datatype NativeObject = NativeObject(layout: Layout, documentName: seq<byte>,
                                       nativeId: seq<byte>, treeHash: seq<byte>)

  function ObjectBody(o: NativeObject): seq<byte> {
    [LayoutByte(o.layout)] + (Record(o.documentName) + (Record(o.nativeId) + (Record(o.treeHash) + [])))
  }

  function ObjectFrame(o: NativeObject): seq<byte> {
    Tagged(ObjectKind, ObjectBody(o))
  }

  predicate ObjectFramable(o: NativeObject) {
    Framable(o.documentName) && Framable(o.nativeId) && Framable(o.treeHash)
  }

  lemma ObjectFrameInjective(a: NativeObject, b: NativeObject)
    requires ObjectFramable(a) && ObjectFramable(b) && ObjectFrame(a) == ObjectFrame(b)
    ensures a == b
  {
    KindsApart(ObjectKind, ObjectBody(a), ObjectKind, ObjectBody(b));
    var (h, k) := (Record(a.treeHash) + [], Record(b.treeHash) + []);
    var (i, j) := (Record(a.nativeId) + h, Record(b.nativeId) + k);
    TagSplits(LayoutByte(a.layout), Record(a.documentName) + i, LayoutByte(b.layout), Record(b.documentName) + j);
    RecordSplits(a.documentName, i, b.documentName, j);
    RecordSplits(a.nativeId, h, b.nativeId, k);
    RecordSplits(a.treeHash, [], b.treeHash, []);
  }

  // ----- Observation identities

  datatype Scope = UserScope | ProjectScope

  datatype Tier = UserTier | ProjectTier | AdminTier | SystemTier | CompatibilityTier | ExplicitTier

  function ScopeByte(s: Scope): byte {
    match s
    case UserScope => 0
    case ProjectScope => 1
  }

  function TierByte(t: Tier): byte {
    match t
    case UserTier => 0
    case ProjectTier => 1
    case AdminTier => 2
    case SystemTier => 3
    case CompatibilityTier => 4
    case ExplicitTier => 5
  }

  datatype Observation = Observation(
    harness: seq<byte>, scope: Scope, tier: Tier, policyRank: nat, logicalRoot: seq<byte>,
    relativePath: seq<byte>, layout: Layout, documentName: seq<byte>,
    nativeId: Option<seq<byte>>, sourceHash: Option<seq<byte>>)

  predicate ObservationFramable(o: Observation) {
    && Framable(o.harness) && o.policyRank < Power256(4) && Framable(o.logicalRoot) && Framable(o.relativePath)
    && Framable(o.documentName) && OptionFramable(o.nativeId) && OptionFramable(o.sourceHash)
  }

  function ObservationTail(o: Observation): seq<byte> {
    Record(o.logicalRoot) + (Record(o.relativePath) + ([LayoutByte(o.layout)] + (Record(o.documentName)
      + (OptionalRecord(o.nativeId) + (OptionalRecord(o.sourceHash) + [])))))
  }

  function ObservationBody(o: Observation): seq<byte> {
    Record(o.harness) + ([ScopeByte(o.scope)]
      + ([TierByte(o.tier)] + (BigEndian(o.policyRank, 4) + ObservationTail(o))))
  }

  function ObservationFrame(o: Observation): seq<byte> {
    Tagged(ObservationKind, ObservationBody(o))
  }

  lemma ObservationTailInjective(a: Observation, b: Observation)
    requires ObservationFramable(a) && ObservationFramable(b) && ObservationTail(a) == ObservationTail(b)
    ensures a.logicalRoot == b.logicalRoot && a.relativePath == b.relativePath && a.layout == b.layout
    ensures a.documentName == b.documentName && a.nativeId == b.nativeId && a.sourceHash == b.sourceHash
  {
    hide Record, OptionalRecord;
    var (f, f') := (OptionalRecord(a.sourceHash) + [], OptionalRecord(b.sourceHash) + []);
    var (e, e') := (OptionalRecord(a.nativeId) + f, OptionalRecord(b.nativeId) + f');
    var (d, d') := (Record(a.documentName) + e, Record(b.documentName) + e');
    var (c, c') := ([LayoutByte(a.layout)] + d, [LayoutByte(b.layout)] + d');
    RecordSplits(a.logicalRoot, Record(a.relativePath) + c, b.logicalRoot, Record(b.relativePath) + c');
    RecordSplits(a.relativePath, c, b.relativePath, c');
    TagSplits(LayoutByte(a.layout), d, LayoutByte(b.layout), d');
    RecordSplits(a.documentName, e, b.documentName, e');
    OptionalSplits(a.nativeId, f, b.nativeId, f');
    OptionalSplits(a.sourceHash, [], b.sourceHash, []);
  }

  lemma ObservationFrameInjective(a: Observation, b: Observation)
    requires ObservationFramable(a) && ObservationFramable(b) && ObservationFrame(a) == ObservationFrame(b)
    ensures a == b
  {
    hide Record, ObservationTail;
    KindsApart(ObservationKind, ObservationBody(a), ObservationKind, ObservationBody(b));
    var (rank, rank') := (BigEndian(a.policyRank, 4), BigEndian(b.policyRank, 4));
    var (d, d') := (rank + ObservationTail(a), rank' + ObservationTail(b));
    var (c, c') := ([TierByte(a.tier)] + d, [TierByte(b.tier)] + d');
    RecordSplits(a.harness, [ScopeByte(a.scope)] + c, b.harness, [ScopeByte(b.scope)] + c');
    TagSplits(ScopeByte(a.scope), c, ScopeByte(b.scope), c');
    TagSplits(TierByte(a.tier), d, TierByte(b.tier), d');
    assert rank == d[..4] == d'[..4] == rank';
    BigEndianInjective(a.policyRank, b.policyRank, 4);
    assert ObservationTail(a) == d[4..] == d'[4..] == ObservationTail(b);
    ObservationTailInjective(a, b);
  }

  // ----- Agents

  datatype AgentText = AgentText(name: seq<byte>, description: seq<byte>, instructions: seq<byte>)

  predicate AgentFramable(a: AgentText) {
    Framable(a.name) && Framable(a.description) && Framable(a.instructions)
  }

  function AgentBody(a: AgentText): seq<byte> {
    Record(a.name) + (Record(a.description) + (Record(a.instructions) + []))
  }

  function AgentFrame(a: AgentText): seq<byte> {
    Tagged(AgentKind, AgentBody(a))
  }

  lemma AgentFrameInjective(a: AgentText, b: AgentText)
    requires AgentFramable(a) && AgentFramable(b) && AgentFrame(a) == AgentFrame(b)
    ensures a == b
  {
    KindsApart(AgentKind, AgentBody(a), AgentKind, AgentBody(b));
    var (d, d') := (Record(a.instructions) + [], Record(b.instructions) + []);
    RecordSplits(a.name, Record(a.description) + d, b.name, Record(b.description) + d');
    RecordSplits(a.description, d, b.description, d');
    RecordSplits(a.instructions, [], b.instructions, []);
  }

  // ----- The hashing loops

  class Hasher {
    var absorbed: seq<byte>

    constructor ()
      ensures absorbed == []
    {
      absorbed := [];
    }

    method Update(s: seq<byte>)
      modifies this
      ensures absorbed == old(absorbed) + s
    {
      absorbed := absorbed + s;
    }

    /** A separator: its name, then a NUL. */
    method WriteDomain(name: string)
      requires IsTag(name)
      modifies this
      ensures absorbed == old(absorbed) + Domain(name)
    {
      Update(Ascii(name));
      Update([0]);
      assert absorbed == old(absorbed) + (Ascii(name) + [0]);
    }

    method WriteRecord(s: seq<byte>)
      modifies this
      ensures absorbed == old(absorbed) + Record(s)
    {
      Update(BigEndian(|s|, 8));
      Update(s);
      assert absorbed == old(absorbed) + (BigEndian(|s|, 8) + s);
    }

    method WriteFiles(files: Files)
      modifies this
      ensures absorbed == old(absorbed) + ItemsFrame(Items(files))
    {
      hide Record, Items;
      var items := Items(files);
      for i := 0 to |items|
        invariant absorbed + ItemsFrame(items[i..]) == old(absorbed) + ItemsFrame(items)
      {
        ghost var before := absorbed;
        assert items[i..][1..] == items[i + 1..];
        WriteRecord(items[i].key);
        Update([match items[i].value.mode case Regular => 0 case Executable => 1]);
        WriteRecord(items[i].value.bytes);
        assert absorbed == before + ItemFrame(items[i]);
      }
    }
  }

  method HashTree(files: Files) returns (hasher: Hasher)
    ensures fresh(hasher) && hasher.absorbed == TreeFrame(files)
  {
    hide Domain, Record, ItemsFrame, Items;
    hasher := new Hasher();
    assert Separator(TreeKind) == "kitrove-skill-tree-v1";
    hasher.WriteDomain("kitrove-skill-tree-v1");
    hasher.WriteFiles(files);
  }

  method HashSkillSource(s: Source) returns (hasher: Hasher)
    ensures fresh(hasher) && hasher.absorbed == SourceFrame(s)
  {
    hide Domain, Record, ItemsFrame, Items;
    hasher := new Hasher();
    assert Separator(SourceKind) == "kitrove-skill-source-v1";
    hasher.WriteDomain("kitrove-skill-source-v1");
    hasher.Update([match s.layout case Directory => 0 case Standalone => 1]);
    hasher.WriteRecord(s.documentName);
    hasher.WriteFiles(s.files);
    assert hasher.absorbed == Tagged(SourceKind, SourceBody(s));
  }

  method HashNativeObject(o: NativeObject) returns (hasher: Hasher)
    ensures fresh(hasher) && hasher.absorbed == ObjectFrame(o)
  {
    hide Domain, Record;
    hasher := new Hasher();
    assert Separator(ObjectKind) == "kitrove-native-skill-object-v1";
    hasher.WriteDomain("kitrove-native-skill-object-v1");
    hasher.Update([match o.layout case Directory => 0 case Standalone => 1]);
    hasher.WriteRecord(o.documentName);
    hasher.WriteRecord(o.nativeId);
    hasher.WriteRecord(o.treeHash);
    assert hasher.absorbed == Tagged(ObjectKind, ObjectBody(o));
  }

  method AppendOptional(hasher: Hasher, o: Option<seq<byte>>)
    modifies hasher
    ensures hasher.absorbed == old(hasher.absorbed) + OptionalRecord(o)
  {
    match o
    case Some(value) =>
      hasher.Update([1]);
      hasher.WriteRecord(value);
      assert hasher.absorbed == old(hasher.absorbed) + ([1] + Record(value));
    case None =>
      hasher.Update([0]);
  }

  method AppendTail(frame: Hasher, o: Observation)
    modifies frame
    ensures frame.absorbed == old(frame.absorbed) + ObservationTail(o)
  {
    hide Record, OptionalRecord;
    frame.WriteRecord(o.logicalRoot);
    frame.WriteRecord(o.relativePath);
    frame.Update([match o.layout case Directory => 0 case Standalone => 1]);
    frame.WriteRecord(o.documentName);
    AppendOptional(frame, o.nativeId);
    AppendOptional(frame, o.sourceHash);
    assert frame.absorbed == old(frame.absorbed) + ObservationTail(o);
  }

  method FrameObservation(o: Observation) returns (frame: Hasher)
    requires o.policyRank < Power256(4)
    ensures fresh(frame) && frame.absorbed == ObservationFrame(o)
  {
    hide Record, Domain, ObservationTail;
    frame := new Hasher();
    assert Separator(ObservationKind) == "kitrove-observation-id-v1";
    frame.WriteDomain("kitrove-observation-id-v1");
    frame.WriteRecord(o.harness);
    frame.Update([match o.scope case UserScope => 0 case ProjectScope => 1]);
    frame.Update([
        match o.tier
        case UserTier => 0
        case ProjectTier => 1
        case AdminTier => 2
        case SystemTier => 3
        case CompatibilityTier => 4
        case ExplicitTier => 5
      ]);
    frame.Update(BigEndian(o.policyRank, 4));
    AppendTail(frame, o);
    assert frame.absorbed == Tagged(ObservationKind, ObservationBody(o));
  }

  method HashAgent(a: AgentText) returns (hasher: Hasher)
    ensures fresh(hasher) && hasher.absorbed == AgentFrame(a)
  {
    hide Domain, Record;
    hasher := new Hasher();
    assert Separator(AgentKind) == "kitrove-agent-v1";
    hasher.WriteDomain("kitrove-agent-v1");
    hasher.WriteRecord(a.name);
    hasher.WriteRecord(a.description);
    hasher.WriteRecord(a.instructions);
    assert hasher.absorbed == Tagged(AgentKind, AgentBody(a));
  }
}
