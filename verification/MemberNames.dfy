/** The names of a release archive's members (scripts/verify_release_archives.py:257-320).
    They are sequences of Unicode scalar values, as Python decodes them. */
module MemberNames {
  import opened Outcome
  import opened Bytes
  import opened Paths

  const MAX_PATH_BYTES: nat := 4096
  const MAX_COMPONENT_BYTES: nat := 255

  datatype MemberError =
    | PathLength
    | UnsafePath
    | ControlCharacter
    | ComponentTooLong
    | Ambiguous
    | TooManyEntries
    | UnsupportedKind
    | Encrypted
    | EntrySize
    | DirectoryPayload
    | DuplicateDestination
    | ExpandedSize
    | NoFiles
    | ChildOfFile

  function Utf8Width(c: char): nat {
    var v := c as int;
    if v < 0x80 then 1 else if v < 0x800 then 2 else if v < 0x1_0000 then 3 else 4
  }

  function Utf8Length(s: string): nat {
    if s == [] then 0 else Utf8Width(s[0]) + Utf8Length(s[1..])
  }

  predicate IsControl(c: char) {
    var v := c as int;
    v < 0x20 || 0x7f <= v < 0xa0
  }

  predicate IsAscii(s: string) {
    forall c <- s :: c as int < 0x80
  }

  predicate IsLetter(c: char) {
    'a' <= c <= 'z' || 'A' <= c <= 'Z'
  }

  function Upper(s: string): (u: string)
    ensures |u| == |s|
  {
    seq(|s|, i requires 0 <= i < |s| => if 'a' <= s[i] <= 'z' then s[i] - ' ' else s[i])
  }

  function Before(s: string, stop: char): string {
    if s == [] || s[0] == stop then [] else [s[0]] + Before(s[1..], stop)
  }

  function StripTail(s: string): string {
    if s != [] && s[|s| - 1] in {' ', '.'} then StripTail(s[..|s| - 1]) else s
  }

  const RESERVED: set<string> :=
    {"CON", "PRN", "AUX", "NUL", "CLOCK$", "CONIN$", "CONOUT$",
     "COM1", "COM2", "COM3", "COM4", "COM5", "COM6", "COM7", "COM8", "COM9",
     "LPT1", "LPT2", "LPT3", "LPT4", "LPT5", "LPT6", "LPT7", "LPT8", "LPT9"}

  const FORBIDDEN: set<char> := {'<', '>', ':', '\"', '|', '?', '*'}

  predicate IsLossless(component: string) {
    && component != []
    && component[|component| - 1] !in {' ', '.'}
    && (forall c <- component :: c !in FORBIDDEN)
    && Upper(StripTail(Before(component, '.'))) !in RESERVED
  }

  function Split(s: string): (parts: seq<string>)
    ensures parts != []
  {
    if s == [] then [[]]
    else
      var rest := Split(s[1..]);
      if s[0] == '/' then [[]] + rest else [[s[0]] + rest[0]] + rest[1..]
  }

  function PartFault(part: string): Option<MemberError> {
    if |part| > MAX_COMPONENT_BYTES then Some(ComponentTooLong)
    else if !IsAscii(part) || !IsLossless(part) then Some(Ambiguous)
    else None
  }

  function FirstFault(parts: seq<string>): Option<MemberError> {
    if parts == [] then None
    else if PartFault(parts[0]).Some? then PartFault(parts[0])
    else FirstFault(parts[1..])
  }

  function SafeMemberParts(name: string, isDirectory: bool): Result<seq<string>, MemberError> {
    if name == [] || Utf8Length(name) > MAX_PATH_BYTES then Err(PathLength)
    else if '\\' in name || name[0] == '/' || (|name| > 1 && IsLetter(name[0]) && name[1] == ':') then Err(UnsafePath)
    else if exists c <- name :: IsControl(c) then Err(ControlCharacter)
    else
      var path := if isDirectory && name[|name| - 1] == '/' then name[..|name| - 1] else name;
      var parts := Split(path);
      if path == [] || (exists part <- parts :: part in {"", ".", ".."}) then Err(UnsafePath)
      else
        var fault := FirstFault(parts);
        if fault.Some? then Err(fault.value) else Ok(parts)
  }

  function FoldedByte(c: char): byte
    requires c as int < 0x80
  {
    if 'A' <= c <= 'Z' then c as int + 0x20 else c as int
  }

  /** `str.lower` on an ASCII component, as bytes. */
  function Folded(part: string): (n: Name)
    requires IsAscii(part)
    ensures |n| == |part|
  {
    seq(|part|, i requires 0 <= i < |part| => assert part[i] in part; FoldedByte(part[i]))
  }

  function FoldedPath(parts: seq<string>): (p: Path)
    requires forall part <- parts :: IsAscii(part)
    ensures |p| == |parts|
  {
    seq(|parts|, i requires 0 <= i < |parts| => Folded(parts[i]))
  }

  lemma {:induction false} SplitHasNoSlash(s: string)
    ensures forall i | 0 <= i < |Split(s)| :: '/' !in Split(s)[i]
  {
    if s != [] {
      var rest := Split(s[1..]);
      SplitHasNoSlash(s[1..]);
      var parts := Split(s);
      if s[0] == '/' {
        assert forall i | 0 < i < |parts| :: parts[i] == rest[i - 1];
      } else {
        assert parts[0] == [s[0]] + rest[0];
        assert forall i | 0 < i < |parts| :: parts[i] == rest[1..][i - 1] == rest[i];
      }
    }
  }

  lemma {:induction false} NoFault(parts: seq<string>)
    ensures FirstFault(parts).None? <==> forall i | 0 <= i < |parts| :: PartFault(parts[i]).None?
  {
    hide PartFault;
    if parts != [] {
      NoFault(parts[1..]);
    }
  }

  /** Accepted parts are ASCII components without a slash, so their folded path has a key of its own. */
  lemma SafePartsArePath(name: string, isDirectory: bool)
    requires SafeMemberParts(name, isDirectory).Ok?
    ensures var parts := SafeMemberParts(name, isDirectory).value;
      && parts != [] && (forall part <- parts :: IsAscii(part)) && PathOk(FoldedPath(parts))
  {
    hide Utf8Length, IsControl, Upper, StripTail, Before;
    var parts := SafeMemberParts(name, isDirectory).value;
    var path := if isDirectory && name[|name| - 1] == '/' then name[..|name| - 1] else name;
    assert parts == Split(path);
    SplitHasNoSlash(path);
    NoFault(parts);
    forall i | 0 <= i < |parts|
      ensures IsAscii(parts[i]) && NameOk(Folded(parts[i]))
    {
      assert PartFault(parts[i]).None?;
      assert parts[i] in parts;
      var part, folded := parts[i], Folded(parts[i]);
      forall k | 0 <= k < |part|
        ensures folded[k] != SLASH
      {
        assert part[k] in part;
      }
    }
  }
}
