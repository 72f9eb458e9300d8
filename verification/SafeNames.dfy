/** Which archive member names are safe, and which two name one destination, said without the steps of the check
    (scripts/verify_release_archives.py:270-320). */
module SafeNames {
  import opened Bytes
  import opened Outcome
  import opened Paths
  import opened MemberNames

  function JoinText(parts: seq<string>): string {
    if parts == [] then [] else if |parts| == 1 then parts[0] else parts[0] + "/" + JoinText(parts[1..])
  }

  /** The same character, or the two cases of an ASCII letter. */
  predicate SameLetter(a: char, b: char) {
    || a == b
    || ('A' <= a <= 'Z' && b as int - a as int == 'a' as int - 'A' as int)
    || ('a' <= a <= 'z' && a as int - b as int == 'a' as int - 'A' as int)
  }

  predicate SameButCase(s: string, t: string) {
    |s| == |t| && forall i | 0 <= i < |s| :: SameLetter(s[i], t[i])
  }

  const DEVICES: set<string> :=
    {"con", "prn", "aux", "nul", "clock$", "conin$", "conout$",
     "com1", "com2", "com3", "com4", "com5", "com6", "com7", "com8", "com9",
     "lpt1", "lpt2", "lpt3", "lpt4", "lpt5", "lpt6", "lpt7", "lpt8", "lpt9"}

  /** Up to a dot, or whole, and but for spaces before that, the component is a device's name. */
  predicate StemIs(part: string, m: nat, n: nat, device: string) {
    && m <= n <= |part| && (n == |part| || part[n] == '.') && (forall i | m <= i < n :: part[i] == ' ')
    && SameButCase(part[..m], device)
  }

  predicate NamesDevice(part: string) {
    exists device <- DEVICES, m: nat, n: nat | m <= n <= |part| :: StemIs(part, m, n, device)
  }

  /** A component every supported platform takes as it is: printable ASCII but for the forbidden characters, neither
      a space nor a dot at the end, and no device's name. */
  predicate SafePart(part: string) {
    && part != [] && |part| <= MAX_COMPONENT_BYTES && part[|part| - 1] !in {' ', '.'}
    && (forall c <- part :: ' ' <= c <= '~' && c !in {'/', '\\', '<', '>', ':', '\"', '|', '?', '*'})
    && !NamesDevice(part)
  }

  function Trimmed(name: string, isDirectory: bool): string {
    if isDirectory && name != [] && name[|name| - 1] == '/' then name[..|name| - 1] else name
  }

  /** The name is these components between slashes, with one more slash at the end if it is a directory's. */
  predicate IsSafe(name: string, isDirectory: bool, parts: seq<string>) {
    && |name| <= MAX_PATH_BYTES && parts != [] && JoinText(parts) == Trimmed(name, isDirectory)
    && forall part <- parts :: SafePart(part)
  }

  // ----- Splitting undoes joining

  lemma {:induction false} SplitPart(a: string, s: string)
    requires '/' !in a
    ensures Split(a + "/" + s) == [a] + Split(s) && Split(a) == [a]
    decreases |a|
  {
    if a == [] {
      assert ("" + "/" + s)[1..] == s;
    } else {
      assert (a + "/" + s)[1..] == a[1..] + "/" + s;
      SplitPart(a[1..], s);
      assert [a[0]] + a[1..] == a;
    }
  }

  lemma {:induction false} SplitOfJoin(parts: seq<string>)
    requires parts != [] && forall part <- parts :: '/' !in part
    ensures Split(JoinText(parts)) == parts
    decreases |parts|
  {
    if |parts| == 1 {
      SplitPart(parts[0], []);
    } else {
      assert parts == [parts[0]] + parts[1..];
      SplitOfJoin(parts[1..]);
      SplitPart(parts[0], JoinText(parts[1..]));
    }
  }

  lemma {:induction false} JoinOfSplit(s: string)
    ensures JoinText(Split(s)) == s
    decreases |s|
  {
    if s != [] {
      JoinOfSplit(s[1..]);
      var rest, parts := Split(s[1..]), Split(s);
      assert s == [s[0]] + s[1..];
      if s[0] == '/' {
        assert parts[1..] == rest && JoinText(parts) == "" + "/" + JoinText(rest);
      } else if |rest| == 1 {
        assert parts == [[s[0]] + rest[0]];
      } else {
        assert parts[1..] == rest[1..];
        assert [s[0]] + rest[0] + "/" + JoinText(rest[1..]) == [s[0]] + (rest[0] + "/" + JoinText(rest[1..]));
      }
    }
  }

  lemma {:induction false} AllIn(parts: seq<string>)
    ensures forall c :: c in JoinText(parts) ==> c == '/' || exists part <- parts :: c in part
    ensures forall part <- parts :: forall c <- part :: c in JoinText(parts)
    ensures forall part <- parts :: |part| <= |JoinText(parts)|
    decreases |parts|
  {
    if |parts| > 1 {
      assert parts == [parts[0]] + parts[1..];
      AllIn(parts[1..]);
    } else if parts != [] {
      assert parts[0] in parts;
    }
  }

  // ----- Devices

  lemma SameUpper(s: string, t: string)
    ensures SameButCase(s, t) <==> Upper(s) == Upper(t)
  {
    forall i | 0 <= i < |s| && i < |t|
      ensures SameLetter(s[i], t[i]) <==> Upper(s)[i] == Upper(t)[i]
    {
      assert Upper(s)[i] as int == if 'a' <= s[i] <= 'z' then s[i] as int - 32 else s[i] as int;
      assert Upper(t)[i] as int == if 'a' <= t[i] <= 'z' then t[i] as int - 32 else t[i] as int;
    }
    if Upper(s) == Upper(t) {
      assert |s| == |Upper(s)| == |t|;
    }
  }

  lemma Capitals(low: string, capitals: string)
    requires |low| == |capitals|
    requires forall i | 0 <= i < |low| :: (if 'a' <= low[i] <= 'z' then low[i] - ' ' else low[i]) == capitals[i]
    ensures Upper(low) == capitals
  {
  }

  lemma Words()
    ensures Upper("con") == "CON" && Upper("prn") == "PRN" && Upper("aux") == "AUX"
    ensures Upper("nul") == "NUL" && Upper("clock$") == "CLOCK$" && Upper("conin$") == "CONIN$"
    ensures Upper("conout$") == "CONOUT$"
  {
    hide Upper;
    Capitals("con", "CON");
    Capitals("prn", "PRN");
    Capitals("aux", "AUX");
    Capitals("nul", "NUL");
    Capitals("clock$", "CLOCK$");
    Capitals("conin$", "CONIN$");
    Capitals("conout$", "CONOUT$");
  }

  lemma SerialPorts()
    ensures Upper("com1") == "COM1" && Upper("com2") == "COM2" && Upper("com3") == "COM3"
    ensures Upper("com4") == "COM4" && Upper("com5") == "COM5" && Upper("com6") == "COM6"
    ensures Upper("com7") == "COM7" && Upper("com8") == "COM8" && Upper("com9") == "COM9"
  {
    hide Upper;
    Capitals("com1", "COM1");
    Capitals("com2", "COM2");
    Capitals("com3", "COM3");
    Capitals("com4", "COM4");
    Capitals("com5", "COM5");
    Capitals("com6", "COM6");
    Capitals("com7", "COM7");
    Capitals("com8", "COM8");
    Capitals("com9", "COM9");
  }

  lemma PrinterPorts()
    ensures Upper("lpt1") == "LPT1" && Upper("lpt2") == "LPT2" && Upper("lpt3") == "LPT3"
    ensures Upper("lpt4") == "LPT4" && Upper("lpt5") == "LPT5" && Upper("lpt6") == "LPT6"
    ensures Upper("lpt7") == "LPT7" && Upper("lpt8") == "LPT8" && Upper("lpt9") == "LPT9"
  {
    hide Upper;
    Capitals("lpt1", "LPT1");
    Capitals("lpt2", "LPT2");
    Capitals("lpt3", "LPT3");
    Capitals("lpt4", "LPT4");
    Capitals("lpt5", "LPT5");
    Capitals("lpt6", "LPT6");
    Capitals("lpt7", "LPT7");
    Capitals("lpt8", "LPT8");
    Capitals("lpt9", "LPT9");
  }

  lemma DeviceCapitals()
    ensures forall device :: device in DEVICES ==> Upper(device) in RESERVED
    ensures forall name :: name in RESERVED ==> exists device <- DEVICES :: Upper(device) == name
  {
    hide Upper;
    Words();
    SerialPorts();
    PrinterPorts();
  }

  lemma DeviceStem(stem: string)
    ensures Upper(stem) in RESERVED <==> exists device <- DEVICES :: SameButCase(stem, device)
  {
    DeviceCapitals();
    forall device | device in DEVICES
      ensures SameButCase(stem, device) <==> Upper(stem) == Upper(device)
    {
      SameUpper(stem, device);
    }
    hide Upper, SameButCase;
    if Upper(stem) in RESERVED {
      var device :| device in DEVICES && Upper(device) == Upper(stem);
      assert SameButCase(stem, device);
    }
  }

  lemma {:induction false} BeforeIs(s: string, stop: char, n: nat)
    requires n <= |s| && (n == |s| || s[n] == stop) && stop !in s[..n]
    ensures Before(s, stop) == s[..n]
    decreases n
  {
    if n > 0 {
      assert s[0] == s[..n][0] && s[..n] == [s[0]] + s[1..][..n - 1];
      BeforeIs(s[1..], stop, n - 1);
    }
  }

  lemma {:induction false} StripTailIs(s: string, m: nat)
    requires m <= |s| && (forall i | m <= i < |s| :: s[i] in {' ', '.'}) && (m > 0 ==> s[m - 1] !in {' ', '.'})
    ensures StripTail(s) == s[..m]
    decreases |s|
  {
    if m < |s| {
      StripTailIs(s[..|s| - 1], m);
      assert s[..|s| - 1][..m] == s[..m];
    } else {
      assert s[..m] == s;
    }
  }

  function FirstDot(s: string): (n: nat)
    ensures n <= |s| && (n == |s| || s[n] == '.') && '.' !in s[..n]
  {
    if s == [] || s[0] == '.' then 0
    else
      var n := 1 + FirstDot(s[1..]);
      assert s[..n] == [s[0]] + s[1..][..n - 1];
      n
  }

  function LastSolid(s: string, n: nat): (m: nat)
    requires n <= |s|
    ensures m <= n && (forall i | m <= i < n :: s[i] == ' ') && (m > 0 ==> s[m - 1] != ' ')
  {
    if n == 0 || s[n - 1] != ' ' then n else LastSolid(s, n - 1)
  }

  lemma DeviceNames(device: string)
    requires device in DEVICES
    ensures device != [] && ' ' !in device && '.' !in device
  {
  }

  lemma DeviceExactly(part: string)
    ensures Upper(StripTail(Before(part, '.'))) in RESERVED <==> NamesDevice(part)
  {
    hide Upper, StripTail, Before, DEVICES, RESERVED;
    var n := FirstDot(part);
    var m := LastSolid(part, n);
    BeforeIs(part, '.', n);
    assert m > 0 ==> part[..n][m - 1] == part[m - 1];
    StripTailIs(part[..n], m);
    assert part[..n][..m] == part[..m];
    DeviceStem(part[..m]);
    if exists device <- DEVICES :: SameButCase(part[..m], device) {
      var device :| device in DEVICES && SameButCase(part[..m], device);
      assert StemIs(part, m, n, device);
    }
    if NamesDevice(part) {
      var device, k: nat, l: nat :| device in DEVICES && k <= l <= |part| && StemIs(part, k, l, device);
      DeviceNames(device);
      assert forall i | 0 <= i < n :: part[i] == part[..n][i];
      StemOnly(part, k, l, device, m, n);
    }
  }

  /** A device's name has neither dot nor space, so its end and the dot after it are where the check finds them. */
  lemma StemOnly(part: string, k: nat, l: nat, device: string, m: nat, n: nat)
    requires k <= l <= |part| && StemIs(part, k, l, device) && device != [] && ' ' !in device && '.' !in device
    requires m <= n <= |part| && (n == |part| || part[n] == '.') && forall i | 0 <= i < n :: part[i] != '.'
    requires (forall i | m <= i < n :: part[i] == ' ') && (m > 0 ==> part[m - 1] != ' ')
    ensures k == m
  {
    assert forall i | 0 <= i < k :: part[i] !in {' ', '.'} by {
      assert forall i | 0 <= i < k :: part[..k][i] == part[i] && SameLetter(part[i], device[i]);
    }
    assert n < |part| ==> part[n] == '.';
    assert l < |part| ==> part[l] == '.';
    assert n == l;
    assert m < n ==> part[m] == ' ';
    assert m > 0 ==> part[m - 1] != ' ';
  }

  // ----- The names accepted

  lemma PartExactly(part: string)
    ensures SafePart(part)
       <==> && PartFault(part).None? && part !in {"", ".", ".."}
            && forall c <- part :: !IsControl(c) && c !in {'/', '\\'}
  {
    hide Upper, StripTail, Before, DEVICES, RESERVED, NamesDevice;
    DeviceExactly(part);
    assert forall c: char :: ' ' <= c <= '~' <==> !IsControl(c) && c as int < 0x80;
  }

  lemma {:induction false} AsciiLength(s: string)
    requires IsAscii(s)
    ensures Utf8Length(s) == |s|
  {
    if s != [] {
      assert s[0] in s && forall c <- s[1..] :: c in s;
      AsciiLength(s[1..]);
    }
  }

  /** A name is accepted, and as these components, exactly when it is safe and these are its components. */
  lemma SafeExactly(name: string, isDirectory: bool, parts: seq<string>)
    ensures SafeMemberParts(name, isDirectory) == Ok(parts) <==> IsSafe(name, isDirectory, parts)
  {
    hide PartFault, SafePart, JoinText, Split, Utf8Length;
    if SafeMemberParts(name, isDirectory) == Ok(parts) {
      Accepted(name, isDirectory, parts);
    }
    if IsSafe(name, isDirectory, parts) {
      Safe(name, isDirectory, parts);
    }
  }

  /** What one safe component is made of. */
  lemma SafeText(part: string)
    requires SafePart(part)
    ensures part != [] && IsAscii(part) && PartFault(part).None? && part !in {"", ".", ".."}
    ensures forall c <- part :: !IsControl(c) && c !in {'/', '\\', ':'}
  {
    hide NamesDevice, IsLossless;
    PartExactly(part);
  }

  /** And a whole safe name. */
  lemma SafeWhole(name: string, isDirectory: bool, parts: seq<string>)
    requires parts != [] && JoinText(parts) == Trimmed(name, isDirectory) && forall part <- parts :: SafePart(part)
    ensures name != [] && name[0] != '/' && IsAscii(name)
    ensures forall c <- name :: !IsControl(c) && c !in {'\\', ':'}
    ensures forall part <- parts :: '/' !in part
  {
    hide SafePart;
    var path := JoinText(parts);
    AllIn(parts);
    forall part | part in parts
      ensures part != [] && '/' !in part && forall c <- part :: c as int < 0x80 && !IsControl(c) && c !in {'\\', ':'}
    {
      SafeText(part);
    }
    assert parts[0] in parts && parts[0] <= path;
    assert path[0] == parts[0][0];
    assert forall c <- name :: c in path || c == '/';
  }

  lemma Accepted(name: string, isDirectory: bool, parts: seq<string>)
    requires SafeMemberParts(name, isDirectory) == Ok(parts)
    ensures IsSafe(name, isDirectory, parts)
  {
    hide PartFault, SafePart, JoinText, Split, Utf8Length;
    var path := Trimmed(name, isDirectory);
    assert parts == Split(path) && (name == path || name == path + "/");
    JoinOfSplit(path);
    SplitHasNoSlash(path);
    NoFault(parts);
    AllIn(parts);
    forall part | part in parts
      ensures SafePart(part)
    {
      forall c | c in part
        ensures !IsControl(c) && c !in {'/', '\\'}
      {
        assert c in path && c in name;
      }
      PartExactly(part);
    }
    SafeWhole(name, isDirectory, parts);
    AsciiLength(name);
  }

  lemma Safe(name: string, isDirectory: bool, parts: seq<string>)
    requires IsSafe(name, isDirectory, parts)
    ensures SafeMemberParts(name, isDirectory) == Ok(parts)
  {
    hide PartFault, SafePart, JoinText, Split, Utf8Length;
    SafeWhole(name, isDirectory, parts);
    AsciiLength(name);
    SplitOfJoin(parts);
    forall part | part in parts
      ensures PartFault(part).None? && part !in {"", ".", ".."} && part != []
    {
      SafeText(part);
    }
    NoFault(parts);
    AllIn(parts);
    assert Trimmed(name, isDirectory) != [];
    assert |name| > 1 ==> name[1] in name;
    assert '\\' !in name;
    assert !exists c <- name :: IsControl(c);
    assert FirstFault(parts).None?;
    assert !exists part <- parts :: part in {"", ".", ".."};
  }

  // ----- One destination

  /** Two lists of components name one destination when they differ in the case of letters alone. */
  predicate SameDestination(a: seq<string>, b: seq<string>) {
    |a| == |b| && forall i | 0 <= i < |a| :: SameButCase(a[i], b[i])
  }

  lemma SameFolded(s: string, t: string)
    requires IsAscii(s) && IsAscii(t)
    ensures Folded(s) == Folded(t) <==> SameButCase(s, t)
  {
    forall i | 0 <= i < |s| && i < |t|
      ensures Folded(s)[i] == Folded(t)[i] <==> SameLetter(s[i], t[i])
    {
      assert s[i] in s && t[i] in t;
    }
    if Folded(s) == Folded(t) {
      assert |s| == |Folded(s)| == |t|;
    }
  }

  lemma OneDestination(a: seq<string>, b: seq<string>)
    requires (forall part <- a :: IsAscii(part)) && forall part <- b :: IsAscii(part)
    ensures FoldedPath(a) == FoldedPath(b) <==> SameDestination(a, b)
  {
    hide Folded, SameButCase;
    forall i | 0 <= i < |a| && i < |b|
      ensures FoldedPath(a)[i] == FoldedPath(b)[i] <==> SameButCase(a[i], b[i])
    {
      assert a[i] in a && b[i] in b;
      SameFolded(a[i], b[i]);
    }
    if FoldedPath(a) == FoldedPath(b) {
      assert |a| == |FoldedPath(a)| == |b|;
    }
  }
}
