/** Which names are portable, said without the steps of the check
    (crates/kitrove-agent-skills/src/tree.rs:1258-1290; crates/kitrove-model/src/content.rs:15-31). */
module PortableNames {
  import opened Paths
  import opened Portable

  /** The same byte, or the two cases of an ASCII letter. */
  predicate SameLetter(a: int, b: int) {
    || a == b
    || ('A' as int <= a <= 'Z' as int && b - a == 'a' as int - 'A' as int)
    || ('a' as int <= a <= 'z' as int && a - b == 'a' as int - 'A' as int)
  }

  predicate SameButCase(s: seq<int>, t: seq<int>) {
    |s| == |t| && forall i | 0 <= i < |s| :: SameLetter(s[i], t[i])
  }

  /** These bytes are that text, whatever the case. */
  predicate Spells(s: seq<int>, text: string) {
    |s| == |text| && forall i | 0 <= i < |s| :: SameLetter(s[i], text[i] as int)
  }

  /** A port's number: a digit 1 to 9, or a superscript one, two or three in UTF-8. */
  predicate Numbers(s: seq<int>) {
    || (|s| == 1 && '1' as int <= s[0] <= '9' as int)
    || (|s| == 2 && s[0] == 194 && s[1] in {185, 178, 179})
  }

  /** The name of a device. */
  predicate NamesDevice(s: seq<int>) {
    || (exists device <- {"con", "prn", "aux", "nul"} :: Spells(s, device))
    || (|s| > 3 && (Spells(s[..3], "com") || Spells(s[..3], "lpt")) && Numbers(s[3..]))
  }

  /** Up to a dot, or whole, the name is a device's. */
  predicate IsDevice(s: seq<int>) {
    exists n | 0 <= n <= |s| :: (n == |s| || s[n] == '.' as int) && NamesDevice(s[..n])
  }

  /** A control character, as UTF-8 has it. */
  predicate IsControlAt(s: seq<int>, i: nat)
    requires i < |s|
  {
    s[i] < ' ' as int || s[i] == 127 || (s[i] == 194 && i + 1 < |s| && 128 <= s[i + 1] < 160)
  }

  const NOT_IN_NAMES: set<int> :=
    {'/' as int, '\\' as int, '<' as int, '>' as int, ':' as int, '\"' as int, '|' as int, '?' as int, '*' as int}

  /** What every supported platform takes for a file name. */
  predicate Acceptable(s: seq<int>) {
    && s != [] && s[|s| - 1] !in {'.' as int, ' ' as int} && !IsDevice(s)
    && forall i | 0 <= i < |s| :: s[i] !in NOT_IN_NAMES && !IsControlAt(s, i)
  }

  lemma UpperSpells(s: Name, text: string, device: Name)
    requires |device| == |text|
    requires forall i | 0 <= i < |text| :: 'a' <= text[i] <= 'z' && device[i] as int == text[i] as int - 0x20
    ensures UpperAll(s) == device <==> Spells(s, text)
  {
    if Spells(s, text) {
      assert forall i | 0 <= i < |s| :: UpperAll(s)[i] == device[i];
    }
    if UpperAll(s) == device {
      assert forall i | 0 <= i < |s| :: Upper(s[i]) == UpperAll(s)[i] == device[i];
    }
  }

  lemma DeviceBaseNames(s: Name)
    ensures DeviceBase(UpperAll(s)) <==> NamesDevice(s)
  {
    UpperSpells(s, "con", CON);
    UpperSpells(s, "prn", PRN);
    UpperSpells(s, "aux", AUX);
    UpperSpells(s, "nul", NUL);
    if |s| > 3 {
      UpperSpells(s[..3], "com", COM);
      UpperSpells(s[..3], "lpt", LPT);
      assert UpperAll(s)[..3] == UpperAll(s[..3]) && UpperAll(s)[3..] == UpperAll(s[3..]);
      NumbersPort(s[3..]);
    }
  }

  lemma NumbersPort(s: Name)
    ensures PortNumber(UpperAll(s)) <==> Numbers(s)
  {
    if |s| == 2 {
      assert UpperAll(s) == [Upper(s[0]), Upper(s[1])];
    }
  }

  lemma {:induction false} BeforeDotIs(s: seq<int>, u: Name, n: nat)
    requires |u| == |s| && n <= |s| && (n < |s| ==> u[n] == DOT) && forall i | 0 <= i < n :: u[i] != DOT
    ensures BeforeDot(u) == u[..n]
    decreases n
  {
    if n > 0 {
      BeforeDotIs(s[1..], u[1..], n - 1);
      assert u[..n] == [u[0]] + u[1..][..n - 1];
    }
  }

  lemma NoDotInDevice(s: seq<int>, i: nat)
    requires NamesDevice(s) && i < |s|
    ensures s[i] != '.' as int
  {
    if |s| > 3 {
      assert i < 3 ==> s[..3][i] == s[i];
      assert i >= 3 ==> s[3..][i - 3] == s[i];
    }
  }

  function FirstDot(s: Name): (n: nat)
    ensures n <= |s| && (n < |s| ==> s[n] == DOT) && forall i | 0 <= i < n :: s[i] != DOT
  {
    if s == [] || s[0] == DOT then 0 else 1 + FirstDot(s[1..])
  }

  lemma DeviceExactly(s: Name)
    ensures DeviceBase(BeforeDot(UpperAll(s))) <==> IsDevice(s)
  {
    hide DeviceBase, NamesDevice, BeforeDot;
    var n := FirstDot(s);
    assert forall i | 0 <= i < |s| :: Upper(s[i]) == DOT <==> s[i] == DOT;
    BeforeDotIs(s, UpperAll(s), n);
    assert UpperAll(s)[..n] == UpperAll(s[..n]);
    DeviceBaseNames(s[..n]);
    forall m | 0 <= m <= |s| && (m == |s| || s[m] == '.' as int) && NamesDevice(s[..m])
      ensures m == n
    {
      if n < m {
        NoDotInDevice(s[..m], n);
      }
    }
  }

  /** A name is portable exactly when it is acceptable. */
  lemma PortableExactly(s: Name)
    ensures PortableName(s) <==> Acceptable(s)
  {
    hide DeviceBase, IsDevice, BeforeDot;
    DeviceExactly(s);
    assert forall i | 0 <= i < |s| :: ControlAt(s, i) == IsControlAt(s, i);
    assert SLASH == '/' as int && DOT == '.' as int;
    if Acceptable(s) {
      assert forall b <- s :: b !in NOT_IN_NAMES;
    }
    if PortableName(s) {
      assert forall i | 0 <= i < |s| :: s[i] in s;
    }
  }

  /** Whether a name is portable does not depend on the case of its letters. */
  lemma CaseBlind(s: Name, t: Name)
    requires SameButCase(s, t)
    ensures PortableName(s) <==> PortableName(t)
  {
    assert UpperAll(s) == UpperAll(t);
    hide DeviceBase, BeforeDot, UpperAll;
    assert forall i | 0 <= i < |s| :: ControlAt(s, i) == ControlAt(t, i);
    assert forall i | 0 <= i < |s| :: s[i] in FORBIDDEN + {SLASH, 0x5c, 0x3a, DOT, 0x20} ==> s[i] == t[i];
    assert forall i | 0 <= i < |s| :: t[i] in FORBIDDEN + {SLASH, 0x5c, 0x3a, DOT, 0x20} ==> s[i] == t[i];
  }
}
