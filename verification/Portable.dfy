/** Portable names (crates/kitrove-agent-skills/src/tree.rs:1258-1290; crates/kitrove-model/src/content.rs:15-31).
    Names are their UTF-8 bytes. */
module Portable {
  import opened Bytes
  import opened Paths

  function Upper(b: byte): byte {
    if 0x61 <= b <= 0x7a then b - 0x20 else b
  }

  function UpperAll(s: seq<byte>): (u: seq<byte>)
    ensures |u| == |s|
  {
    seq(|s|, i requires 0 <= i < |s| => Upper(s[i]))
  }

  const DOT: byte := 0x2e

  function BeforeDot(s: seq<byte>): seq<byte> {
    if s == [] || s[0] == DOT then [] else [s[0]] + BeforeDot(s[1..])
  }

  const CON: seq<byte> := [0x43, 0x4f, 0x4e]
  const PRN: seq<byte> := [0x50, 0x52, 0x4e]
  const AUX: seq<byte> := [0x41, 0x55, 0x58]
  const NUL: seq<byte> := [0x4e, 0x55, 0x4c]
  const COM: seq<byte> := [0x43, 0x4f, 0x4d]
  const LPT: seq<byte> := [0x4c, 0x50, 0x54]

  /** A digit 1 to 9, or a superscript one, two or three. */
  predicate PortNumber(s: seq<byte>) {
    (|s| == 1 && 0x31 <= s[0] <= 0x39) || s in {[0xc2, 0xb9], [0xc2, 0xb2], [0xc2, 0xb3]}
  }

  predicate DeviceBase(s: seq<byte>) {
    s in {CON, PRN, AUX, NUL} || (|s| > 3 && s[..3] in {COM, LPT} && PortNumber(s[3..]))
  }

  /** A control character of valid UTF-8 starts at `i`: C0, DEL, or U+0080 to U+009F. */
  predicate ControlAt(s: seq<byte>, i: nat)
    requires i < |s|
  {
    s[i] < 0x20 || s[i] == 0x7f || (s[i] == 0xc2 && i + 1 < |s| && 0x80 <= s[i + 1] <= 0x9f)
  }

  predicate HasControl(s: seq<byte>) {
    exists i | 0 <= i < |s| :: ControlAt(s, i)
  }

  const FORBIDDEN: set<byte> := {0x3c, 0x3e, 0x3a, 0x22, 0x7c, 0x3f, 0x2a}

  predicate ValidSegment(s: seq<byte>) {
    && !DeviceBase(BeforeDot(UpperAll(s)))
    && !(s != [] && s[|s| - 1] in {DOT, 0x20})
    && !HasControl(s)
    && forall b <- s :: b !in FORBIDDEN
  }

  /** `PortablePath::parse` on one component of a joined path. */
  predicate ParsesAsComponent(s: seq<byte>) {
    NameOk(s) && 0x5c !in s && 0x3a !in s && s != [DOT] && s != [DOT, DOT]
  }

  predicate PortableName(s: seq<byte>) {
    ValidSegment(s) && ParsesAsComponent(s)
  }
}
