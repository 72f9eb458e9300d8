/** The nested owner's accounting (scripts/hosted_apple_owner.py:4-53). The JSON decoder is a parameter; it
    gives nothing for text it rejects, duplicate keys included. */
module OwnerEvidence {
  import opened Outcome
  import opened Bytes
  import opened Frames

  datatype Json = JInt(i: int) | JBool(b: bool) | JString(s: string) | JDict(fields: map<string, Json>) | JOther

  type Decoder = seq<byte> -> Option<Json>

  const MARK: seq<byte> := Ascii("KITROVE_APPLE_OWNER")
  const PREFIX: seq<byte> := Ascii("KITROVE_APPLE_OWNER_V1 ")
  const MAX_BYTES: nat := 256 * 1024
  const MAX_LINE: nat := 8192

  /** Where the line that starts at `i` ends: before its first LF or CR. */
  function LineEnd(raw: seq<byte>, i: nat): (e: nat)
    requires i <= |raw|
    ensures i <= e <= |raw| && (e < |raw| ==> raw[e] in {10, 13}) && forall k | i <= k < e :: raw[k] !in {10, 13}
    decreases |raw| - i
  {
    if i == |raw| || raw[i] == 10 || raw[i] == 13 then i else LineEnd(raw, i + 1)
  }

  /** Lines ended by LF, CR or CR LF; the last may be unended. */
  function LinesFrom(raw: seq<byte>, i: nat): seq<seq<byte>>
    requires i <= |raw|
    decreases |raw| - i
  {
    if i == |raw| then []
    else
      var e := LineEnd(raw, i);
      if e == |raw| then [raw[i..]]
      else
        var next := if raw[e] == 13 && e + 1 < |raw| && raw[e + 1] == 10 then e + 2 else e + 1;
        [raw[i..e]] + LinesFrom(raw, next)
  }

  function Lines(raw: seq<byte>): seq<seq<byte>> {
    LinesFrom(raw, 0)
  }

  // ----- What the lines are

  const LF: byte := '\n' as int
  const CR: byte := '\r' as int

  datatype End = Lf | Cr | CrLf | Nothing {
    function Text(): seq<byte> {
      match this
      case Lf => [LF]
      case Cr => [CR]
      case CrLf => [CR, LF]
      case Nothing => []
    }
  }

  predicate NoBreak(line: seq<byte>) {
    forall i | 0 <= i < |line| :: line[i] != LF && line[i] != CR
  }

  predicate StartsWithLf(s: seq<byte>) {
    s != [] && s[0] == LF
  }

  function Together(lines: seq<seq<byte>>, ends: seq<End>): seq<byte> {
    if lines == [] || ends == [] then [] else lines[0] + ends[0].Text() + Together(lines[1..], ends[1..])
  }

  /** Lines and what ends each of them. Only a last line with something on it has no end, and a CR before an LF is no
      end of its own. */
  predicate Cut(lines: seq<seq<byte>>, ends: seq<End>) {
    if lines == [] then ends == []
    else
      && ends != [] && NoBreak(lines[0]) && Cut(lines[1..], ends[1..])
      && (ends[0] == Nothing ==> lines[0] != [] && |lines| == 1)
      && (ends[0] == Cr ==> !StartsWithLf(Together(lines[1..], ends[1..])))
  }

  /** A line without an end stands at `i`. */
  lemma LastLine(raw: seq<byte>, i: nat)
    requires i < |raw| && NoBreak(raw[i..])
    ensures LinesFrom(raw, i) == [raw[i..]] && LineEnd(raw, i) == |raw|
  {
    assert forall k | i <= k < |raw| :: raw[k] == raw[i..][k - i];
  }

  lemma LineEndIs(raw: seq<byte>, i: nat, e: nat)
    requires i <= e < |raw| && NoBreak(raw[i..e]) && (raw[e] == LF || raw[e] == CR)
    ensures LineEnd(raw, i) == e
  {
    assert forall k | i <= k < e :: raw[k] == raw[i..e][k - i];
  }

  /** Where the line after the one that ends at `e` starts. */
  function After(raw: seq<byte>, e: nat): (next: nat)
    requires e < |raw|
    ensures e < next <= |raw|
  {
    if raw[e] == 13 && e + 1 < |raw| && raw[e + 1] == 10 then e + 2 else e + 1
  }

  lemma LinesStep(raw: seq<byte>, i: nat)
    requires i <= |raw| && LineEnd(raw, i) < |raw|
    ensures var e := LineEnd(raw, i); LinesFrom(raw, i) == [raw[i..e]] + LinesFrom(raw, After(raw, e))
  {
  }

  /** The end that stands at `e`. */
  function EndAt(raw: seq<byte>, e: nat): End
    requires e < |raw|
  {
    if raw[e] == LF then Lf else if e + 1 < |raw| && raw[e + 1] == LF then CrLf else Cr
  }

  lemma EndAtIs(raw: seq<byte>, e: nat, end: End)
    requires e < |raw| && (raw[e] == LF || raw[e] == CR)
    ensures EndAt(raw, e) == end
       <==> && end != Nothing && e + |end.Text()| <= |raw| && raw[e..e + |end.Text()|] == end.Text()
            && (end == Cr ==> !StartsWithLf(raw[e + 1..]))
    ensures EndAt(raw, e) == end ==> After(raw, e) == e + |end.Text()|
  {
    assert e + 2 <= |raw| ==> raw[e..e + 2] == [raw[e], raw[e + 1]];
    assert raw[e..e + 1] == [raw[e]];
    assert e + 1 < |raw| ==> raw[e + 1..][0] == raw[e + 1];
  }

  lemma Parts(s: seq<byte>, a: seq<byte>, b: seq<byte>, c: seq<byte>)
    requires s == a + b + c
    ensures |s| == |a| + |b| + |c| && s[..|a|] == a && s[|a|..|a| + |b|] == b && s[|a| + |b|..] == c
  {
  }

  lemma PartsFrom(raw: seq<byte>, i: nat, a: seq<byte>, b: seq<byte>, c: seq<byte>)
    requires i <= |raw| && raw[i..] == a + b + c
    ensures var (e, n) := (i + |a|, i + |a| + |b|);
      n <= |raw| && raw[i..e] == a && raw[e..n] == b && raw[n..] == c
  {
    Parts(raw[i..], a, b, c);
  }

  /** The first of several lines, and where the next starts. */
  lemma OneMore(raw: seq<byte>, i: nat, line: seq<byte>, end: End, rest: seq<byte>)
    requires i <= |raw| && raw[i..] == line + end.Text() + rest && NoBreak(line) && end != Nothing
    requires end == Cr ==> !StartsWithLf(rest)
    ensures i + |line| + |end.Text()| <= |raw| && raw[i + |line| + |end.Text()|..] == rest
    ensures LinesFrom(raw, i) == [line] + LinesFrom(raw, i + |line| + |end.Text()|)
  {
    hide LinesFrom, LineEnd, NoBreak, StartsWithLf, EndAt, After, End.Text;
    var e := i + |line|;
    PartsFrom(raw, i, line, end.Text(), rest);
    EndStarts(raw, e, end, rest);
    LineEndIs(raw, i, e);
    LinesStep(raw, i);
  }

  lemma EndStarts(raw: seq<byte>, e: nat, end: End, rest: seq<byte>)
    requires end != Nothing && e + |end.Text()| <= |raw| && raw[e..e + |end.Text()|] == end.Text()
    requires rest == raw[e + |end.Text()|..] && (end == Cr ==> !StartsWithLf(rest))
    ensures e < |raw| && (raw[e] == LF || raw[e] == CR) && After(raw, e) == e + |end.Text()|
  {
    assert |end.Text()| > 0 && raw[e] == raw[e..e + |end.Text()|][0];
    hide After, StartsWithLf;
    EndAtIs(raw, e, end);
  }

  /** Text put together from cut lines is split into them. */
  lemma {:induction false} SplitsBack(raw: seq<byte>, i: nat, lines: seq<seq<byte>>, ends: seq<End>)
    requires i <= |raw| && Cut(lines, ends) && raw[i..] == Together(lines, ends)
    ensures LinesFrom(raw, i) == lines
    decreases |lines|
  {
    hide LineEnd, NoBreak, StartsWithLf;
    if lines == [] {
      assert i == |raw|;
    } else {
      var line, end, rest := lines[0], ends[0], Together(lines[1..], ends[1..]);
      assert raw[i..] == line + end.Text() + rest;
      if end == Nothing {
        assert rest == [] && raw[i..] == line;
        LastLine(raw, i);
        assert lines == [line];
      } else {
        OneMore(raw, i, line, end, rest);
        hide LinesFrom;
        SplitsBack(raw, i + |line| + |end.Text()|, lines[1..], ends[1..]);
        assert lines == [line] + lines[1..];
      }
    }
  }

  /** Every text is put together from its lines. */
  lemma {:induction false} EndsOf(raw: seq<byte>, i: nat) returns (ends: seq<End>)
    requires i <= |raw|
    ensures Cut(LinesFrom(raw, i), ends) && Together(LinesFrom(raw, i), ends) == raw[i..]
    decreases |raw| - i
  {
    var e := LineEnd(raw, i);
    if i == |raw| {
      ends := [];
    } else if e == |raw| {
      assert NoBreak(raw[i..]);
      LastLine(raw, i);
      ends := [Nothing];
      OneLine(raw[i..]);
    } else {
      hide LinesFrom, LineEnd, Cut, Together;
      LinesStep(raw, i);
      var next := After(raw, e);
      var rest := EndsOf(raw, next);
      ends := [EndAt(raw, e)] + rest;
      CutMore(raw, i, e, LinesFrom(raw, next), rest);
    }
  }

  lemma OneLine(line: seq<byte>)
    requires NoBreak(line) && line != []
    ensures Cut([line], [Nothing]) && Together([line], [Nothing]) == line
  {
    assert line + [] + [] == line;
  }

  lemma CutMore(raw: seq<byte>, i: nat, e: nat, lines: seq<seq<byte>>, ends: seq<End>)
    requires i <= e < |raw| && e == LineEnd(raw, i)
    requires Cut(lines, ends) && Together(lines, ends) == raw[After(raw, e)..]
    ensures var (l, d) := ([raw[i..e]] + lines, [EndAt(raw, e)] + ends); Cut(l, d) && Together(l, d) == raw[i..]
  {
    hide *;
    NothingBefore(raw, i, e);
    EndIs(raw, e);
    ThreeParts(raw, i, e, After(raw, e));
    CutCons(raw[i..e], EndAt(raw, e), lines, ends);
  }

  lemma NothingBefore(raw: seq<byte>, i: nat, e: nat)
    requires i <= e < |raw| && e == LineEnd(raw, i)
    ensures NoBreak(raw[i..e]) && (raw[e] == LF || raw[e] == CR)
  {
  }

  lemma EndIs(raw: seq<byte>, e: nat)
    requires e < |raw| && (raw[e] == LF || raw[e] == CR)
    ensures EndAt(raw, e) != Nothing && raw[e..After(raw, e)] == EndAt(raw, e).Text()
    ensures EndAt(raw, e) == Cr ==> !StartsWithLf(raw[After(raw, e)..])
  {
    EndAtIs(raw, e, EndAt(raw, e));
    hide StartsWithLf, EndAt;
  }

  lemma ThreeParts(raw: seq<byte>, i: nat, e: nat, next: nat)
    requires i <= e <= next <= |raw|
    ensures raw[i..] == raw[i..e] + raw[e..next] + raw[next..]
  {
  }

  lemma CutCons(line: seq<byte>, end: End, lines: seq<seq<byte>>, ends: seq<End>)
    requires NoBreak(line) && end != Nothing && Cut(lines, ends)
    requires end == Cr ==> !StartsWithLf(Together(lines, ends))
    ensures Cut([line] + lines, [end] + ends)
    ensures Together([line] + lines, [end] + ends) == line + end.Text() + Together(lines, ends)
  {
    hide NoBreak, StartsWithLf, End.Text;
    var l, d := [line] + lines, [end] + ends;
    assert l[1..] == lines && d[1..] == ends;
  }

  ghost predicate IsCutInto(raw: seq<byte>, lines: seq<seq<byte>>) {
    exists ends :: Cut(lines, ends) && Together(lines, ends) == raw
  }

  /** The lines are the only ones the text can be cut into. */
  lemma LinesExactly(raw: seq<byte>, lines: seq<seq<byte>>)
    ensures Lines(raw) == lines <==> IsCutInto(raw, lines)
  {
    hide Cut, Together, LinesFrom;
    assert raw[0..] == raw;
    var ends := EndsOf(raw, 0);
    assert IsCutInto(raw, Lines(raw));
    if IsCutInto(raw, lines) {
      var ends' :| Cut(lines, ends') && Together(lines, ends') == raw;
      SplitsBack(raw, 0, lines, ends');
    }
  }

  /** The lines that claim to be owner records. */
  function Marked(lines: seq<seq<byte>>): seq<seq<byte>> {
    if lines == [] then []
    else
      var front, last := Marked(lines[..|lines| - 1]), lines[|lines| - 1];
      if MARK <= last then front + [last] else front
  }

  function StartRecord(n: int): Json {
    JDict(map["schema_version" := JInt(1), "ordinal" := JInt(n), "event" := JString("start")])
  }

  function FinishRecord(n: int): Json {
    JDict(map["schema_version" := JInt(1), "ordinal" := JInt(n), "event" := JString("finish"),
              "cleanup_confirmed" := JBool(true)])
  }

  /** The record expected in the given place: start 1, finish 1, start 2, and so on. */
  function Expected(place: nat): Json {
    if place % 2 == 0 then StartRecord(place / 2 + 1) else FinishRecord(place / 2 + 1)
  }

  /** A line that carries this record. */
  predicate Carries(decode: Decoder, line: seq<byte>, record: Json) {
    PREFIX <= line && |line| <= MAX_LINE && decode(line[|PREFIX|..]) == Some(record)
  }

  /** The marked lines are a serial run of owners, up to the given place. */
  predicate Serial(decode: Decoder, marked: seq<seq<byte>>) {
    |marked| <= 16 && forall i | 0 <= i < |marked| :: Carries(decode, marked[i], Expected(i))
  }

  /** What one marked line does to the account, or a refusal. */
  method CheckRecord(decode: Decoder, line: seq<byte>, completed: nat, active: Option<int>)
    returns (r: Option<(nat, Option<int>)>)
    requires active.Some? ==> active.value == completed + 1
    ensures active.None? ==>
      r == if completed < 8 && Carries(decode, line, StartRecord(completed + 1))
           then Some((completed, Some(completed + 1)))
           else None
    ensures active.Some? ==>
      r == if completed < 8 && Carries(decode, line, FinishRecord(completed + 1)) then Some((completed + 1, None))
           else None
  {
    if !(PREFIX <= line && |line| <= MAX_LINE) {
      return None;
    }
    var decoded := decode(line[|PREFIX|..]);
    if decoded.None? || !decoded.value.JDict? {
      return None;
    }
    var value := decoded.value.fields;
    if !("schema_version" in value && value["schema_version"] == JInt(1)) {
      return None;
    }
    if !("event" in value && value["event"].JString? && value["event"].s in {"start", "finish"}) {
      return None;
    }
    if !("ordinal" in value && value["ordinal"].JInt? && 1 <= value["ordinal"].i <= 8) {
      return None;
    }
    var ordinal := value["ordinal"].i;
    if value["event"].s == "start" {
      if value.Keys != {"schema_version", "ordinal", "event"} || active.Some? || ordinal != completed + 1 {
        StartFields(value, completed + 1);
        return None;
      }
      StartFields(value, ordinal);
      return Some((completed, Some(ordinal)));
    } else {
      if value.Keys != {"schema_version", "ordinal", "event", "cleanup_confirmed"} || active != Some(ordinal)
         || value["cleanup_confirmed"] != JBool(true) {
        FinishFields(value, completed + 1);
        return None;
      }
      FinishFields(value, ordinal);
      return Some((ordinal, None));
    }
  }

  lemma StartFields(value: map<string, Json>, n: int)
    ensures JDict(value) == StartRecord(n)
       <==> value.Keys == {"schema_version", "ordinal", "event"} && value["schema_version"] == JInt(1)
            && value["ordinal"] == JInt(n) && value["event"] == JString("start")
  {
    var fields := StartRecord(n).fields;
    assert fields.Keys == {"schema_version", "ordinal", "event"};
    if value.Keys == fields.Keys && value["schema_version"] == JInt(1) && value["ordinal"] == JInt(n)
       && value["event"] == JString("start") {
      assert forall k | k in value :: value[k] == fields[k];
      assert value == fields;
    }
  }

  lemma FinishFields(value: map<string, Json>, n: int)
    ensures JDict(value) == FinishRecord(n)
       <==> value.Keys == {"schema_version", "ordinal", "event", "cleanup_confirmed"}
            && value["schema_version"] == JInt(1)
            && value["ordinal"] == JInt(n) && value["event"] == JString("finish")
            && value["cleanup_confirmed"] == JBool(true)
  {
    var fields := FinishRecord(n).fields;
    assert fields.Keys == {"schema_version", "ordinal", "event", "cleanup_confirmed"};
    if value.Keys == fields.Keys && value["schema_version"] == JInt(1) && value["ordinal"] == JInt(n)
       && value["event"] == JString("finish") && value["cleanup_confirmed"] == JBool(true) {
      assert forall k | k in value :: value[k] == fields[k];
      assert value == fields;
    }
  }

  /** Start 1, finish 1, and so on to start n, finish n; some of it on success. */
  predicate Accepts(decode: Decoder, raw: seq<byte>, succeeded: bool) {
    var marked := Marked(Lines(raw));
    |raw| <= MAX_BYTES && Serial(decode, marked) && |marked| % 2 == 0 && (succeeded ==> marked != [])
  }

  /** Evidence is accepted exactly when its marked lines are start 1, finish 1, and so on to start n,
      finish n with n at most 8, and positive on success. So the cap on records never refuses a run. */
  method ValidateOwnerEvidence(decode: Decoder, raw: seq<byte>, succeeded: bool) returns (r: Option<nat>)
    ensures r.Some? <==> Accepts(decode, raw, succeeded)
    ensures r.Some? ==> |Marked(Lines(raw))| == 2 * r.value && r.value <= 8
  {
    hide Lines, Expected, Carries, StartRecord, FinishRecord, Serial, Marked;
    if |raw| > MAX_BYTES {
      return None;
    }
    var lines := Lines(raw);
    NoneMarked(decode);
    assert lines[..0] == [];
    var completed: nat, active: Option<int>, count: nat := 0, None, 0;
    for i := 0 to |lines|
      invariant count == |Marked(lines[..i])| == 2 * completed + (if active.Some? then 1 else 0)
      invariant active.Some? ==> active.value == completed + 1
      invariant completed <= 8 && (active.Some? ==> completed < 8) && Serial(decode, Marked(lines[..i]))
    {
      MarkedStep(lines, i);
      if !(MARK <= lines[i]) {
        continue;
      }
      count := count + 1;
      ghost var before := Marked(lines[..i]);
      ExpectedNext(completed, active.Some?);
      var checked := CheckRecord(decode, lines[i], completed, active);
      if count > 16 || checked.None? {
        Broken(decode, lines, i);
        return None;
      }
      SerialMore(decode, before, lines[i]);
      completed, active := checked.value.0, checked.value.1;
    }
    assert lines[..|lines|] == lines;
    if active.Some? || (succeeded && completed == 0) {
      return None;
    }
    return Some(completed);
  }

  lemma ExpectedNext(completed: nat, active: bool)
    ensures Expected(2 * completed + if active then 1 else 0)
         == if active then FinishRecord(completed + 1) else StartRecord(completed + 1)
  {
    hide StartRecord, FinishRecord;
  }

  lemma NoneMarked(decode: Decoder)
    ensures Marked([]) == [] && Serial(decode, [])
  {
  }

  /** A line out of turn, or one too many, breaks the whole run. */
  lemma Broken(decode: Decoder, lines: seq<seq<byte>>, i: nat)
    requires i < |lines| && MARK <= lines[i]
    requires var before := Marked(lines[..i]); |before| >= 16 || !Carries(decode, lines[i], Expected(|before|))
    ensures !Serial(decode, Marked(lines))
  {
    hide Carries, Expected, Marked;
    var before, all := Marked(lines[..i]), Marked(lines);
    MarkedStep(lines, i);
    MarkedPrefix(lines, i + 1);
    assert before + [lines[i]] <= all && all[|before|] == (before + [lines[i]])[|before|] == lines[i];
  }

  lemma SerialMore(decode: Decoder, marked: seq<seq<byte>>, line: seq<byte>)
    requires Serial(decode, marked) && |marked| < 16 && Carries(decode, line, Expected(|marked|))
    ensures Serial(decode, marked + [line])
  {
    hide Carries, Expected;
  }

  lemma MarkedStep(lines: seq<seq<byte>>, i: nat)
    requires i < |lines|
    ensures Marked(lines[..i + 1])
         == if MARK <= lines[i] then Marked(lines[..i]) + [lines[i]] else Marked(lines[..i])
  {
    assert lines[..i + 1][..i] == lines[..i];
  }

  /** The marked lines of the beginning begin the marked lines; a run broken there stays broken. */
  lemma {:induction false} MarkedPrefix(lines: seq<seq<byte>>, i: nat)
    requires i <= |lines|
    ensures Marked(lines[..i]) <= Marked(lines)
    decreases |lines| - i
  {
    if i == |lines| {
      assert lines[..i] == lines;
    } else {
      MarkedStep(lines, i);
      MarkedPrefix(lines, i + 1);
    }
  }
}
