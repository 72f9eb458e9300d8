/** Line endings of document bodies and agent instructions (crates/kitrove-agent-skills/src/projection.rs:185-193;
    crates/kitrove-agents/src/lib.rs:184-206). Text is its UTF-8 bytes. */
module LineEndings {
  import opened Bytes

  type Text = seq<byte>

  const LF: byte := 10
  const CR: byte := 13

  /** Every CR LF pair, from the left, becomes LF. */
  function ReplaceCrLf(s: Text): Text {
    if s == [] then []
    else if |s| > 1 && s[0] == CR && s[1] == LF then [LF] + ReplaceCrLf(s[2..])
    else [s[0]] + ReplaceCrLf(s[1..])
  }

  function ReplaceCr(s: Text): Text {
    seq(|s|, i requires 0 <= i < |s| => if s[i] == CR then LF else s[i])
  }

  function TrimEnd(s: Text): Text {
    if s != [] && s[|s| - 1] == LF then TrimEnd(s[..|s| - 1]) else s
  }

  lemma {:induction false} ReplaceKeeps(s: Text)
    ensures CR !in s ==> ReplaceCrLf(s) == s
    ensures forall b | b in ReplaceCrLf(s) :: b in s
    ensures |ReplaceCrLf(s)| <= |s|
    decreases |s|
  {
    if s != [] {
      if |s| > 1 && s[0] == CR && s[1] == LF {
        ReplaceKeeps(s[2..]);
      } else {
        ReplaceKeeps(s[1..]);
        assert s == [s[0]] + s[1..];
      }
    }
  }

  lemma {:induction false} TrimEndHolds(s: Text)
    ensures var t := TrimEnd(s);
      t <= s && (t == [] || t[|t| - 1] != LF) && s == t + seq(|s| - |t|, _ => LF)
    decreases |s|
  {
    if s != [] && s[|s| - 1] == LF {
      TrimEndHolds(s[..|s| - 1]);
    }
  }

  lemma TrimEndAgain(t: Text)
    requires t == [] || t[|t| - 1] != LF
    ensures TrimEnd(t + [LF]) == t == TrimEnd(t)
  {
    assert (t + [LF])[..|t|] == t;
  }

  // ----- What becomes of a line break

  function Unix(s: Text): Text {
    ReplaceCr(ReplaceCrLf(s))
  }

  /** A whole line break between two texts: CR LF, or an LF or CR that is not half of one. */
  predicate Break(a: Text, brk: Text, b: Text) {
    || brk == [CR, LF]
    || (brk == [LF] && (a == [] || a[|a| - 1] != CR))
    || (brk == [CR] && (b == [] || b[0] != LF))
  }

  predicate StartsPair(s: Text) {
    |s| > 1 && s[0] == CR && s[1] == LF
  }

  lemma Step(s: Text)
    requires s != []
    ensures ReplaceCrLf(s)
         == if StartsPair(s) then [LF] + ReplaceCrLf(s[2..]) else [s[0]] + ReplaceCrLf(s[1..])
  {
  }

  lemma RestOf(a: Text, b: Text, n: nat)
    requires n <= |a|
    ensures (a + b)[n..] == a[n..] + b
  {
  }

  lemma {:induction false} PairSplits(a: Text, b: Text)
    requires a == [] || b == [] || a[|a| - 1] != CR || b[0] != LF
    ensures ReplaceCrLf(a + b) == ReplaceCrLf(a) + ReplaceCrLf(b)
    decreases |a|
  {
    if a == [] {
      assert a + b == b;
    } else {
      PairSplits(a[Taken(a)..], b);
      HeadSplits(a, b);
    }
  }

  /** How many bytes the first step takes, and what it gives for them. */
  function Taken(s: Text): (n: nat)
    requires s != []
    ensures n <= |s|
  {
    if StartsPair(s) then 2 else 1
  }

  function Given(s: Text): byte
    requires s != []
  {
    if StartsPair(s) then LF else s[0]
  }

  lemma StepGives(s: Text)
    requires s != []
    ensures ReplaceCrLf(s) == [Given(s)] + ReplaceCrLf(s[Taken(s)..])
  {
    Step(s);
  }

  lemma SameStep(a: Text, b: Text)
    requires a != [] && (b == [] || a[|a| - 1] != CR || b[0] != LF)
    ensures Taken(a + b) == Taken(a) && Given(a + b) == Given(a)
  {
  }

  lemma HeadSplits(a: Text, b: Text)
    requires a != [] && (b == [] || a[|a| - 1] != CR || b[0] != LF)
    requires ReplaceCrLf(a[Taken(a)..] + b) == ReplaceCrLf(a[Taken(a)..]) + ReplaceCrLf(b)
    ensures ReplaceCrLf(a + b) == ReplaceCrLf(a) + ReplaceCrLf(b)
  {
    hide ReplaceCrLf, Taken, Given;
    StepGives(a);
    StepGives(a + b);
    SameStep(a, b);
    RestOf(a, b, Taken(a));
  }

  lemma CrSplits(a: Text, b: Text)
    ensures ReplaceCr(a + b) == ReplaceCr(a) + ReplaceCr(b)
  {
  }

  lemma BreakAlone(brk: Text)
    requires brk in {[LF], [CR], [CR, LF]}
    ensures Unix(brk) == [LF]
  {
    Step(brk);
    assert brk[1..] == [] || brk[2..] == [];
  }

  /** Every line break becomes one LF, whatever stands around it. */
  lemma BreakBecomesLf(a: Text, brk: Text, b: Text)
    requires Break(a, brk, b)
    ensures Unix(a + brk + b) == Unix(a) + [LF] + Unix(b)
  {
    BreakAlone(brk);
    hide ReplaceCrLf, ReplaceCr;
    PairSplits(a, brk);
    PairSplits(a + brk, b);
    CrSplits(ReplaceCrLf(a), ReplaceCrLf(brk));
    CrSplits(ReplaceCrLf(a) + ReplaceCrLf(brk), ReplaceCrLf(b));
  }

  /** A CR survives the first replacement exactly when it is not half of a CR LF. */
  predicate LoneCr(s: Text) {
    exists i | 0 <= i < |s| :: s[i] == CR && (i + 1 == |s| || s[i + 1] != LF)
  }

  lemma {:induction false} LoneCrStays(s: Text)
    ensures CR in ReplaceCrLf(s) <==> LoneCr(s)
    decreases |s|
  {
    if s != [] {
      Step(s);
      hide ReplaceCrLf;
      var n := if StartsPair(s) then 2 else 1;
      var rest := s[n..];
      LoneCrStays(rest);
      assert forall i | n <= i < |s| :: s[i] == rest[i - n];
      assert forall i | 0 <= i < |rest| :: rest[i] == s[i + n];
      if LoneCr(rest) {
        var i :| 0 <= i < |rest| && rest[i] == CR && (i + 1 == |rest| || rest[i + 1] != LF);
        assert s[i + n] == CR && (i + n + 1 == |s| || s[i + n + 1] != LF);
      }
      if LoneCr(s) && !(n == 1 && s[0] == CR) {
        var i :| 0 <= i < |s| && s[i] == CR && (i + 1 == |s| || s[i + 1] != LF);
        assert rest[i - n] == CR && (i - n + 1 == |rest| || rest[i - n + 1] != LF);
      }
    }
  }

  /** And text without a CR stays as it is. */
  lemma UnixKeeps(s: Text)
    requires CR !in s
    ensures Unix(s) == s
  {
    ReplaceKeeps(s);
  }

  /** A body as it is projected: LF line endings, and a single one at the end unless nothing is left. */
  function NormalizedBody(body: Text): Text {
    var t := TrimEnd(ReplaceCr(ReplaceCrLf(body)));
    if t == [] then [] else t + [LF]
  }

  /** It has the body's lines, up to the last one with anything on it, each ended by LF. */
  lemma LastLineDecides(body: Text, text: Text, blank: nat)
    requires Unix(body) == text + seq(blank, _ => LF) && (text == [] || text[|text| - 1] != LF)
    ensures NormalizedBody(body) == if text == [] then [] else text + [LF]
  {
    TrimsAway(text, blank);
  }

  lemma {:induction false} TrimsAway(text: Text, blank: nat)
    requires text == [] || text[|text| - 1] != LF
    ensures TrimEnd(text + seq(blank, _ => LF)) == text
    decreases blank
  {
    var s := text + seq(blank, _ => LF);
    if blank > 0 {
      assert s[..|s| - 1] == text + seq(blank - 1, _ => LF);
      TrimsAway(text, blank - 1);
    } else {
      assert s == text;
    }
  }

  lemma NormalizedBodyHolds(body: Text)
    ensures CR !in NormalizedBody(body)
    ensures NormalizedBody(NormalizedBody(body)) == NormalizedBody(body)
  {
    var s := ReplaceCr(ReplaceCrLf(body));
    TrimEndHolds(s);
    var n := NormalizedBody(body);
    ReplaceKeeps(n);
    assert ReplaceCr(n) == n;
    if TrimEnd(s) != [] {
      TrimEndAgain(TrimEnd(s));
    }
  }
}
