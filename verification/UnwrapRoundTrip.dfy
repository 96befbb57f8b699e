/** What unwrapping does to a whole JSON array: exactly when it is faithful, and how the elements come back. */
module UnwrapRoundTrip {
  import opened Bytes
  import opened Quantization
  import opened Unwrapper

  /** The elements with a separator byte between neighbours. */
  function Join(es: seq<seq<byte>>, separator: byte): seq<byte>
    requires es != []
  {
    var n := |es| - 1;
    if n == 0 then es[0] else Join(es[..n], separator) + [separator] + es[n]
  }

  lemma JoinPush(es: seq<seq<byte>>, separator: byte)
    requires es != []
    ensures var n := |es| - 1;
      Join(es, separator) == if n == 0 then es[0] else Join(es[..n], separator) + [separator] + es[n]
  {
  }

  lemma {:induction false} JoinLength(es: seq<seq<byte>>)
    requires es != []
    ensures |Join(es, COMMA)| == |Join(es, SPACE)|
  {
    if |es| > 1 {
      JoinLength(es[..|es| - 1]);
    }
  }

  // ---------- Which elements pass unchanged ----------

  /** The nesting depth the program tracks: every bracket byte counts, inside strings too. */
  function DepthAfter(xs: seq<byte>): I32 {
    if xs == [] then 0 else NextDepth(DepthAfter(xs[..|xs| - 1]), xs[|xs| - 1])
  }

  function NextDepth(d: I32, b: byte): I32 {
    if IsOpen(b) then Deeper(d) else if IsClose(b) && d > 0 then d - 1 else d
  }

  /** At this depth the byte ends the array or is taken for a separator. */
  predicate IsStructural(depth: I32, b: byte) {
    (b == CLOSE_BRACKET && depth <= 0) || (b == COMMA && depth == 0)
  }

  predicate Clean(e: seq<byte>) {
    forall i :: 0 <= i < |e| ==> !IsStructural(DepthAfter(e[..i]), e[i])
  }

  /** The brackets of the element close again and it has no separator or closing bracket outside them. */
  predicate Passes(e: seq<byte>) {
    Clean(e) && DepthAfter(e) == 0
  }

  lemma CleanPush(e: seq<byte>)
    requires e != []
    ensures var n := |e| - 1;
      Clean(e) <==> Clean(e[..n]) && !IsStructural(DepthAfter(e[..n]), e[n])
  {
    var n := |e| - 1;
    assert forall i :: 0 <= i < n ==> e[..n][..i] == e[..i];
    if Clean(e[..n]) && !IsStructural(DepthAfter(e[..n]), e[n]) {
      forall i | 0 <= i < |e| ensures !IsStructural(DepthAfter(e[..i]), e[i]) {
        if i < n {
          assert !IsStructural(DepthAfter(e[..n][..i]), e[..n][i]);
        }
      }
    }
    if Clean(e) {
      forall i | 0 <= i < n ensures !IsStructural(DepthAfter(e[..n][..i]), e[..n][i]) {
        assert !IsStructural(DepthAfter(e[..i]), e[i]);
      }
    }
  }

  /** Inside the array every byte gives one output byte until the end is found. */
  lemma {:induction false} OutputLength(s: State, xs: seq<byte>)
    requires s.started && !s.done
    ensures var r := Run(s, xs);
      r.state.started && |r.bytes| <= |xs| && (|r.bytes| == |xs| <==> !r.state.done)
  {
    if xs != [] {
      OutputLength(s, xs[..|xs| - 1]);
    }
  }

  lemma StepUnlessStructural(d: I32, b: byte)
    ensures !IsStructural(d, b) ==> Step(State(true, d, false), b) == Output(State(true, NextDepth(d, b), false), [b])
    ensures IsStructural(d, b) ==> Step(State(true, d, false), b).bytes != [b]
  {
  }

  /** Output equals input, with the array still open, exactly for clean inputs. */
  lemma {:induction false} CleanRun(e: seq<byte>)
    ensures Clean(e) ==> Run(TOP, e) == Output(State(true, DepthAfter(e), false), e)
    ensures Run(TOP, e).bytes == e ==> Clean(e)
  {
    hide Step, Clean, IsStructural, NextDepth;
    if e == [] {
      assert Clean([]) by { EmptyIsClean(); }
    } else {
      var n := |e| - 1;
      var front := e[..n];
      CleanPush(e);
      CleanRun(front);
      StepUnlessStructural(DepthAfter(front), e[n]);
      if Run(TOP, e).bytes == e {
        OutputLength(TOP, front);
        OutputLength(TOP, e);
        if Run(TOP, front).state.done {
          StaysDone(front, e[n]);
        }
        assert Run(TOP, front).bytes == e[..n];
      }
    }
  }

  lemma EmptyIsClean()
    ensures Clean([])
  {
  }

  lemma StaysDone(front: seq<byte>, b: byte)
    requires Run(TOP, front).state.done
    ensures Step(Run(TOP, front).state, b) == Output(Run(TOP, front).state, [])
  {
  }

  lemma PassesIffUnchanged(e: seq<byte>)
    ensures Passes(e) <==> Run(TOP, e) == Output(TOP, e)
  {
    CleanRun(e);
  }

  // ---------- The whole array ----------

  lemma AtComma(s: State)
    requires s.started && !s.done
    ensures Step(s, COMMA) == Output(s, [SPACE]) <==> s.depth == 0
    ensures |Step(s, COMMA).bytes| == 1
  {
  }

  /** A joined list turns into the space-joined list exactly when every element passes. */
  lemma {:induction false} JoinedRun(es: seq<seq<byte>>)
    requires es != []
    ensures Run(TOP, Join(es, COMMA)) == Output(TOP, Join(es, SPACE)) <==> forall i :: 0 <= i < |es| ==> Passes(es[i])
  {
    hide Run, Passes, Join;
    var n := |es| - 1;
    JoinPush(es, COMMA);
    JoinPush(es, SPACE);
    PassesIffUnchanged(es[n]);
    if n > 0 {
      var front := es[..n];
      JoinedRun(front);
      SplitAtComma(front, es[n]);
      assert forall i :: 0 <= i < n ==> front[i] == es[i];
    }
  }

  lemma SplitAtComma(front: seq<seq<byte>>, e: seq<byte>)
    requires front != []
    ensures Run(TOP, Join(front, COMMA) + [COMMA] + e) == Output(TOP, Join(front, SPACE) + [SPACE] + e)
       <==> Run(TOP, Join(front, COMMA)) == Output(TOP, Join(front, SPACE)) && Run(TOP, e) == Output(TOP, e)
  {
    hide Run, Step, Join;
    var j, u := Join(front, COMMA), Join(front, SPACE);
    var r := Run(TOP, j);
    var r' := Step(r.state, COMMA);
    var r'' := Run(r'.state, e);
    JoinLength(front);
    RunPush(TOP, j, COMMA);
    RunConcat(TOP, j + [COMMA], e);
    OutputLength(TOP, j);
    AtComma(TOP);
    if Run(TOP, j + [COMMA] + e) == Output(TOP, u + [SPACE] + e) {
      if r.state.done || r'.state.done {
        OnceDone(r.state, COMMA);
        DoneStaysDone(r'.state, e);
        assert false;
      }
      AtComma(r.state);
      var out := r.bytes + r'.bytes + r''.bytes;
      assert out[..|j|] == r.bytes && out[|j|..|j| + 1] == r'.bytes && out[|j| + 1..] == r''.bytes;
      var out' := u + [SPACE] + e;
      assert out'[..|j|] == u && out'[|j|..|j| + 1] == [SPACE] && out'[|j| + 1..] == e;
      CommaToSpace(r.state);
    }
  }

  lemma OnceDone(s: State, b: byte)
    ensures s.done ==> Step(s, b) == Output(s, [])
  {
  }

  lemma CommaToSpace(s: State)
    requires s.started && !s.done && Step(s, COMMA).bytes == [SPACE]
    ensures Step(s, COMMA) == Output(s, [SPACE]) && s.depth == 0
  {
  }

  /** Unwrapping an array is faithful exactly when every element passes: then, and only then, the output
    is the elements joined by single spaces, with the end of the array recognised. */
  lemma UnwrapIsFaithful(es: seq<seq<byte>>)
    requires es != []
    ensures Run(INITIAL, [OPEN_BRACKET] + Join(es, COMMA) + [CLOSE_BRACKET]) == Output(FINISHED, Join(es, SPACE))
       <==> forall i :: 0 <= i < |es| ==> Passes(es[i])
  {
    hide Join;
    var j, u := Join(es, COMMA), Join(es, SPACE);
    JoinedRun(es);
    JoinLength(es);
    OutputLength(TOP, j);
    assert Run(INITIAL, [OPEN_BRACKET]) == Output(TOP, []) by {
      RunPush(INITIAL, [], OPEN_BRACKET);
      assert [] + [OPEN_BRACKET] == [OPEN_BRACKET];
    }
    RunConcat(INITIAL, [OPEN_BRACKET], j);
    RunPush(INITIAL, [OPEN_BRACKET] + j, CLOSE_BRACKET);
    assert [] + Run(TOP, j).bytes == Run(TOP, j).bytes;
    Ending(Run(TOP, j), u);
  }

  /** The closing bracket ends the array cleanly exactly at the top level. */
  lemma Ending(r: Output, u: seq<byte>)
    requires r.state.started && |r.bytes| <= |u| && (|r.bytes| == |u| <==> !r.state.done)
    ensures Output(Step(r.state, CLOSE_BRACKET).state,
                   r.bytes + Step(r.state, CLOSE_BRACKET).bytes) == Output(FINISHED, u)
       <==> r == Output(TOP, u)
  {
    assert r.bytes + [] == r.bytes;
  }

  /** Bytes before the opening bracket and after the closing one do not matter. */
  lemma UnwrapArray(pre: seq<byte>, es: seq<seq<byte>>, post: seq<byte>)
    requires es != [] && OPEN_BRACKET !in pre && forall i :: 0 <= i < |es| ==> Passes(es[i])
    ensures Run(INITIAL, pre + ([OPEN_BRACKET] + Join(es, COMMA) + [CLOSE_BRACKET]) + post) == Output(FINISHED,
                Join(es, SPACE))
  {
    hide Join, Run;
    var body := [OPEN_BRACKET] + Join(es, COMMA) + [CLOSE_BRACKET];
    UnwrapIsFaithful(es);
    NothingBeforeStart(pre);
    RunConcat(INITIAL, pre, body);
    RunConcat(INITIAL, pre + body, post);
    DoneStaysDone(FINISHED, post);
    assert [] + Join(es, SPACE) + [] == Join(es, SPACE);
  }

  lemma {:induction false} NothingBeforeStart(pre: seq<byte>)
    requires OPEN_BRACKET !in pre
    ensures Run(INITIAL, pre) == Output(INITIAL, [])
  {
    if pre != [] {
      NothingBeforeStart(pre[..|pre| - 1]);
    }
  }

  // ---------- Objects and arrays with balanced brackets ----------

  /** Opening minus closing brackets of JSON: 123 and 91 open, 125 and 93 close. */
  function Nesting(xs: seq<byte>): int {
    if xs == [] then 0 else
      var n := |xs| - 1;
      Nesting(xs[..n]) + if xs[n] == 123 || xs[n] == 91 then 1 else if xs[n] == 125 || xs[n] == 93 then -1 else 0
  }

  lemma {:induction false} NestingConcat(a: seq<byte>, b: seq<byte>)
    ensures Nesting(a + b) == Nesting(a) + Nesting(b)
  {
    if b == [] {
      assert a + b == a;
    } else {
      var n := |b| - 1;
      NestingConcat(a, b[..n]);
      assert (a + b)[..|a| + n] == a + b[..n];
    }
  }

  /** An object or array whose bracket bytes are balanced: it opens at once and closes only at its end. */
  ghost predicate IsBalanced(e: seq<byte>) {
    && 0 < |e| < 0x8000_0000 && (e[0] == 123 || e[0] == 91)
    && (forall i :: 0 < i < |e| ==> Nesting(e[..i]) >= 1)
    && Nesting(e) == 0
  }

  lemma {:induction false} DepthIsNesting(e: seq<byte>, i: nat)
    requires IsBalanced(e) && i <= |e|
    ensures DepthAfter(e[..i]) == Nesting(e[..i]) <= i
  {
    if i > 0 {
      DepthIsNesting(e, i - 1);
      assert e[..i][..i - 1] == e[..i - 1];
      assert i == |e| ==> e[..i] == e;
    }
  }

  lemma BalancedPasses(e: seq<byte>)
    requires IsBalanced(e)
    ensures Passes(e)
  {
    forall i | 0 <= i < |e| ensures !IsStructural(DepthAfter(e[..i]), e[i]) {
      DepthIsNesting(e, i);
    }
    DepthIsNesting(e, |e|);
    assert e[..|e|] == e;
  }

  /** The parts between spaces (32) that lie outside all brackets. */
  function SplitTop(xs: seq<byte>): (parts: seq<seq<byte>>)
    ensures parts != []
  {
    if xs == [] then [[]] else
      var n := |xs| - 1;
      var parts := SplitTop(xs[..n]);
      if xs[n] == 32 && Nesting(xs[..n]) == 0 then parts + [[]]
      else parts[..|parts| - 1] + [parts[|parts| - 1] + [xs[n]]]
  }

  lemma {:induction false} SplitGrows(w: seq<byte>, parts: seq<seq<byte>>, e: seq<byte>, i: nat)
    requires SplitTop(w) == parts + [[]] && Nesting(w) == 0 && IsBalanced(e) && i <= |e|
    ensures SplitTop(w + e[..i]) == parts + [e[..i]]
  {
    hide SplitTop, Nesting, IsBalanced;
    if i == 0 {
      assert w + e[..0] == w;
    } else {
      SplitGrows(w, parts, e, i - 1);
      var xs := w + e[..i - 1];
      NestingConcat(w, e[..i - 1]);
      assert w + e[..i] == xs + [e[i - 1]];
      assert e[..i] == e[..i - 1] + [e[i - 1]];
      NotSeparated(e, i - 1);
      SplitPush(xs, e[i - 1], parts, e[..i - 1]);
    }
  }

  lemma NotSeparated(e: seq<byte>, i: nat)
    requires IsBalanced(e) && i < |e|
    ensures e[i] != SPACE || Nesting(e[..i]) != 0
  {
  }

  lemma SplitPush(xs: seq<byte>, b: byte, parts: seq<seq<byte>>, last: seq<byte>)
    requires SplitTop(xs) == parts + [last] && (b != SPACE || Nesting(xs) != 0)
    ensures SplitTop(xs + [b]) == parts + [last + [b]]
  {
    assert (xs + [b])[..|xs|] == xs;
    assert (parts + [last])[..|parts|] == parts;
  }

  lemma EmptySplit()
    ensures SplitTop([]) == [[]] && Nesting([]) == 0
  {
  }

  lemma NestingOf(e: seq<byte>)
    ensures IsBalanced(e) ==> Nesting(e) == 0
  {
  }

  lemma SplitAtSpace(front: seq<byte>)
    requires Nesting(front) == 0
    ensures SplitTop(front + [SPACE]) == SplitTop(front) + [[]] && Nesting(front + [SPACE]) == 0
  {
    assert (front + [SPACE])[..|front|] == front;
  }

  /** Splitting the unwrapped text at its top-level spaces gives the elements back. */
  lemma {:induction false} SplitRecovers(es: seq<seq<byte>>)
    requires es != [] && forall i :: 0 <= i < |es| ==> IsBalanced(es[i])
    ensures SplitTop(Join(es, SPACE)) == es && Nesting(Join(es, SPACE)) == 0
  {
    hide SplitTop, Nesting, Join, IsBalanced;
    var n := |es| - 1;
    var e := es[n];
    JoinPush(es, SPACE);
    assert e[..|e|] == e;
    EmptySplit();
    NestingOf(e);
    if n == 0 {
      SplitGrows([], [], e, |e|);
      assert [] + e == e;
    } else {
      var front := Join(es[..n], SPACE);
      SplitRecovers(es[..n]);
      var w := front + [SPACE];
      SplitAtSpace(front);
      SplitGrows(w, es[..n], e, |e|);
      NestingConcat(w, e);
    }
  }

  /** The round trip, on the bytes of JSON: an array 91 ... 93 of balanced objects and arrays separated by 44 comes out
    separated by 32, and splitting at top-level spaces gives the elements back. */
  lemma UnwrapThenSplit(pre: seq<byte>, es: seq<seq<byte>>, post: seq<byte>)
    requires es != [] && 91 !in pre && forall i :: 0 <= i < |es| ==> IsBalanced(es[i])
    ensures var made := Run(INITIAL, pre + ([91] + Join(es, 44) + [93]) + post);
      made.state.done && made.bytes == Join(es, 32) && SplitTop(made.bytes) == es
  {
    forall i | 0 <= i < |es| ensures Passes(es[i]) {
      BalancedPasses(es[i]);
    }
    UnwrapArray(pre, es, post);
    SplitRecovers(es);
  }

  // ---------- A line of the reference file ----------

  /** No bracket bytes. */
  predicate IsPlain(xs: seq<byte>) {
    forall i :: 0 <= i < |xs| ==> xs[i] !in [123, 125, 91, 93]
  }

  lemma {:induction false} PlainNesting(xs: seq<byte>)
    requires IsPlain(xs)
    ensures Nesting(xs) == 0
  {
    if xs != [] {
      PlainNesting(xs[..|xs| - 1]);
    }
  }

  /** Inside d brackets, no prefix of xs closes them all. */
  ghost predicate StaysInside(d: int, xs: seq<byte>) {
    forall i :: 0 <= i <= |xs| ==> d + Nesting(xs[..i]) >= 1
  }

  lemma PlainStaysInside(d: int, xs: seq<byte>)
    requires d >= 1 && IsPlain(xs)
    ensures StaysInside(d, xs) && Nesting(xs) == 0
  {
    PlainNesting(xs);
    forall i | 0 <= i <= |xs| ensures d + Nesting(xs[..i]) >= 1 {
      PlainNesting(xs[..i]);
    }
  }

  lemma InsideConcat(d: int, xs: seq<byte>, ys: seq<byte>)
    requires StaysInside(d, xs) && StaysInside(d + Nesting(xs), ys)
    ensures StaysInside(d, xs + ys) && Nesting(xs + ys) == Nesting(xs) + Nesting(ys)
  {
    hide Nesting;
    NestingConcat(xs, ys);
    forall i | 0 <= i <= |xs + ys| ensures d + Nesting((xs + ys)[..i]) >= 1 {
      if i <= |xs| {
        assert (xs + ys)[..i] == xs[..i];
      } else {
        assert (xs + ys)[..i] == xs + ys[..i - |xs|];
        NestingConcat(xs, ys[..i - |xs|]);
      }
    }
  }

  lemma OneByteInside(d: int, b: byte)
    requires d >= 1 && d + Nesting([b]) >= 1
    ensures StaysInside(d, [b])
  {
    assert [b][..0] == [] && [b][..1] == [b];
  }

  lemma OneByteNesting(b: byte)
    ensures Nesting([b]) == if b == 123 || b == 91 then 1 else if b == 125 || b == 93 then -1 else 0
  {
    assert [b][..0] == [];
  }

  /** What stays inside one bracket and ends there, between an opening and a closing one, is balanced. */
  lemma BracketedIsBalanced(open: byte, xs: seq<byte>, close: byte)
    requires (open == 123 || open == 91) && (close == 125 || close == 93)
    requires StaysInside(1, xs) && Nesting(xs) == 0 && |xs| < 0x7fff_fff0
    ensures IsBalanced([open] + xs + [close])
  {
    hide Nesting;
    var e := [open] + xs + [close];
    OneByteNesting(open);
    OneByteNesting(close);
    NestingConcat([open], xs);
    NestingConcat([open] + xs, [close]);
    forall i | 0 < i < |e| ensures Nesting(e[..i]) >= 1 {
      assert e[..i] == [open] + xs[..i - 1];
      NestingConcat([open], xs[..i - 1]);
    }
  }

  /** An object with one array in it, and no brackets elsewhere: the shape of every line of the reference file. */
  function ReferenceLine(before: seq<byte>, items: seq<byte>, after: seq<byte>): seq<byte> {
    [123] + (before + [91] + items + [93] + after) + [125]
  }

  lemma ReferenceLineIsBalanced(before: seq<byte>, items: seq<byte>, after: seq<byte>)
    requires IsPlain(before) && IsPlain(items) && IsPlain(after)
    requires |before| + |items| + |after| < 0x7fff_ff00
    ensures IsBalanced(ReferenceLine(before, items, after))
  {
    hide Nesting, StaysInside, IsPlain;
    OneByteNesting(91);
    OneByteNesting(93);
    PlainStaysInside(1, before);
    OneByteInside(1, 91);
    InsideConcat(1, before, [91]);
    PlainStaysInside(2, items);
    InsideConcat(1, before + [91], items);
    OneByteInside(2, 93);
    InsideConcat(1, before + [91] + items, [93]);
    PlainStaysInside(1, after);
    InsideConcat(1, before + [91] + items + [93], after);
    BracketedIsBalanced(123, before + [91] + items + [93] + after, 125);
  }

  lemma JoinOfTwo(x: seq<byte>, y: seq<byte>, separator: byte)
    ensures Join([x, y], separator) == x + [separator] + y
  {
    assert [x, y][..1] == [x];
  }

  /** The bytes of a text of characters below 256. */
  function Text(text: string): (xs: seq<byte>)
    ensures |xs| == |text|
  {
    seq(|text|, i requires 0 <= i < |text| => text[i] as int % 256)
  }

  lemma TextConcat(a: string, b: string)
    ensures Text(a + b) == Text(a) + Text(b)
  {
  }

  lemma TextOfPunctuation()
    ensures Text("{") == [123] && Text("}") == [125] && Text("[") == [91] && Text("]") == [93]
    ensures Text(",") == [44] && Text(" ") == [32]
  {
  }

  predicate IsPlainText(text: string) {
    forall i :: 0 <= i < |text| ==> text[i] !in "{}[]" && text[i] as int < 256
  }

  lemma PlainTextIsPlain(text: string)
    requires IsPlainText(text)
    ensures IsPlain(Text(text))
  {
  }

  function LineText(before: string, items: string, after: string): string {
    "{" + (before + "[" + items + "]" + after) + "}"
  }

  lemma LineTextIsBalanced(before: string, items: string, after: string)
    requires IsPlainText(before) && IsPlainText(items) && IsPlainText(after)
    requires |before| + |items| + |after| < 0x7fff_ff00
    ensures IsBalanced(Text(LineText(before, items, after)))
  {
    hide Text, IsPlainText, IsPlain, IsBalanced;
    PlainTextIsPlain(before);
    PlainTextIsPlain(items);
    PlainTextIsPlain(after);
    ReferenceLineIsBalanced(Text(before), Text(items), Text(after));
    TextOfPunctuation();
    TextConcat(before, "[");
    TextConcat(before + "[", items);
    TextConcat(before + "[" + items, "]");
    TextConcat(before + "[" + items + "]", after);
    TextConcat("{", before + "[" + items + "]" + after);
    TextConcat("{" + (before + "[" + items + "]" + after), "}");
  }

  const LEGIT_LINE: string := "{\"vector\":[0,1],\"label\":\"legit\"}"
  const FRAUD_LINE: string := "{\"vector\":[1,0],\"label\":\"fraud\"}"

  lemma LegitLineParts()
    ensures LEGIT_LINE == LineText("\"vector\":", "0,1", ",\"label\":\"legit\"")
  {
  }

  lemma LegitLineIsBalanced()
    ensures IsBalanced(Text(LEGIT_LINE))
  {
    hide IsBalanced, Text, IsPlainText, LineText;
    LegitLineParts();
    LegitPartsArePlain();
    LineTextIsBalanced("\"vector\":", "0,1", ",\"label\":\"legit\"");
  }

  lemma LegitPartsArePlain()
    ensures IsPlainText("\"vector\":") && IsPlainText("0,1") && IsPlainText(",\"label\":\"legit\"")
  {
  }

  lemma FraudLineParts()
    ensures FRAUD_LINE == LineText("\"vector\":", "1,0", ",\"label\":\"fraud\"")
  {
  }

  lemma FraudLineIsBalanced()
    ensures IsBalanced(Text(FRAUD_LINE))
  {
    hide IsBalanced, Text, IsPlainText, LineText;
    FraudLineParts();
    FraudPartsArePlain();
    LineTextIsBalanced("\"vector\":", "1,0", ",\"label\":\"fraud\"");
  }

  lemma FraudPartsArePlain()
    ensures IsPlainText("\"vector\":") && IsPlainText("1,0") && IsPlainText(",\"label\":\"fraud\"")
  {
  }

  /** Two lines of the reference file: the comma between them becomes a space, the commas inside them stay. */
  lemma TwoReferenceLines()
    ensures Run(INITIAL, Text("[" + LEGIT_LINE + "," + FRAUD_LINE + "]")).bytes == Text(LEGIT_LINE + " " + FRAUD_LINE)
  {
    hide Run, Join, IsBalanced, Text, LEGIT_LINE, FRAUD_LINE;
    var x, y := LEGIT_LINE, FRAUD_LINE;
    LegitLineIsBalanced();
    FraudLineIsBalanced();
    UnwrapThenSplit([], [Text(x), Text(y)], []);
    JoinOfTwo(Text(x), Text(y), 44);
    JoinOfTwo(Text(x), Text(y), 32);
    TextOfPunctuation();
    TextConcat("[", x);
    TextConcat("[" + x, ",");
    TextConcat("[" + x + ",", y);
    TextConcat("[" + x + "," + y, "]");
    TextConcat(x, " ");
    TextConcat(x + " ", y);
    assert [] + ([91] + (Text(x) + [44] + Text(y)) + [93]) + [] == [91] + Text(x) + [44] + Text(y) + [93];
  }

  lemma PlainByteIsCopied(s: State, b: byte)
    requires s.started && !s.done && !IsOpen(b) && !IsClose(b) && b != COMMA
    ensures Step(s, b) == Output(s, [b])
  {
  }

  lemma {:induction false} PlainBytesAreCopied(s: State, xs: seq<byte>)
    requires s.started && !s.done && forall i :: 0 <= i < |xs| ==> !IsOpen(xs[i]) && !IsClose(xs[i]) && xs[i] != COMMA
    ensures Run(s, xs) == Output(s, xs)
  {
    hide Run, Step;
    if xs == [] {
      RunNothing(s);
    } else {
      var n := |xs| - 1;
      PlainBytesAreCopied(s, xs[..n]);
      PlainByteIsCopied(s, xs[n]);
      RunPush(s, xs[..n], xs[n]);
      assert xs == xs[..n] + [xs[n]];
    }
  }

  lemma UpToTheString()
    ensures Run(INITIAL, [OPEN_BRACKET, OPEN_BRACE, 34, 97, 34, 58, 34])
         == Output(State(true, 1, false), [OPEN_BRACE, 34, 97, 34, 58, 34])
  {
    hide Run;
    var name: seq<byte> := [34, 97, 34, 58, 34];
    RunNothing(INITIAL);
    RunPush(INITIAL, [], OPEN_BRACKET);
    assert [] + [OPEN_BRACKET] == [OPEN_BRACKET];
    RunPush(INITIAL, [OPEN_BRACKET], OPEN_BRACE);
    assert Run(INITIAL, [OPEN_BRACKET] + [OPEN_BRACE]) == Output(State(true, 1, false), [OPEN_BRACE]);
    PlainBytesAreCopied(State(true, 1, false), name);
    RunConcat(INITIAL, [OPEN_BRACKET] + [OPEN_BRACE], name);
    assert [OPEN_BRACKET] + [OPEN_BRACE] + name == [OPEN_BRACKET, OPEN_BRACE, 34, 97, 34, 58, 34];
  }

  /** One more byte, with the result spelled out. */
  lemma RunNext(s: State, xs: seq<byte>, r: Output, b: byte, ys: seq<byte>, next: Output)
    requires Run(s, xs) == r && ys == xs + [b]
    requires next == Output(Step(r.state, b).state, r.bytes + Step(r.state, b).bytes)
    ensures Run(s, ys) == next
  {
    RunPush(s, xs, b);
  }

  lemma FromTheString()
    ensures Run(State(true, 1, false), [CLOSE_BRACE, COMMA, 34, CLOSE_BRACE, CLOSE_BRACKET])
         == Output(FINISHED, [CLOSE_BRACE, SPACE, 34, CLOSE_BRACE])
  {
    hide Run;
    var s := State(true, 1, false);
    var in2, in4: seq<byte> := [CLOSE_BRACE, COMMA], [CLOSE_BRACE, COMMA, 34, CLOSE_BRACE];
    var out2, out3: seq<byte> := [CLOSE_BRACE, SPACE], [CLOSE_BRACE, SPACE, 34];
    RunNothing(s);
    RunNext(s, [], Output(s, []), CLOSE_BRACE, [CLOSE_BRACE], Output(TOP, [CLOSE_BRACE]));
    RunNext(s, [CLOSE_BRACE], Output(TOP, [CLOSE_BRACE]), COMMA, in2, Output(TOP, out2));
    RunNext(s, in2, Output(TOP, out2), 34, in2 + [34], Output(TOP, out3));
    RunNext(s, in2 + [34], Output(TOP, out3), CLOSE_BRACE, in4, Output(TOP, out3 + [CLOSE_BRACE]));
    RunNext(s, in4, Output(TOP, out3 + [CLOSE_BRACE]), CLOSE_BRACKET, in4 + [CLOSE_BRACKET],
            Output(FINISHED, out3 + [CLOSE_BRACE]));
    assert in4 + [CLOSE_BRACKET] == [CLOSE_BRACE, COMMA, 34, CLOSE_BRACE, CLOSE_BRACKET];
    assert out3 + [CLOSE_BRACE] == [CLOSE_BRACE, SPACE, 34, CLOSE_BRACE];
  }

  lemma JoinOfOne(e: seq<byte>, separator: byte)
    ensures Join([e], separator) == e
  {
  }

  /** A string with brackets of its own breaks the tracking: in the array of the one object {"a":"},"} the comma
    inside the string is taken for a separator, and the text that comes out is the object {"a":"} "}. */
  lemma BracketsInStringsAreCounted()
    ensures var e: seq<byte> := [OPEN_BRACE, 34, 97, 34, 58, 34, CLOSE_BRACE, COMMA, 34, CLOSE_BRACE];
      && !Passes(e)
      && Run(INITIAL, [OPEN_BRACKET] + Join([e], COMMA) + [CLOSE_BRACKET]) == Output(FINISHED, e[7 := SPACE])
  {
    hide Run, Join, Passes;
    var e: seq<byte> := [OPEN_BRACE, 34, 97, 34, 58, 34, CLOSE_BRACE, COMMA, 34, CLOSE_BRACE];
    var front: seq<byte> := [OPEN_BRACKET, OPEN_BRACE, 34, 97, 34, 58, 34];
    var rest: seq<byte> := [CLOSE_BRACE, COMMA, 34, CLOSE_BRACE, CLOSE_BRACKET];
    JoinOfOne(e, COMMA);
    JoinOfOne(e, SPACE);
    UpToTheString();
    FromTheString();
    RunConcat(INITIAL, front, rest);
    assert [OPEN_BRACKET] + e + [CLOSE_BRACKET] == front + rest;
    assert [OPEN_BRACE, 34, 97, 34, 58, 34] + [CLOSE_BRACE, SPACE, 34, CLOSE_BRACE] == e[7 := SPACE];
    UnwrapIsFaithful([e]);
    assert e[7] == COMMA && e[7 := SPACE][7] == SPACE;
    assert [e][0] == e;
  }
}
