/** The console's escape-sequence parser, one byte at a time, against a recursive reading of
    control sequences (section 5.4 of ECMA-48). */
module Ansi {
  type Byte = b: nat | b < 256

  const ESC: Byte := 0x1b
  const BRACKET: Byte := 0x5b
  const SEMICOLON: Byte := 0x3b
  const FINAL_M: Byte := 0x6d
  const MAX_PARAMS: nat := 16

  predicate IsDigit(c: Byte)
  {
    0x30 <= c <= 0x39
  }

  /** What the parser tells the console to do. */
  datatype Action =
    | Print(c: Byte)
    | Command(final: Byte, params: seq<nat>)

  datatype Mode = Text | Escape | EscapeBracket | CollectingParams

  /** `params` are the stored parameters, `cur` the one being collected. */
  datatype Parser = Parser(mode: Mode, params: seq<nat>, cur: nat)

  const START := Parser(Text, [], 0)

  /** Parameters are 16-bit numbers. */
  function PushDigit(cur: nat, c: Byte): nat
    requires IsDigit(c)
  {
    (cur * 10 + (c - 0x30)) % 0x1_0000
  }

  /** A full buffer drops further parameters. */
  function PushParam(params: seq<nat>, cur: nat): seq<nat>
  {
    if |params| < MAX_PARAMS then params + [cur] else params
  }

  function Step(p: Parser, c: Byte): (Parser, seq<Action>)
  {
    match p.mode
    case Text => if c == ESC then (p.(mode := Escape), []) else (p, [Print(c)])
    case Escape =>
      if c == BRACKET then (Parser(EscapeBracket, [], 0), [])
      else (p.(mode := Text), [Print(ESC), Print(c)])
    case _ =>
      if IsDigit(c) then (p.(mode := CollectingParams, cur := PushDigit(p.cur, c)), [])
      else
        var params := PushParam(p.params, p.cur);
        if c == SEMICOLON then (Parser(EscapeBracket, params, 0), [])
        else (Parser(Text, if c == FINAL_M then [] else params, 0), [Command(c, params)])
  }

  /** Feed a byte string, collecting what it tells the console to do. */
  function Feed(p: Parser, s: seq<Byte>): (Parser, seq<Action>)
    decreases |s|
  {
    if s == [] then (p, [])
    else
      var (p1, a) := Step(p, s[0]);
      var (p2, b) := Feed(p1, s[1..]);
      (p2, a + b)
  }

  // ----- The reference reading -----

  predicate IsBody(s: seq<Byte>)
  {
    forall i :: 0 <= i < |s| ==> IsDigit(s[i]) || s[i] == SEMICOLON
  }

  /** The length of the longest prefix of digits and semicolons. */
  function BodyLength(s: seq<Byte>): (n: nat)
    ensures n <= |s| && IsBody(s[..n])
    ensures n < |s| ==> !IsDigit(s[n]) && s[n] != SEMICOLON
  {
    if s == [] || !(IsDigit(s[0]) || s[0] == SEMICOLON) then 0
    else
      var n := BodyLength(s[1..]);
      assert s[..n + 1] == [s[0]] + s[1..][..n];
      n + 1
  }

  /** The pieces of a string between semicolons. */
  function Split(s: seq<Byte>): (r: seq<seq<Byte>>)
    ensures |r| > 0
  {
    if s == [] then [[]]
    else
      var r, c := Split(s[..|s| - 1]), s[|s| - 1];
      if c == SEMICOLON then r + [[]] else r[|r| - 1 := r[|r| - 1] + [c]]
  }

  /** Decimal value of a string of digits; an empty string counts as zero. */
  function Value(s: seq<Byte>): nat
  {
    if s == [] then 0
    else Value(s[..|s| - 1]) * 10 + if IsDigit(s[|s| - 1]) then s[|s| - 1] - 0x30 else 0
  }

  function Numbers(pieces: seq<seq<Byte>>): seq<nat>
  {
    if pieces == [] then []
    else Numbers(pieces[..|pieces| - 1]) + [Value(pieces[|pieces| - 1]) % 0x1_0000]
  }

  /** The first sixteen of a list. */
  function Kept(ns: seq<nat>): seq<nat>
  {
    if |ns| <= 16 then ns else ns[..16]
  }

  /** The parameters of a control sequence with the given body. */
  function Params(body: seq<Byte>): seq<nat>
  {
    Kept(Numbers(Split(body)))
  }

  /** A byte string as text and control sequences; an unfinished sequence at its end does nothing. */
  function Reading(s: seq<Byte>): seq<Action>
    decreases |s|
  {
    if s == [] then []
    else if s[0] != ESC then [Print(s[0])] + Reading(s[1..])
    else if |s| == 1 then []
    else if s[1] != BRACKET then [Print(ESC), Print(s[1])] + Reading(s[2..])
    else
      var n := BodyLength(s[2..]);
      if 2 + n == |s| then []
      else [Command(s[2 + n], Params(s[2..2 + n]))] + Reading(s[3 + n..])
  }

  /** Where the reading of a string stops: in text, behind an escape character, or inside a
      control sequence with the given body. */
  datatype Ending = InText | AfterEscape | InSequence(body: seq<Byte>)

  function Ends(s: seq<Byte>): Ending
    decreases |s|
  {
    if s == [] then InText
    else if s[0] != ESC then Ends(s[1..])
    else if |s| == 1 then AfterEscape
    else if s[1] != BRACKET then Ends(s[2..])
    else
      var n := BodyLength(s[2..]);
      if 2 + n == |s| then InSequence(s[2..]) else Ends(s[3 + n..])
  }

  // ----- The parser agrees with the reference -----

  /** The parser is where a reading stopped; inside a sequence it has stored what the body says. */
  predicate StoppedAt(p: Parser, e: Ending)
  {
    match e
    case InText => p.mode == Text
    case AfterEscape => p.mode == Escape
    case InSequence(body) => p == InBody(body)
  }

  lemma {:induction false} FeedConcat(p: Parser, a: seq<Byte>, b: seq<Byte>)
    ensures var (q, x) := Feed(p, a);
      var (r, y) := Feed(q, b);
      Feed(p, a + b) == (r, x + y)
    decreases |a|
  {
    if a == [] {
      assert a + b == b;
      assert [] + Feed(p, b).1 == Feed(p, b).1;
    } else {
      assert (a + b)[1..] == a[1..] + b;
      hide Step;
      var (p1, act) := Step(p, a[0]);
      FeedConcat(p1, a[1..], b);
      var (q, x) := Feed(p1, a[1..]);
      assert act + x + Feed(q, b).1 == act + (x + Feed(q, b).1);
    }
  }

  lemma FeedOne(p: Parser, c: Byte)
    ensures Feed(p, [c]) == Step(p, c)
  {
    hide Step;
    assert Feed(Step(p, c).0, []) == (Step(p, c).0, []);
    assert Step(p, c).1 + [] == Step(p, c).1;
  }

  lemma FeedTwo(p: Parser, c: Byte, d: Byte)
    ensures var (q, x) := Step(p, c);
      Feed(p, [c, d]) == (Step(q, d).0, x + Step(q, d).1)
  {
    hide Step;
    assert [c, d][1..] == [d];
    FeedOne(Step(p, c).0, d);
  }

  /** The two bytes that open a control sequence. */
  lemma FeedIntroducer(p: Parser)
    requires p.mode == Text
    ensures Feed(p, [ESC, BRACKET]) == (InBody([]), [])
  {
    FeedTwo(p, ESC, BRACKET);
    var none: seq<seq<Byte>> := Split([])[..0];
    assert none == [] && InBody([]) == Parser(EscapeBracket, [], 0);
    var actions: seq<Action> := [];
    assert actions + actions == actions;
  }

  /** The parser in the middle of a control sequence whose body so far is `body`. */
  function InBody(body: seq<Byte>): Parser
  {
    var pieces := Split(body);
    var last := pieces[|pieces| - 1];
    Parser(if last == [] then EscapeBracket else CollectingParams,
           Kept(Numbers(pieces[..|pieces| - 1])), Value(last) % 0x1_0000)
  }

  /** Storing one more parameter keeps the first sixteen. */
  lemma PushKeeps(ns: seq<nat>, x: nat)
    ensures PushParam(Kept(ns), x) == Kept(ns + [x])
  {
  }

  lemma StepInBody(body: seq<Byte>, c: Byte)
    ensures IsDigit(c) || c == SEMICOLON ==> Step(InBody(body), c) == (InBody(body + [c]), [])
    ensures !IsDigit(c) && c != SEMICOLON ==>
      Step(InBody(body), c).0.mode == Text && Step(InBody(body), c).1 == [Command(c, Params(body))]
  {
    hide Split, Numbers, Value, Kept, PushParam;
    if IsDigit(c) {
      DigitInBody(body, c);
    } else {
      StoreInBody(body);
      if c == SEMICOLON {
        SemicolonInBody(body);
      }
    }
  }

  /** What is stored when a parameter of the body ends. */
  lemma StoreInBody(body: seq<Byte>)
    ensures PushParam(InBody(body).params, InBody(body).cur) == Params(body)
  {
    var pieces := Split(body);
    var front, last := pieces[..|pieces| - 1], pieces[|pieces| - 1];
    hide Split, Value, Kept, PushParam;
    PushKeeps(Numbers(front), Value(last) % 0x1_0000);
  }

  lemma SemicolonInBody(body: seq<Byte>)
    ensures InBody(body + [SEMICOLON]) == Parser(EscapeBracket, Params(body), 0)
  {
    SplitSemicolon(body);
    hide Split;
    assert (Split(body) + [[]])[..|Split(body)|] == Split(body);
  }

  lemma DigitInBody(body: seq<Byte>, c: Byte)
    requires IsDigit(c)
    ensures InBody(body + [c]) == InBody(body).(mode := CollectingParams, cur := PushDigit(InBody(body).cur, c))
  {
    var pieces := Split(body);
    var front, last := pieces[..|pieces| - 1], pieces[|pieces| - 1];
    SplitDigits(body, [c]);
    hide Split, Numbers, Kept, Value, PushDigit;
    var next := Split(body + [c]);
    assert next[..|next| - 1] == front && next[|next| - 1] == last + [c];
    ValueOfDigit(last, c);
  }

  lemma ValueOfDigit(s: seq<Byte>, c: Byte)
    requires IsDigit(c)
    ensures Value(s + [c]) % 0x1_0000 == PushDigit(Value(s) % 0x1_0000, c)
  {
    assert (s + [c])[..|s|] == s;
    assert Value(s + [c]) == Value(s) * 10 + (c - 0x30);
    hide Value;
    DigitModulo(Value(s), c - 0x30);
  }

  lemma DigitModulo(x: nat, d: nat)
    ensures (x % 0x1_0000 * 10 + d) % 0x1_0000 == (x * 10 + d) % 0x1_0000
  {
  }

  lemma {:induction false} FeedBody(body: seq<Byte>)
    requires IsBody(body)
    ensures Feed(InBody([]), body) == (InBody(body), [])
  {
    if body != [] {
      var front, c := body[..|body| - 1], body[|body| - 1];
      assert body == front + [c];
      FeedBody(front);
      FeedConcat(InBody([]), front, [c]);
      StepInBody(front, c);
      FeedOne(InBody(front), c);
    }
  }

  /** A whole control sequence: its parameters and its final byte come out as one command. */
  lemma FeedSequence(params: seq<nat>, cur: nat, body: seq<Byte>, final: Byte)
    requires IsBody(body) && !IsDigit(final) && final != SEMICOLON
    ensures var (q, x) := Feed(Parser(Text, params, cur), [ESC, BRACKET] + body + [final]);
      q.mode == Text && x == [Command(final, Params(body))]
  {
    var p := Parser(Text, params, cur);
    hide Feed, Step, InBody, Params, IsBody;
    FeedIntroducer(p);
    FeedBody(body);
    FeedConcat(p, [ESC, BRACKET], body);
    FeedConcat(p, [ESC, BRACKET] + body, [final]);
    StepInBody(body, final);
    FeedOne(InBody(body), final);
  }

  /** For every byte string the parser does what the reference reading says. */
  lemma {:induction false} FeedAgreesWithReading(p: Parser, s: seq<Byte>)
    requires p.mode == Text
    ensures Feed(p, s).1 == Reading(s)
    decreases |s|
  {
    hide BodyLength, Params, InBody;
    if s == [] {
    } else if s[0] != ESC {
      assert Step(p, s[0]) == (p, [Print(s[0])]);
      FeedAgreesWithReading(p, s[1..]);
    } else if |s| == 1 {
      assert s == [ESC];
      FeedOne(p, ESC);
    } else {
      var n := if s[1] != BRACKET then 2 else BodyLength(s[2..]) + 3;
      if s[1] != BRACKET {
        FeedTwo(p, ESC, s[1]);
        assert s[..2] == [ESC, s[1]];
      } else {
        ControlSequenceAgrees(p, s);
      }
      hide Feed, Step;
      if n <= |s| {
        assert s == s[..n] + s[n..];
        FeedConcat(p, s[..n], s[n..]);
        FeedAgreesWithReading(Feed(p, s[..n]).0, s[n..]);
      }
    }
  }

  lemma ControlSequenceAgrees(p: Parser, s: seq<Byte>)
    requires p.mode == Text && |s| >= 2 && s[0] == ESC && s[1] == BRACKET
    ensures var n := BodyLength(s[2..]);
      if 2 + n == |s| then Feed(p, s) == (InBody(s[2..]), [])
      else Feed(p, s[..3 + n]).0.mode == Text && Feed(p, s[..3 + n]).1 == [Command(s[2 + n], Params(s[2..2 + n]))]
  {
    hide Feed, Step, InBody, Params, IsBody;
    var n := BodyLength(s[2..]);
    var body := s[2..2 + n];
    assert body == s[2..][..n];
    if 2 + n == |s| {
      assert s == [ESC, BRACKET] + body && body == s[2..];
      FeedBody(body);
      FeedConcat(p, [ESC, BRACKET], body);
      FeedIntroducer(p);
      var none: seq<Action> := [];
      assert none + none == none;
    } else {
      assert s[2 + n] == s[2..][n];
      assert s[..3 + n] == [ESC, BRACKET] + body + [s[2 + n]];
      FeedSequence(p.params, p.cur, body, s[2 + n]);
    }
  }

  /** For every byte string the parser stops where the reference reading stops. */
  lemma {:induction false} FeedStopsWithReading(p: Parser, s: seq<Byte>)
    requires p.mode == Text
    ensures StoppedAt(Feed(p, s).0, Ends(s))
    decreases |s|
  {
    hide BodyLength, Params, InBody, Reading;
    if s == [] {
    } else if s[0] != ESC {
      assert Step(p, s[0]) == (p, [Print(s[0])]);
      FeedStopsWithReading(p, s[1..]);
    } else if |s| == 1 {
      assert s == [ESC];
      FeedOne(p, ESC);
    } else {
      hide StoppedAt;
      var n := if s[1] != BRACKET then 2 else BodyLength(s[2..]) + 3;
      if s[1] != BRACKET {
        FeedTwo(p, ESC, s[1]);
        assert s[..2] == [ESC, s[1]];
      } else {
        ControlSequenceAgrees(p, s);
        if |s| < n {
          StoppedInBody(s[2..]);
        }
      }
      if n <= |s| {
        assert s == s[..n] + s[n..];
        FeedConcat(p, s[..n], s[n..]);
        FeedStopsWithReading(Feed(p, s[..n]).0, s[n..]);
      }
    }
  }

  lemma StoppedInBody(body: seq<Byte>)
    ensures StoppedAt(InBody(body), InSequence(body))
  {
  }

  // ----- Rendering and reading back -----

  /** The decimal digits of a number. */
  function Decimal(n: nat): seq<Byte>
  {
    if n < 10 then [0x30 + n] else Decimal(n / 10) + [0x30 + n % 10]
  }

  function Join(ns: seq<nat>): seq<Byte>
    requires ns != []
  {
    if |ns| == 1 then Decimal(ns[0])
    else Join(ns[..|ns| - 1]) + [SEMICOLON] + Decimal(ns[|ns| - 1])
  }

  predicate AllDigits(s: seq<Byte>)
  {
    forall i :: 0 <= i < |s| ==> IsDigit(s[i])
  }

  lemma {:induction false} DecimalValue(n: nat)
    ensures AllDigits(Decimal(n)) && Value(Decimal(n)) == n
  {
    if n < 10 {
      assert Decimal(n)[..0] == [];
    } else {
      DecimalValue(n / 10);
      assert Decimal(n)[..|Decimal(n)| - 1] == Decimal(n / 10);
    }
  }

  /** Digits extend the last piece. */
  lemma {:induction false} SplitDigits(s: seq<Byte>, d: seq<Byte>)
    requires AllDigits(d)
    ensures var r := Split(s);
      Split(s + d) == r[|r| - 1 := r[|r| - 1] + d]
  {
    var r := Split(s);
    if d == [] {
      assert s + d == s;
      assert r[|r| - 1] + d == r[|r| - 1];
    } else {
      var front, c := d[..|d| - 1], d[|d| - 1];
      SplitDigits(s, front);
      assert (s + d)[..|s + d| - 1] == s + front;
      assert r[|r| - 1] + front + [c] == r[|r| - 1] + d by {
        assert front + [c] == d;
      }
    }
  }

  lemma SplitEmpty()
    ensures Split([]) == [[]]
  {
  }

  lemma SplitSemicolon(s: seq<Byte>)
    ensures Split(s + [SEMICOLON]) == Split(s) + [[]]
  {
    assert (s + [SEMICOLON])[..|s|] == s;
  }

  /** A semicolon and digits are one more piece. */
  lemma SplitAppend(s: seq<Byte>, d: seq<Byte>)
    requires AllDigits(d)
    ensures Split(s + [SEMICOLON] + d) == Split(s) + [d]
  {
    SplitSemicolon(s);
    SplitDigits(s + [SEMICOLON], d);
    hide Split, AllDigits;
    assert [] + d == d;
  }

  lemma {:induction false} JoinIsBody(ns: seq<nat>)
    requires ns != []
    ensures IsBody(Join(ns))
  {
    hide Decimal;
    DecimalValue(ns[|ns| - 1]);
    if |ns| > 1 {
      JoinIsBody(ns[..|ns| - 1]);
    }
  }

  lemma {:induction false} SplitJoin(ns: seq<nat>)
    requires ns != []
    ensures |Split(Join(ns))| == |ns|
    ensures forall i :: 0 <= i < |ns| ==> Split(Join(ns))[i] == Decimal(ns[i])
  {
    hide Split, Decimal, AllDigits;
    var last := Decimal(ns[|ns| - 1]);
    DecimalValue(ns[|ns| - 1]);
    if |ns| == 1 {
      SplitEmpty();
      SplitDigits([], last);
      assert [] + last == last;
    } else {
      SplitJoin(ns[..|ns| - 1]);
      SplitAppend(Join(ns[..|ns| - 1]), last);
    }
  }

  lemma {:induction false} NumbersOfDecimals(pieces: seq<seq<Byte>>, ns: seq<nat>)
    requires |pieces| == |ns|
    requires forall i :: 0 <= i < |ns| ==> pieces[i] == Decimal(ns[i]) && ns[i] < 0x1_0000
    ensures Numbers(pieces) == ns
  {
    if ns != [] {
      NumbersOfDecimals(pieces[..|ns| - 1], ns[..|ns| - 1]);
      DecimalValue(ns[|ns| - 1]);
      assert ns == ns[..|ns| - 1] + [ns[|ns| - 1]];
    }
  }

  /** Any non-empty list of 16-bit numbers, written out as a control sequence, is read back as
      that list, or as its first sixteen members. */
  lemma ParametersRoundTrip(ns: seq<nat>, final: Byte, p: Parser)
    requires ns != [] && (forall i :: 0 <= i < |ns| ==> ns[i] < 0x1_0000)
    requires !IsDigit(final) && final != SEMICOLON && p.mode == Text
    ensures Feed(p, [ESC, BRACKET] + Join(ns) + [final]).1 == [Command(final, Kept(ns))]
  {
    JoinIsBody(ns);
    SplitJoin(ns);
    NumbersOfDecimals(Split(Join(ns)), ns);
    FeedSequence(p.params, p.cur, Join(ns), final);
  }
}
