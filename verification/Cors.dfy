// proxy/gas_relay.go: gasInjectCORS and gasExtractBody.
module Cors {
  import opened Options
  import opened Strings

  // ---------------------------------------------------------------------------
  // Lines
  // ---------------------------------------------------------------------------

  predicate StartsCrlf(s: string) {
    |s| >= 2 && s[0] == '\r' && s[1] == '\n'
  }

  const CRLF: string := "\r\n"

  /** One character in front of lines. */
  function PushLine(c: char, r: seq<string>): (t: seq<string>)
    requires |r| >= 1
    ensures |t| >= 1 && t[0] == [c] + r[0] && t[1..] == r[1..]
  {
    [[c] + r[0]] + r[1..]
  }

  function Lines(s: string): (r: seq<string>)
    ensures |r| >= 1
  {
    if s == "" then [""]
    else if StartsCrlf(s) then [""] + Lines(s[2..])
    else PushLine(s[0], Lines(s[1..]))
  }

  function JoinLines(ls: seq<string>): string {
    if ls == [] then "" else if |ls| == 1 then ls[0] else ls[0] + CRLF + JoinLines(ls[1..])
  }

  predicate OneLine(s: string) {
    forall i :: 0 <= i < |s| - 1 ==> !(s[i] == '\r' && s[i + 1] == '\n')
  }

  predicate AllOneLine(ls: seq<string>) {
    forall i :: 0 <= i < |ls| ==> OneLine(ls[i])
  }

  lemma JoinPush(c: char, r: seq<string>, t: seq<string>)
    requires |t| == |r| >= 1 && t[0] == [c] + r[0] && t[1..] == r[1..]
    ensures JoinLines(t) == [c] + JoinLines(r)
  {
    if |r| > 1 {
      Associate([c], r[0], CRLF + JoinLines(r[1..]));
      Associate(r[0], CRLF, JoinLines(r[1..]));
      Associate([c] + r[0], CRLF, JoinLines(r[1..]));
    }
  }

  lemma Associate(a: string, b: string, c: string)
    ensures (a + b) + c == a + (b + c)
  {
  }

  lemma {:induction false} LinesJoin(s: string)
    ensures JoinLines(Lines(s)) == s
    decreases |s|
  {
    if s == "" {
    } else if StartsCrlf(s) {
      LinesJoin(s[2..]);
      var r := Lines(s[2..]);
      assert ([""] + r)[1..] == r;
      assert s == CRLF + s[2..];
    } else {
      LinesJoin(s[1..]);
      JoinPush(s[0], Lines(s[1..]), Lines(s));
      assert s == [s[0]] + s[1..];
    }
  }

  /** The first line of s is how s starts. */
  lemma {:induction false} FirstLineIsPrefix(s: string)
    ensures Lines(s)[0] <= s
    decreases |s|
  {
    if s != "" && !StartsCrlf(s) {
      FirstLineIsPrefix(s[1..]);
      assert s == [s[0]] + s[1..];
    }
  }

  lemma {:induction false} LinesAreLines(s: string)
    ensures AllOneLine(Lines(s))
    decreases |s|
  {
    if s == "" {
    } else if StartsCrlf(s) {
      LinesAreLines(s[2..]);
    } else {
      LinesAreLines(s[1..]);
      FirstLineIsPrefix(s[1..]);
      var r := Lines(s[1..]);
      assert r[0] != "" ==> s[1..][0] == r[0][0];
      PushedLine(s[0], r[0]);
    }
  }

  lemma PushedLine(c: char, l: string)
    requires OneLine(l) && !(c == '\r' && l != "" && l[0] == '\n')
    ensures OneLine([c] + l)
  {
  }

  lemma {:induction false} JoinLinesConcat(a: seq<string>, b: seq<string>)
    requires a != [] && b != []
    ensures JoinLines(a + b) == JoinLines(a) + CRLF + JoinLines(b)
  {
    if |a| == 1 {
      assert (a + b)[1..] == b;
    } else {
      JoinLinesConcat(a[1..], b);
      assert (a + b)[1..] == a[1..] + b;
    }
  }

  /** A line in front of text that is itself a line end, or nothing. */
  lemma {:induction false} LinesOfLine(l: string, rest: string)
    requires OneLine(l) && (rest == "" || StartsCrlf(rest))
    ensures Lines(l + rest) == [l] + (if rest == "" then [] else Lines(rest[2..]))
    decreases |l|
  {
    if l == "" {
      assert l + rest == rest;
    } else {
      LinesOfLine(l[1..], rest);
      LinesOfChar(l, rest);
      var more := if rest == "" then [] else Lines(rest[2..]);
      assert l == [l[0]] + l[1..];
      assert ([l[1..]] + more)[1..] == more;
    }
  }

  lemma LinesOfChar(l: string, rest: string)
    requires l != "" && OneLine(l) && (rest == "" || StartsCrlf(rest))
    ensures Lines(l + rest) == PushLine(l[0], Lines(l[1..] + rest))
  {
    assert (l + rest)[1..] == l[1..] + rest;
    assert !StartsCrlf(l + rest);
  }

  lemma {:induction false} LinesOfJoin(ls: seq<string>)
    requires ls != [] && AllOneLine(ls)
    ensures Lines(JoinLines(ls)) == ls
  {
    if |ls| == 1 {
      LinesOfLine(ls[0], "");
      assert ls[0] + "" == ls[0];
    } else {
      LinesOfJoin(ls[1..]);
      LinesOfTwo(ls[0], JoinLines(ls[1..]));
      assert ls == [ls[0]] + ls[1..];
    }
  }

  lemma LinesOfTwo(l: string, more: string)
    requires OneLine(l)
    ensures Lines(l + CRLF + more) == [l] + Lines(more)
  {
    var rest := CRLF + more;
    assert rest[2..] == more;
    LinesOfLine(l, rest);
    assert l + rest == l + CRLF + more;
  }

  // ---------------------------------------------------------------------------
  // Where the header ends
  // ---------------------------------------------------------------------------

  predicate StartsBlank(s: string) {
    StartsCrlf(s) && StartsCrlf(s[2..])
  }

  /** The first blank line, or -1. */
  function HeadEnd(s: string): (i: int)
    ensures i >= 0 ==> i + 4 <= |s| && StartsBlank(s[i..])
    ensures i >= -1
  {
    if s == "" then -1
    else if StartsBlank(s) then 0
    else var r := HeadEnd(s[1..]); if r < 0 then -1 else
      assert s[1..][r..] == s[r + 1..];
      r + 1
  }

  function ExtractBody(resp: string): Option<string> {
    var i := HeadEnd(resp);
    if i < 0 then None else Some(resp[i + 4..])
  }

  /** The first empty line behind the first line, or the number of lines. */
  function FirstEmpty(ls: seq<string>): (k: nat)
    requires ls != []
    ensures 1 <= k <= |ls|
    ensures k < |ls| ==> ls[k] == ""
    ensures forall j :: 1 <= j < k ==> ls[j] != ""
  {
    if |ls| == 1 || ls[1] == "" then 1 else 1 + FirstEmpty(ls[1..])
  }

  /** The lines, a blank line and a body. */
  function Message(ls: seq<string>, body: string): string {
    JoinLines(ls) + (CRLF + CRLF) + body
  }

  /** What follows the first line. */
  function Tail(ls: seq<string>, body: string): (t: string)
    requires ls != []
    ensures StartsCrlf(t)
  {
    if |ls| == 1 then CRLF + (CRLF + body) else CRLF + Message(ls[1..], body)
  }

  lemma FirstLineThenTail(ls: seq<string>, body: string)
    requires ls != []
    ensures Message(ls, body) == ls[0] + Tail(ls, body)
    ensures Tail(ls, body)[2..] == if |ls| == 1 then CRLF + body else Message(ls[1..], body)
  {
  }

  lemma NotCrlf(l: string, rest: string)
    requires l != "" && OneLine(l) && StartsCrlf(rest)
    ensures !StartsCrlf(l + rest)
  {
  }

  lemma NoBlankInLine(l: string, rest: string)
    requires l != "" && OneLine(l) && StartsCrlf(rest)
    ensures HeadEnd(l + rest) == if HeadEnd(l[1..] + rest) < 0 then -1 else 1 + HeadEnd(l[1..] + rest)
  {
    var s := l + rest;
    assert s[1..] == l[1..] + rest;
    assert !StartsCrlf(s);
  }

  /** A line end in front of something that is not one. */
  lemma NoBlankHere(m: string)
    requires !StartsCrlf(m)
    ensures HeadEnd(CRLF + m) == if HeadEnd(m) < 0 then -1 else 2 + HeadEnd(m)
  {
    var s := CRLF + m;
    assert s[2..] == m && s[1..][1..] == m;
  }

  lemma BlankHere(m: string)
    requires StartsCrlf(m)
    ensures HeadEnd(CRLF + m) == 0
  {
    assert (CRLF + m)[2..] == m;
  }

  /** The header of a message ends before its first empty line: at the end of the lines if there is none. */
  lemma {:induction false} HeadEndOfMessage(ls: seq<string>, body: string)
    requires ls != [] && AllOneLine(ls)
    ensures HeadEnd(Message(ls, body)) == |JoinLines(ls[..FirstEmpty(ls)])|
    decreases |ls|, |ls[0]|
  {
    if ls[0] != "" {
      HeadEndOfMessage([ls[0][1..]] + ls[1..], body);
      HeadEndSkipsChar(ls, body);
    } else if |ls| == 1 {
      FirstLineThenTail(ls, body);
      BlankHere(CRLF + body);
      assert ls[..1] == [""];
    } else {
      HeadEndOfMessage(ls[1..], body);
      HeadEndSkipsLine(ls, body);
    }
  }

  lemma HeadEndSkipsChar(ls: seq<string>, body: string)
    requires ls != [] && AllOneLine(ls) && ls[0] != ""
    requires var shorter := [ls[0][1..]] + ls[1..];
      HeadEnd(Message(shorter, body)) == |JoinLines(shorter[..FirstEmpty(shorter)])|
    ensures HeadEnd(Message(ls, body)) == |JoinLines(ls[..FirstEmpty(ls)])|
  {
    var shorter := [ls[0][1..]] + ls[1..];
    assert shorter[1..] == ls[1..];
    FirstLineThenTail(ls, body);
    FirstLineThenTail(shorter, body);
    NoBlankInLine(ls[0], Tail(ls, body));
    ShorterFirstLine(ls);
  }

  lemma HeadEndSkipsLine(ls: seq<string>, body: string)
    requires |ls| >= 2 && AllOneLine(ls) && ls[0] == ""
    requires HeadEnd(Message(ls[1..], body)) == |JoinLines(ls[1..][..FirstEmpty(ls[1..])])|
    ensures HeadEnd(Message(ls, body)) == |JoinLines(ls[..FirstEmpty(ls)])|
  {
    var m := Message(ls[1..], body);
    FirstLineThenTail(ls, body);
    FirstLineThenTail(ls[1..], body);
    assert Message(ls, body) == CRLF + m;
    EmptyFirstLine(ls);
    if ls[1] == "" {
      BlankHere(m);
    } else {
      NotCrlf(ls[1], Tail(ls[1..], body));
      NoBlankHere(m);
    }
  }

  lemma EmptyFirstLine(ls: seq<string>)
    requires |ls| >= 2 && ls[0] == ""
    ensures var k := FirstEmpty(ls);
      |JoinLines(ls[..k])| == if ls[1] == "" then 0 else 2 + |JoinLines(ls[1..][..FirstEmpty(ls[1..])])|
  {
    var k := FirstEmpty(ls);
    if ls[1] == "" {
      assert ls[..1] == [""];
    } else {
      assert ls[..k][1..] == ls[1..][..k - 1];
    }
  }

  lemma ShorterFirstLine(ls: seq<string>)
    requires ls != [] && ls[0] != ""
    ensures var shorter := [ls[0][1..]] + ls[1..];
      && FirstEmpty(shorter) == FirstEmpty(ls)
      && |JoinLines(ls[..FirstEmpty(ls)])| == 1 + |JoinLines(shorter[..FirstEmpty(ls)])|
  {
    hide FirstEmpty, JoinLines;
    var shorter := [ls[0][1..]] + ls[1..];
    var k := FirstEmpty(ls);
    FirstEmptyIs(shorter, k);
    assert ls[..k][1..] == shorter[..k][1..];
    assert ls[0] == [ls[0][0]] + shorter[0];
    JoinPush(ls[0][0], shorter[..k], ls[..k]);
  }

  lemma FirstEmptyIs(ls: seq<string>, k: nat)
    requires ls != [] && 1 <= k <= |ls| && (k < |ls| ==> ls[k] == "")
    requires forall j :: 1 <= j < k ==> ls[j] != ""
    ensures FirstEmpty(ls) == k
  {
    var f := FirstEmpty(ls);
    assert !(f < k) && !(k < f);
  }

  lemma {:induction false} LongerHead(ls: seq<string>, k: nat)
    requires 1 <= k < |ls|
    ensures |JoinLines(ls[..k])| < |JoinLines(ls)|
  {
    assert ls == ls[..k] + ls[k..];
    JoinLinesConcat(ls[..k], ls[k..]);
  }

  /** Reading a message back: lines without an empty one behind the first, then the body. */
  lemma HeadOfResponse(resp: string)
    requires HeadEnd(resp) >= 0
    ensures var i := HeadEnd(resp);
      var ls := Lines(resp[..i]);
      && AllOneLine(ls) && JoinLines(ls) == resp[..i]
      && resp == Message(ls, resp[i + 4..])
      && FirstEmpty(ls) == |ls|
  {
    var i := HeadEnd(resp);
    var ls := Lines(resp[..i]);
    LinesJoin(resp[..i]);
    LinesAreLines(resp[..i]);
    Reassembled(resp, i);
    HeadEndOfMessage(ls, resp[i + 4..]);
    if FirstEmpty(ls) < |ls| {
      LongerHead(ls, FirstEmpty(ls));
    }
  }

  lemma Reassembled(resp: string, i: nat)
    requires i + 4 <= |resp| && StartsBlank(resp[i..])
    ensures resp == resp[..i] + (CRLF + CRLF) + resp[i + 4..]
  {
    assert resp[i..][..4] == CRLF + CRLF;
    assert resp[i..i + 4] == resp[i..][..4];
  }

  /** A message without an empty line behind the first gives its body back, and only such a message does. */
  lemma BodyOfMessageIff(ls: seq<string>, body: string)
    requires ls != [] && AllOneLine(ls)
    ensures ExtractBody(Message(ls, body)) == Some(body) <==> FirstEmpty(ls) == |ls|
    ensures FirstEmpty(ls) == |ls| ==> HeadEnd(Message(ls, body)) == |JoinLines(ls)|
  {
    var k := FirstEmpty(ls);
    var m := Message(ls, body);
    HeadEndOfMessage(ls, body);
    if k < |ls| {
      LongerHead(ls, k);
      assert |m[HeadEnd(m) + 4..]| > |body|;
    } else {
      assert ls[..k] == ls;
      assert m[|JoinLines(ls)| + 4..] == body;
    }
  }

  // ---------------------------------------------------------------------------
  // Injecting the headers
  // ---------------------------------------------------------------------------

  const ORIGIN_FIELD: string := "Access-Control-Allow-Origin: "
  const METHODS_FIELD: string := "Access-Control-Allow-Methods: "
  const METHODS: string := "GET, POST, PUT, DELETE, PATCH, OPTIONS"
  const FIXED_LINES: seq<string> := [
    "Access-Control-Allow-Credentials: true",
    METHODS_FIELD + METHODS,
    "Access-Control-Allow-Headers: *",
    "Access-Control-Expose-Headers: *",
    "Vary: Origin"]

  predicate IsCors(line: string) {
    HasPrefix(Lower(line), "access-control-")
  }

  /** Exactly the lines that begin with access-control-, in small or capital letters. */
  lemma IsCorsIff(line: string)
    ensures IsCors(line) <==> StartsFold(line, "access-control-")
  {
    LowerStartsIff(line, "access-control-");
  }

  /** The lines that are not access-control lines, in their order. */
  function Kept(ls: seq<string>): seq<string> {
    if ls == [] then [] else Kept(ls[..|ls| - 1]) + if IsCors(ls[|ls| - 1]) then [] else [ls[|ls| - 1]]
  }

  function AllowOrigin(origin: string): string {
    if origin == "" then "*" else origin
  }

  function NewLines(ls: seq<string>, origin: string): seq<string> {
    Kept(ls) + [ORIGIN_FIELD + AllowOrigin(origin)] + FIXED_LINES
  }

  function Inject(resp: string, origin: string): string {
    var i := HeadEnd(resp);
    if i < 0 then resp else Message(NewLines(Lines(resp[..i]), origin), resp[i + 4..])
  }

  method GasInjectCORS(response: string, origin: string) returns (out: string)
    ensures out == Inject(response, origin)
  {
    var idx := HeadEnd(response);
    if idx < 0 {
      return response;
    }
    var head := response[..idx];
    var body := response[idx + 4..];
    var lines := Lines(head);
    var filtered: seq<string> := [];
    for i := 0 to |lines|
      invariant filtered == Kept(lines[..i])
    {
      assert lines[..i + 1][..i] == lines[..i];
      if !IsCors(lines[i]) {
        filtered := filtered + [lines[i]];
      }
    }
    assert lines[..|lines|] == lines;
    var allowOrigin := origin;
    if allowOrigin == "" {
      allowOrigin := "*";
    }
    filtered := filtered + [ORIGIN_FIELD + allowOrigin] + FIXED_LINES;
    return JoinLines(filtered) + (CRLF + CRLF) + body;
  }

  lemma KeptLast(ls: seq<string>, front: seq<string>, l: string)
    requires ls == front + [l]
    ensures Kept(ls) == Kept(front) + if IsCors(l) then [] else [l]
  {
    assert ls[..|ls| - 1] == front;
  }

  lemma AssociateLines(a: seq<string>, b: seq<string>, c: seq<string>)
    ensures (a + b) + c == a + (b + c)
  {
  }

  lemma {:induction false} KeptAppend(a: seq<string>, b: seq<string>)
    ensures Kept(a + b) == Kept(a) + Kept(b)
    decreases |b|
  {
    if b == [] {
      assert a + b == a && Kept(a) + [] == Kept(a);
    } else {
      var n := |b| - 1;
      KeptAppend(a, b[..n]);
      KeptLast(a + b, a + b[..n], b[n]);
      KeptLast(b, b[..n], b[n]);
      AssociateLines(Kept(a), Kept(b[..n]), if IsCors(b[n]) then [] else [b[n]]);
    }
  }

  lemma {:induction false} KeptNonEmpty(ls: seq<string>)
    requires ls != [] && FirstEmpty(ls) == |ls| && AllOneLine(ls)
    ensures AllOneLine(Kept(ls)) && forall j :: 1 <= j < |Kept(ls)| ==> Kept(ls)[j] != ""
    decreases |ls|
  {
    var n := |ls| - 1;
    if n == 0 {
      assert ls[..0] == [];
      assert Kept(ls[..0]) == [];
    } else {
      FirstEmptyIs(ls[..n], n);
      KeptNonEmpty(ls[..n]);
      assert ls[n] != "";
    }
  }

  lemma MethodsHaveNoCr()
    ensures '\r' !in METHODS_FIELD + METHODS
  {
    assert '\r' !in METHODS_FIELD && '\r' !in METHODS;
  }

  lemma FixedLinesAreLines()
    ensures |FIXED_LINES| == 5 && AllOneLine(FIXED_LINES) && forall i :: 0 <= i < 5 ==> FIXED_LINES[i] != ""
  {
    hide OneLine;
    MethodsHaveNoCr();
    assert '\r' !in FIXED_LINES[0] && '\r' !in FIXED_LINES[2] && '\r' !in FIXED_LINES[3] && '\r' !in FIXED_LINES[4];
    forall i | 0 <= i < 5 ensures OneLine(FIXED_LINES[i]) {
      NoCrIsOneLine(FIXED_LINES[i]);
    }
  }

  lemma NoCrIsOneLine(s: string)
    requires '\r' !in s
    ensures OneLine(s)
  {
    assert forall i :: 0 <= i < |s| ==> s[i] in s;
  }

  lemma FieldHasNoCr()
    ensures '\r' !in ORIGIN_FIELD && ORIGIN_FIELD != ""
  {
  }

  lemma {:induction false} LinesWithPrefix(p: string, s: string)
    requires '\r' !in p
    ensures Lines(p + s) == [p + Lines(s)[0]] + Lines(s)[1..]
  {
    if p == "" {
      assert p + s == s && p + Lines(s)[0] == Lines(s)[0];
    } else {
      LinesWithPrefix(p[1..], s);
      assert (p + s)[1..] == p[1..] + s;
      assert p[0] in p;
      assert !StartsCrlf(p + s);
      assert [p[0]] + (p[1..] + Lines(s)[0]) == p + Lines(s)[0];
    }
  }

  /** The header lines a reader finds after the injection, whatever the origin contains. */
  function RealLines(ls: seq<string>, origin: string): seq<string> {
    Kept(ls) + (Lines(ORIGIN_FIELD + AllowOrigin(origin)) + FIXED_LINES)
  }

  lemma JoinFront(front: seq<string>, a: seq<string>, b: seq<string>)
    requires a != [] && b != [] && JoinLines(a) == JoinLines(b)
    ensures JoinLines(front + a) == JoinLines(front + b)
  {
    if front == [] {
      assert front + a == a && front + b == b;
    } else {
      JoinLinesConcat(front, a);
      JoinLinesConcat(front, b);
    }
  }

  lemma RealLinesJoin(ls: seq<string>, origin: string)
    ensures JoinLines(RealLines(ls, origin)) == JoinLines(NewLines(ls, origin))
  {
    var line := ORIGIN_FIELD + AllowOrigin(origin);
    FixedLinesAreLines();
    LinesJoin(line);
    JoinLinesConcat(Lines(line), FIXED_LINES);
    JoinLinesConcat([line], FIXED_LINES);
    JoinFront(Kept(ls), Lines(line) + FIXED_LINES, [line] + FIXED_LINES);
    assert Kept(ls) + ([line] + FIXED_LINES) == NewLines(ls, origin);
  }

  /** No line of the origin behind its first is empty: no CRLF CRLF inside it, and no CRLF at its end. */
  predicate NoEmptyLine(origin: string) {
    FirstEmpty(Lines(AllowOrigin(origin))) == |Lines(AllowOrigin(origin))|
  }

  lemma OriginLines(origin: string)
    ensures var r := Lines(ORIGIN_FIELD + AllowOrigin(origin));
      AllOneLine(r) && r[0] != "" && FirstEmpty(r) == FirstEmpty(Lines(AllowOrigin(origin)))
        && |r| == |Lines(AllowOrigin(origin))|
  {
    var o := AllowOrigin(origin);
    FieldHasNoCr();
    LinesWithPrefix(ORIGIN_FIELD, o);
    LinesAreLines(ORIGIN_FIELD + o);
    FirstEmptyIs(Lines(ORIGIN_FIELD + o), FirstEmpty(Lines(o)));
  }

  /** Lines in the middle decide where the first empty line is, when the ones around them are not empty. */
  lemma FirstEmptyAround(front: seq<string>, mid: seq<string>, back: seq<string>)
    requires mid != [] && mid[0] != ""
    requires (forall j :: 1 <= j < |front| ==> front[j] != "") && (forall j :: 0 <= j < |back| ==> back[j] != "")
    ensures FirstEmpty(front + (mid + back)) == |front + (mid + back)| <==> FirstEmpty(mid) == |mid|
  {
    var all := front + (mid + back);
    var k := FirstEmpty(mid);
    if k < |mid| {
      assert all[|front| + k] == "";
    } else {
      FirstEmptyIs(all, |all|);
    }
  }

  lemma RealLinesShape(ls: seq<string>, origin: string)
    requires ls != [] && FirstEmpty(ls) == |ls| && AllOneLine(ls)
    ensures var r := RealLines(ls, origin);
      && r != [] && AllOneLine(r)
      && (FirstEmpty(r) == |r| <==> NoEmptyLine(origin))
  {
    var mid := Lines(ORIGIN_FIELD + AllowOrigin(origin));
    KeptNonEmpty(ls);
    FixedLinesAreLines();
    OriginLines(origin);
    FirstEmptyAround(Kept(ls), mid, FIXED_LINES);
  }

  /** The body survives the injection exactly when the origin holds no empty line. */
  lemma BodySurvivesIff(resp: string, origin: string)
    requires HeadEnd(resp) >= 0
    ensures ExtractBody(Inject(resp, origin)) == ExtractBody(resp) <==> NoEmptyLine(origin)
  {
    var i := HeadEnd(resp);
    var ls := Lines(resp[..i]);
    HeadOfResponse(resp);
    RealLinesJoin(ls, origin);
    RealLinesShape(ls, origin);
    BodyOfMessageIff(RealLines(ls, origin), resp[i + 4..]);
  }

  /** An origin with an empty line in it cuts the header short. */
  lemma EmptyLineSpoilsBody()
    ensures ExtractBody(Inject("H\r\n\r\nB", "x\r\n\r\ny")) != ExtractBody("H\r\n\r\nB") == Some("B")
  {
    var resp, o := "H\r\n\r\nB", "x\r\n\r\ny";
    LinesOfTwo("x", CRLF + "y");
    LinesOfTwo("", "y");
    assert o == "x" + CRLF + (CRLF + "y") && "" + CRLF + "y" == CRLF + "y";
    assert Lines(o)[1] == "";
    BlankHere(CRLF + "B");
    assert resp[1..] == CRLF + (CRLF + "B") && !StartsCrlf(resp);
    assert HeadEnd(resp) == 1 && resp[5..] == "B";
    BodySurvivesIff(resp, o);
  }

  /** An origin of one line never spoils the body. */
  lemma OneLineOrigin(origin: string)
    requires OneLine(origin)
    ensures NoEmptyLine(origin) && Lines(AllowOrigin(origin)) == [AllowOrigin(origin)]
  {
    var o := AllowOrigin(origin);
    LinesOfLine(o, "");
    assert o + "" == o;
  }

  /**
   * With an origin of one line the header keeps every other line in its order, loses every access-control line it
   * had, and ends with the new ones; the body stays.
   */
  lemma HeaderLinesAfter(resp: string, origin: string)
    requires OneLine(origin) && HeadEnd(resp) >= 0
    ensures var out := Inject(resp, origin);
      && HeadEnd(out) >= 0
      && Lines(out[..HeadEnd(out)]) ==
           Kept(Lines(resp[..HeadEnd(resp)])) + [ORIGIN_FIELD + AllowOrigin(origin)] + FIXED_LINES
      && ExtractBody(out) == ExtractBody(resp)
    ensures forall l <- Kept(Lines(resp[..HeadEnd(resp)])) :: !StartsFold(l, "access-control-")
    ensures AllowOrigin(origin) == if origin == "" then "*" else origin
  {
    hide StartsFold;
    forall l | l in Kept(Lines(resp[..HeadEnd(resp)])) ensures !StartsFold(l, "access-control-") {
      KeptIsTheRest(Lines(resp[..HeadEnd(resp)]), l);
      assert l in multiset(Kept(Lines(resp[..HeadEnd(resp)])));
    }
    var i := HeadEnd(resp);
    HeadOfResponse(resp);
    NewLinesShape(Lines(resp[..i]), origin);
    MessageLines(NewLines(Lines(resp[..i]), origin), resp[i + 4..]);
  }

  lemma NewLinesShape(ls: seq<string>, origin: string)
    requires ls != [] && FirstEmpty(ls) == |ls| && AllOneLine(ls) && OneLine(origin)
    ensures var r := NewLines(ls, origin);
      r != [] && AllOneLine(r) && FirstEmpty(r) == |r|
  {
    OneLineOrigin(origin);
    OneLineField(origin);
    RealLinesShape(ls, origin);
    assert NewLines(ls, origin) == RealLines(ls, origin);
  }

  lemma MessageLines(ls: seq<string>, body: string)
    requires ls != [] && AllOneLine(ls) && FirstEmpty(ls) == |ls|
    ensures var m := Message(ls, body);
      HeadEnd(m) >= 0 && Lines(m[..HeadEnd(m)]) == ls && ExtractBody(m) == Some(body)
  {
    hide HeadEnd, Lines, JoinLines, FirstEmpty;
    BodyOfMessageIff(ls, body);
    LinesOfJoin(ls);
    assert Message(ls, body)[..|JoinLines(ls)|] == JoinLines(ls);
  }

  lemma OneLineField(origin: string)
    requires OneLine(origin)
    ensures Lines(ORIGIN_FIELD + AllowOrigin(origin)) == [ORIGIN_FIELD + AllowOrigin(origin)]
  {
    FieldHasNoCr();
    OneLineOrigin(origin);
    LinesWithPrefix(ORIGIN_FIELD, AllowOrigin(origin));
  }

  /** No line that is kept is an access-control line, and every other line is kept. */
  lemma {:induction false} KeptIsTheRest(ls: seq<string>, l: string)
    ensures multiset(Kept(ls))[l] == if StartsFold(l, "access-control-") then 0 else multiset(ls)[l]
    decreases |ls|
  {
    hide IsCors, StartsFold;
    IsCorsIff(l);
    if ls != [] {
      var n := |ls| - 1;
      KeptIsTheRest(ls[..n], l);
      assert ls == ls[..n] + [ls[n]];
    }
  }
}
