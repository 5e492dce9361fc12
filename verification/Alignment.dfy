// server/Code.gs: _doBatch; proxy/gas_relay.go: parseBatchBody and the delivery loop of flushBatch.
// Do the k-th submitter of a batch and the k-th request get the same answer?
module Alignment {
  import opened Options
  import opened Strings
  import B = Batching

  // ---------------------------------------------------------------------------
  // The script side
  // ---------------------------------------------------------------------------

  /** The `u` field of a request, as JSON allows it. */
  datatype UrlField = Missing | NotAString | Text(s: string)

  datatype Request = Request(u: UrlField, rest: string)

  datatype Json = Object(fields: seq<(string, string)>) | NotAnObject(text: string)

  type Reply = string
  type JsonParse = Reply -> Option<Json>

  predicate GoodUrl(r: Request) {
    r.u.Text? && (HasPrefix(Lower(r.u.s), "http://") || HasPrefix(Lower(r.u.s), "https://"))
  }

  /** A text that begins with http:// or https://, in small or capital letters. */
  predicate HttpUrl(u: UrlField) {
    u.Text? && (StartsFold(u.s, "http://") || StartsFold(u.s, "https://"))
  }

  /** Exactly the requests with such a url are fetched. */
  lemma GoodUrlIff(r: Request)
    ensures GoodUrl(r) <==> HttpUrl(r.u)
  {
    if r.u.Text? {
      LowerStartsIff(r.u.s, "http://");
      LowerStartsIff(r.u.s, "https://");
    }
  }

  lemma SchemeStarts(scheme: string, word: string, rest: string)
    requires EqualFold(scheme, word)
    ensures StartsFold(scheme + rest, word)
  {
    assert (scheme + rest)[..|word|] == scheme;
  }

  /** Every url of the two schemes is fetched, whatever comes behind, and no missing or other field is. */
  lemma HttpIsFetched(rest: string, more: string)
    ensures GoodUrl(Request(Text("http://" + rest), more)) && GoodUrl(Request(Text("https://" + rest), more))
    ensures GoodUrl(Request(Text("HTTP://" + rest), more)) && GoodUrl(Request(Text("HTTPS://" + rest), more))
    ensures !GoodUrl(Request(Missing, more)) && !GoodUrl(Request(NotAString, more))
    ensures !GoodUrl(Request(Text("ftp://" + rest), more))
  {
    SchemeStarts("http://", "http://", rest);
    SchemeStarts("https://", "https://", rest);
    SchemeStarts("HTTP://", "http://", rest);
    SchemeStarts("HTTPS://", "https://", rest);
    GoodUrlIff(Request(Text("http://" + rest), more));
    GoodUrlIff(Request(Text("https://" + rest), more));
    GoodUrlIff(Request(Text("HTTP://" + rest), more));
    GoodUrlIff(Request(Text("HTTPS://" + rest), more));
    var ftp := "ftp://" + rest;
    assert ftp[0] == 'f';
    assert !StartsFold(ftp, "http://") by {
      assert |ftp| >= 7 ==> ftp[..7][0] == 'f';
    }
    assert !StartsFold(ftp, "https://") by {
      assert |ftp| >= 8 ==> ftp[..8][0] == 'f';
    }
    GoodUrlIff(Request(Text(ftp), more));
  }

  function BadUrl(): Json {
    Object([("e", "bad url")])
  }

  function Parsed(reply: Reply, parse: JsonParse): Json {
    match parse(reply)
    case Some(j) => j
    case None => Object([("e", "invalid worker response"), ("raw", reply)])
  }

  /** What a request deserves on its own: an error, or the worker's reply to it. */
  function PerItem(r: Request, reply: Reply, parse: JsonParse): Json {
    if GoodUrl(r) then Parsed(reply, parse) else BadUrl()
  }

  function PerItems(rs: seq<Request>, replies: seq<Reply>, parse: JsonParse): (js: seq<Json>)
    requires |rs| == |replies|
    ensures |js| == |rs|
    ensures forall i :: 0 <= i < |rs| ==> js[i] == PerItem(rs[i], replies[i], parse)
  {
    seq(|rs|, i requires 0 <= i < |rs| => PerItem(rs[i], replies[i], parse))
  }

  /** The indices below n of the requests that are fetched. */
  function GoodBelow(rs: seq<Request>, n: nat): (r: seq<nat>)
    requires n <= |rs|
    ensures |r| <= n && forall i <- r :: i < n
  {
    if n == 0 then [] else GoodBelow(rs, n - 1) + if GoodUrl(rs[n - 1]) then [n - 1] else []
  }

  lemma {:induction false} GoodPrefix(rs: seq<Request>, m: nat, n: nat)
    requires m <= n <= |rs|
    ensures GoodBelow(rs, m) <= GoodBelow(rs, n)
    decreases n - m
  {
    if m < n {
      GoodPrefix(rs, m, n - 1);
    }
  }

  /** fetchAll: one reply per request fetched, in the order of the requests. */
  function FetchAll(fetched: seq<nat>, replies: seq<Reply>): (r: seq<Reply>)
    requires forall i <- fetched :: i < |replies|
    ensures |r| == |fetched|
  {
    seq(|fetched|, j requires 0 <= j < |fetched| => assert fetched[j] in fetched; replies[fetched[j]])
  }

  /**
   * `replies[i]` is what the worker says to request i, if it is asked. Filtering, fetching and putting the
   * replies back between the errors amounts to serving every request on its own.
   */
  method DoBatch(items: seq<Request>, replies: seq<Reply>, parse: JsonParse) returns (results: seq<Json>)
    requires |items| == |replies|
    ensures results == PerItems(items, replies, parse)
    ensures |results| == |items|
    ensures forall k :: 0 <= k < |items| && !HttpUrl(items[k].u) ==> results[k] == Object([("e", "bad url")])
    ensures forall k :: 0 <= k < |items| && HttpUrl(items[k].u) ==>
      results[k] == match parse(replies[k])
                    case Some(j) => j
                    case None => Object([("e", "invalid worker response"), ("raw", replies[k])])
  {
    var fetchArgs, errorMap := Filter(items);
    var responses: seq<Reply> := [];
    if |fetchArgs| > 0 {
      responses := FetchAll(fetchArgs, replies);
    }
    results := Reinterleave(items, errorMap, responses, replies, parse);
    hide HttpUrl, GoodUrl, GoodBelow;
    forall k | 0 <= k < |items| ensures GoodUrl(items[k]) <==> HttpUrl(items[k].u) {
      GoodUrlIff(items[k]);
    }
  }

  method Filter(items: seq<Request>) returns (fetchArgs: seq<nat>, errorMap: map<nat, string>)
    ensures fetchArgs == GoodBelow(items, |items|)
    ensures ErrorsOf(items, errorMap, |items|)
    ensures forall k: nat :: k in errorMap <==> k < |items| && !HttpUrl(items[k].u)
    ensures forall k <- errorMap :: errorMap[k] == "bad url"
  {
    hide GoodUrl, HttpUrl;
    forall k | 0 <= k < |items| ensures GoodUrl(items[k]) <==> HttpUrl(items[k].u) {
      GoodUrlIff(items[k]);
    }
    fetchArgs, errorMap := [], map[];
    var i := 0;
    while i < |items|
      invariant 0 <= i <= |items|
      invariant fetchArgs == GoodBelow(items, i)
      invariant ErrorsOf(items, errorMap, i)
    {
      if !GoodUrl(items[i]) {
        errorMap := errorMap[i := "bad url"];
      } else {
        fetchArgs := fetchArgs + [i];
      }
      i := i + 1;
    }
  }

  ghost predicate ErrorsOf(items: seq<Request>, errorMap: map<nat, string>, n: nat) {
    && (forall k: nat :: k in errorMap <==> k < n && k < |items| && !GoodUrl(items[k]))
    && (forall k <- errorMap :: errorMap[k] == "bad url")
  }

  method Reinterleave(items: seq<Request>, errorMap: map<nat, string>, responses: seq<Reply>,
                      ghost replies: seq<Reply>, parse: JsonParse)
    returns (results: seq<Json>)
    requires |items| == |replies| && ErrorsOf(items, errorMap, |items|)
    requires responses == FetchAll(GoodBelow(items, |items|), replies)
    ensures results == PerItems(items, replies, parse)
  {
    hide GoodUrl, Parsed;
    results := [];
    var rIdx := 0;
    var i := 0;
    while i < |items|
      invariant 0 <= i <= |items|
      invariant rIdx == |GoodBelow(items, i)|
      invariant |results| == i && forall k :: 0 <= k < i ==> results[k] == PerItem(items[k], replies[k], parse)
    {
      if i in errorMap {
        results := results + [Object([("e", errorMap[i])])];
      } else {
        GoodPrefix(items, i + 1, |items|);
        assert GoodBelow(items, |items|)[rIdx] == GoodBelow(items, i + 1)[rIdx] == i;
        var resp := responses[rIdx];
        rIdx := rIdx + 1;
        results := results + [Parsed(resp, parse)];
      }
      i := i + 1;
    }
  }

  // ---------------------------------------------------------------------------
  // The relay side
  // ---------------------------------------------------------------------------

  type Resp = string
  type Render = seq<(string, string)> -> Resp

  /** A decoded batch response, as far as parseBatchBody looks at it. */
  datatype Message = WithError | WithoutList | WithList(q: seq<Json>)

  /** The JSON decoder of the relay, and what the script's encoder makes of a batch. */
  type Decode = string -> Option<Message>
  type Encode = seq<Json> -> string

  /** A body that is taken for an error page, wherever in it the words stand. */
  predicate LooksLikeHtmlError(body: string) {
    && |body| >= 50
    && var t := Trim(Lower(body));
       && Contains(t, "<html")
       && (Contains(t, "error") || Contains(t, "try again") || Contains(t, "timeout") || Contains(t, "unavailable"))
  }

  /**
   * The page test, without reference to how it is made: at least fifty characters, and both "<html" and one of four
   * words somewhere, in small or capital letters.
   */
  lemma PageTestIff(body: string)
    ensures LooksLikeHtmlError(body) <==>
      && |body| >= 50 && HasFold(body, "<html")
      && (HasFold(body, "error") || HasFold(body, "try again") || HasFold(body, "timeout")
          || HasFold(body, "unavailable"))
  {
    hide HasFold, Contains, Trim, Lower;
    WordTestIff(body, "<html");
    WordTestIff(body, "error");
    WordTestIff(body, "try again");
    WordTestIff(body, "timeout");
    WordTestIff(body, "unavailable");
  }

  lemma WordTestIff(body: string, w: string)
    requires w != "" && Bare(w) && Small(w)
    ensures Contains(Trim(Lower(body)), w) <==> HasFold(body, w)
  {
    TrimKeeps(Lower(body), w);
    LowerContainsIff(body, w);
  }

  /** The objects of a batch, rendered; anything else is skipped. */
  function Rendered(q: seq<Json>, render: Render): seq<Resp> {
    if q == [] then [] else
    Rendered(q[..|q| - 1], render) +
    match q[|q| - 1]
    case Object(fields) => [render(fields)]
    case NotAnObject(_) => []
  }

  /** The results in a body; None is an error for the whole batch. */
  function BatchResults(body: string, expected: nat, decode: Decode, render: Render): Option<seq<Resp>> {
    if LooksLikeHtmlError(body) then None else
    match decode(Trim(body))
    case Some(WithList(q)) => if |q| == expected then Some(Rendered(q, render)) else None
    case _ => None
  }

  method ParseBatchBody(body: string, expected: nat, decode: Decode, render: Render)
    returns (results: Option<seq<Resp>>)
    ensures results == BatchResults(body, expected, decode, render)
    ensures results.Some? <==>
      && !LooksLikeHtmlError(body)
      && decode(Trim(body)).Some? && decode(Trim(body)).value.WithList? && |decode(Trim(body)).value.q| == expected
    ensures results.Some? ==> results.value == Rendered(decode(Trim(body)).value.q, render)
  {
    hide LooksLikeHtmlError, Trim;
    var text := Trim(body);
    if LooksLikeHtmlError(body) { return None; }
    var data := decode(text);
    if data.None? { return None; }
    match data.value {
      case WithError => return None;
      case WithoutList => return None;
      case WithList(q) =>
        if |q| != expected { return None; }
        var out: seq<Resp> := [];
        for i := 0 to |q|
          invariant out == Rendered(q[..i], render)
        {
          assert q[..i + 1][..i] == q[..i];
          if q[i].Object? {
            out := out + [render(q[i].fields)];
          }
        }
        assert q[..|q|] == q;
        return Some(out);
    }
  }

  /** A request that brought a body, or nothing. */
  type Attempt = Option<string>

  /**
   * The batch request over HTTP/2, once more with the next script when its body is no good, and over HTTP/1.1 when
   * HTTP/2 brings nothing. A second body that is no good is final.
   */
  method RelayBatch(first: Attempt, second: Attempt, viaHttp1: Attempt, n: nat, decode: Decode, render: Render)
    returns (results: Option<seq<Resp>>)
    ensures results == Relayed(first, second, viaHttp1, n, decode, render)
    ensures first.Some? && BatchResults(first.value, n, decode, render).Some? ==>
      results == BatchResults(first.value, n, decode, render)
    ensures first.Some? && BatchResults(first.value, n, decode, render).None? && second.Some? ==>
      results == BatchResults(second.value, n, decode, render)
    ensures (first.None? || (BatchResults(first.value, n, decode, render).None? && second.None?)) ==>
      results == if viaHttp1.Some? then BatchResults(viaHttp1.value, n, decode, render) else None
  {
    hide BatchResults;
    if first.Some? {
      results := ParseBatchBody(first.value, n, decode, render);
      if results.Some? { return; }
      if second.Some? {
        results := ParseBatchBody(second.value, n, decode, render);
        return;
      }
    }
    if viaHttp1.None? { return None; }
    results := ParseBatchBody(viaHttp1.value, n, decode, render);
  }

  function Relayed(first: Attempt, second: Attempt, viaHttp1: Attempt, n: nat, decode: Decode, render: Render)
    : Option<seq<Resp>>
  {
    if first.Some? && BatchResults(first.value, n, decode, render).Some? then
      BatchResults(first.value, n, decode, render)
    else
      var last := if first.Some? && second.Some? then second else viaHttp1;
      if last.Some? then BatchResults(last.value, n, decode, render) else None
  }

  predicate BringsAtMost(a: Attempt, body: string) {
    a == None || a == Some(body)
  }

  /** When every attempt that brings a body brings the same one, retrying makes no difference to what comes out. */
  lemma RetriesDoNotHelp(first: Attempt, second: Attempt, viaHttp1: Attempt, body: string, n: nat,
                         decode: Decode, render: Render)
    requires BringsAtMost(first, body) && BringsAtMost(second, body) && BringsAtMost(viaHttp1, body)
    ensures Relayed(first, second, viaHttp1, n, decode, render) ==
      if first.Some? || viaHttp1.Some? then BatchResults(body, n, decode, render) else None
  {
  }

  /** The loop over a batch of n submitters; it stops with an index out of range when results run out. */
  method DeliverBatch(n: nat, results: seq<Resp>) returns (delivered: seq<Resp>, panicked: bool)
    requires |results| <= n
    ensures delivered == results && panicked == (|results| < n)
  {
    delivered := [];
    panicked := false;
    var i := 0;
    while i < n
      invariant 0 <= i <= |results| && delivered == results[..i] && !panicked
    {
      if i >= |results| {
        panicked := true;
        break;
      }
      delivered := delivered + [results[i]];
      i := i + 1;
    }
  }

  /** The answers of a whole batch: its results as far as they go, or the same error for everybody. */
  method FlushBatch(n: nat, results: Option<seq<Resp>>, error: Resp) returns (delivered: seq<Resp>, panicked: bool)
    requires results.Some? ==> |results.value| <= n
    ensures results.None? ==> !panicked && |delivered| == n && forall k :: 0 <= k < n ==> delivered[k] == error
    ensures results.Some? ==> delivered == results.value && panicked == (|results.value| < n)
  {
    if results.None? {
      delivered := [];
      for i := 0 to n
        invariant |delivered| == i && forall k :: 0 <= k < i ==> delivered[k] == error
      {
        delivered := delivered + [error];
      }
      return delivered, false;
    }
    delivered, panicked := DeliverBatch(n, results.value);
  }

  // ---------------------------------------------------------------------------
  // End to end
  // ---------------------------------------------------------------------------

  predicate AllObjects(q: seq<Json>) {
    forall i :: 0 <= i < |q| ==> q[i].Object?
  }

  /** Position by position, submitter k gets entry k. */
  predicate Aligned(results: seq<Resp>, q: seq<Json>, render: Render) {
    |results| == |q| && forall k :: 0 <= k < |q| ==> q[k].Object? && results[k] == render(q[k].fields)
  }

  lemma {:induction false} RenderedAligned(q: seq<Json>, render: Render)
    ensures |Rendered(q, render)| <= |q|
    ensures AllObjects(q) ==> Aligned(Rendered(q, render), q, render)
    ensures !AllObjects(q) ==> |Rendered(q, render)| < |q|
    decreases |q|
  {
    if q != [] {
      var n := |q| - 1;
      RenderedAligned(q[..n], render);
      if AllObjects(q[..n]) && q[n].Object? {
        assert AllObjects(q);
      }
      if AllObjects(q) {
        assert AllObjects(q[..n]);
        forall k | 0 <= k < |q| ensures Rendered(q, render)[k] == render(q[k].fields) {
          if k < n {
            assert q[..n][k] == q[k];
          }
        }
      }
    }
  }

  /** The decoder gives back the batch that was encoded. */
  predicate RoundTrip(q: seq<Json>, encode: Encode, decode: Decode) {
    decode(Trim(encode(q))) == Some(WithList(q))
  }

  /** All the way from the requests of a batch to its results; None is an error for everybody. */
  function Served(rs: seq<Request>, replies: seq<Reply>, parse: JsonParse, encode: Encode, decode: Decode,
                  render: Render): Option<seq<Resp>>
    requires |rs| == |replies|
  {
    BatchResults(encode(PerItems(rs, replies, parse)), |rs|, decode, render)
  }

  /** Every reply the worker gives to a good url is an object, or not JSON at all. */
  predicate ObjectsOrNoJson(rs: seq<Request>, replies: seq<Reply>, parse: JsonParse)
    requires |rs| == |replies|
  {
    forall k :: 0 <= k < |rs| && GoodUrl(rs[k]) ==> parse(replies[k]).None? || parse(replies[k]).value.Object?
  }

  /**
   * Every submitter of a batch gets the result of its own request exactly when the encoded batch is not taken for an
   * error page and every reply to a good url is an object or not JSON. If it is taken for one, everybody gets the
   * error; otherwise results run out and the delivery loop fails.
   */
  lemma EndToEndAlignmentIff(rs: seq<Request>, replies: seq<Reply>, parse: JsonParse, encode: Encode, decode: Decode,
                             render: Render)
    requires |rs| == |replies| && RoundTrip(PerItems(rs, replies, parse), encode, decode)
    ensures var q := PerItems(rs, replies, parse);
      var out := Served(rs, replies, parse, encode, decode, render);
      && (out.Some? && Aligned(out.value, q, render) <==>
            !LooksLikeHtmlError(encode(q)) && ObjectsOrNoJson(rs, replies, parse))
      && (out.None? <==> LooksLikeHtmlError(encode(q)))
      && (out.Some? && !ObjectsOrNoJson(rs, replies, parse) ==> |out.value| < |rs|)
  {
    hide LooksLikeHtmlError, Rendered, GoodUrl;
    var q := PerItems(rs, replies, parse);
    RenderedAligned(q, render);
    ObjectsIff(rs, replies, parse);
  }

  /** An attempt at a batch: the replies the script collected for it, or nothing. */
  type Tried = Option<seq<Reply>>

  predicate Fits(rs: seq<Request>, t: Tried) {
    t.Some? ==> |t.value| == |rs|
  }

  /** What the attempt brings to the relay. */
  function Brought(rs: seq<Request>, t: Tried, parse: JsonParse, encode: Encode): Attempt
    requires Fits(rs, t)
  {
    if t.None? then None else Some(encode(PerItems(rs, t.value, parse)))
  }

  predicate ReadsBack(rs: seq<Request>, t: Tried, parse: JsonParse, encode: Encode, decode: Decode)
    requires Fits(rs, t)
  {
    t.Some? ==> RoundTrip(PerItems(rs, t.value, parse), encode, decode)
  }

  predicate BringsPage(rs: seq<Request>, t: Tried, parse: JsonParse, encode: Encode)
    requires Fits(rs, t)
  {
    t.Some? && LooksLikeHtmlError(encode(PerItems(rs, t.value, parse)))
  }

  /** The attempt that counts: the first, the second when the first brings a page, the third when HTTP/2 fails. */
  function Decisive(rs: seq<Request>, first: Tried, second: Tried, viaHttp1: Tried, parse: JsonParse, encode: Encode)
    : (t: Tried)
    requires Fits(rs, first) && Fits(rs, second) && Fits(rs, viaHttp1)
    ensures Fits(rs, t)
  {
    if first.None? then viaHttp1
    else if !BringsPage(rs, first, parse, encode) then first
    else if second.Some? then second
    else viaHttp1
  }

  /**
   * Over up to three attempts, each with its own replies: the batch has results exactly when the attempt that counts
   * brings something that is no page, and then everybody gets the result of its own request in that attempt exactly
   * when all its replies to good urls are objects or not JSON.
   */
  lemma AlignmentOverAttempts(rs: seq<Request>, first: Tried, second: Tried, viaHttp1: Tried,
                              parse: JsonParse, encode: Encode, decode: Decode, render: Render)
    requires Fits(rs, first) && Fits(rs, second) && Fits(rs, viaHttp1)
    requires ReadsBack(rs, first, parse, encode, decode) && ReadsBack(rs, second, parse, encode, decode)
    requires ReadsBack(rs, viaHttp1, parse, encode, decode)
    ensures var out := Relayed(Brought(rs, first, parse, encode), Brought(rs, second, parse, encode),
                               Brought(rs, viaHttp1, parse, encode), |rs|, decode, render);
      var t := Decisive(rs, first, second, viaHttp1, parse, encode);
      && (out.Some? <==> t.Some? && !BringsPage(rs, t, parse, encode))
      && (out.Some? ==>
            (Aligned(out.value, PerItems(rs, t.value, parse), render) <==> ObjectsOrNoJson(rs, t.value, parse)))
  {
    hide LooksLikeHtmlError, BatchResults, PerItems, Aligned, ObjectsOrNoJson, RoundTrip;
    if first.Some? { EndToEndAlignmentIff(rs, first.value, parse, encode, decode, render); }
    if second.Some? { EndToEndAlignmentIff(rs, second.value, parse, encode, decode, render); }
    if viaHttp1.Some? { EndToEndAlignmentIff(rs, viaHttp1.value, parse, encode, decode, render); }
  }

  lemma ObjectsIff(rs: seq<Request>, replies: seq<Reply>, parse: JsonParse)
    requires |rs| == |replies|
    ensures AllObjects(PerItems(rs, replies, parse)) <==> ObjectsOrNoJson(rs, replies, parse)
  {
    hide GoodUrl;
    var q := PerItems(rs, replies, parse);
    assert forall k :: 0 <= k < |rs| ==>
      (q[k].Object? <==> (GoodUrl(rs[k]) ==> parse(replies[k]).None? || parse(replies[k]).value.Object?));
  }

  function GoodRequest(): Request {
    Request(Text("http://a"), "")
  }

  lemma GoodRequestIsGood()
    ensures GoodUrl(GoodRequest())
  {
    var l := Lower("http://a");
    assert forall i :: 0 <= i < 7 ==> l[i] == "http://"[i];
    assert l[..7] == "http://";
  }

  /** When a reply is not an object, the next submitter's result goes to the wrong submitter before the failure. */
  lemma SkippedEntryMisaligns(parse: JsonParse, render: Render)
    requires parse("[]") == Some(NotAnObject("[]")) && parse("{}") == Some(Object([]))
    ensures Rendered(PerItems([GoodRequest(), GoodRequest()], ["[]", "{}"], parse), render) == [render([])]
  {
    GoodRequestIsGood();
    var q := PerItems([GoodRequest(), GoodRequest()], ["[]", "{}"], parse);
    assert q == [NotAnObject("[]"), Object([])];
    assert q[..1] == [NotAnObject("[]")] && q[..1][..0] == [];
    assert Rendered(q[..1], render) == Rendered([], render) + [];
    assert Rendered(q, render) == Rendered(q[..1], render) + [render([])];
  }

  // ---------------------------------------------------------------------------
  // A page among the replies
  // ---------------------------------------------------------------------------

  /** What a worker that fails may show instead of JSON. */
  const PAGE: string := "<html" + "><body><h1>" + "Error" + " 1101</h1>the worker threw an exception</body></html>"

  lemma PartOfPart(s: string, p: string, w: string, j: nat)
    requires Contains(s, p) && j + |w| <= |p| && Lower(p)[j..j + |w|] == w
    ensures Contains(Lower(s), w)
  {
    var k: nat :| k <= |s| && OccursAt(s, p, k);
    forall i | 0 <= i < |w| ensures Lower(s)[k + j + i] == w[i] {
      assert s[k..k + |p|][j + i] == s[k + (j + i)];
      assert Lower(p)[j..j + |w|][i] == Lower(p)[j + i];
    }
    assert Lower(s)[k + j..k + j + |w|] == w;
    assert OccursAt(Lower(s), w, k + j);
  }

  lemma PageWords()
    ensures |PAGE| >= 50 && Lower(PAGE)[0..5] == "<html" && Lower(PAGE)[16..21] == "error"
  {
    assert |"><body><h1>"| == 11 && |" 1101</h1>the worker threw an exception</body></html>"| == 53;
    assert PAGE[0..5] == "<html" && PAGE[16..21] == "Error";
    LowerWord(PAGE, 0, "<html", "<html");
    LowerWord(PAGE, 16, "Error", "error");
  }

  lemma LowerWord(s: string, i: nat, w: string, l: string)
    requires OccursAt(s, w, i) && |l| == |w| && forall k :: 0 <= k < |w| ==> LowerChar(w[k]) == l[k]
    ensures Lower(s)[i..i + |w|] == l
  {
    forall k | 0 <= k < |w| ensures Lower(s)[i..i + |w|][k] == l[k] {
      assert s[i..i + |w|][k] == s[i + k];
    }
  }

  /** A body with the page anywhere in it is taken for an error page. */
  lemma PageIsFound(body: string)
    requires Contains(body, PAGE)
    ensures LooksLikeHtmlError(body)
  {
    PageWords();
    PartOfPart(body, PAGE, "<html", 0);
    PartOfPart(body, PAGE, "error", 16);
    TrimKeeps(Lower(body), "<html");
    TrimKeeps(Lower(body), "error");
  }

  /**
   * One page among the replies fails the whole batch, although no reply is JSON of the wrong kind: the script passes
   * the text of the page on, and an encoder that leaves letters and angle brackets alone puts it into the body.
   */
  lemma PageFailsBatch(parse: JsonParse, encode: Encode, decode: Decode, render: Render)
    requires parse(PAGE).None? && parse("{}") == Some(Object([]))
    requires Contains(encode(PerItems([GoodRequest(), GoodRequest()], [PAGE, "{}"], parse)), PAGE)
    ensures ObjectsOrNoJson([GoodRequest(), GoodRequest()], [PAGE, "{}"], parse)
    ensures PerItems([GoodRequest(), GoodRequest()], [PAGE, "{}"], parse)[0] ==
      Object([("e", "invalid worker response"), ("raw", PAGE)])
    ensures Served([GoodRequest(), GoodRequest()], [PAGE, "{}"], parse, encode, decode, render) == None
  {
    GoodRequestIsGood();
    PageIsFound(encode(PerItems([GoodRequest(), GoodRequest()], [PAGE, "{}"], parse)));
  }

  // ---------------------------------------------------------------------------
  // Composed with the batching protocol
  // ---------------------------------------------------------------------------

  function RequestsOf(fl: B.Flight, request: B.Item -> Request): (rs: seq<Request>)
    ensures |rs| == |fl.items|
  {
    seq(|fl.items|, i requires 0 <= i < |fl.items| => request(fl.items[i]))
  }

  /** The results of a flight, if there are any yet, are those the script serves, all of them objects. */
  predicate ServedByScript(fl: B.Flight, request: B.Item -> Request, replies: seq<Reply>, parse: JsonParse,
                           encode: Encode, decode: Decode, render: Render) {
    && |replies| == |fl.items|
    && var rs := RequestsOf(fl, request);
       && ObjectsOrNoJson(rs, replies, parse) && RoundTrip(PerItems(rs, replies, parse), encode, decode)
       && (fl.results.Some? ==> Served(rs, replies, parse, encode, decode, render) == Some(fl.results.value))
  }

  /** The response is the rendering of what the request deserves for this reply. */
  predicate OwnResult(r: Request, reply: Reply, parse: JsonParse, render: Render, resp: Resp) {
    PerItem(r, reply, parse).Object? && resp == render(PerItem(r, reply, parse).fields)
  }

  /** Position k of the flight belongs to the item of the answer, which is what the k-th reply makes of its request. */
  predicate OwnAnswer(fl: B.Flight, k: nat, request: B.Item -> Request, replies: seq<Reply>, parse: JsonParse,
                      render: Render, a: (B.Item, Resp)) {
    && k < |fl.items| == |replies| && fl.items[k] == a.0
    && OwnResult(request(a.0), replies[k], parse, render, a.1)
  }

  /**
   * In every run in which the flights that carry an item are served by the script, with objects or no JSON as replies
   * (other flights may fail as they like), an answer handed out for the item is the result of its own request: the
   * one at its own position.
   */
  lemma SubmitterGetsOwnResult(steps: seq<B.Step>, request: B.Item -> Request, replies: nat -> seq<Reply>,
                               parse: JsonParse, encode: Encode, decode: Decode, render: Render, a: (B.Item, Resp))
    requires B.Run(B.INIT, steps) && a in B.Exec(B.INIT, steps).answers
    requires forall f :: 0 <= f < |B.Exec(B.INIT, steps).flights| && a.0 in B.Exec(B.INIT, steps).flights[f].items ==>
               ServedByScript(B.Exec(B.INIT, steps).flights[f], request, replies(f), parse, encode, decode, render)
    ensures exists f: nat, k: nat :: f < |B.Exec(B.INIT, steps).flights| &&
              OwnAnswer(B.Exec(B.INIT, steps).flights[f], k, request, replies(f), parse, render, a)
  {
    B.AnswersAreOwn(steps, a);
    var s := B.Exec(B.INIT, steps);
    var f, k :| 0 <= f < |s.flights| && B.DeliveredAt(s.flights[f], k, a);
    var fl := s.flights[f];
    assert fl.items[k] == a.0;
    OwnAnswerAt(fl, k, request, replies(f), parse, encode, decode, render, a);
  }

  lemma OwnAnswerAt(fl: B.Flight, k: nat, request: B.Item -> Request, replies: seq<Reply>, parse: JsonParse,
                    encode: Encode, decode: Decode, render: Render, a: (B.Item, Resp))
    requires B.DeliveredAt(fl, k, a) && ServedByScript(fl, request, replies, parse, encode, decode, render)
    ensures OwnAnswer(fl, k, request, replies, parse, render, a)
  {
    hide LooksLikeHtmlError, GoodUrl;
    var rs := RequestsOf(fl, request);
    EndToEndAlignmentIff(rs, replies, parse, encode, decode, render);
  }
}
